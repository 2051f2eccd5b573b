/** The semantic scene graph and its two validators. */
module Scene {
  import opened Common

  const MAX_CHILDREN := 64
  const MAX_DEPTH := 32
  const MAX_NODES := 512

  datatype ComponentKind =
    | Region | Stack | Grid | Split | Sidebar | ActionBar | Card | Group | Collapse | Repeater | ScrollRegion | Divider
    | Heading | TextBlock | InlineContent | CodeBlock | Badge | KeyFigure | EmptyState | Icon
    | Button | TextField | TextArea | NumberField | Select | MultiSelect | Switch | Checkbox | Slider | DateTimeField
    | Table | RecordSummary | DatasetChart | Timeline | Difference | Progress
    | Tabs | Breadcrumb | Menu | Pager | Link
    | Alert | Toast | InlineMessage | Skeleton | Spinner | StatusDot | Dialog
    | CapabilityCard | ConsentForm | SecurePrompt | FilePicker
    | ImageView | AudioPlayer | VideoPlayer | FileDetails | MediaEmbed
    | CanvasStage | DiagramView | AnnotationLayer | TerminalView | NativePortal

  type StateBits = bv16

  const INTERACTION: StateBits := 0x000F
  const SELECTABLE: StateBits := 0x001F
  const STATUS: StateBits := 0x07E0
  const EMPTY: StateBits := 0x0080

  const GENERAL_PROPS: set<string> := {
    "title", "label", "name", "subtitle", "placeholder", "status", "value", "source", "text", "language", "alt",
    "duration", "action", "min", "max", "step", "options", "columns", "uri", "mime", "size", "modified", "progress",
    "collapse", "gap", "role"}

  /** What a kind requires and accepts. Every kind accepts the general properties. */
  datatype Contract = Contract(required: seq<string>, allowedState: StateBits, maxChildren: nat)

  function ContractOf(kind: ComponentKind): Contract {
    match kind
    case Heading | TextBlock | InlineContent => Contract(["text"], INTERACTION, 0)
    case CodeBlock => Contract(["text", "language"], INTERACTION, 0)
    case Button => Contract(["label", "action"], SELECTABLE | STATUS, 0)
    case TextField | TextArea | NumberField | DateTimeField => Contract(["value"], SELECTABLE | STATUS, 0)
    case Select | MultiSelect => Contract(["value", "options"], SELECTABLE | STATUS, 0)
    case Switch | Checkbox => Contract(["value"], SELECTABLE | STATUS, 0)
    case Slider => Contract(["value", "min", "max", "step"], SELECTABLE | STATUS, 0)
    case Table => Contract(["columns"], SELECTABLE | STATUS, MAX_CHILDREN)
    case DatasetChart => Contract(["source"], STATUS, 0)
    case Progress => Contract(["value", "min", "max"], STATUS, 0)
    case Tabs => Contract(["options"], SELECTABLE, MAX_CHILDREN)
    case Link => Contract(["label", "uri"], INTERACTION, 0)
    case ImageView => Contract(["source", "alt"], STATUS, 0)
    case AudioPlayer | VideoPlayer => Contract(["source", "duration"], STATUS, 0)
    case FileDetails => Contract(["name", "size"], STATUS, 0)
    case NativePortal => Contract(["status"], STATUS | EMPTY, 0)
    case Repeater | Grid | Stack | Split => Contract([], STATUS, MAX_CHILDREN)
    case _ => Contract([], INTERACTION | STATUS, MAX_CHILDREN)
  }

  datatype PropValue = Text(text: string) | Number(number: real) | Flag(flag: bool) | Token(token: string)

  type Props = map<string, PropValue>

  datatype Accessibility = Accessibility(role: string, name: string, description: Option<string>)

  /** A node identity: a 64-bit key hash, here any natural number. */
  type NodeId = nat

  /** Everything a node carries except its children. */
  datatype Item = Item(id: NodeId, kind: ComponentKind, props: Props, state: StateBits, accessibility: Accessibility)

  datatype SemanticNode = Node(item: Item, children: seq<SemanticNode>)

  datatype SceneError =
    | TooDeep(id: NodeId)
    | TooManyChildren(id: NodeId)
    | TooManyNodes
    | DuplicateNode(id: NodeId)
    | SelfParent(id: NodeId)
    | UnsupportedState(id: NodeId, kind: ComponentKind)
    | MissingProperty(id: NodeId, kind: ComponentKind, key: string)
    | UnknownProperty(id: NodeId, kind: ComponentKind)

  /** The first required key that is absent. */
  function FirstMissing(required: seq<string>, props: Props): (r: Option<string>)
    ensures r == None <==> forall key | key in required :: key in props
  {
    if required == [] then None
    else if required[0] !in props then Some(required[0])
    else FirstMissing(required[1..], props)
  }

  /** The checks of one node that do not look below it. */
  function LocalError(item: Item, fanOut: nat): Option<SceneError> {
    var contract := ContractOf(item.kind);
    if fanOut > contract.maxChildren then Some(TooManyChildren(item.id))
    else if item.state & !contract.allowedState != 0 then Some(UnsupportedState(item.id, item.kind))
    else match FirstMissing(contract.required, item.props)
      case Some(key) => Some(MissingProperty(item.id, item.kind, key))
      case None => if item.props.Keys <= GENERAL_PROPS then None else Some(UnknownProperty(item.id, item.kind))
  }

  // ---- The contracts, key by key and state by state ----

  /** The kinds that need a given property. */
  predicate Needs(kind: ComponentKind, key: string) {
    || (key == "text" && (kind.Heading? || kind.TextBlock? || kind.InlineContent? || kind.CodeBlock?))
    || (key == "language" && kind.CodeBlock?)
    || (key == "label" && (kind.Button? || kind.Link?))
    || (key == "action" && kind.Button?)
    || (key == "uri" && kind.Link?)
    || (key == "value" && (IsField(kind) || kind.Slider? || kind.Progress?))
    || (key == "options" && (kind.Select? || kind.MultiSelect? || kind.Tabs?))
    || ((key == "min" || key == "max") && (kind.Slider? || kind.Progress?))
    || (key == "step" && kind.Slider?)
    || (key == "columns" && kind.Table?)
    || (key == "source" && (kind.DatasetChart? || kind.ImageView? || kind.AudioPlayer? || kind.VideoPlayer?))
    || (key == "alt" && kind.ImageView?)
    || (key == "duration" && (kind.AudioPlayer? || kind.VideoPlayer?))
    || ((key == "name" || key == "size") && kind.FileDetails?)
    || (key == "status" && kind.NativePortal?)
  }

  /** Where a value is entered. */
  predicate IsField(kind: ComponentKind) {
    || kind.TextField? || kind.TextArea? || kind.NumberField? || kind.DateTimeField? || kind.Select? || kind.MultiSelect?
    || kind.Switch? || kind.Checkbox?
  }

  predicate IsProse(kind: ComponentKind) {
    kind.Heading? || kind.TextBlock? || kind.InlineContent? || kind.CodeBlock? || kind.Link?
  }

  predicate IsMedia(kind: ComponentKind) {
    || kind.DatasetChart? || kind.Progress? || kind.ImageView? || kind.AudioPlayer? || kind.VideoPlayer? || kind.FileDetails?
    || kind.NativePortal?
  }

  predicate IsFrame(kind: ComponentKind) {
    kind.Repeater? || kind.Grid? || kind.Stack? || kind.Split?
  }

  /** Prose, fields, buttons, sliders, media and the portal hold nothing; all others up to 64 children. */
  function Room(kind: ComponentKind): nat {
    if IsProse(kind) || IsField(kind) || IsMedia(kind) || kind.Button? || kind.Slider? then 0 else 64
  }

  /** The states a kind may be in. Bits 0 to 3 are interaction, bit 4 is selection, and bits 5 to 10 are status. */
  function States(kind: ComponentKind): StateBits {
    if IsProse(kind) then 0x000F
    else if kind.Tabs? then 0x001F
    else if IsField(kind) || kind.Button? || kind.Slider? || kind.Table? then 0x07FF
    else if IsMedia(kind) || IsFrame(kind) then 0x07E0
    else 0x07EF
  }

  lemma MaskSums()
    ensures SELECTABLE | STATUS == 0x07FF && INTERACTION | STATUS == 0x07EF && STATUS | EMPTY == STATUS
  {
  }

  predicate IsControl(kind: ComponentKind) {
    kind.Button? || kind.Slider? || kind.Table? || kind.Tabs?
  }

  lemma ProseContract(kind: ComponentKind)
    requires IsProse(kind)
    ensures ContractOf(kind) == Contract(if kind.CodeBlock? then ["text", "language"] else if kind.Link? then ["label", "uri"] else ["text"],
                                         INTERACTION, 0)
  {
  }

  lemma FieldContract(kind: ComponentKind)
    requires IsField(kind)
    ensures ContractOf(kind) == Contract(if kind.Select? || kind.MultiSelect? then ["value", "options"] else ["value"], SELECTABLE | STATUS, 0)
  {
  }

  lemma ControlContract(kind: ComponentKind)
    requires IsControl(kind)
    ensures kind.Button? ==> ContractOf(kind) == Contract(["label", "action"], SELECTABLE | STATUS, 0)
    ensures kind.Slider? ==> ContractOf(kind) == Contract(["value", "min", "max", "step"], SELECTABLE | STATUS, 0)
    ensures kind.Table? ==> ContractOf(kind) == Contract(["columns"], SELECTABLE | STATUS, MAX_CHILDREN)
    ensures kind.Tabs? ==> ContractOf(kind) == Contract(["options"], SELECTABLE, MAX_CHILDREN)
  {
  }

  lemma DataContract(kind: ComponentKind)
    ensures kind.DatasetChart? ==> ContractOf(kind) == Contract(["source"], STATUS, 0)
    ensures kind.Progress? ==> ContractOf(kind) == Contract(["value", "min", "max"], STATUS, 0)
    ensures kind.NativePortal? ==> ContractOf(kind) == Contract(["status"], STATUS | EMPTY, 0)
  {
  }

  lemma FileContract(kind: ComponentKind)
    ensures kind.ImageView? ==> ContractOf(kind) == Contract(["source", "alt"], STATUS, 0)
    ensures kind.AudioPlayer? || kind.VideoPlayer? ==> ContractOf(kind) == Contract(["source", "duration"], STATUS, 0)
    ensures kind.FileDetails? ==> ContractOf(kind) == Contract(["name", "size"], STATUS, 0)
  {
  }

  lemma OtherContract(kind: ComponentKind)
    requires !IsProse(kind) && !IsField(kind) && !IsControl(kind) && !IsMedia(kind)
    ensures ContractOf(kind) == Contract([], if IsFrame(kind) then STATUS else INTERACTION | STATUS, MAX_CHILDREN)
  {
  }

  /** The contract of each kind, by its group. */
  lemma ContractExactly(kind: ComponentKind)
    ensures ContractOf(kind).maxChildren == Room(kind) && ContractOf(kind).allowedState == States(kind)
  {
    MaskSums();
    hide ContractOf;
    if IsProse(kind) { ProseContract(kind); }
    else if IsField(kind) { FieldContract(kind); }
    else if IsControl(kind) { ControlContract(kind); }
    else if IsMedia(kind) { DataContract(kind); FileContract(kind); }
    else { OtherContract(kind); }
  }

  lemma ProseNeeds(kind: ComponentKind, key: string)
    requires IsProse(kind)
    ensures key in ContractOf(kind).required <==> Needs(kind, key)
  {
    ProseContract(kind);
    hide ContractOf;
  }

  lemma FieldNeeds(kind: ComponentKind, key: string)
    requires IsField(kind)
    ensures key in ContractOf(kind).required <==> Needs(kind, key)
  {
    FieldContract(kind);
    hide ContractOf;
  }

  lemma ControlNeeds(kind: ComponentKind, key: string)
    requires IsControl(kind)
    ensures key in ContractOf(kind).required <==> Needs(kind, key)
  {
    ControlContract(kind);
    hide ContractOf;
  }

  lemma DataNeeds(kind: ComponentKind, key: string)
    requires kind.DatasetChart? || kind.Progress? || kind.NativePortal?
    ensures key in ContractOf(kind).required <==> Needs(kind, key)
  {
    DataContract(kind);
    hide ContractOf;
  }

  lemma FileNeeds(kind: ComponentKind, key: string)
    requires kind.ImageView? || kind.AudioPlayer? || kind.VideoPlayer? || kind.FileDetails?
    ensures key in ContractOf(kind).required <==> Needs(kind, key)
  {
    FileContract(kind);
    hide ContractOf;
  }

  lemma OtherNeeds(kind: ComponentKind, key: string)
    requires !IsProse(kind) && !IsField(kind) && !IsControl(kind) && !IsMedia(kind)
    ensures key in ContractOf(kind).required <==> Needs(kind, key)
  {
    OtherContract(kind);
    hide ContractOf;
  }

  /** Which kinds need a property, by their contracts. */
  lemma NeedsExactly(kind: ComponentKind, key: string)
    ensures key in ContractOf(kind).required <==> Needs(kind, key)
  {
    hide ContractOf, Needs, IsProse, IsField, IsControl;
    if IsProse(kind) { ProseNeeds(kind, key); }
    else if IsField(kind) { FieldNeeds(kind, key); }
    else if IsControl(kind) { ControlNeeds(kind, key); }
    else if kind.DatasetChart? || kind.Progress? || kind.NativePortal? { DataNeeds(kind, key); }
    else if IsMedia(kind) { FileNeeds(kind, key); }
    else { OtherNeeds(kind, key); }
  }

  /** What one node is refused for: too many children first, then a state, then a missing property, then an unknown one. */
  lemma LocalErrorExactly(item: Item, fanOut: nat)
    ensures var crowded := fanOut > Room(item.kind);
            var odd := item.state & !States(item.kind) != 0;
            var bare := Lacking(item);
            match LocalError(item, fanOut)
            case Some(TooManyChildren(id)) => id == item.id && crowded
            case Some(UnsupportedState(id, kind)) => id == item.id && kind == item.kind && !crowded && odd
            case Some(MissingProperty(id, kind, key)) =>
              id == item.id && kind == item.kind && !crowded && !odd && Needs(item.kind, key) && key !in item.props
            case Some(UnknownProperty(id, kind)) => id == item.id && kind == item.kind && !crowded && !odd && !bare && !(item.props.Keys <= GENERAL_PROPS)
            case Some(_) => false
            case None => !crowded && !odd && !bare && item.props.Keys <= GENERAL_PROPS
  {
    hide *;
    ContractExactly(item.kind);
    LocalErrorFor(item, fanOut, ContractOf(item.kind));
    LackingIs(item);
    NeededOnes(item);
  }

  /** A property that a node's kind needs is missing. */
  ghost predicate Lacking(item: Item) {
    exists key :: Needs(item.kind, key) && key !in item.props
  }

  predicate Absent(required: seq<string>, props: Props) {
    exists key | key in required :: key !in props
  }

  lemma NeededOnes(item: Item)
    ensures forall key :: key in ContractOf(item.kind).required <==> Needs(item.kind, key)
  {
    hide *;
    forall key ensures key in ContractOf(item.kind).required <==> Needs(item.kind, key) { NeedsExactly(item.kind, key); }
  }

  lemma LackingIs(item: Item)
    ensures Lacking(item) <==> Absent(ContractOf(item.kind).required, item.props)
  {
    NeededOnes(item);
    hide ContractOf, Needs;
  }

  /** The same, for the contract of its kind. */
  lemma LocalErrorFor(item: Item, fanOut: nat, c: Contract)
    requires c == ContractOf(item.kind)
    ensures var crowded := fanOut > c.maxChildren;
            var odd := item.state & !c.allowedState != 0;
            var bare := Absent(c.required, item.props);
            match LocalError(item, fanOut)
            case Some(TooManyChildren(id)) => id == item.id && crowded
            case Some(UnsupportedState(id, kind)) => id == item.id && kind == item.kind && !crowded && odd
            case Some(MissingProperty(id, kind, key)) =>
              id == item.id && kind == item.kind && !crowded && !odd && key in c.required && key !in item.props
            case Some(UnknownProperty(id, kind)) => id == item.id && kind == item.kind && !crowded && !odd && !bare && !(item.props.Keys <= GENERAL_PROPS)
            case Some(_) => false
            case None => !crowded && !odd && !bare && item.props.Keys <= GENERAL_PROPS
  {
    MissingIsRequired(c.required, item.props);
    hide ContractOf, FirstMissing;
  }

  lemma {:induction false} MissingIsRequired(required: seq<string>, props: Props)
    ensures var r := FirstMissing(required, props); r.Some? ==> r.value in required && r.value !in props
  {
    if required != [] { MissingIsRequired(required[1..], props); }
  }

  /** Node count so far and identities seen so far. */
  datatype Progressed = Progressed(total: nat, seen: set<NodeId>)

  function ValidateAt(node: SemanticNode, depth: nat, seen: set<NodeId>): Result<Progressed, SceneError>
    decreases node, 1
  {
    var id := node.item.id;
    if depth > MAX_DEPTH then Err(TooDeep(id))
    else if id in seen then Err(DuplicateNode(id))
    else match LocalError(node.item, |node.children|)
      case Some(error) => Err(error)
      case None => ValidateChildren(node.children, id, depth, Progressed(1, seen + {id}))
  }

  function ValidateChildren(children: seq<SemanticNode>, parent: NodeId, depth: nat, soFar: Progressed): Result<Progressed, SceneError>
    decreases children, 0
  {
    if children == [] then Ok(soFar)
    else match ValidateAt(children[0], depth + 1, soFar.seen)
      case Err(error) => Err(error)
      case Ok(child) =>
        var total := soFar.total + child.total;
        if total > MAX_NODES then Err(TooManyNodes)
        else if children[0].item.id == parent then Err(SelfParent(parent))
        else ValidateChildren(children[1..], parent, depth, Progressed(total, child.seen))
  }

  /** `validate`: the node count, or the first violation. */
  function Validate(root: SemanticNode): Result<nat, SceneError> {
    match ValidateAt(root, 0, {})
    case Ok(done) => Ok(done.total)
    case Err(error) => Err(error)
  }

  // ---- What validity means ----

  /** The nodes in reading order, each with its number of children. */
  datatype Visit = Visit(item: Item, arity: nat)

  function Walk(node: SemanticNode): seq<Visit>
    decreases node, 1
  {
    [Visit(node.item, |node.children|)] + WalkAll(node.children)
  }

  function WalkAll(nodes: seq<SemanticNode>): seq<Visit>
    decreases nodes, 0
  {
    if nodes == [] then [] else Walk(nodes[0]) + WalkAll(nodes[1..])
  }

  predicate ShallowFrom(node: SemanticNode, depth: nat)
    decreases node, 1
  {
    depth <= 32 && AllShallow(node.children, depth + 1)
  }

  predicate AllShallow(nodes: seq<SemanticNode>, depth: nat)
    decreases nodes, 0
  {
    nodes == [] || (ShallowFrom(nodes[0], depth) && AllShallow(nodes[1..], depth))
  }

  function Ids(visits: seq<Visit>): set<NodeId> {
    set v | v in visits :: v.item.id
  }

  /** Allowed state, fan-out and properties; all required properties present. */
  ghost predicate NodeOk(v: Visit) {
    && v.arity <= Room(v.item.kind)
    && v.item.state & !States(v.item.kind) == 0
    && (forall key | Needs(v.item.kind, key) :: key in v.item.props)
    && v.item.props.Keys <= GENERAL_PROPS
  }

  ghost predicate Distinct(visits: seq<Visit>) {
    forall i, j | 0 <= i < j < |visits| :: visits[i].item.id != visits[j].item.id
  }

  ghost predicate Fine(visits: seq<Visit>, seen: set<NodeId>) {
    && Distinct(visits)
    && Ids(visits) !! seen
    && forall v | v in visits :: NodeOk(v)
  }

  lemma LocalOk(item: Item, fanOut: nat)
    ensures LocalError(item, fanOut) == None <==> NodeOk(Visit(item, fanOut))
  {
    LocalErrorExactly(item, fanOut);
    hide LocalError, Needs, Room, States;
  }

  lemma FineConcat(a: seq<Visit>, b: seq<Visit>, seen: set<NodeId>)
    ensures Fine(a + b, seen) <==> Fine(a, seen) && Fine(b, seen + Ids(a))
    ensures Ids(a + b) == Ids(a) + Ids(b)
  {
    hide NodeOk;
    assert forall v :: v in a + b <==> v in a || v in b;
    if Fine(a + b, seen) {
      forall v, w | v in a && w in b ensures v.item.id != w.item.id {
        var i, j :| 0 <= i < |a| && a[i] == v && 0 <= j < |b| && b[j] == w;
        assert (a + b)[i] == v && (a + b)[|a| + j] == w;
      }
      assert forall i | 0 <= i < |a| :: (a + b)[i] == a[i];
      assert forall i | 0 <= i < |b| :: (a + b)[|a| + i] == b[i];
    }
    if Fine(a, seen) && Fine(b, seen + Ids(a)) {
      forall i, j | 0 <= i < j < |a + b| ensures (a + b)[i].item.id != (a + b)[j].item.id {
        if i < |a| <= j {
          assert a[i] in a && b[j - |a|] in b;
          assert a[i].item.id in Ids(a) && b[j - |a|].item.id in Ids(b);
        }
      }
    }
  }

  lemma FineOne(v: Visit, seen: set<NodeId>)
    ensures Fine([v], seen) <==> v.item.id !in seen && NodeOk(v)
    ensures Ids([v]) == {v.item.id}
  {
    assert [v][0] in [v];
  }

  lemma {:induction false} ValidateAtExact(node: SemanticNode, depth: nat, seen: set<NodeId>)
    ensures ValidateAt(node, depth, seen).Ok? <==> ShallowFrom(node, depth) && Fine(Walk(node), seen) && |Walk(node)| <= MAX_NODES
    ensures ValidateAt(node, depth, seen).Ok? ==> ValidateAt(node, depth, seen).value == Progressed(|Walk(node)|, seen + Ids(Walk(node)))
    decreases node, 1
  {
    hide NodeOk, LocalError, Fine, Ids;
    var here := Visit(node.item, |node.children|);
    LocalOk(node.item, |node.children|);
    FineOne(here, seen);
    FineConcat([here], WalkAll(node.children), seen);
    ValidateChildrenExact(node.children, node.item.id, depth, Progressed(1, seen + {node.item.id}));
    assert seen + {node.item.id} + Ids(WalkAll(node.children)) == seen + ({node.item.id} + Ids(WalkAll(node.children)));
  }

  lemma {:induction false} ValidateChildrenExact(children: seq<SemanticNode>, parent: NodeId, depth: nat, soFar: Progressed)
    requires parent in soFar.seen && soFar.total <= MAX_NODES
    ensures var r := ValidateChildren(children, parent, depth, soFar);
            && (r.Ok? <==> AllShallow(children, depth + 1) && Fine(WalkAll(children), soFar.seen) && soFar.total + |WalkAll(children)| <= MAX_NODES)
            && (r.Ok? ==> r.value == Progressed(soFar.total + |WalkAll(children)|, soFar.seen + Ids(WalkAll(children))))
    decreases children, 0
  {
    if children == [] {
      assert soFar.seen + Ids([]) == soFar.seen;
    } else {
      var head, tail := children[0], children[1..];
      var w1, w2 := Walk(head), WalkAll(tail);
      assert WalkAll(children) == w1 + w2;
      hide NodeOk, LocalError, Fine, Ids, ValidateAt, Walk, ShallowFrom, WalkAll;
      ValidateAtExact(head, depth + 1, soFar.seen);
      FineConcat(w1, w2, soFar.seen);
      if ValidateAt(head, depth + 1, soFar.seen).Ok? {
        RootIsFresh(head, soFar.seen);
        var next := Progressed(soFar.total + |w1|, soFar.seen + Ids(w1));
        if next.total <= MAX_NODES {
          ChildAccepted(children, parent, depth, soFar, next);
          hide ValidateChildren, AllShallow;
          ValidateChildrenExact(tail, parent, depth, next);
          UnionAssoc(soFar.seen, Ids(w1), Ids(w2));
        }
      }
    }
  }

  lemma ChildAccepted(children: seq<SemanticNode>, parent: NodeId, depth: nat, soFar: Progressed, next: Progressed)
    requires children != [] && children[0].item.id != parent && soFar.total <= next.total <= MAX_NODES
    requires ValidateAt(children[0], depth + 1, soFar.seen) == Ok(Progressed(next.total - soFar.total, next.seen))
    requires ShallowFrom(children[0], depth + 1)
    ensures ValidateChildren(children, parent, depth, soFar) == ValidateChildren(children[1..], parent, depth, next)
    ensures AllShallow(children, depth + 1) <==> AllShallow(children[1..], depth + 1)
  {
    hide ValidateAt, ShallowFrom;
  }

  lemma UnionAssoc(a: set<NodeId>, b: set<NodeId>, c: set<NodeId>)
    ensures a + b + c == a + (b + c)
  {
  }

  lemma RootIsFresh(node: SemanticNode, seen: set<NodeId>)
    requires Fine(Walk(node), seen)
    ensures node.item.id !in seen
  {
    assert Walk(node)[0] in Walk(node);
    assert node.item.id in Ids(Walk(node));
  }

  /** Validation succeeds exactly on scenes within the depth and size limits whose nodes are all locally
      fine and carry distinct identities, and then returns the number of nodes. */
  lemma ValidateExact(root: SemanticNode)
    ensures Validate(root).Ok? <==>
            && ShallowFrom(root, 0)
            && |Walk(root)| <= 512
            && Distinct(Walk(root))
            && forall v | v in Walk(root) :: NodeOk(v)
    ensures Validate(root).Ok? ==> Validate(root).value == |Walk(root)|
  {
    ValidateAtExact(root, 0, {});
  }

  // ---- The same on the tree ----

  /** `s` is the root or a node below it, `depth` steps down. */
  ghost predicate SubtreeAt(s: SemanticNode, root: SemanticNode, depth: nat)
    decreases root
  {
    (s == root && depth == 0) || (depth > 0 && exists k | 0 <= k < |root.children| :: SubtreeAt(s, root.children[k], depth - 1))
  }

  lemma {:induction false} ShallowMeans(root: SemanticNode, depth: nat, s: SemanticNode, d: nat)
    requires ShallowFrom(root, depth) && SubtreeAt(s, root, d)
    ensures depth + d <= 32
    decreases root
  {
    if d > 0 {
      var k :| 0 <= k < |root.children| && SubtreeAt(s, root.children[k], d - 1);
      AllShallowIff(root.children, depth + 1);
      ShallowMeans(root.children[k], depth + 1, s, d - 1);
    }
  }

  lemma {:induction false} TooDeepSomewhere(root: SemanticNode, depth: nat) returns (s: SemanticNode, d: nat)
    requires !ShallowFrom(root, depth)
    ensures SubtreeAt(s, root, d) && depth + d > 32
    decreases root
  {
    AllShallowIff(root.children, depth + 1);
    if depth > 32 {
      s, d := root, 0;
    } else {
      var k :| 0 <= k < |root.children| && !ShallowFrom(root.children[k], depth + 1);
      s, d := TooDeepSomewhere(root.children[k], depth + 1);
      d := d + 1;
    }
  }

  /** Shallow means that no node is more than 32 steps below the root. */
  lemma ShallowIff(root: SemanticNode)
    ensures ShallowFrom(root, 0) <==> forall s, d: nat | SubtreeAt(s, root, d) :: d <= 32
  {
    if ShallowFrom(root, 0) {
      forall s, d: nat | SubtreeAt(s, root, d) ensures d <= 32 { ShallowMeans(root, 0, s, d); }
    } else {
      var s, d := TooDeepSomewhere(root, 0);
      assert SubtreeAt(s, root, d) && d > 32;
    }
  }

  lemma {:induction false} AllShallowIff(nodes: seq<SemanticNode>, depth: nat)
    ensures AllShallow(nodes, depth) <==> forall k | 0 <= k < |nodes| :: ShallowFrom(nodes[k], depth)
  {
    hide ShallowFrom;
    if nodes != [] {
      AllShallowIff(nodes[1..], depth);
      assert forall k | 0 <= k < |nodes| - 1 :: nodes[1..][k] == nodes[k + 1];
    }
  }

  /** The walk visits every node of the tree, and nothing else. */
  lemma {:induction false} WalkVisits(root: SemanticNode, v: Visit)
    ensures v in Walk(root) <==> exists s, d: nat :: SubtreeAt(s, root, d) && v == Visit(s.item, |s.children|)
    decreases root
  {
    WalkAllVisits(root.children, v);
    forall k | 0 <= k < |root.children| { WalkVisits(root.children[k], v); }
    assert SubtreeAt(root, root, 0);
    hide WalkAll;
    if v in WalkAll(root.children) {
      var k :| 0 <= k < |root.children| && v in Walk(root.children[k]);
      var s, d: nat :| SubtreeAt(s, root.children[k], d) && v == Visit(s.item, |s.children|);
      assert SubtreeAt(s, root, d + 1);
    }
    if s, d: nat :| SubtreeAt(s, root, d) && v == Visit(s.item, |s.children|) {
      if d > 0 {
        var k :| 0 <= k < |root.children| && SubtreeAt(s, root.children[k], d - 1);
        assert v in Walk(root.children[k]);
      }
    }
  }

  lemma {:induction false} WalkAllVisits(nodes: seq<SemanticNode>, v: Visit)
    ensures v in WalkAll(nodes) <==> exists k | 0 <= k < |nodes| :: v in Walk(nodes[k])
  {
    hide Walk;
    if nodes != [] {
      WalkAllVisits(nodes[1..], v);
      assert forall k | 0 <= k < |nodes| - 1 :: nodes[1..][k] == nodes[k + 1];
      if k :| 0 <= k < |nodes| && v in Walk(nodes[k]) { assert k > 0 ==> v in Walk(nodes[1..][k - 1]); }
    }
  }

  // ---- Validation while deserialising ----

  datatype RawNode = RawNode(item: Item, children: seq<RawNode>)

  function Expand(raw: RawNode): SemanticNode
    decreases raw, 1
  {
    Node(raw.item, ExpandAll(raw.children))
  }

  function ExpandAll(raws: seq<RawNode>): (r: seq<SemanticNode>)
    ensures |r| == |raws|
    decreases raws, 0
  {
    if raws == [] then [] else [Expand(raws[0])] + ExpandAll(raws[1..])
  }

  function RawValidateAt(raw: RawNode, depth: nat, parent: Option<NodeId>, seen: set<NodeId>): Result<Progressed, SceneError>
    decreases raw, 1
  {
    var id := raw.item.id;
    if depth > MAX_DEPTH then Err(TooDeep(id))
    else if parent == Some(id) then Err(SelfParent(id))
    else if id in seen then Err(DuplicateNode(id))
    else match LocalError(raw.item, |raw.children|)
      case Some(error) => Err(error)
      case None => RawValidateChildren(raw.children, id, depth, Progressed(1, seen + {id}))
  }

  function RawValidateChildren(children: seq<RawNode>, parent: NodeId, depth: nat, soFar: Progressed): Result<Progressed, SceneError>
    decreases children, 0
  {
    if children == [] then Ok(soFar)
    else match RawValidateAt(children[0], depth + 1, Some(parent), soFar.seen)
      case Err(error) => Err(error)
      case Ok(child) =>
        var total := soFar.total + child.total;
        if total > MAX_NODES then Err(TooManyNodes)
        else RawValidateChildren(children[1..], parent, depth, Progressed(total, child.seen))
  }

  /** The one difference in verdicts: a child with its parent's identity is reported as a self-parent. */
  function AsDuplicate(r: Result<Progressed, SceneError>): Result<Progressed, SceneError> {
    match r
    case Err(SelfParent(id)) => Err(DuplicateNode(id))
    case _ => r
  }

  /** The deserialiser accepts exactly the trees whose expansion validates, with the same count, and otherwise
      reports the same violation, save that it names a self-parent where validation sees a duplicate. */
  lemma {:induction false} RawAgrees(raw: RawNode, depth: nat, parent: Option<NodeId>, seen: set<NodeId>)
    requires parent.Some? ==> parent.value in seen
    ensures ValidateAt(Expand(raw), depth, seen) == AsDuplicate(RawValidateAt(raw, depth, parent, seen))
    decreases raw, 1
  {
    hide LocalError;
    NoSelfParentLocally(raw.item, |raw.children|);
    RawChildrenAgree(raw.children, raw.item.id, depth, Progressed(1, seen + {raw.item.id}));
  }

  lemma NoSelfParentLocally(item: Item, fanOut: nat)
    ensures LocalError(item, fanOut).Some? ==> !LocalError(item, fanOut).value.SelfParent?
  {
  }

  /** How one child's verdict decides for its siblings, as the deserialiser sees it. */
  lemma RawFirstChild(raws: seq<RawNode>, parent: NodeId, depth: nat, soFar: Progressed)
    requires raws != []
    ensures var r := RawValidateAt(raws[0], depth + 1, Some(parent), soFar.seen);
            RawValidateChildren(raws, parent, depth, soFar) ==
            if r.Err? then r
            else if soFar.total + r.value.total > MAX_NODES then Err(TooManyNodes)
            else RawValidateChildren(raws[1..], parent, depth, Progressed(soFar.total + r.value.total, r.value.seen))
  {
    hide RawValidateAt;
  }

  /** The same for validation; an accepted child cannot be its own parent. */
  lemma FirstChild(children: seq<SemanticNode>, parent: NodeId, depth: nat, soFar: Progressed)
    requires children != [] && parent in soFar.seen
    ensures var r := ValidateAt(children[0], depth + 1, soFar.seen);
            && (r.Ok? ==> parent in r.value.seen)
            && ValidateChildren(children, parent, depth, soFar) ==
               if r.Err? then r
               else if soFar.total + r.value.total > MAX_NODES then Err(TooManyNodes)
               else ValidateChildren(children[1..], parent, depth, Progressed(soFar.total + r.value.total, r.value.seen))
  {
    hide ValidateAt;
    if ValidateAt(children[0], depth + 1, soFar.seen).Ok? { SeenGrows(children[0], depth + 1, soFar.seen); }
  }

  lemma {:induction false} RawChildrenAgree(raws: seq<RawNode>, parent: NodeId, depth: nat, soFar: Progressed)
    requires parent in soFar.seen
    ensures ValidateChildren(ExpandAll(raws), parent, depth, soFar) == AsDuplicate(RawValidateChildren(raws, parent, depth, soFar))
    decreases raws, 0
  {
    if raws != [] {
      var nodes, tail := ExpandAll(raws), raws[1..];
      assert nodes[0] == Expand(raws[0]) && nodes[1..] == ExpandAll(tail);
      hide ValidateAt, RawValidateAt, Expand, ExpandAll, ValidateChildren, RawValidateChildren, LocalError;
      RawAgrees(raws[0], depth + 1, Some(parent), soFar.seen);
      var r := RawValidateAt(raws[0], depth + 1, Some(parent), soFar.seen);
      if r.Ok? {
        var next := Progressed(soFar.total + r.value.total, r.value.seen);
        SeenGrows(nodes[0], depth + 1, soFar.seen);
        if next.total <= MAX_NODES { RawChildrenAgree(tail, parent, depth, next); }
      }
      FirstChildAgrees(raws, nodes, parent, depth, soFar);
    }
  }

  /** If the verdicts on the first child agree, and those on the rest do, so do the verdicts on all. */
  lemma FirstChildAgrees(raws: seq<RawNode>, nodes: seq<SemanticNode>, parent: NodeId, depth: nat, soFar: Progressed)
    requires raws != [] && nodes != [] && parent in soFar.seen
    requires ValidateAt(nodes[0], depth + 1, soFar.seen) == AsDuplicate(RawValidateAt(raws[0], depth + 1, Some(parent), soFar.seen))
    requires var r := RawValidateAt(raws[0], depth + 1, Some(parent), soFar.seen);
             r.Ok? && soFar.total + r.value.total <= MAX_NODES ==>
               var next := Progressed(soFar.total + r.value.total, r.value.seen);
               ValidateChildren(nodes[1..], parent, depth, next) == AsDuplicate(RawValidateChildren(raws[1..], parent, depth, next))
    ensures ValidateChildren(nodes, parent, depth, soFar) == AsDuplicate(RawValidateChildren(raws, parent, depth, soFar))
  {
    hide ValidateAt, RawValidateAt, ValidateChildren, RawValidateChildren, LocalError, ContractOf;
    RawFirstChild(raws, parent, depth, soFar);
    FirstChild(nodes, parent, depth, soFar);
    var r, v := RawValidateAt(raws[0], depth + 1, Some(parent), soFar.seen), ValidateAt(nodes[0], depth + 1, soFar.seen);
    DuplicateOnlyRenames(r);
    assert AsDuplicate(Err(TooManyNodes)) == Err(TooManyNodes);
    hide AsDuplicate;
    assert v.Err? == r.Err?;
  }

  lemma DuplicateOnlyRenames(r: Result<Progressed, SceneError>)
    ensures AsDuplicate(r).Err? == r.Err? && (r.Ok? ==> AsDuplicate(r) == r)
  {
  }

  /** An accepted node was not seen before, and everything seen stays seen. */
  lemma SeenGrows(node: SemanticNode, depth: nat, seen: set<NodeId>)
    requires ValidateAt(node, depth, seen).Ok?
    ensures node.item.id !in seen && seen <= ValidateAt(node, depth, seen).value.seen
  {
    ValidateAtExact(node, depth, seen);
    RootIsFresh(node, seen);
  }

  // ---- The validator as a recursive procedure over a shared set ----

  class Validator {
    var seen: set<NodeId>

    constructor ()
      ensures seen == {}
    {
      seen := {};
    }

    method Check(node: SemanticNode, depth: nat) returns (r: Result<nat, SceneError>)
      modifies this
      ensures var spec := ValidateAt(node, depth, old(seen));
              if spec.Ok? then r == Ok(spec.value.total) && seen == spec.value.seen else r == Err(spec.error)
      decreases node, 1
    {
      hide LocalError, ValidateChildren;
      var id := node.item.id;
      if depth > MAX_DEPTH { return Err(TooDeep(id)); }
      if id in seen { return Err(DuplicateNode(id)); }
      seen := seen + {id};
      var local := LocalError(node.item, |node.children|);
      if local.Some? { return Err(local.value); }
      r := CheckChildren(node.children, id, depth);
    }

    method CheckChildren(children: seq<SemanticNode>, parent: NodeId, depth: nat) returns (r: Result<nat, SceneError>)
      modifies this
      ensures var spec := ValidateChildren(children, parent, depth, Progressed(1, old(seen)));
              if spec.Ok? then r == Ok(spec.value.total) && seen == spec.value.seen else r == Err(spec.error)
      decreases children, 0
    {
      hide ValidateAt;
      var total: nat := 1;
      ghost var spec := ValidateChildren(children, parent, depth, Progressed(1, seen));
      for i := 0 to |children|
        invariant spec == ValidateChildren(children[i..], parent, depth, Progressed(total, seen))
      {
        assert children[i..][1..] == children[i + 1..];
        var child := Check(children[i], depth + 1);
        if child.Err? { return Err(child.error); }
        total := total + child.value;
        if total > MAX_NODES { return Err(TooManyNodes); }
        if children[i].item.id == parent { return Err(SelfParent(parent)); }
      }
      return Ok(total);
    }
  }
}
