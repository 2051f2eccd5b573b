/** Recipes, reviewed patches, and the compare-and-swap store that applies them. */
module Recipes {
  import opened Common
  import opened PatchOps
  import opened Scene
  import opened Utf8

  const MAX_PATCH_OPS := 64
  const MAX_PATCH_TEXT_BYTES := 4096
  const MAX_RECIPE_METADATA := 16
  const MAX_RECIPE_METADATA_BYTES := 2048
  const MAX_OWNER_REF_BYTES := 256
  const MAX_REVISION := 0xFFFF_FFFF_FFFF_FFFF

  datatype OwnerKind = User | Principal | Fleet
  datatype OwnerRef = OwnerRef(kind: OwnerKind, id: string)

  datatype ActorKind = Human | Agent | Service
  datatype PrincipalRef = PrincipalRef(kind: ActorKind, id: string)

  /** What the digest covers. */
  datatype Content = Content(schema: string, recipeId: string, revision: nat, themeId: string, root: SemanticNode, metadata: Props)

  datatype Recipe = Recipe(content: Content, ownerRef: OwnerRef, digest: string)

  datatype PatchOp =
    | SetState(nodeId: NodeId, state: StateBits)
    | SetProperty(nodeId: NodeId, key: string, value: PropValue)
    | SetTheme(themeId: string)
    | SetRecipeMetadata(key: string, value: PropValue)

  datatype Patch = Patch(
    schema: string,
    ownerRef: OwnerRef,
    actingPrincipal: PrincipalRef,
    proposalId: string,
    reviewer: PrincipalRef,
    receipt: string,
    patchId: string,
    recipeId: string,
    baseRevision: nat,
    baseDigest: string,
    summary: string,
    operations: seq<PatchOp>)

  /** What the intent digest covers. */
  datatype Intent = Intent(ownerRef: OwnerRef, recipeId: string, baseRevision: nat, baseDigest: string, operations: seq<PatchOp>)

  /** The two hash functions. Nothing is assumed about them beyond being functions. */
  datatype Hashes = Hashes(digest: Content -> string, intent: Intent -> string)

  function IntentOf(p: Patch): Intent {
    Intent(p.ownerRef, p.recipeId, p.baseRevision, p.baseDigest, p.operations)
  }

  datatype RecipeError = BadSchema | BadIdentity | BadMetadata | BadScene(error: SceneError)

  datatype PatchError =
    | InvalidSchema
    | TooManyOperations
    | MetadataTooLarge
    | InvalidProperty
    | InvalidTheme
    | InvalidRecipeMetadata
    | InvalidPrincipal
    | SelfApproved
    | InvalidRecipe
    | UnknownRecipe
    | OwnerMismatch
    | UnknownNode(id: NodeId)
    | PropsRejected(props: PropsError)
    | Conflict(currentRevision: nat, currentDigest: string)
    | PatchIdConflict(patchId: string)
    | RevisionOverflow
    | SceneRejected(scene: SceneError)

  predicate BoundedNonempty(s: string, maximum: nat) {
    s != "" && ByteLen(s) <= maximum
  }

  function MetadataTextLen(value: PropValue): nat {
    match value
    case Text(t) => ByteLen(t)
    case Token(t) => ByteLen(t)
    case Number(_) => 8
    case Flag(_) => 1
  }

  function MetadataWeight(key: string, value: PropValue): nat {
    ByteLen(key) + MetadataTextLen(value)
  }

  ghost function ValidateRecipe(r: Recipe): Option<RecipeError> {
    if r.content.schema != "aos.recipe@1" then Some(BadSchema)
    else if !BoundedNonempty(r.ownerRef.id, MAX_OWNER_REF_BYTES) || !BoundedNonempty(r.content.recipeId, 256)
            || !BoundedNonempty(r.content.themeId, 128) || r.content.revision == 0
    then Some(BadIdentity)
    else if |r.content.metadata| > MAX_RECIPE_METADATA then Some(BadMetadata)
    else if Sum(r.content.metadata, MetadataWeight) > MAX_RECIPE_METADATA_BYTES then Some(BadMetadata)
    else match Validate(r.content.root)
      case Ok(_) => None
      case Err(error) => Some(BadScene(error))
  }

  function AsPatchError(e: RecipeError): PatchError {
    match e
    case BadScene(error) => SceneRejected(error)
    case _ => InvalidRecipe
  }

  function ValidatePrincipal(p: PrincipalRef): Option<PatchError> {
    if BoundedNonempty(p.id, 256) then None else Some(InvalidPrincipal)
  }

  function OpError(op: PatchOp): Option<PatchError> {
    match op
    case SetProperty(_, key, _) => if BoundedNonempty(key, 128) then None else Some(InvalidProperty)
    case SetTheme(themeId) => if BoundedNonempty(themeId, 128) then None else Some(InvalidTheme)
    case SetRecipeMetadata(key, value) =>
      if BoundedNonempty(key, 128) && MetadataTextLen(value) <= 1024 then None else Some(InvalidRecipeMetadata)
    case SetState(_, _) => None
  }

  function OpsError(ops: seq<PatchOp>): Option<PatchError> {
    if ops == [] then None
    else if OpError(ops[0]).Some? then OpError(ops[0])
    else OpsError(ops[1..])
  }

  function ValidatePatch(p: Patch): Option<PatchError> {
    var texts := [p.patchId, p.recipeId, p.proposalId, p.receipt, p.baseDigest];
    if p.schema != "aos.patch@1" then Some(InvalidSchema)
    else if ValidatePrincipal(p.actingPrincipal).Some? then ValidatePrincipal(p.actingPrincipal)
    else if ValidatePrincipal(p.reviewer).Some? then ValidatePrincipal(p.reviewer)
    else if p.actingPrincipal == p.reviewer then Some(SelfApproved)
    else if exists t | t in texts :: !BoundedNonempty(t, 256) then Some(MetadataTooLarge)
    else if p.operations == [] || |p.operations| > MAX_PATCH_OPS then Some(TooManyOperations)
    else if ByteLen(p.patchId) + ByteLen(p.recipeId) + ByteLen(p.proposalId) + ByteLen(p.receipt) + ByteLen(p.baseDigest)
            + ByteLen(p.summary) > MAX_PATCH_TEXT_BYTES then Some(MetadataTooLarge)
    else OpsError(p.operations)
  }

  // ---- The same checks, as what they admit ----

  /** 1 to `maximum` bytes. */
  predicate Sized(s: string, maximum: nat) {
    1 <= |Encode(s)| <= maximum
  }

  predicate OpOk(op: PatchOp) {
    && (op.SetProperty? ==> Sized(op.key, 128))
    && (op.SetTheme? ==> Sized(op.themeId, 128))
    && (op.SetRecipeMetadata? ==> Sized(op.key, 128) && MetadataTextLen(op.value) <= 1024)
  }

  /** Two different principals, well-sized identifiers, and 1 to 64 well-formed operations. */
  predicate PatchOk(p: Patch) {
    && p.schema == "aos.patch@1"
    && Sized(p.actingPrincipal.id, 256) && Sized(p.reviewer.id, 256) && p.actingPrincipal != p.reviewer
    && Sized(p.patchId, 256) && Sized(p.recipeId, 256) && Sized(p.proposalId, 256) && Sized(p.receipt, 256) && Sized(p.baseDigest, 256)
    && 1 <= |p.operations| <= 64
    && |Encode(p.patchId)| + |Encode(p.recipeId)| + |Encode(p.proposalId)| + |Encode(p.receipt)| + |Encode(p.baseDigest)|
       + |Encode(p.summary)| <= 4096
    && forall op | op in p.operations :: OpOk(op)
  }

  ghost predicate RecipeOk(r: Recipe) {
    && r.content.schema == "aos.recipe@1" && r.content.revision != 0
    && Sized(r.ownerRef.id, 256) && Sized(r.content.recipeId, 256) && Sized(r.content.themeId, 128)
    && |r.content.metadata| <= 16 && Sum(r.content.metadata, MetadataWeight) <= 2048
    && Validate(r.content.root).Ok?
  }

  lemma SizedIs(s: string, maximum: nat)
    ensures BoundedNonempty(s, maximum) <==> Sized(s, maximum)
  {
    if s != "" { assert ByteLen(s) >= 1; }
  }

  /** A metadata entry weighs its key and its text, 8 for a number, 1 for a flag. */
  lemma MetadataWeights(key: string, t: string, n: real, b: bool)
    ensures MetadataWeight(key, Text(t)) == MetadataWeight(key, Token(t)) == |Encode(key)| + |Encode(t)|
    ensures MetadataWeight(key, Number(n)) == |Encode(key)| + 8 && MetadataWeight(key, Flag(b)) == |Encode(key)| + 1
    ensures MetadataTextLen(Text(t)) == |Encode(t)|
  {
  }

  lemma OpIs(op: PatchOp)
    ensures OpError(op) == None <==> OpOk(op)
  {
    match op
    case SetProperty(_, key, _) => SizedIs(key, 128);
    case SetTheme(themeId) => SizedIs(themeId, 128);
    case SetRecipeMetadata(key, _) => SizedIs(key, 128);
    case SetState(_, _) =>
  }

  lemma {:induction false} OpsAre(ops: seq<PatchOp>)
    ensures OpsError(ops) == None <==> forall op | op in ops :: OpOk(op)
    ensures forall k | 0 <= k < |ops| && !OpOk(ops[k]) && (forall j | 0 <= j < k :: OpOk(ops[j])) :: OpsError(ops) == OpError(ops[k])
  {
    if ops != [] {
      OpIs(ops[0]);
      OpsAre(ops[1..]);
      hide OpOk, OpError;
      assert forall j | 0 <= j < |ops| - 1 :: ops[1..][j] == ops[j + 1];
    }
  }

  /** A patch is valid exactly when it meets these conditions. */
  lemma ValidPatchIff(p: Patch)
    ensures ValidatePatch(p) == None <==> PatchOk(p)
  {
    SizedIs(p.actingPrincipal.id, 256);
    SizedIs(p.reviewer.id, 256);
    var texts := [p.patchId, p.recipeId, p.proposalId, p.receipt, p.baseDigest];
    assert texts[0] in texts && texts[1] in texts && texts[2] in texts && texts[3] in texts && texts[4] in texts;
    forall t | t in texts ensures BoundedNonempty(t, 256) <==> Sized(t, 256) { SizedIs(t, 256); }
    OpsAre(p.operations);
    hide BoundedNonempty, Sized, OpOk, OpsError;
  }

  /** Which complaint an invalid patch draws: the first of these that applies. */
  lemma PatchComplaint(p: Patch)
    ensures var e := ValidatePatch(p);
            var ids := Sized(p.actingPrincipal.id, 256) && Sized(p.reviewer.id, 256);
            if p.schema != "aos.patch@1" then e == Some(InvalidSchema)
            else if !ids then e == Some(InvalidPrincipal)
            else if p.actingPrincipal == p.reviewer then e == Some(SelfApproved)
            else e.Some? ==> e.value in {MetadataTooLarge, TooManyOperations, InvalidProperty, InvalidTheme, InvalidRecipeMetadata}
    ensures ValidatePatch(p) == Some(TooManyOperations) ==> p.operations == [] || |p.operations| > 64
  {
    SizedIs(p.actingPrincipal.id, 256);
    SizedIs(p.reviewer.id, 256);
    OpComplaints(p.operations);
    hide BoundedNonempty, Sized, OpsError;
  }

  lemma {:induction false} OpComplaints(ops: seq<PatchOp>)
    ensures OpsError(ops).Some? ==> OpsError(ops).value in {InvalidProperty, InvalidTheme, InvalidRecipeMetadata}
  {
    if ops != [] { OpComplaints(ops[1..]); }
  }

  /** A recipe is valid exactly when it meets these conditions. */
  lemma ValidRecipeIff(r: Recipe)
    ensures ValidateRecipe(r) == None <==> RecipeOk(r)
    ensures forall e :: ValidateRecipe(r) == Some(BadScene(e)) ==> Validate(r.content.root) == Err(e)
  {
    SizedIs(r.ownerRef.id, 256);
    SizedIs(r.content.recipeId, 256);
    SizedIs(r.content.themeId, 128);
    hide BoundedNonempty, Sized, Sum, Validate;
  }

  /** The part of a recipe that operations change, and whether what is seen changed. */
  datatype Draft = Draft(root: SemanticNode, themeId: string, metadata: Props, visualChanged: bool)

  ghost function ApplyOp(d: Draft, op: PatchOp): Result<Draft, PatchError> {
    match op
    case SetState(nodeId, state) =>
      (match Find(d.root, nodeId)
       case None => Err(UnknownNode(nodeId))
       case Some(item) => Ok(d.(root := Replace(d.root, nodeId, item.(state := state)), visualChanged := true)))
    case SetProperty(nodeId, key, value) =>
      (match Find(d.root, nodeId)
       case None => Err(UnknownNode(nodeId))
       case Some(item) =>
         match BoundedProps(item.props[key := value])
         case Err(error) => Err(PropsRejected(error))
         case Ok(props) => Ok(d.(root := Replace(d.root, nodeId, item.(props := props)), visualChanged := true)))
    case SetTheme(themeId) => Ok(d.(themeId := themeId))
    case SetRecipeMetadata(key, value) => Ok(d.(metadata := d.metadata[key := value]))
  }

  ghost function ApplyOps(d: Draft, ops: seq<PatchOp>): Result<Draft, PatchError>
    decreases |ops|
  {
    if ops == [] then Ok(d)
    else match ApplyOp(d, ops[0])
      case Err(error) => Err(error)
      case Ok(next) => ApplyOps(next, ops[1..])
  }

  function DraftOf(r: Recipe): Draft {
    Draft(r.content.root, r.content.themeId, r.content.metadata, false)
  }

  // ---- Operations edit only their targets ----

  /** What the operations do to the item of one node. */
  function EditItem(item: Item, op: PatchOp): Item {
    match op
    case SetState(nodeId, state) => if nodeId == item.id then item.(state := state) else item
    case SetProperty(nodeId, key, value) => if nodeId == item.id then item.(props := item.props[key := value]) else item
    case _ => item
  }

  function EditItems(item: Item, ops: seq<PatchOp>): Item
    decreases |ops|
  {
    if ops == [] then item else EditItems(EditItem(item, ops[0]), ops[1..])
  }

  predicate Targets(op: PatchOp, id: NodeId) {
    (op.SetState? || op.SetProperty?) && op.nodeId == id
  }

  lemma {:induction false} EditItemsFacts(item: Item, ops: seq<PatchOp>)
    ensures var r := EditItems(item, ops);
            && r.id == item.id && r.kind == item.kind && r.accessibility == item.accessibility
            && ((forall op | op in ops :: !Targets(op, item.id)) ==> r == item)
    decreases |ops|
  {
    if ops != [] {
      assert ops[0] in ops && forall op | op in ops[1..] :: op in ops;
      EditItemsFacts(EditItem(item, ops[0]), ops[1..]);
    }
  }

  /** The last state set on a node is the one it has afterwards. */
  lemma {:induction false} LastStateWins(item: Item, ops: seq<PatchOp>, k: nat)
    requires k < |ops| && ops[k].SetState? && ops[k].nodeId == item.id
    requires forall j | k < j < |ops| :: !(ops[j].SetState? && ops[j].nodeId == item.id)
    ensures EditItems(item, ops).state == ops[k].state
    decreases |ops|
  {
    var tail := ops[1..];
    assert forall j | 0 <= j < |tail| :: tail[j] == ops[j + 1];
    if k > 0 {
      LastStateWins(EditItem(item, ops[0]), tail, k - 1);
    } else {
      StateStays(EditItem(item, ops[0]), tail);
    }
  }

  lemma {:induction false} StateStays(item: Item, ops: seq<PatchOp>)
    requires forall op | op in ops :: !(op.SetState? && op.nodeId == item.id)
    ensures EditItems(item, ops).state == item.state
    decreases |ops|
  {
    if ops != [] { StateStays(EditItem(item, ops[0]), ops[1..]); }
  }

  /** The last value set for a property is the one it has afterwards. */
  lemma {:induction false} LastPropertyWins(item: Item, ops: seq<PatchOp>, k: nat)
    requires k < |ops| && ops[k].SetProperty? && ops[k].nodeId == item.id
    requires forall j | k < j < |ops| :: !(ops[j].SetProperty? && ops[j].nodeId == item.id && ops[j].key == ops[k].key)
    ensures ops[k].key in EditItems(item, ops).props && EditItems(item, ops).props[ops[k].key] == ops[k].value
    decreases |ops|
  {
    var tail := ops[1..];
    assert forall j | 0 <= j < |tail| :: tail[j] == ops[j + 1];
    if k > 0 { LastPropertyWins(EditItem(item, ops[0]), tail, k - 1); } else { PropertyStays(EditItem(item, ops[0]), tail, ops[0].key); }
  }

  /** A property nothing sets is as it was, absent or present. */
  lemma {:induction false} PropertyStays(item: Item, ops: seq<PatchOp>, key: string)
    requires forall op | op in ops :: !(op.SetProperty? && op.nodeId == item.id && op.key == key)
    ensures key in EditItems(item, ops).props <==> key in item.props
    ensures key in item.props ==> EditItems(item, ops).props[key] == item.props[key]
    decreases |ops|
  {
    if ops != [] {
      assert ops[0] in ops && forall op | op in ops[1..] :: op in ops;
      PropertyStays(EditItem(item, ops[0]), ops[1..], key);
    }
  }

  // ---- What operations do besides ----

  predicate Visual(op: PatchOp) {
    op.SetState? || op.SetProperty?
  }

  lemma OneOp(d: Draft, op: PatchOp)
    requires ApplyOp(d, op).Ok?
    ensures var e := ApplyOp(d, op).value;
            && e.themeId == (if op.SetTheme? then op.themeId else d.themeId)
            && e.metadata == (if op.SetRecipeMetadata? then d.metadata[op.key := op.value] else d.metadata)
            && (e.visualChanged <==> d.visualChanged || Visual(op))
            && (!Visual(op) ==> e.root == d.root)
  {
  }

  /** The theme is the last one set, if any is. */
  lemma {:induction false} LastThemeWins(d: Draft, ops: seq<PatchOp>)
    requires ApplyOps(d, ops).Ok?
    ensures forall k | 0 <= k < |ops| && ops[k].SetTheme? && (forall j | k < j < |ops| :: !ops[j].SetTheme?) ::
              ApplyOps(d, ops).value.themeId == ops[k].themeId
    ensures (forall op | op in ops :: !op.SetTheme?) ==> ApplyOps(d, ops).value.themeId == d.themeId
    decreases |ops|
  {
    if ops != [] {
      OneOp(d, ops[0]);
      LastThemeWins(ApplyOp(d, ops[0]).value, ops[1..]);
      hide ApplyOp;
      assert forall j | 0 <= j < |ops| - 1 :: ops[1..][j] == ops[j + 1];
      assert ops[0] in ops && forall op | op in ops[1..] :: op in ops;
    }
  }

  predicate Sets(op: PatchOp, key: string) {
    op.SetRecipeMetadata? && op.key == key
  }

  /** The last value set under a metadata key is the one it has afterwards. */
  lemma {:induction false} LastMetadataWins(d: Draft, ops: seq<PatchOp>, k: nat)
    requires ApplyOps(d, ops).Ok? && k < |ops| && ops[k].SetRecipeMetadata?
    requires forall j | k < j < |ops| :: !Sets(ops[j], ops[k].key)
    ensures var m := ApplyOps(d, ops).value.metadata; ops[k].key in m && m[ops[k].key] == ops[k].value
    decreases |ops|
  {
    var tail := ops[1..];
    assert forall j | 0 <= j < |tail| :: tail[j] == ops[j + 1];
    OneOp(d, ops[0]);
    var next := ApplyOp(d, ops[0]).value;
    hide ApplyOp;
    if k > 0 { LastMetadataWins(next, tail, k - 1); } else { MetadataStays(next, tail, ops[0].key); }
  }

  /** An entry nothing sets is as it was, absent or present. */
  lemma {:induction false} MetadataStays(d: Draft, ops: seq<PatchOp>, key: string)
    requires ApplyOps(d, ops).Ok? && forall op | op in ops :: !Sets(op, key)
    ensures var m := ApplyOps(d, ops).value.metadata; (key in m <==> key in d.metadata) && (key in m ==> m[key] == d.metadata[key])
    decreases |ops|
  {
    if ops != [] {
      OneOp(d, ops[0]);
      assert ops[0] in ops && forall op | op in ops[1..] :: op in ops;
      var next := ApplyOp(d, ops[0]).value;
      hide ApplyOp;
      MetadataStays(next, ops[1..], key);
    }
  }

  /** What is seen has changed exactly when some operation set a state or a property. */
  lemma {:induction false} VisualIff(d: Draft, ops: seq<PatchOp>)
    requires ApplyOps(d, ops).Ok?
    ensures ApplyOps(d, ops).value.visualChanged <==> d.visualChanged || exists op | op in ops :: Visual(op)
    decreases |ops|
  {
    if ops != [] {
      OneOp(d, ops[0]);
      VisualIff(ApplyOp(d, ops[0]).value, ops[1..]);
      hide ApplyOp, Visual;
    }
  }

  ghost predicate AllWithinBounds(visits: seq<Visit>) {
    forall v | v in visits :: WithinBounds(v.item.props)
  }

  /** One successful operation edits each node's item as prescribed and keeps the shape. */
  lemma ApplyOpEdits(d: Draft, op: PatchOp)
    requires Distinct(Walk(d.root)) && ApplyOp(d, op).Ok?
    ensures var w, w' := Walk(d.root), Walk(ApplyOp(d, op).value.root);
            && |w'| == |w|
            && (forall k | 0 <= k < |w| :: w'[k] == Visit(EditItem(w[k].item, op), w[k].arity))
            && (AllWithinBounds(w) ==> AllWithinBounds(w'))
  {
    hide Walk, Find, Replace, Sum;
    if op.SetState? || op.SetProperty? {
      var w := Walk(d.root);
      var item := Find(d.root, op.nodeId).value;
      var next := if op.SetState? then item.(state := op.state) else item.(props := item.props[op.key := op.value]);
      FindIsFirst(d.root, op.nodeId);
      ReplaceEdits(d.root, op.nodeId, next);
      var at := FirstAt(w, op.nodeId);
      assert w[at].item == item && w[at] in w;
      forall k | 0 <= k < |w| ensures Edited(w, op.nodeId, next)[k] == Visit(EditItem(w[k].item, op), w[k].arity) {
        if k != at { assert w[k].item.id != op.nodeId; }
      }
      if AllWithinBounds(w) {
        forall v | v in Edited(w, op.nodeId, next) ensures WithinBounds(v.item.props) {
          assert v in w || v.item == next;
        }
      }
    }
  }

  /** A successful list of operations keeps shape, identities, kinds and accessibility, gives every node exactly the
      edits aimed at it, and keeps property sets within bounds. */
  lemma {:induction false} OpsEditOnlyTargets(d: Draft, ops: seq<PatchOp>)
    requires Distinct(Walk(d.root)) && ApplyOps(d, ops).Ok?
    ensures var w, w' := Walk(d.root), Walk(ApplyOps(d, ops).value.root);
            && |w'| == |w|
            && (forall k | 0 <= k < |w| :: w'[k] == Visit(EditItems(w[k].item, ops), w[k].arity))
            && (AllWithinBounds(w) ==> AllWithinBounds(w'))
    decreases |ops|
  {
    if ops != [] {
      hide Walk, ApplyOp, AllWithinBounds;
      ApplyOpEdits(d, ops[0]);
      OpsEditOnlyTargets(ApplyOp(d, ops[0]).value, ops[1..]);
    }
  }

  /** Operations fail exactly at the first one that names an absent node or overfills a property set. */
  lemma ApplyOpFails(d: Draft, op: PatchOp)
    ensures ApplyOp(d, op).Err? <==>
            && (op.SetState? || op.SetProperty?)
            && (|| op.nodeId !in Ids(Walk(d.root))
                || (op.SetProperty? && Find(d.root, op.nodeId).Some? &&
                    !WithinBounds(Find(d.root, op.nodeId).value.props[op.key := op.value])))
  {
    if op.SetState? || op.SetProperty? { FindIffOccurs(d.root, op.nodeId); }
  }
}

/** The store and its runs. */
module RecipeStores {
  import opened Common
  import opened PatchOps
  import opened Recipes
  import opened Scene

  datatype Store = Store(recipes: map<string, Recipe>, applied: map<string, string>)

  datatype Outcome = Applied(recipe: Recipe, visualChanged: bool) | AlreadyApplied(recipe: Recipe)

  /** The accepted successor of a recipe, or why there is none. */
  ghost function Successor(hs: Hashes, recipe: Recipe, ops: seq<PatchOp>): Result<Outcome, PatchError> {
    match ApplyOps(DraftOf(recipe), ops)
    case Err(error) => Err(error)
    case Ok(d) =>
      if recipe.content.revision >= MAX_REVISION then Err(RevisionOverflow)
      else
        var content := recipe.content.(root := d.root, themeId := d.themeId, metadata := d.metadata,
                                       revision := recipe.content.revision + 1);
        var next := Recipe(content, recipe.ownerRef, hs.digest(content));
        match ValidateRecipe(next)
        case Some(error) => Err(AsPatchError(error))
        case None => Ok(Applied(next, d.visualChanged))
  }

  /** The verdict on a patch. */
  ghost function Decide(hs: Hashes, store: Store, p: Patch): Result<Outcome, PatchError> {
    if ValidatePatch(p).Some? then Err(ValidatePatch(p).value)
    else if p.patchId in store.applied then
      if store.applied[p.patchId] != hs.intent(IntentOf(p)) then Err(PatchIdConflict(p.patchId))
      else if p.recipeId !in store.recipes then Err(UnknownRecipe)
      else Ok(AlreadyApplied(store.recipes[p.recipeId]))
    else if p.recipeId !in store.recipes then Err(UnknownRecipe)
    else
      var recipe := store.recipes[p.recipeId];
      if recipe.ownerRef != p.ownerRef then Err(OwnerMismatch)
      else if recipe.content.revision != p.baseRevision || recipe.digest != p.baseDigest
      then Err(Conflict(recipe.content.revision, recipe.digest))
      else Successor(hs, recipe, p.operations)
  }

  ghost function After(hs: Hashes, store: Store, p: Patch): Store {
    match Decide(hs, store, p)
    case Ok(Applied(recipe, _)) =>
      Store(store.recipes[recipe.content.recipeId := recipe], store.applied[p.patchId := hs.intent(IntentOf(p))])
    case _ => store
  }

  ghost function Run(hs: Hashes, store: Store, patches: seq<Patch>): Store {
    if patches == [] then store
    else After(hs, Run(hs, store, patches[..|patches| - 1]), patches[|patches| - 1])
  }

  /** Whether the k-th patch of the run was applied. */
  ghost predicate AppliedAt(hs: Hashes, store: Store, patches: seq<Patch>, k: nat)
    requires k < |patches|
  {
    var d := Decide(hs, Run(hs, store, patches[..k]), patches[k]);
    d.Ok? && d.value.Applied?
  }

  /** Every recipe is valid, kept under its own id, and carries the digest of its content. */
  ghost predicate StoreOk(hs: Hashes, store: Store) {
    forall id | id in store.recipes ::
      var r := store.recipes[id];
      r.content.recipeId == id && ValidateRecipe(r) == None && r.digest == hs.digest(r.content)
  }

  lemma AppliedFacts(hs: Hashes, store: Store, p: Patch)
    requires Decide(hs, store, p).Ok? && Decide(hs, store, p).value.Applied?
    ensures p.recipeId in store.recipes && p.patchId !in store.applied
    ensures var r, next := store.recipes[p.recipeId], Decide(hs, store, p).value.recipe;
            && r.content.revision == p.baseRevision && r.digest == p.baseDigest && r.ownerRef == p.ownerRef == next.ownerRef
            && next.content.recipeId == r.content.recipeId && next.content.revision == r.content.revision + 1
            && ValidateRecipe(next) == None && next.digest == hs.digest(next.content)
  {
    hide ValidateRecipe, ApplyOps, ValidatePatch;
  }

  /** The accepted recipe's tree is the old one with each node edited by exactly the operations aimed at it. */
  lemma AppliedPatchEdits(hs: Hashes, store: Store, p: Patch)
    requires StoreOk(hs, store)
    requires Decide(hs, store, p).Ok? && Decide(hs, store, p).value.Applied?
    ensures p.recipeId in store.recipes
    ensures var w, w' := Walk(store.recipes[p.recipeId].content.root), Walk(Decide(hs, store, p).value.recipe.content.root);
            && |w'| == |w|
            && (forall k | 0 <= k < |w| :: w'[k] == Visit(EditItems(w[k].item, p.operations), w[k].arity))
            && (AllWithinBounds(w) ==> AllWithinBounds(w'))
    ensures Decide(hs, store, p).value.visualChanged <==> exists op | op in p.operations :: op.SetState? || op.SetProperty?
    ensures RestEdited(store.recipes[p.recipeId].content, Decide(hs, store, p).value.recipe.content, p.operations)
  {
    AppliedFacts(hs, store, p);
    var recipe := store.recipes[p.recipeId];
    hide Walk, Decide, StoreOk, ApplyOps, EditItems, AllWithinBounds;
    AppliedDraft(hs, store, p);
    ValidTree(hs, store, p.recipeId);
    OpsEditOnlyTargets(DraftOf(recipe), p.operations);
    VisualIff(DraftOf(recipe), p.operations);
    RestIs(DraftOf(recipe), p.operations, recipe.content, Decide(hs, store, p).value.recipe.content);
    hide RestEdited, Visual;
  }

  lemma RestIs(d: Draft, ops: seq<PatchOp>, before: Content, after: Content)
    requires ApplyOps(d, ops).Ok? && d.themeId == before.themeId && d.metadata == before.metadata
    requires var e := ApplyOps(d, ops).value; after.themeId == e.themeId && after.metadata == e.metadata
    requires after.schema == before.schema && after.recipeId == before.recipeId && after.revision == before.revision + 1
    ensures RestEdited(before, after, ops)
  {
    hide ApplyOps;
    LastThemeWins(d, ops);
    MetadataIs(d, ops);
    hide MetadataEdited;
  }

  lemma MetadataIs(d: Draft, ops: seq<PatchOp>)
    requires ApplyOps(d, ops).Ok?
    ensures MetadataEdited(d.metadata, ApplyOps(d, ops).value.metadata, ops)
  {
    hide ApplyOps, Sets;
    var m := ApplyOps(d, ops).value.metadata;
    forall k | 0 <= k < |ops| && ops[k].SetRecipeMetadata? && (forall j | k < j < |ops| :: !Sets(ops[j], ops[k].key))
      ensures ops[k].key in m && m[ops[k].key] == ops[k].value
    {
      LastMetadataWins(d, ops, k);
    }
    forall key | (forall op | op in ops :: !Sets(op, key))
      ensures (key in m <==> key in d.metadata) && (key in m ==> m[key] == d.metadata[key])
    {
      MetadataStays(d, ops, key);
    }
  }

  /** Schema and id stay, the revision goes up by one, the theme and each metadata entry are the last ones set. */
  ghost predicate RestEdited(before: Content, after: Content, ops: seq<PatchOp>) {
    && after.schema == before.schema && after.recipeId == before.recipeId && after.revision == before.revision + 1
    && (forall k | 0 <= k < |ops| && ops[k].SetTheme? && (forall j | k < j < |ops| :: !ops[j].SetTheme?) ::
          after.themeId == ops[k].themeId)
    && ((forall op | op in ops :: !op.SetTheme?) ==> after.themeId == before.themeId)
    && MetadataEdited(before.metadata, after.metadata, ops)
  }

  ghost predicate MetadataEdited(before: Props, after: Props, ops: seq<PatchOp>) {
    && (forall k | 0 <= k < |ops| && ops[k].SetRecipeMetadata? && (forall j | k < j < |ops| :: !Sets(ops[j], ops[k].key)) ::
          ops[k].key in after && after[ops[k].key] == ops[k].value)
    && (forall key | (forall op | op in ops :: !Sets(op, key)) ::
          (key in after <==> key in before) && (key in after ==> after[key] == before[key]))
  }

  lemma AppliedDraft(hs: Hashes, store: Store, p: Patch)
    requires Decide(hs, store, p).Ok? && Decide(hs, store, p).value.Applied? && p.recipeId in store.recipes
    ensures var r, before, after := ApplyOps(DraftOf(store.recipes[p.recipeId]), p.operations), store.recipes[p.recipeId].content,
                                    Decide(hs, store, p).value.recipe.content;
            && r.Ok? && after.root == r.value.root && after.themeId == r.value.themeId && after.metadata == r.value.metadata
            && after.schema == before.schema && after.revision == before.revision + 1
            && Decide(hs, store, p).value.visualChanged == r.value.visualChanged
  {
    hide ValidateRecipe, ApplyOps, ValidatePatch;
  }

  lemma ValidTree(hs: Hashes, store: Store, id: string)
    requires StoreOk(hs, store) && id in store.recipes
    ensures Distinct(Walk(store.recipes[id].content.root))
  {
    hide Walk;
    assert ValidateRecipe(store.recipes[id]) == None;
    ValidateExact(store.recipes[id].content.root);
  }

  /** What a valid patch is checked against, in order: has its id been used, and then for this very intent; is there
      such a recipe, of this owner, at this revision and digest; do the operations apply to it, short of the last
      revision; and is what comes out a valid recipe. */
  lemma VerdictExactly(hs: Hashes, store: Store, p: Patch)
    requires PatchOk(p)
    ensures var d, known := Decide(hs, store, p), p.recipeId in store.recipes;
            if p.patchId in store.applied then
              if store.applied[p.patchId] != hs.intent(Intent(p.ownerRef, p.recipeId, p.baseRevision, p.baseDigest, p.operations))
              then d == Err(PatchIdConflict(p.patchId))
              else d == if known then Ok(AlreadyApplied(store.recipes[p.recipeId])) else Err(UnknownRecipe)
            else if !known then d == Err(UnknownRecipe)
            else
              var r := store.recipes[p.recipeId];
              if r.ownerRef != p.ownerRef then d == Err(OwnerMismatch)
              else if !(r.content.revision == p.baseRevision && r.digest == p.baseDigest)
              then d == Err(Conflict(r.content.revision, r.digest))
              else
                var draft := ApplyOps(DraftOf(r), p.operations);
                if draft.Err? then d == Err(draft.error)
                else if r.content.revision >= 18446744073709551615 then d == Err(RevisionOverflow)
                else
                  var content := r.content.(root := draft.value.root, themeId := draft.value.themeId,
                                            metadata := draft.value.metadata, revision := r.content.revision + 1);
                  d.Ok? <==> RecipeOk(Recipe(content, r.ownerRef, hs.digest(content)))
  {
    ValidPatchIff(p);
    hide PatchOk, ApplyOps, ValidatePatch, ValidateRecipe, RecipeOk;
    if p.recipeId in store.recipes {
      var r := store.recipes[p.recipeId];
      var draft := ApplyOps(DraftOf(r), p.operations);
      if draft.Ok? {
        var content := r.content.(root := draft.value.root, themeId := draft.value.themeId, metadata := draft.value.metadata,
                                  revision := r.content.revision + 1);
        ValidRecipeIff(Recipe(content, r.ownerRef, hs.digest(content)));
      }
    }
  }

  /** An invalid patch is refused before anything is looked up. */
  lemma InvalidRefused(hs: Hashes, store: Store, p: Patch)
    requires !PatchOk(p)
    ensures Decide(hs, store, p).Err? && ValidatePatch(p) == Some(Decide(hs, store, p).error)
  {
    ValidPatchIff(p);
    hide PatchOk, ValidatePatch;
  }

  /** Any patch, accepted or not, keeps the store sound; one that is not applied leaves it as it was. */
  lemma PatchKeepsStoreOk(hs: Hashes, store: Store, p: Patch)
    requires StoreOk(hs, store)
    ensures StoreOk(hs, After(hs, store, p))
    ensures !(Decide(hs, store, p).Ok? && Decide(hs, store, p).value.Applied?) ==> After(hs, store, p) == store
  {
    hide ValidateRecipe, Decide;
    if Decide(hs, store, p).Ok? && Decide(hs, store, p).value.Applied? { AppliedFacts(hs, store, p); }
  }

  lemma {:induction false} RunKeepsStoreOk(hs: Hashes, store: Store, patches: seq<Patch>)
    requires StoreOk(hs, store)
    ensures StoreOk(hs, Run(hs, store, patches))
    ensures Run(hs, store, patches).recipes.Keys == store.recipes.Keys
    decreases |patches|
  {
    if patches != [] {
      hide StoreOk, Decide;
      var before, p := Run(hs, store, patches[..|patches| - 1]), patches[|patches| - 1];
      RunKeepsStoreOk(hs, store, patches[..|patches| - 1]);
      PatchKeepsStoreOk(hs, before, p);
      KeysStay(hs, before, p);
    }
  }

  lemma KeysStay(hs: Hashes, store: Store, p: Patch)
    requires StoreOk(hs, store)
    ensures After(hs, store, p).recipes.Keys == store.recipes.Keys
  {
    hide ValidateRecipe, Decide;
    if Decide(hs, store, p).Ok? && Decide(hs, store, p).value.Applied? {
      AppliedFacts(hs, store, p);
      assert Decide(hs, store, p).value.recipe.content.recipeId == p.recipeId;
    }
  }

  /** Accepted patch ids are never forgotten or rewritten. */
  lemma {:induction false} AppliedStays(hs: Hashes, store: Store, patches: seq<Patch>, id: string)
    requires id in store.applied
    ensures var later := Run(hs, store, patches).applied; id in later && later[id] == store.applied[id]
    decreases |patches|
  {
    if patches != [] {
      hide Decide;
      var before, p := Run(hs, store, patches[..|patches| - 1]), patches[|patches| - 1];
      AppliedStays(hs, store, patches[..|patches| - 1], id);
      if Decide(hs, before, p).Ok? && Decide(hs, before, p).value.Applied? { AppliedFacts(hs, before, p); }
    }
  }

  /** Replaying an accepted patch, after any other patches, reports it as already applied and changes nothing. */
  lemma ReplayChangesNothing(hs: Hashes, store: Store, p: Patch, between: seq<Patch>)
    requires StoreOk(hs, store)
    requires Decide(hs, store, p).Ok? && Decide(hs, store, p).value.Applied?
    ensures var later := Run(hs, After(hs, store, p), between);
            && After(hs, later, p) == later
            && Decide(hs, later, p).Ok? && Decide(hs, later, p).value.AlreadyApplied?
  {
    hide ValidatePatch, ValidateRecipe, Successor, Run, StoreOk;
    AppliedFacts(hs, store, p);
    PatchKeepsStoreOk(hs, store, p);
    RunKeepsStoreOk(hs, After(hs, store, p), between);
    AppliedStays(hs, After(hs, store, p), between, p.patchId);
  }

  /** Once a patch id has been accepted, another intent under the same id is refused for good. */
  lemma ReusedIdIsRefused(hs: Hashes, store: Store, p: Patch, between: seq<Patch>, q: Patch)
    requires Decide(hs, store, p).Ok? && Decide(hs, store, p).value.Applied?
    requires PatchOk(q) && q.patchId == p.patchId
    requires hs.intent(Intent(q.ownerRef, q.recipeId, q.baseRevision, q.baseDigest, q.operations)) !=
             hs.intent(Intent(p.ownerRef, p.recipeId, p.baseRevision, p.baseDigest, p.operations))
    ensures Decide(hs, Run(hs, After(hs, store, p), between), q) == Err(PatchIdConflict(p.patchId))
  {
    ValidPatchIff(q);
    AppliedFacts(hs, store, p);
    hide ValidatePatch, Successor, Run, PatchOk;
    AppliedStays(hs, After(hs, store, p), between, p.patchId);
  }

  /** How many of the first patches were applied to the given recipe. */
  ghost function CountApplied(hs: Hashes, store: Store, patches: seq<Patch>, id: string): nat {
    if patches == [] then 0
    else
      var n := |patches| - 1;
      CountApplied(hs, store, patches[..n], id) + if AppliedAt(hs, store, patches, n) && patches[n].recipeId == id then 1 else 0
  }

  /** A recipe's revision counts the patches applied to it. */
  lemma {:induction false} RevisionCounts(hs: Hashes, store: Store, patches: seq<Patch>, id: string)
    requires StoreOk(hs, store) && id in store.recipes
    ensures id in Run(hs, store, patches).recipes
    ensures Run(hs, store, patches).recipes[id].content.revision ==
            store.recipes[id].content.revision + CountApplied(hs, store, patches, id)
    decreases |patches|
  {
    if patches != [] {
      hide Decide, StoreOk;
      var n := |patches| - 1;
      var before, p := Run(hs, store, patches[..n]), patches[n];
      RevisionCounts(hs, store, patches[..n], id);
      RunKeepsStoreOk(hs, store, patches[..n]);
      RevisionStep(hs, before, p, id);
    }
  }

  lemma RevisionStep(hs: Hashes, store: Store, p: Patch, id: string)
    requires StoreOk(hs, store) && id in store.recipes
    ensures id in After(hs, store, p).recipes
    ensures var applied := Decide(hs, store, p).Ok? && Decide(hs, store, p).value.Applied? && p.recipeId == id;
            After(hs, store, p).recipes[id].content.revision == store.recipes[id].content.revision + if applied then 1 else 0
  {
    hide ValidateRecipe, Decide;
    if Decide(hs, store, p).Ok? && Decide(hs, store, p).value.Applied? { AppliedFacts(hs, store, p); }
  }

  lemma CountStep(hs: Hashes, store: Store, patches: seq<Patch>, id: string, j: nat)
    requires j < |patches|
    ensures CountApplied(hs, store, patches[..j + 1], id) ==
            CountApplied(hs, store, patches[..j], id) + if AppliedAt(hs, store, patches, j) && patches[j].recipeId == id then 1 else 0
  {
    assert patches[..j + 1][..j] == patches[..j];
    hide Decide, Run;
  }

  lemma {:induction false} CountGrows(hs: Hashes, store: Store, patches: seq<Patch>, id: string, i: nat, j: nat)
    requires i <= j <= |patches|
    ensures CountApplied(hs, store, patches[..i], id) <= CountApplied(hs, store, patches[..j], id)
    ensures i < j && AppliedAt(hs, store, patches, i) && patches[i].recipeId == id ==>
              CountApplied(hs, store, patches[..i], id) < CountApplied(hs, store, patches[..j], id)
    decreases j
  {
    hide CountApplied, AppliedAt, Run, Decide;
    if i < j {
      CountStep(hs, store, patches, id, j - 1);
      CountGrows(hs, store, patches, id, i, j - 1);
    }
  }

  /** Of the patches of a run aimed at one recipe and one base revision, at most one is applied: later applied
      patches have strictly larger base revisions. */
  lemma OneWinnerPerRevision(hs: Hashes, store: Store, patches: seq<Patch>, i: nat, j: nat)
    requires StoreOk(hs, store) && i < j < |patches|
    requires patches[i].recipeId == patches[j].recipeId
    requires AppliedAt(hs, store, patches, i) && AppliedAt(hs, store, patches, j)
    ensures patches[i].baseRevision < patches[j].baseRevision
  {
    var id := patches[i].recipeId;
    RunKeepsStoreOk(hs, store, patches[..i]);
    AppliedFacts(hs, Run(hs, store, patches[..i]), patches[i]);
    AppliedFacts(hs, Run(hs, store, patches[..j]), patches[j]);
    RevisionCounts(hs, store, patches[..i], id);
    RevisionCounts(hs, store, patches[..j], id);
    CountGrows(hs, store, patches, id, i, j);
  }

  // ---- The store as an object ----

  class RecipeStore {
    const hs: Hashes
    var recipes: map<string, Recipe>
    var applied: map<string, string>

    ghost function State(): Store
      reads this
    {
      Store(recipes, applied)
    }

    constructor (hs: Hashes)
      ensures this.hs == hs && State() == Store(map[], map[]) && StoreOk(hs, State())
    {
      this.hs := hs;
      recipes, applied := map[], map[];
    }

    /** Inserts or overwrites a recipe under a fresh digest. */
    method Insert(recipe: Recipe) returns (error: Option<PatchError>)
      requires StoreOk(hs, State())
      modifies this
      ensures StoreOk(hs, State())
      ensures applied == old(applied)
      ensures error == if recipe.content.schema != "aos.recipe@1" || recipe.content.recipeId == "" then Some(InvalidRecipe)
                       else if ValidateRecipe(recipe).Some? then Some(AsPatchError(ValidateRecipe(recipe).value)) else None
      ensures recipes == if error.Some? then old(recipes)
                         else old(recipes)[recipe.content.recipeId := recipe.(digest := hs.digest(recipe.content))]
    {
      if recipe.content.schema != "aos.recipe@1" || recipe.content.recipeId == "" { return Some(InvalidRecipe); }
      var invalid := CheckRecipe(recipe);
      if invalid.Some? { return Some(AsPatchError(invalid.value)); }
      var fresh_ := recipe.(digest := hs.digest(recipe.content));
      SameContent(recipe, fresh_);
      recipes := recipes[recipe.content.recipeId := fresh_];
      return None;
    }

    /** Applies a reviewed patch by compare-and-swap on revision and digest. */
    method ApplyPatch(p: Patch) returns (r: Result<Outcome, PatchError>)
      modifies this
      ensures r == Decide(hs, old(State()), p)
      ensures State() == After(hs, old(State()), p)
    {
      hide ValidatePatch, ApplyOps, ValidateRecipe;
      var bad := ValidatePatch(p);
      if bad.Some? { return Err(bad.value); }
      var intent := hs.intent(IntentOf(p));
      if p.patchId in applied {
        if applied[p.patchId] != intent { return Err(PatchIdConflict(p.patchId)); }
        if p.recipeId !in recipes { return Err(UnknownRecipe); }
        return Ok(AlreadyApplied(recipes[p.recipeId]));
      }
      if p.recipeId !in recipes { return Err(UnknownRecipe); }
      var recipe := recipes[p.recipeId];
      if recipe.ownerRef != p.ownerRef { return Err(OwnerMismatch); }
      if recipe.content.revision != p.baseRevision || recipe.digest != p.baseDigest {
        return Err(Conflict(recipe.content.revision, recipe.digest));
      }
      var drafted := ApplyOperations(DraftOf(recipe), p.operations);
      if drafted.Err? { return Err(drafted.error); }
      var d := drafted.value;
      if recipe.content.revision >= MAX_REVISION { return Err(RevisionOverflow); }
      var content := recipe.content.(root := d.root, themeId := d.themeId, metadata := d.metadata,
                                     revision := recipe.content.revision + 1);
      var candidate := Recipe(content, recipe.ownerRef, hs.digest(content));
      var invalid := CheckRecipe(candidate);
      if invalid.Some? { return Err(AsPatchError(invalid.value)); }
      recipes := recipes[candidate.content.recipeId := candidate];
      applied := applied[p.patchId := intent];
      return Ok(Applied(candidate, d.visualChanged));
    }
  }

  lemma SameContent(a: Recipe, b: Recipe)
    requires a.content == b.content && a.ownerRef == b.ownerRef
    ensures ValidateRecipe(a) == ValidateRecipe(b)
  {
  }

  method CheckRecipe(r: Recipe) returns (error: Option<RecipeError>)
    ensures error == ValidateRecipe(r)
  {
    hide Validate, BoundedNonempty;
    if r.content.schema != "aos.recipe@1" { return Some(BadSchema); }
    if !BoundedNonempty(r.ownerRef.id, MAX_OWNER_REF_BYTES) || !BoundedNonempty(r.content.recipeId, 256)
       || !BoundedNonempty(r.content.themeId, 128) || r.content.revision == 0 {
      return Some(BadIdentity);
    }
    if |r.content.metadata| > MAX_RECIPE_METADATA { return Some(BadMetadata); }
    var bytes := ComputeSum(r.content.metadata, MetadataWeight);
    if bytes > MAX_RECIPE_METADATA_BYTES { return Some(BadMetadata); }
    match Validate(r.content.root)
    case Ok(_) => return None;
    case Err(e) => return Some(BadScene(e));
  }

  /** The operations in order, each on the result of those before it. */
  method ApplyOperations(start: Draft, ops: seq<PatchOp>) returns (r: Result<Draft, PatchError>)
    ensures r == ApplyOps(start, ops)
  {
    var d := start;
    for n := 0 to |ops|
      invariant ApplyOps(start, ops) == ApplyOps(d, ops[n..])
    {
      assert ops[n..][1..] == ops[n + 1..];
      match ops[n]
      case SetState(nodeId, state) =>
        var item := Find(d.root, nodeId);
        if item.None? { return Err(UnknownNode(nodeId)); }
        d := d.(root := Replace(d.root, nodeId, item.value.(state := state)), visualChanged := true);
      case SetProperty(nodeId, key, value) =>
        var item := Find(d.root, nodeId);
        if item.None? { return Err(UnknownNode(nodeId)); }
        var props := NewProps(item.value.props[key := value]);
        if props.Err? { return Err(PropsRejected(props.error)); }
        d := d.(root := Replace(d.root, nodeId, item.value.(props := props.value)), visualChanged := true);
      case SetTheme(themeId) => d := d.(themeId := themeId);
      case SetRecipeMetadata(key, value) => d := d.(metadata := d.metadata[key := value]);
    }
    return Ok(d);
  }
}
