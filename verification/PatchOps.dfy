/** Bounded property sets and in-place edits of one node. */
module PatchOps {
  import opened Common
  import opened Scene
  import opened Utf8

  const MAX_PROPS := 32
  const MAX_PROP_BYTES := 4096

  datatype PropsError = TooMany | TooLarge

  function ValueBytes(value: PropValue): nat {
    match value
    case Text(t) => ByteLen(t)
    case Token(t) => ByteLen(t)
    case _ => 0
  }

  /** The sum of `weigh` over the entries of a map. */
  ghost function Sum(m: Props, weigh: (string, PropValue) -> nat): nat
    decreases |m|
  {
    if m == map[] then 0
    else
      var k :| k in m;
      weigh(k, m[k]) + Sum(m - {k}, weigh)
  }

  /** Nothing weighs nothing, and the order of summation does not matter. */
  lemma {:induction false} SumOne(m: Props, weigh: (string, PropValue) -> nat, k: string)
    requires k in m
    ensures Sum(map[], weigh) == 0
    ensures Sum(m, weigh) == weigh(k, m[k]) + Sum(m - {k}, weigh)
    decreases |m|
  {
    var first :| first in m && Sum(m, weigh) == weigh(first, m[first]) + Sum(m - {first}, weigh);
    if first != k {
      SumOne(m - {first}, weigh, k);
      SumOne(m - {k}, weigh, first);
      assert m - {first} - {k} == m - {k} - {first};
    }
  }

  method ComputeSum(m: Props, weigh: (string, PropValue) -> nat) returns (total: nat)
    ensures total == Sum(m, weigh)
  {
    total := 0;
    var rest := m;
    while rest.Keys != {}
      invariant total + Sum(rest, weigh) == Sum(m, weigh)
      decreases |rest|
    {
      var k :| k in rest.Keys;
      SumOne(rest, weigh, k);
      total := total + weigh(k, rest[k]);
      rest := rest - {k};
    }
    assert rest == map[];
  }

  function PropWeight(key: string, value: PropValue): nat {
    ByteLen(key) + ValueBytes(value)
  }

  /** A property weighs its key and its text, in bytes; a number or a flag adds none. */
  lemma PropWeights(key: string, t: string, n: real, b: bool)
    ensures PropWeight(key, Text(t)) == PropWeight(key, Token(t)) == |Encode(key)| + |Encode(t)|
    ensures PropWeight(key, Number(n)) == PropWeight(key, Flag(b)) == |Encode(key)|
  {
  }

  /** The bounds every property set obeys. */
  ghost predicate WithinBounds(props: Props) {
    |props| <= 32 && Sum(props, PropWeight) <= 4096
  }

  ghost function BoundedProps(props: Props): Result<Props, PropsError> {
    if |props| > MAX_PROPS then Err(TooMany)
    else if Sum(props, PropWeight) > MAX_PROP_BYTES then Err(TooLarge)
    else Ok(props)
  }

  method NewProps(props: Props) returns (r: Result<Props, PropsError>)
    ensures r == BoundedProps(props)
    ensures r.Ok? <==> WithinBounds(props)
  {
    if |props| > MAX_PROPS { return Err(TooMany); }
    var bytes := ComputeSum(props, PropWeight);
    return if bytes > MAX_PROP_BYTES then Err(TooLarge) else Ok(props);
  }

  // ---- Finding and editing a node ----

  /** The first node in reading order with identity `target`. */
  function Find(node: SemanticNode, target: NodeId): Option<Item>
    decreases node, 1
  {
    if node.item.id == target then Some(node.item) else FindIn(node.children, target)
  }

  function FindIn(nodes: seq<SemanticNode>, target: NodeId): Option<Item>
    decreases nodes, 0
  {
    if nodes == [] then None
    else match Find(nodes[0], target)
      case Some(item) => Some(item)
      case None => FindIn(nodes[1..], target)
  }

  /** The tree with that node's item replaced. */
  function Replace(node: SemanticNode, target: NodeId, item: Item): SemanticNode
    decreases node, 1
  {
    if node.item.id == target then Node(item, node.children)
    else Node(node.item, ReplaceIn(node.children, target, item))
  }

  function ReplaceIn(nodes: seq<SemanticNode>, target: NodeId, item: Item): (r: seq<SemanticNode>)
    ensures |r| == |nodes|
    decreases nodes, 0
  {
    if nodes == [] then []
    else if Find(nodes[0], target).Some? then [Replace(nodes[0], target, item)] + nodes[1..]
    else [nodes[0]] + ReplaceIn(nodes[1..], target, item)
  }

  /** Position of the first visit of `target`, or the length. */
  function FirstAt(visits: seq<Visit>, target: NodeId): (k: nat)
    ensures k <= |visits|
    ensures k < |visits| ==> visits[k].item.id == target
    ensures forall j | 0 <= j < k :: visits[j].item.id != target
  {
    if visits == [] then 0 else if visits[0].item.id == target then 0 else 1 + FirstAt(visits[1..], target)
  }

  /** The walk with the first visit of `target` given another item. */
  function Edited(visits: seq<Visit>, target: NodeId, item: Item): seq<Visit> {
    var k := FirstAt(visits, target);
    if k < |visits| then visits[k := visits[k].(item := item)] else visits
  }

  lemma {:induction false} FirstAtConcat(a: seq<Visit>, b: seq<Visit>, target: NodeId)
    ensures FirstAt(a + b, target) == if FirstAt(a, target) < |a| then FirstAt(a, target) else |a| + FirstAt(b, target)
  {
    if a == [] {
      assert a + b == b;
    } else {
      FirstAtConcat(a[1..], b, target);
      assert (a + b)[1..] == a[1..] + b;
    }
  }

  lemma EditedConcat(a: seq<Visit>, b: seq<Visit>, target: NodeId, item: Item)
    ensures Edited(a + b, target, item) ==
            if FirstAt(a, target) < |a| then Edited(a, target, item) + b else a + Edited(b, target, item)
  {
    FirstAtConcat(a, b, target);
    var i, j := FirstAt(a, target), FirstAt(b, target);
    EditedAt(a, target, item, i);
    EditedAt(b, target, item, j);
    if i < |a| {
      EditedAt(a + b, target, item, i);
      hide FirstAt, Edited;
      UpdateLeft(a, b, i, Visit(item, a[i].arity));
    } else {
      EditedAt(a + b, target, item, |a| + j);
      hide FirstAt, Edited;
      if j < |b| { UpdateRight(a, b, j, Visit(item, b[j].arity)); }
    }
  }

  lemma EditedAt(visits: seq<Visit>, target: NodeId, item: Item, k: nat)
    requires FirstAt(visits, target) == k
    ensures Edited(visits, target, item) == if k < |visits| then visits[k := Visit(item, visits[k].arity)] else visits
  {
  }

  lemma UpdateLeft<T>(a: seq<T>, b: seq<T>, i: nat, x: T)
    requires i < |a|
    ensures (a + b)[i] == a[i] && (a + b)[i := x] == a[i := x] + b
  {
  }

  lemma UpdateRight<T>(a: seq<T>, b: seq<T>, j: nat, x: T)
    requires j < |b|
    ensures (a + b)[|a| + j] == b[j] && (a + b)[|a| + j := x] == a + b[j := x]
  {
  }

  lemma {:induction false} FindIsFirst(node: SemanticNode, target: NodeId)
    ensures var k := FirstAt(Walk(node), target);
            Find(node, target) == if k < |Walk(node)| then Some(Walk(node)[k].item) else None
    decreases node, 1
  {
    var here := [Visit(node.item, |node.children|)];
    FirstAtConcat(here, WalkAll(node.children), target);
    if node.item.id != target { FindInIsFirst(node.children, target); }
  }

  lemma {:induction false} FindInIsFirst(nodes: seq<SemanticNode>, target: NodeId)
    ensures var k := FirstAt(WalkAll(nodes), target);
            FindIn(nodes, target) == if k < |WalkAll(nodes)| then Some(WalkAll(nodes)[k].item) else None
    decreases nodes, 0
  {
    if nodes != [] {
      hide FirstAt, Walk, Find;
      FindIsFirst(nodes[0], target);
      FindInIsFirst(nodes[1..], target);
      FirstAtConcat(Walk(nodes[0]), WalkAll(nodes[1..]), target);
    }
  }

  /** Search succeeds exactly when the identity occurs. */
  lemma FindIffOccurs(root: SemanticNode, target: NodeId)
    ensures Find(root, target).Some? <==> target in Ids(Walk(root))
  {
    FindIsFirst(root, target);
    var visits := Walk(root);
    var k := FirstAt(visits, target);
    if k < |visits| {
      assert visits[k] in visits;
    } else {
      assert forall v | v in visits :: v.item.id != target;
    }
  }

  /** Replacing edits one position of the walk and nothing else: shape and order stay. */
  lemma {:induction false} ReplaceEdits(node: SemanticNode, target: NodeId, item: Item)
    requires Find(node, target).Some?
    ensures Walk(Replace(node, target, item)) == Edited(Walk(node), target, item)
    decreases node, 1
  {
    var here, below := [Visit(node.item, |node.children|)], WalkAll(node.children);
    EditedConcat(here, below, target, item);
    if node.item.id == target {
      assert Edited(here, target, item) == [Visit(item, |node.children|)];
    } else {
      ReplaceInEdits(node.children, target, item);
    }
  }

  lemma {:induction false} ReplaceInEdits(nodes: seq<SemanticNode>, target: NodeId, item: Item)
    requires FindIn(nodes, target).Some?
    ensures WalkAll(ReplaceIn(nodes, target, item)) == Edited(WalkAll(nodes), target, item)
    decreases nodes, 0
  {
    hide FirstAt, Walk, Find, Edited;
    var head, tail := nodes[0], nodes[1..];
    FindIsFirst(head, target);
    EditedConcat(Walk(head), WalkAll(tail), target, item);
    var next := ReplaceIn(nodes, target, item);
    assert next == [next[0]] + next[1..];
    if Find(head, target).Some? {
      ReplaceEdits(head, target, item);
      assert next[0] == Replace(head, target, item) && next[1..] == tail;
    } else {
      ReplaceInEdits(tail, target, item);
      assert next[0] == head && next[1..] == ReplaceIn(tail, target, item);
    }
  }
}
