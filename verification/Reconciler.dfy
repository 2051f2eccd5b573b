/** Ascending lists of the elements of a finite set. */
module SortedSets {
  import opened IndexLists

  lemma HasMin(s: set<nat>)
    requires s != {}
    ensures exists m :: m in s && forall x | x in s :: m <= x
  {
    var m :| m in s;
    while exists x :: x in s && x < m
      invariant m in s
      decreases m
    {
      var x :| x in s && x < m;
      m := x;
    }
  }

  function MinOf(s: set<nat>): (m: nat)
    requires s != {}
    ensures m in s && forall x | x in s :: m <= x
  {
    HasMin(s);
    var m :| m in s && forall x | x in s :: m <= x;
    m
  }

  /** `list` is the ascending list of the elements of `s`; there is exactly one. */
  ghost predicate Lists(list: seq<nat>, s: set<nat>) {
    Ascending(list) && (forall x :: x in list <==> x in s) && |list| == |s|
  }

  /** A larger element goes at the end. */
  lemma ListsMore(list: seq<nat>, s: set<nat>, x: nat)
    requires Lists(list, s) && forall y | y in s :: y < x
    ensures Lists(list + [x], s + {x})
  {
    assert forall i | 0 <= i < |list| :: list[i] in list;
  }

  function Sorted(s: set<nat>): (list: seq<nat>)
    ensures Lists(list, s)
    decreases |s|
  {
    if s == {} then []
    else
      var m := MinOf(s);
      var rest := Sorted(s - {m});
      assert forall i | 0 <= i < |rest| :: rest[i] in s - {m};
      [m] + rest
  }
}

/** Keyed reconciliation of successive scenes, with stable focus. */
module Reconciliation {
  import opened Common
  import opened IndexLists
  import opened Scene
  import opened SortedSets

  const MAX_GENERATION := 0xFFFF_FFFF_FFFF_FFFF

  datatype Retained = Retained(id: NodeId, kind: ComponentKind, parent: Option<NodeId>, generation: nat)

  datatype Report = Report(reused: seq<NodeId>, created: seq<NodeId>, removed: seq<NodeId>, focusPreserved: bool)

  /** Where a node sits. */
  datatype Place = Place(id: NodeId, kind: ComponentKind, parent: Option<NodeId>)

  function Places(node: SemanticNode, parent: Option<NodeId>): seq<Place>
    decreases node, 1
  {
    [Place(node.item.id, node.item.kind, parent)] + PlacesIn(node.children, node.item.id)
  }

  function PlacesIn(nodes: seq<SemanticNode>, parent: NodeId): seq<Place>
    decreases nodes, 0
  {
    if nodes == [] then [] else Places(nodes[0], Some(parent)) + PlacesIn(nodes[1..], parent)
  }

  lemma {:induction false} PlacesFollowWalk(node: SemanticNode, parent: Option<NodeId>)
    ensures |Places(node, parent)| == |Walk(node)|
    ensures forall k | 0 <= k < |Walk(node)| :: Places(node, parent)[k].id == Walk(node)[k].item.id && Places(node, parent)[k].kind == Walk(node)[k].item.kind
    decreases node, 1
  {
    PlacesInFollowWalk(node.children, node.item.id);
  }

  lemma {:induction false} PlacesInFollowWalk(nodes: seq<SemanticNode>, parent: NodeId)
    ensures |PlacesIn(nodes, parent)| == |WalkAll(nodes)|
    ensures forall k | 0 <= k < |WalkAll(nodes)| :: PlacesIn(nodes, parent)[k].id == WalkAll(nodes)[k].item.id && PlacesIn(nodes, parent)[k].kind == WalkAll(nodes)[k].item.kind
    decreases nodes, 0
  {
    if nodes != [] {
      PlacesFollowWalk(nodes[0], Some(parent));
      PlacesInFollowWalk(nodes[1..], parent);
      hide Places, Walk;
    }
  }

  function NextGeneration(previous: map<NodeId, Retained>, id: NodeId): nat {
    if id in previous then (if previous[id].generation >= MAX_GENERATION then MAX_GENERATION else previous[id].generation + 1) else 1
  }

  function Retain(previous: map<NodeId, Retained>, p: Place): Retained {
    Retained(p.id, p.kind, p.parent, NextGeneration(previous, p.id))
  }

  function InsertAll(places: seq<Place>, previous: map<NodeId, Retained>, output: map<NodeId, Retained>): map<NodeId, Retained> {
    if places == [] then output
    else InsertAll(places[1..], previous, output[places[0].id := Retain(previous, places[0])])
  }

  lemma {:induction false} InsertAllConcat(a: seq<Place>, b: seq<Place>, previous: map<NodeId, Retained>, output: map<NodeId, Retained>)
    ensures InsertAll(a + b, previous, output) == InsertAll(b, previous, InsertAll(a, previous, output))
    decreases |a|
  {
    if a == [] {
      assert a + b == b;
    } else {
      InsertAllConcat(a[1..], b, previous, output[a[0].id := Retain(previous, a[0])]);
      assert (a + b)[1..] == a[1..] + b;
    }
  }

  ghost predicate DistinctPlaces(places: seq<Place>) {
    forall i, j | 0 <= i < j < |places| :: places[i].id != places[j].id
  }

  function PlaceIds(places: seq<Place>): set<NodeId> {
    set p | p in places :: p.id
  }

  lemma {:induction false} InsertAllKeys(places: seq<Place>, previous: map<NodeId, Retained>, output: map<NodeId, Retained>)
    ensures InsertAll(places, previous, output).Keys == output.Keys + PlaceIds(places)
    decreases |places|
  {
    if places != [] {
      hide Retain;
      var more := output[places[0].id := Retain(previous, places[0])];
      InsertAllKeys(places[1..], previous, more);
      assert more.Keys == output.Keys + {places[0].id};
      assert places == [places[0]] + places[1..];
    }
  }

  /** What is inserted stays unless its identity comes again. */
  lemma {:induction false} InsertAllKeeps(places: seq<Place>, previous: map<NodeId, Retained>, output: map<NodeId, Retained>, id: NodeId)
    requires id in output && id !in PlaceIds(places)
    ensures id in InsertAll(places, previous, output) && InsertAll(places, previous, output)[id] == output[id]
    decreases |places|
  {
    if places != [] {
      hide Retain;
      assert places[0] in places && forall p | p in places[1..] :: p in places;
      InsertAllKeeps(places[1..], previous, output[places[0].id := Retain(previous, places[0])], id);
    }
  }

  lemma {:induction false} InsertAllPuts(places: seq<Place>, previous: map<NodeId, Retained>, output: map<NodeId, Retained>, p: Place)
    requires DistinctPlaces(places) && p in places
    ensures p.id in InsertAll(places, previous, output) && InsertAll(places, previous, output)[p.id] == Retain(previous, p)
    decreases |places|
  {
    hide Retain;
    FirstPlace(places);
    var more := output[places[0].id := Retain(previous, places[0])];
    if p == places[0] {
      InsertAllKeeps(places[1..], previous, more, p.id);
    } else {
      hide DistinctPlaces;
      InsertAllPuts(places[1..], previous, more, p);
    }
  }

  lemma {:induction false} DistinctCount(places: seq<Place>)
    requires DistinctPlaces(places)
    ensures |PlaceIds(places)| == |places|
    decreases |places|
  {
    if places != [] {
      FirstPlace(places);
      DistinctCount(places[1..]);
    }
  }

  lemma FirstPlace(places: seq<Place>)
    requires places != [] && DistinctPlaces(places)
    ensures DistinctPlaces(places[1..]) && places[0].id !in PlaceIds(places[1..])
    ensures PlaceIds(places) == {places[0].id} + PlaceIds(places[1..])
    ensures forall p | p in places :: p == places[0] || p in places[1..]
  {
    var tail := places[1..];
    assert forall i | 0 <= i < |tail| :: tail[i] == places[i + 1];
    assert places[0] in places;
  }

  /** The retained map agrees with a scene: its ids exactly, each with its kind, its parent and its next generation. */
  ghost predicate Agrees(nodes: map<NodeId, Retained>, root: SemanticNode, previous: map<NodeId, Retained>) {
    && nodes.Keys == Ids(Walk(root))
    && forall p | p in Places(root, None) :: p.id in nodes && nodes[p.id] == Retain(previous, p)
  }

  // ---- The same on the tree itself ----

  /** Each record has its own id and the kind of its node; the root's has no parent, and any other that of the node it
      is a child of. */
  ghost predicate AgreesWithTree(nodes: map<NodeId, Retained>, root: SemanticNode) {
    && root.item.id in nodes && nodes[root.item.id].parent == None
    && forall s, d: nat | SubtreeAt(s, root, d) ::
         && s.item.id in nodes && nodes[s.item.id].id == s.item.id && nodes[s.item.id].kind == s.item.kind
         && forall c | c in s.children :: c.item.id in nodes && nodes[c.item.id].parent == Some(s.item.id)
  }

  lemma {:induction false} ChildPlaced(nodes: seq<SemanticNode>, parent: NodeId, c: SemanticNode)
    requires c in nodes
    ensures Place(c.item.id, c.item.kind, Some(parent)) in PlacesIn(nodes, parent)
    ensures forall p | p in Places(c, Some(parent)) :: p in PlacesIn(nodes, parent)
    decreases nodes
  {
    if c != nodes[0] { ChildPlaced(nodes[1..], parent, c); } else { assert Places(c, Some(parent))[0].id == c.item.id; }
  }

  /** A subtree of a placed tree is placed, and its children are placed below it. */
  lemma {:induction false} SubtreePlaced(s: SemanticNode, root: SemanticNode, d: nat, parent: Option<NodeId>)
    requires SubtreeAt(s, root, d)
    ensures exists p | p in Places(root, parent) :: p.id == s.item.id && p.kind == s.item.kind
    ensures forall c | c in s.children :: Place(c.item.id, c.item.kind, Some(s.item.id)) in Places(root, parent)
    decreases root
  {
    if d == 0 {
      assert Places(root, parent)[0] in Places(root, parent);
      forall c | c in s.children ensures Place(c.item.id, c.item.kind, Some(s.item.id)) in Places(root, parent) {
        ChildPlaced(root.children, root.item.id, c);
      }
    } else {
      var k :| 0 <= k < |root.children| && SubtreeAt(s, root.children[k], d - 1);
      SubtreePlaced(s, root.children[k], d - 1, Some(root.item.id));
      ChildPlaced(root.children, root.item.id, root.children[k]);
    }
  }

  lemma TreeAgrees(nodes: map<NodeId, Retained>, root: SemanticNode, previous: map<NodeId, Retained>)
    requires Agrees(nodes, root, previous)
    ensures AgreesWithTree(nodes, root)
  {
    assert Places(root, None)[0] == Place(root.item.id, root.item.kind, None);
    assert Places(root, None)[0] in Places(root, None);
    hide Places, Walk, NextGeneration;
    forall s, d: nat | SubtreeAt(s, root, d)
      ensures s.item.id in nodes && nodes[s.item.id].id == s.item.id && nodes[s.item.id].kind == s.item.kind
      ensures forall c | c in s.children :: c.item.id in nodes && nodes[c.item.id].parent == Some(s.item.id)
    {
      SubtreePlaced(s, root, d, None);
    }
  }

  lemma SameIds(places: seq<Place>, walk: seq<Visit>)
    requires |places| == |walk| && forall k | 0 <= k < |walk| :: places[k].id == walk[k].item.id
    ensures PlaceIds(places) == Ids(walk)
  {
    forall v | v in walk ensures v.item.id in PlaceIds(places) {
      var k :| 0 <= k < |walk| && walk[k] == v;
      assert places[k] in places;
    }
    forall p | p in places ensures p.id in Ids(walk) {
      var k :| 0 <= k < |places| && places[k] == p;
      assert walk[k] in walk;
    }
  }

  lemma CollectAgrees(root: SemanticNode, previous: map<NodeId, Retained>)
    requires Distinct(Walk(root))
    ensures var next := InsertAll(Places(root, None), previous, map[]);
            Agrees(next, root, previous) && AgreesWithTree(next, root) && |next| == |Walk(root)|
  {
    PlacesFollowWalk(root, None);
    hide Places, Walk, InsertAll, Retain;
    var places := Places(root, None);
    var next := InsertAll(places, previous, map[]);
    SameIds(places, Walk(root));
    InsertAllKeys(places, previous, map[]);
    DistinctCount(places);
    assert next.Keys == PlaceIds(places) && |next| == |next.Keys|;
    forall p | p in places ensures p.id in next && next[p.id] == Retain(previous, p) {
      InsertAllPuts(places, previous, map[], p);
    }
    TreeAgrees(next, root, previous);
    hide AgreesWithTree;
  }

  /** How many of the latest scenes, counted back without a gap, contain the id. */
  function Streak(history: seq<SemanticNode>, id: NodeId): nat {
    if history == [] || id !in Ids(Walk(history[|history| - 1])) then 0
    else 1 + Streak(history[..|history| - 1], id)
  }

  function ReusedIds(previous: map<NodeId, Retained>, next: map<NodeId, Retained>): set<NodeId> {
    set id | id in next && id in previous && previous[id].kind == next[id].kind
  }

  /** In both maps and of the same kind. */
  predicate Same(previous: map<NodeId, Retained>, next: map<NodeId, Retained>, id: NodeId) {
    id in previous && id in next && previous[id].kind == next[id].kind
  }

  /** The report names the identities that are the same, those that are new or changed kind, and those that are gone,
      each once in ascending order; focus stays where it was if it is still present and otherwise goes to the smallest
      identity. */
  ghost predicate Describes(r: Report, previous: map<NodeId, Retained>, next: map<NodeId, Retained>, focus: Option<NodeId>, nextFocus: Option<NodeId>) {
    && Ascending(r.reused) && (forall id :: id in r.reused <==> Same(previous, next, id))
    && Ascending(r.created) && (forall id :: id in r.created <==> id in next && !Same(previous, next, id))
    && Ascending(r.removed) && (forall id :: id in r.removed <==> id in previous && id !in next)
    && (r.focusPreserved <==> focus.Some? && focus.value in next)
    && (r.focusPreserved ==> nextFocus == focus)
    && (!r.focusPreserved ==> nextFocus.Some? && nextFocus.value in next && forall id | id in next :: nextFocus.value <= id)
  }

  class Reconciler {
    var nodes: map<NodeId, Retained>
    var focus: Option<NodeId>
    ghost var history: seq<SemanticNode>

    /** What holds in every reachable state. `history` lists the successfully reconciled scenes. */
    ghost predicate Valid()
      reads this
    {
      && nodes.Keys == (if history == [] then {} else Ids(Walk(history[|history| - 1])))
      && (forall id | id in nodes :: nodes[id].generation == Min(Streak(history, id), 18446744073709551615))
      && (focus.Some? ==> focus.value in nodes)
    }

    constructor ()
      ensures Valid() && nodes == map[] && focus == None && history == []
    {
      nodes, focus, history := map[], None, [];
    }

    method Reconcile(root: SemanticNode) returns (r: Result<Report, SceneError>)
      requires Valid()
      modifies this
      ensures Valid()
      ensures r.Ok? <==> Validate(root).Ok?
      ensures r.Err? ==> r.error == Validate(root).error && nodes == old(nodes) && focus == old(focus) && history == old(history)
      ensures r.Ok? ==> history == old(history) + [root] && Agrees(nodes, root, old(nodes)) && AgreesWithTree(nodes, root) && nodes != map[]
      ensures r.Ok? ==> Describes(r.value, old(nodes), nodes, old(focus), focus)
      ensures r.Ok? ==> |r.value.reused| + |r.value.created| == Validate(root).value
    {
      hide Walk, Validate, Describes, Agrees, AgreesWithTree, Streak, Min, Distinct, Ids;
      match Validate(root)
      case Err(error) => return Err(error);
      case Ok(count) =>
        ValidMeansDistinct(root);
        var next := Collect(root, None, nodes, map[]);
        CollectAgrees(root, nodes);
        AgreesKeys(next, root, nodes);
        var report, nextFocus := Describe(nodes, next, focus);
        GenerationsCount(history, nodes, root, next);
        focus := nextFocus;
        nodes := next;
        history := history + [root];
        return Ok(report);
    }

    method Focus(id: NodeId) returns (ok: bool)
      requires Valid()
      modifies this`focus
      ensures Valid() && ok == (id in nodes) && focus == if ok then Some(id) else old(focus)
    {
      ok := id in nodes;
      if ok { focus := Some(id); }
    }

    method ClearFocus()
      requires Valid()
      modifies this`focus
      ensures Valid() && focus == None
    {
      focus := None;
    }
  }

  /** The elements of an ascending list that belong to `wanted`, in order. */
  method Choose(list: seq<nat>, wanted: set<nat>) returns (r: seq<nat>)
    requires Ascending(list) && forall x | x in wanted :: x in list
    ensures Lists(r, wanted)
  {
    hide Lists;
    r := [];
    ghost var found: set<nat> := {};
    assert Lists([], {}) by { NoneListed(); }
    for i := 0 to |list|
      invariant Lists(r, found)
      invariant forall x :: x in found <==> x in list[..i] && x in wanted
    {
      assert list[..i + 1] == list[..i] + [list[i]];
      if list[i] in wanted {
        ListsMore(r, found, list[i]);
        found := found + {list[i]};
        r := r + [list[i]];
      }
    }
    assert list[..|list|] == list;
    assert found == wanted;
  }

  lemma NoneListed()
    ensures Lists([], {})
  {
  }

  lemma SplitCount(a: set<nat>, all: set<nat>)
    requires a <= all
    ensures |a| + |all - a| == |all|
  {
    assert a + (all - a) == all && a * (all - a) == {};
  }

  lemma ValidMeansDistinct(root: SemanticNode)
    requires Validate(root).Ok?
    ensures Distinct(Walk(root)) && Validate(root).value == |Walk(root)|
  {
    hide Walk;
    ValidateExact(root);
  }

  lemma AgreesKeys(next: map<NodeId, Retained>, root: SemanticNode, previous: map<NodeId, Retained>)
    requires Agrees(next, root, previous)
    ensures next.Keys == Ids(Walk(root)) && next.Keys != {}
  {
    assert Walk(root)[0] in Walk(root);
    assert root.item.id in Ids(Walk(root));
  }

  /** The difference between two retained maps, and the focus afterwards. */
  method Describe(previous: map<NodeId, Retained>, next: map<NodeId, Retained>, focus: Option<NodeId>)
    returns (r: Report, nextFocus: Option<NodeId>)
    requires next != map[]
    ensures Describes(r, previous, next, focus, nextFocus)
    ensures nextFocus.Some? && nextFocus.value in next
    ensures |r.reused| + |r.created| == |next|
  {
    var same := ReusedIds(previous, next);
    var reused := Choose(Sorted(next.Keys), same);
    var created := Choose(Sorted(next.Keys), next.Keys - same);
    var removed := Choose(Sorted(previous.Keys), previous.Keys - next.Keys);
    SplitCount(same, next.Keys);
    var preserved := focus.Some? && focus.value in next;
    nextFocus := if preserved then focus else Some(MinOf(next.Keys));
    r := Report(reused, created, removed, preserved);
  }

  /** Inserts a subtree's nodes in reading order. */
  method Collect(node: SemanticNode, parent: Option<NodeId>, previous: map<NodeId, Retained>, output: map<NodeId, Retained>)
    returns (next: map<NodeId, Retained>)
    ensures next == InsertAll(Places(node, parent), previous, output)
    decreases node
  {
    var here := Place(node.item.id, node.item.kind, parent);
    next := output[node.item.id := Retain(previous, here)];
    InsertAllConcat([here], PlacesIn(node.children, node.item.id), previous, output);
    assert InsertAll([here], previous, output) == next by { assert [here][1..] == []; }
    ghost var spec := InsertAll(PlacesIn(node.children, node.item.id), previous, next);
    hide InsertAll;
    for i := 0 to |node.children|
      invariant spec == InsertAll(PlacesIn(node.children[i..], node.item.id), previous, next)
    {
      assert node.children[i..][1..] == node.children[i + 1..];
      InsertAllConcat(Places(node.children[i], Some(node.item.id)), PlacesIn(node.children[i + 1..], node.item.id), previous, next);
      next := Collect(node.children[i], Some(node.item.id), previous, next);
    }
    NothingToInsert(previous, next);
  }

  lemma NothingToInsert(previous: map<NodeId, Retained>, output: map<NodeId, Retained>)
    ensures InsertAll([], previous, output) == output
  {
  }

  lemma GenerationsCount(history: seq<SemanticNode>, nodes: map<NodeId, Retained>, root: SemanticNode, next: map<NodeId, Retained>)
    requires nodes.Keys == (if history == [] then {} else Ids(Walk(history[|history| - 1])))
    requires forall id | id in nodes :: nodes[id].generation == Min(Streak(history, id), 18446744073709551615)
    requires Agrees(next, root, nodes)
    ensures forall id | id in next :: next[id].generation == Min(Streak(history + [root], id), 18446744073709551615)
  {
    forall id | id in next
      ensures next[id].generation == Min(Streak(history + [root], id), 18446744073709551615)
    {
      GenerationCounts(history, nodes, root, next, id);
    }
  }

  lemma GenerationCounts(history: seq<SemanticNode>, nodes: map<NodeId, Retained>, root: SemanticNode, next: map<NodeId, Retained>, id: NodeId)
    requires nodes.Keys == (if history == [] then {} else Ids(Walk(history[|history| - 1])))
    requires forall id | id in nodes :: nodes[id].generation == Min(Streak(history, id), 18446744073709551615)
    requires Agrees(next, root, nodes) && id in next
    ensures next[id].generation == Min(Streak(history + [root], id), 18446744073709551615)
  {
    var walk := Walk(root);
    PlacesFollowWalk(root, None);
    hide Places, Walk;
    assert (history + [root])[..|history|] == history;
    var k :| 0 <= k < |walk| && walk[k].item.id == id;
    var place := Places(root, None)[k];
    assert place in Places(root, None);
    assert next[id] == Retain(nodes, place);
    assert Streak(history + [root], id) == 1 + Streak(history, id);
    if id !in nodes { assert Streak(history, id) == 0; }
  }
}
