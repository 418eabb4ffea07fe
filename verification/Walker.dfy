/**
 The breadth-first descendant walk: visited sessions, their parents, a depth bound and a node budget over
 paged child edges.
 */
module Walker {
  import opened Wrappers
  import Ordering

  type Id = string

  datatype Edge = Edge(child: Option<Id>, observed: bool, source: string, hasEvents: bool)

  /** The child edges the store records for each session of the root's source. */
  type Graph = map<Id, seq<Edge>>

  /** A node of the walk; `relationship` is the edge that first led to it. */
  datatype Node = Node(id: Id, depth: nat, parent: Option<Id>, relationship: Option<Edge>, childCount: nat, truncated: bool)

  function EdgesOf(g: Graph, u: Id): seq<Edge> {
    if u in g then g[u] else []
  }

  /** Only an observed edge with a child identity can be walked. */
  predicate Walkable(e: Edge) {
    e.observed && e.child.Some?
  }

  /** `u` has an observed edge to `v`. */
  ghost predicate Links(g: Graph, u: Id, v: Id) {
    exists i :: 0 <= i < |EdgesOf(g, u)| && EdgesOf(g, u)[i].observed && EdgesOf(g, u)[i].child == Some(v)
  }

  function CountWalkable(edges: seq<Edge>): nat {
    if edges == [] then 0 else CountWalkable(edges[..|edges| - 1]) + if Walkable(edges[|edges| - 1]) then 1 else 0
  }

  /** There is a walk of `n` observed edges from `root` to `v`. */
  ghost predicate Path(g: Graph, root: Id, v: Id, n: nat)
    decreases n
  {
    if n == 0 then v == root else exists u :: Path(g, root, u, n - 1) && Links(g, u, v)
  }

  ghost predicate Reachable(g: Graph, root: Id, v: Id) {
    exists n: nat :: Path(g, root, v, n)
  }

  ghost predicate IsDistance(g: Graph, root: Id, v: Id, d: nat) {
    Path(g, root, v, d) && forall n: nat | Path(g, root, v, n) :: d <= n
  }

  // ----- the tree the walk grows

  type Parents = map<Id, Option<Id>>
  type Depths = map<Id, nat>

  ghost predicate IsTree(root: Id, parentOf: Parents, depthOf: Depths) {
    && parentOf.Keys == depthOf.Keys
    && root in parentOf && parentOf[root] == None && depthOf[root] == 0
    && forall x {:trigger parentOf[x]} | x in parentOf && x != root ::
         parentOf[x].Some? && parentOf[x].value in parentOf && depthOf[x] == depthOf[parentOf[x].value] + 1
  }

  /** A session and its ancestors up to the root. */
  ghost function Ancestry(root: Id, parentOf: Parents, depthOf: Depths, u: Id): set<Id>
    requires IsTree(root, parentOf, depthOf) && u in parentOf
    decreases depthOf[u]
  {
    {u} + if u == root then {} else Ancestry(root, parentOf, depthOf, parentOf[u].value)
  }

  lemma {:induction false} AncestryInTree(root: Id, parentOf: Parents, depthOf: Depths, u: Id)
    requires IsTree(root, parentOf, depthOf) && u in parentOf
    ensures Ancestry(root, parentOf, depthOf, u) <= parentOf.Keys
    decreases depthOf[u]
  {
    if u != root {
      AncestryInTree(root, parentOf, depthOf, parentOf[u].value);
    }
  }

  /** Growing the tree leaves every ancestry as it was. */
  lemma {:induction false} AncestryStable(root: Id, parentOf: Parents, depthOf: Depths, parentOf': Parents, depthOf': Depths, u: Id)
    requires IsTree(root, parentOf, depthOf) && IsTree(root, parentOf', depthOf') && u in parentOf
    requires parentOf.Keys <= parentOf'.Keys
    requires forall x {:trigger parentOf'[x]} | x in parentOf :: parentOf'[x] == parentOf[x]
    ensures Ancestry(root, parentOf', depthOf', u) == Ancestry(root, parentOf, depthOf, u)
    decreases depthOf[u]
  {
    if u != root {
      AncestryStable(root, parentOf, depthOf, parentOf', depthOf', parentOf[u].value);
    }
  }

  /** Follow parents from `from` until `candidate` or the root is passed. */
  method IsAncestor(root: Id, parentOf: Parents, ghost depthOf: Depths, from: Id, candidate: Id) returns (found: bool)
    requires IsTree(root, parentOf, depthOf) && from in parentOf
    ensures found == (candidate in Ancestry(root, parentOf, depthOf, from))
  {
    var current := Some(from);
    while current.Some?
      invariant current.Some? ==> current.value in parentOf
      invariant candidate in Ancestry(root, parentOf, depthOf, from) <==>
                  current.Some? && candidate in Ancestry(root, parentOf, depthOf, current.value)
      decreases current.Some?, if current.Some? then depthOf[current.value] else 0
    {
      if current.value == candidate {
        return true;
      }
      current := parentOf[current.value];
    }
    return false;
  }

  // ----- one level

  /** The walk's variables: what is visited, from where, and the level being collected. */
  datatype State = State(visited: set<Id>, parentOf: Parents, next: seq<Node>)

  datatype Bounds = Bounds(root: Id, maxDepth: nat, maxNodes: nat)

  ghost predicate Full(b: Bounds, s: State) {
    |s.visited| >= b.maxNodes
  }

  ghost predicate Fresh(parentOf: Parents, d: nat, n: Node) {
    && n.id in parentOf && n.depth == d && n.parent == parentOf[n.id]
    && n.childCount == 0 && !n.truncated
  }

  /** A node carries an edge that really leads from its parent to it. */
  ghost predicate Sourced(g: Graph, n: Node) {
    n.parent.Some? ==>
      && n.relationship.Some? && Walkable(n.relationship.value) && n.relationship.value.child.value == n.id
      && n.relationship.value in EdgesOf(g, n.parent.value)
  }

  ghost predicate AllSourced(g: Graph, nodes: seq<Node>) {
    forall n | n in nodes :: Sourced(g, n)
  }

  function IdsOf(nodes: seq<Node>): set<Id> {
    set n | n in nodes :: n.id
  }

  ghost function AtDepth(depthOf: Depths, d: nat): set<Id> {
    set v | v in depthOf && depthOf[v] == d
  }

  /** `nodes` names each of `ids` once: as many nodes as ids, no id twice. */
  ghost predicate Lists(nodes: seq<Node>, ids: set<Id>) {
    && (forall n | n in nodes :: n.id in ids)
    && |nodes| == |ids| && |IdsOf(nodes)| == |nodes|
  }

  lemma ListsAll(nodes: seq<Node>, ids: set<Id>)
    requires Lists(nodes, ids)
    ensures IdsOf(nodes) == ids
  {
    assert IdsOf(nodes) <= ids;
    SameSize(IdsOf(nodes), ids);
  }

  lemma SameSize(a: set<Id>, b: set<Id>)
    requires a <= b && |a| == |b|
    ensures a == b
  {
    assert |b| == |a| + |b - a| by { assert b == a + (b - a); }
  }

  lemma ListsSnoc(nodes: seq<Node>, ids: set<Id>, n: Node)
    requires Lists(nodes, ids) && n.id !in ids
    ensures Lists(nodes + [n], ids + {n.id})
  {
    IdsOfAppend(nodes, n);
    assert n.id !in IdsOf(nodes);
  }

  /** `level` lists the sessions at depth `d`, each once, none looked at yet. */
  ghost predicate IsLevel(parentOf: Parents, depthOf: Depths, d: nat, level: seq<Node>) {
    && (forall n | n in level :: Fresh(parentOf, d, n))
    && Lists(level, AtDepth(depthOf, d))
  }

  lemma IdsOfAppend(nodes: seq<Node>, n: Node)
    ensures IdsOf(nodes + [n]) == IdsOf(nodes) + {n.id}
  {
    forall x ensures x in IdsOf(nodes + [n]) <==> x in IdsOf(nodes) + {n.id} {
      if x in IdsOf(nodes) {
        var m :| m in nodes && m.id == x;
        assert m in nodes + [n];
      }
      assert n in nodes + [n];
    }
  }

  lemma {:induction false} IdsOfSize(nodes: seq<Node>)
    ensures |IdsOf(nodes)| <= |nodes|
    decreases |nodes|
  {
    if nodes != [] {
      var init := nodes[..|nodes| - 1];
      IdsOfSize(init);
      assert nodes == init + [nodes[|nodes| - 1]];
      IdsOfAppend(init, nodes[|nodes| - 1]);
    }
  }

  /** A list as long as its set of ids names each once. */
  lemma {:induction false} EachOnce(nodes: seq<Node>, k: nat)
    requires |nodes| == |IdsOf(nodes)| && k < |nodes|
    ensures nodes[k].id !in IdsOf(nodes[..k])
    decreases |nodes|
  {
    var init, last := nodes[..|nodes| - 1], nodes[|nodes| - 1];
    assert nodes == init + [last];
    IdsOfAppend(init, last);
    IdsOfSize(init);
    if k < |init| {
      EachOnce(init, k);
      assert init[..k] == nodes[..k];
    }
  }

  /** While the budget lasts, every session within `d` edges of the root is visited. */
  ghost predicate CompleteTo(g: Graph, b: Bounds, s: State, d: nat) {
    !Full(b, s) ==> forall v, n: nat | n <= d && Path(g, b.root, v, n) :: v in s.visited
  }

  ghost predicate ParentsLink(g: Graph, root: Id, parentOf: Parents) {
    forall v {:trigger parentOf[v]} | v in parentOf && v != root :: parentOf[v].Some? && Links(g, parentOf[v].value, v)
  }

  /** The walk's tree is well formed and within its bounds. */
  ghost predicate Shaped(g: Graph, b: Bounds, s: State, depthOf: Depths, d: nat) {
    && s.visited == s.parentOf.Keys && IsTree(b.root, s.parentOf, depthOf)
    && |s.visited| <= b.maxNodes && d <= b.maxDepth
    && (forall v | v in s.visited :: depthOf[v] <= d + 1 && depthOf[v] <= b.maxDepth)
    && ParentsLink(g, b.root, s.parentOf)
  }

  /** Every recorded depth is the session's distance from the root. */
  ghost predicate Exact(g: Graph, b: Bounds, depthOf: Depths) {
    forall v {:trigger IsDistance(g, b.root, v, depthOf[v])} | v in depthOf :: IsDistance(g, b.root, v, depthOf[v])
  }

  /** What holds while the sessions at depth `d` are expanded. */
  ghost predicate Growing(g: Graph, b: Bounds, s: State, depthOf: Depths, d: nat) {
    && Shaped(g, b, s, depthOf, d) && IsLevel(s.parentOf, depthOf, d + 1, s.next)
    && Exact(g, b, depthOf) && CompleteTo(g, b, s, d) && AllSourced(g, s.next)
  }

  /** A child the walk does not take from `u`: too deep, a way back up, or over budget. */
  ghost predicate Cut(b: Bounds, s: State, depthOf: Depths, u: Id, v: Id)
    requires IsTree(b.root, s.parentOf, depthOf) && u in s.parentOf
  {
    depthOf[u] >= b.maxDepth || v in Ancestry(b.root, s.parentOf, depthOf, u) || v !in s.visited
  }

  /** The children among `edges` are visited, unless the session is not expanded or the budget is spent. */
  ghost predicate Taken(b: Bounds, s: State, depthOf: Depths, u: Id, edges: seq<Edge>)
    requires u in depthOf
  {
    depthOf[u] < b.maxDepth && !Full(b, s) ==> forall e | e in edges && Walkable(e) :: e.child.value in s.visited
  }

  /** A node's count and flag are exactly right for `edges`. */
  ghost predicate Accurate(b: Bounds, s: State, depthOf: Depths, node: Node, edges: seq<Edge>)
    requires IsTree(b.root, s.parentOf, depthOf)
  {
    && node.id in s.parentOf && node.depth == depthOf[node.id] && node.parent == s.parentOf[node.id]
    && node.childCount == CountWalkable(edges)
    && (node.truncated <==> exists e :: e in edges && Walkable(e) && Cut(b, s, depthOf, node.id, e.child.value))
  }

  function Child(u: Node, e: Edge): Node
    requires Walkable(e)
  {
    Node(e.child.value, u.depth + 1, Some(u.id), Some(e), 0, false)
  }

  function Grow(s: State, u: Node, e: Edge): State
    requires Walkable(e)
  {
    State(s.visited + {e.child.value}, s.parentOf[e.child.value := Some(u.id)], s.next + [Child(u, e)])
  }

  /** A first-met child is as far from the root as the walk says. */
  lemma NewDistance(g: Graph, b: Bounds, s: State, d: nat, u: Id, v: Id)
    requires CompleteTo(g, b, s, d) && !Full(b, s) && v !in s.visited
    requires Path(g, b.root, u, d) && Links(g, u, v)
    ensures IsDistance(g, b.root, v, d + 1)
  {
    assert Path(g, b.root, v, d + 1);
  }

  lemma GrowKeepsShape(g: Graph, b: Bounds, s: State, depthOf: Depths, d: nat, u: Node, e: Edge)
    requires Shaped(g, b, s, depthOf, d) && d < b.maxDepth && !Full(b, s)
    requires u.id in s.visited && depthOf[u.id] == d == u.depth
    requires Walkable(e) && e.child.value !in s.visited && Links(g, u.id, e.child.value)
    ensures Shaped(g, b, Grow(s, u, e), depthOf[e.child.value := d + 1], d)
  {
    var t, v := Grow(s, u, e), e.child.value;
    GrownTree(g, b.root, s.parentOf, depthOf, u.id, v);
    assert |t.visited| == |s.visited| + 1;
    assert t.visited == t.parentOf.Keys;
    GrownDepths(s.visited, depthOf, v, d + 1, b.maxDepth);
  }

  lemma GrownDepths(visited: set<Id>, depthOf: Depths, v: Id, d: nat, most: nat)
    requires visited <= depthOf.Keys && forall x | x in visited :: depthOf[x] <= d && depthOf[x] <= most
    requires d <= most
    ensures forall x | x in visited + {v} :: depthOf[v := d][x] <= d && depthOf[v := d][x] <= most
  {
  }

  lemma GrownTree(g: Graph, root: Id, parentOf: Parents, depthOf: Depths, u: Id, v: Id)
    requires IsTree(root, parentOf, depthOf) && ParentsLink(g, root, parentOf)
    requires u in parentOf && v !in parentOf && Links(g, u, v)
    ensures IsTree(root, parentOf[v := Some(u)], depthOf[v := depthOf[u] + 1])
    ensures ParentsLink(g, root, parentOf[v := Some(u)])
  {
    var parentOf' := parentOf[v := Some(u)];
    forall x | x in parentOf' && x != root ensures parentOf'[x].Some? && Links(g, parentOf'[x].value, x) {
      if x != v { assert x in parentOf; }
    }
  }

  /** A first-met child joins the next level. */
  lemma GrowKeeps(g: Graph, b: Bounds, s: State, depthOf: Depths, d: nat, u: Node, e: Edge)
    requires Growing(g, b, s, depthOf, d) && d < b.maxDepth && !Full(b, s)
    requires u.id in s.visited && depthOf[u.id] == d == u.depth
    requires Walkable(e) && e.child.value !in s.visited && Links(g, u.id, e.child.value) && e in EdgesOf(g, u.id)
    ensures Growing(g, b, Grow(s, u, e), depthOf[e.child.value := d + 1], d)
  {
    GrowKeepsShape(g, b, s, depthOf, d, u, e);
    GrownLevel(s.parentOf, depthOf, d + 1, s.next, Child(u, e));
    GrowKeepsExact(g, b, s, depthOf, d, u.id, e.child.value);
    MoreIsComplete(g, b, s, Grow(s, u, e), d);
    MoreIsSourced(g, s.next, Child(u, e));
  }

  lemma GrowKeepsExact(g: Graph, b: Bounds, s: State, depthOf: Depths, d: nat, u: Id, v: Id)
    requires Exact(g, b, depthOf) && CompleteTo(g, b, s, d) && !Full(b, s)
    requires u in depthOf && depthOf[u] == d && v !in s.visited && Links(g, u, v)
    ensures Exact(g, b, depthOf[v := d + 1])
  {
    var known := IsDistance(g, b.root, u, depthOf[u]);
    NewDistance(g, b, s, d, u, v);
    var depthOf' := depthOf[v := d + 1];
    forall x | x in depthOf' ensures IsDistance(g, b.root, x, depthOf'[x]) {
      if x != v { var knownX := IsDistance(g, b.root, x, depthOf[x]); }
    }
  }

  lemma MoreIsComplete(g: Graph, b: Bounds, s: State, t: State, d: nat)
    requires CompleteTo(g, b, s, d) && s.visited <= t.visited && !Full(b, s)
    ensures CompleteTo(g, b, t, d)
  {
  }

  lemma MoreIsSourced(g: Graph, nodes: seq<Node>, c: Node)
    requires AllSourced(g, nodes) && Sourced(g, c)
    ensures AllSourced(g, nodes + [c])
  {
    forall n | n in nodes + [c] ensures Sourced(g, n) {
      if n != c { assert n in nodes; }
    }
  }

  lemma GrownLevel(parentOf: Parents, depthOf: Depths, d: nat, level: seq<Node>, c: Node)
    requires parentOf.Keys == depthOf.Keys && IsLevel(parentOf, depthOf, d, level)
    requires c.id !in parentOf && c.depth == d && c.childCount == 0 && !c.truncated
    ensures IsLevel(parentOf[c.id := c.parent], depthOf[c.id := d], d, level + [c])
  {
    ListsSnoc(level, AtDepth(depthOf, d), c);
    assert AtDepth(depthOf[c.id := d], d) == AtDepth(depthOf, d) + {c.id};
  }

  /** What was accurate stays accurate when the tree grows: it grows only while nothing was dropped. */
  lemma AccurateStable(b: Bounds, s: State, depthOf: Depths, t: State, depthOf': Depths, node: Node, edges: seq<Edge>)
    requires IsTree(b.root, s.parentOf, depthOf) && IsTree(b.root, t.parentOf, depthOf')
    requires Accurate(b, s, depthOf, node, edges) && Taken(b, s, depthOf, node.id, edges) && !Full(b, s)
    requires Grown(s, depthOf, t, depthOf')
    ensures Accurate(b, t, depthOf', node, edges)
  {
    AncestryStable(b.root, s.parentOf, depthOf, t.parentOf, depthOf', node.id);
    assert t.parentOf[node.id] == s.parentOf[node.id];
    assert forall e | e in edges && Walkable(e) ::
      Cut(b, s, depthOf, node.id, e.child.value) == Cut(b, t, depthOf', node.id, e.child.value);
  }

  /** `t` is `s` with more sessions. */
  ghost predicate Grown(s: State, depthOf: Depths, t: State, depthOf': Depths) {
    && s.visited <= t.visited && s.parentOf.Keys <= t.parentOf.Keys && s.parentOf.Keys == depthOf.Keys && depthOf.Keys <= depthOf'.Keys
    && forall x {:trigger t.parentOf[x]} | x in s.parentOf :: t.parentOf[x] == s.parentOf[x] && depthOf'[x] == depthOf[x]
  }

  /** One more edge looked at: counted, and flagged when it is cut. */
  lemma AccurateSnoc(b: Bounds, s: State, depthOf: Depths, node: Node, seen: seq<Edge>, e: Edge, flagged: bool)
    requires IsTree(b.root, s.parentOf, depthOf) && Accurate(b, s, depthOf, node, seen)
    requires Walkable(e) ==> (flagged <==> node.truncated || Cut(b, s, depthOf, node.id, e.child.value))
    ensures Accurate(b, s, depthOf, if Walkable(e) then node.(childCount := node.childCount + 1, truncated := flagged) else node, seen + [e])
  {
    assert (seen + [e])[..|seen|] == seen;
    assert forall x :: x in seen + [e] <==> x in seen || x == e;
  }

  // ----- inside a level

  /** Nondecreasing in depth. */
  ghost predicate DepthsRise(nodes: seq<Node>) {
    nodes == [] || (DepthsRise(nodes[..|nodes| - 1]) && forall n | n in nodes :: n.depth <= nodes[|nodes| - 1].depth)
  }

  lemma {:induction false} RiseInOrder(nodes: seq<Node>, i: nat, j: nat)
    requires DepthsRise(nodes) && i < j < |nodes|
    ensures nodes[i].depth <= nodes[j].depth
    decreases |nodes|
  {
    if j < |nodes| - 1 {
      RiseInOrder(nodes[..|nodes| - 1], i, j);
    } else {
      assert nodes[i] in nodes;
    }
  }

  ghost function Above(depthOf: Depths, d: nat): set<Id> {
    set v | v in depthOf && depthOf[v] < d
  }

  ghost predicate AllAccurate(g: Graph, b: Bounds, s: State, depthOf: Depths, walked: seq<Node>)
    requires IsTree(b.root, s.parentOf, depthOf)
  {
    forall n | n in walked :: Accurate(b, s, depthOf, n, EdgesOf(g, n.id))
  }

  /** Every session of `ids` has had its children taken. */
  ghost predicate AllTaken(g: Graph, b: Bounds, s: State, depthOf: Depths, ids: set<Id>)
    requires ids <= depthOf.Keys
  {
    forall u {:trigger Taken(b, s, depthOf, u, EdgesOf(g, u))} | u in ids :: Taken(b, s, depthOf, u, EdgesOf(g, u))
  }

  /** `u` was expanded, yet a child of it was left unvisited. */
  ghost predicate Dropped(g: Graph, b: Bounds, s: State, depthOf: Depths, u: Id)
    requires u in depthOf
  {
    depthOf[u] < b.maxDepth && exists e :: e in EdgesOf(g, u) && Walkable(e) && e.child.value !in s.visited
  }

  ghost predicate NoneDeeper(s: State, depthOf: Depths, d: nat) {
    forall x | x in s.visited && x in depthOf :: depthOf[x] <= d
  }

  /** The budget is spent nearest first: past a dropped child nothing lies deeper than it would have. */
  ghost predicate NearestFirst(g: Graph, b: Bounds, s: State, depthOf: Depths, ids: set<Id>)
    requires ids <= depthOf.Keys
  {
    forall u {:trigger Dropped(g, b, s, depthOf, u)} | u in ids && Dropped(g, b, s, depthOf, u) :: NoneDeeper(s, depthOf, depthOf[u] + 1)
  }

  /** Inside level `d`: `done` holds everything above it and the part of its frontier walked so far. */
  ghost predicate InLevel(g: Graph, b: Bounds, s: State, depthOf: Depths, d: nat, frontier: seq<Node>, done: set<Id>, walked: seq<Node>) {
    && Growing(g, b, s, depthOf, d)
    && IsLevel(s.parentOf, depthOf, d, frontier)
    && Above(depthOf, d) <= done <= Above(depthOf, d + 1)
    && AllTaken(g, b, s, depthOf, done) && AllAccurate(g, b, s, depthOf, walked)
    && Lists(walked, done) && DepthsRise(walked)
    && NearestFirst(g, b, s, depthOf, done) && AllSourced(g, walked) && AllSourced(g, frontier)
  }

  lemma GrowKeepsFrontier(parentOf: Parents, depthOf: Depths, d: nat, frontier: seq<Node>, v: Id, p: Option<Id>)
    requires parentOf.Keys == depthOf.Keys && v !in parentOf && IsLevel(parentOf, depthOf, d, frontier)
    ensures IsLevel(parentOf[v := p], depthOf[v := d + 1], d, frontier)
    ensures Above(depthOf[v := d + 1], d) == Above(depthOf, d) && Above(depthOf[v := d + 1], d + 1) == Above(depthOf, d + 1)
  {
    assert AtDepth(depthOf[v := d + 1], d) == AtDepth(depthOf, d);
  }

  lemma GrowKeepsWalked(g: Graph, b: Bounds, s: State, depthOf: Depths, t: State, depthOf': Depths, done: set<Id>, walked: seq<Node>)
    requires IsTree(b.root, s.parentOf, depthOf) && IsTree(b.root, t.parentOf, depthOf') && !Full(b, s) && Grown(s, depthOf, t, depthOf')
    requires s.visited == s.parentOf.Keys && done <= depthOf.Keys && AllTaken(g, b, s, depthOf, done)
    requires (forall n | n in walked :: n.id in done) && AllAccurate(g, b, s, depthOf, walked)
    ensures AllTaken(g, b, t, depthOf', done) && AllAccurate(g, b, t, depthOf', walked)
    ensures NearestFirst(g, b, t, depthOf', done)
  {
    forall n | n in walked ensures Accurate(b, t, depthOf', n, EdgesOf(g, n.id)) {
      var taken := Taken(b, s, depthOf, n.id, EdgesOf(g, n.id));
      AccurateStable(b, s, depthOf, t, depthOf', n, EdgesOf(g, n.id));
    }
    forall u | u in done ensures Taken(b, t, depthOf', u, EdgesOf(g, u)) {
      var taken := Taken(b, s, depthOf, u, EdgesOf(g, u));
      assert t.parentOf[u] == s.parentOf[u];
    }
    forall u | u in done ensures !Dropped(g, b, t, depthOf', u) {
      var taken := Taken(b, s, depthOf, u, EdgesOf(g, u));
      assert t.parentOf[u] == s.parentOf[u];
    }
  }

  /** A first-met child joins the next level and leaves everything walked as it was. */
  lemma GrowInLevel(g: Graph, b: Bounds, s: State, depthOf: Depths, d: nat, frontier: seq<Node>, done: set<Id>, walked: seq<Node>, u: Node, e: Edge)
    requires InLevel(g, b, s, depthOf, d, frontier, done, walked) && d < b.maxDepth && !Full(b, s)
    requires u.id in s.visited && depthOf[u.id] == d == u.depth
    requires Walkable(e) && e.child.value !in s.visited && Links(g, u.id, e.child.value) && e in EdgesOf(g, u.id)
    ensures InLevel(g, b, Grow(s, u, e), depthOf[e.child.value := d + 1], d, frontier, done, walked)
  {
    GrowKeeps(g, b, s, depthOf, d, u, e);
    GrowKeepsFrontier(s.parentOf, depthOf, d, frontier, e.child.value, Some(u.id));
    GrowKeepsWalked(g, b, s, depthOf, Grow(s, u, e), depthOf[e.child.value := d + 1], done, walked);
  }

  /** Inside a level, with the first `n` edges of one of its sessions, `u`, looked at. */
  ghost predicate Looking(g: Graph, b: Bounds, s: State, depthOf: Depths, d: nat, frontier: seq<Node>, done: set<Id>, walked: seq<Node>,
                          u: Node, n: nat, node: Node)
  {
    && InLevel(g, b, s, depthOf, d, frontier, done, walked) && u in frontier && u.id !in done
    && node == u.(childCount := node.childCount, truncated := node.truncated) && depthOf[u.id] == d
    && n <= |EdgesOf(g, u.id)|
    && Accurate(b, s, depthOf, node, EdgesOf(g, u.id)[..n]) && Taken(b, s, depthOf, u.id, EdgesOf(g, u.id)[..n])
  }

  lemma TakenSnoc(b: Bounds, s: State, depthOf: Depths, u: Id, edges: seq<Edge>, e: Edge)
    requires u in depthOf && Taken(b, s, depthOf, u, edges)
    requires Walkable(e) && depthOf[u] < b.maxDepth && !Full(b, s) ==> e.child.value in s.visited
    ensures Taken(b, s, depthOf, u, edges + [e])
  {
  }

  /** Counting an edge that adds nothing to the tree. */
  lemma LookOn(g: Graph, b: Bounds, s: State, depthOf: Depths, d: nat, frontier: seq<Node>, done: set<Id>, walked: seq<Node>,
               u: Node, n: nat, node: Node, e: Edge, flagged: bool)
    requires Looking(g, b, s, depthOf, d, frontier, done, walked, u, n, node)
    requires n < |EdgesOf(g, u.id)| && e == EdgesOf(g, u.id)[n]
    requires Walkable(e) ==> (flagged <==> node.truncated || Cut(b, s, depthOf, u.id, e.child.value))
    requires Walkable(e) && depthOf[u.id] < b.maxDepth && !Full(b, s) ==> e.child.value in s.visited
    ensures Looking(g, b, s, depthOf, d, frontier, done, walked, u, n + 1,
                    if Walkable(e) then node.(childCount := node.childCount + 1, truncated := flagged) else node)
  {
    var edges := EdgesOf(g, u.id);
    assert IsTree(b.root, s.parentOf, depthOf);
    assert u.id in depthOf;
    hide Accurate; hide IsTree; hide InLevel; hide EdgesOf; hide Taken; hide Cut;
    assert edges[..n + 1] == edges[..n] + [e];
    AccurateSnoc(b, s, depthOf, node, edges[..n], e, flagged);
    TakenSnoc(b, s, depthOf, u.id, edges[..n], e);
  }

  lemma GrowLooking(g: Graph, b: Bounds, s: State, depthOf: Depths, d: nat, frontier: seq<Node>, done: set<Id>, walked: seq<Node>,
                    u: Node, n: nat, node: Node, e: Edge)
    requires Looking(g, b, s, depthOf, d, frontier, done, walked, u, n, node)
    requires n < |EdgesOf(g, u.id)| && e == EdgesOf(g, u.id)[n] && Walkable(e)
    requires d < b.maxDepth && !Full(b, s) && e.child.value !in s.visited
    ensures Looking(g, b, Grow(s, node, e), depthOf[e.child.value := d + 1], d, frontier, done, walked, u, n + 1, node.(childCount := node.childCount + 1))
  {
    assert Links(g, u.id, e.child.value);
    var t, depthOf' := Grow(s, node, e), depthOf[e.child.value := d + 1];
    GrowInLevel(g, b, s, depthOf, d, frontier, done, walked, node, e);
    AccurateStable(b, s, depthOf, t, depthOf', node, EdgesOf(g, u.id)[..n]);
    AncestryStable(b.root, s.parentOf, depthOf, t.parentOf, depthOf', u.id);
    AncestryInTree(b.root, s.parentOf, depthOf, u.id);
    LookOn(g, b, t, depthOf', d, frontier, done, walked, u, n, node, e, node.truncated);
  }

  /** Look at one child edge of `node`. */
  method Look(g: Graph, b: Bounds, s: State, ghost depthOf: Depths, ghost d: nat, ghost frontier: seq<Node>, ghost done: set<Id>, ghost walked: seq<Node>,
              ghost u: Node, ghost n: nat, node: Node, e: Edge)
    returns (t: State, ghost depthOf': Depths, node': Node)
    requires Looking(g, b, s, depthOf, d, frontier, done, walked, u, n, node)
    requires n < |EdgesOf(g, u.id)| && e == EdgesOf(g, u.id)[n]
    ensures Looking(g, b, t, depthOf', d, frontier, done, walked, u, n + 1, node')
  {
    t, depthOf', node' := s, depthOf, node;
    if !Walkable(e) {
      LookOn(g, b, s, depthOf, d, frontier, done, walked, u, n, node, e, false);
      return;
    }
    var child := e.child.value;
    var expand := node.depth < b.maxDepth;
    node' := node.(childCount := node.childCount + 1);
    var up := IsAncestor(b.root, s.parentOf, depthOf, node.id, child);
    AncestryInTree(b.root, s.parentOf, depthOf, node.id);
    if !expand || up {
      LookOn(g, b, s, depthOf, d, frontier, done, walked, u, n, node, e, true);
      node' := node'.(truncated := true);
    } else if child in s.visited {
      LookOn(g, b, s, depthOf, d, frontier, done, walked, u, n, node, e, node.truncated);
    } else if |s.visited| >= b.maxNodes {
      LookOn(g, b, s, depthOf, d, frontier, done, walked, u, n, node, e, true);
      node' := node'.(truncated := true);
    } else {
      GrowLooking(g, b, s, depthOf, d, frontier, done, walked, u, n, node, e);
      t, depthOf' := Grow(s, node, e), depthOf[child := d + 1];
    }
  }

  /** Look at one page of child edges: those numbered `from` up to `to`. */
  method LookPage(g: Graph, b: Bounds, s: State, ghost depthOf: Depths, ghost d: nat, ghost frontier: seq<Node>, ghost done: set<Id>, ghost walked: seq<Node>,
                  ghost u: Node, from: nat, to: nat, node: Node, edges: seq<Edge>)
    returns (t: State, ghost depthOf': Depths, node': Node)
    requires Looking(g, b, s, depthOf, d, frontier, done, walked, u, from, node)
    requires from <= to <= |edges| && edges == EdgesOf(g, u.id)
    ensures Looking(g, b, t, depthOf', d, frontier, done, walked, u, to, node')
  {
    t, depthOf', node' := s, depthOf, node;
    var i := from;
    while i < to
      invariant from <= i <= to
      invariant Looking(g, b, t, depthOf', d, frontier, done, walked, u, i, node')
    {
      t, depthOf', node' := Look(g, b, t, depthOf', d, frontier, done, walked, u, i, node', edges[i]);
      i := i + 1;
    }
  }

  /** Look at every child edge of a session, one page after another until a page names no next one. */
  method Expand(g: Graph, b: Bounds, s: State, ghost depthOf: Depths, ghost d: nat, ghost frontier: seq<Node>, ghost done: set<Id>, ghost walked: seq<Node>,
                node: Node, pageLimit: nat)
    returns (t: State, ghost depthOf': Depths, node': Node)
    requires Looking(g, b, s, depthOf, d, frontier, done, walked, node, 0, node) && 1 <= pageLimit
    ensures Looking(g, b, t, depthOf', d, frontier, done, walked, node, |EdgesOf(g, node.id)|, node')
  {
    t, depthOf', node' := s, depthOf, node;
    var edges := EdgesOf(g, node.id);
    var after: nat, more := 0, true;
    while more
      invariant Looking(g, b, t, depthOf', d, frontier, done, walked, node, after, node')
      invariant after <= |edges| && (!more ==> after == |edges|)
      decreases more, |edges| - after
    {
      var end := if |edges| - after <= pageLimit then |edges| else after + pageLimit;
      t, depthOf', node' := LookPage(g, b, t, depthOf', d, frontier, done, walked, node, after, end, node', edges);
      after, more := end, end < |edges|;
    }
  }

  // ----- level after level

  /** Between two levels: everything above depth `d` is walked and `frontier` is the level at `d`. */
  ghost predicate AtLevel(g: Graph, b: Bounds, s: State, depthOf: Depths, d: nat, frontier: seq<Node>, walked: seq<Node>) {
    && s.visited == s.parentOf.Keys && IsTree(b.root, s.parentOf, depthOf) && ParentsLink(g, b.root, s.parentOf)
    && |s.visited| <= b.maxNodes
    && (forall v | v in s.visited :: depthOf[v] <= d && depthOf[v] <= b.maxDepth)
    && Exact(g, b, depthOf) && (d <= b.maxDepth ==> CompleteTo(g, b, s, d))
    && IsLevel(s.parentOf, depthOf, d, frontier)
    && AllTaken(g, b, s, depthOf, Above(depthOf, d)) && AllAccurate(g, b, s, depthOf, walked)
    && Lists(walked, Above(depthOf, d)) && DepthsRise(walked)
    && NearestFirst(g, b, s, depthOf, Above(depthOf, d)) && AllSourced(g, walked) && AllSourced(g, frontier)
  }

  /** The level being collected plays no part in what is already walked. */
  lemma NextIsApart(g: Graph, b: Bounds, s: State, depthOf: Depths, t: State, ids: set<Id>, walked: seq<Node>)
    requires IsTree(b.root, s.parentOf, depthOf) && t == s.(next := t.next) && ids <= depthOf.Keys
    requires AllTaken(g, b, s, depthOf, ids) && AllAccurate(g, b, s, depthOf, walked) && NearestFirst(g, b, s, depthOf, ids)
    ensures AllTaken(g, b, t, depthOf, ids) && AllAccurate(g, b, t, depthOf, walked) && NearestFirst(g, b, t, depthOf, ids)
  {
    forall u | u in ids && Dropped(g, b, t, depthOf, u) ensures NoneDeeper(t, depthOf, depthOf[u] + 1) {
      var same := Dropped(g, b, s, depthOf, u);
    }
    forall n | n in walked ensures Accurate(b, t, depthOf, n, EdgesOf(g, n.id)) {
      assert Accurate(b, s, depthOf, n, EdgesOf(g, n.id));
      assert forall v :: Cut(b, s, depthOf, n.id, v) == Cut(b, t, depthOf, n.id, v);
    }
    forall u | u in ids ensures Taken(b, t, depthOf, u, EdgesOf(g, u)) {
      var taken := Taken(b, s, depthOf, u, EdgesOf(g, u));
    }
  }

  lemma EnterLevel(g: Graph, b: Bounds, s: State, depthOf: Depths, d: nat, frontier: seq<Node>, walked: seq<Node>)
    requires AtLevel(g, b, s, depthOf, d, frontier, walked) && frontier != []
    ensures InLevel(g, b, s.(next := []), depthOf, d, frontier, Above(depthOf, d), walked)
  {
    assert frontier[0] in frontier;
    assert AtDepth(depthOf, d + 1) == {};
    assert IdsOf([]) == {};
    NextIsApart(g, b, s, depthOf, s.(next := []), Above(depthOf, d), walked);
    assert CompleteTo(g, b, s.(next := []), d);
  }

  /** A session whose edges have all been looked at is walked. */
  lemma StepWalked(g: Graph, b: Bounds, s: State, depthOf: Depths, d: nat, frontier: seq<Node>, done: set<Id>, walked: seq<Node>, u: Node, node: Node)
    requires Looking(g, b, s, depthOf, d, frontier, done, walked, u, |EdgesOf(g, u.id)|, node)
    ensures InLevel(g, b, s, depthOf, d, frontier, done + {u.id}, walked + [node])
  {
    assert EdgesOf(g, u.id)[..|EdgesOf(g, u.id)|] == EdgesOf(g, u.id);
    ListsSnoc(walked, done, node);
    forall n | n in walked ensures n.depth <= d {
      assert Accurate(b, s, depthOf, n, EdgesOf(g, n.id)) && n.id in done;
    }
    RiseSnoc(walked, node);
    forall x | x in done + {u.id} ensures Taken(b, s, depthOf, x, EdgesOf(g, x)) {
      if x != u.id { var taken := Taken(b, s, depthOf, x, EdgesOf(g, x)); }
    }
    forall n | n in walked + [node] ensures Accurate(b, s, depthOf, n, EdgesOf(g, n.id)) && Sourced(g, n) {
      if n != node { assert n in walked; }
    }
    assert NoneDeeper(s, depthOf, d + 1);
  }

  lemma RiseSnoc(nodes: seq<Node>, n: Node)
    requires DepthsRise(nodes) && forall m | m in nodes :: m.depth <= n.depth
    ensures DepthsRise(nodes + [n])
  {
    assert (nodes + [n])[..|nodes|] == nodes;
  }

  /** Once every session at depth `d` has had its children taken, everything within `d + 1` edges is visited. */
  lemma NextComplete(g: Graph, b: Bounds, s: State, depthOf: Depths, d: nat)
    requires s.visited == depthOf.Keys && d < b.maxDepth && Exact(g, b, depthOf) && CompleteTo(g, b, s, d)
    requires AllTaken(g, b, s, depthOf, Above(depthOf, d + 1))
    ensures CompleteTo(g, b, s, d + 1)
  {
    if !Full(b, s) {
      forall v, n: nat | n <= d + 1 && Path(g, b.root, v, n) ensures v in s.visited {
        if n == d + 1 {
          var u :| Path(g, b.root, u, d) && Links(g, u, v);
          var known := IsDistance(g, b.root, u, depthOf[u]);
          assert u in Above(depthOf, d + 1);
          var taken := Taken(b, s, depthOf, u, EdgesOf(g, u));
        }
      }
    }
  }

  lemma LeaveLevel(g: Graph, b: Bounds, s: State, depthOf: Depths, d: nat, frontier: seq<Node>, walked: seq<Node>)
    requires InLevel(g, b, s, depthOf, d, frontier, Above(depthOf, d + 1), walked)
    ensures AtLevel(g, b, s, depthOf, d + 1, s.next, walked)
  {
    if d + 1 <= b.maxDepth {
      NextComplete(g, b, s, depthOf, d);
    }
  }

  /** The first `k` sessions of the frontier are the walked ones. */
  ghost predicate DoneUpTo(frontier: seq<Node>, k: nat, done: set<Id>) {
    k <= |frontier| && forall j | 0 <= j < |frontier| :: frontier[j].id in done <==> j < k
  }

  lemma DoneNext(frontier: seq<Node>, k: nat, done: set<Id>)
    requires DoneUpTo(frontier, k, done) && k < |frontier| && |IdsOf(frontier)| == |frontier|
    ensures DoneUpTo(frontier, k + 1, done + {frontier[k].id})
  {
    forall j | k < j < |frontier| ensures frontier[j].id != frontier[k].id {
      EachOnce(frontier, j);
      assert frontier[..j][k] in frontier[..j];
    }
  }

  /** Inside a level with `k` sessions of its frontier walked. */
  ghost predicate PartWay(g: Graph, b: Bounds, s: State, depthOf: Depths, d: nat, frontier: seq<Node>, k: nat, done: set<Id>, walked: seq<Node>) {
    InLevel(g, b, s, depthOf, d, frontier, done, walked) && DoneUpTo(frontier, k, done)
  }

  lemma StartLooking(g: Graph, b: Bounds, s: State, depthOf: Depths, d: nat, frontier: seq<Node>, k: nat, done: set<Id>, walked: seq<Node>)
    requires PartWay(g, b, s, depthOf, d, frontier, k, done, walked) && k < |frontier|
    ensures Looking(g, b, s, depthOf, d, frontier, done, walked, frontier[k], 0, frontier[k])
  {
    assert frontier[k] in frontier && frontier[k].id in AtDepth(depthOf, d);
    assert EdgesOf(g, frontier[k].id)[..0] == [];
  }

  /** The walked sessions but the root, which is never yielded. */
  function BelowRoot(walked: seq<Node>): seq<Node> {
    if walked == [] then []
    else
      var above := BelowRoot(walked[..|walked| - 1]);
      if walked[|walked| - 1].depth > 0 then above + [walked[|walked| - 1]] else above
  }

  lemma BelowRootSnoc(walked: seq<Node>, n: Node)
    ensures BelowRoot(walked + [n]) == if n.depth > 0 then BelowRoot(walked) + [n] else BelowRoot(walked)
  {
    assert (walked + [n])[..|walked|] == walked;
  }

  /** Expand one session of the level. */
  method WalkNext(g: Graph, b: Bounds, s: State, ghost depthOf: Depths, ghost d: nat, frontier: seq<Node>, k: nat, ghost done: set<Id>, ghost walked: seq<Node>,
                  yielded: seq<Node>, pageLimit: nat)
    returns (t: State, ghost depthOf': Depths, ghost done': set<Id>, ghost walked': seq<Node>, yielded': seq<Node>)
    requires PartWay(g, b, s, depthOf, d, frontier, k, done, walked) && k < |frontier| && 1 <= pageLimit
    requires yielded == BelowRoot(walked)
    ensures PartWay(g, b, t, depthOf', d, frontier, k + 1, done', walked') && yielded' == BelowRoot(walked')
  {
    StartLooking(g, b, s, depthOf, d, frontier, k, done, walked);
    DoneNext(frontier, k, done);
    var node;
    t, depthOf', node := Expand(g, b, s, depthOf, d, frontier, done, walked, frontier[k], pageLimit);
    StepWalked(g, b, t, depthOf', d, frontier, done, walked, frontier[k], node);
    done', walked' := done + {frontier[k].id}, walked + [node];
    BelowRootSnoc(walked, node);
    yielded' := if node.depth > 0 then yielded + [node] else yielded;
  }

  lemma StartLevel(g: Graph, b: Bounds, s: State, depthOf: Depths, d: nat, frontier: seq<Node>, walked: seq<Node>)
    requires AtLevel(g, b, s, depthOf, d, frontier, walked) && frontier != []
    ensures PartWay(g, b, s.(next := []), depthOf, d, frontier, 0, Above(depthOf, d), walked)
  {
    EnterLevel(g, b, s, depthOf, d, frontier, walked);
    forall j | 0 <= j < |frontier| ensures frontier[j].id !in Above(depthOf, d) {
      assert frontier[j] in frontier && frontier[j].id in AtDepth(depthOf, d);
    }
  }

  lemma EndLevel(g: Graph, b: Bounds, s: State, depthOf: Depths, d: nat, frontier: seq<Node>, done: set<Id>, walked: seq<Node>)
    requires PartWay(g, b, s, depthOf, d, frontier, |frontier|, done, walked)
    ensures AtLevel(g, b, s, depthOf, d + 1, s.next, walked)
  {
    ListsAll(frontier, AtDepth(depthOf, d));
    forall x | x in Above(depthOf, d + 1) ensures x in done {
      if depthOf[x] == d {
        assert x in IdsOf(frontier);
      }
    }
    assert done == Above(depthOf, d + 1);
    LeaveLevel(g, b, s, depthOf, d, frontier, walked);
  }

  /** The walk between two levels, with what it has yielded. */
  ghost predicate Stage(g: Graph, b: Bounds, s: State, depthOf: Depths, d: nat, frontier: seq<Node>, walked: seq<Node>, yielded: seq<Node>) {
    var reached := AtLevel(g, b, s, depthOf, d, frontier, walked) && yielded == BelowRoot(walked);
    reached
  }

  /** Expand a whole level. */
  method WalkLevel(g: Graph, b: Bounds, s: State, ghost depthOf: Depths, ghost d: nat, frontier: seq<Node>, ghost walked: seq<Node>,
                   yielded: seq<Node>, pageLimit: nat)
    returns (t: State, ghost depthOf': Depths, ghost walked': seq<Node>, yielded': seq<Node>)
    requires Stage(g, b, s, depthOf, d, frontier, walked, yielded) && frontier != [] && 1 <= pageLimit
    ensures Stage(g, b, t, depthOf', d + 1, t.next, walked', yielded') && d <= b.maxDepth
  {
    LevelInDepth(g, b, s, depthOf, d, frontier, walked);
    StartLevel(g, b, s, depthOf, d, frontier, walked);
    t, depthOf', walked', yielded' := s.(next := []), depthOf, walked, yielded;
    ghost var done := Above(depthOf, d);
    for k := 0 to |frontier|
      invariant PartWay(g, b, t, depthOf', d, frontier, k, done, walked') && yielded' == BelowRoot(walked')
    {
      t, depthOf', done, walked', yielded' := WalkNext(g, b, t, depthOf', d, frontier, k, done, walked', yielded', pageLimit);
    }
    EndLevel(g, b, t, depthOf', d, frontier, done, walked');
  }

  // ----- the whole walk

  const DEFAULT_TREE_MAX_DEPTH: nat := 32
  const MAX_TREE_MAX_DEPTH: nat := 64
  const DEFAULT_TREE_MAX_NODES: nat := 1000
  const MAX_TREE_MAX_NODES: nat := 10000

  /** An option held between one and its ceiling. */
  function Clamp(requested: Option<int>, usual: nat, ceiling: nat): (limit: nat)
    requires 1 <= usual <= ceiling
    ensures 1 <= limit <= ceiling
    ensures requested.Some? && 1 <= requested.value <= ceiling ==> limit == requested.value
  {
    var asked := if requested.Some? then requested.value else usual;
    var low := if asked < 1 then 1 else asked;
    if low < ceiling then low else ceiling
  }

  /** What the finished walk has found. */
  ghost predicate Walked(g: Graph, b: Bounds, s: State, depthOf: Depths, walked: seq<Node>) {
    && s.visited == s.parentOf.Keys && IsTree(b.root, s.parentOf, depthOf) && ParentsLink(g, b.root, s.parentOf)
    && |s.visited| <= b.maxNodes && (forall v | v in s.visited :: depthOf[v] <= b.maxDepth) && Exact(g, b, depthOf)
    && AllTaken(g, b, s, depthOf, s.visited) && AllAccurate(g, b, s, depthOf, walked)
    && Lists(walked, s.visited) && DepthsRise(walked)
    && NearestFirst(g, b, s, depthOf, s.visited) && AllSourced(g, walked)
  }

  lemma Finish(g: Graph, b: Bounds, s: State, depthOf: Depths, d: nat, walked: seq<Node>, yielded: seq<Node>)
    requires Stage(g, b, s, depthOf, d, [], walked, yielded)
    ensures Walked(g, b, s, depthOf, walked) && yielded == BelowRoot(walked)
  {
    ListsAll([], AtDepth(depthOf, d));
    assert IdsOf([]) == {};
    forall v | v in s.visited ensures v in Above(depthOf, d) {
      assert v !in AtDepth(depthOf, d);
    }
    assert Above(depthOf, d) == s.visited;
  }

  lemma StartLevels(g: Graph, b: Bounds, root: Node, s: State, depthOf: Depths)
    requires b.maxNodes >= 1 && root == Node(b.root, 0, None, None, 0, false)
    requires s.visited == {b.root} && s.parentOf == map[b.root := None] && depthOf == map[b.root := 0]
    ensures IsLevel(s.parentOf, depthOf, 0, [root]) && Lists([], Above(depthOf, 0)) && Above(depthOf, 0) == {}
  {
    assert AtDepth(depthOf, 0) == {b.root};
    IdsOfAppend([], root);
    assert IdsOf([]) == {} && [] + [root] == [root];
  }

  lemma StartExact(g: Graph, b: Bounds, s: State, depthOf: Depths)
    requires s.visited == {b.root} && depthOf == map[b.root := 0]
    ensures Exact(g, b, depthOf) && CompleteTo(g, b, s, 0)
  {
    assert IsDistance(g, b.root, b.root, 0);
  }

  /** Only the root is visited. */
  method StartWalk(g: Graph, b: Bounds) returns (s: State, frontier: seq<Node>, ghost depthOf: Depths)
    requires b.maxNodes >= 1
    ensures Stage(g, b, s, depthOf, 0, frontier, [], [])
  {
    s, depthOf := State({b.root}, map[b.root := None], []), map[b.root := 0];
    var root := Node(b.root, 0, None, None, 0, false);
    frontier := [root];
    StartLevels(g, b, root, s, depthOf);
    StartExact(g, b, s, depthOf);
  }

  lemma LevelInDepth(g: Graph, b: Bounds, s: State, depthOf: Depths, d: nat, frontier: seq<Node>, walked: seq<Node>)
    requires AtLevel(g, b, s, depthOf, d, frontier, walked) && frontier != []
    ensures d <= b.maxDepth
  {
    assert frontier[0] in frontier && frontier[0].id in AtDepth(depthOf, d);
  }

  // ----- what a caller can rely on

  lemma {:induction false} BelowRootElements(walked: seq<Node>, n: Node)
    ensures n in BelowRoot(walked) <==> n in walked && n.depth > 0
    decreases |walked|
  {
    if walked != [] {
      var init, last := walked[..|walked| - 1], walked[|walked| - 1];
      BelowRootElements(init, n);
      assert n in walked <==> n in init || n == last by { assert walked == init + [last]; }
    }
  }

  lemma BelowRootIds(walked: seq<Node>)
    ensures IdsOf(BelowRoot(walked)) <= IdsOf(walked)
  {
    forall n | n in BelowRoot(walked) ensures n in walked {
      BelowRootElements(walked, n);
    }
  }

  lemma OnceSnoc(nodes: seq<Node>, n: Node)
    requires |IdsOf(nodes)| == |nodes| && n.id !in IdsOf(nodes)
    ensures |IdsOf(nodes + [n])| == |nodes + [n]|
  {
    IdsOfAppend(nodes, n);
  }

  lemma OncePrefix(nodes: seq<Node>, n: Node)
    requires |IdsOf(nodes + [n])| == |nodes + [n]|
    ensures |IdsOf(nodes)| == |nodes| && n.id !in IdsOf(nodes)
  {
    IdsOfAppend(nodes, n);
    IdsOfSize(nodes);
  }

  lemma {:induction false} BelowRootOnce(walked: seq<Node>)
    requires |IdsOf(walked)| == |walked|
    ensures |IdsOf(BelowRoot(walked))| == |BelowRoot(walked)|
    decreases |walked|
  {
    if walked == [] {
      assert IdsOf([]) == {};
    } else {
      var init, last := walked[..|walked| - 1], walked[|walked| - 1];
      assert walked == init + [last];
      OncePrefix(init, last);
      BelowRootIds(init);
      BelowRootOnce(init);
      OnceSnoc(BelowRoot(init), last);
    }
  }

  lemma BelowRootWithin(walked: seq<Node>, d: nat)
    requires forall n | n in walked :: n.depth <= d
    ensures forall n | n in BelowRoot(walked) :: n.depth <= d
  {
    forall n | n in BelowRoot(walked) ensures n.depth <= d {
      BelowRootElements(walked, n);
    }
  }

  lemma {:induction false} BelowRootRises(walked: seq<Node>)
    requires DepthsRise(walked)
    ensures DepthsRise(BelowRoot(walked))
    decreases |walked|
  {
    if walked != [] {
      var init, last := walked[..|walked| - 1], walked[|walked| - 1];
      BelowRootRises(init);
      BelowRootSnoc(init, last);
      assert walked == init + [last];
      BelowRootWithin(init, last.depth);
      hide BelowRoot;
      hide DepthsRise;
      RiseSnoc(BelowRoot(init), last);
    }
  }

  /** A walked node is at its distance, and below the root exactly when it is not the root. */
  lemma WalkedNode(g: Graph, b: Bounds, s: State, depthOf: Depths, walked: seq<Node>, n: Node)
    requires Walked(g, b, s, depthOf, walked) && n in walked
    ensures n.id in s.visited && n.depth <= b.maxDepth && IsDistance(g, b.root, n.id, n.depth) && (n.depth > 0 <==> n.id != b.root)
  {
    assert Accurate(b, s, depthOf, n, EdgesOf(g, n.id));
    var known := IsDistance(g, b.root, n.id, depthOf[n.id]);
    if n.id != b.root { assert s.parentOf[n.id].Some?; }
  }

  lemma YieldedIds(g: Graph, b: Bounds, s: State, depthOf: Depths, walked: seq<Node>)
    requires Walked(g, b, s, depthOf, walked)
    ensures IdsOf(BelowRoot(walked)) == s.visited - {b.root}
  {
    ListsAll(walked, s.visited);
    forall x ensures x in IdsOf(BelowRoot(walked)) <==> x in s.visited - {b.root} {
      if x in s.visited - {b.root} {
        var n :| n in walked && n.id == x;
        WalkedNode(g, b, s, depthOf, walked, n);
        BelowRootElements(walked, n);
      }
      if x in IdsOf(BelowRoot(walked)) {
        var n :| n in BelowRoot(walked) && n.id == x;
        BelowRootElements(walked, n);
        WalkedNode(g, b, s, depthOf, walked, n);
      }
    }
  }

  /** The yielded nodes are the visited sessions but the root, each once, nearer ones first, within the bounds. */
  lemma YieldsEachOnce(g: Graph, b: Bounds, s: State, depthOf: Depths, walked: seq<Node>)
    requires Walked(g, b, s, depthOf, walked)
    ensures Lists(BelowRoot(walked), s.visited - {b.root}) && DepthsRise(BelowRoot(walked))
    ensures |BelowRoot(walked)| + 1 == |s.visited| <= b.maxNodes
    ensures forall n | n in BelowRoot(walked) :: n in walked && 1 <= n.depth <= b.maxDepth && IsDistance(g, b.root, n.id, n.depth)
  {
    BelowRootOnce(walked);
    BelowRootRises(walked);
    YieldedIds(g, b, s, depthOf, walked);
    assert |s.visited - {b.root}| + 1 == |s.visited|;
    forall n | n in BelowRoot(walked) ensures n in walked && 1 <= n.depth <= b.maxDepth && IsDistance(g, b.root, n.id, n.depth) {
      BelowRootElements(walked, n);
      WalkedNode(g, b, s, depthOf, walked, n);
    }
  }

  /** A visited set that no link leaves holds exactly what can be reached. */
  lemma ClosedIsReachable(g: Graph, b: Bounds, s: State, depthOf: Depths)
    requires s.visited == depthOf.Keys && b.root in depthOf && Exact(g, b, depthOf)
    requires forall u, v | u in s.visited && Links(g, u, v) :: v in s.visited
    ensures forall v :: Reachable(g, b.root, v) <==> v in s.visited
  {
    forall v | v in s.visited ensures Reachable(g, b.root, v) {
      var known := IsDistance(g, b.root, v, depthOf[v]);
    }
    forall v, n: nat | Path(g, b.root, v, n) ensures v in s.visited {
      PathStaysInside(g, b.root, s.visited, v, n);
    }
  }

  lemma {:induction false} PathStaysInside(g: Graph, root: Id, inside: set<Id>, v: Id, n: nat)
    requires root in inside && forall x, y | x in inside && Links(g, x, y) :: y in inside
    requires Path(g, root, v, n)
    ensures v in inside
    decreases n
  {
    if n > 0 {
      var u :| Path(g, root, u, n - 1) && Links(g, u, v);
      PathStaysInside(g, root, inside, u, n - 1);
    }
  }

  /** A node without the flag has every child visited. */
  lemma UnflaggedIsWhole(g: Graph, b: Bounds, s: State, depthOf: Depths, n: Node, v: Id)
    requires IsTree(b.root, s.parentOf, depthOf) && Accurate(b, s, depthOf, n, EdgesOf(g, n.id)) && !n.truncated && Links(g, n.id, v)
    ensures v in s.visited
  {
    var i :| 0 <= i < |EdgesOf(g, n.id)| && Walkable(EdgesOf(g, n.id)[i]) && EdgesOf(g, n.id)[i].child.value == v;
    assert EdgesOf(g, n.id)[i] in EdgesOf(g, n.id);
  }

  /** If no walked session ends flagged, the root included, the walk missed nothing. */
  lemma NeverSilentlyShort(g: Graph, b: Bounds, s: State, depthOf: Depths, walked: seq<Node>)
    requires Walked(g, b, s, depthOf, walked)
    requires forall n | n in walked :: !n.truncated
    ensures forall v :: Reachable(g, b.root, v) <==> v in s.visited
  {
    ListsAll(walked, s.visited);
    forall u, v | u in s.visited && Links(g, u, v) ensures v in s.visited {
      var n :| n in walked && n.id == u;
      UnflaggedIsWhole(g, b, s, depthOf, n, v);
    }
    ClosedIsReachable(g, b, s, depthOf);
  }

  ghost function Children(g: Graph, u: Id): set<Id> {
    set e | e in EdgesOf(g, u) && Walkable(e) :: e.child.value
  }

  lemma ChildrenAreLinked(g: Graph, u: Id, v: Id)
    ensures v in Children(g, u) <==> Links(g, u, v)
  {
    if v in Children(g, u) {
      var e :| e in EdgesOf(g, u) && Walkable(e) && e.child.value == v;
      var i :| 0 <= i < |EdgesOf(g, u)| && EdgesOf(g, u)[i] == e;
    }
    if Links(g, u, v) {
      var i :| 0 <= i < |EdgesOf(g, u)| && Walkable(EdgesOf(g, u)[i]) && EdgesOf(g, u)[i].child.value == v;
      assert EdgesOf(g, u)[i] in EdgesOf(g, u);
    }
  }

  /** When the root's children fit the budget, all of them are visited, whatever else the walk meets. */
  lemma RootFits(g: Graph, b: Bounds, s: State, depthOf: Depths, walked: seq<Node>, v: Id)
    requires Walked(g, b, s, depthOf, walked) && 1 <= b.maxDepth
    requires |Children(g, b.root) + {b.root}| <= b.maxNodes && v in Children(g, b.root)
    ensures v in s.visited
  {
    if v !in s.visited {
      var taken := Taken(b, s, depthOf, b.root, EdgesOf(g, b.root));
      assert Dropped(g, b, s, depthOf, b.root);
      var family := Children(g, b.root) + {b.root};
      forall x | x in s.visited ensures x in family - {v} {
        if x != b.root {
          assert depthOf[s.parentOf[x].value] == 0;
          ChildrenAreLinked(g, b.root, x);
        }
      }
      SmallerWithout(s.visited, family, v);
      assert false;
    }
  }

  lemma SmallerWithout(a: set<Id>, b: set<Id>, v: Id)
    requires a <= b && v in b && v !in a
    ensures |a| < |b|
  {
    Ordering.SubsetSize(a + {v}, b);
  }

  /**
   The root is never yielded, so a consumer cannot see its flag. When no yielded node is flagged, the walk is complete
   exactly when the root and its children fit the node budget.
   */
  lemma ShortOnlyAtRoot(g: Graph, b: Bounds, s: State, depthOf: Depths, walked: seq<Node>)
    requires Walked(g, b, s, depthOf, walked) && 1 <= b.maxDepth
    requires forall n | n in BelowRoot(walked) :: !n.truncated
    ensures (forall v :: Reachable(g, b.root, v) <==> v in s.visited) <==> |Children(g, b.root) + {b.root}| <= b.maxNodes
  {
    if |Children(g, b.root) + {b.root}| <= b.maxNodes {
      ListsAll(walked, s.visited);
      forall u, v | u in s.visited && Links(g, u, v) ensures v in s.visited {
        if u == b.root {
          ChildrenAreLinked(g, b.root, v);
          RootFits(g, b, s, depthOf, walked, v);
        } else {
          var n :| n in walked && n.id == u;
          BelowRootElements(walked, n);
          assert Accurate(b, s, depthOf, n, EdgesOf(g, n.id));
          UnflaggedIsWhole(g, b, s, depthOf, n, v);
        }
      }
      ClosedIsReachable(g, b, s, depthOf);
    } else {
      if forall v :: Reachable(g, b.root, v) <==> v in s.visited {
        forall x | x in Children(g, b.root) + {b.root} ensures x in s.visited {
          ReachableWithinOne(g, b.root, x);
        }
        Ordering.SubsetSize(Children(g, b.root) + {b.root}, s.visited);
        assert false;
      }
    }
  }

  lemma ReachableWithinOne(g: Graph, root: Id, x: Id)
    requires x in Children(g, root) + {root}
    ensures Reachable(g, root, x)
  {
    assert Path(g, root, root, 0);
    if x != root {
      ChildrenAreLinked(g, root, x);
      assert Path(g, root, x, 1);
    }
  }

  /** A budget of one yields nothing and says nothing, whatever the root delegates. */
  lemma BudgetOfOneIsSilent(g: Graph, b: Bounds, s: State, depthOf: Depths, walked: seq<Node>, v: Id)
    requires Walked(g, b, s, depthOf, walked) && b.maxNodes == 1 && 1 <= b.maxDepth && Links(g, b.root, v) && v != b.root
    ensures BelowRoot(walked) == [] && Reachable(g, b.root, v) && v !in s.visited
  {
    YieldsEachOnce(g, b, s, depthOf, walked);
    ChildrenAreLinked(g, b.root, v);
    ReachableWithinOne(g, b.root, v);
    if v in s.visited {
      Ordering.SubsetSize({v, b.root}, s.visited);
      assert false;
    }
  }

  // ----- how much of a session's descendants a walk yields

  /** Every session an edge mentions, and the root. */
  ghost function Mentioned(g: Graph, root: Id): set<Id> {
    {root} + set u, e | u in g && e in g[u] && e.child.Some? :: e.child.value
  }

  ghost predicate Near(g: Graph, root: Id, v: Id, d: nat) {
    exists n: nat :: n <= d && Path(g, root, v, n)
  }

  /** The sessions at most `d` edges from the root, the root included. */
  ghost function SessionsWithin(g: Graph, root: Id, d: nat): set<Id> {
    set v | v in Mentioned(g, root) && Near(g, root, v, d)
  }

  /** The sessions the root reaches, without the root itself. */
  ghost function Descendants(g: Graph, root: Id): set<Id> {
    set v | v in Mentioned(g, root) && Reachable(g, root, v) && v != root
  }

  lemma PathIsMentioned(g: Graph, root: Id, v: Id, n: nat)
    requires Path(g, root, v, n)
    ensures v in Mentioned(g, root)
  {
    if n > 0 {
      var u :| Path(g, root, u, n - 1) && Links(g, u, v);
      var i :| 0 <= i < |EdgesOf(g, u)| && Walkable(EdgesOf(g, u)[i]) && EdgesOf(g, u)[i].child.value == v;
      assert u in g && EdgesOf(g, u)[i] in g[u];
    }
  }

  /** A walked session above the depth bound has its children visited while the budget lasts. */
  lemma RoomForChildren(g: Graph, b: Bounds, s: State, depthOf: Depths, walked: seq<Node>, u: Id, v: Id)
    requires Walked(g, b, s, depthOf, walked) && !Full(b, s) && u in s.visited && depthOf[u] < b.maxDepth && Links(g, u, v)
    ensures v in s.visited
  {
    assert Taken(b, s, depthOf, u, EdgesOf(g, u));
    var i :| 0 <= i < |EdgesOf(g, u)| && Walkable(EdgesOf(g, u)[i]) && EdgesOf(g, u)[i].child.value == v;
    assert EdgesOf(g, u)[i] in EdgesOf(g, u);
  }

  /** While the budget lasts, everything near enough is visited. */
  lemma {:induction false} RoomMeansVisited(g: Graph, b: Bounds, s: State, depthOf: Depths, walked: seq<Node>, v: Id, n: nat)
    requires Walked(g, b, s, depthOf, walked) && !Full(b, s) && n <= b.maxDepth && Path(g, b.root, v, n)
    ensures v in s.visited
    decreases n
  {
    if n > 0 {
      var u :| Path(g, b.root, u, n - 1) && Links(g, u, v);
      RoomMeansVisited(g, b, s, depthOf, walked, u, n - 1);
      NoFartherThan(g, b, s, depthOf, walked, u, n - 1);
      hide Walked; hide Full; hide Links; hide Path;
      RoomForChildren(g, b, s, depthOf, walked, u, v);
    }
  }

  lemma NoFartherThan(g: Graph, b: Bounds, s: State, depthOf: Depths, walked: seq<Node>, u: Id, n: nat)
    requires Walked(g, b, s, depthOf, walked) && u in s.visited && Path(g, b.root, u, n)
    ensures u in depthOf && depthOf[u] <= n
  {
    var known := IsDistance(g, b.root, u, depthOf[u]);
  }

  /** The walk visits sessions within its depth only, and as many of them as the budget has room for. */
  lemma AsManyAsFit(g: Graph, b: Bounds, s: State, depthOf: Depths, walked: seq<Node>)
    requires Walked(g, b, s, depthOf, walked)
    ensures s.visited <= SessionsWithin(g, b.root, b.maxDepth) && b.root in s.visited
    ensures |s.visited| == Ordering.Lesser(b.maxNodes, |SessionsWithin(g, b.root, b.maxDepth)|)
    ensures IdsOf(BelowRoot(walked)) == s.visited - {b.root} && |BelowRoot(walked)| == |IdsOf(BelowRoot(walked))| == |s.visited| - 1
  {
    YieldsEachOnce(g, b, s, depthOf, walked);
    YieldedIds(g, b, s, depthOf, walked);
    var near := SessionsWithin(g, b.root, b.maxDepth);
    forall v | v in s.visited ensures v in near {
      var known := IsDistance(g, b.root, v, depthOf[v]);
      PathIsMentioned(g, b.root, v, depthOf[v]);
    }
    Ordering.SubsetSize(s.visited, near);
    if !Full(b, s) {
      forall v | v in near ensures v in s.visited {
        var n: nat :| n <= b.maxDepth && Path(g, b.root, v, n);
        RoomMeansVisited(g, b, s, depthOf, walked, v, n);
      }
      assert s.visited == near;
    }
  }

  lemma FitExactly(visited: set<Id>, near: set<Id>, all: set<Id>, root: Id, room: nat)
    requires root in visited && visited <= near && near - {root} <= all && root !in all
    requires |visited| == Ordering.Lesser(room, |near|)
    ensures visited - {root} == all <==> |all| + 1 <= room && all <= near
  {
    assert |visited - {root}| + 1 == |visited|;
    if all <= near {
      assert near == all + {root};
      if |near| <= room {
        SameSize(visited, near);
      }
    }
  }

  /** Yielded are all descendants exactly when they fit the budget beside the root and none is too deep. */
  lemma AllExactlyWhenTheyFit(g: Graph, b: Bounds, s: State, depthOf: Depths, walked: seq<Node>)
    requires Walked(g, b, s, depthOf, walked)
    ensures IdsOf(BelowRoot(walked)) == Descendants(g, b.root) <==>
              |Descendants(g, b.root)| + 1 <= b.maxNodes && Descendants(g, b.root) <= SessionsWithin(g, b.root, b.maxDepth)
  {
    AsManyAsFit(g, b, s, depthOf, walked);
    var near, all := SessionsWithin(g, b.root, b.maxDepth), Descendants(g, b.root);
    hide Walked; hide Mentioned; hide Path;
    assert near - {b.root} <= all;
    FitExactly(s.visited, near, all, b.root, b.maxNodes);
  }

  /** Walk a session's descendants breadth first. */
  method SessionDescendants(g: Graph, root: Id, maxDepth: Option<int>, maxNodes: Option<int>, pageLimit: nat)
    returns (yielded: seq<Node>, b: Bounds, ghost s: State, ghost depthOf: Depths, ghost walked: seq<Node>)
    requires 1 <= pageLimit
    ensures b.root == root
    ensures b.maxDepth == if maxDepth.None? then 32 else if maxDepth.value < 1 then 1 else if maxDepth.value > 64 then 64 else maxDepth.value
    ensures b.maxNodes == if maxNodes.None? then 1000 else if maxNodes.value < 1 then 1 else if maxNodes.value > 10000 then 10000 else maxNodes.value
    ensures Walked(g, b, s, depthOf, walked) && yielded == BelowRoot(walked)
    ensures IdsOf(yielded) <= SessionsWithin(g, root, b.maxDepth) - {root}
    ensures |yielded| + 1 == |IdsOf(yielded)| + 1 == Ordering.Lesser(b.maxNodes, |SessionsWithin(g, root, b.maxDepth)|)
    ensures IdsOf(yielded) == Descendants(g, root) <==>
              |Descendants(g, root)| + 1 <= b.maxNodes && Descendants(g, root) <= SessionsWithin(g, root, b.maxDepth)
  {
    hide Stage; hide Walked; hide BelowRoot;
    b := Bounds(root, Clamp(maxDepth, DEFAULT_TREE_MAX_DEPTH, MAX_TREE_MAX_DEPTH), Clamp(maxNodes, DEFAULT_TREE_MAX_NODES, MAX_TREE_MAX_NODES));
    var t, frontier;
    t, frontier, depthOf := StartWalk(g, b);
    yielded, walked := [], [];
    ghost var d: nat := 0;
    while frontier != []
      invariant Stage(g, b, t, depthOf, d, frontier, walked, yielded)
      decreases b.maxDepth + 1 - d
    {
      t, depthOf, walked, yielded := WalkLevel(g, b, t, depthOf, d, frontier, walked, yielded, pageLimit);
      frontier, d := t.next, d + 1;
    }
    s := t;
    Finish(g, b, s, depthOf, d, walked, yielded);
    AsManyAsFit(g, b, s, depthOf, walked);
    AllExactlyWhenTheyFit(g, b, s, depthOf, walked);
  }
}
