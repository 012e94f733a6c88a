/**
  The relations query: a breadth-first walk that tracks levels, under a bound on the depth and a
  budget of visited nodes. The graph may be cyclic, or without end.
 */
module RelationBfs {
  import opened Reachability

  /** The one-hop primitive, already confined to the tenant, the direction and the relation types. */
  type Neighbours = Node -> seq<Node>

  datatype Found = Found(node: Node, level: nat)

  /** How a visited node is keyed. */
  function Key(n: Node): string { n.kind + ":" + n.id }

  ghost predicate ColonFreeTypes(nbrs: Neighbours, root: Node) {
    ':' !in root.kind && forall n, m | m in nbrs(n) :: ':' !in m.kind
  }

  function KindOf(key: string): string { if key == [] || key[0] == ':' then [] else [key[0]] + KindOf(key[1..]) }

  lemma {:induction false} KindOfKey(kind: string, id: string)
    requires ':' !in kind
    ensures KindOf(kind + ":" + id) == kind
  {
    if kind != [] {
      assert (kind + ":" + id)[1..] == kind[1..] + ":" + id;
      KindOfKey(kind[1..], id);
    }
  }

  /** Types without a colon make the key injective. */
  lemma KeyIsInjective(m: Node, n: Node)
    requires ':' !in m.kind && ':' !in n.kind && Key(m) == Key(n)
    ensures m == n
  {
    KindOfKey(m.kind, m.id);
    KindOfKey(n.kind, n.id);
    assert m.id == Key(m)[|m.kind| + 1..];
  }

  // ---- distance ----

  /** The nodes at most `d` hops from the root. */
  function Ball(nbrs: Neighbours, root: Node, d: nat): set<Node> {
    if d == 0 then {root} else
    Ball(nbrs, root, d - 1) + set n, m | n in Ball(nbrs, root, d - 1) && m in nbrs(n) :: m
  }

  /** The shortest distance from the root is exactly `d`. */
  predicate IsDistance(nbrs: Neighbours, root: Node, n: Node, d: nat) {
    n in Ball(nbrs, root, d) && (d == 0 || n !in Ball(nbrs, root, d - 1))
  }

  ghost predicate Walk(nbrs: Neighbours, p: seq<Node>, a: Node, b: Node) {
    p != [] && p[0] == a && p[|p| - 1] == b && forall i | 0 <= i < |p| - 1 :: p[i + 1] in nbrs(p[i])
  }

  lemma {:induction false} BallsGrow(nbrs: Neighbours, root: Node, d: nat, e: nat)
    requires d <= e
    ensures Ball(nbrs, root, d) <= Ball(nbrs, root, e)
    decreases e
  {
    if d < e {
      BallsGrow(nbrs, root, d, e - 1);
    }
  }

  lemma {:induction false} WalkStaysInBall(nbrs: Neighbours, root: Node, p: seq<Node>, b: Node)
    requires Walk(nbrs, p, root, b)
    ensures b in Ball(nbrs, root, |p| - 1)
    decreases |p|
  {
    if |p| > 1 {
      var q := p[..|p| - 1];
      assert forall i | 0 <= i < |q| - 1 :: p[i + 1] in nbrs(p[i]) && q[i + 1] in nbrs(q[i]);
      WalkStaysInBall(nbrs, root, q, p[|p| - 2]);
      assert p[|p| - 2 + 1] in nbrs(p[|p| - 2]);
    }
  }

  lemma {:induction false} BallHasWalk(nbrs: Neighbours, root: Node, b: Node, d: nat) returns (p: seq<Node>)
    requires b in Ball(nbrs, root, d)
    ensures Walk(nbrs, p, root, b) && |p| - 1 <= d
    decreases d
  {
    if d == 0 {
      p := [root];
    } else if b in Ball(nbrs, root, d - 1) {
      p := BallHasWalk(nbrs, root, b, d - 1);
    } else {
      var n :| n in Ball(nbrs, root, d - 1) && b in nbrs(n);
      var q := BallHasWalk(nbrs, root, n, d - 1);
      p := q + [b];
    }
  }

  /** `IsDistance` is the length of a shortest walk. */
  lemma DistanceIsShortestWalk(nbrs: Neighbours, root: Node, n: Node, d: nat)
    ensures IsDistance(nbrs, root, n, d) <==>
      && (exists p :: Walk(nbrs, p, root, n) && |p| - 1 == d)
      && (forall p | Walk(nbrs, p, root, n) :: |p| - 1 >= d)
  {
    if IsDistance(nbrs, root, n, d) {
      forall p | Walk(nbrs, p, root, n)
        ensures |p| - 1 >= d
      {
        WalkStaysInBall(nbrs, root, p, n);
        if |p| - 1 < d {
          BallsGrow(nbrs, root, |p| - 1, d - 1);
        }
      }
      var p := BallHasWalk(nbrs, root, n, d);
    }
    if (exists p :: Walk(nbrs, p, root, n) && |p| - 1 == d) && (forall p | Walk(nbrs, p, root, n) :: |p| - 1 >= d) {
      var p :| Walk(nbrs, p, root, n) && |p| - 1 == d;
      WalkStaysInBall(nbrs, root, p, n);
      if d > 0 && n in Ball(nbrs, root, d - 1) {
        var q := BallHasWalk(nbrs, root, n, d - 1);
      }
    }
  }

  // ---- the order of discovery ----

  function Nodes(order: seq<Found>): set<Node> {
    if order == [] then {} else Nodes(order[..|order| - 1]) + {order[|order| - 1].node}
  }

  lemma {:induction false} NodeAt(order: seq<Found>, i: nat)
    requires i < |order|
    ensures order[i].node in Nodes(order)
    decreases |order|
  {
    if i < |order| - 1 {
      NodeAt(order[..|order| - 1], i);
    }
  }

  lemma {:induction false} NodeIndex(order: seq<Found>, n: Node) returns (i: nat)
    requires n in Nodes(order)
    ensures i < |order| && order[i].node == n
    decreases |order|
  {
    if order[|order| - 1].node == n {
      i := |order| - 1;
    } else {
      i := NodeIndex(order[..|order| - 1], n);
    }
  }

  lemma NodesOneMore(order: seq<Found>, f: Found)
    ensures Nodes(order + [f]) == Nodes(order) + {f.node}
  {
    assert (order + [f])[..|order|] == order;
  }

  ghost predicate Sorted(fs: seq<Found>) {
    forall i, j | 0 <= i < j < |fs| :: fs[i].node != fs[j].node && fs[i].level <= fs[j].level
  }

  /** Nodes in the order they are queued: each once, at its distance, nearer ones first. */
  ghost predicate Traversal(nbrs: Neighbours, root: Node, order: seq<Found>, maxLevel: nat) {
    && order != [] && order[0] == Found(root, 0) && Sorted(order)
    && (forall i | 0 <= i < |order| ::
      order[i].level <= maxLevel && IsDistance(nbrs, root, order[i].node, order[i].level))
  }

  ghost predicate Known(ms: seq<Node>, nodes: set<Node>) { forall j | 0 <= j < |ms| :: ms[j] in nodes }

  /** The neighbours of the first `head` nodes are all discovered, as far as the depth allows. */
  ghost predicate Expanded(nbrs: Neighbours, order: seq<Found>, head: nat, maxLevel: nat) {
    head <= |order| && forall i | 0 <= i < head && order[i].level < maxLevel :: Known(nbrs(order[i].node), Nodes(order))
  }

  lemma NoFurther(nbrs: Neighbours, root: Node, f: Found, d: nat)
    requires IsDistance(nbrs, root, f.node, f.level) && f.node in Ball(nbrs, root, d)
    ensures f.level <= d
  {
    if f.level > d {
      BallsGrow(nbrs, root, d, f.level - 1);
    }
  }

  lemma NeighbourDiscovered(nbrs: Neighbours, order: seq<Found>, head: nat, maxLevel: nat, i: nat, m: Node)
    requires Expanded(nbrs, order, head, maxLevel)
    requires i < head && order[i].level < maxLevel && m in nbrs(order[i].node)
    ensures m in Nodes(order)
  {
    assert Known(nbrs(order[i].node), Nodes(order));
  }

  lemma DistanceAt(nbrs: Neighbours, root: Node, order: seq<Found>, maxLevel: nat, i: nat)
    requires Traversal(nbrs, root, order, maxLevel) && i < |order|
    ensures order[i].level <= maxLevel && IsDistance(nbrs, root, order[i].node, order[i].level)
  {
  }

  lemma RootIsDiscovered(nbrs: Neighbours, root: Node, order: seq<Found>, maxLevel: nat)
    requires Traversal(nbrs, root, order, maxLevel)
    ensures root in Nodes(order)
  {
    NodeAt(order, 0);
  }

  /** When every node nearer than `d` is expanded, every node within `d` hops is discovered. */
  lemma {:induction false} Covered(nbrs: Neighbours, root: Node, order: seq<Found>, head: nat, maxLevel: nat, d: nat)
    requires Traversal(nbrs, root, order, maxLevel) && Expanded(nbrs, order, head, maxLevel)
    requires d <= maxLevel && forall i | 0 <= i < |order| && order[i].level < d :: i < head
    ensures Ball(nbrs, root, d) <= Nodes(order)
    decreases d
  {
    if d == 0 {
      RootIsDiscovered(nbrs, root, order, maxLevel);
    } else {
      Covered(nbrs, root, order, head, maxLevel, d - 1);
      forall n, m | n in Ball(nbrs, root, d - 1) && m in nbrs(n)
        ensures m in Nodes(order)
      {
        var i := NodeIndex(order, n);
        DistanceAt(nbrs, root, order, maxLevel, i);
        NoFurther(nbrs, root, order[i], d - 1);
        NeighbourDiscovered(nbrs, order, head, maxLevel, i, m);
      }
    }
  }

  lemma DiscoveredInRange(nbrs: Neighbours, root: Node, order: seq<Found>, maxLevel: nat)
    requires Traversal(nbrs, root, order, maxLevel)
    ensures Nodes(order) <= Ball(nbrs, root, maxLevel)
  {
    forall n | n in Nodes(order)
      ensures n in Ball(nbrs, root, maxLevel)
    {
      var i := NodeIndex(order, n);
      DistanceAt(nbrs, root, order, maxLevel, i);
      BallsGrow(nbrs, root, order[i].level, maxLevel);
    }
  }

  lemma {:induction false} EachOnce(order: seq<Found>)
    requires Sorted(order)
    ensures |Nodes(order)| == |order|
    decreases |order|
  {
    if order != [] {
      var init, last := order[..|order| - 1], order[|order| - 1];
      EachOnce(init);
      if last.node in Nodes(init) {
        var i := NodeIndex(init, last.node);
      }
    }
  }

  lemma {:induction false} SubsetIsSmaller<T>(a: set<T>, b: set<T>)
    requires a <= b
    ensures |a| <= |b|
  {
    assert b == a + (b - a);
  }

  lemma SortedOneMore(order: seq<Found>, f: Found)
    requires Sorted(order) && f.node !in Nodes(order) && forall i | 0 <= i < |order| :: order[i].level <= f.level
    ensures Sorted(order + [f])
  {
    var longer := order + [f];
    forall i, j | 0 <= i < j < |longer|
      ensures longer[i].node != longer[j].node && longer[i].level <= longer[j].level
    {
      NodeAt(order, i);
    }
  }

  lemma OneHopFurther(nbrs: Neighbours, root: Node, n: Found, f: Found)
    requires IsDistance(nbrs, root, n.node, n.level) && f.level == n.level + 1
    requires f.node in nbrs(n.node) && f.node !in Ball(nbrs, root, n.level)
    ensures IsDistance(nbrs, root, f.node, f.level)
  {
  }

  lemma TraversalOneMore(nbrs: Neighbours, root: Node, order: seq<Found>, maxLevel: nat, f: Found)
    requires Traversal(nbrs, root, order, maxLevel) && Sorted(order + [f])
    requires f.level <= maxLevel && IsDistance(nbrs, root, f.node, f.level)
    ensures Traversal(nbrs, root, order + [f], maxLevel)
  {
    var longer := order + [f];
    forall i | 0 <= i < |longer|
      ensures longer[i].level <= maxLevel && IsDistance(nbrs, root, longer[i].node, longer[i].level)
    {
      if i < |order| {
        DistanceAt(nbrs, root, order, maxLevel, i);
      }
    }
  }

  /** A newly met neighbour of the node being expanded is one hop further than it. */
  lemma NewlyFound(nbrs: Neighbours, root: Node, order: seq<Found>, maxLevel: nat, at: nat, m: Node)
    requires Traversal(nbrs, root, order, maxLevel) && at < |order| && m in nbrs(order[at].node) && m !in Nodes(order)
    requires order[at].level < maxLevel && m !in Ball(nbrs, root, order[at].level)
    requires forall i | 0 <= i < |order| :: order[i].level <= order[at].level + 1
    ensures Traversal(nbrs, root, order + [Found(m, order[at].level + 1)], maxLevel)
  {
    DistanceAt(nbrs, root, order, maxLevel, at);
    var f := Found(m, order[at].level + 1);
    OneHopFurther(nbrs, root, order[at], f);
    SortedOneMore(order, f);
    TraversalOneMore(nbrs, root, order, maxLevel, f);
  }

  // ---- the hits ----

  predicate Allowed(allowed: set<string>, n: Node) { allowed == {} || n.kind in allowed }

  function Picked(order: seq<Found>, allowed: set<string>): seq<Found> {
    if order == [] then [] else
    var last := order[|order| - 1];
    Picked(order[..|order| - 1], allowed) + if last.level > 0 && Allowed(allowed, last.node) then [last] else []
  }

  lemma PickedOneMore(order: seq<Found>, f: Found, allowed: set<string>)
    requires f.level > 0
    ensures Picked(order + [f], allowed) == Picked(order, allowed) + if Allowed(allowed, f.node) then [f] else []
  {
    assert (order + [f])[..|order|] == order;
  }

  lemma {:induction false} PickedMembers(order: seq<Found>, allowed: set<string>)
    ensures forall f :: f in Picked(order, allowed) <==> f in order && f.level > 0 && Allowed(allowed, f.node)
    decreases |order|
  {
    if order != [] {
      PickedMembers(order[..|order| - 1], allowed);
      assert order == order[..|order| - 1] + [order[|order| - 1]];
    }
  }

  lemma {:induction false} PickedSorted(order: seq<Found>, allowed: set<string>)
    requires Sorted(order)
    ensures Sorted(Picked(order, allowed))
    decreases |order|
  {
    if order != [] {
      var init, last := order[..|order| - 1], order[|order| - 1];
      PickedSorted(init, allowed);
      PickedMembers(init, allowed);
      var rest := Picked(init, allowed);
      forall i | 0 <= i < |rest|
        ensures rest[i].node != last.node && rest[i].level <= last.level
      {
        assert rest[i] in init;
      }
    }
  }

  /** Exactly the nodes of an allowed type at distance 1 to `maxLevel`, each once, nearer ones first. */
  ghost predicate IsAnswer(nbrs: Neighbours, root: Node, maxLevel: nat, allowed: set<string>, hits: seq<Found>) {
    && Sorted(hits)
    && forall f :: f in hits <==>
         1 <= f.level <= maxLevel && IsDistance(nbrs, root, f.node, f.level) && Allowed(allowed, f.node)
  }

  lemma CompleteIsAnswer(nbrs: Neighbours, root: Node, order: seq<Found>, maxLevel: nat, allowed: set<string>)
    requires Traversal(nbrs, root, order, maxLevel) && Expanded(nbrs, order, |order|, maxLevel)
    ensures Nodes(order) == Ball(nbrs, root, maxLevel)
    ensures IsAnswer(nbrs, root, maxLevel, allowed, Picked(order, allowed))
  {
    Covered(nbrs, root, order, |order|, maxLevel, maxLevel);
    DiscoveredInRange(nbrs, root, order, maxLevel);
    PickedMembers(order, allowed);
    PickedSorted(order, allowed);
    forall f: Found | 1 <= f.level <= maxLevel && IsDistance(nbrs, root, f.node, f.level)
      ensures f in order
    {
      BallsGrow(nbrs, root, f.level, maxLevel);
      var i := NodeIndex(order, f.node);
      DistanceAt(nbrs, root, order, maxLevel, i);
      OneDistance(nbrs, root, f.node, f.level, order[i].level);
    }
  }

  lemma OneDistance(nbrs: Neighbours, root: Node, n: Node, d: nat, e: nat)
    requires IsDistance(nbrs, root, n, d) && IsDistance(nbrs, root, n, e)
    ensures d == e
  {
    if d < e {
      BallsGrow(nbrs, root, d, e - 1);
    } else if e < d {
      BallsGrow(nbrs, root, e, d - 1);
    }
  }

  // ---- the walk ----

  function Keys(order: seq<Found>): set<string> {
    if order == [] then {} else Keys(order[..|order| - 1]) + {Key(order[|order| - 1].node)}
  }

  /** Every discovered node has a type without a colon. */
  ghost predicate Plain(order: seq<Found>) {
    forall i | 0 <= i < |order| :: ':' !in order[i].node.kind
  }

  /** The visited keys stand for exactly the discovered nodes. */
  lemma {:induction false} VisitedIsDiscovered(order: seq<Found>, m: Node)
    requires Plain(order) && ':' !in m.kind
    ensures Key(m) in Keys(order) <==> m in Nodes(order)
    decreases |order|
  {
    if order != [] {
      VisitedIsDiscovered(order[..|order| - 1], m);
      if Key(m) == Key(order[|order| - 1].node) {
        KeyIsInjective(m, order[|order| - 1].node);
      }
    }
  }

  /** What holds of the discovered nodes, of the visited keys and of the hits at any time. */
  ghost predicate Walked(nbrs: Neighbours, root: Node, maxLevel: nat, allowed: set<string>,
                         order: seq<Found>, visited: set<string>, hits: seq<Found>) {
    && Traversal(nbrs, root, order, maxLevel) && Plain(order)
    && visited == Keys(order) && |visited| == |order| && hits == Picked(order, allowed)
  }

  lemma VisitNew(nbrs: Neighbours, root: Node, maxLevel: nat, allowed: set<string>,
                 order: seq<Found>, visited: set<string>, hits: seq<Found>, at: nat, f: Found)
    requires Walked(nbrs, root, maxLevel, allowed, order, visited, hits) && ColonFreeTypes(nbrs, root)
    requires at < |order| && f.node in nbrs(order[at].node) && f.level == order[at].level + 1 && Key(f.node) !in visited
    requires order[at].level < maxLevel && Ball(nbrs, root, order[at].level) <= Nodes(order)
    requires forall i | 0 <= i < |order| :: order[i].level <= order[at].level + 1
    ensures Walked(nbrs, root, maxLevel, allowed, order + [f], visited + {Key(f.node)},
                   hits + if Allowed(allowed, f.node) then [f] else [])
  {
    VisitedIsDiscovered(order, f.node);
    assert f == Found(f.node, order[at].level + 1);
    NewlyFound(nbrs, root, order, maxLevel, at, f.node);
    PickedOneMore(order, f, allowed);
    assert (order + [f])[..|order|] == order;
  }

  lemma ExpandedStays(nbrs: Neighbours, order: seq<Found>, head: nat, maxLevel: nat, f: Found)
    requires Expanded(nbrs, order, head, maxLevel)
    ensures Expanded(nbrs, order + [f], head, maxLevel)
  {
    NodesOneMore(order, f);
    forall i | 0 <= i < head && (order + [f])[i].level < maxLevel
      ensures Known(nbrs((order + [f])[i].node), Nodes(order + [f]))
    {
      assert Known(nbrs(order[i].node), Nodes(order));
    }
  }

  /** The levels of the queue span at most two values. */
  ghost predicate TwoLevels(order: seq<Found>, at: nat) {
    at < |order| ==> forall i | 0 <= i < |order| :: order[i].level <= order[at].level + 1
  }

  lemma TwoLevelsNext(order: seq<Found>, at: nat)
    requires Sorted(order) && TwoLevels(order, at) && at < |order|
    ensures TwoLevels(order, at + 1)
  {
    if at + 1 < |order| {
      assert order[at].level <= order[at + 1].level;
    }
  }

  lemma HeadIsCovered(nbrs: Neighbours, root: Node, order: seq<Found>, maxLevel: nat, at: nat)
    requires Traversal(nbrs, root, order, maxLevel) && at < |order| && Expanded(nbrs, order, at, maxLevel)
    ensures Ball(nbrs, root, order[at].level) <= Nodes(order)
  {
    forall i | 0 <= i < |order| && order[i].level < order[at].level
      ensures i < at
    {
    }
    Covered(nbrs, root, order, at, maxLevel, order[at].level);
  }

  /** The node at `at` is being expanded: everything as near as it is discovered already. */
  ghost predicate Expanding(nbrs: Neighbours, root: Node, maxLevel: nat, order: seq<Found>, at: nat, cur: Found) {
    && at < |order| && order[at] == cur && cur.level < maxLevel && TwoLevels(order, at)
    && Expanded(nbrs, order, at, maxLevel) && Ball(nbrs, root, cur.level) <= Nodes(order)
  }

  lemma ExpandingStays(nbrs: Neighbours, root: Node, maxLevel: nat, order: seq<Found>, at: nat, cur: Found, f: Found)
    requires Expanding(nbrs, root, maxLevel, order, at, cur) && f.level == cur.level + 1
    ensures Expanding(nbrs, root, maxLevel, order + [f], at, cur)
  {
    ExpandedStays(nbrs, order, at, maxLevel, f);
    NodesOneMore(order, f);
  }

  /** What has become of the walk when `f`, a neighbour of the node at `at`, was looked at. */
  ghost predicate Visited(nbrs: Neighbours, root: Node, maxLevel: nat, allowed: set<string>, cur: Found, f: Found,
                          order: seq<Found>, at: nat, order': seq<Found>, visited': set<string>, hits': seq<Found>) {
    && Walked(nbrs, root, maxLevel, allowed, order', visited', hits')
      && Expanding(nbrs, root, maxLevel, order', at, cur)
    && Nodes(order') == Nodes(order) + {f.node} && order' == Discovered(order, f)
  }

  lemma VisitKnown(nbrs: Neighbours, root: Node, maxLevel: nat, allowed: set<string>, cur: Found, f: Found,
                   order: seq<Found>, at: nat,
                   visited: set<string>, hits: seq<Found>)
    requires ColonFreeTypes(nbrs, root) && f.node in nbrs(cur.node) && Key(f.node) in visited
    requires Walked(nbrs, root, maxLevel, allowed, order, visited, hits)
      && Expanding(nbrs, root, maxLevel, order, at, cur)
    ensures Visited(nbrs, root, maxLevel, allowed, cur, f, order, at, order, visited, hits)
  {
    VisitedIsDiscovered(order, f.node);
  }

  lemma VisitFresh(nbrs: Neighbours, root: Node, maxLevel: nat, allowed: set<string>, cur: Found, f: Found,
                   order: seq<Found>, at: nat,
                   visited: set<string>, hits: seq<Found>)
    requires ColonFreeTypes(nbrs, root) && f.node in nbrs(cur.node) && f.level == cur.level + 1
      && Key(f.node) !in visited
    requires Walked(nbrs, root, maxLevel, allowed, order, visited, hits)
      && Expanding(nbrs, root, maxLevel, order, at, cur)
    ensures Visited(nbrs, root, maxLevel, allowed, cur, f, order, at, order + [f], visited + {Key(f.node)},
                    hits + if Allowed(allowed, f.node) then [f] else [])
  {
    VisitedIsDiscovered(order, f.node);
    VisitNew(nbrs, root, maxLevel, allowed, order, visited, hits, at, f);
    ExpandingStays(nbrs, root, maxLevel, order, at, cur, f);
    NodesOneMore(order, f);
  }

  lemma ExpandedNext(nbrs: Neighbours, order: seq<Found>, at: nat, maxLevel: nat)
    requires at < |order| && Expanded(nbrs, order, at, maxLevel)
    requires order[at].level < maxLevel ==> Known(nbrs(order[at].node), Nodes(order))
    ensures Expanded(nbrs, order, at + 1, maxLevel)
  {
  }

  lemma KnownOneMore(ms: seq<Node>, k: nat, nodes: set<Node>, more: set<Node>)
    requires k < |ms| && Known(ms[..k], nodes) && nodes <= more && ms[k] in more
    ensures Known(ms[..k + 1], more)
  {
    forall j | 0 <= j < k
      ensures ms[j] in more
    {
      assert ms[j] == ms[..k][j];
    }
  }

  // ---- the walk without a budget ----

  /** What is looked at when `f` is expanded: its neighbours, one hop further. */
  function LooksOf(nbrs: Neighbours, f: Found, maxLevel: nat): seq<Found> {
    if f.level < maxLevel
      then seq(|nbrs(f.node)|, j requires 0 <= j < |nbrs(f.node)| => Found(nbrs(f.node)[j], f.level + 1)) else []
  }

  /** All that is looked at when the nodes of `order` are expanded in turn. */
  function Looks(nbrs: Neighbours, order: seq<Found>, maxLevel: nat): seq<Found> {
    if order == [] then [] else
    Looks(nbrs, order[..|order| - 1], maxLevel) + LooksOf(nbrs, order[|order| - 1], maxLevel)
  }

  function Discovered(order: seq<Found>, f: Found): seq<Found> { if f.node in Nodes(order) then order else order + [f] }

  /** The discovered nodes after the look that `t` looks came before, if there is one. */
  function OneLook(nbrs: Neighbours, order: seq<Found>, maxLevel: nat, t: nat): seq<Found> {
    var looks := Looks(nbrs, order, maxLevel);
    if t < |looks| then Discovered(order, looks[t]) else order
  }

  /** The nodes discovered by the first `t` looks of a walk without a budget. */
  function After(nbrs: Neighbours, root: Node, maxLevel: nat, t: nat): seq<Found> {
    if t == 0 then [Found(root, 0)] else OneLook(nbrs, After(nbrs, root, maxLevel, t - 1), maxLevel, t - 1)
  }

  /** At some moment `cap` nodes are discovered and a neighbour is still to be looked at. */
  ghost predicate RunsOver(nbrs: Neighbours, root: Node, maxLevel: nat, cap: nat) {
    exists t: nat ::
      t < |Looks(nbrs, After(nbrs, root, maxLevel, t), maxLevel)| && |After(nbrs, root, maxLevel, t)| >= cap
  }

  lemma {:induction false} CycleBall(nbrs: Neighbours, a: Node, b: Node)
    requires a != b && nbrs(a) == [b] && nbrs(b) == [a]
    ensures Ball(nbrs, a, 2) == {a, b}
  {
    assert Ball(nbrs, a, 0) == {a};
    assert b in nbrs(a) && a in nbrs(b);
    assert Ball(nbrs, a, 1) == {a, b};
  }

  lemma {:induction false} CycleWalk(nbrs: Neighbours, a: Node, b: Node)
    requires a != b && nbrs(a) == [b] && nbrs(b) == [a]
    ensures After(nbrs, a, 2, 1) == [Found(a, 0), Found(b, 1)] && |Looks(nbrs, [Found(a, 0), Found(b, 1)], 2)| == 2
  {
    var one := [Found(a, 0)];
    var two := [Found(a, 0), Found(b, 1)];
    assert one[..0] == [] && two[..1] == one;
    assert Looks(nbrs, one, 2) == [Found(b, 1)];
    assert Nodes(one) == {a};
    assert one + [Found(b, 1)] == two;
  }

  /** Two nodes that point at each other do not fit a budget of two, although both are discovered. */
  lemma {:induction false} CycleRunsOver(nbrs: Neighbours, a: Node, b: Node)
    requires a != b && nbrs(a) == [b] && nbrs(b) == [a]
    ensures Ball(nbrs, a, 2) == {a, b} && RunsOver(nbrs, a, 2, 2)
  {
    CycleBall(nbrs, a, b);
    CycleWalk(nbrs, a, b);
    assert 1 < |Looks(nbrs, After(nbrs, a, 2, 1), 2)| && |After(nbrs, a, 2, 1)| >= 2;
  }

  /** After `t` looks the discovered nodes are `order`, and none of these looks was one too many. */
  ghost predicate Looked(nbrs: Neighbours, root: Node, maxLevel: nat, cap: nat, order: seq<Found>, t: nat) {
    && order == After(nbrs, root, maxLevel, t)
    && forall u: nat | u < t :: |After(nbrs, root, maxLevel, u)| < cap
  }

  lemma {:induction false} LooksOfPrefix(nbrs: Neighbours, order: seq<Found>, maxLevel: nat, i: nat)
    requires i <= |order|
    ensures Looks(nbrs, order[..i], maxLevel) <= Looks(nbrs, order, maxLevel)
    decreases |order|
  {
    if i == |order| {
      assert order[..i] == order;
    } else {
      var init := order[..|order| - 1];
      LooksOfPrefix(nbrs, init, maxLevel, i);
      assert init[..i] == order[..i];
    }
  }

  /** The `k`-th neighbour of the node at `at` is the look after all of the nodes before it and `k` of its own. */
  lemma LookAt(nbrs: Neighbours, order: seq<Found>, maxLevel: nat, at: nat, k: nat, f: Found, t: nat)
    requires at < |order| && order[at].level < maxLevel && k < |nbrs(order[at].node)|
    requires f == Found(nbrs(order[at].node)[k], order[at].level + 1) && t == |Looks(nbrs, order[..at], maxLevel)| + k
    ensures t < |Looks(nbrs, order, maxLevel)| && Looks(nbrs, order, maxLevel)[t] == f
  {
    LooksOfPrefix(nbrs, order, maxLevel, at + 1);
    assert order[..at + 1][..at] == order[..at];
    var before, own := Looks(nbrs, order[..at], maxLevel), LooksOf(nbrs, order[at], maxLevel);
    assert Looks(nbrs, order[..at + 1], maxLevel) == before + own;
    assert (before + own)[|before| + k] == own[k];
  }

  lemma LookedNext(nbrs: Neighbours, root: Node, maxLevel: nat, cap: nat, order: seq<Found>, f: Found, t: nat)
    requires Looked(nbrs, root, maxLevel, cap, order, t) && |order| < cap
    requires t < |Looks(nbrs, order, maxLevel)| && Looks(nbrs, order, maxLevel)[t] == f
    ensures Looked(nbrs, root, maxLevel, cap, Discovered(order, f), t + 1)
  {
  }

  lemma DiscoveredPrefix(order: seq<Found>, f: Found, at: nat)
    requires at <= |order|
    ensures Discovered(order, f)[..at] == order[..at]
  {
  }

  /** One look of the real walk is one look of the walk without a budget. */
  lemma LookStep(nbrs: Neighbours, root: Node, maxLevel: nat, cap: nat, order: seq<Found>, at: nat, cur: Found,
                 k: nat, f: Found, t: nat)
    requires at < |order| && order[at] == cur && cur.level < maxLevel && |order| < cap
    requires k < |nbrs(cur.node)| && f.node == nbrs(cur.node)[k] && f.level == cur.level + 1
    requires Looked(nbrs, root, maxLevel, cap, order, t) && t == |Looks(nbrs, order[..at], maxLevel)| + k
    ensures Looked(nbrs, root, maxLevel, cap, Discovered(order, f), t + 1)
    ensures Discovered(order, f)[..at] == order[..at]
  {
    LookAt(nbrs, order, maxLevel, at, k, f, t);
    DiscoveredPrefix(order, f, at);
    LookedNext(nbrs, root, maxLevel, cap, order, f, t);
  }

  lemma AllLooksDone(nbrs: Neighbours, order: seq<Found>, maxLevel: nat, at: nat)
    requires at < |order|
    ensures |Looks(nbrs, order[..at + 1], maxLevel)|
      == |Looks(nbrs, order[..at], maxLevel)| + if order[at].level < maxLevel then |nbrs(order[at].node)| else 0
  {
    assert order[..at + 1][..at] == order[..at];
  }

  lemma NoMoreLooks(nbrs: Neighbours, root: Node, maxLevel: nat, order: seq<Found>, t: nat)
    requires order == After(nbrs, root, maxLevel, t) && t >= |Looks(nbrs, order, maxLevel)|
    ensures After(nbrs, root, maxLevel, t + 1) == order
  {
    assert OneLook(nbrs, order, maxLevel, t) == order;
  }

  lemma {:induction false} NothingLeft(nbrs: Neighbours, root: Node, maxLevel: nat, order: seq<Found>, t: nat, u: nat)
    requires order == After(nbrs, root, maxLevel, t) && |Looks(nbrs, order, maxLevel)| <= t <= u
    ensures After(nbrs, root, maxLevel, u) == order
    decreases u - t
  {
    if t < u {
      NoMoreLooks(nbrs, root, maxLevel, order, t);
      NothingLeft(nbrs, root, maxLevel, order, t + 1, u);
    }
  }

  /** A walk that ended within its budget never ran over; one that stopped early would have. */
  lemma BudgetIsExact(nbrs: Neighbours, root: Node, maxLevel: nat, cap: nat, order: seq<Found>, t: nat, budgetHit: bool)
    requires Looked(nbrs, root, maxLevel, cap, order, t)
    requires if budgetHit then t < |Looks(nbrs, order, maxLevel)| && |order| >= cap
      else t == |Looks(nbrs, order, maxLevel)|
    ensures budgetHit <==> RunsOver(nbrs, root, maxLevel, cap)
  {
    if !budgetHit {
      forall u: nat | |After(nbrs, root, maxLevel, u)| >= cap
        ensures u >= |Looks(nbrs, After(nbrs, root, maxLevel, u), maxLevel)|
      {
        NothingLeft(nbrs, root, maxLevel, order, t, u);
      }
    }
  }

  // ---- the walk with a budget ----

  /** `k` neighbours of the node at `at` have been looked at, and the budget has not tripped. */
  ghost predicate InNode(nbrs: Neighbours, root: Node, maxLevel: nat, cap: nat, allowed: set<string>, cur: Found,
                         k: nat,
                         queue: seq<Found>, visited: set<string>, hits: seq<Found>, order: seq<Found>, at: nat,
                           looks: nat) {
    && Walked(nbrs, root, maxLevel, allowed, order, visited, hits) && |visited| <= cap
    && Expanding(nbrs, root, maxLevel, order, at, cur) && queue == order[at + 1..]
    && k <= |nbrs(cur.node)| && Known(nbrs(cur.node)[..k], Nodes(order))
    && Looked(nbrs, root, maxLevel, cap, order, looks) && looks == |Looks(nbrs, order[..at], maxLevel)| + k
  }

  lemma NextNeighbour(nbrs: Neighbours, root: Node, maxLevel: nat, cap: nat, allowed: set<string>, cur: Found, k: nat,
                      f: Found,
                      queue: seq<Found>, visited: set<string>, hits: seq<Found>, order: seq<Found>, at: nat, looks: nat,
                      queue': seq<Found>, visited': set<string>, hits': seq<Found>, order': seq<Found>)
    requires InNode(nbrs, root, maxLevel, cap, allowed, cur, k, queue, visited, hits, order, at, looks)
      && |visited| < cap
    requires k < |nbrs(cur.node)| && f.node == nbrs(cur.node)[k] && f.level == cur.level + 1
    requires Visited(nbrs, root, maxLevel, allowed, cur, f, order, at, order', visited', hits')
    requires queue' == order'[at + 1..] && |visited'| <= |visited| + 1
    ensures InNode(nbrs, root, maxLevel, cap, allowed, cur, k + 1, queue', visited', hits', order', at, looks + 1)
  {
    KnownOneMore(nbrs(cur.node), k, Nodes(order), Nodes(order'));
    LookStep(nbrs, root, maxLevel, cap, order, at, cur, k, f, looks);
  }

  lemma LeaveNode(nbrs: Neighbours, root: Node, maxLevel: nat, cap: nat, allowed: set<string>, cur: Found,
                  queue: seq<Found>, visited: set<string>, hits: seq<Found>, order: seq<Found>, at: nat, looks: nat)
    requires InNode(nbrs, root, maxLevel, cap, allowed, cur, |nbrs(cur.node)|, queue, visited, hits, order, at, looks)
    ensures Expanded(nbrs, order, at + 1, maxLevel) && looks == |Looks(nbrs, order[..at + 1], maxLevel)|
  {
    assert nbrs(cur.node)[..|nbrs(cur.node)|] == nbrs(cur.node);
    ExpandedNext(nbrs, order, at, maxLevel);
    AllLooksDone(nbrs, order, maxLevel, at);
  }

  lemma BudgetTrips(nbrs: Neighbours, root: Node, maxLevel: nat, cap: nat, allowed: set<string>, cur: Found, k: nat,
                    queue: seq<Found>, visited: set<string>, hits: seq<Found>, order: seq<Found>, at: nat, looks: nat)
    requires InNode(nbrs, root, maxLevel, cap, allowed, cur, k, queue, visited, hits, order, at, looks)
    requires k < |nbrs(cur.node)| && |visited| >= cap
    ensures |visited| == cap && looks < |Looks(nbrs, order, maxLevel)|
  {
    LookAt(nbrs, order, maxLevel, at, k, Found(nbrs(cur.node)[k], cur.level + 1), looks);
  }

  /** One neighbour of the node being expanded, with budget left. */
  method Visit(nbrs: Neighbours, ghost root: Node, ghost maxLevel: nat, ghost cap: nat, allowed: set<string>,
               cur: Found, k: nat,
               queue: seq<Found>, visited: set<string>, hits: seq<Found>, ghost order: seq<Found>, ghost at: nat,
                 ghost looks: nat)
    returns (queue': seq<Found>, visited': set<string>, hits': seq<Found>, ghost order': seq<Found>)
    requires ColonFreeTypes(nbrs, root) && k < |nbrs(cur.node)| && |visited| < cap
    requires InNode(nbrs, root, maxLevel, cap, allowed, cur, k, queue, visited, hits, order, at, looks)
    ensures InNode(nbrs, root, maxLevel, cap, allowed, cur, k + 1, queue', visited', hits', order', at, looks + 1)
    ensures |visited| <= |visited'|
  {
    queue', visited', hits', order' := queue, visited, hits, order;
    var neighbour := nbrs(cur.node)[k];
    var child := Found(neighbour, cur.level + 1);
    if Key(neighbour) in visited {
      VisitKnown(nbrs, root, maxLevel, allowed, cur, child, order, at, visited, hits);
    } else {
      VisitFresh(nbrs, root, maxLevel, allowed, cur, child, order, at, visited, hits);
      visited' := visited + {Key(neighbour)};
      queue' := queue + [child];
      order' := order + [child];
      if allowed == {} || neighbour.kind in allowed {
        hits' := hits + [child];
      }
      assert hits' == hits + if Allowed(allowed, neighbour) then [child] else [];
    }
    NextNeighbour(nbrs, root, maxLevel, cap, allowed, cur, k, child,
                  queue, visited, hits, order, at, looks, queue', visited', hits', order');
  }

  /** The neighbours of one node, until the budget trips; `looks` counts the neighbours looked at. */
  method ExpandNode(nbrs: Neighbours, ghost root: Node, ghost maxLevel: nat, cap: nat, allowed: set<string>, cur: Found,
                    queue: seq<Found>, visited: set<string>, hits: seq<Found>, ghost order: seq<Found>, ghost at: nat,
                      ghost looks: nat)
    returns (budgetHit: bool, queue': seq<Found>, visited': set<string>, hits': seq<Found>,
             ghost order': seq<Found>, ghost looks': nat, ghost looked: nat)
    requires ColonFreeTypes(nbrs, root)
    requires InNode(nbrs, root, maxLevel, cap, allowed, cur, 0, queue, visited, hits, order, at, looks)
    ensures |visited| <= |visited'|
    ensures InNode(nbrs, root, maxLevel, cap, allowed, cur, looked, queue', visited', hits', order', at, looks')
    ensures if budgetHit then |visited'| == cap && looks' < |Looks(nbrs, order', maxLevel)|
      else Expanded(nbrs, order', at + 1, maxLevel) && looks' == |Looks(nbrs, order'[..at + 1], maxLevel)|
  {
    queue', visited', hits', order', looks' := queue, visited, hits, order, looks;
    var neighbours := nbrs(cur.node);
    for k := 0 to |neighbours|
      invariant InNode(nbrs, root, maxLevel, cap, allowed, cur, k, queue', visited', hits', order', at, looks')
      invariant |visited| <= |visited'|
    {
      if |visited'| >= cap {
        BudgetTrips(nbrs, root, maxLevel, cap, allowed, cur, k, queue', visited', hits', order', at, looks');
        return true, queue', visited', hits', order', looks', k;
      }
      queue', visited', hits', order' :=
        Visit(nbrs, root, maxLevel, cap, allowed, cur, k, queue', visited', hits', order', at, looks');
      looks' := looks' + 1;
    }
    budgetHit, looked := false, |neighbours|;
    LeaveNode(nbrs, root, maxLevel, cap, allowed, cur, queue', visited', hits', order', at, looks');
  }

  /** What holds between two nodes: the first `head` are expanded, or the budget has tripped. */
  ghost predicate Walking(nbrs: Neighbours, root: Node, maxLevel: nat, cap: nat, allowed: set<string>,
                          queue: seq<Found>, visited: set<string>, hits: seq<Found>, budgetHit: bool,
                          order: seq<Found>, head: nat, looks: nat) {
    && Walked(nbrs, root, maxLevel, allowed, order, visited, hits) && |visited| <= cap
    && head <= |order| && queue == order[head..] && TwoLevels(order, head)
    && Looked(nbrs, root, maxLevel, cap, order, looks)
    && if budgetHit then |visited| == cap && looks < |Looks(nbrs, order, maxLevel)|
       else Expanded(nbrs, order, head, maxLevel) && looks == |Looks(nbrs, order[..head], maxLevel)|
  }

  lemma WalkStarts(nbrs: Neighbours, root: Node, maxLevel: nat, cap: nat, allowed: set<string>)
    requires ColonFreeTypes(nbrs, root) && cap >= 1
    ensures Walking(nbrs, root, maxLevel, cap, allowed, [Found(root, 0)], {Key(root)}, [], false, [Found(root, 0)], 0,
      0)
  {
    assert Keys([Found(root, 0)]) == {Key(root)};
    assert Picked([Found(root, 0)], allowed) == [];
  }

  lemma EnterNode(nbrs: Neighbours, root: Node, maxLevel: nat, cap: nat, allowed: set<string>,
                  queue: seq<Found>, visited: set<string>, hits: seq<Found>, order: seq<Found>, head: nat, looks: nat,
                    cur: Found)
    requires Walking(nbrs, root, maxLevel, cap, allowed, queue, visited, hits, false, order, head, looks)
    requires queue != [] && cur == queue[0] && cur.level < maxLevel
    ensures InNode(nbrs, root, maxLevel, cap, allowed, cur, 0, queue[1..], visited, hits, order, head, looks)
  {
    assert cur == order[head];
    HeadIsCovered(nbrs, root, order, maxLevel, head);
  }

  lemma SkipNode(nbrs: Neighbours, root: Node, maxLevel: nat, cap: nat, allowed: set<string>,
                 queue: seq<Found>, visited: set<string>, hits: seq<Found>, order: seq<Found>, head: nat, looks: nat)
    requires Walking(nbrs, root, maxLevel, cap, allowed, queue, visited, hits, false, order, head, looks)
    requires queue != [] && queue[0].level >= maxLevel
    ensures Walking(nbrs, root, maxLevel, cap, allowed, queue[1..], visited, hits, false, order, head + 1, looks)
  {
    ExpandedNext(nbrs, order, head, maxLevel);
    AllLooksDone(nbrs, order, maxLevel, head);
    TwoLevelsNext(order, head);
  }

  lemma NodeDone(nbrs: Neighbours, root: Node, maxLevel: nat, cap: nat, allowed: set<string>, cur: Found, k: nat,
                 queue: seq<Found>, visited: set<string>, hits: seq<Found>, budgetHit: bool, order: seq<Found>,
                   head: nat, looks: nat)
    requires InNode(nbrs, root, maxLevel, cap, allowed, cur, k, queue, visited, hits, order, head, looks)
    requires if budgetHit then |visited| == cap && looks < |Looks(nbrs, order, maxLevel)|
      else Expanded(nbrs, order, head + 1, maxLevel) && looks == |Looks(nbrs, order[..head + 1], maxLevel)|
    ensures Walking(nbrs, root, maxLevel, cap, allowed, queue, visited, hits, budgetHit, order, head + 1, looks)
  {
    TwoLevelsNext(order, head);
  }

  /** What is left to say when the walk has ended. */
  lemma WalkEnds(nbrs: Neighbours, root: Node, maxLevel: nat, cap: nat, allowed: set<string>,
                 queue: seq<Found>, visited: set<string>, hits: seq<Found>, budgetHit: bool, order: seq<Found>,
                   head: nat, looks: nat)
    requires Walking(nbrs, root, maxLevel, cap, allowed, queue, visited, hits, budgetHit, order, head, looks)
    requires queue == [] || budgetHit
    ensures !budgetHit ==> IsAnswer(nbrs, root, maxLevel, allowed, hits) && |Ball(nbrs, root, maxLevel)| <= cap
    ensures budgetHit ==> |Ball(nbrs, root, maxLevel)| >= cap
    ensures budgetHit <==> RunsOver(nbrs, root, maxLevel, cap)
  {
    EachOnce(order);
    DiscoveredInRange(nbrs, root, order, maxLevel);
    SubsetIsSmaller(Nodes(order), Ball(nbrs, root, maxLevel));
    if !budgetHit {
      assert order[..head] == order;
      CompleteIsAnswer(nbrs, root, order, maxLevel, allowed);
    }
    BudgetIsExact(nbrs, root, maxLevel, cap, order, looks, budgetHit);
  }

  /**
    The walk. If the budget does not trip, the hits are exactly the answer. It trips if and only if
    the walk without a budget would look at one more neighbour with `cap` nodes discovered: never
    with fewer in range, always with more. Never more than `cap` are visited.
   */
  method RelationsQuery(nbrs: Neighbours, root: Node, maxLevel: nat, cap: nat, allowed: set<string>)
    returns (hits: seq<Found>, budgetHit: bool, visited: set<string>)
    requires ColonFreeTypes(nbrs, root) && cap >= 1
    ensures !budgetHit ==> IsAnswer(nbrs, root, maxLevel, allowed, hits)
    ensures budgetHit <==> RunsOver(nbrs, root, maxLevel, cap)
    ensures |Ball(nbrs, root, maxLevel)| < cap ==> !budgetHit
    ensures |Ball(nbrs, root, maxLevel)| > cap ==> budgetHit
    ensures |visited| <= cap
  {
    visited := {Key(root)};
    var queue := [Found(root, 0)];
    hits := [];
    budgetHit := false;
    ghost var order, head: nat, looks: nat := queue, 0, 0;
    WalkStarts(nbrs, root, maxLevel, cap, allowed);
    while |queue| > 0 && !budgetHit
      invariant Walking(nbrs, root, maxLevel, cap, allowed, queue, visited, hits, budgetHit, order, head, looks)
      decreases cap - |visited|, |queue|
    {
      var cur := queue[0];
      if cur.level < maxLevel {
        EnterNode(nbrs, root, maxLevel, cap, allowed, queue, visited, hits, order, head, looks, cur);
        queue := queue[1..];
        ghost var looked;
        budgetHit, queue, visited, hits, order, looks, looked :=
          ExpandNode(nbrs, root, maxLevel, cap, allowed, cur, queue, visited, hits, order, head, looks);
        NodeDone(nbrs, root, maxLevel, cap, allowed, cur, looked, queue, visited, hits, budgetHit, order, head, looks);
      } else {
        SkipNode(nbrs, root, maxLevel, cap, allowed, queue, visited, hits, order, head, looks);
        queue := queue[1..];
      }
      head := head + 1;
    }
    WalkEnds(nbrs, root, maxLevel, cap, allowed, queue, visited, hits, budgetHit, order, head, looks);
  }
}
