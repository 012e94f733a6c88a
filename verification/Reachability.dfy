/** Reachability in a finite, possibly cyclic graph, and the recursive query that computes it. */
module Reachability {
  /** An entity: identifier and type. */
  datatype Node = Node(id: string, kind: string)

  datatype Edge = Edge(from: Node, to: Node)

  /** A walk of any length, a single node included. */
  ghost predicate Path(edges: set<Edge>, p: seq<Node>) {
    p != [] && forall i | 0 <= i < |p| - 1 :: Edge(p[i], p[i + 1]) in edges
  }

  ghost predicate PathFromTo(edges: set<Edge>, p: seq<Node>, a: Node, b: Node) {
    Path(edges, p) && p[0] == a && p[|p| - 1] == b
  }

  ghost predicate Reaches(edges: set<Edge>, a: Node, b: Node) {
    exists p :: PathFromTo(edges, p, a, b)
  }

  lemma ReachesItself(edges: set<Edge>, a: Node)
    ensures Reaches(edges, a, a)
  {
    assert PathFromTo(edges, [a], a, a);
  }

  lemma ReachesOneMore(edges: set<Edge>, a: Node, b: Node, c: Node)
    requires Reaches(edges, a, b) && Edge(b, c) in edges
    ensures Reaches(edges, a, c)
  {
    var p :| PathFromTo(edges, p, a, b);
    assert PathFromTo(edges, p + [c], a, c);
  }

  lemma ReachesOneBefore(edges: set<Edge>, a: Node, b: Node, c: Node)
    requires Edge(a, b) in edges && Reaches(edges, b, c)
    ensures Reaches(edges, a, c)
  {
    var p :| PathFromTo(edges, p, b, c);
    assert PathFromTo(edges, [a] + p, a, c);
  }

  /** A set closed under the edges holds everything its members reach. */
  lemma {:induction false} ClosedHoldsPath(edges: set<Edge>, s: set<Node>, p: seq<Node>)
    requires Path(edges, p) && p[0] in s
    requires forall e | e in edges && e.from in s :: e.to in s
    ensures p[|p| - 1] in s
  {
    if |p| > 1 {
      assert Edge(p[0], p[1]) in edges;
      assert forall i | 0 <= i < |p[1..]| - 1 :: Edge(p[1..][i], p[1..][i + 1]) == Edge(p[i + 1], p[i + 1 + 1]);
      ClosedHoldsPath(edges, s, p[1..]);
    }
  }

  function Reversed(edges: set<Edge>): set<Edge> {
    set e | e in edges :: Edge(e.to, e.from)
  }

  lemma {:induction false} ReversedPath(edges: set<Edge>, p: seq<Node>)
    requires Path(Reversed(edges), p)
    ensures Reaches(edges, p[|p| - 1], p[0])
  {
    if |p| == 1 {
      ReachesItself(edges, p[0]);
    } else {
      var q := p[..|p| - 1];
      assert forall i | 0 <= i < |q| - 1 :: Edge(q[i], q[i + 1]) == Edge(p[i], p[i + 1]);
      ReversedPath(edges, q);
      assert Edge(p[|p| - 2], p[|p| - 2 + 1]) in Reversed(edges);
      ReachesOneBefore(edges, p[|p| - 1], p[|p| - 2], p[0]);
    }
  }

  /** Walking the edges backwards reaches exactly what reaches the start. */
  lemma ReversedReaches(edges: set<Edge>, a: Node, b: Node)
    ensures Reaches(Reversed(edges), a, b) <==> Reaches(edges, b, a)
  {
    if Reaches(Reversed(edges), a, b) {
      var p :| PathFromTo(Reversed(edges), p, a, b);
      ReversedPath(edges, p);
    }
    if Reaches(edges, b, a) {
      assert Reversed(Reversed(edges)) == edges by {
        assert forall e | e in edges :: Edge(e.to, e.from) in Reversed(edges);
        assert forall e :: e in edges ==> Edge(Edge(e.to, e.from).to, Edge(e.to, e.from).from) == e;
      }
      var p :| PathFromTo(edges, p, b, a);
      ReversedPath(Reversed(edges), p);
    }
  }

  function Targets(edges: set<Edge>, from: set<Node>): set<Node> {
    set e | e in edges && e.from in from :: e.to
  }

  ghost predicate ReachedFrom(edges: set<Edge>, start: set<Node>, n: Node) {
    exists s | s in start :: Reaches(edges, s, n)
  }

  ghost predicate IsClosure(edges: set<Edge>, start: set<Node>, found: set<Node>) {
    forall n :: n in found <==> ReachedFrom(edges, start, n)
  }

  lemma StartIsReached(edges: set<Edge>, start: set<Node>)
    ensures forall n | n in start :: ReachedFrom(edges, start, n)
  {
    forall n | n in start
      ensures ReachedFrom(edges, start, n)
    {
      ReachesItself(edges, n);
    }
  }

  lemma TargetsAreReached(edges: set<Edge>, start: set<Node>, from: set<Node>)
    requires forall n | n in from :: ReachedFrom(edges, start, n)
    ensures forall n | n in Targets(edges, from) :: ReachedFrom(edges, start, n)
  {
    forall n | n in Targets(edges, from)
      ensures ReachedFrom(edges, start, n)
    {
      var e :| e in edges && e.from in from && e.to == n;
      assert ReachedFrom(edges, start, e.from);
      var s :| s in start && Reaches(edges, s, e.from);
      ReachesOneMore(edges, s, e.from, n);
    }
  }

  ghost predicate ClosedBehind(edges: set<Edge>, done: set<Node>, found: set<Node>) {
    forall e | e in edges && e.from in done :: e.to in found
  }

  lemma ClosedIsClosure(edges: set<Edge>, start: set<Node>, found: set<Node>)
    requires start <= found && ClosedBehind(edges, found, found)
    requires forall n | n in found :: ReachedFrom(edges, start, n)
    ensures IsClosure(edges, start, found)
  {
    forall n, s | s in start && Reaches(edges, s, n)
      ensures n in found
    {
      var p :| PathFromTo(edges, p, s, n);
      ClosedHoldsPath(edges, found, p);
    }
  }

  /**
    `WITH RECURSIVE ... UNION`: rows found in one round are joined with the edges in the next, until
    a round adds none. On a cyclic graph it still ends, because rows are not repeated.
   */
  method RecursiveQuery(edges: set<Edge>, start: set<Node>) returns (found: set<Node>)
    ensures IsClosure(edges, start, found)
  {
    found := start;
    var frontier := start;
    ghost var all := start + set e | e in edges :: e.to;
    StartIsReached(edges, start);
    while frontier != {}
      invariant start <= found <= all && frontier <= found
      invariant forall n | n in found :: ReachedFrom(edges, start, n)
      invariant ClosedBehind(edges, found - frontier, found)
      decreases all - found, frontier
    {
      TargetsAreReached(edges, start, frontier);
      var next := Targets(edges, frontier) - found;
      NextRound(edges, found, frontier, all);
      found := found + next;
      frontier := next;
    }
    assert found - {} == found;
    ClosedIsClosure(edges, start, found);
  }

  lemma NextRound(edges: set<Edge>, found: set<Node>, frontier: set<Node>, all: set<Node>)
    requires frontier <= found <= all && ClosedBehind(edges, found - frontier, found)
    requires forall e | e in edges :: e.to in all
    ensures var next := Targets(edges, frontier) - found;
      && found <= found + next <= all && next <= found + next
      && ClosedBehind(edges, (found + next) - next, found + next)
      && (next == {} || all - (found + next) < all - found)
  {
    var next := Targets(edges, frontier) - found;
    forall e | e in edges && e.from in frontier
      ensures e.to in Targets(edges, frontier)
    {
    }
    if next != {} {
      var n :| n in next;
      assert n in all - found && n !in all - (found + next);
    }
  }
}
