/** The import graph, walks in it, and reachability. */
module Digraphs {
  import opened Sequences

  type Node = string

  /** A `ReadonlyMap<string, readonly string[]>`: `order` is its iteration order. */
  datatype Graph = Graph(order: seq<Node>, edges: map<Node, seq<Node>>) {

    ghost predicate Valid() {
      NoDuplicates(order) && Elements(order) == edges.Keys
    }

    /** `graph.get(node) ?? []` */
    function Successors(n: Node): seq<Node> {
      if n in edges then edges[n] else []
    }

    ghost function Nodes(): set<Node> {
      edges.Keys + (set n, m | n in edges.Keys && m in edges[n] :: m)
    }

    predicate Edge(a: Node, b: Node) {
      b in Successors(a)
    }

    predicate IsWalk(p: seq<Node>) {
      |p| > 0 && forall i :: 0 <= i < |p| - 1 ==> Edge(p[i], p[i+1])
    }

    ghost predicate WalkFromTo(p: seq<Node>, a: Node, b: Node) {
      IsWalk(p) && p[0] == a && p[|p|-1] == b
    }

    ghost predicate Reach(a: Node, b: Node) {
      exists p :: WalkFromTo(p, a, b)
    }

    ghost predicate Mutual(a: Node, b: Node) {
      Reach(a, b) && Reach(b, a)
    }

    /** a lies on a directed cycle, a self-import included. */
    ghost predicate OnCycle(a: Node) {
      exists m :: Edge(a, m) && Reach(m, a)
    }

    ghost predicate Closed(s: set<Node>) {
      forall a, b :: a in s && Edge(a, b) ==> b in s
    }

    /** A directed cycle: a walk of at least one edge that ends where it starts. */
    ghost predicate ClosedWalk(p: seq<Node>) {
      |p| >= 2 && IsWalk(p) && p[0] == p[|p|-1]
    }

    lemma ReachRefl(a: Node)
      ensures Reach(a, a)
    {
      assert WalkFromTo([a], a, a);
    }

    lemma ReachTrans(a: Node, b: Node, c: Node)
      requires Reach(a, b) && Reach(b, c)
      ensures Reach(a, c)
    {
      var p :| WalkFromTo(p, a, b);
      var q :| WalkFromTo(q, b, c);
      var r := p + q[1..];
      forall i | 0 <= i < |r| - 1 ensures Edge(r[i], r[i+1]) {
        if i >= |p| - 1 {
          assert r[i] == q[i - |p| + 1] && r[i+1] == q[i - |p| + 2];
        }
      }
      assert WalkFromTo(r, a, c);
    }

    lemma ReachEdge(a: Node, b: Node)
      requires Edge(a, b)
      ensures Reach(a, b)
    {
      assert WalkFromTo([a, b], a, b);
    }

    lemma ReachStep(a: Node, b: Node, c: Node)
      requires Reach(a, b) && Edge(b, c)
      ensures Reach(a, c)
    {
      ReachEdge(b, c);
      ReachTrans(a, b, c);
    }

    lemma {:induction false} ClosedWalkStays(s: set<Node>, p: seq<Node>, i: nat)
      requires Closed(s) && IsWalk(p) && p[0] in s && i < |p|
      ensures p[i] in s
    {
      if i > 0 {
        ClosedWalkStays(s, p, i - 1);
        assert Edge(p[i-1], p[i]);
      }
    }

    lemma ClosedReach(s: set<Node>, a: Node, b: Node)
      requires Closed(s) && a in s && Reach(a, b)
      ensures b in s
    {
      var p :| WalkFromTo(p, a, b);
      ClosedWalkStays(s, p, |p| - 1);
    }

    /** Every position of a closed walk lies on a cycle. */
    lemma ClosedWalkOnCycle(p: seq<Node>)
      requires ClosedWalk(p)
      ensures OnCycle(p[0])
    {
      assert Edge(p[0], p[1]);
      assert WalkFromTo(p[1..], p[1], p[0]);
    }

    lemma ClosedWalkMutual(p: seq<Node>, k: nat)
      requires ClosedWalk(p) && k < |p|
      ensures Mutual(p[0], p[k])
    {
      assert WalkFromTo(p[..k+1], p[0], p[k]);
      assert WalkFromTo(p[k..], p[k], p[0]);
    }

    lemma OnCycleClosedWalk(a: Node)
      requires OnCycle(a)
      ensures exists p :: ClosedWalk(p) && p[0] == a
    {
      var m :| Edge(a, m) && Reach(m, a);
      var q :| WalkFromTo(q, m, a);
      var p := [a] + q;
      assert ClosedWalk(p);
    }
  }
}
