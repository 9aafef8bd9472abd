/** `scripts/check-import-cycles.ts`: strongly connected components of the import graph. */
module ImportCycles {
  import opened Sequences
  import opened Digraphs
  import opened TarjanInvariant

  ghost predicate VisitingState(
    g: Graph, node: Node, before: Search, lowBefore: map<Node, nat>, seen: seq<Node>, s: Search, low: map<Node, nat>)
  {
    && WellIndexed(g, s)
    && Extends(Push(before, node), s)
    && s.active == before.active + {node}
    && (forall n :: n in lowBefore ==> n in low && low[n] == lowBefore[n])
    && node in low && low[node] <= s.index[node]
    && LowReached(g, s, node, low[node])
    && |before.stack| < |s.stack| && s.stack[|before.stack|] == node
    && SeenSoFar(g, s, |before.stack|, seen, low[node])
  }

  ghost predicate VisitedState(
    g: Graph, node: Node, before: Search, lowBefore: map<Node, nat>, s: Search, low: map<Node, nat>)
  {
    && WellIndexed(g, s)
    && Extends(before, s)
    && s.active == before.active
    && (forall n :: n in lowBefore ==> n in low && low[n] == lowBefore[n])
    && node in s.index && s.index[node] == before.next
    && node in low && low[node] <= s.index[node]
    && (if node in s.stack then LowReached(g, s, node, low[node]) else low[node] == s.index[node])
    && LowBound(g, s, |before.stack|, |before.stack|, low[node])
  }

  class ComponentSearch {
    const g: Graph
    /** `left.localeCompare(right) <= 0` */
    const leq: (Node, Node) -> bool

    var nextIndex: nat
    var stack: seq<Node>
    var onStack: set<Node>
    var indexByNode: map<Node, nat>
    var lowLinkByNode: map<Node, nat>
    var components: seq<seq<Node>>
    ghost var active: set<Node>

    ghost function View(): Search
      reads this
    {
      Search(indexByNode, nextIndex, stack, active, components)
    }

    ghost predicate Valid()
      reads this
    {
      && Inv(g, View())
      && onStack == Elements(stack)
      && lowLinkByNode.Keys == indexByNode.Keys
      && forall c :: c in components && TotalPreorder(leq) ==> SortedBy(leq, c)
    }

    constructor (g: Graph, leq: (Node, Node) -> bool)
      ensures Valid() && this.g == g && this.leq == leq
      ensures indexByNode == map[] && stack == [] && active == {} && components == []
    {
      this.g, this.leq := g, leq;
      nextIndex, stack, onStack := 0, [], {};
      indexByNode, lowLinkByNode, components, active := map[], map[], [], {};
      new;
      assert View().Done() == {};
    }

    /** Pops down to `node`; an empty name on the way is the "stack underflow" throw. */
    method PopComponent(node: Node, ghost k: nat) returns (ok: bool, component: seq<Node>)
      requires NoDuplicates(stack) && onStack == Elements(stack)
      requires k < |stack| && stack[k] == node
      modifies `stack, `onStack
      ensures ok <==> "" !in old(stack)[k..]
      ensures ok ==> stack == old(stack)[..k] && onStack == Elements(stack)
      ensures ok ==> multiset(component) == multiset(old(stack)[k..])
    {
      hide NoDuplicates;
      component := [];
      ghost var all, top := stack, |stack|;
      assert all[..top] == all;
      while true
        invariant k < top <= |all| && stack == all[..top]
        invariant onStack == Elements(stack)
        invariant multiset(component) == multiset(all[top..])
        invariant "" !in all[top..]
        decreases top
      {
        var current := if stack == [] then "" else stack[|stack| - 1];
        stack := if stack == [] then [] else stack[..|stack| - 1];
        top := top - 1;
        PopOne(all, top);
        if current == "" {
          assert all[k..][top - k] == "";
          return false, component;
        }
        onStack := onStack - {current};
        component := component + [current];
        if current == node {
          return true, component;
        }
      }
    }

    /** Between two successors of `node`: those in `seen` have been looked at. */
    ghost predicate Visiting(node: Node, before: Search, lowBefore: map<Node, nat>, seen: seq<Node>)
      reads this
    {
      Valid() && VisitingState(g, node, before, lowBefore, seen, View(), lowLinkByNode)
    }

    /** A successor without an index: visit it and take over its low link. */
    method Descend(node: Node, next: Node, ghost before: Search, ghost lowBefore: map<Node, nat>, ghost seen: seq<Node>)
      returns (ok: bool)
      requires Visiting(node, before, lowBefore, seen) && g.Edge(node, next) && next !in indexByNode
      requires forall a :: a in before.active ==> g.Reach(a, node)
      requires lowBefore.Keys == before.index.Keys && node !in before.index
      modifies this
      decreases g.Nodes() - indexByNode.Keys, 1
      ensures !ok ==> "" in g.Nodes()
      ensures ok ==> Visiting(node, before, lowBefore, seen + [next])
      ensures ok ==> old(indexByNode).Keys <= indexByNode.Keys
    {
      hide Inv, TotalPreorder, SortedBy, VisitedState, LowBound, LowReached, SeenSoFar, Extends, Graph.Reach;
      ghost var s, lows := View(), lowLinkByNode;
      EdgeTarget(g, node, next);
      g.ReachEdge(node, next);
      forall a | a in active ensures g.Reach(a, next) {
        if a != node { g.ReachStep(a, node, next); }
      }
      ok := Visit(next);
      if !ok { return; }
      DescendStep(g, node, next, before, lowBefore, seen, s, lows, View(), lowLinkByNode);
      lowLinkByNode := lowLinkByNode[node := Min(lowLinkByNode[node], lowLinkByNode[next])];
    }

    /** The body of the loop over `graph.get(node)`. */
    method LookAt(node: Node, next: Node, ghost before: Search, ghost lowBefore: map<Node, nat>, ghost seen: seq<Node>)
      returns (ok: bool)
      requires Visiting(node, before, lowBefore, seen) && g.Edge(node, next)
      requires forall a :: a in before.active ==> g.Reach(a, node)
      requires lowBefore.Keys == before.index.Keys && node !in before.index
      modifies this
      decreases g.Nodes() - indexByNode.Keys, 2
      ensures !ok ==> "" in g.Nodes()
      ensures ok ==> Visiting(node, before, lowBefore, seen + [next])
      ensures ok ==> old(indexByNode).Keys <= indexByNode.Keys
    {
      VisitingIndexed(g, node, before, lowBefore, seen, View(), lowLinkByNode);
      hide Inv, TotalPreorder, SortedBy, VisitingState, Graph.Reach, WellIndexed;
      ghost var s, low := View(), lowLinkByNode;
      if next !in indexByNode {
        ok := Descend(node, next, before, lowBefore, seen);
      } else if next in onStack {
        LookupStep(g, node, next, before, lowBefore, seen, s, low, true);
        lowLinkByNode := lowLinkByNode[node := Min(lowLinkByNode[node], indexByNode[next])];
        ok := true;
      } else {
        LookupStep(g, node, next, before, lowBefore, seen, s, low, false);
        ok := true;
      }
    }

    /** What a returned visit promises about the state it was called in. */
    ghost predicate Visited(node: Node, before: Search, lowBefore: map<Node, nat>)
      reads this
    {
      Valid() && VisitedState(g, node, before, lowBefore, View(), lowLinkByNode)
    }

    /** Before the loop: number the node and push it. */
    method Enter(node: Node)
      requires Valid() && node in g.Nodes() && node !in indexByNode
      requires forall a :: a in active ==> g.Reach(a, node)
      modifies this
      ensures Visiting(node, old(View()), old(lowLinkByNode), [])
      ensures indexByNode.Keys == old(indexByNode).Keys + {node}
    {
      hide StackLinked, Explored, DoneOk, TotalPreorder, SortedBy, LowBound, SeenSoFar, Graph.Reach;
      ghost var before := View();
      PushKeeps(g, before, node);
      g.ReachRefl(node);
      indexByNode := indexByNode[node := nextIndex];
      lowLinkByNode := lowLinkByNode[node := nextIndex];
      nextIndex := nextIndex + 1;
      stack := stack + [node];
      onStack := onStack + {node};
      active := active + {node};
      assert View() == Push(before, node);
      assert LowReached(g, View(), node, lowLinkByNode[node]) by { assert node in stack; }
      NothingSeen(g, View(), |before.stack|, lowLinkByNode[node]);
    }

    /** After the loop, with a low link under the own index: the node stays on the stack. */
    ghost method Leave(node: Node, before: Search, lowBefore: map<Node, nat>)
      requires Visiting(node, before, lowBefore, g.Successors(node))
      requires WellIndexed(g, before) && node !in before.index
      requires lowLinkByNode[node] != indexByNode[node]
      modifies `active
      ensures Visited(node, before, lowBefore)
    {
      hide StackLinked, Explored, DoneOk, TotalPreorder, SortedBy, SeenSoFar, LowReached, Graph.Reach;
      var s, k, low := View(), |before.stack|, lowLinkByNode[node];
      AllSeen(g, s, k, low);
      LeaveKeeps(g, s, k, low);
      active := active - {node};
      assert View() == TarjanInvariant.Leave(s, node);
      LeaveBounds(g, s, node, k, low);
    }

    /** Pops the class rooted at height k, and reports it unless it is trivial. */
    method PopClass(node: Node, ghost k: nat) returns (ok: bool)
      requires Valid() && AtRoot(g, View(), k) && stack[k] == node
      modifies `stack, `onStack, `components, `active
      ensures !ok ==> "" in g.Nodes()
      ensures ok ==> Valid() && View() == Pop(old(View()), k, components)
    {
      hide StackLinked, Explored, DoneOk, TotalPreorder, SortedBy, LowBound, Graph.Reach;
      ghost var s := View();
      StackNoDuplicates(g, s);
      var component;
      ok, component := PopComponent(node, k);
      if !ok {
        StackWithin(g, s);
        return;
      }
      if |component| > 1 || node in g.Successors(node) {
        components := components + [ToSorted(leq, component)];
        if TotalPreorder(leq) { ToSortedSorts(leq, component); }
      }
      active := active - {node};
      PopReports(g, s, k, component, components);
      PopKeeps(g, s, k, components);
      assert View() == Pop(s, k, components);
    }

    /** After the loop, at the root of a class. */
    method CloseRoot(node: Node, ghost before: Search, ghost lowBefore: map<Node, nat>)
      returns (ok: bool)
      requires Visiting(node, before, lowBefore, g.Successors(node))
      requires WellIndexed(g, before) && node !in before.index
      requires lowLinkByNode[node] == indexByNode[node]
      modifies `stack, `onStack, `components, `active
      ensures !ok ==> "" in g.Nodes()
      ensures ok ==> Visited(node, before, lowBefore)
    {
      hide StackLinked, Explored, DoneOk, TotalPreorder, SortedBy, LowBound, SeenSoFar, LowReached, Graph.Reach;
      ghost var s, k := View(), |before.stack|;
      AllSeen(g, s, k, lowLinkByNode[node]);
      NoActiveAbove(g, before, s, k);
      ok := PopClass(node, k);
      if ok {
        PopBounds(g, before, s, node, k, components);
      }
    }

    /** The loop over `graph.get(node)`. */
    method LookAtAll(node: Node, ghost before: Search, ghost lowBefore: map<Node, nat>) returns (ok: bool)
      requires Visiting(node, before, lowBefore, [])
      requires forall a :: a in before.active ==> g.Reach(a, node)
      requires lowBefore.Keys == before.index.Keys && node !in before.index
      modifies this
      decreases g.Nodes() - indexByNode.Keys, 3
      ensures !ok ==> "" in g.Nodes()
      ensures ok ==> Visiting(node, before, lowBefore, g.Successors(node))
    {
      hide Inv, TotalPreorder, SortedBy, VisitingState, Graph.Reach, WellIndexed;
      var successors := g.Successors(node);
      for i := 0 to |successors|
        invariant Visiting(node, before, lowBefore, successors[..i])
        invariant old(indexByNode).Keys <= indexByNode.Keys
      {
        assert successors[..i + 1] == successors[..i] + [successors[i]];
        assert g.Edge(node, successors[i]);
        ok := LookAt(node, successors[i], before, lowBefore, successors[..i]);
        if !ok { return; }
      }
      assert successors[..|successors|] == successors;
      ok := true;
    }

    method Visit(node: Node) returns (ok: bool)
      requires Valid() && node in g.Nodes() && node !in indexByNode
      requires forall a :: a in active ==> g.Reach(a, node)
      modifies this
      decreases g.Nodes() - indexByNode.Keys, 0
      ensures !ok ==> "" in g.Nodes()
      ensures ok ==> Visited(node, old(View()), old(lowLinkByNode))
    {
      ghost var before, lowBefore := View(), lowLinkByNode;
      assert WellIndexed(g, before);
      hide Inv, TotalPreorder, SortedBy, VisitingState, Visited, Graph.Reach, WellIndexed;
      Enter(node);
      ok := LookAtAll(node, before, lowBefore);
      if !ok { return; }
      if lowLinkByNode[node] != indexByNode[node] {
        Leave(node, before, lowBefore);
        return true;
      }
      ok := CloseRoot(node, before, lowBefore);
    }
  }

  lemma PopOne(all: seq<Node>, top: nat)
    requires NoDuplicates(all) && top < |all|
    ensures all[..top + 1] == all[..top] + [all[top]]
    ensures all[top..] == [all[top]] + all[top + 1..]
    ensures Elements(all[..top + 1]) - {all[top]} == Elements(all[..top])
    ensures multiset(all[top..]) == multiset(all[top + 1..]) + multiset{all[top]}
  {
    assert all[..top + 1] == all[..top] + [all[top]];
  }

  function Min(a: nat, b: nat): nat { if b < a then b else a }

  lemma NothingSeen(g: Graph, s: Search, k: nat, low: nat)
    requires WellIndexed(g, s) && k + 1 == |s.stack|
    ensures SeenSoFar(g, s, k, [], low)
  {
  }

  lemma EdgeTarget(g: Graph, a: Node, b: Node)
    requires g.Edge(a, b)
    ensures b in g.Nodes()
  {
    assert a in g.edges.Keys && b in g.edges[a];
  }

  lemma StackWithin(g: Graph, s: Search)
    requires WellIndexed(g, s)
    ensures forall n :: n in s.stack ==> n in g.Nodes()
  {
  }

  lemma LowReachedAfterVisit(g: Graph, s: Search, t: Search, node: Node, next: Node, low: nat, lowNext: nat)
    requires WellIndexed(g, s) && WellIndexed(g, t) && Extends(s, t)
    requires node in s.index && low <= s.index[node] && LowReached(g, s, node, low)
    requires g.Edge(node, next) && next in t.index && t.index[next] == s.next
    requires if next in t.stack then LowReached(g, t, next, lowNext) else lowNext == t.index[next]
    ensures LowReached(g, t, node, Min(low, lowNext))
  {
    if lowNext < low {
      var y :| y in t.stack && y in t.index && t.index[y] == lowNext && g.Reach(next, y);
      g.ReachEdge(node, next);
      g.ReachTrans(node, next, y);
    } else {
      var y :| y in s.stack && y in s.index && s.index[y] == low && g.Reach(node, y);
      assert y in t.stack;
    }
  }

  /** Taking over the low link of a visited successor. */
  lemma DescendStep(
    g: Graph, node: Node, next: Node, before: Search, lowBefore: map<Node, nat>, seen: seq<Node>,
    s: Search, low: map<Node, nat>, t: Search, lowT: map<Node, nat>)
    requires VisitingState(g, node, before, lowBefore, seen, s, low) && g.Edge(node, next)
    requires next !in s.index && low.Keys == s.index.Keys
    requires node !in lowBefore
    requires VisitedState(g, next, s, low, t, lowT)
    ensures VisitingState(g, node, before, lowBefore, seen + [next], t,
              lowT[node := Min(lowT[node], lowT[next])])
    ensures s.index.Keys <= t.index.Keys && next in lowT
  {
    hide LowBound, LowReached, SeenSoFar, Graph.Reach;
    var k := |before.stack|;
    SeenAfterVisit(g, s, t, k, seen, next, low[node], lowT[next]);
    LowReachedAfterVisit(g, s, t, node, next, low[node], lowT[next]);
  }

  lemma VisitingIndexed(
    g: Graph, node: Node, before: Search, lowBefore: map<Node, nat>, seen: seq<Node>, s: Search, low: map<Node, nat>)
    requires VisitingState(g, node, before, lowBefore, seen, s, low)
    ensures node in low && node in s.index && forall n :: n in s.stack ==> n in s.index
  {
    hide SeenSoFar, Graph.Reach;
  }

  /** A successor that already has an index: its index counts while it is on the stack. */
  lemma LookupStep(
    g: Graph, node: Node, next: Node, before: Search, lowBefore: map<Node, nat>, seen: seq<Node>,
    s: Search, low: map<Node, nat>, onStack: bool)
    requires VisitingState(g, node, before, lowBefore, seen, s, low) && g.Edge(node, next)
    requires next in s.index && (onStack <==> next in s.stack) && node !in lowBefore
    ensures VisitingState(g, node, before, lowBefore, seen + [next], s,
              if onStack then low[node := Min(low[node], s.index[next])] else low)
  {
    hide SeenSoFar, LowReached, Extends, Graph.Reach;
    var k := |before.stack|;
    if onStack {
      g.ReachEdge(node, next);
      SeenAfterLookup(g, s, k, seen, next, low[node], Min(low[node], s.index[next]));
      LowReachedAfterLookup(g, s, node, next, low[node]);
    } else {
      SeenAfterLookup(g, s, k, seen, next, low[node], low[node]);
    }
  }

  /** What a returned visit means for the caller's loop. */
  lemma VisitedIndexed(g: Graph, node: Node, before: Search, lowBefore: map<Node, nat>, s: Search, low: map<Node, nat>)
    requires VisitedState(g, node, before, lowBefore, s, low)
    ensures s.active == before.active && node in s.index && before.index.Keys <= s.index.Keys
  {
    hide WellIndexed, LowReached, LowBound, Graph.Reach;
  }

  lemma LowReachedAfterLookup(g: Graph, s: Search, node: Node, next: Node, low: nat)
    requires WellIndexed(g, s) && LowReached(g, s, node, low) && g.Reach(node, next) && next in s.stack
    ensures LowReached(g, s, node, Min(low, s.index[next]))
  {
  }

  lemma NoActiveAbove(g: Graph, before: Search, s: Search, k: nat)
    requires WellIndexed(g, before) && WellIndexed(g, s)
    requires k == |before.stack| < |s.stack| && before.stack <= s.stack
    requires s.active == before.active + {s.stack[k]}
    ensures forall i :: k < i < |s.stack| ==> s.stack[i] !in s.active
  {
    forall i | k < i < |s.stack| ensures s.stack[i] !in s.active {
      assert s.index[s.stack[k]] < s.index[s.stack[i]];
      forall j | 0 <= j < k ensures before.stack[j] != s.stack[i] {
        assert s.stack[j] == before.stack[j];
        assert s.index[s.stack[j]] < s.index[s.stack[i]];
      }
    }
  }

  lemma LeaveBounds(g: Graph, s: Search, node: Node, k: nat, low: nat)
    requires WellIndexed(g, s) && k <= |s.stack|
    ensures LowReached(g, s, node, low) ==> LowReached(g, TarjanInvariant.Leave(s, node), node, low)
    ensures LowBound(g, s, k, k, low) ==> LowBound(g, TarjanInvariant.Leave(s, node), k, k, low)
  {
  }

  lemma PopBounds(g: Graph, before: Search, s: Search, node: Node, k: nat, components: seq<seq<Node>>)
    requires WellIndexed(g, s) && WellIndexed(g, before) && Extends(Push(before, node), s)
    requires node !in before.index && k == |before.stack| < |s.stack| && s.stack[k] == node
    ensures Extends(before, Pop(s, k, components)) && s.index[node] == before.next
    ensures node !in Pop(s, k, components).stack
    ensures forall low: nat {:trigger LowBound(g, Pop(s, k, components), k, k, low)} ::
              LowBound(g, Pop(s, k, components), k, k, low)
  {
    assert s.stack[..k] == before.stack;
  }

  lemma PopReports(g: Graph, s: Search, k: nat, component: seq<Node>, after: seq<seq<Node>>)
    requires k < |s.stack| && multiset(component) == multiset(s.stack[k..])
    requires if |component| > 1 || g.Edge(s.stack[k], s.stack[k])
             then exists c :: multiset(c) == multiset(component) && after == s.components + [c]
             else after == s.components
    ensures Reported(g, s.components, after, s.stack[k..])
  {
    SamePermutationMembers(component, s.stack[k..]);
  }
}
