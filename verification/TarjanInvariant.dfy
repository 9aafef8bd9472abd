/** The state of the component search, what every step of it keeps, and why. */
module TarjanInvariant {
  import opened Sequences
  import opened Digraphs

  /**
   * The closure variables of `collectStronglyConnectedComponents` as a value.
   * `active` is the set of nodes whose visit has not returned yet.
   */
  datatype Search = Search(
    index: map<Node, nat>,
    next: nat,
    stack: seq<Node>,
    active: set<Node>,
    components: seq<seq<Node>>)
  {
    ghost function Done(): set<Node> {
      index.Keys - Elements(stack)
    }
  }

  /** Indices grow along the stack, and only indexed nodes are on it. */
  ghost predicate WellIndexed(g: Graph, s: Search) {
    && s.index.Keys <= g.Nodes()
    && (forall n :: n in s.index ==> s.index[n] < s.next)
    && (forall n :: n in s.stack ==> n in s.index)
    && (forall i, j {:trigger s.index[s.stack[i]], s.index[s.stack[j]]} ::
        0 <= i < j < |s.stack| ==> s.index[s.stack[i]] < s.index[s.stack[j]])
    && (forall n :: n in s.active ==> n in s.stack)
  }

  /** A node on the stack reaches everything above it, and an active node at or below it. */
  ghost predicate StackLinked(g: Graph, s: Search) {
    && (forall i, j {:trigger g.Reach(s.stack[i], s.stack[j])} ::
        0 <= i <= j < |s.stack| ==> g.Reach(s.stack[i], s.stack[j]))
    && (forall i {:trigger ReachesActive(g, s, i)} :: 0 <= i < |s.stack| ==> ReachesActive(g, s, i))
  }

  ghost predicate ReachesActive(g: Graph, s: Search, i: nat)
    requires i < |s.stack|
  {
    exists j :: 0 <= j <= i && s.stack[j] in s.active && g.Reach(s.stack[i], s.stack[j])
  }

  /** Once a visit has returned, every successor has been indexed. */
  ghost predicate Explored(g: Graph, s: Search) {
    forall a, b :: a in s.index && a !in s.active && g.Edge(a, b) ==> b in s.index
  }

  ghost predicate DoneOk(g: Graph, s: Search) {
    && g.Closed(s.Done())
    && "" !in s.Done()
    && ComponentsOf(g, s.components, s.Done())
  }

  ghost predicate Inv(g: Graph, s: Search) {
    && WellIndexed(g, s)
    && StackLinked(g, s)
    && Explored(g, s)
    && DoneOk(g, s)
  }

  // ----- what the reported components are, within a set of finished nodes -----

  /** c lists, once each, the members of one strongly connected class. */
  ghost predicate IsClass(g: Graph, c: seq<Node>) {
    && c != []
    && NoDuplicates(c)
    && (forall a, b :: a in c ==> (b in c <==> g.Mutual(a, b)))
  }

  ghost predicate ComponentsOf(g: Graph, components: seq<seq<Node>>, done: set<Node>) {
    && (forall c :: c in components ==> IsClass(g, c) && Elements(c) <= done)
    && (forall c, a :: c in components && a in c ==> g.OnCycle(a))
    && (forall i, j, a :: 0 <= i < j < |components| && a in components[i] ==> a !in components[j])
    && (forall a :: a in done && g.OnCycle(a) ==> exists c :: c in components && a in c)
  }

  // ----- steps -----

  ghost function Push(s: Search, node: Node): Search {
    Search(s.index[node := s.next], s.next + 1, s.stack + [node], s.active + {node}, s.components)
  }

  lemma PushKeeps(g: Graph, s: Search, node: Node)
    requires Inv(g, s) && node in g.Nodes() && node !in s.index
    requires forall a :: a in s.active ==> g.Reach(a, node)
    ensures Inv(g, Push(s, node))
  {
    var t := Push(s, node);
    var k := |s.stack|;
    assert t.Done() == s.Done();
    forall i, j | 0 <= i <= j < |t.stack| ensures g.Reach(t.stack[i], t.stack[j]) {
      if i == k {
        g.ReachRefl(node);
      } else if j == k {
        assert ReachesActive(g, s, i);
        var l :| 0 <= l <= i && s.stack[l] in s.active && g.Reach(s.stack[i], s.stack[l]);
        g.ReachTrans(s.stack[i], s.stack[l], node);
      }
    }
    forall i | 0 <= i < |t.stack| ensures ReachesActive(g, t, i) {
      if i == k {
        g.ReachRefl(node);
        assert t.stack[k] in t.active;
      } else {
        assert ReachesActive(g, s, i);
        var l :| 0 <= l <= i && s.stack[l] in s.active && g.Reach(s.stack[i], s.stack[l]);
        assert t.stack[l] in t.active && t.stack[i] == s.stack[i];
      }
    }
  }

  /** What a visit leaves as it found: the stack below it and the indices given before. */
  ghost predicate Extends(s: Search, t: Search) {
    && s.stack <= t.stack
    && s.next <= t.next
    && (forall n :: n in s.index ==> n in t.index && t.index[n] == s.index[n])
  }

  /** Edges from height `from` up to a node under height `below` lead to an index of at least `low`. */
  ghost predicate LowBound(g: Graph, s: Search, below: nat, from: nat, low: nat)
    requires below <= |s.stack|
    requires forall n :: n in s.stack ==> n in s.index
  {
    forall i, j {:trigger g.Edge(s.stack[i], s.stack[j])} :: 0 <= j < below && from <= i < |s.stack| && g.Edge(s.stack[i], s.stack[j])
      ==> low <= s.index[s.stack[j]]
  }

  /** `low` is the index of a node on the stack that `node` reaches. */
  ghost predicate LowReached(g: Graph, s: Search, node: Node, low: nat) {
    exists y :: y in s.stack && y in s.index && s.index[y] == low && g.Reach(node, y)
  }

  /** `node`, at height k, has had all its successors looked at. */
  ghost predicate SuccessorsSeen(g: Graph, s: Search, k: nat, low: nat)
    requires k < |s.stack|
    requires forall n :: n in s.stack ==> n in s.index
  {
    && (forall b :: g.Edge(s.stack[k], b) ==> b in s.index)
    && LowBound(g, s, k, k, low)
  }

  /** The first i successors of the node at height k have been looked at. */
  ghost predicate SeenSoFar(g: Graph, s: Search, k: nat, seen: seq<Node>, low: nat)
    requires k < |s.stack|
    requires forall n :: n in s.stack ==> n in s.index
  {
    && LowBound(g, s, k, k + 1, low)
    && (forall b :: b in seen ==> b in s.index)
    && (forall b, j :: b in seen && 0 <= j < k && s.stack[j] == b ==> low <= s.index[b])
  }

  /** Visiting one more successor keeps the bounds, for the smaller of the two low links. */
  lemma SeenAfterVisit(g: Graph, s: Search, t: Search, k: nat, seen: seq<Node>, next: Node, low: nat, lowNext: nat)
    requires WellIndexed(g, s) && WellIndexed(g, t) && Extends(s, t) && k < |s.stack|
    requires SeenSoFar(g, s, k, seen, low) && next !in s.index && next in t.index
    requires LowBound(g, t, |s.stack|, |s.stack|, lowNext)
    ensures SeenSoFar(g, t, k, seen + [next], if lowNext < low then lowNext else low)
  {
    var m := if lowNext < low then lowNext else low;
    forall i, j | 0 <= j < k && k + 1 <= i < |t.stack| && g.Edge(t.stack[i], t.stack[j])
      ensures m <= t.index[t.stack[j]]
    {
      assert t.stack[j] == s.stack[j];
      if i < |s.stack| {
        assert t.stack[i] == s.stack[i];
      }
    }
    forall b, j | b in seen + [next] && 0 <= j < k && t.stack[j] == b ensures m <= t.index[b] {
      assert s.stack[j] == b;
      assert b in s.index;
    }
  }

  lemma SeenAfterLookup(g: Graph, s: Search, k: nat, seen: seq<Node>, next: Node, low: nat, m: nat)
    requires WellIndexed(g, s) && k < |s.stack|
    requires SeenSoFar(g, s, k, seen, low) && next in s.index && m <= low
    requires next in s.stack ==> m <= s.index[next]
    ensures SeenSoFar(g, s, k, seen + [next], m)
  {
  }

  lemma AllSeen(g: Graph, s: Search, k: nat, low: nat)
    requires WellIndexed(g, s) && k < |s.stack|
    requires SeenSoFar(g, s, k, g.Successors(s.stack[k]), low)
    ensures SuccessorsSeen(g, s, k, low)
  {
    var node := s.stack[k];
    forall i, j | 0 <= j < k && k <= i < |s.stack| && g.Edge(s.stack[i], s.stack[j])
      ensures low <= s.index[s.stack[j]]
    {
      if i == k {
        assert s.stack[j] in g.Successors(node);
      }
    }
  }

  ghost function Leave(s: Search, node: Node): Search {
    s.(active := s.active - {node})
  }

  lemma StackPosition(g: Graph, s: Search, k: nat, y: Node)
    requires WellIndexed(g, s) && k < |s.stack| && y in s.stack
    requires s.index[y] < s.index[s.stack[k]]
    ensures exists j :: 0 <= j < k && s.stack[j] == y
  {
    var j :| 0 <= j < |s.stack| && s.stack[j] == y;
    assert !(k < j);
  }

  /** A node with a low link under its own index reaches an active node strictly below it. */
  lemma LowReachesBelow(g: Graph, s: Search, k: nat, low: nat) returns (l: nat)
    requires WellIndexed(g, s) && StackLinked(g, s) && k < |s.stack|
    requires low < s.index[s.stack[k]] && LowReached(g, s, s.stack[k], low)
    ensures l < k && s.stack[l] in s.active && g.Reach(s.stack[k], s.stack[l])
  {
    var y :| y in s.stack && y in s.index && s.index[y] == low && g.Reach(s.stack[k], y);
    StackPosition(g, s, k, y);
    var j :| 0 <= j < k && s.stack[j] == y;
    assert ReachesActive(g, s, j);
    l :| 0 <= l <= j && s.stack[l] in s.active && g.Reach(s.stack[j], s.stack[l]);
    g.ReachTrans(s.stack[k], y, s.stack[l]);
  }

  lemma LeaveRelinks(g: Graph, s: Search, k: nat, l: nat, i: nat)
    requires WellIndexed(g, s) && StackLinked(g, s) && l < k < |s.stack|
    requires s.stack[l] in s.active && g.Reach(s.stack[k], s.stack[l])
    requires i < |s.stack|
    ensures ReachesActive(g, Leave(s, s.stack[k]), i)
  {
    var t := Leave(s, s.stack[k]);
    assert s.index[s.stack[l]] < s.index[s.stack[k]];
    assert ReachesActive(g, s, i);
    var m :| 0 <= m <= i && s.stack[m] in s.active && g.Reach(s.stack[i], s.stack[m]);
    if s.stack[m] == s.stack[k] {
      assert m == k;
      g.ReachTrans(s.stack[i], s.stack[k], s.stack[l]);
      assert t.stack[l] in t.active;
    } else {
      assert t.stack[m] in t.active;
    }
  }

  /** Returning with a low link under the own index: the node stays on the stack. */
  lemma LeaveKeeps(g: Graph, s: Search, k: nat, low: nat)
    requires Inv(g, s) && k < |s.stack| && SuccessorsSeen(g, s, k, low)
    requires low < s.index[s.stack[k]] && LowReached(g, s, s.stack[k], low)
    ensures Inv(g, Leave(s, s.stack[k]))
  {
    var t := Leave(s, s.stack[k]);
    assert t.Done() == s.Done();
    var l := LowReachesBelow(g, s, k, low);
    forall i | 0 <= i < |t.stack| ensures ReachesActive(g, t, i) {
      LeaveRelinks(g, s, k, l, i);
    }
    assert StackLinked(g, t);
  }

  /** The root of a class: everything from height k up is one whole class. */
  ghost predicate AtRoot(g: Graph, s: Search, k: nat) {
    && k < |s.stack|
    && (forall n :: n in s.stack ==> n in s.index)
    && SuccessorsSeen(g, s, k, s.index[s.stack[k]])
    && s.stack[k] in s.active
    && (forall i :: k < i < |s.stack| ==> s.stack[i] !in s.active)
  }

  /** From height k up, edges lead to height k up or to finished nodes only. */
  lemma RootTailClosed(g: Graph, s: Search, k: nat)
    requires Inv(g, s) && AtRoot(g, s, k)
    ensures g.Closed(s.Done() + Elements(s.stack[k..]))
  {
    var tail := s.stack[k..];
    forall a, b | a in s.Done() + Elements(tail) && g.Edge(a, b)
      ensures b in s.Done() + Elements(tail)
    {
      if a in tail {
        var i :| 0 <= i < |tail| && tail[i] == a;
        assert s.stack[k + i] == a;
        assert b in s.index;
      }
    }
  }

  lemma RootTailReachesRoot(g: Graph, s: Search, k: nat, i: nat)
    requires Inv(g, s) && AtRoot(g, s, k) && k <= i < |s.stack|
    ensures g.Mutual(s.stack[i], s.stack[k])
  {
    var tail := s.stack[k..];
    assert ReachesActive(g, s, i);
    var j :| 0 <= j <= i && s.stack[j] in s.active && g.Reach(s.stack[i], s.stack[j]);
    RootTailClosed(g, s, k);
    assert tail[i - k] == s.stack[i];
    g.ClosedReach(s.Done() + Elements(tail), s.stack[i], s.stack[j]);
    assert s.stack[j] in tail;
    var l :| 0 <= l < |tail| && tail[l] == s.stack[j];
    assert s.stack[k + l] == s.stack[j];
    assert j == k + l;
    assert j == k;
  }

  lemma StackNoDuplicates(g: Graph, s: Search)
    requires WellIndexed(g, s)
    ensures NoDuplicates(s.stack)
  {
    forall i, j | 0 <= i < j < |s.stack| ensures s.stack[i] != s.stack[j] {
      assert s.index[s.stack[i]] < s.index[s.stack[j]];
    }
  }

  lemma RootTailConnected(g: Graph, s: Search, k: nat, i: nat, j: nat)
    requires Inv(g, s) && AtRoot(g, s, k) && k <= i < |s.stack| && k <= j < |s.stack|
    ensures g.Mutual(s.stack[i], s.stack[j])
  {
    RootTailReachesRoot(g, s, k, i);
    RootTailReachesRoot(g, s, k, j);
    g.ReachTrans(s.stack[i], s.stack[k], s.stack[j]);
    g.ReachTrans(s.stack[j], s.stack[k], s.stack[i]);
  }

  lemma RootTailMaximal(g: Graph, s: Search, k: nat, a: Node, b: Node)
    requires Inv(g, s) && AtRoot(g, s, k) && a in s.stack[k..] && g.Mutual(a, b)
    ensures b in s.stack[k..]
  {
    RootTailClosed(g, s, k);
    g.ClosedReach(s.Done() + Elements(s.stack[k..]), a, b);
    assert a !in s.Done();
    if b in s.Done() {
      g.ClosedReach(s.Done(), b, a);
    }
  }

  lemma RootTailIsClass(g: Graph, s: Search, k: nat)
    requires Inv(g, s) && AtRoot(g, s, k)
    ensures IsClass(g, s.stack[k..])
  {
    hide StackLinked, Explored, DoneOk, SuccessorsSeen, Graph.Reach;
    var tail := s.stack[k..];
    forall a, b | a in tail ensures b in tail <==> g.Mutual(a, b) {
      if b in tail {
        var i :| 0 <= i < |tail| && tail[i] == a;
        var j :| 0 <= j < |tail| && tail[j] == b;
        RootTailConnected(g, s, k, k + i, k + j);
      }
      if g.Mutual(a, b) {
        RootTailMaximal(g, s, k, a, b);
      }
    }
    StackNoDuplicates(g, s);
  }

  /** Popping the class: it is reported when it has two members or a self-loop. */
  ghost function Pop(s: Search, k: nat, components: seq<seq<Node>>): Search
    requires k < |s.stack|
  {
    s.(active := s.active - {s.stack[k]}, stack := s.stack[..k], components := components)
  }

  ghost predicate Reported(g: Graph, before: seq<seq<Node>>, after: seq<seq<Node>>, class_: seq<Node>) {
    if |class_| > 1 || (|class_| == 1 && g.Edge(class_[0], class_[0]))
    then exists c :: multiset(c) == multiset(class_) && after == before + [c]
    else after == before
  }

  lemma SingletonOnCycle(g: Graph, c: seq<Node>)
    requires IsClass(g, c) && |c| == 1 && g.OnCycle(c[0])
    ensures g.Edge(c[0], c[0])
  {
    var m :| g.Edge(c[0], m) && g.Reach(m, c[0]);
    g.ReachEdge(c[0], m);
    assert c[0] in c && (m in c <==> g.Mutual(c[0], m));
  }

  lemma ClassNontrivial(g: Graph, c: seq<Node>)
    requires IsClass(g, c)
    ensures (|c| > 1 || g.Edge(c[0], c[0])) <==> forall a :: a in c ==> g.OnCycle(a)
    ensures (|c| > 1 || g.Edge(c[0], c[0])) <==> exists a :: a in c && g.OnCycle(a)
  {
    assert c[0] in c;
    if |c| > 1 || g.Edge(c[0], c[0]) {
      forall a | a in c ensures g.OnCycle(a) {
        if |c| > 1 {
          var b := if a == c[0] then c[1] else c[0];
          assert b in c && a != b;
          assert g.Mutual(a, b);
          var p :| g.WalkFromTo(p, a, b);
          assert g.WalkFromTo(p[1..], p[1], b);
          g.ReachTrans(p[1], b, a);
          assert g.Edge(p[0], p[1]);
        } else {
          assert a == c[0];
          g.ReachRefl(a);
        }
      }
    } else if g.OnCycle(c[0]) {
      SingletonOnCycle(g, c);
    }
  }

  lemma SamePermutationIsClass(g: Graph, c: seq<Node>, d: seq<Node>)
    requires IsClass(g, d) && multiset(c) == multiset(d)
    ensures IsClass(g, c)
  {
    SamePermutationMembers(c, d);
    PermutationKeepsNoDuplicates(c, d);
  }

  lemma ReportKeeps(g: Graph, before: seq<seq<Node>>, after: seq<seq<Node>>, class_: seq<Node>, done: set<Node>)
    requires ComponentsOf(g, before, done) && IsClass(g, class_) && Elements(class_) !! done
    requires Reported(g, before, after, class_)
    ensures ComponentsOf(g, after, done + Elements(class_))
  {
    ClassNontrivial(g, class_);
    assert class_[0] in class_;
    if |class_| > 1 || g.Edge(class_[0], class_[0]) {
      var c :| multiset(c) == multiset(class_) && after == before + [c];
      SamePermutationIsClass(g, c, class_);
      SamePermutationMembers(c, class_);
      assert c in after;
      forall a | a in done + Elements(class_) && g.OnCycle(a) ensures exists d :: d in after && a in d {
        if a in class_ {
          assert a in c;
        } else {
          var d :| d in before && a in d;
          assert d in after;
        }
      }
      forall d | d in after ensures d in before || d == c {}
      forall i, j, a | 0 <= i < j < |after| && a in after[i] ensures a !in after[j] {
        assert after[i] == before[i] && before[i] in before;
        assert Elements(before[i]) <= done;
        assert a in Elements(before[i]);
        assert a in done;
      }
    }
  }

  lemma PopRelinks(g: Graph, s: Search, k: nat, components: seq<seq<Node>>)
    requires WellIndexed(g, s) && StackLinked(g, s) && AtRoot(g, s, k)
    ensures WellIndexed(g, Pop(s, k, components)) && StackLinked(g, Pop(s, k, components))
  {
    var t := Pop(s, k, components);
    forall n | n in t.active ensures n in t.stack {
      var i :| 0 <= i < |s.stack| && s.stack[i] == n;
      assert i < k;
      assert t.stack[i] == n;
    }
    assert WellIndexed(g, t);
    forall i | 0 <= i < |t.stack| ensures ReachesActive(g, t, i) {
      assert ReachesActive(g, s, i);
      var l :| 0 <= l <= i && s.stack[l] in s.active && g.Reach(s.stack[i], s.stack[l]);
      assert s.index[s.stack[l]] < s.index[s.stack[k]];
      assert t.stack[l] in t.active;
    }
    forall i, j | 0 <= i <= j < |t.stack| ensures g.Reach(t.stack[i], t.stack[j]) {
      assert t.stack[i] == s.stack[i] && t.stack[j] == s.stack[j];
    }
  }

  lemma PopDone(g: Graph, s: Search, k: nat, components: seq<seq<Node>>)
    requires WellIndexed(g, s) && k < |s.stack|
    ensures Pop(s, k, components).Done() == s.Done() + Elements(s.stack[k..])
    ensures Elements(s.stack[k..]) !! s.Done()
  {
    var t := Pop(s, k, components);
    var tail := s.stack[k..];
    assert s.stack == t.stack + tail;
    forall i, j | 0 <= i < |t.stack| && 0 <= j < |tail| ensures t.stack[i] != tail[j] {
      assert s.index[s.stack[i]] < s.index[s.stack[k + j]];
    }
  }

  lemma PopKeeps(g: Graph, s: Search, k: nat, components: seq<seq<Node>>)
    requires Inv(g, s) && AtRoot(g, s, k)
    requires "" !in s.stack[k..]
    requires Reported(g, s.components, components, s.stack[k..])
    ensures Inv(g, Pop(s, k, components))
  {
    var t := Pop(s, k, components);
    PopRelinks(g, s, k, components);
    PopDone(g, s, k, components);
    RootTailClosed(g, s, k);
    RootTailIsClass(g, s, k);
    ReportKeeps(g, s.components, components, s.stack[k..], s.Done());
    assert DoneOk(g, t);
    assert Explored(g, t);
  }
}
