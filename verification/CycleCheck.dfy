/** The whole import-cycle check: components, their order, and the accept/reject decision. */
module CycleCheck {
  import opened Results
  import opened Sequences
  import opened Text
  import opened Digraphs
  import opened TarjanInvariant
  import opened ImportCycles
  import opened CycleWitness

  datatype CheckError = StackUnderflow

  /** `cycleSignature` */
  function Signature(leq: (Node, Node) -> bool, files: seq<Node>): string {
    Join(ToSorted(leq, files), "\n")
  }

  /** Larger components first, equal sizes by signature. */
  predicate ComponentLeq(leq: (Node, Node) -> bool, left: seq<Node>, right: seq<Node>) {
    |right| < |left| || (|right| == |left| && leq(Signature(leq, left), Signature(leq, right)))
  }

  /** The report: exactly the non-trivial strongly connected classes, each once. */
  ghost predicate ReportsAllComponents(g: Graph, components: seq<seq<Node>>) {
    ComponentsOf(g, components, g.Nodes())
  }

  /** Every component sorted, larger components first, and components of one size by their names line by line. */
  ghost predicate Ordered(leq: (Node, Node) -> bool, components: seq<seq<Node>>) {
    && (forall c, i, j :: c in components && 0 <= i < j < |c| ==> leq(c[i], c[j]))
    && (forall i, j :: 0 <= i < j < |components| ==> |components[i]| >= |components[j]|)
    && (forall i, j :: 0 <= i < j < |components| && |components[i]| == |components[j]| ==>
          leq(Join(components[i], "\n"), Join(components[j], "\n")))
  }

  lemma SortedIsOrdered(leq: (Node, Node) -> bool, components: seq<seq<Node>>)
    requires forall c :: c in components ==> SortedBy(leq, c)
    requires SortedBy((l, r) => ComponentLeq(leq, l, r), components)
    ensures Ordered(leq, components)
  {
    hide ToSorted, Join;
    forall i, j | 0 <= i < j < |components|
      ensures |components[i]| >= |components[j]|
      ensures |components[i]| == |components[j]| ==> leq(Join(components[i], "\n"), Join(components[j], "\n"))
    {
      assert components[i] in components && components[j] in components;
      SortedUnchanged(leq, components[i]);
      SortedUnchanged(leq, components[j]);
      assert ComponentLeq(leq, components[i], components[j]);
    }
  }

  lemma ComponentLeqIsTotal(leq: (Node, Node) -> bool)
    requires TotalPreorder(leq)
    ensures TotalPreorder((l, r) => ComponentLeq(leq, l, r))
  {
  }

  lemma PermutedComponents(g: Graph, before: seq<seq<Node>>, after: seq<seq<Node>>, done: set<Node>)
    requires ComponentsOf(g, before, done) && multiset(after) == multiset(before)
    ensures ComponentsOf(g, after, done)
  {
    SamePermutationMembers(after, before);
    forall i, j | 0 <= i < j < |before| ensures before[i] != before[j] {
      assert before[i] in before && before[i][0] in before[i];
    }
    PermutationKeepsNoDuplicates(after, before);
    forall i, j, a | 0 <= i < j < |after| && a in after[i] ensures a !in after[j] {
      assert after[i] in before && after[j] in before;
      var k :| 0 <= k < |before| && before[k] == after[i];
      var l :| 0 <= l < |before| && before[l] == after[j];
      assert k != l by { assert after[i] != after[j]; }
    }
    forall a | a in done && g.OnCycle(a) ensures exists c :: c in after && a in c {
      var c :| c in before && a in c;
      assert c in after;
    }
  }

  /** Sorting the complete list of components gives the report, in order. */
  lemma SortedReport(g: Graph, leq: (Node, Node) -> bool, components: seq<seq<Node>>)
    requires ComponentsOf(g, components, g.Nodes())
    requires TotalPreorder(leq) ==> forall c :: c in components ==> SortedBy(leq, c)
    ensures var sorted := ToSorted((l, r) => ComponentLeq(leq, l, r), components);
      ReportsAllComponents(g, sorted) && (TotalPreorder(leq) ==> Ordered(leq, sorted))
  {
    hide ComponentsOf, TotalPreorder, SortedBy, ToSorted, Signature, Ordered;
    var sorted := ToSorted((l, r) => ComponentLeq(leq, l, r), components);
    PermutedComponents(g, components, sorted, g.Nodes());
    SamePermutationMembers(sorted, components);
    if TotalPreorder(leq) {
      ComponentLeqIsTotal(leq);
      ToSortedSorts((l, r) => ComponentLeq(leq, l, r), components);
      SortedIsOrdered(leq, sorted);
    }
  }

  method CollectStronglyConnectedComponents(g: Graph, leq: (Node, Node) -> bool)
    returns (r: Result<seq<seq<Node>>, CheckError>)
    requires g.Valid()
    ensures r.Err? <==> "" in g.Nodes()
    ensures r.Ok? ==> ReportsAllComponents(g, r.value)
    ensures r.Ok? && TotalPreorder(leq) ==> Ordered(leq, r.value)
  {
    hide Inv, TotalPreorder, SortedBy, ComponentsOf, Graph.Reach, ReportsAllComponents, Ordered, VisitedState;
    var search := new ComponentSearch(g, leq);
    for i := 0 to |g.order|
      invariant search.Valid() && search.active == {} && fresh(search)
      invariant search.g == g && search.leq == leq
      invariant forall n :: n in g.order[..i] ==> n in search.indexByNode
    {
      if g.order[i] !in search.indexByNode {
        assert g.order[i] in Elements(g.order);
        ghost var before, lowBefore := search.View(), search.lowLinkByNode;
        var ok := search.Visit(g.order[i]);
        if !ok { return Err(StackUnderflow); }
        VisitedIndexed(g, g.order[i], before, lowBefore, search.View(), search.lowLinkByNode);
      }
      assert g.order[..i+1] == g.order[..i] + [g.order[i]];
    }
    assert g.order[..|g.order|] == g.order;
    SearchComplete(g, search.View());
    SortedReport(g, leq, search.components);
    return Ok(ToSorted((l, r) => ComponentLeq(leq, l, r), search.components));
  }

  /** With every key visited and no visit open, everything is finished. */
  lemma SearchComplete(g: Graph, s: Search)
    requires g.Valid() && Inv(g, s) && s.active == {}
    requires forall n :: n in g.order ==> n in s.index
    ensures ComponentsOf(g, s.components, g.Nodes()) && "" !in g.Nodes()
  {
    assert |s.stack| > 0 ==> ReachesActive(g, s, 0);
    forall n | n in g.Nodes() ensures n in s.index {
      if n !in g.edges.Keys {
        var m :| m in g.edges.Keys && n in g.edges[m];
        assert m in Elements(g.order);
        assert g.Edge(m, n);
      } else {
        assert n in Elements(g.order);
      }
    }
    assert s.Done() == g.Nodes();
  }

  /** An empty report means no directed cycle, and conversely. */
  lemma EmptyReportIffAcyclic(g: Graph, components: seq<seq<Node>>)
    requires ReportsAllComponents(g, components)
    ensures components == [] <==> !exists p :: g.ClosedWalk(p)
  {
    if components != [] {
      var c := components[0];
      assert c in components && c[0] in c;
      assert g.OnCycle(c[0]);
      g.OnCycleClosedWalk(c[0]);
    }
    forall p | g.ClosedWalk(p) ensures |components| > 0 {
      CycleInsideOneComponent(g, components, p);
    }
  }

  /** Every directed cycle runs inside exactly one reported component. */
  lemma CycleInsideOneComponent(g: Graph, components: seq<seq<Node>>, p: seq<Node>)
    requires ReportsAllComponents(g, components) && g.ClosedWalk(p)
    ensures exists i :: 0 <= i < |components| && (forall n :: n in p ==> n in components[i])
    ensures forall i, j :: 0 <= i < j < |components| ==> p[0] !in components[i] || p[0] !in components[j]
  {
    hide Graph.Reach;
    g.ClosedWalkOnCycle(p);
    assert g.Edge(p[0], p[1]);
    assert p[0] in g.Nodes();
    hide Graph.IsWalk, Graph.Nodes, Graph.OnCycle;
    var c :| c in components && p[0] in c;
    var i :| 0 <= i < |components| && components[i] == c;
    forall n | n in p ensures n in components[i] {
      var k :| 0 <= k < |p| && p[k] == n;
      g.ClosedWalkMutual(p, k);
    }
  }

  datatype Report = Report(exitCode: int, components: seq<seq<Node>>, witnesses: seq<seq<Node>>)

  /** `main` from the parsed graph onward: the exit code and the cycle printed for each component. */
  method CheckImports(g: Graph, leq: (Node, Node) -> bool) returns (r: Result<Report, CheckError>)
    requires g.Valid()
    ensures r.Err? <==> "" in g.Nodes()
    ensures r.Ok? ==> (r.value.exitCode == 0 <==> !exists p :: g.ClosedWalk(p))
    ensures r.Ok? ==> (r.value.exitCode == 0 || r.value.exitCode == 1) && ReportsAllComponents(g, r.value.components)
    ensures r.Ok? && TotalPreorder(leq) ==> Ordered(leq, r.value.components)
    ensures r.Ok? ==> |r.value.witnesses| == |r.value.components|
    ensures r.Ok? ==> forall i :: 0 <= i < |r.value.components| ==>
                        SimpleCycle(g, Elements(r.value.components[i]), r.value.witnesses[i])
  {
    hide TotalPreorder, SortedBy, Graph.Reach, SimpleCycle, AcyclicFrom, Ordered;
    var collected := CollectStronglyConnectedComponents(g, leq);
    if collected.Err? { return Err(collected.error); }
    var components := collected.value;
    EmptyReportIffAcyclic(g, components);
    if components == [] {
      return Ok(Report(0, [], []));
    }
    var witnesses: seq<seq<Node>> := [];
    for i := 0 to |components|
      invariant |witnesses| == i
      invariant forall k :: 0 <= k < i ==> SimpleCycle(g, Elements(components[k]), witnesses[k])
    {
      var c := components[i];
      assert c in components && c[0] in c;
      assert Elements(c) <= g.Nodes() && c[0] in Elements(c);
      ReportedComponentHasCycle(g, c);
      var w := FindCycleWitness(c, g);
      witnesses := witnesses + [w];
    }
    return Ok(Report(1, components, witnesses));
  }
}
