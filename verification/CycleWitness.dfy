/** `findCycleWitness`: a depth-first search for one concrete cycle in a component. */
module CycleWitness {
  import opened Results
  import opened Sequences
  import opened Digraphs
  import opened TarjanInvariant

  ghost predicate InducedWalk(g: Graph, scope: set<Node>, p: seq<Node>) {
    g.IsWalk(p) && forall n :: n in p ==> n in scope
  }

  /** No walk that starts at `start` and stays in the component meets a node twice. */
  ghost predicate AcyclicFrom(g: Graph, scope: set<Node>, start: Node) {
    forall p :: InducedWalk(g, scope, p) && p[0] == start ==> NoDuplicates(p)
  }

  /** First node equal to the last, otherwise no repeats, real edges inside the component only. */
  ghost predicate SimpleCycle(g: Graph, scope: set<Node>, w: seq<Node>) {
    g.ClosedWalk(w) && InducedWalk(g, scope, w) && NoDuplicates(w[..|w|-1])
  }

  /** Finished nodes in the order their visits returned: their edges lead strictly backwards. */
  ghost predicate Topological(g: Graph, scope: set<Node>, order: seq<Node>) {
    forall j, b {:trigger g.Edge(order[j], b)} :: 0 <= j < |order| && g.Edge(order[j], b) && b in scope
      ==> exists i :: 0 <= i < j && order[i] == b
  }

  ghost predicate SearchState(g: Graph, scope: set<Node>, path: seq<Node>, visited: set<Node>, finished: seq<Node>) {
    && NoDuplicates(path)
    && (path != [] ==> InducedWalk(g, scope, path))
    && visited == Elements(path) + Elements(finished)
    && (forall n :: n in path ==> n !in finished)
    && NoDuplicates(finished)
    && Topological(g, scope, finished)
  }

  class WitnessSearch {
    const g: Graph
    const componentSet: set<Node>
    var activePath: seq<Node>
    var visited: set<Node>
    ghost var finished: seq<Node>

    ghost predicate Valid()
      reads this
    {
      SearchState(g, componentSet, activePath, visited, finished)
    }

    constructor (g: Graph, component: seq<Node>)
      ensures Valid() && this.g == g && componentSet == Elements(component)
      ensures activePath == [] && visited == {} && finished == []
    {
      this.g, componentSet := g, set n | n in component;
      activePath, visited, finished := [], {}, [];
    }

    method Visit(node: Node) returns (r: Option<seq<Node>>)
      requires Valid() && node in componentSet && node !in visited
      requires activePath != [] ==> g.Edge(activePath[|activePath|-1], node)
      modifies this
      decreases componentSet - visited
      ensures r.Some? ==> SimpleCycle(g, componentSet, r.value)
      ensures r.Some? ==> !AcyclicFrom(g, componentSet, if old(activePath) == [] then node else old(activePath)[0])
      ensures r.None? ==> Valid() && activePath == old(activePath) && node in finished
      ensures r.None? ==> old(finished) <= finished && old(visited) <= visited
    {
      hide Topological, SimpleCycle, AcyclicFrom, InducedWalk, NoDuplicates;
      ghost var before := activePath;
      EnterKeeps(g, componentSet, activePath, visited, finished, node);
      activePath := activePath + [node];
      visited := visited + {node};
      var successors := g.Successors(node);
      for i := 0 to |successors|
        invariant Valid() && activePath == before + [node]
        invariant old(finished) <= finished && old(visited) + {node} <= visited
        invariant forall b :: b in successors[..i] && b in componentSet ==> b in finished
      {
        var next := successors[i];
        if next in componentSet {
          var existingIndex := IndexOf(activePath, next);
          assert g.Edge(node, next);
          if existingIndex >= 0 {
            FoundCycle(g, componentSet, activePath, next, existingIndex);
            return Some(activePath[existingIndex..] + [next]);
          }
          if next !in visited {
            r := Visit(next);
            if r.Some? {
              return;
            }
          }
        }
      }
      assert forall b :: g.Edge(node, b) && b in componentSet ==> b in finished;
      assert (before + [node])[..|before|] == before;
      FinishKeeps(g, componentSet, before, visited, finished, node);
      activePath := activePath[..|activePath| - 1];
      finished := finished + [node];
      r := None;
    }
  }

  lemma StepDescends(g: Graph, scope: set<Node>, order: seq<Node>, j: nat, p: seq<Node>, l: nat)
    requires Topological(g, scope, order) && InducedWalk(g, scope, p)
    requires l + 1 < |p| && j < |order| && order[j] == p[l]
    ensures exists m :: 0 <= m < j && order[m] == p[l+1]
  {
    assert g.Edge(p[l], p[l+1]) && p[l+1] in scope;
    assert g.Edge(order[j], p[l+1]);
  }

  /** Along a walk, positions in a topological order strictly decrease. */
  lemma {:induction false} WalkDescends(g: Graph, scope: set<Node>, order: seq<Node>, p: seq<Node>, i: nat, l: nat, k: nat)
    requires Topological(g, scope, order) && InducedWalk(g, scope, p)
    requires i < l < |p| && k < |order| && order[k] == p[i]
    ensures exists m :: 0 <= m < k && order[m] == p[l]
    decreases l
  {
    hide Topological, InducedWalk;
    var j := k;
    if i < l - 1 {
      WalkDescends(g, scope, order, p, i, l - 1, k);
      j :| 0 <= j < k && order[j] == p[l-1];
    }
    StepDescends(g, scope, order, j, p, l - 1);
  }

  lemma TopologicalIsAcyclic(g: Graph, scope: set<Node>, order: seq<Node>, p: seq<Node>)
    requires Topological(g, scope, order) && NoDuplicates(order)
    requires InducedWalk(g, scope, p) && p[0] in order
    ensures NoDuplicates(p)
  {
    var start :| 0 <= start < |order| && order[start] == p[0];
    forall i, l | 0 <= i < l < |p| ensures p[i] != p[l] {
      var k := start;
      if i > 0 {
        WalkDescends(g, scope, order, p, 0, i, start);
        k :| 0 <= k < |order| && order[k] == p[i];
      }
      WalkDescends(g, scope, order, p, i, l, k);
    }
  }

  lemma FoundCycle(g: Graph, scope: set<Node>, path: seq<Node>, next: Node, at: nat)
    requires path != [] && InducedWalk(g, scope, path) && NoDuplicates(path)
    requires g.Edge(path[|path|-1], next) && next in scope
    requires at < |path| && path[at] == next
    ensures SimpleCycle(g, scope, path[at..] + [next])
    ensures !AcyclicFrom(g, scope, path[0])
  {
    var walk := path + [next];
    assert InducedWalk(g, scope, walk) && walk[0] == path[0];
    assert !NoDuplicates(walk) by { assert walk[at] == walk[|walk| - 1]; }
    var w := path[at..] + [next];
    assert w[..|w|-1] == path[at..];
    forall i | 0 <= i < |w| - 1 ensures g.Edge(w[i], w[i+1]) {
      assert w[i] == walk[at + i] && w[i+1] == walk[at + i + 1];
      assert g.Edge(walk[at + i], walk[at + i + 1]);
    }
  }

  lemma EnterKeeps(g: Graph, scope: set<Node>, path: seq<Node>, visited: set<Node>, finished: seq<Node>, node: Node)
    requires SearchState(g, scope, path, visited, finished) && node in scope && node !in visited
    requires path != [] ==> g.Edge(path[|path|-1], node)
    ensures SearchState(g, scope, path + [node], visited + {node}, finished)
  {
    assert Elements(path + [node]) == Elements(path) + {node};
  }

  lemma FinishKeepsTopological(g: Graph, scope: set<Node>, order: seq<Node>, node: Node)
    requires Topological(g, scope, order)
    requires forall b :: g.Edge(node, b) && b in scope ==> b in order
    ensures Topological(g, scope, order + [node])
  {
    var t := order + [node];
    forall j, b | 0 <= j < |order| && g.Edge(t[j], b) && b in scope ensures exists i :: 0 <= i < j && t[i] == b {
      assert g.Edge(order[j], b);
      var i :| 0 <= i < j && order[i] == b;
      assert t[i] == b;
    }
    forall b | g.Edge(node, b) && b in scope ensures exists i :: 0 <= i < |order| && t[i] == b {
      var i :| 0 <= i < |order| && order[i] == b;
      assert t[i] == b;
    }
  }

  lemma PrefixOf(g: Graph, scope: set<Node>, path: seq<Node>, node: Node)
    requires InducedWalk(g, scope, path + [node])
    ensures path != [] ==> InducedWalk(g, scope, path)
    ensures (path + [node])[|path|] == node
    ensures Elements(path + [node]) == Elements(path) + {node}
    ensures NoDuplicates(path + [node]) ==> NoDuplicates(path) && node !in path
  {
    var longer := path + [node];
    assert forall i :: 0 <= i < |path| ==> longer[i] == path[i];
    forall i | 0 <= i < |path| - 1 ensures g.Edge(path[i], path[i+1]) {
      assert g.Edge(longer[i], longer[i+1]);
    }
    assert Elements(longer) == Elements(path) + {node};
    assert longer[|path|] == node;
  }

  lemma FinishKeeps(g: Graph, scope: set<Node>, path: seq<Node>, visited: set<Node>, finished: seq<Node>, node: Node)
    requires SearchState(g, scope, path + [node], visited, finished)
    requires forall b :: g.Edge(node, b) && b in scope ==> b in finished
    ensures SearchState(g, scope, path, visited, finished + [node])
  {
    hide Topological, InducedWalk;
    PrefixOf(g, scope, path, node);
    FinishKeepsTopological(g, scope, finished, node);
  }

  method FindCycleWitness(component: seq<Node>, g: Graph) returns (w: seq<Node>)
    ensures component == [] || component[0] == "" ==> w == []
    ensures component != [] && component[0] != "" ==>
              if AcyclicFrom(g, Elements(component), component[0]) then w == component
              else SimpleCycle(g, Elements(component), w)
  {
    if component == [] || component[0] == "" {
      return [];
    }
    var search := new WitnessSearch(g, component);
    var r := search.Visit(component[0]);
    if r.Some? {
      return r.value;
    }
    forall p | InducedWalk(g, Elements(component), p) && p[0] == component[0] ensures NoDuplicates(p) {
      TopologicalIsAcyclic(g, Elements(component), search.finished, p);
    }
    return component;
  }

  /** The fallback to the bare component is never taken for a reported component. */
  lemma ReportedComponentHasCycle(g: Graph, c: seq<Node>)
    requires IsClass(g, c) && g.OnCycle(c[0])
    ensures !AcyclicFrom(g, Elements(c), c[0])
  {
    g.OnCycleClosedWalk(c[0]);
    var p :| g.ClosedWalk(p) && p[0] == c[0];
    forall n | n in p ensures n in c {
      var i :| 0 <= i < |p| && p[i] == n;
      g.ClosedWalkMutual(p, i);
      assert c[0] in c;
    }
    assert InducedWalk(g, Elements(c), p);
    assert !NoDuplicates(p) by { assert p[0] == p[|p|-1]; }
  }
}
