/** The cycle check over the whole stack, and what its verdict means for every boot. */
module Accept {
  import opened Graphs
  import opened Stack
  import opened CycleSearch
  import BootClosure
  import Topo

  /** A service or a task as checkCycles reads it. */
  datatype Block = Block(name: string, refs: seq<Ref>, after: seq<Ref>)

  datatype Blocks = Blocks(instances: seq<Decl>, services: seq<Block>, tasks: seq<Block>)
  {
    /** Some block called a mentions b, as a dependency, a reference or an after entry. */
    ghost predicate Mentions(a: string, b: string) {
      || (exists d | d in instances :: d.name == a && b in Mentioned(d.deps, d.refs, d.after))
      || (exists s | s in services :: s.name == a && b in Mentioned([], s.refs, s.after))
      || (exists t | t in tasks :: t.name == a && b in Mentioned([], t.refs, t.after))
    }
  }

  function Mentioned(deps: seq<Dependency>, refs: seq<Ref>, after: seq<Ref>): seq<string> {
    DepNames(deps) + RefNames(refs) + RefNames(after)
  }

  /** Appends to a name's list of edges. */
  function AddEdges(edges: Graph, name: string, more: seq<string>): (r: Graph)
    ensures forall a, b :: Edge(r, a, b) <==> Edge(edges, a, b) || (a == name && b in more)
  {
    if more == [] then edges else edges[name := Out(edges, name) + more]
  }

  method CollectEdges(blocks: Blocks) returns (edges: Graph)
    ensures forall a, b :: Edge(edges, a, b) <==> blocks.Mentions(a, b)
  {
    edges := map[];
    for i := 0 to |blocks.instances|
      invariant forall a, b :: Edge(edges, a, b) <==> Blocks(blocks.instances[..i], [], []).Mentions(a, b)
    {
      var d := blocks.instances[i];
      edges := AddEdges(edges, d.name, Mentioned(d.deps, d.refs, d.after));
      assert blocks.instances[..i + 1] == blocks.instances[..i] + [d];
    }
    assert blocks.instances[..|blocks.instances|] == blocks.instances;
    for i := 0 to |blocks.services|
      invariant forall a, b :: Edge(edges, a, b) <==> Blocks(blocks.instances, blocks.services[..i], []).Mentions(a, b)
    {
      var s := blocks.services[i];
      edges := AddEdges(edges, s.name, Mentioned([], s.refs, s.after));
      assert blocks.services[..i + 1] == blocks.services[..i] + [s];
    }
    assert blocks.services[..|blocks.services|] == blocks.services;
    for i := 0 to |blocks.tasks|
      invariant forall a, b :: Edge(edges, a, b) <==>
          Blocks(blocks.instances, blocks.services, blocks.tasks[..i]).Mentions(a, b)
    {
      var t := blocks.tasks[i];
      edges := AddEdges(edges, t.name, Mentioned([], t.refs, t.after));
      assert blocks.tasks[..i + 1] == blocks.tasks[..i] + [t];
    }
    assert blocks.tasks[..|blocks.tasks|] == blocks.tasks;
  }

  /** The variables of checkCycles' search. The order is not kept by the program. */
  class CycleCheck {
    const edges: Graph
    var state: map<string, Colour>
    ghost var order: seq<string>

    ghost function State(): Search
      reads this
    {
      Search(state, order)
    }

    constructor (edges: Graph)
      ensures this.edges == edges && State() == UNSEARCHED
    {
      this.edges := edges;
      state, order := map[], [];
    }

    method Visit(n: string, stack: seq<string>) returns (cycle: Option<seq<string>>)
      modifies this
      ensures match Sort(edges, [n], stack, old(State()))
              case Settled(s) => cycle.None? && State() == s
              case Cycle(names) => cycle == Some(names)
      decreases edges.Keys - state.Keys, if n in edges then 1 else 0
    {
      if n in state {
        return if state[n].Black? then None else Some(stack + [n]);
      }
      Topo.SortEnters(edges, n, stack, State());
      Shrinks(edges, State(), n);
      state := state[n := Gray];
      ghost var entered, whole := State(), Sort(edges, Out(edges, n), stack + [n], State());
      var out := if n in edges then edges[n] else [];
      assert out[0..] == out;
      for i := 0 to |out|
        invariant entered.state.Keys <= state.Keys
        invariant Sort(edges, out[i..], stack + [n], State()) == whole
      {
        assert out[i..][0] == out[i] && out[i..][1..] == out[i + 1..];
        Topo.SortOneByOne(edges, out[i..], stack + [n], State());
        cycle := Visit(out[i], stack + [n]);
        if cycle.Some? {
          return;
        }
      }
      state := state[n := Black];
      order := order + [n];
      cycle := None;
    }
  }

  method SearchEdges(edges: Graph, names: seq<string>) returns (cycle: Option<seq<string>>)
    ensures match Search0(edges, names)
            case Settled(_) => cycle.None?
            case Cycle(c) => cycle == Some(c)
  {
    var check := new CycleCheck(edges);
    assert names[0..] == names;
    for i := 0 to |names|
      invariant check.edges == edges
      invariant Sort(edges, names[i..], [], check.State()) == Search0(edges, names)
    {
      assert names[i..][0] == names[i] && names[i..][1..] == names[i + 1..];
      Topo.SortOneByOne(edges, names[i..], [], check.State());
      cycle := check.Visit(names[i], []);
      if cycle.Some? {
        return;
      }
    }
    cycle := None;
  }

  method KeysOf(edges: Graph) returns (names: seq<string>)
    ensures forall n :: n in names <==> n in edges
  {
    var left := edges.Keys;
    names := [];
    while left != {}
      invariant left <= edges.Keys
      invariant forall n :: n in names <==> n in edges.Keys - left
      decreases left
    {
      var n :| n in left;
      left, names := left - {n}, names + [n];
    }
  }

  ghost predicate IsMentionWalk(blocks: Blocks, p: seq<string>) {
    |p| > 0 && forall i | 0 < i < |p| :: blocks.Mentions(p[i - 1], p[i])
  }

  /** Some block comes to need itself, through what it and others mention. */
  ghost predicate HasCycle(blocks: Blocks) {
    exists p :: |p| > 1 && IsMentionWalk(blocks, p) && p[0] == p[|p| - 1]
  }

  ghost predicate EdgesOf(blocks: Blocks, edges: Graph) {
    forall a, b :: Edge(edges, a, b) <==> blocks.Mentions(a, b)
  }

  /** The whole-stack check. It accepts exactly the stacks without a cycle of mentions; a
      refusal names a walk along real mentions whose last name already occurs on it. */
  method CheckCycles(blocks: Blocks) returns (cycle: Option<seq<string>>)
    ensures cycle.None? <==> !HasCycle(blocks)
    ensures cycle.Some? ==>
              var c := cycle.value;
              IsMentionWalk(blocks, c) && c[|c| - 1] in c[..|c| - 1]
  {
    var edges := CollectEdges(blocks);
    var names := KeysOf(edges);
    SearchFailsIffCyclic(edges, names);
    CyclesAgree(blocks, edges);
    cycle := SearchEdges(edges, names);
  }

  lemma CyclesAgree(blocks: Blocks, edges: Graph)
    requires EdgesOf(blocks, edges)
    ensures Acyclic(edges) <==> !HasCycle(blocks)
  {
    assert forall p :: IsWalk(edges, p) <==> IsMentionWalk(blocks, p);
    if HasCycle(blocks) {
      var p :| |p| > 1 && IsMentionWalk(blocks, p) && p[0] == p[|p| - 1];
      assert WalkBetween(edges, p, p[0], p[0]);
      assert OnCycle(edges, p[0]);
    }
  }

  /** The headline: a stack the check accepts boots every dependency before what needs it,
      whatever the targets. */
  lemma AcceptedStackBootsDependenciesFirst(blocks: Blocks, index: map<string, Decl>, targets: seq<string>)
    requires !HasCycle(blocks) && NameMap(blocks.instances, index)
    ensures var order := BootClosure.Closure(DepsGraph(index), targets);
            && NoDuplicates(order) && DependenciesFirst(DepsGraph(index), order)
            && (forall x :: x in order <==> x in index && ReachedFrom(DepsGraph(index), targets, x))
  {
    AcceptedStackIsAcyclic(blocks, index);
    BootClosure.ClosureIsReachable(DepsGraph(index), targets);
    BootClosure.ClosureOrdersIffOffCycles(DepsGraph(index), targets);
  }

  lemma AcceptedStackIsAcyclic(blocks: Blocks, index: map<string, Decl>)
    requires !HasCycle(blocks) && NameMap(blocks.instances, index)
    ensures Acyclic(DepsGraph(index))
  {
    forall a ensures !OnCycle(DepsGraph(index), a) {
      DependencyCycleIsMentioned(blocks, index, a);
    }
  }

  lemma DependencyCycleIsMentioned(blocks: Blocks, index: map<string, Decl>, a: string)
    requires NameMap(blocks.instances, index)
    ensures OnCycle(DepsGraph(index), a) ==> HasCycle(blocks)
  {
    var g := DepsGraph(index);
    if OnCycle(g, a) {
      var p :| |p| > 1 && WalkBetween(g, p, a, a);
      forall i | 0 < i < |p| ensures blocks.Mentions(p[i - 1], p[i]) {
        assert Edge(g, p[i - 1], p[i]);
        var d := index[p[i - 1]];
        assert d in blocks.instances && p[i] in Mentioned(d.deps, d.refs, d.after);
      }
      assert IsMentionWalk(blocks, p);
    }
  }
}
