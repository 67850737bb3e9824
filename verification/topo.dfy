/** The topological order of the pending modules and apps (topoOrder). */
module Topo {
  import opened Graphs
  import opened Stack
  import opened CycleSearch

  /** The dependencies topoOrder follows: the ones among the pending blocks. */
  function Declared(names: seq<string>, byName: map<string, Decl>): (r: seq<string>)
    ensures forall n :: n in r <==> n in names && n in byName
  {
    if names == [] then []
    else if names[0] in byName then [names[0]] + Declared(names[1..], byName)
    else Declared(names[1..], byName)
  }

  function PendingGraph(byName: map<string, Decl>): (g: Graph)
    ensures g.Keys == byName.Keys
  {
    map n | n in byName :: Declared(DepNames(byName[n].deps), byName)
  }

  lemma SortOneByOne(g: Graph, names: seq<string>, stack: seq<string>, s: Search)
    requires names != []
    ensures Sort(g, names, stack, s) ==
            match Sort(g, [names[0]], stack, s) {
              case Cycle(c) => Cycle(c)
              case Settled(one) => Sort(g, names[1..], stack, one)
            }
  {
  }

  lemma SortEnters(g: Graph, n: string, stack: seq<string>, s: Search)
    requires n !in s.state
    ensures Sort(g, [n], stack, s) ==
            match Sort(g, Out(g, n), stack + [n], Enter(s, n)) {
              case Cycle(c) => Cycle(c)
              case Settled(below) => Settled(Finish(below, n))
            }
  {
    Shrinks(g, s, n);
  }

  lemma SortDeclared(g: Graph, names: seq<string>, i: nat, byName: map<string, Decl>, stack: seq<string>, s: Search)
    requires i < |names|
    ensures Sort(g, Declared(names[i..], byName), stack, s) ==
            match Sort(g, Declared([names[i]], byName), stack, s) {
              case Cycle(c) => Cycle(c)
              case Settled(one) => Sort(g, Declared(names[i + 1..], byName), stack, one)
            }
  {
    var left := Declared(names[i..], byName);
    assert names[i..][0] == names[i] && names[i..][1..] == names[i + 1..];
    if names[i] in byName {
      assert left[0] == names[i] && left[1..] == Declared(names[i + 1..], byName);
      assert Declared([names[i]], byName) == [names[i]];
      SortOneByOne(g, left, stack, s);
    }
  }

  /** The variables of topoOrder: the colours, and the blocks settled so far. */
  class TopoSearch {
    const byName: map<string, Decl>
    var state: map<string, Colour>
    var order: seq<Decl>

    ghost predicate Valid()
      reads this
    {
      && (forall n | n in byName :: byName[n].name == n)
      && (forall d | d in order :: d.name in byName && byName[d.name] == d)
    }

    ghost function State(): Search
      reads this
    {
      Search(state, Names(order))
    }

    constructor (byName: map<string, Decl>)
      requires forall n | n in byName :: byName[n].name == n
      ensures this.byName == byName && Valid() && State() == UNSEARCHED
    {
      this.byName := byName;
      state, order := map[], [];
    }

    /** Settles p and what it needs, or returns the walk that closes on itself. */
    method Visit(p: Decl, stack: seq<string>) returns (cycle: Option<seq<string>>)
      requires Valid() && p.name in byName && byName[p.name] == p
      modifies this
      ensures Valid() && old(state.Keys) <= state.Keys
      ensures match Sort(PendingGraph(byName), [p.name], stack, old(State()))
              case Settled(s) => cycle.None? && State() == s
              case Cycle(names) => cycle == Some(names)
      decreases byName.Keys - state.Keys, 0
    {
      if p.name in state {
        return if state[p.name].Black? then None else Some(stack + [p.name]);
      }
      SortEnters(PendingGraph(byName), p.name, stack, State());
      Shrinks(PendingGraph(byName), State(), p.name);
      state := state[p.name := Gray];
      assert State() == Enter(old(State()), p.name);
      cycle := VisitDeps(p, stack + [p.name]);
      if cycle.None? {
        assert Names(order + [p]) == Names(order) + [p.name];
        state := state[p.name := Black];
        order := order + [p];
      }
    }

    /** The loop of Visit over what p depends on. */
    method VisitDeps(p: Decl, stack: seq<string>) returns (cycle: Option<seq<string>>)
      requires Valid() && p.name in byName && byName[p.name] == p
      modifies this
      ensures Valid() && old(state.Keys) <= state.Keys
      ensures match Sort(PendingGraph(byName), Out(PendingGraph(byName), p.name), stack, old(State()))
              case Settled(s) => cycle.None? && State() == s
              case Cycle(names) => cycle == Some(names)
      decreases byName.Keys - state.Keys, 2
    {
      ghost var g, entered, names := PendingGraph(byName), State(), DepNames(p.deps);
      ghost var whole := Sort(g, Out(g, p.name), stack, entered);
      assert names[0..] == names;
      for i := 0 to |p.deps|
        invariant Valid() && entered.state.Keys <= state.Keys
        invariant Sort(g, Declared(names[i..], byName), stack, State()) == whole
      {
        SortDeclared(g, names, i, byName, stack, State());
        cycle := VisitDep(p.deps[i].name, stack);
        if cycle.Some? {
          return;
        }
      }
      cycle := None;
    }

    /** One dependency, which is followed when it is pending too. */
    method VisitDep(name: string, stack: seq<string>) returns (cycle: Option<seq<string>>)
      requires Valid()
      modifies this
      ensures Valid() && old(state.Keys) <= state.Keys
      ensures match Sort(PendingGraph(byName), Declared([name], byName), stack, old(State()))
              case Settled(s) => cycle.None? && State() == s
              case Cycle(names) => cycle == Some(names)
      decreases byName.Keys - state.Keys, 1
    {
      if name !in byName {
        return None;
      }
      assert Declared([name], byName) == [name];
      cycle := Visit(byName[name], stack);
    }
  }

  datatype Ordered = InOrder(decls: seq<Decl>) | CycleError(names: seq<string>)

  /** The pending blocks, each after the ones it references; or the cycle that forbids it. */
  method TopoOrder(pending: seq<Decl>) returns (r: Ordered)
    requires NoDuplicates(Names(pending))
    ensures r.InOrder? <==> Acyclic(PendingGraph(ByName(pending)))
    ensures r.InOrder? ==>
              multiset(r.decls) == multiset(pending) && DependenciesFirst(PendingGraph(ByName(pending)), Names(r.decls))
    ensures r.CycleError? ==>
              ClosingWalk(PendingGraph(ByName(pending)), r.names)
  {
    var byName := IndexBlocks(pending);
    ByNameIsNameMap(pending);
    var order, cycle := SearchPending(pending, byName);
    SearchDecides(pending);
    if cycle.Some? {
      r := CycleError(cycle.value);
    } else {
      SettledIsPermutation(pending, order);
      r := InOrder(order);
    }
  }

  lemma SearchDecides(pending: seq<Decl>)
    requires NoDuplicates(Names(pending))
    ensures var g := PendingGraph(ByName(pending));
            var r := Search0(g, Names(pending));
            && (r.Settled? <==> Acyclic(g))
            && (r.Cycle? ==> ClosingWalk(g, r.names))
  {
    PendingNamesAll(pending);
    SearchFailsIffCyclic(PendingGraph(ByName(pending)), Names(pending));
  }

  lemma SettledIsPermutation(pending: seq<Decl>, order: seq<Decl>)
    requires NoDuplicates(Names(pending))
    requires Search0(PendingGraph(ByName(pending)), Names(pending)).Settled?
    requires Names(order) == Search0(PendingGraph(ByName(pending)), Names(pending)).s.order
    requires forall d | d in order :: d.name in ByName(pending) && ByName(pending)[d.name] == d
    ensures multiset(order) == multiset(pending) && DependenciesFirst(PendingGraph(ByName(pending)), Names(order))
  {
    ByNameIsNameMap(pending);
    SettledOrder(PendingGraph(ByName(pending)), Names(pending));
    SamePermutation(pending, order, ByName(pending));
  }

  /** The search of topoOrder, from every pending block in turn. */
  method SearchPending(pending: seq<Decl>, byName: map<string, Decl>)
    returns (order: seq<Decl>, cycle: Option<seq<string>>)
    requires NameMap(pending, byName)
    ensures match Search0(PendingGraph(byName), Names(pending))
            case Settled(s) => cycle.None? && Names(order) == s.order
            case Cycle(names) => cycle == Some(names)
    ensures forall d | d in order :: d.name in byName && byName[d.name] == d
  {
    ghost var g, names := PendingGraph(byName), Names(pending);
    var search := new TopoSearch(byName);
    assert names[0..] == names;
    for i := 0 to |pending|
      invariant search.byName == byName && search.Valid()
      invariant Sort(g, names[i..], [], search.State()) == Search0(g, names)
    {
      assert names[i..][0] == pending[i].name && names[i..][1..] == names[i + 1..];
      SortOneByOne(g, names[i..], [], search.State());
      cycle := search.Visit(pending[i], []);
      if cycle.Some? {
        return search.order, cycle;
      }
      assert Sort(g, names[i + 1..], [], search.State()) == Search0(g, names);
    }
    return search.order, None;
  }

  method IndexBlocks(decls: seq<Decl>) returns (byName: map<string, Decl>)
    ensures byName == ByName(decls)
  {
    byName := map[];
    for i := 0 to |decls|
      invariant byName == ByName(decls[..i])
    {
      assert decls[..i + 1][..i] == decls[..i];
      byName := byName[decls[i].name := decls[i]];
    }
    assert decls[..|decls|] == decls;
  }

  lemma PendingNamesAll(pending: seq<Decl>)
    requires NoDuplicates(Names(pending))
    ensures forall n | n in PendingGraph(ByName(pending)) :: n in Names(pending)
  {
    ByNameIsNameMap(pending);
    forall n | n in ByName(pending) ensures n in Names(pending) {
      var i :| 0 <= i < |pending| && pending[i] == ByName(pending)[n];
      assert Names(pending)[i] == n;
    }
  }

  lemma SamePermutation(pending: seq<Decl>, order: seq<Decl>, byName: map<string, Decl>)
    requires NameMap(pending, byName) && NoDuplicates(Names(order))
    requires forall d | d in order :: d.name in byName && byName[d.name] == d
    requires forall i | 0 <= i < |pending| :: Names(pending)[i] in Names(order)
    ensures multiset(order) == multiset(pending)
  {
    forall i, j | 0 <= i < j < |order| ensures order[i] != order[j] {
      assert Names(order)[i] != Names(order)[j];
    }
    forall d ensures d in order <==> d in pending {
      if d in pending {
        var i :| 0 <= i < |pending| && pending[i] == d;
        assert Names(pending)[i] in Names(order);
        var k :| 0 <= k < |order| && Names(order)[k] == Names(pending)[i];
        assert order[k] in order;
      }
    }
    CountOnce(order);
    CountOnce(pending);
    forall d ensures multiset(order)[d] == multiset(pending)[d] {}
  }

  lemma {:induction false} CountOnce<T>(s: seq<T>)
    requires forall i, j | 0 <= i < j < |s| :: s[i] != s[j]
    ensures forall x :: multiset(s)[x] == if x in s then 1 else 0
  {
    if s != [] {
      CountOnce(s[1..]);
      assert s == [s[0]] + s[1..];
    }
  }
}
