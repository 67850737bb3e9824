/** The three-colour search behind the topological order and the cycle check: it either
    settles every name, dependencies first, or stops at a walk that closes on itself. */
module CycleSearch {
  import opened Graphs

  /** A name with no colour yet is unvisited. Gray is on the current path, Black is done. */
  datatype Colour = Gray | Black

  datatype Search = Search(state: map<string, Colour>, order: seq<string>)
  {
    predicate Is(n: string, c: Colour) {
      n in state && state[n] == c
    }
  }

  datatype Outcome = Settled(s: Search) | Cycle(names: seq<string>)

  const UNSEARCHED := Search(map[], [])

  /** Visits names in order, below the names on stack. */
  function Sort(g: Graph, names: seq<string>, stack: seq<string>, s: Search): (r: Outcome)
    ensures r.Settled? ==> s.state.Keys <= r.s.state.Keys
    decreases g.Keys - s.state.Keys, |names|
  {
    if names == [] then Settled(s)
    else
      var n := names[0];
      if s.Is(n, Black) then Sort(g, names[1..], stack, s)
      else if s.Is(n, Gray) then Cycle(stack + [n])
      else
        Shrinks(g, s, n);
        var below := Sort(g, Out(g, n), stack + [n], Enter(s, n));
        if below.Cycle? then below
        else Sort(g, names[1..], stack, Finish(below.s, n))
  }

  function Enter(s: Search, n: string): Search {
    s.(state := s.state[n := Gray])
  }

  function Finish(s: Search, n: string): Search {
    Search(s.state[n := Black], s.order + [n])
  }

  lemma Shrinks(g: Graph, s: Search, n: string)
    requires n !in s.state
    ensures n in g ==> g.Keys - Enter(s, n).state.Keys < g.Keys - s.state.Keys
    ensures n !in g ==> g.Keys - Enter(s, n).state.Keys == g.Keys - s.state.Keys && Out(g, n) == []
  {
    if n in g {
      assert n in g.Keys - s.state.Keys && n !in g.Keys - Enter(s, n).state.Keys;
    }
  }

  /** The order lists the settled names, each once, with everything they depend on
      settled earlier. */
  ghost predicate Consistent(g: Graph, s: Search) {
    && NoDuplicates(s.order)
    && (forall x :: x in s.order <==> s.Is(x, Black))
    && (forall i, d | 0 <= i < |s.order| && Edge(g, s.order[i], d) :: d in s.order[..i])
  }

  /** A search that does not stop settles what it was given, and leaves the path it was
      called on as it found it. */
  lemma {:induction false} SortSettles(g: Graph, names: seq<string>, stack: seq<string>, s: Search)
    requires Consistent(g, s) && Sort(g, names, stack, s).Settled?
    ensures var r := Sort(g, names, stack, s).s;
            && Consistent(g, r) && s.order <= r.order
            && (forall n | n in names :: r.Is(n, Black))
            && (forall x :: r.Is(x, Gray) <==> s.Is(x, Gray))
    decreases g.Keys - s.state.Keys, |names|
  {
    if names != [] {
      var n := names[0];
      if s.Is(n, Black) {
        SortSettles(g, names[1..], stack, s);
        assert n in s.order;
      } else {
        Shrinks(g, s, n);
        var entered := Enter(s, n);
        assert forall x :: entered.Is(x, Black) <==> s.Is(x, Black);
        SortSettles(g, Out(g, n), stack + [n], entered);
        var below := Sort(g, Out(g, n), stack + [n], entered).s;
        FinishConsistent(g, s, n, below);
        var done := Finish(below, n);
        assert done.Is(n, Black);
        SortSettles(g, names[1..], stack, done);
        assert n in done.order;
      }
    }
  }

  lemma FinishConsistent(g: Graph, s: Search, n: string, below: Search)
    requires n !in s.state && Consistent(g, below)
    requires forall d | d in Out(g, n) :: below.Is(d, Black)
    requires forall x :: below.Is(x, Gray) <==> Enter(s, n).Is(x, Gray)
    ensures Consistent(g, Finish(below, n))
    ensures forall x :: Finish(below, n).Is(x, Gray) <==> s.Is(x, Gray)
  {
    var done := Finish(below, n);
    assert below.Is(n, Gray) by { assert Enter(s, n).Is(n, Gray); }
    assert n !in below.order;
    forall x ensures done.Is(x, Gray) <==> s.Is(x, Gray) {
      assert below.Is(x, Gray) <==> Enter(s, n).Is(x, Gray);
    }
    forall i, d | 0 <= i < |done.order| && Edge(g, done.order[i], d) ensures d in done.order[..i] {
      if i < |below.order| {
        assert done.order[..i] == below.order[..i];
      } else {
        assert done.order[..i] == below.order;
      }
    }
  }

  /** The stack is the walk the search is inside of: its names are exactly the gray ones,
      and each of names is one edge further. */
  ghost predicate OnPath(g: Graph, names: seq<string>, stack: seq<string>, s: Search) {
    && (forall x :: s.Is(x, Gray) <==> x in stack)
    && (stack != [] ==> IsWalk(g, stack) && forall n | n in names :: Edge(g, stack[|stack| - 1], n))
  }

  lemma OneFurther(g: Graph, names: seq<string>, stack: seq<string>, s: Search)
    requires names != [] && OnPath(g, names, stack, s)
    ensures OnPath(g, names[1..], stack, s)
    ensures IsWalk(g, stack + [names[0]])
  {
    var n, p := names[0], stack + [names[0]];
    assert n in names && forall m | m in names[1..] :: m in names;
    forall i | 0 < i < |p| ensures Edge(g, p[i - 1], p[i]) {
      if i == |stack| {
        assert Edge(g, stack[|stack| - 1], n);
      }
    }
  }

  lemma OneDeeper(g: Graph, stack: seq<string>, s: Search, n: string)
    requires Consistent(g, s) && n !in s.state && IsWalk(g, stack + [n])
    requires forall x :: s.Is(x, Gray) <==> x in stack
    ensures Consistent(g, Enter(s, n)) && OnPath(g, Out(g, n), stack + [n], Enter(s, n))
  {
    var entered := Enter(s, n);
    assert forall x :: entered.Is(x, Black) <==> s.Is(x, Black);
    forall x ensures entered.Is(x, Gray) <==> x in stack + [n] {
      assert s.Is(x, Gray) <==> x in stack;
    }
  }

  /** What a stopped search reports is a walk along real edges whose last name already
      occurs on it. */
  lemma {:induction false} SortReportsWalk(g: Graph, names: seq<string>, stack: seq<string>, s: Search)
    requires Consistent(g, s) && OnPath(g, names, stack, s) && Sort(g, names, stack, s).Cycle?
    ensures ClosingWalk(g, Sort(g, names, stack, s).names)
    decreases g.Keys - s.state.Keys, |names|
  {
    var n := names[0];
    OneFurther(g, names, stack, s);
    if s.Is(n, Black) {
      SortReportsWalk(g, names[1..], stack, s);
    } else if s.Is(n, Gray) {
      var c := stack + [n];
      assert c[..|c| - 1] == stack;
    } else {
      Shrinks(g, s, n);
      OneDeeper(g, stack, s, n);
      var below := Sort(g, Out(g, n), stack + [n], Enter(s, n));
      if below.Cycle? {
        SortReportsWalk(g, Out(g, n), stack + [n], Enter(s, n));
      } else {
        SortSettles(g, Out(g, n), stack + [n], Enter(s, n));
        FinishConsistent(g, s, n, below.s);
        SortReportsWalk(g, names[1..], stack, Finish(below.s, n));
      }
    }
  }

  /** Settled names are names asked for, or reached from them. */
  lemma {:induction false} SortStaysReachable(g: Graph, names: seq<string>, stack: seq<string>, s: Search, x: string)
    requires Sort(g, names, stack, s).Settled?
    requires x in Sort(g, names, stack, s).s.state && x !in s.state
    ensures ReachedFrom(g, names, x)
    decreases g.Keys - s.state.Keys, |names|
  {
    var n := names[0];
    if s.Is(n, Black) {
      SortStaysReachable(g, names[1..], stack, s, x);
    } else if x == n {
      ReachesItself(g, n);
    } else {
      Shrinks(g, s, n);
      var below := Sort(g, Out(g, n), stack + [n], Enter(s, n)).s;
      if x in below.state {
        SortStaysReachable(g, Out(g, n), stack + [n], Enter(s, n), x);
        var a :| a in Out(g, n) && Reaches(g, a, x);
        EdgeReaches(g, n, a);
        ReachesTransitive(g, n, a, x);
      } else {
        SortStaysReachable(g, names[1..], stack, Finish(below, n), x);
      }
    }
  }

  /** The whole search: every declared name is visited, in whatever order. */
  function Search0(g: Graph, names: seq<string>): Outcome {
    Sort(g, names, [], UNSEARCHED)
  }

  /** The search fails exactly when the graph has a cycle, and the names it reports are
      one. */
  lemma SearchReportsWalk(g: Graph, names: seq<string>)
    ensures Search0(g, names).Cycle? ==> ClosingWalk(g, Search0(g, names).names)
  {
    if Search0(g, names).Cycle? {
      SortReportsWalk(g, names, [], UNSEARCHED);
    }
  }

  lemma SearchFailsIffCyclic(g: Graph, names: seq<string>)
    requires forall n | n in g :: n in names
    ensures Search0(g, names).Settled? <==> Acyclic(g)
    ensures Search0(g, names).Cycle? ==>
              var c := Search0(g, names).names;
              ClosingWalk(g, c) && OnCycle(g, c[|c| - 1])
  {
    var r := Search0(g, names);
    if r.Cycle? {
      SearchReportsWalk(g, names);
      RepeatingWalkHoldsCycle(g, r.names);
    } else {
      SortSettles(g, names, [], UNSEARCHED);
      forall a ensures !OnCycle(g, a) {
        if a in g {
          assert r.s.Is(a, Black);
          OrderedIsOffCycles(g, r.s.order, a);
        } else {
          NoCycleFromUndeclared(g, a);
        }
      }
    }
  }

  lemma NoCycleFromUndeclared(g: Graph, a: string)
    ensures OnCycle(g, a) ==> a in g
  {
    if OnCycle(g, a) {
      var p :| |p| > 1 && WalkBetween(g, p, a, a);
      assert Edge(g, p[1 - 1], p[1]);
    }
  }

  /** A settled search lists exactly the names asked for and what they reach, each once,
      every dependency first. */
  lemma SettledOrder(g: Graph, names: seq<string>)
    requires Search0(g, names).Settled?
    ensures var order := Search0(g, names).s.order;
            && NoDuplicates(order) && DependenciesFirst(g, order)
            && (forall n | n in names :: n in order)
            && (forall x | x in order :: ReachedFrom(g, names, x))
  {
    SortSettles(g, names, [], UNSEARCHED);
    var r := Search0(g, names).s;
    forall x | x in r.order ensures ReachedFrom(g, names, x) {
      assert r.Is(x, Black);
      SortStaysReachable(g, names, [], UNSEARCHED, x);
    }
    assert forall n | n in names :: r.Is(n, Black);
  }

  /** Where every dependency is declared, a settled search lists exactly the declared. */
  lemma SettledNamesAreDeclared(g: Graph, names: seq<string>)
    requires Search0(g, names).Settled? && forall n :: n in names <==> n in g
    requires forall a, b | Edge(g, a, b) :: b in g
    ensures NoDuplicates(Search0(g, names).s.order)
    ensures forall n :: n in Search0(g, names).s.order <==> n in g
  {
    SettledOrder(g, names);
    var order := Search0(g, names).s.order;
    forall n | n in order ensures n in g {
      var a :| a in names && Reaches(g, a, n);
      var p :| WalkBetween(g, p, a, n);
      if |p| > 1 {
        assert Edge(g, p[|p| - 1 - 1], p[|p| - 1]);
      }
    }
  }
}
