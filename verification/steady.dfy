/** Which expressions a local may have for its value to be right in the end: not all do,
    because evaluateLocals tracks only mentions by name. */
module Steady {
  import opened Graphs
  import opened Stack
  import opened CycleSearch
  import opened Equations
  import opened Locals

  /** Once every other local the expression of n mentions is known, knowing more (locals it
      does not mention, and its own value) does not change what it is. */
  ghost predicate Steady<V(!new)>(n: string, e: Expr<V>) {
    forall a: map<string, V>, b: map<string, V> | Later(n, e, a, b) :: e.eval(b) == e.eval(a)
  }

  /** Where n is evaluated, a, and an environment it may end up in, b. */
  ghost predicate Later<V(!new)>(n: string, e: Expr<V>, a: map<string, V>, b: map<string, V>) {
    && n !in a && e.eval(a).Some? && n in b && b[n] == e.eval(a).value
    && Within(a, b) && forall m | m in e.names && m in b && m != n :: m in a
  }

  ghost predicate Within<V>(a: map<string, V>, b: map<string, V>) {
    forall m | m in a :: m in b && b[m] == a[m]
  }

  /** In the environment the locals end in, n is the value of its expression. */
  ghost predicate HoldsFor<V(!new)>(n: string, sys: System<V>, names: seq<string>)
    requires (forall m :: m in names <==> m in sys) && n in sys
  {
    var r := Evaluate(sys, names);
    r.Solved? ==> n in r.p.locals && sys[n].eval(r.p.locals) == Some(r.p.locals[n])
  }

  lemma {:induction false} FoldGrows<V>(sys: System<V>, p: seq<string>, q: seq<string>)
    requires NoDuplicates(p + q) && (forall m | m in p + q :: m in sys) && Fold(sys, p + q).Some?
    ensures forall m | m in p :: m in sys
    ensures Fold(sys, p).Some? && Within(Fold(sys, p).value, Fold(sys, p + q).value)
    decreases |q|
  {
    forall m | m in p ensures m in sys {
      assert m in p + q;
    }
    if q == [] {
      assert p + q == p;
    } else {
      var init, last := q[..|q| - 1], q[|q| - 1];
      LastIsNew(p, q);
      FoldGrows(sys, p, init);
      FoldOneMore(sys, p + init, last);
    }
  }

  lemma LastIsNew(p: seq<string>, q: seq<string>)
    requires q != [] && NoDuplicates(p + q)
    ensures p + q == p + q[..|q| - 1] + [q[|q| - 1]]
    ensures NoDuplicates(p + q[..|q| - 1]) && q[|q| - 1] !in p + q[..|q| - 1]
  {
    var r := p + q[..|q| - 1];
    assert p + q == r + [q[|q| - 1]];
    forall i | 0 <= i < |r| ensures r[i] == (p + q)[i] && r[i] != q[|q| - 1] {
      assert (p + q)[i] != (p + q)[|r|];
    }
  }

  /** A steady expression holds in every system and every visiting order. */
  lemma SteadyHolds<V(!new)>(n: string, sys: System<V>, names: seq<string>)
    requires (forall m :: m in names <==> m in sys) && n in sys && Steady(n, sys[n])
    ensures HoldsFor(n, sys, names)
  {
    if Evaluate(sys, names).Solved? {
      var p, q := SettledAround(sys, names, n);
      var a := EvaluatedIn(sys, p, n, q);
      assert Later(n, sys[n], a, Evaluate(sys, names).p.locals);
    }
  }

  /** The order in which the locals were evaluated, split at one of them. */
  lemma SettledAround<V>(sys: System<V>, names: seq<string>, n: string) returns (p: seq<string>, q: seq<string>)
    requires (forall m :: m in names <==> m in sys) && n in sys && Evaluate(sys, names).Solved?
    ensures NoDuplicates(p + [n] + q) && DependenciesFirst(NeedsGraph(sys), p + [n] + q)
    ensures forall m :: m in p + [n] + q <==> m in sys
    ensures Fold(sys, p + [n] + q) == Some(Evaluate(sys, names).p.locals)
    ensures names != [] && Needs(sys, names[0]) == [] ==> (p + [n] + q)[0] == names[0]
  {
    var order := EvaluatedOrder(sys, names);
    p, q := SplitAt(order, n);
  }

  lemma SplitAt(order: seq<string>, n: string) returns (p: seq<string>, q: seq<string>)
    requires n in order
    ensures order == p + [n] + q
  {
    var i :| 0 <= i < |order| && order[i] == n;
    p, q := order[..i], order[i + 1..];
  }

  lemma EvaluatedOrder<V>(sys: System<V>, names: seq<string>) returns (order: seq<string>)
    requires (forall m :: m in names <==> m in sys) && Evaluate(sys, names).Solved?
    ensures NoDuplicates(order) && DependenciesFirst(NeedsGraph(sys), order) && forall m :: m in order <==> m in sys
    ensures Fold(sys, order) == Some(Evaluate(sys, names).p.locals)
    ensures names != [] && Needs(sys, names[0]) == [] ==> order != [] && order[0] == names[0]
  {
    SolvedFollowsSort(sys, names);
    order := Search0(NeedsGraph(sys), names).s.order;
    SettledNames(sys, names);
    assert DependenciesFirst(NeedsGraph(sys), order) by { SettledOrder(NeedsGraph(sys), names); }
    if names != [] && Needs(sys, names[0]) == [] {
      assert names[0] in names;
      FirstIsSettledFirst(NeedsGraph(sys), names);
    }
  }

  /** A first name that needs nothing is settled first. */
  lemma FirstIsSettledFirst(g: Graph, names: seq<string>)
    requires Search0(g, names).Settled? && names != [] && Out(g, names[0]) == []
    ensures Search0(g, names).s.order != [] && Search0(g, names).s.order[0] == names[0]
  {
    var n := names[0];
    var one := Finish(Enter(UNSEARCHED, n), n);
    assert Sort(g, names, [], UNSEARCHED) == Sort(g, names[1..], [], one);
    assert one.order == [n];
    FinishConsistent(g, UNSEARCHED, n, Enter(UNSEARCHED, n));
    SortSettles(g, names[1..], [], one);
  }

  /** The environment a name of an order is evaluated in. */
  lemma EvaluatedIn<V(!new)>(sys: System<V>, p: seq<string>, n: string, q: seq<string>) returns (a: map<string, V>)
    requires NoDuplicates(p + [n] + q) && DependenciesFirst(NeedsGraph(sys), p + [n] + q)
    requires (forall m :: m in p + [n] + q <==> m in sys) && Fold(sys, p + [n] + q).Some?
    ensures n in sys && Later(n, sys[n], a, Fold(sys, p + [n] + q).value)
    ensures (forall m | m in p :: m in sys) && Fold(sys, p) == Some(a)
  {
    FoldAt(sys, p, n, q);
    NeedsBefore(sys, p, n, q);
    a := Fold(sys, p).value;
  }

  lemma FoldAt<V>(sys: System<V>, p: seq<string>, n: string, q: seq<string>)
    requires NoDuplicates(p + [n] + q) && (forall m | m in p + [n] + q :: m in sys) && Fold(sys, p + [n] + q).Some?
    ensures n in sys && forall m | m in p :: m in sys
    ensures Fold(sys, p).Some? && Within(Fold(sys, p).value, Fold(sys, p + [n] + q).value)
    ensures n in Fold(sys, p + [n] + q).value
        && sys[n].eval(Fold(sys, p).value) == Some(Fold(sys, p + [n] + q).value[n])
  {
    assert p + [n] + q == p + ([n] + q);
    FoldGrows(sys, p, [n] + q);
    FoldGrows(sys, p + [n], q);
    assert n in p + [n];
    FoldStep(sys, p, n, Fold(sys, p + [n] + q).value);
  }

  lemma FoldStep<V>(sys: System<V>, order: seq<string>, n: string, b: map<string, V>)
    requires n in sys && (forall m | m in order :: m in sys) && Fold(sys, order + [n]).Some?
    requires Within(Fold(sys, order + [n]).value, b)
    ensures Fold(sys, order).Some? && n in b && sys[n].eval(Fold(sys, order).value) == Some(b[n])
  {
    FoldOneMore(sys, order, n);
  }

  lemma NeedsBefore<V>(sys: System<V>, p: seq<string>, n: string, q: seq<string>)
    requires NoDuplicates(p + [n] + q) && DependenciesFirst(NeedsGraph(sys), p + [n] + q) && n in sys
    ensures n !in p && forall m | m in sys[n].names && m in sys && m != n :: m in p
  {
    var order, i := p + [n] + q, |p|;
    assert order[i] == n && order[..i] == p;
    forall k | 0 <= k < i ensures p[k] != n {
      assert order[k] != order[i];
    }
    forall m | m in sys[n].names && m in sys && m != n ensures m in p {
      assert m in Needs(sys, n);
      assert Edge(NeedsGraph(sys), order[i], m);
    }
  }

  // An expression that is not steady fails in some system.

  lemma {:induction false} ResolveTogether<V>(sys: System<V>, q: seq<string>, r: seq<string>, stack: seq<string>,
      p: Progress<V>)
    requires (forall m | m in q :: m in sys) && forall m | m in r :: m in sys
    ensures Resolve(sys, q + r, stack, p) ==
            match Resolve(sys, q, stack, p) {
              case Solved(one) => Resolve(sys, r, stack, one)
              case other => other
            }
    decreases |q|
  {
    if q == [] {
      assert q + r == r;
    } else {
      assert (q + r)[1..] == q[1..] + r && (q + r)[0] == q[0];
      ResolveOneByOne(sys, q + r, stack, p);
      ResolveOneByOne(sys, q, stack, p);
      if Resolve(sys, [q[0]], stack, p).Solved? {
        ResolveTogether(sys, q[1..], r, stack, Resolve(sys, [q[0]], stack, p).p);
      }
    }
  }

  /** The local m is a constant, the value it has in b. */
  ghost predicate Constant<V(!new)>(sys: System<V>, b: map<string, V>, m: string) {
    m in sys && m in b && sys[m].names == [] && forall env :: sys[m].eval(env) == Some(b[m])
  }

  /** The local m is known, with the value it has in b; or nothing is known of it yet, and
      it is that constant. */
  ghost predicate Ready<V(!new)>(sys: System<V>, b: map<string, V>, p: Progress<V>, m: string) {
    && m in sys && m in b
    && if m in p.state then IsKnown(p, b, m) else Constant(sys, b, m)
  }

  ghost predicate IsKnown<V>(p: Progress<V>, b: map<string, V>, m: string) {
    m in p.state && p.state[m].Black? && m in p.locals && m in b && p.locals[m] == b[m]
  }

  function Known<V>(p: Progress<V>, q: seq<string>, b: map<string, V>): Progress<V>
    requires forall m | m in q :: m in b
  {
    Progress(p.state + (map m | m in q :: Black), p.locals + (map m | m in q :: b[m]))
  }

  lemma KnownAlready<V>(p: Progress<V>, q: seq<string>, b: map<string, V>)
    requires forall m | m in q :: IsKnown(p, b, m)
    ensures (forall m | m in q :: m in b) && Known(p, q, b) == p
  {
  }

  lemma KnownTogether<V>(p: Progress<V>, q: seq<string>, r: seq<string>, b: map<string, V>)
    requires forall m | m in q || m in r :: m in b
    ensures Known(Known(p, q, b), r, b) == Known(p, q + r, b)
  {
    BlackTogether(p.state, q, r);
    LocalsTogether(p.locals, q, r, b);
  }

  lemma BlackTogether(state: map<string, Colour>, q: seq<string>, r: seq<string>)
    ensures state + (map m | m in q :: Black) + (map m | m in r :: Black) == state + map m | m in q + r :: Black
  {
  }

  lemma LocalsTogether<V>(locals: map<string, V>, q: seq<string>, r: seq<string>, b: map<string, V>)
    requires forall m | m in q || m in r :: m in b
    ensures locals + (map m | m in q :: b[m]) + (map m | m in r :: b[m]) == locals + map m | m in q + r :: b[m]
  {
  }

  lemma ReadyResolves<V(!new)>(sys: System<V>, m: string, stack: seq<string>, b: map<string, V>, p: Progress<V>)
    requires Ready(sys, b, p, m)
    ensures Resolve(sys, [m], stack, p) == Solved(Known(p, [m], b))
  {
    if m in p.state {
      KnownAlready(p, [m], b);
    } else {
      assert Needs(sys, m) == [];
      ResolveEnters(sys, m, stack, p);
      KnownOne(p, m, b);
    }
  }

  /** Constants and what is known resolve to their values in b. */
  lemma {:induction false} ResolveReady<V(!new)>(sys: System<V>, q: seq<string>, stack: seq<string>,
      b: map<string, V>, p: Progress<V>)
    requires forall m | m in q :: Ready(sys, b, p, m)
    ensures forall m | m in q :: m in sys && m in b
    ensures Resolve(sys, q, stack, p) == Solved(Known(p, q, b))
    decreases |q|
  {
    if q == [] {
      KnownAlready(p, q, b);
    } else {
      assert q[0] in q && q == [q[0]] + q[1..];
      ReadyResolves(sys, q[0], stack, b, p);
      ResolveOneByOne(sys, q, stack, p);
      forall m | m in q[1..] ensures Ready(sys, b, Known(p, [q[0]], b), m) {
        assert m in q;
      }
      ResolveReady(sys, q[1..], stack, b, Known(p, [q[0]], b));
      KnownTogether(p, [q[0]], q[1..], b);
    }
  }

  /** Where exactly a is known, n takes the value it has in b. */
  lemma SubjectResolves<V(!new)>(sys: System<V>, n: string, e: Expr<V>, a: map<string, V>, b: map<string, V>,
      stack: seq<string>, p: Progress<V>)
    requires sys.Keys == b.Keys && n in sys && sys[n] == e && Later(n, e, a, b)
    requires p.locals == a && n !in p.state && forall m | m in a :: IsKnown(p, b, m)
    ensures Resolve(sys, [n], stack, p) == Solved(Known(p, [n], b))
  {
    var entered := p.(state := p.state[n := Gray]);
    ResolveEnters(sys, n, stack, p);
    NeedsResolve(sys, n, b, stack + [n], entered);
    KnownOne(p, n, b);
  }

  lemma KnownOne<V>(p: Progress<V>, n: string, b: map<string, V>)
    requires n in b
    ensures Known(p, [n], b) == Progress(p.state[n := Gray][n := Black], p.locals[n := b[n]])
  {
  }

  /** What n needs is known already. */
  lemma NeedsResolve<V(!new)>(sys: System<V>, n: string, b: map<string, V>, stack: seq<string>, p: Progress<V>)
    requires sys.Keys == b.Keys && n in sys
    requires forall m | m in sys[n].names && m in b && m != n :: IsKnown(p, b, m)
    ensures Resolve(sys, Needs(sys, n), stack, p) == Solved(p)
  {
    forall m | m in Needs(sys, n) ensures Ready(sys, b, p, m) && IsKnown(p, b, m) {
    }
    ResolveReady(sys, Needs(sys, n), stack, b, p);
    KnownAlready(p, Needs(sys, n), b);
  }

  lemma {:induction false} Listing(names: set<string>) returns (q: seq<string>)
    ensures NoDuplicates(q) && forall m :: m in q <==> m in names
  {
    if names == {} {
      q := [];
    } else {
      var m :| m in names;
      var rest := Listing(names - {m});
      q := rest + [m];
    }
  }

  /** The system whose locals are the constants of b, but for n. */
  function Around<V(!new)>(n: string, e: Expr<V>, b: map<string, V>): (sys: System<V>)
    ensures sys.Keys == b.Keys
  {
    map m | m in b :: if m == n then e else Expr([], (env: map<string, V>) => Some(b[m]))
  }

  /** Visited after exactly the locals of a, n ends up in b. */
  lemma UnsteadyFails<V(!new)>(n: string, e: Expr<V>, a: map<string, V>, b: map<string, V>)
      returns (sys: System<V>, names: seq<string>)
    requires Later(n, e, a, b) && e.eval(b) != e.eval(a)
    ensures (forall m :: m in names <==> m in sys) && n in sys && sys[n] == e && !HoldsFor(n, sys, names)
  {
    sys := Around(n, e, b);
    var before := Listing(a.Keys);
    var after := Listing(b.Keys - a.Keys - {n});
    names := before + [n] + after;
    AroundResolves(n, e, a, b, before, after);
  }

  lemma AroundResolves<V(!new)>(n: string, e: Expr<V>, a: map<string, V>, b: map<string, V>,
      before: seq<string>, after: seq<string>)
    requires Later(n, e, a, b)
    requires forall m :: m in before <==> m in a
    requires forall m :: m in after <==> m in b && m !in a && m != n
    ensures forall m | m in before + [n] + after :: m in b
    ensures Evaluate(Around(n, e, b), before + [n] + after).Solved?
    ensures Evaluate(Around(n, e, b), before + [n] + after).p.locals == b
  {
    var sys := Around(n, e, b);
    var p := BeforeResolves(n, e, a, b, before);
    var q := ThenSubjectResolves(n, e, a, b, p);
    InTurn(sys, before, [n], after, Progress(map[], map[]), p, q);
    AfterResolves(n, e, a, b, after, q);
  }

  lemma ThenSubjectResolves<V(!new)>(n: string, e: Expr<V>, a: map<string, V>, b: map<string, V>, p: Progress<V>)
    returns (q: Progress<V>)
    requires Later(n, e, a, b) && p.locals == a && p.state.Keys == a.Keys && forall m | m in a :: IsKnown(p, b, m)
    ensures Resolve(Around(n, e, b), [n], [], p) == Solved(q)
    ensures q.locals == a[n := b[n]] && q.state.Keys == q.locals.Keys
  {
    q := Known(p, [n], b);
    SubjectResolves(Around(n, e, b), n, e, a, b, [], p);
  }

  lemma InTurn<V>(sys: System<V>, q: seq<string>, r: seq<string>, t: seq<string>, p0: Progress<V>, p1: Progress<V>,
      p2: Progress<V>)
    requires (forall m | m in q :: m in sys) && (forall m | m in r :: m in sys) && forall m | m in t :: m in sys
    requires Resolve(sys, q, [], p0) == Solved(p1) && Resolve(sys, r, [], p1) == Solved(p2)
    ensures Resolve(sys, q + r + t, [], p0) == Resolve(sys, t, [], p2)
  {
    ResolveTogether(sys, q, r, [], p0);
    ResolveTogether(sys, q + r, t, [], p0);
  }

  lemma BeforeResolves<V(!new)>(n: string, e: Expr<V>, a: map<string, V>, b: map<string, V>, before: seq<string>)
    returns (p: Progress<V>)
    requires Later(n, e, a, b) && forall m :: m in before <==> m in a
    ensures Resolve(Around(n, e, b), before, [], Progress(map[], map[])) == Solved(p)
    ensures p.locals == a && p.state.Keys == a.Keys && forall m | m in a :: IsKnown(p, b, m)
  {
    var none := Progress<V>.Progress(map[], map[]);
    ResolveReady(Around(n, e, b), before, [], b, none);
    p := Known(none, before, b);
  }

  lemma AfterResolves<V(!new)>(n: string, e: Expr<V>, a: map<string, V>, b: map<string, V>, after: seq<string>,
      q: Progress<V>)
    requires Later(n, e, a, b) && forall m :: m in after <==> m in b && m !in a && m != n
    requires q.locals == a[n := b[n]] && q.state.Keys == q.locals.Keys
    ensures Resolve(Around(n, e, b), after, [], q).Solved? && Resolve(Around(n, e, b), after, [], q).p.locals == b
  {
    ResolveReady(Around(n, e, b), after, [], b, q);
    RestIsAfter(n, e, a, b, after);
  }

  lemma RestIsAfter<V(!new)>(n: string, e: Expr<V>, a: map<string, V>, b: map<string, V>, after: seq<string>)
    requires Later(n, e, a, b) && forall m :: m in after <==> m in b && m !in a && m != n
    ensures a[n := b[n]] + (map m | m in after :: b[m]) == b
  {
  }

  /** The locals for which evaluation can be trusted: an expression holds in the end in
      every system it may stand in, and every order that may be visited in, if and only if
      it is steady. */
  lemma SteadyIffAlwaysHolds<V(!new)>(n: string, e: Expr<V>)
    ensures Steady(n, e) <==>
            forall sys: System<V>, names: seq<string> |
              (forall m :: m in names <==> m in sys) && n in sys && sys[n] == e :: HoldsFor(n, sys, names)
  {
    if Steady(n, e) {
      forall sys: System<V>, names: seq<string> | (forall m :: m in names <==> m in sys) && n in sys && sys[n] == e
        ensures HoldsFor(n, sys, names) {
        SteadyHolds(n, sys, names);
      }
    } else {
      var a, b :| Later(n, e, a, b) && e.eval(b) != e.eval(a);
      var sys, names := UnsteadyFails(n, e, a, b);
    }
  }

  /** Reading only what is mentioned, and not oneself, is steady. */
  lemma TrackedIsSteady<V(!new)>(n: string, e: Expr<V>)
    requires n !in e.names
    requires forall a, b | Agree(e.names, a, b) :: e.eval(a) == e.eval(b)
    ensures Steady(n, e)
  {
    forall a: map<string, V>, b: map<string, V> | Later(n, e, a, b) ensures e.eval(b) == e.eval(a) {
      assert Agree(e.names, a, b);
    }
  }

  /** Where every expression is steady, what evaluation leaves solves the system. */
  lemma SteadyLocalsAreASolution<V(!new)>(sys: System<V>, names: seq<string>)
    requires (forall m :: m in names <==> m in sys) && Evaluate(sys, names).Solved?
    requires forall n | n in sys :: Steady(n, sys[n])
    ensures Solution(sys, Evaluate(sys, names).p.locals)
  {
    var order := EvaluatedOrder(sys, names);
    forall n | n in sys ensures HoldsFor(n, sys, names) {
      SteadyHolds(n, sys, names);
    }
  }

  /** A local that asks whether it is itself known is evaluated before it is. */
  lemma SelfReadIsNoSolution()
    ensures var asks := Expr<nat>.Expr(["a"], env => Some(if "a" in env then 2 else 1));
            var r := Evaluate(map["a" := asks], ["a"]);
            r.Solved? && r.p.locals == map["a" := 1] && asks.eval(r.p.locals) == Some(2)
  {
    var asks := Expr<nat>.Expr(["a"], env => Some(if "a" in env then 2 else 1));
    var sys, none := map["a" := asks], Progress<nat>.Progress(map[], map[]);
    ResolveEnters(sys, "a", [], none);
    assert Needs(sys, "a") == [];
  }

  /** A local that mentions itself where it is not read is accepted, though its mentions
      have a cycle. */
  lemma UnreadSelfMentionIsAccepted()
    ensures var one := Expr<nat>.Expr(["a"], env => Some(1));
            var sys := map["a" := one];
            var r := Evaluate(sys, ["a"]);
            r.Solved? && Solution(sys, r.p.locals) && OnCycle(Mentions(sys), "a")
  {
    var one := Expr<nat>.Expr(["a"], env => Some(1));
    var sys, none := map["a" := one], Progress<nat>.Progress(map[], map[]);
    ResolveEnters(sys, "a", [], none);
    assert Needs(sys, "a") == [];
    ReachesItself(Mentions(sys), "a");
    EdgeAndBackIsCycle(Mentions(sys), "a", "a");
  }
}
