/** The expressions for which evaluating locals can be trusted, when the names are visited
    as evaluateLocals visits them: sorted. */
module SteadySorted {
  import opened Graphs
  import opened Stack
  import opened CycleSearch
  import opened Equations
  import opened Locals
  import opened Steady
  import opened Sorted

  /** When n is evaluated where exactly a is known. The first name of all is evaluated with
      nothing known but what it mentions, and what that mentions in turn; any other may be
      evaluated with anything known. */
  ghost predicate Reachable<V>(n: string, e: Expr<V>, a: map<string, V>, b: map<string, V>) {
    || a == map[]
    || (exists m :: m in b && Before(m, n))
    || (exists m :: m in a && m in e.names)
  }

  ghost predicate SteadyInOrder<V(!new)>(n: string, e: Expr<V>) {
    forall a: map<string, V>, b: map<string, V> | Later(n, e, a, b) && Reachable(n, e, a, b) :: e.eval(b) == e.eval(a)
  }

  lemma FirstOfAll<V>(sys: System<V>, names: seq<string>, n: string)
    requires InOrder(names) && (forall m :: m in names <==> m in sys) && n in sys
    requires forall m | m in sys :: !Before(m, n)
    ensures names != [] && names[0] == n
  {
    var i :| 0 <= i < |names| && names[i] == n;
    assert names[0] in names;
  }

  /** A steady expression holds in every system whose names are visited in order. */
  lemma SteadyInOrderHolds<V(!new)>(n: string, sys: System<V>, names: seq<string>)
    requires InOrder(names) && (forall m :: m in names <==> m in sys) && n in sys && SteadyInOrder(n, sys[n])
    ensures HoldsFor(n, sys, names)
  {
    if Evaluate(sys, names).Solved? {
      var p, q := SettledAround(sys, names, n);
      var a := EvaluatedIn(sys, p, n, q);
      var b := Evaluate(sys, names).p.locals;
      assert Later(n, sys[n], a, b);
      assert Reachable(n, sys[n], a, b) by {
        if forall m | m in sys :: !Before(m, n) {
          FirstOfAll(sys, names, n);
          FirstKnowsItsNeeds(sys, p, n, q, a);
        }
      }
    }
  }

  lemma FirstKnowsItsNeeds<V(!new)>(sys: System<V>, p: seq<string>, n: string, q: seq<string>, a: map<string, V>)
    requires NoDuplicates(p + [n] + q) && DependenciesFirst(NeedsGraph(sys), p + [n] + q) && n in sys
    requires (forall m | m in p :: m in sys) && Fold(sys, p) == Some(a)
    requires Needs(sys, n) == [] ==> (p + [n] + q)[0] == n
    ensures a == map[] || exists m :: m in a && m in sys[n].names
  {
    if Needs(sys, n) == [] {
      OnlyFirst(p, n, q);
    } else {
      NeedsBefore(sys, p, n, q);
      assert Needs(sys, n)[0] in Needs(sys, n);
    }
  }

  lemma OnlyFirst(p: seq<string>, n: string, q: seq<string>)
    requires NoDuplicates(p + [n] + q) && (p + [n] + q)[0] == n
    ensures p == []
  {
    assert (p + [n] + q)[|p|] == n;
  }

  // An expression that is not steady in order fails in some system.

  /** A system around n: every name but n has its value in b. What is in a mentions
      nothing, but for hub, which mentions all of a; what is in neither mentions all of a,
      and then n. */
  function Staged<V(!new)>(n: string, e: Expr<V>, a: map<string, V>, b: map<string, V>, la: seq<string>,
      hub: Option<string>): System<V>
  {
    map m | m in b ::
      if m == n then e
      else Expr(if hub == Some(m) then la else if m in a then [] else la + [n], (env: map<string, V>) => Some(b[m]))
  }

  ghost predicate Stage<V(!new)>(sys: System<V>, n: string, e: Expr<V>, a: map<string, V>, b: map<string, V>,
      la: seq<string>, hub: Option<string>)
  {
    && Later(n, e, a, b) && (forall m :: m in la <==> m in a) && (hub.Some? ==> hub.value in a)
    && sys.Keys == b.Keys && sys[n] == e
    && (forall m | m in a && hub != Some(m) :: Constant(sys, b, m))
    && (hub.Some? ==> Mentioning(sys, b, hub.value, la))
    && (forall m | m in b && m !in a && m != n :: Mentioning(sys, b, m, la + [n]))
  }

  /** The local m mentions names, and has its value in b whatever they are. */
  ghost predicate Mentioning<V(!new)>(sys: System<V>, b: map<string, V>, m: string, names: seq<string>) {
    m in sys && m in b && sys[m].names == names && forall env :: sys[m].eval(env) == Some(b[m])
  }

  lemma StagedIsStage<V(!new)>(n: string, e: Expr<V>, a: map<string, V>, b: map<string, V>, la: seq<string>,
      hub: Option<string>)
    requires Later(n, e, a, b) && (forall m :: m in la <==> m in a) && (hub.Some? ==> hub.value in a)
    ensures Stage(Staged(n, e, a, b, la, hub), n, e, a, b, la, hub)
  {
  }

  lemma KnownSame<V>(p: Progress<V>, q: seq<string>, r: seq<string>, b: map<string, V>)
    requires (forall m :: m in q <==> m in r) && forall m | m in q :: m in b
    ensures (forall m | m in r :: m in b) && Known(p, q, b) == Known(p, r, b)
  {
    assert (map m | m in q :: Black) == map m | m in r :: Black;
    assert (map m | m in q :: b[m]) == map m | m in r :: b[m];
  }

  /** Leaving x, entered before q was resolved. */
  lemma LeaveKnown<V>(p: Progress<V>, x: string, q: seq<string>, b: map<string, V>)
    requires x in b && forall m | m in q :: m in b
    ensures var k := Known(p.(state := p.state[x := Gray]), q, b);
            Progress(k.state[x := Black], k.locals[x := b[x]]) == Known(p, q + [x], b)
  {
    LeaveBlack(p.state, x, q);
    LeaveLocals(p.locals, x, q, b);
  }

  lemma LeaveBlack(state: map<string, Colour>, x: string, q: seq<string>)
    ensures (state[x := Gray] + map m | m in q :: Black)[x := Black] == state + map m | m in q + [x] :: Black
  {
  }

  lemma LeaveLocals<V>(locals: map<string, V>, x: string, q: seq<string>, b: map<string, V>)
    requires x in b && forall m | m in q :: m in b
    ensures (locals + map m | m in q :: b[m])[x := b[x]] == locals + map m | m in q + [x] :: b[m]
  {
  }

  /** A local that mentions what resolves to q has its value once that is known. */
  lemma MentioningResolves<V(!new)>(sys: System<V>, b: map<string, V>, x: string, names: seq<string>, q: seq<string>,
      stack: seq<string>, p: Progress<V>)
    requires Mentioning(sys, b, x, names) && x !in p.state && forall m | m in q :: m in b
    requires Resolve(sys, Needs(sys, x), stack + [x], p.(state := p.state[x := Gray]))
          == Solved(Known(p.(state := p.state[x := Gray]), q, b))
    ensures Resolve(sys, [x], stack, p) == Solved(Known(p, q + [x], b))
  {
    ResolveEnters(sys, x, stack, p);
    LeaveKnown(p, x, q, b);
  }

  lemma {:induction false} OthersAll<V>(sys: System<V>, x: string, names: seq<string>)
    requires forall m | m in names :: m in sys && m != x
    ensures Others(sys, x, names) == names
  {
    if names != [] {
      assert names[0] in names;
      OthersAll(sys, x, names[1..]);
    }
  }

  /** The hub brings all of a. */
  lemma HubResolves<V(!new)>(sys: System<V>, n: string, e: Expr<V>, a: map<string, V>, b: map<string, V>,
      la: seq<string>, x: string, stack: seq<string>, p: Progress<V>)
    requires Stage(sys, n, e, a, b, la, Some(x)) && x !in p.state
    requires ReadyBut(sys, a, b, p, x)
    ensures Resolve(sys, [x], stack, p) == Solved(Known(p, la, b))
  {
    var entered, needs := p.(state := p.state[x := Gray]), Needs(sys, x);
    forall m | m in needs ensures Ready(sys, b, entered, m) {
      assert Ready(sys, b, p, m);
    }
    ResolveReady(sys, needs, stack + [x], b, entered);
    MentioningResolves(sys, b, x, la, needs, stack, p);
    KnownSame(p, needs + [x], la, b);
  }

  /** All of a is ready but x. */
  ghost predicate ReadyBut<V(!new)>(sys: System<V>, a: map<string, V>, b: map<string, V>, p: Progress<V>, x: string) {
    forall m | m in a && m != x :: Ready(sys, b, p, m)
  }

  lemma StaysReady<V(!new)>(sys: System<V>, a: map<string, V>, b: map<string, V>, p: Progress<V>, x: string, y: string)
    requires ReadyBut(sys, a, b, p, x) && Ready(sys, b, p, y)
    ensures ReadyBut(sys, a, b, Known(p, [y], b), x)
  {
  }

  lemma RestIsKnown<V(!new)>(sys: System<V>, n: string, e: Expr<V>, a: map<string, V>, b: map<string, V>,
      la: seq<string>, x: string, rest: seq<string>, stack: seq<string>, p: Progress<V>)
    requires Stage(sys, n, e, a, b, la, Some(x)) && forall m | m in rest :: m in a
    ensures Resolve(sys, rest, stack, Known(p, la, b)) == Solved(Known(p, la, b))
  {
    forall m | m in rest ensures m in sys && IsKnown(Known(p, la, b), b, m) {
      assert m in la;
    }
    AllKnown(sys, rest, stack, b, Known(p, la, b));
  }

  lemma {:induction false} HubNeeds<V(!new)>(sys: System<V>, n: string, e: Expr<V>, a: map<string, V>,
      b: map<string, V>, la: seq<string>, x: string, q: seq<string>, stack: seq<string>, p: Progress<V>)
    requires Stage(sys, n, e, a, b, la, Some(x)) && x !in p.state && x in q && forall m | m in q :: m in a
    requires ReadyBut(sys, a, b, p, x)
    ensures Resolve(sys, q, stack, p) == Solved(Known(p, la, b))
    decreases |q|
  {
    var y, rest := q[0], q[1..];
    assert y in q && q == [y] + rest;
    ResolveOneByOne(sys, q, stack, p);
    if y == x {
      HubResolves(sys, n, e, a, b, la, x, stack, p);
      RestIsKnown(sys, n, e, a, b, la, x, rest, stack, p);
    } else {
      ReadyResolves(sys, y, stack, b, p);
      StaysReady(sys, a, b, p, x, y);
      HubNeeds(sys, n, e, a, b, la, x, rest, stack, Known(p, [y], b));
      KnownThenAll(p, y, la, b);
    }
  }

  lemma KnownThenAll<V>(p: Progress<V>, y: string, la: seq<string>, b: map<string, V>)
    requires y in la && forall m | m in la :: m in b
    ensures Known(Known(p, [y], b), la, b) == Known(p, la, b)
  {
    KnownTogether(p, [y], la, b);
    KnownSame(p, [y] + la, la, b);
  }

  lemma AllKnown<V(!new)>(sys: System<V>, q: seq<string>, stack: seq<string>, b: map<string, V>, p: Progress<V>)
    requires forall m | m in q :: m in sys && IsKnown(p, b, m)
    ensures Resolve(sys, q, stack, p) == Solved(p)
  {
    ResolveReady(sys, q, stack, b, p);
    KnownAlready(p, q, b);
  }

  /** A name outside a brings all of a, and then n. */
  lemma OutsideResolves<V(!new)>(sys: System<V>, n: string, e: Expr<V>, a: map<string, V>, b: map<string, V>,
      la: seq<string>, hub: Option<string>, x: string, p: Progress<V>)
    requires Stage(sys, n, e, a, b, la, hub) && x in b && x !in a && x != n && x !in p.state
    requires forall m | m in a :: Ready(sys, b, p, m)
    requires IsKnown(p, b, n) || (n !in p.state && Within(p.locals, a))
    ensures Resolve(sys, [x], [], p) == Solved(Known(p, la + [n] + [x], b))
  {
    var entered := p.(state := p.state[x := Gray]);
    OthersAll(sys, x, la + [n]);
    SubjectFollows(sys, n, e, a, b, la, hub, [] + [x], entered) by {
      forall m | m in a ensures Ready(sys, b, entered, m) {
        assert Ready(sys, b, p, m);
      }
    }
    MentioningResolves(sys, b, x, la + [n], la + [n], [], p);
  }

  lemma SubjectFollows<V(!new)>(sys: System<V>, n: string, e: Expr<V>, a: map<string, V>, b: map<string, V>,
      la: seq<string>, hub: Option<string>, stack: seq<string>, p: Progress<V>)
    requires Stage(sys, n, e, a, b, la, hub) && forall m | m in a :: Ready(sys, b, p, m)
    requires IsKnown(p, b, n) || (n !in p.state && Within(p.locals, a))
    ensures forall m | m in la + [n] :: m in b
    ensures Resolve(sys, la + [n], stack, p) == Solved(Known(p, la + [n], b))
  {
    ResolveReady(sys, la, stack, b, p);
    var k := Known(p, la, b);
    if IsKnown(p, b, n) {
      AllKnown(sys, [n], stack, b, k);
      KnownAlready(k, [n], b);
    } else {
      AllOfA(a, b, la, p);
      SubjectResolves(sys, n, e, a, b, stack, k);
    }
    ResolveTogether(sys, la, [n], stack, p);
    KnownTogether(p, la, [n], b);
  }

  lemma AllOfA<V>(a: map<string, V>, b: map<string, V>, la: seq<string>, p: Progress<V>)
    requires Within(a, b) && Within(p.locals, a) && forall m :: m in la <==> m in a
    ensures Known(p, la, b).locals == a && forall m | m in a :: IsKnown(Known(p, la, b), b, m)
  {
  }

  /** All of a is known, and n is, or nothing else is. */
  ghost predicate Late<V>(n: string, a: map<string, V>, b: map<string, V>, p: Progress<V>) {
    && p.state.Keys == p.locals.Keys && (forall m | m in p.locals :: IsKnown(p, b, m))
    && (forall m | m in a :: m in p.locals) && (n !in p.locals ==> p.locals == a)
  }

  lemma KnownIsLate<V>(n: string, a: map<string, V>, b: map<string, V>, p: Progress<V>, q: seq<string>)
    requires (p.state.Keys == p.locals.Keys && forall m | m in p.locals :: IsKnown(p, b, m))
    requires forall m | m in q :: m in b
    requires forall m | m in a :: m in p.locals || m in q
    requires n in p.locals || n in q
    ensures Late(n, a, b, Known(p, q, b))
  {
  }

  /** Late, any name resolves, and it is late still. */
  lemma LateStep<V(!new)>(sys: System<V>, n: string, e: Expr<V>, a: map<string, V>, b: map<string, V>, la: seq<string>,
      hub: Option<string>, x: string, p: Progress<V>) returns (p': Progress<V>)
    requires Stage(sys, n, e, a, b, la, hub) && x in b && Late(n, a, b, p)
    ensures Resolve(sys, [x], [], p) == Solved(p') && Late(n, a, b, p')
    ensures x in p'.locals && p.locals.Keys <= p'.locals.Keys
  {
    if x in p.locals {
      AllKnown(sys, [x], [], b, p);
      p' := p;
    } else if x == n {
      p' := SubjectIsLate(sys, n, e, a, b, p);
    } else {
      LateIsReady(sys, n, a, b, p);
      p' := OutsideIsLate(sys, n, e, a, b, la, hub, x, p);
    }
  }

  lemma LateIsReady<V(!new)>(sys: System<V>, n: string, a: map<string, V>, b: map<string, V>, p: Progress<V>)
    requires Late(n, a, b, p) && sys.Keys == b.Keys
    ensures forall m | m in a :: Ready(sys, b, p, m)
    ensures IsKnown(p, b, n) || (n !in p.state && Within(p.locals, a))
  {
  }

  lemma SubjectIsLate<V(!new)>(sys: System<V>, n: string, e: Expr<V>, a: map<string, V>, b: map<string, V>,
      p: Progress<V>) returns (p': Progress<V>)
    requires sys.Keys == b.Keys && n in sys && sys[n] == e && Later(n, e, a, b)
    requires Late(n, a, b, p) && n !in p.locals
    ensures Resolve(sys, [n], [], p) == Solved(p') && Late(n, a, b, p')
    ensures n in p'.locals && p.locals.Keys <= p'.locals.Keys
  {
    p' := Known(p, [n], b);
    SubjectResolves(sys, n, e, a, b, [], p);
    KnownIsLate(n, a, b, p, [n]);
  }

  lemma OutsideIsLate<V(!new)>(sys: System<V>, n: string, e: Expr<V>, a: map<string, V>, b: map<string, V>,
      la: seq<string>, hub: Option<string>, x: string, p: Progress<V>) returns (p': Progress<V>)
    requires Stage(sys, n, e, a, b, la, hub) && x in b && x !in a && x != n && x !in p.state
    requires (p.state.Keys == p.locals.Keys && forall m | m in p.locals :: IsKnown(p, b, m))
    requires forall m | m in a :: Ready(sys, b, p, m)
    requires IsKnown(p, b, n) || (n !in p.state && Within(p.locals, a))
    ensures Resolve(sys, [x], [], p) == Solved(p') && Late(n, a, b, p')
    ensures x in p'.locals && p.locals.Keys <= p'.locals.Keys
  {
    OutsideResolves(sys, n, e, a, b, la, hub, x, p);
    p' := Known(p, la + [n] + [x], b);
    BroughtIsLate(n, a, b, la, x, p);
  }

  lemma BroughtIsLate<V>(n: string, a: map<string, V>, b: map<string, V>, la: seq<string>, x: string, p: Progress<V>)
    requires Within(a, b) && (forall m :: m in la <==> m in a) && n in b && x in b
    requires (p.state.Keys == p.locals.Keys && forall m | m in p.locals :: IsKnown(p, b, m))
    ensures forall m | m in la + [n] + [x] :: m in b
    ensures var p' := Known(p, la + [n] + [x], b);
            Late(n, a, b, p') && x in p'.locals && p.locals.Keys <= p'.locals.Keys
  {
    KnownIsLate(n, a, b, p, la + [n] + [x]);
  }

  lemma {:induction false} LateRest<V(!new)>(sys: System<V>, n: string, e: Expr<V>, a: map<string, V>,
      b: map<string, V>, la: seq<string>, hub: Option<string>, q: seq<string>, p: Progress<V>) returns (p': Progress<V>)
    requires Stage(sys, n, e, a, b, la, hub) && (forall m | m in q :: m in b) && Late(n, a, b, p)
    ensures Resolve(sys, q, [], p) == Solved(p') && Late(n, a, b, p')
    ensures p.locals.Keys <= p'.locals.Keys && forall m | m in q :: m in p'.locals
    decreases |q|
  {
    p' := p;
    if q != [] {
      assert q[0] in q && q == [q[0]] + q[1..];
      ResolveOneByOne(sys, q, [], p);
      p' := LateStep(sys, n, e, a, b, la, hub, q[0], p);
      p' := LateRest(sys, n, e, a, b, la, hub, q[1..], p');
    }
  }

  /** How the system is laid out, when s is the first name of all. */
  ghost predicate Laid<V(!new)>(n: string, e: Expr<V>, a: map<string, V>, b: map<string, V>, hub: Option<string>,
      s: string) {
    && s in b
    && (s in a ==> hub == Some(s))
    && (s == n ==> if hub.Some? then hub.value in a && hub.value in e.names else a == map[])
    && (s !in a && s != n ==> hub.None?)
  }

  /** Once the first name is resolved, it is late. */
  lemma FirstIsLate<V(!new)>(sys: System<V>, n: string, e: Expr<V>, a: map<string, V>, b: map<string, V>,
      la: seq<string>,
      hub: Option<string>, s: string) returns (p: Progress<V>)
    requires Stage(sys, n, e, a, b, la, hub) && Laid(n, e, a, b, hub, s)
    ensures Resolve(sys, [s], [], Progress(map[], map[])) == Solved(p) && Late(n, a, b, p) && s in p.locals
  {
    var none := Progress<V>.Progress(map[], map[]);
    if s in a {
      HubResolves(sys, n, e, a, b, la, s, [], none);
      AllOfA(a, b, la, none);
      p := Known(none, la, b);
    } else if s != n {
      p := OutsideIsLate(sys, n, e, a, b, la, hub, s, none);
    } else if hub.None? {
      p := SubjectIsLate(sys, n, e, a, b, none);
    } else {
      SubjectFirst(sys, n, e, a, b, la, hub.value);
      KnownIsLate(n, a, b, none, la + [n]);
      p := Known(none, la + [n], b);
    }
  }

  /** The first name of all mentions the hub, which brings all of a. */
  lemma SubjectFirst<V(!new)>(sys: System<V>, n: string, e: Expr<V>, a: map<string, V>, b: map<string, V>,
      la: seq<string>, x: string)
    requires Stage(sys, n, e, a, b, la, Some(x)) && x in e.names
    ensures forall m | m in la + [n] :: m in b
    ensures Resolve(sys, [n], [], Progress(map[], map[])) == Solved(Known(Progress(map[], map[]), la + [n], b))
  {
    var none := Progress<V>.Progress(map[], map[]);
    var entered := none.(state := none.state[n := Gray]);
    ResolveEnters(sys, n, [], none);
    HubNeeds(sys, n, e, a, b, la, x, Needs(sys, n), [] + [n], entered);
    AllOfA(a, b, la, entered);
    LeaveKnown(none, n, la, b);
  }

  /** Visited in order, n ends up in b after being evaluated in a. */
  lemma UnsteadyInOrderFails<V(!new)>(n: string, e: Expr<V>, a: map<string, V>, b: map<string, V>)
    returns (sys: System<V>, names: seq<string>)
    requires Later(n, e, a, b) && Reachable(n, e, a, b) && e.eval(b) != e.eval(a)
    ensures InOrder(names) && (forall m :: m in names <==> m in sys)
    ensures n in sys && sys[n] == e && !HoldsFor(n, sys, names)
  {
    names := SortedListing(b.Keys);
    var la := Listing(a.Keys);
    assert n in names;
    var hub := HubFor(n, e, a, b, names);
    StagedIsStage(n, e, a, b, la, hub);
    sys := Staged(n, e, a, b, la, hub);
    StageEndsInB(sys, n, e, a, b, la, hub, names);
  }

  lemma HubFor<V(!new)>(n: string, e: Expr<V>, a: map<string, V>, b: map<string, V>, names: seq<string>)
    returns (hub: Option<string>)
    requires Later(n, e, a, b) && Reachable(n, e, a, b) && InOrder(names) && names != [] && forall m ::
        m in names <==> m in b
    ensures Laid(n, e, a, b, hub, names[0]) && (hub.Some? ==> hub.value in a)
  {
    var s := names[0];
    if s == n {
      NothingBefore(names);
      if a == map[] {
        hub := None;
      } else {
        var m :| m in a && m in e.names;
        hub := Some(m);
      }
    } else {
      hub := if s in a then Some(s) else None;
    }
  }

  lemma NothingBefore(names: seq<string>)
    requires InOrder(names) && names != []
    ensures forall m | m in names :: !Before(m, names[0])
  {
    forall m | m in names ensures !Before(m, names[0]) {
      BeforeIsStrict(names[0], m);
    }
  }

  lemma StageEndsInB<V(!new)>(sys: System<V>, n: string, e: Expr<V>, a: map<string, V>, b: map<string, V>,
      la: seq<string>,
      hub: Option<string>, names: seq<string>)
    requires Stage(sys, n, e, a, b, la, hub) && names != [] && (forall m :: m in names <==> m in b)
        && Laid(n, e, a, b, hub, names[0])
    ensures (forall m :: m in names <==> m in sys) && Evaluate(sys, names).Solved? && Evaluate(sys, names).p.locals == b
  {
    var p := FirstIsLate(sys, n, e, a, b, la, hub, names[0]);
    assert names == [names[0]] + names[1..];
    ResolveOneByOne(sys, names, [], Progress(map[], map[]));
    var p' := LateRest(sys, n, e, a, b, la, hub, names[1..], p);
    assert forall m | m in names :: m == names[0] || m in names[1..];
    LateWithAllIsB(n, a, b, p', names);
  }

  lemma LateWithAllIsB<V>(n: string, a: map<string, V>, b: map<string, V>, p: Progress<V>, names: seq<string>)
    requires Late(n, a, b, p) && (forall m :: m in names <==> m in b) && forall m | m in names :: m in p.locals
    ensures p.locals == b
  {
  }

  /** The locals for which evaluation can be trusted, as the program visits them: an
      expression holds in the end in every system it may stand in, its names visited in
      order, if and only if it is steady in order. */
  lemma SteadyInOrderIffAlwaysHolds<V(!new)>(n: string, e: Expr<V>)
    ensures SteadyInOrder(n, e) <==>
            forall sys: System<V>, names: seq<string> |
              InOrder(names) && (forall m :: m in names <==> m in sys) && n in sys && sys[n] == e ::
                  HoldsFor(n, sys, names)
  {
    if SteadyInOrder(n, e) {
      forall sys: System<V>, names: seq<string> |
        InOrder(names) && (forall m :: m in names <==> m in sys) && n in sys && sys[n] == e
        ensures HoldsFor(n, sys, names)
      {
        SteadyInOrderHolds(n, sys, names);
      }
    } else {
      var a, b :| Later(n, e, a, b) && Reachable(n, e, a, b) && e.eval(b) != e.eval(a);
      var sys, names := UnsteadyInOrderFails(n, e, a, b);
    }
  }
}
