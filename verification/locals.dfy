/** The locals of a stack (evaluateLocals): a depth-first search that evaluates each local
    once the locals it mentions are known. */
module Locals {
  import opened Graphs
  import opened Stack
  import opened CycleSearch
  import opened Equations

  datatype Progress<V> = Progress(state: map<string, Colour>, locals: map<string, V>)

  datatype Resolved<V> = Solved(p: Progress<V>) | Cyclic(names: seq<string>) | Failing(name: string)

  /** The locals n's expression mentions, other than n, in order. */
  function Needs<V>(sys: System<V>, n: string): (r: seq<string>)
    requires n in sys
    ensures forall m :: m in r <==> m in sys[n].names && m in sys && m != n
  {
    Others(sys, n, sys[n].names)
  }

  function Others<V>(sys: System<V>, n: string, names: seq<string>): (r: seq<string>)
    ensures forall m :: m in r <==> m in names && m in sys && m != n
  {
    if names == [] then []
    else if names[0] in sys && names[0] != n then [names[0]] + Others(sys, n, names[1..])
    else Others(sys, n, names[1..])
  }

  function NeedsGraph<V>(sys: System<V>): (g: Graph)
    ensures g.Keys == sys.Keys
  {
    map n | n in sys :: Needs(sys, n)
  }

  /** Resolves names in order, below the locals on stack. */
  function Resolve<V>(sys: System<V>, names: seq<string>, stack: seq<string>, p: Progress<V>): (r: Resolved<V>)
    requires forall n | n in names :: n in sys
    ensures r.Solved? ==> p.state.Keys <= r.p.state.Keys
    decreases sys.Keys - p.state.Keys, |names|
  {
    if names == [] then Solved(p)
    else
      var n := names[0];
      assert n in names;
      if n in p.state then
        if p.state[n].Black? then Resolve(sys, names[1..], stack, p) else Cyclic(stack + [n])
      else
        assert n in sys.Keys - p.state.Keys;
        var below := Resolve(sys, Needs(sys, n), stack + [n], p.(state := p.state[n := Gray]));
        if !below.Solved? then below
        else match sys[n].eval(below.p.locals)
          case None => Failing(n)
          case Some(v) =>
            Resolve(sys, names[1..], stack, Progress(below.p.state[n := Black], below.p.locals[n := v]))
  }

  ghost predicate Follows<V>(sys: System<V>, p: Progress<V>, s: Search) {
    && p.state == s.state && (forall n | n in s.order :: n in sys)
    && Fold(sys, s.order) == Some(p.locals)
  }

  /** Resolving walks the search of the cycle check, and what it has evaluated is the
      evaluation of the order settled so far. */
  lemma {:induction false} ResolveFollowsSort<V>(sys: System<V>, names: seq<string>, stack: seq<string>,
      p: Progress<V>, s: Search)
    requires forall n | n in names :: n in sys
    requires Follows(sys, p, s)
    ensures var r, t := Resolve(sys, names, stack, p), Sort(NeedsGraph(sys), names, stack, s);
            && (r.Solved? ==> t.Settled? && Follows(sys, r.p, t.s))
            && (r.Cyclic? ==> t == Cycle(r.names))
    decreases sys.Keys - p.state.Keys, |names|
  {
    if names != [] {
      var g, n := NeedsGraph(sys), names[0];
      assert n in names;
      if n in p.state {
        if p.state[n].Black? {
          ResolveFollowsSort(sys, names[1..], stack, p, s);
        }
      } else {
        assert n in sys.Keys - p.state.Keys;
        Shrinks(g, s, n);
        var entered := p.(state := p.state[n := Gray]);
        ResolveFollowsSort(sys, Needs(sys, n), stack + [n], entered, Enter(s, n));
        var below := Resolve(sys, Needs(sys, n), stack + [n], entered);
        if below.Solved? && sys[n].eval(below.p.locals).Some? {
          var t := Sort(g, Needs(sys, n), stack + [n], Enter(s, n)).s;
          FoldOneMore(sys, t.order, n);
          ResolveFollowsSort(sys, names[1..], stack,
            Progress(below.p.state[n := Black], below.p.locals[n := sys[n].eval(below.p.locals).value]), Finish(t, n));
        }
      }
    }
  }

  lemma FoldOneMore<V>(sys: System<V>, order: seq<string>, n: string)
    requires n in sys && forall m | m in order :: m in sys
    ensures Fold(sys, order + [n]) ==
            match Fold(sys, order)
            case None => None
            case Some(env) => if sys[n].eval(env).Some? then Some(env[n := sys[n].eval(env).value]) else None
  {
    assert (order + [n])[..|order|] == order;
  }

  lemma {:induction false} FoldPrefix<V>(sys: System<V>, order: seq<string>, k: nat)
    requires k <= |order| && (forall m | m in order :: m in sys) && Fold(sys, order).Some?
    ensures Fold(sys, order[..k]).Some?
    decreases |order|
  {
    if k < |order| {
      assert order[..|order| - 1][..k] == order[..k];
      FoldPrefix(sys, order[..|order| - 1], k);
    } else {
      assert order[..k] == order;
    }
  }

  /** Where the cycle check settles an order that evaluates, resolving succeeds. */
  lemma {:induction false} ResolveSucceeds<V>(sys: System<V>, names: seq<string>, stack: seq<string>, p: Progress<V>,
      s: Search)
    requires forall n | n in names :: n in sys
    requires Follows(sys, p, s) && Consistent(NeedsGraph(sys), s)
    requires Sort(NeedsGraph(sys), names, stack, s).Settled?
    requires forall n | n in Sort(NeedsGraph(sys), names, stack, s).s.order :: n in sys
    requires Fold(sys, Sort(NeedsGraph(sys), names, stack, s).s.order).Some?
    ensures Resolve(sys, names, stack, p).Solved?
    decreases sys.Keys - p.state.Keys, |names|
  {
    if names != [] {
      var g, n := NeedsGraph(sys), names[0];
      var whole := Sort(g, names, stack, s).s.order;
      assert n in names;
      if n in p.state {
        ResolveSucceeds(sys, names[1..], stack, p, s);
      } else {
        assert n in sys.Keys - p.state.Keys;
        Shrinks(g, s, n);
        var entered := p.(state := p.state[n := Gray]);
        var t := Sort(g, Needs(sys, n), stack + [n], Enter(s, n)).s;
        EnterConsistent(g, s, n);
        SortSettles(g, Needs(sys, n), stack + [n], Enter(s, n));
        FinishConsistent(g, s, n, t);
        SortSettles(g, names[1..], stack, Finish(t, n));
        PrefixesEvaluate(sys, t.order, n, whole);
        ResolveSucceeds(sys, Needs(sys, n), stack + [n], entered, Enter(s, n));
        ResolveFollowsSort(sys, Needs(sys, n), stack + [n], entered, Enter(s, n));
        var below := Resolve(sys, Needs(sys, n), stack + [n], entered).p;
        var next := Progress(below.state[n := Black], below.locals[n := sys[n].eval(below.locals).value]);
        ResolveSucceeds(sys, names[1..], stack, next, Finish(t, n));
      }
    }
  }

  lemma EnterConsistent(g: Graph, s: Search, n: string)
    requires Consistent(g, s) && n !in s.state
    ensures Consistent(g, Enter(s, n))
  {
    assert forall x :: Enter(s, n).Is(x, Black) <==> s.Is(x, Black);
  }

  lemma PrefixesEvaluate<V>(sys: System<V>, order: seq<string>, n: string, whole: seq<string>)
    requires order + [n] <= whole && (forall m | m in whole :: m in sys) && Fold(sys, whole).Some?
    ensures n in sys && forall m | m in order :: m in sys
    ensures Fold(sys, order).Some? && sys[n].eval(Fold(sys, order).value).Some? && Fold(sys, order + [n]).Some?
  {
    assert n in order + [n] && whole[|order|] == n;
    assert forall i | 0 <= i < |order| :: order[i] == whole[i];
    assert whole[..|order|] == order && whole[..|order| + 1] == order + [n];
    FoldPrefix(sys, whole, |order|);
    FoldPrefix(sys, whole, |order| + 1);
    FoldOneMore(sys, order, n);
  }

  /** The locals, visited in the order given. */
  function Evaluate<V>(sys: System<V>, names: seq<string>): Resolved<V>
    requires forall n | n in names :: n in sys
  {
    Resolve(sys, names, [], Progress(map[], map[]))
  }

  /** The system in which no expression sees its own name. */
  function Unselfed<V>(sys: System<V>): (r: System<V>)
    ensures r.Keys == sys.Keys
  {
    map n | n in sys :: Expr(Apart(sys[n].names, n), (env: map<string, V>) => sys[n].eval(env - {n}))
  }

  function Apart(names: seq<string>, n: string): (r: seq<string>)
    ensures forall m :: m in r <==> m in names && m != n
  {
    if names == [] then []
    else (if names[0] == n then [] else [names[0]]) + Apart(names[1..], n)
  }

  /** Every local has the value its expression has among the others. */
  ghost predicate SolvedApart<V>(sys: System<V>, env: map<string, V>) {
    env.Keys == sys.Keys && forall n | n in sys :: sys[n].eval(env - {n}) == Some(env[n])
  }

  /** What evaluateLocals computes: it succeeds with env if and only if no local comes to
      need itself through others and every local has in env the value its expression has
      among the others. So the result is unique, and neither the block order nor the
      visiting order matters. */
  lemma LocalsAreTheSolution<V(!new)>(sys: System<V>, names: seq<string>, env: map<string, V>)
    requires Tracked(sys) && forall n :: n in names <==> n in sys
    ensures Evaluate(sys, names).Solved? && Evaluate(sys, names).p.locals == env <==>
            Acyclic(NeedsGraph(sys)) && SolvedApart(sys, env)
  {
    SearchFailsIffCyclic(NeedsGraph(sys), names);
    if Evaluate(sys, names).Solved? {
      SolvedFollowsSort(sys, names);
    }
    if Search0(NeedsGraph(sys), names).Settled? {
      SettledFoldIff(sys, names, env);
      if SolvedApart(sys, env) {
        FoldedIsReached(sys, names);
      }
    }
  }

  /** In the order the search settles, folding yields exactly the locals solved apart. */
  lemma SettledFoldIff<V(!new)>(sys: System<V>, names: seq<string>, env: map<string, V>)
    requires Tracked(sys) && forall n :: n in names <==> n in sys
    requires Search0(NeedsGraph(sys), names).Settled?
    ensures var order := Search0(NeedsGraph(sys), names).s.order;
            && (forall n | n in order :: n in sys)
            && (Fold(sys, order) == Some(env) <==> SolvedApart(sys, env))
  {
    var order := Search0(NeedsGraph(sys), names).s.order;
    SettledIsComplete(sys, names);
    FoldUnselfed(sys, order);
    UnselfedIsTracked(sys);
    FoldIffSolution(Unselfed(sys), order, env);
  }

  lemma UnselfedIsTracked<V(!new)>(sys: System<V>)
    requires Tracked(sys)
    ensures Tracked(Unselfed(sys))
  {
    var apart := Unselfed(sys);
    forall n, a, b | n in apart && Agree(apart[n].names, a, b) ensures apart[n].eval(a) == apart[n].eval(b) {
      assert Agree(sys[n].names, a - {n}, b - {n});
    }
  }

  /** A name that has not come up yet is not in the environment it is evaluated in. */
  lemma {:induction false} FoldUnselfed<V>(sys: System<V>, order: seq<string>)
    requires NoDuplicates(order) && forall m | m in order :: m in sys
    ensures Fold(Unselfed(sys), order) == Fold(sys, order)
    decreases |order|
  {
    if order != [] {
      var init, last := order[..|order| - 1], order[|order| - 1];
      FoldUnselfed(sys, init);
      if Fold(sys, init).Some? {
        assert last !in init;
        assert Fold(sys, init).value - {last} == Fold(sys, init).value;
      }
    }
  }

  lemma SolvedFollowsSort<V>(sys: System<V>, names: seq<string>)
    requires (forall n :: n in names <==> n in sys) && Evaluate(sys, names).Solved?
    ensures var t := Search0(NeedsGraph(sys), names);
            && t.Settled? && (forall n | n in t.s.order :: n in sys)
            && Fold(sys, t.s.order) == Some(Evaluate(sys, names).p.locals)
  {
    ResolveFollowsSort(sys, names, [], Progress(map[], map[]), UNSEARCHED);
  }

  lemma FoldedIsReached<V>(sys: System<V>, names: seq<string>)
    requires (forall n :: n in names <==> n in sys) && Search0(NeedsGraph(sys), names).Settled?
    requires forall n | n in Search0(NeedsGraph(sys), names).s.order :: n in sys
    requires Fold(sys, Search0(NeedsGraph(sys), names).s.order).Some?
    ensures Evaluate(sys, names).Solved?
    ensures Fold(sys, Search0(NeedsGraph(sys), names).s.order) == Some(Evaluate(sys, names).p.locals)
  {
    ResolveSucceeds(sys, names, [], Progress(map[], map[]), UNSEARCHED);
    SolvedFollowsSort(sys, names);
  }

  lemma SettledIsComplete<V>(sys: System<V>, names: seq<string>)
    requires Search0(NeedsGraph(sys), names).Settled? && forall n :: n in names <==> n in sys
    ensures Complete(Unselfed(sys), Search0(NeedsGraph(sys), names).s.order)
  {
    SettledNames(sys, names);
    assert DependenciesFirst(NeedsGraph(sys), Search0(NeedsGraph(sys), names).s.order) by {
      SettledOrder(NeedsGraph(sys), names);
    }
    NeedsFirst(sys, Search0(NeedsGraph(sys), names).s.order);
  }

  lemma SettledNames<V>(sys: System<V>, names: seq<string>)
    requires Search0(NeedsGraph(sys), names).Settled? && forall n :: n in names <==> n in sys
    ensures var order := Search0(NeedsGraph(sys), names).s.order;
            NoDuplicates(order) && forall n :: n in order <==> n in sys
  {
    var g := NeedsGraph(sys);
    assert forall n :: n in names <==> n in g;
    assert forall a, b | Edge(g, a, b) :: b in g;
    SettledNamesAreDeclared(g, names);
  }

  /** What a local needs is what its expression mentions but itself. */
  lemma NeedsFirst<V>(sys: System<V>, order: seq<string>)
    requires DependenciesFirst(NeedsGraph(sys), order)
    ensures DependenciesFirst(Mentions(Unselfed(sys)), order)
  {
    forall i, d | 0 <= i < |order| && Edge(Mentions(Unselfed(sys)), order[i], d) && d in sys ensures d in order[..i] {
      assert d in Needs(sys, order[i]);
      assert Edge(NeedsGraph(sys), order[i], d);
    }
  }

  /** The result solves every local in the environment itself if and only if no expression
      that mentions its own name can tell that it is there. */
  lemma SolvedApartIsSolutionIff<V(!new)>(sys: System<V>, env: map<string, V>)
    requires Tracked(sys) && SolvedApart(sys, env)
    ensures Solution(sys, env) <==>
        forall n | n in sys && n in sys[n].names :: sys[n].eval(env) == sys[n].eval(env - {n})
  {
    forall n | n in sys && n !in sys[n].names ensures sys[n].eval(env) == sys[n].eval(env - {n}) {
      assert Agree(sys[n].names, env, env - {n});
    }
  }

  /** What is settled is known. */
  ghost predicate Backed<V>(p: Progress<V>) {
    forall m | m in p.state && p.state[m].Black? :: m in p.locals
  }

  ghost predicate StillBlack<V>(p: Progress<V>, q: Progress<V>) {
    forall m | m in p.state && p.state[m].Black? :: m in q.state && q.state[m].Black?
  }

  ghost predicate AllBlack<V>(names: seq<string>, p: Progress<V>) {
    forall n | n in names :: n in p.state && p.state[n].Black?
  }

  /** n's expression fails where the other locals it mentions are known. */
  ghost predicate Fails<V(!new)>(sys: System<V>, n: string) {
    n in sys && exists env :: sys[n].eval(env).None? && forall m | m in Needs(sys, n) :: m in env
  }

  lemma {:induction false} ResolveBacks<V(!new)>(sys: System<V>, names: seq<string>, stack: seq<string>, p: Progress<V>)
    requires (forall n | n in names :: n in sys) && Backed(p)
    ensures var r := Resolve(sys, names, stack, p);
            && (r.Failing? ==> Fails(sys, r.name))
            && (r.Solved? ==> Backed(r.p) && StillBlack(p, r.p) && AllBlack(names, r.p))
    decreases sys.Keys - p.state.Keys, |names|
  {
    if names != [] {
      var n := names[0];
      assert n in names;
      if n in p.state {
        if p.state[n].Black? {
          ResolveBacks(sys, names[1..], stack, p);
        }
      } else {
        assert n in sys.Keys - p.state.Keys;
        var entered := p.(state := p.state[n := Gray]);
        ResolveBacks(sys, Needs(sys, n), stack + [n], entered);
        var below := Resolve(sys, Needs(sys, n), stack + [n], entered);
        if below.Solved? && sys[n].eval(below.p.locals).Some? {
          var one := Progress(below.p.state[n := Black], below.p.locals[n := sys[n].eval(below.p.locals).value]);
          assert StillBlack(p, one) && Backed(one);
          ResolveBacks(sys, names[1..], stack, one);
        }
      }
    }
  }

  /** A refusal for a value names a local whose expression fails once the others it mentions
      are known. */
  lemma FailingLocalFails<V(!new)>(sys: System<V>, names: seq<string>)
    requires (forall n | n in names :: n in sys) && Evaluate(sys, names).Failing?
    ensures Fails(sys, Evaluate(sys, names).name)
  {
    ResolveBacks(sys, names, [], Progress(map[], map[]));
  }

  /** A refusal for a cycle names a walk along real mentions whose last name already
      occurs on it. */
  lemma CyclicLocalsReportWalk<V>(sys: System<V>, names: seq<string>)
    requires (forall n | n in names :: n in sys) && Evaluate(sys, names).Cyclic?
    ensures ClosingWalk(Mentions(sys), Evaluate(sys, names).names)
  {
    CyclicIsSearched(sys, names);
    SearchReportsWalk(NeedsGraph(sys), names);
    NeedsAreMentioned(sys, Evaluate(sys, names).names);
  }

  lemma CyclicIsSearched<V>(sys: System<V>, names: seq<string>)
    requires (forall n | n in names :: n in sys) && Evaluate(sys, names).Cyclic?
    ensures Search0(NeedsGraph(sys), names) == Cycle(Evaluate(sys, names).names)
  {
    ResolveFollowsSort(sys, names, [], Progress(map[], map[]), UNSEARCHED);
  }

  lemma NeedsAreMentioned<V>(sys: System<V>, p: seq<string>)
    ensures IsWalk(NeedsGraph(sys), p) ==> IsWalk(Mentions(sys), p)
  {
    if IsWalk(NeedsGraph(sys), p) {
      forall i | 0 < i < |p| ensures Edge(Mentions(sys), p[i - 1], p[i]) {
        assert Edge(NeedsGraph(sys), p[i - 1], p[i]);
      }
    }
  }

  /** The tracking is what makes this true. A local whose expression reads the whole of
      `local` (here, how many locals there are) mentions no name, so it is evaluated
      whenever its turn comes, and what succeeds is not a solution. */
  lemma UntrackedReadIsNoSolution()
    ensures var size := Expr<nat>.Expr([], env => Some(|env|));
            var one := Expr<nat>.Expr([], env => Some(1));
            var sys := map["a" := size, "b" := one];
            var r := Evaluate(sys, ["a", "b"]);
            r.Solved? && "a" in r.p.locals && sys["a"].eval(r.p.locals) != Some(r.p.locals["a"])
  {
    var size, one := Expr<nat>.Expr([], env => Some(|env|)), Expr<nat>.Expr([], env => Some(1));
    var sys := map["a" := size, "b" := one];
    var none := Progress<nat>.Progress(map[], map[]);
    var first := Progress<nat>.Progress(map["a" := Black], map["a" := 0]);
    assert "a" != "b";
    assert none.state["a" := Gray]["a" := Black] == first.state;
    assert Needs(sys, "a") == [] && Needs(sys, "b") == [];
    ResolveOneByOne(sys, ["a", "b"], [], none);
    assert Resolve(sys, ["a"], [], none) == Solved(first);
    assert ["a", "b"][1..] == ["b"];
    var both := Progress<nat>.Progress(map["a" := Black, "b" := Black], map["a" := 0, "b" := 1]);
    assert first.state["b" := Gray]["b" := Black] == both.state;
    assert Resolve(sys, ["b"], [], first) == Solved(both);
    assert |both.locals.Keys| == |{"a", "b"}| == 2;
  }

  // The program.

  lemma ResolveOneByOne<V>(sys: System<V>, names: seq<string>, stack: seq<string>, p: Progress<V>)
    requires names != [] && forall n | n in names :: n in sys
    ensures Resolve(sys, names, stack, p) ==
            match Resolve(sys, [names[0]], stack, p) {
              case Solved(one) => Resolve(sys, names[1..], stack, one)
              case other => other
            }
  {
  }

  lemma ResolveEnters<V>(sys: System<V>, n: string, stack: seq<string>, p: Progress<V>)
    requires n in sys && n !in p.state
    ensures Resolve(sys, [n], stack, p) ==
            match Resolve(sys, Needs(sys, n), stack + [n], p.(state := p.state[n := Gray])) {
              case Solved(below) =>
                if sys[n].eval(below.locals).None? then Failing(n)
                else Solved(Progress(below.state[n := Black], below.locals[n := sys[n].eval(below.locals).value]))
              case other => other
            }
  {
  }

  lemma ResolveOthers<V>(sys: System<V>, n: string, names: seq<string>, i: nat, stack: seq<string>, p: Progress<V>)
    requires i < |names|
    ensures Resolve(sys, Others(sys, n, names[i..]), stack, p) ==
            if names[i] !in sys || names[i] == n then Resolve(sys, Others(sys, n, names[i + 1..]), stack, p)
            else match Resolve(sys, [names[i]], stack, p) {
              case Solved(one) => Resolve(sys, Others(sys, n, names[i + 1..]), stack, one)
              case other => other
            }
  {
    var left := Others(sys, n, names[i..]);
    assert names[i..][0] == names[i] && names[i..][1..] == names[i + 1..];
    if names[i] in sys && names[i] != n {
      assert left[0] == names[i] && left[1..] == Others(sys, n, names[i + 1..]);
      ResolveOneByOne(sys, left, stack, p);
    }
  }

  datatype Failure = CycleError(names: seq<string>) | ValueError(name: string)

  function Reported<V>(r: Resolved<V>): Option<Failure> {
    match r
    case Solved(_) => None
    case Cyclic(names) => Some(CycleError(names))
    case Failing(n) => Some(ValueError(n))
  }

  /** The variables of evaluateLocals. */
  class Evaluation<V> {
    const sys: System<V>
    var state: map<string, Colour>
    var locals: map<string, V>

    ghost function Now(): Progress<V>
      reads this
    {
      Progress(state, locals)
    }

    constructor (sys: System<V>)
      ensures this.sys == sys && Now() == Progress(map[], map[])
    {
      this.sys, state, locals := sys, map[], map[];
    }

    method Visit(n: string, stack: seq<string>) returns (err: Option<Failure>)
      requires n in sys
      modifies this
      ensures err == Reported(Resolve(sys, [n], stack, old(Now())))
      ensures err.None? ==> Solved(Now()) == Resolve(sys, [n], stack, old(Now()))
      decreases sys.Keys - state.Keys, 0
    {
      if n in state {
        return if state[n].Black? then None else Some(CycleError(stack + [n]));
      }
      ResolveEnters(sys, n, stack, Now());
      assert n in sys.Keys - state.Keys;
      state := state[n := Gray];
      assert n !in sys.Keys - state.Keys;
      err := VisitNeeds(n, stack + [n]);
      if err.Some? {
        return;
      }
      var val := sys[n].eval(locals);
      if val.None? {
        return Some(ValueError(n));
      }
      locals := locals[n := val.value];
      state := state[n := Black];
    }

    /** The loop of Visit over the locals n mentions. */
    method VisitNeeds(n: string, stack: seq<string>) returns (err: Option<Failure>)
      requires n in sys
      modifies this
      ensures err == Reported(Resolve(sys, Needs(sys, n), stack, old(Now())))
      ensures err.None? ==> Solved(Now()) == Resolve(sys, Needs(sys, n), stack, old(Now()))
      decreases sys.Keys - state.Keys, 1
    {
      var names := sys[n].names;
      ghost var entered, whole := Now(), Resolve(sys, Needs(sys, n), stack, Now());
      assert names[0..] == names;
      for i := 0 to |names|
        invariant entered.state.Keys <= state.Keys
        invariant Resolve(sys, Others(sys, n, names[i..]), stack, Now()) == whole
      {
        ResolveOthers(sys, n, names, i, stack, Now());
        if names[i] != n && names[i] in sys {
          err := Visit(names[i], stack);
          if err.Some? {
            return;
          }
        }
      }
      err := None;
    }
  }

  /** Evaluates the locals, visited in the order given, into one environment. */
  method EvaluateLocals<V>(sys: System<V>, order: seq<string>) returns (err: Option<Failure>, locals: map<string, V>)
    requires forall n :: n in order <==> n in sys
    ensures err == Reported(Evaluate(sys, order))
    ensures err.None? ==> Evaluate(sys, order).Solved? && locals == Evaluate(sys, order).p.locals
  {
    var run := new Evaluation(sys);
    assert order[0..] == order;
    for i := 0 to |order|
      invariant run.sys == sys
      invariant Resolve(sys, order[i..], [], run.Now()) == Evaluate(sys, order)
    {
      assert order[i] in order;
      assert order[i..][0] == order[i] && order[i..][1..] == order[i + 1..];
      ResolveOneByOne(sys, order[i..], [], run.Now());
      err := run.Visit(order[i], []);
      if err.Some? {
        return err, map[];
      }
    }
    return None, run.locals;
  }
}
