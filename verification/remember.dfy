/** What a stack remembers of its last run: a set compressed to the names nothing else in
    it needs, from which the same boot closure must come back. */
module Remember {
  import opened Graphs
  import opened Stack
  import BootClosure
  import Boot

  /** A loaded configuration: the declared instances and their name index. */
  datatype Loaded = Loaded(decls: seq<Decl>, index: map<string, Decl>)
  {
    ghost predicate Valid() {
      NameMap(decls, index) && Acyclic(DepsGraph(index))
    }

    predicate Enabled(n: string) {
      n in index && index[n].enabled
    }

    function Graph(): Graph {
      DepsGraph(index)
    }

    function Closure(names: seq<string>): seq<string> {
      BootClosure.Closure(DepsGraph(index), names)
    }
  }

  /** The names kept by a test, in their order. */
  function Kept(names: seq<string>, keep: string -> bool): (r: seq<string>)
    ensures forall n :: n in r <==> n in names && keep(n)
  {
    if names == [] then []
    else
      var before, n := Kept(names[..|names| - 1], keep), names[|names| - 1];
      assert names == names[..|names| - 1] + [n];
      if keep(n) then before + [n] else before
  }

  /** The names still declared and enabled, in their order. */
  function StillEnabled(cfg: Loaded, names: seq<string>): (r: seq<string>)
    ensures forall n :: n in r <==> n in names && cfg.Enabled(n)
  {
    Kept(names, n => cfg.Enabled(n))
  }

  function EnabledNames(cfg: Loaded): seq<string> {
    StillEnabled(cfg, Names(cfg.decls))
  }

  /** Some other of names directly needs n. */
  predicate NeededAmong(cfg: Loaded, names: seq<string>, n: string) {
    n in names && exists m :: m in names && Edge(cfg.Graph(), m, n)
  }

  /** The names no other of them needs, enabled, in declaration order. */
  function Roots(cfg: Loaded, names: seq<string>): seq<string> {
    Kept(EnabledNames(cfg), n => n in names && !NeededAmong(cfg, names, n))
  }

  // The program.

  method ListEnabled(cfg: Loaded) returns (all: seq<string>)
    requires cfg.Valid()
    ensures all == EnabledNames(cfg)
  {
    all := [];
    for i := 0 to |cfg.decls|
      invariant all == StillEnabled(cfg, Names(cfg.decls)[..i])
    {
      assert Names(cfg.decls)[..i + 1][..i] == Names(cfg.decls)[..i];
      if cfg.decls[i].enabled {
        all := all + [cfg.decls[i].name];
      }
    }
    assert Names(cfg.decls)[..|cfg.decls|] == Names(cfg.decls);
  }

  method KeepDeclared(cfg: Loaded, names: seq<string>) returns (keep: seq<string>)
    ensures keep == StillEnabled(cfg, names)
  {
    keep := [];
    for i := 0 to |names|
      invariant keep == StillEnabled(cfg, names[..i])
    {
      assert names[..i + 1][..i] == names[..i];
      if names[i] in cfg.index && cfg.index[names[i]].enabled {
        keep := keep + [names[i]];
      }
    }
    assert names[..|names|] == names;
  }

  method IsEverything(cfg: Loaded, names: seq<string>) returns (all: bool)
    requires cfg.Valid()
    ensures all <==> |cfg.Closure(names)| == |cfg.Closure(EnabledNames(cfg))|
  {
    var some := Boot.BootOrder(cfg.index, names);
    var enabled := ListEnabled(cfg);
    var every := Boot.BootOrder(cfg.index, enabled);
    all := |some| == |every|;
  }

  /** What the members of `in` need, among them. */
  method MarkNeeded(cfg: Loaded, names: seq<string>, inside: set<string>) returns (needed: set<string>)
    requires forall n :: n in inside <==> n in names
    ensures forall n :: n in needed <==> NeededAmong(cfg, names, n)
  {
    needed := {};
    var left := inside;
    while left != {}
      invariant left <= inside
      invariant forall n :: n in needed <==> n in names && exists m :: m in inside - left && Edge(cfg.Graph(), m, n)
      decreases left
    {
      var m :| m in left;
      if m in cfg.index {
        var deps, before := cfg.index[m].deps, needed;
        for i := 0 to |deps|
          invariant forall n :: n in needed <==> n in before || (n in inside && n in DepNames(deps)[..i])
        {
          assert DepNames(deps)[..i + 1] == DepNames(deps)[..i] + [deps[i].name];
          if deps[i].name in inside {
            needed := needed + {deps[i].name};
          }
        }
        assert DepNames(deps)[..|deps|] == Out(cfg.Graph(), m);
      }
      assert inside - (left - {m}) == inside - left + {m};
      left := left - {m};
    }
  }

  method RootsOf(cfg: Loaded, names: seq<string>) returns (roots: seq<string>)
    requires cfg.Valid()
    ensures roots == Roots(cfg, names)
  {
    var inside := set n | n in names;
    var needed := MarkNeeded(cfg, names, inside);
    var enabled := ListEnabled(cfg);
    roots := [];
    for i := 0 to |enabled|
      invariant roots == Kept(enabled[..i], n => n in names && !NeededAmong(cfg, names, n))
    {
      assert enabled[..i + 1][..i] == enabled[..i];
      if enabled[i] in inside && enabled[i] !in needed {
        roots := roots + [enabled[i]];
      }
    }
    assert enabled[..|enabled|] == enabled;
  }

  /** The set a project remembers; empty stands for everything. */
  class Project {
    var lastSet: seq<string>

    constructor ()
      ensures lastSet == []
    {
      lastSet := [];
    }

    /** Records what up was asked for, joined with what was awake. */
    method RememberUp(cfg: Loaded, names: seq<string>, awake: seq<string>)
      requires cfg.Valid()
      modifies this
      ensures lastSet == Remembered(cfg, names + awake)
    {
      var roots := RootsOf(cfg, names + awake);
      var all := IsEverything(cfg, roots);
      lastSet := if all then [] else roots;
    }

    /** Adds what was awake when down ran. */
    method RememberDown(cfg: Loaded, awake: seq<string>)
      requires cfg.Valid()
      modifies this
      ensures lastSet == AfterDown(cfg, old(lastSet), awake)
    {
      if |awake| == 0 || |lastSet| == 0 {
        return;
      }
      var keep := KeepDeclared(cfg, lastSet);
      var roots := RootsOf(cfg, keep + awake);
      var all := IsEverything(cfg, roots);
      lastSet := if all then [] else roots;
    }

    /** Last time's set, or none when it is everything. */
    method LastSet(cfg: Loaded) returns (prev: Option<seq<string>>)
      requires cfg.Valid()
      ensures prev == Recalled(cfg, lastSet)
    {
      var keep := KeepDeclared(cfg, lastSet);
      var all := IsEverything(cfg, keep);
      prev := if |keep| == 0 || all then None else Some(keep);
    }
  }

  function AllOf(cfg: Loaded): seq<string> {
    cfg.Closure(EnabledNames(cfg))
  }

  function Remembered(cfg: Loaded, names: seq<string>): seq<string> {
    if |cfg.Closure(Roots(cfg, names))| == |AllOf(cfg)| then [] else Roots(cfg, names)
  }

  function AfterDown(cfg: Loaded, lastSet: seq<string>, awake: seq<string>): seq<string> {
    if awake == [] || lastSet == [] then lastSet
    else Remembered(cfg, StillEnabled(cfg, lastSet) + awake)
  }

  function Recalled(cfg: Loaded, lastSet: seq<string>): Option<seq<string>> {
    var keep := StillEnabled(cfg, lastSet);
    if keep == [] || |cfg.Closure(keep)| == |AllOf(cfg)| then None else Some(keep)
  }

  /** What `doze up --last` starts: last time's set, or everything. */
  function Started(cfg: Loaded, lastSet: seq<string>): seq<string> {
    match Recalled(cfg, lastSet)
    case Some(prev) => cfg.Closure(prev)
    case None => AllOf(cfg)
  }

  // What is recovered.

  predicate AllEnabled(cfg: Loaded, names: seq<string>) {
    forall n | n in names :: cfg.Enabled(n)
  }

  /** A disabled member of names that needs an enabled one hides it from the roots. */
  predicate DisabledNeeds(cfg: Loaded, names: seq<string>, n: string) {
    cfg.Enabled(n) && n in names && exists m :: m in names && Edge(cfg.Graph(), m, n) && !cfg.Enabled(m)
  }

  predicate NoDisabledNeeds(cfg: Loaded, names: seq<string>) {
    forall n | n in names :: !DisabledNeeds(cfg, names, n)
  }

  predicate SameNames(a: seq<string>, b: seq<string>) {
    (forall n | n in a :: n in b) && (forall n | n in b :: n in a)
  }

  lemma EnabledIsDeclared(cfg: Loaded, n: string)
    requires cfg.Valid()
    ensures n in EnabledNames(cfg) <==> cfg.Enabled(n)
  {
    if cfg.Enabled(n) {
      var i :| 0 <= i < |cfg.decls| && cfg.decls[i] == cfg.index[n];
      assert Names(cfg.decls)[i] == n;
    }
  }

  /** Every enabled member is a root or is reached from one: going up from what is needed
      to what needs it, places in the boot order only grow. */
  lemma {:induction false} MemberReachedFromRoot(cfg: Loaded, names: seq<string>, n: string, i: nat)
    requires cfg.Valid() && n in names && cfg.Enabled(n)
    requires NoDisabledNeeds(cfg, names)
    requires i < |cfg.Closure(names)| && cfg.Closure(names)[i] == n
    ensures ReachedFrom(cfg.Graph(), Roots(cfg, names), n)
    decreases |cfg.Closure(names)| - i
  {
    var g, order := cfg.Graph(), cfg.Closure(names);
    if NeededAmong(cfg, names, n) {
      var m :| m in names && Edge(g, m, n);
      BootClosure.ClosureIsReachable(g, names);
      BootClosure.ClosureOrdersIffOffCycles(g, names);
      ReachesItself(g, m);
      assert m in order;
      var k :| 0 <= k < |order| && order[k] == m;
      assert n in order[..k];
      assert !DisabledNeeds(cfg, names, n);
      MemberReachedFromRoot(cfg, names, m, k);
      var r :| r in Roots(cfg, names) && Reaches(g, r, m);
      EdgeReaches(g, m, n);
      ReachesTransitive(g, r, m, n);
    } else {
      EnabledIsDeclared(cfg, n);
      ReachesItself(g, n);
    }
  }

  /** The roots start every enabled member of the set, and nothing the set would not. */
  lemma RootsStartEveryMember(cfg: Loaded, names: seq<string>)
    requires cfg.Valid() && NoDisabledNeeds(cfg, names)
    ensures forall n | n in names && cfg.Enabled(n) :: n in cfg.Closure(Roots(cfg, names))
    ensures forall n | n in cfg.Closure(Roots(cfg, names)) :: n in cfg.Closure(names)
  {
    var g := cfg.Graph();
    BootClosure.ClosureIsReachable(g, names);
    BootClosure.ClosureIsReachable(g, Roots(cfg, names));
    forall n | n in names && cfg.Enabled(n) ensures n in cfg.Closure(Roots(cfg, names)) {
      ReachesItself(g, n);
      var i :| 0 <= i < |cfg.Closure(names)| && cfg.Closure(names)[i] == n;
      MemberReachedFromRoot(cfg, names, n, i);
    }
  }

  /** What closure b starts holds what closure a starts, once it holds a's targets. */
  lemma ClosureGrows(cfg: Loaded, a: seq<string>, b: seq<string>)
    requires forall n | n in a && n in cfg.index :: n in cfg.Closure(b)
    ensures forall n | n in cfg.Closure(a) :: n in cfg.Closure(b)
  {
    var g := cfg.Graph();
    BootClosure.ClosureIsReachable(g, a);
    BootClosure.ClosureIsReachable(g, b);
    forall n | n in cfg.Closure(a) ensures n in cfg.Closure(b) {
      var t :| t in a && Reaches(g, t, n);
      if t in g {
        var r :| r in b && Reaches(g, r, t);
        ReachesTransitive(g, r, t, n);
      } else {
        UndeclaredReachesItself(g, t, n);
      }
    }
  }

  lemma UndeclaredReachesItself(g: Graph, t: string, n: string)
    requires Reaches(g, t, n)
    ensures t in g || n == t
  {
    var p :| WalkBetween(g, p, t, n);
    if |p| > 1 {
      assert Edge(g, p[1 - 1], p[1]);
    }
  }

  /** For enabled names of an accepted stack, the roots start exactly what the names do. */
  lemma RootsStartTheSame(cfg: Loaded, names: seq<string>)
    requires cfg.Valid() && AllEnabled(cfg, names)
    ensures SameNames(cfg.Closure(Roots(cfg, names)), cfg.Closure(names))
  {
    RootsStartEveryMember(cfg, names);
    ClosureGrows(cfg, names, Roots(cfg, names));
  }

  lemma {:induction false} DistinctSetSize(s: seq<string>)
    requires NoDuplicates(s)
    ensures |set n | n in s| == |s|
  {
    if s != [] {
      var init, last := s[..|s| - 1], s[|s| - 1];
      DistinctSetSize(init);
      assert s == init + [last];
      assert (set n | n in s) == (set n | n in init) + {last};
    }
  }

  lemma EqualLengthIsSameNames(some: seq<string>, all: seq<string>)
    requires NoDuplicates(some) && NoDuplicates(all)
    requires forall n | n in some :: n in all
    ensures |some| == |all| <==> SameNames(some, all)
  {
    var a, b := set n | n in some, set n | n in all;
    DistinctSetSize(some);
    DistinctSetSize(all);
    if |some| == |all| {
      SubsetOfSameSize(a, b);
      forall n | n in all ensures n in some { assert n in b; }
    }
    if SameNames(some, all) {
      assert a == b;
    }
  }

  /** What enabled names start, everything starts. */
  lemma EverythingStartsIt(cfg: Loaded, names: seq<string>)
    requires cfg.Valid() && AllEnabled(cfg, names)
    ensures forall n | n in cfg.Closure(names) :: n in AllOf(cfg)
  {
    BootClosure.ClosureIsReachable(cfg.Graph(), EnabledNames(cfg));
    forall n | n in names ensures n in AllOf(cfg) {
      EnabledIsDeclared(cfg, n);
      ReachesItself(cfg.Graph(), n);
    }
    ClosureGrows(cfg, names, EnabledNames(cfg));
  }

  /** The length test is the set test: names that are enabled start as many as everything
      does exactly when they start everything. */
  lemma LengthTestIsSetTest(cfg: Loaded, names: seq<string>)
    requires cfg.Valid() && AllEnabled(cfg, names)
    ensures |cfg.Closure(names)| == |AllOf(cfg)| <==> SameNames(cfg.Closure(names), AllOf(cfg))
  {
    EverythingStartsIt(cfg, names);
    BootClosure.ClosureIsReachable(cfg.Graph(), names);
    BootClosure.ClosureIsReachable(cfg.Graph(), EnabledNames(cfg));
    EqualLengthIsSameNames(cfg.Closure(names), AllOf(cfg));
  }

  lemma SubsetOfSameSize(a: set<string>, b: set<string>)
    requires a <= b && |a| == |b|
    ensures a == b
  {
    assert |b - a| == |b| - |a|;
  }

  lemma RootsAreEnabled(cfg: Loaded, names: seq<string>)
    requires cfg.Valid()
    ensures AllEnabled(cfg, Roots(cfg, names))
    ensures forall n | n in Roots(cfg, names) :: n in names
  {
    forall n | n in Roots(cfg, names) ensures cfg.Enabled(n) {
      EnabledIsDeclared(cfg, n);
    }
  }

  /** Up of enabled names is recorded as nothing exactly when there are none, or they start
      everything; a set is recorded otherwise, and starts what they do. */
  lemma EverythingIsRecordedAsNothing(cfg: Loaded, names: seq<string>)
    requires cfg.Valid() && AllEnabled(cfg, names)
    ensures Remembered(cfg, names) == [] <==> names == [] || SameNames(cfg.Closure(names), AllOf(cfg))
    ensures Remembered(cfg, names) != [] ==> SameNames(cfg.Closure(Remembered(cfg, names)), cfg.Closure(names))
  {
    var roots := Roots(cfg, names);
    RootsAreEnabled(cfg, names);
    LengthTestIsSetTest(cfg, roots);
    RootsStartTheSame(cfg, names);
    if names == [] {
      assert forall n :: n !in roots;
    } else {
      assert names[0] in names;
      MemberIsStarted(cfg, names, names[0]);
      BootClosure.ClosureIsReachable(cfg.Graph(), roots);
    }
  }

  lemma {:induction false} KeptAll(names: seq<string>, keep: string -> bool)
    requires forall n | n in names :: keep(n)
    ensures Kept(names, keep) == names
  {
    if names != [] {
      KeptAll(names[..|names| - 1], keep);
      assert names == names[..|names| - 1] + [names[|names| - 1]];
    }
  }

  /** What was remembered of a set starts, next time, what its roots start; but nothing
      remembered reads as everything. */
  lemma StartedIsRootsClosure(cfg: Loaded, names: seq<string>)
    requires cfg.Valid()
    ensures Roots(cfg, names) != [] ==> SameNames(Started(cfg, Remembered(cfg, names)), cfg.Closure(Roots(cfg, names)))
    ensures Roots(cfg, names) == [] ==> Started(cfg, Remembered(cfg, names)) == AllOf(cfg)
  {
    var roots := Roots(cfg, names);
    RootsAreEnabled(cfg, names);
    LengthTestIsSetTest(cfg, roots);
    KeptAll(roots, n => cfg.Enabled(n));
    assert Kept([], n => cfg.Enabled(n)) == [];
  }

  /** The round trip for enabled names, one at least: what up recorded starts, next time,
      the same boot closure. */
  lemma EnabledUpIsRecalled(cfg: Loaded, names: seq<string>)
    requires cfg.Valid() && AllEnabled(cfg, names)
    ensures names != [] ==> SameNames(Started(cfg, Remembered(cfg, names)), cfg.Closure(names))
  {
    if names != [] {
      StartedIsRootsClosure(cfg, names);
      RootsStartTheSame(cfg, names);
      ReachesItself(cfg.Graph(), names[0]);
      BootClosure.ClosureIsReachable(cfg.Graph(), names);
      assert names[0] in names && names[0] in cfg.Closure(names);
      BootClosure.ClosureIsReachable(cfg.Graph(), Roots(cfg, names));
      assert names[0] in cfg.Closure(Roots(cfg, names));
    }
  }

  /** Down never shrinks what last time's set starts, as long as some of that set is still
      declared and no disabled member that was awake needs an enabled one. */
  lemma DownNeverShrinks(cfg: Loaded, lastSet: seq<string>, awake: seq<string>)
    requires cfg.Valid()
    requires lastSet == [] || StillEnabled(cfg, lastSet) != []
    requires NoDisabledNeeds(cfg, StillEnabled(cfg, lastSet) + awake)
    ensures forall n | n in Started(cfg, lastSet) :: n in Started(cfg, AfterDown(cfg, lastSet, awake))
  {
    var keep := StillEnabled(cfg, lastSet);
    var names := keep + awake;
    if awake != [] && lastSet != [] {
      StartedIsKept(cfg, lastSet);
      RootsAreEnabled(cfg, names);
      EverythingStartsIt(cfg, keep);
      StartedIsRootsClosure(cfg, names);
      RootsStartEveryMember(cfg, names);
      ClosureGrows(cfg, keep, Roots(cfg, names));
    }
  }

  /** When nothing of last time's set is still declared, its record starts everything, and
      a down with something awake replaces it by just that. */
  lemma VanishedSetIsReplaced(cfg: Loaded, lastSet: seq<string>, awake: seq<string>)
    requires cfg.Valid() && lastSet != [] && StillEnabled(cfg, lastSet) == []
    requires awake != [] && AllEnabled(cfg, awake)
    ensures Started(cfg, lastSet) == AllOf(cfg)
    ensures SameNames(Started(cfg, AfterDown(cfg, lastSet, awake)), cfg.Closure(awake))
  {
    assert [] + awake == awake;
    EnabledUpIsRecalled(cfg, awake);
  }

  lemma StartedIsKept(cfg: Loaded, lastSet: seq<string>)
    requires cfg.Valid() && StillEnabled(cfg, lastSet) != []
    ensures forall n :: n in Started(cfg, lastSet) <==> n in cfg.Closure(StillEnabled(cfg, lastSet))
  {
    LengthTestIsSetTest(cfg, StillEnabled(cfg, lastSet));
  }

  /** Disabled members leave the roots alone if and only if none of them needs a root of
      the enabled ones. */
  lemma DisabledLeaveRootsAloneIff(cfg: Loaded, names: seq<string>)
    requires cfg.Valid()
    ensures var live := StillEnabled(cfg, names);
            Roots(cfg, names) == Roots(cfg, live) <==> forall r | r in Roots(cfg, live) :: !DisabledNeeds(cfg, names, r)
  {
    var live := StillEnabled(cfg, names);
    var all := EnabledNames(cfg);
    forall n | n in all
      ensures NeededAmong(cfg, names, n) <==> NeededAmong(cfg, live, n) || DisabledNeeds(cfg, names, n)
    {
      EnabledIsDeclared(cfg, n);
      if m: string :| m in names && Edge(cfg.Graph(), m, n) {
        assert m in live || !cfg.Enabled(m);
      }
    }
    KeptAgreesIff(all, n => n in names && !NeededAmong(cfg, names, n), n => n in live && !NeededAmong(cfg, live, n));
    forall n | n in all ensures n in names <==> n in live {
      EnabledIsDeclared(cfg, n);
    }
  }

  /** A root of the enabled members is a root of them all unless a disabled one needs it. */
  lemma RootsLessDisabled(cfg: Loaded, names: seq<string>, r: string)
    requires cfg.Valid()
    ensures r in Roots(cfg, names) <==> r in Roots(cfg, StillEnabled(cfg, names)) && !DisabledNeeds(cfg, names, r)
  {
    var live := StillEnabled(cfg, names);
    EnabledIsDeclared(cfg, r);
    if m: string :| m in names && Edge(cfg.Graph(), m, r) {
      assert m in live || !cfg.Enabled(m);
    }
  }

  /** Some root of the enabled members still starts n, and no disabled one hides it. */
  ghost predicate StillWanted(cfg: Loaded, names: seq<string>, n: string) {
    exists r :: r in Roots(cfg, StillEnabled(cfg, names)) && !DisabledNeeds(cfg, names, r) && Reaches(cfg.Graph(), r, n)
  }

  /** What the record stands for: what is still there of it, or everything. */
  function Stands(cfg: Loaded, lastSet: seq<string>): seq<string> {
    if StillEnabled(cfg, lastSet) == [] then EnabledNames(cfg) else StillEnabled(cfg, lastSet)
  }

  lemma StartedIsStands(cfg: Loaded, lastSet: seq<string>)
    requires cfg.Valid()
    ensures forall n :: n in Started(cfg, lastSet) <==> n in cfg.Closure(Stands(cfg, lastSet))
    ensures forall n | n in Stands(cfg, lastSet) :: n in cfg.Closure(Stands(cfg, lastSet))
  {
    if StillEnabled(cfg, lastSet) != [] {
      StartedIsKept(cfg, lastSet);
    } else {
      assert Kept([], n => cfg.Enabled(n)) == [];
    }
    BootClosure.ClosureIsReachable(cfg.Graph(), Stands(cfg, lastSet));
    forall n | n in Stands(cfg, lastSet) ensures n in cfg.Closure(Stands(cfg, lastSet)) {
      EnabledIsDeclared(cfg, n);
      ReachesItself(cfg.Graph(), n);
    }
  }

  /** Down shrinks nothing exactly when every name the record stands for is still wanted, or
      when the new record stands for everything. */
  lemma DownNeverShrinksIff(cfg: Loaded, lastSet: seq<string>, awake: seq<string>)
    requires cfg.Valid() && lastSet != [] && awake != []
    ensures var names := StillEnabled(cfg, lastSet) + awake;
            (forall n | n in Started(cfg, lastSet) :: n in Started(cfg, AfterDown(cfg, lastSet, awake))) <==>
            Roots(cfg, names) == [] || forall n | n in Stands(cfg, lastSet) :: StillWanted(cfg, names, n)
  {
    var names, stands := StillEnabled(cfg, lastSet) + awake, Stands(cfg, lastSet);
    var roots, after := Roots(cfg, names), Started(cfg, AfterDown(cfg, lastSet, awake));
    StartedIsStands(cfg, lastSet);
    StartedIsRootsClosure(cfg, names);
    if roots == [] {
      StandsAreEverything(cfg, lastSet);
    } else {
      forall n | n in stands ensures n in cfg.Closure(roots) <==> StillWanted(cfg, names, n) {
        StandsAreEnabled(cfg, lastSet, n);
        WantedIff(cfg, names, n);
      }
      if forall n | n in stands :: StillWanted(cfg, names, n) {
        ClosureGrows(cfg, stands, roots);
      }
    }
  }

  lemma StandsAreEnabled(cfg: Loaded, lastSet: seq<string>, n: string)
    requires cfg.Valid() && n in Stands(cfg, lastSet)
    ensures cfg.Enabled(n)
  {
    EnabledIsDeclared(cfg, n);
  }

  lemma StandsAreEverything(cfg: Loaded, lastSet: seq<string>)
    requires cfg.Valid()
    ensures forall n | n in cfg.Closure(Stands(cfg, lastSet)) :: n in AllOf(cfg)
  {
    forall n | n in Stands(cfg, lastSet) ensures cfg.Enabled(n) {
      StandsAreEnabled(cfg, lastSet, n);
    }
    EverythingStartsIt(cfg, Stands(cfg, lastSet));
  }

  /** A declared instance is started by the roots of a set exactly when it is still wanted. */
  lemma WantedIff(cfg: Loaded, names: seq<string>, n: string)
    requires cfg.Valid() && n in cfg.index
    ensures n in cfg.Closure(Roots(cfg, names)) <==> StillWanted(cfg, names, n)
  {
    BootClosure.ClosureIsReachable(cfg.Graph(), Roots(cfg, names));
    forall r ensures r in Roots(cfg, names) <==>
        r in Roots(cfg, StillEnabled(cfg, names)) && !DisabledNeeds(cfg, names, r) {
      RootsLessDisabled(cfg, names, r);
    }
  }

  /** Some name of a set reaches each declared name of another. */
  ghost predicate StartsAll(cfg: Loaded, some: seq<string>, names: seq<string>) {
    forall n | n in names && n in cfg.index :: ReachedFrom(cfg.Graph(), some, n)
  }

  /** The round trip for any names, disabled ones among them: what up was asked for, and
      what was awake, is started again next time exactly when each of them that is declared
      is still wanted; or, when there is no root to record, when they start everything and
      everything starts them. */
  lemma UpIsRecalledIff(cfg: Loaded, names: seq<string>)
    requires cfg.Valid()
    ensures SameNames(Started(cfg, Remembered(cfg, names)), cfg.Closure(names)) <==>
            if Roots(cfg, names) == []
            then StartsAll(cfg, EnabledNames(cfg), names) && StartsAll(cfg, names, EnabledNames(cfg))
            else forall n | n in names && n in cfg.index :: StillWanted(cfg, names, n)
  {
    StartedIsRootsClosure(cfg, names);
    if Roots(cfg, names) == [] {
      SameClosuresIff(cfg, EnabledNames(cfg), names);
    } else {
      SameClosuresIff(cfg, Roots(cfg, names), names);
      RootsStartAllIff(cfg, names);
      RootsAreStarted(cfg, names);
    }
  }

  /** No enabled instance depends on a declared disabled one. */
  ghost predicate EnabledStandAlone(cfg: Loaded) {
    forall a, b | Edge(cfg.Graph(), a, b) && cfg.Enabled(a) && b in cfg.index :: cfg.Enabled(b)
  }

  /** Where that is so, as it is among modules and apps, declared names, one at least, are
      recalled if and only if all of them are enabled. */
  lemma UpIsRecalledIffEnabled(cfg: Loaded, names: seq<string>)
    requires cfg.Valid() && EnabledStandAlone(cfg) && names != [] && forall n | n in names :: n in cfg.index
    ensures SameNames(Started(cfg, Remembered(cfg, names)), cfg.Closure(names)) <==> AllEnabled(cfg, names)
  {
    if AllEnabled(cfg, names) {
      EnabledUpIsRecalled(cfg, names);
    } else {
      var n :| n in names && !cfg.Enabled(n);
      MemberIsStarted(cfg, names, n);
      RecordStartsEnabled(cfg, names, n);
    }
  }

  lemma MemberIsStarted(cfg: Loaded, names: seq<string>, n: string)
    requires n in names && n in cfg.index
    ensures n in cfg.Closure(names)
  {
    ReachesItself(cfg.Graph(), n);
    BootClosure.ClosureIsReachable(cfg.Graph(), names);
  }

  /** What a record starts is then all enabled. */
  lemma RecordStartsEnabled(cfg: Loaded, names: seq<string>, n: string)
    requires cfg.Valid() && EnabledStandAlone(cfg)
    ensures n in Started(cfg, Remembered(cfg, names)) ==> cfg.Enabled(n)
  {
    StartedIsRootsClosure(cfg, names);
    if Roots(cfg, names) == [] {
      forall m | m in EnabledNames(cfg) ensures cfg.Enabled(m) {
        EnabledIsDeclared(cfg, m);
      }
      ClosureOfEnabled(cfg, EnabledNames(cfg), n);
    } else {
      RootsAreEnabled(cfg, names);
      ClosureOfEnabled(cfg, Roots(cfg, names), n);
    }
  }

  lemma ClosureOfEnabled(cfg: Loaded, names: seq<string>, n: string)
    requires EnabledStandAlone(cfg) && AllEnabled(cfg, names)
    ensures n in cfg.Closure(names) ==> cfg.Enabled(n)
  {
    BootClosure.ClosureIsReachable(cfg.Graph(), names);
    if n in cfg.Closure(names) {
      StartedByEnabled(cfg, names, n);
    }
  }

  lemma StartedByEnabled(cfg: Loaded, names: seq<string>, n: string)
    requires EnabledStandAlone(cfg) && AllEnabled(cfg, names) && n in cfg.index && ReachedFrom(cfg.Graph(), names, n)
    ensures cfg.Enabled(n)
  {
    var t :| t in names && Reaches(cfg.Graph(), t, n);
    var p :| WalkBetween(cfg.Graph(), p, t, n);
    WalkStaysEnabled(cfg, p, |p| - 1);
  }

  lemma {:induction false} WalkStaysEnabled(cfg: Loaded, p: seq<string>, i: nat)
    requires EnabledStandAlone(cfg) && IsWalk(cfg.Graph(), p) && cfg.Enabled(p[0]) && i < |p|
    requires p[|p| - 1] in cfg.index
    ensures cfg.Enabled(p[i])
  {
    if i > 0 {
      WalkStaysEnabled(cfg, p, i - 1);
      assert Edge(cfg.Graph(), p[i - 1], p[i]);
      assert i < |p| - 1 ==> Edge(cfg.Graph(), p[i + 1 - 1], p[i + 1]);
    }
  }

  lemma RootsStartAllIff(cfg: Loaded, names: seq<string>)
    requires cfg.Valid()
    ensures StartsAll(cfg, Roots(cfg, names), names) <==>
        forall n | n in names && n in cfg.index :: StillWanted(cfg, names, n)
  {
    BootClosure.ClosureIsReachable(cfg.Graph(), Roots(cfg, names));
    forall n | n in names && n in cfg.index ensures ReachedFrom(cfg.Graph(), Roots(cfg, names), n) <==>
        StillWanted(cfg, names, n) {
      WantedIff(cfg, names, n);
    }
  }

  lemma RootsAreStarted(cfg: Loaded, names: seq<string>)
    requires cfg.Valid()
    ensures StartsAll(cfg, names, Roots(cfg, names))
  {
    RootsAreEnabled(cfg, names);
    forall r | r in Roots(cfg, names) ensures ReachedFrom(cfg.Graph(), names, r) {
      ReachesItself(cfg.Graph(), r);
    }
  }

  lemma SameClosuresIff(cfg: Loaded, a: seq<string>, b: seq<string>)
    ensures SameNames(cfg.Closure(a), cfg.Closure(b)) <==> StartsAll(cfg, a, b) && StartsAll(cfg, b, a)
  {
    InClosureIff(cfg, a, b);
    InClosureIff(cfg, b, a);
  }

  lemma InClosureIff(cfg: Loaded, a: seq<string>, b: seq<string>)
    ensures (forall n | n in cfg.Closure(b) :: n in cfg.Closure(a)) <==> StartsAll(cfg, a, b)
  {
    BootClosure.ClosureIsReachable(cfg.Graph(), a);
    BootClosure.ClosureIsReachable(cfg.Graph(), b);
    if StartsAll(cfg, a, b) {
      ClosureGrows(cfg, b, a);
    } else {
      var n :| n in b && n in cfg.index && !ReachedFrom(cfg.Graph(), a, n);
      ReachesItself(cfg.Graph(), n);
      assert ReachedFrom(cfg.Graph(), b, n);
      assert n in cfg.Closure(b) && n !in cfg.Closure(a);
    }
  }

  lemma {:induction false} KeptAgreesIff(names: seq<string>, p: string -> bool, q: string -> bool)
    ensures Kept(names, p) == Kept(names, q) <==> forall n | n in names :: p(n) == q(n)
  {
    if Kept(names, p) == Kept(names, q) {
      forall n | n in names ensures p(n) == q(n) {
        assert n in Kept(names, p) <==> n in Kept(names, q);
      }
    }
    if (forall n | n in names :: p(n) == q(n)) && names != [] {
      KeptAgreesIff(names[..|names| - 1], p, q);
      assert names[|names| - 1] in names;
    }
  }

  // A down that does shrink the set.

  /** A disabled web that needs db, beside three blocks that stand alone. */
  function Shop(): Loaded {
    var db, mail, cache := Leaf("db"), Leaf("mail"), Leaf("cache");
    var web := Decl(App, "web", false, [Dependency("db", Healthy)], [], []);
    Loaded([db, mail, cache, web], map["db" := db, "mail" := mail, "cache" := cache, "web" := web])
  }

  function Leaf(name: string): Decl {
    Decl(App, name, true, [], [], [])
  }

  ghost predicate ShopLike(cfg: Loaded, db: string, mail: string, cache: string, web: string) {
    && Names(cfg.decls) == [db, mail, cache, web] && db != mail && db != cache && db != web && mail != cache
        && mail != web && cache != web
    && cfg.Enabled(db) && cfg.Enabled(mail) && cfg.Enabled(cache) && !cfg.Enabled(web)
    && Out(cfg.Graph(), db) == [] && Out(cfg.Graph(), mail) == [] && Out(cfg.Graph(), cache) == []
    && Out(cfg.Graph(), web) == [db]
  }

  lemma ShopIsShopLike()
    ensures NameMap(Shop().decls, Shop().index) && ShopLike(Shop(), "db", "mail", "cache", "web")
  {
    var cfg := Shop();
    assert "db" != "mail" && "db" != "web" && "mail" != "cache" && "mail" != "web" && "db" != "cache"
        && "cache" != "web" by {
      assert "db"[0] != "mail"[0] && "db"[0] != "web"[0] && "mail"[0] != "cache"[0];
    }
    assert Names(cfg.decls) == ["db", "mail", "cache", "web"];
    assert DepNames(cfg.index["web"].deps) == ["db"];
  }

  lemma EnabledOneMore(cfg: Loaded, names: seq<string>, n: string)
    ensures StillEnabled(cfg, names + [n]) == StillEnabled(cfg, names) + if cfg.Enabled(n) then [n] else []
  {
    assert (names + [n])[..|names|] == names;
  }

  lemma ShopEnabled(cfg: Loaded, db: string, mail: string, cache: string, web: string)
    requires ShopLike(cfg, db, mail, cache, web)
    ensures EnabledNames(cfg) == [db, mail, cache]
  {
    assert [db, mail, cache, web] == [db, mail, cache] + [web];
    assert [] + [db] == [db] && [db] + [mail] == [db, mail] && [db, mail] + [cache] == [db, mail, cache];
    EnabledOneMore(cfg, [], db);
    EnabledOneMore(cfg, [db], mail);
    EnabledOneMore(cfg, [db, mail], cache);
    EnabledOneMore(cfg, [db, mail, cache], web);
  }

  lemma ShopRoots(cfg: Loaded, db: string, mail: string, cache: string, web: string)
    requires ShopLike(cfg, db, mail, cache, web)
    ensures Roots(cfg, [db, mail, web]) == [mail]
  {
    var names := [db, mail, web];
    ShopEnabled(cfg, db, mail, cache, web);
    assert Edge(cfg.Graph(), web, db) && web in names && db in names;
    assert forall m | m in names :: m == db || m == mail || m == web;
    assert !NeededAmong(cfg, names, mail) && NeededAmong(cfg, names, db) && cache !in names;
    OnlyOneKept([db, mail, cache], n => n in names && !NeededAmong(cfg, names, n), 1);
  }

  lemma OnlyOneKept(names: seq<string>, keep: string -> bool, i: nat)
    requires i < |names| && forall j | 0 <= j < |names| :: keep(names[j]) <==> j == i
    ensures Kept(names, keep) == [names[i]]
  {
    if i == |names| - 1 {
      NoneKept(names[..i], keep);
    } else {
      OnlyOneKept(names[..|names| - 1], keep, i);
    }
  }

  lemma NoneKept(names: seq<string>, keep: string -> bool)
    requires forall j | 0 <= j < |names| :: !keep(names[j])
    ensures Kept(names, keep) == []
  {
    if names != [] {
      NoneKept(names[..|names| - 1], keep);
    }
  }

  /** Names that depend on nothing are their own closure. */
  lemma {:induction false} LeavesAreTheirClosure(g: Graph, names: seq<string>, w: BootClosure.Walk)
    requires NoDuplicates(names) && forall n | n in names :: n in g && g[n] == [] && n !in w.visited
    ensures BootClosure.Run(g, names, w).order == w.order + names
    decreases |names|
  {
    if names != [] {
      var n := names[0];
      LeavesAreTheirClosure(g, names[1..], BootClosure.Walk(w.visited + {n}, w.order + [n]));
      assert w.order + [n] + names[1..] == w.order + names;
    }
  }

  /** Last time db and mail; web, since disabled, is still awake and needs db: after down,
      mail alone is remembered. */
  lemma DisabledAwakeDependantShrinksTheSet(cfg: Loaded, db: string, mail: string, cache: string, web: string)
    requires ShopLike(cfg, db, mail, cache, web)
    ensures db in Started(cfg, [db, mail]) && db !in Started(cfg, AfterDown(cfg, [db, mail], [web]))
  {
    ShopForgetsDb(cfg, db, mail, cache, web);
    ShopClosures(cfg, db, mail, cache, web);
    StartedIsItsClosure(cfg, [mail]);
    StartedIsItsClosure(cfg, [db, mail]);
    assert db in [db, mail] && db !in [mail];
  }

  lemma ShopIsAcyclic()
    ensures Acyclic(Shop().Graph())
  {
    ShopIsShopLike();
    var g := Shop().Graph();
    assert forall x, y | Edge(g, x, y) :: x == "web" && y == "db";
    forall a ensures !OnCycle(g, a) {
      CycleGoesOn(g, a);
    }
  }

  /** An up of a disabled instance records nothing, which is read as everything: the mail,
      which the web does not need, is started next time. */
  lemma UpOfDisabledStartsEverything()
    ensures Remembered(Shop(), ["web"]) == [] && Started(Shop(), []) == AllOf(Shop())
    ensures "mail" in AllOf(Shop()) && "mail" !in Shop().Closure(["web"])
  {
    ShopIsShopLike();
    ShopIsAcyclic();
    UpOfWebStartsMail(Shop(), "db", "mail", "cache", "web");
  }

  lemma UpOfWebStartsMail(cfg: Loaded, db: string, mail: string, cache: string, web: string)
    requires cfg.Valid() && ShopLike(cfg, db, mail, cache, web)
    ensures Remembered(cfg, [web]) == [] && Started(cfg, []) == AllOf(cfg)
    ensures mail in AllOf(cfg) && mail !in cfg.Closure([web])
  {
    DisabledHasNoRoots(cfg, web);
    NothingRecorded(cfg, [web]);
    MailIsStarted(cfg, db, mail, cache, web);
    MailIsNotNeeded(cfg, db, mail, cache, web);
  }

  lemma DisabledHasNoRoots(cfg: Loaded, web: string)
    requires cfg.Valid() && !cfg.Enabled(web)
    ensures Roots(cfg, [web]) == []
  {
    RootsAreEnabled(cfg, [web]);
    assert forall r :: r !in Roots(cfg, [web]);
    EmptyOrFirst(Roots(cfg, [web]));
  }

  lemma EmptyOrFirst(names: seq<string>)
    ensures names == [] || names[0] in names
  {
  }

  lemma NothingRecorded(cfg: Loaded, names: seq<string>)
    requires cfg.Valid() && Roots(cfg, names) == []
    ensures Remembered(cfg, names) == [] && Started(cfg, []) == AllOf(cfg)
  {
    StartedIsRootsClosure(cfg, names);
    assert StillEnabled(cfg, []) == [];
  }

  lemma MailIsStarted(cfg: Loaded, db: string, mail: string, cache: string, web: string)
    requires ShopLike(cfg, db, mail, cache, web)
    ensures mail in AllOf(cfg)
  {
    ShopEnabled(cfg, db, mail, cache, web);
    assert EnabledNames(cfg)[1] == mail;
    ReachesItself(cfg.Graph(), mail);
    BootClosure.ClosureIsReachable(cfg.Graph(), EnabledNames(cfg));
  }

  /** Nothing the web reaches is the mail. */
  lemma MailIsNotNeeded(cfg: Loaded, db: string, mail: string, cache: string, web: string)
    requires ShopLike(cfg, db, mail, cache, web)
    ensures mail !in cfg.Closure([web])
  {
    BootClosure.ClosureIsReachable(cfg.Graph(), [web]);
    if p :| WalkBetween(cfg.Graph(), p, web, mail) {
      WebReachesDb(cfg, db, mail, cache, web, p, |p| - 1);
    }
  }

  lemma {:induction false} WebReachesDb(cfg: Loaded, db: string, mail: string, cache: string, web: string,
      p: seq<string>, i: nat)
    requires ShopLike(cfg, db, mail, cache, web) && IsWalk(cfg.Graph(), p) && p[0] == web && i < |p|
    ensures p[i] == web || p[i] == db
  {
    if i > 0 {
      WebReachesDb(cfg, db, mail, cache, web, p, i - 1);
      assert Edge(cfg.Graph(), p[i - 1], p[i]);
    }
  }

  lemma CycleGoesOn(g: Graph, a: string)
    ensures OnCycle(g, a) ==> exists b, c :: Edge(g, a, b) && Edge(g, b, c)
  {
    if p :| |p| > 1 && WalkBetween(g, p, a, a) {
      assert Edge(g, p[1 - 1], p[1]);
      assert Edge(g, p[1], if |p| > 2 then p[2] else p[1]) by {
        assert |p| > 2 ==> Edge(g, p[2 - 1], p[2]);
      }
    }
  }

  /** Such a stack: after an up of the database and the mail, a down while the disabled web
      was awake leaves the mail alone. */
  lemma ShopLosesItsDatabase()
    ensures Shop().Valid()
    ensures "db" in Started(Shop(), ["db", "mail"])
        && "db" !in Started(Shop(), AfterDown(Shop(), ["db", "mail"], ["web"]))
  {
    ShopIsShopLike();
    ShopIsAcyclic();
    DisabledAwakeDependantShrinksTheSet(Shop(), "db", "mail", "cache", "web");
  }

  lemma StartedIsItsClosure(cfg: Loaded, names: seq<string>)
    requires AllEnabled(cfg, names) && names != [] && |cfg.Closure(names)| != |AllOf(cfg)|
    ensures Started(cfg, names) == cfg.Closure(names)
  {
    KeptAll(names, n => cfg.Enabled(n));
  }

  lemma ShopForgetsDb(cfg: Loaded, db: string, mail: string, cache: string, web: string)
    requires ShopLike(cfg, db, mail, cache, web)
    ensures AfterDown(cfg, [db, mail], [web]) == [mail]
  {
    ShopRoots(cfg, db, mail, cache, web);
    ShopClosures(cfg, db, mail, cache, web);
    ShopStillHas(cfg, db, mail, cache, web);
  }

  lemma ShopStillHas(cfg: Loaded, db: string, mail: string, cache: string, web: string)
    requires ShopLike(cfg, db, mail, cache, web)
    ensures StillEnabled(cfg, [db, mail]) + [web] == [db, mail, web]
  {
    KeptAll([db, mail], n => cfg.Enabled(n));
  }

  lemma ShopClosures(cfg: Loaded, db: string, mail: string, cache: string, web: string)
    requires ShopLike(cfg, db, mail, cache, web)
    ensures cfg.Closure([mail]) == [mail] && cfg.Closure([db, mail]) == [db, mail] && |AllOf(cfg)| == 3
  {
    ShopEnabled(cfg, db, mail, cache, web);
    LeavesAreTheirClosure(cfg.Graph(), [mail], BootClosure.FRESH);
    LeavesAreTheirClosure(cfg.Graph(), [db, mail], BootClosure.FRESH);
    LeavesAreTheirClosure(cfg.Graph(), [db, mail, cache], BootClosure.FRESH);
  }
}
