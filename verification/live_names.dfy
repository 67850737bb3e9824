/** What runs of live adds and removes make of published names and of listeners: a live add
    is not checked as a stack is when it loads. */
module LiveNames {
  import opened Stack
  import opened Live
  import Placement

  // Published names.

  ghost predicate Unique(decls: seq<Decl>) {
    forall i, j | 0 <= i < j < |decls| :: decls[i].name != decls[j].name
  }

  /** The address an instance is reached at, when it is fronted by a listener or has none. */
  function ReachedAt(site: Site, h: Held, d: Decl): Option<string> {
    if !site.fronted(d) then Some(LOOPBACK)
    else if d.name in h.binds then Some(h.binds[d.name].ip)
    else None
  }

  /** The name an enabled instance publishes resolves to where it is reached. A disabled one
      publishes none when the stack loads. */
  ghost predicate NameHolds(site: Site, h: Held, d: Decl) {
    d.enabled && site.Domain(d).Some? ==>
      site.Domain(d).value in h.resolved && ReachedAt(site, h, d) == Some(h.resolved[site.Domain(d).value])
  }

  ghost predicate NamesHold(site: Site, t: Topology) {
    forall d | d in t.decls :: NameHolds(site, t.held, d)
  }

  /** An enabled instance publishes the name that e has, enabled or not. */
  predicate SharesName(site: Site, d: Decl, e: Decl) {
    d.enabled && site.Domain(d).Some? && site.Domain(d) == site.Domain(e)
  }

  ghost predicate DistinctNames(site: Site, decls: seq<Decl>) {
    forall d, e | d in decls && e in decls && d != e :: !SharesName(site, d, e)
  }

  /** What is left of names and addresses after each kind of add. */
  lemma AddedNames(site: Site, h: Held, decls: seq<Decl>, decl: Decl, w: World)
    ensures var after, x := AfterAdd(site, h, decls, decl, w), site.Domain(decl);
            match Verdict(site, decl, w)
            case Added =>
              && after.resolved == (if x.Some? then h.resolved[x.value := AddressOf(site, decl, w)] else h.resolved)
              && after.binds == (if site.fronted(decl) then h.binds[decl.name := BindOf(site, decl, w)] else h.binds)
            case NotBooted =>
              && after.resolved == (if x.Some? then h.resolved - {x.value} else h.resolved)
              && after.binds == (if site.fronted(decl) then h.binds[decl.name := BindOf(site, decl, w)] else h.binds)
            case _ => after.resolved == h.resolved && after.binds == h.binds
  {
    if x: string :| site.Domain(decl) == Some(x) {
      assert h.resolved[x := AddressOf(site, decl, w)] - {x} == h.resolved - {x};
    }
  }

  lemma NamesAreNotNew(decls: seq<Decl>, decl: Decl)
    requires decl.name !in Names(decls)
    ensures forall d | d in decls :: d.name != decl.name
  {
    forall i | 0 <= i < |decls| ensures decls[i].name != decl.name {
      assert Names(decls)[i] == decls[i].name;
    }
  }

  /** An add that comes through keeps every published name right if and only if whoever
      published its name before is reached at the same address. */
  lemma AddKeepsNamesIff(site: Site, h: Held, decls: seq<Decl>, decl: Decl, w: World)
    requires NamesHold(site, Topology(h, decls)) && decl.name !in Names(decls) && Verdict(site, decl, w).Added?
    ensures NamesHold(site, Topology(AfterAdd(site, h, decls, decl, w), decls + [decl])) <==>
            forall d | d in decls && SharesName(site, d, decl) ::
                ReachedAt(site, h, d) == Some(AddressOf(site, decl, w))
  {
    var after := AfterAdd(site, h, decls, decl, w);
    AddedNames(site, h, decls, decl, w);
    NamesAreNotNew(decls, decl);
    forall d | d in decls
      ensures NameHolds(site, after, d) <==>
              (SharesName(site, d, decl) ==> ReachedAt(site, h, d) == Some(AddressOf(site, decl, w))) {
      assert NameHolds(site, h, d) && ReachedAt(site, after, d) == ReachedAt(site, h, d);
    }
    NewNameHolds(site, h, decls, decl, w);
    assert forall d :: d in decls + [decl] <==> d in decls || d == decl;
  }

  lemma NewNameHolds(site: Site, h: Held, decls: seq<Decl>, decl: Decl, w: World)
    requires Verdict(site, decl, w).Added?
    ensures NameHolds(site, AfterAdd(site, h, decls, decl, w), decl)
  {
    AddedNames(site, h, decls, decl, w);
  }

  /** A boot that fails keeps them right if and only if no one published its name before:
      taking the name back takes it from them. Any other failure changes none. */
  lemma FailedAddKeepsNamesIff(site: Site, h: Held, decls: seq<Decl>, decl: Decl, w: World)
    requires NamesHold(site, Topology(h, decls)) && decl.name !in Names(decls) && !Verdict(site, decl, w).Added?
    ensures NamesHold(site, Topology(AfterAdd(site, h, decls, decl, w), decls)) <==>
            (Verdict(site, decl, w).NotBooted? ==> forall d | d in decls :: !SharesName(site, d, decl))
  {
    var after := AfterAdd(site, h, decls, decl, w);
    AddedNames(site, h, decls, decl, w);
    NamesAreNotNew(decls, decl);
    forall d | d in decls
      ensures NameHolds(site, after, d) <==> !(Verdict(site, decl, w).NotBooted? && SharesName(site, d, decl)) {
      assert NameHolds(site, h, d) && ReachedAt(site, after, d) == ReachedAt(site, h, d);
    }
  }

  lemma RemovedNames(site: Site, h: Held, decls: seq<Decl>, decl: Decl, taken: set<string>)
    ensures var after, x := AfterRemove(site, h, decls, decl, taken), site.Domain(decl);
            && after.resolved == (if x.Some? then h.resolved - {x.value} else h.resolved)
            && after.binds == h.binds - {decl.name}
  {
  }

  /** A remove keeps them right if and only if no other instance publishes the name of the
      one removed. */
  lemma RemoveKeepsNamesIff(site: Site, h: Held, decls: seq<Decl>, decl: Decl, taken: set<string>)
    requires NamesHold(site, Topology(h, decls)) && Unique(decls) && decl in decls
    ensures NamesHold(site, Topology(AfterRemove(site, h, decls, decl, taken), Without(decls, decl.name))) <==>
            forall d | d in decls && d != decl :: !SharesName(site, d, decl)
  {
    var after := AfterRemove(site, h, decls, decl, taken);
    RemovedNames(site, h, decls, decl, taken);
    WithoutIsFilter(decls, decl.name);
    forall d | d in decls ensures d != decl <==> d.name != decl.name {
      var i :| 0 <= i < |decls| && decls[i] == d;
      var j :| 0 <= j < |decls| && decls[j] == decl;
    }
    forall d | d in decls && d != decl ensures NameHolds(site, after, d) <==> !SharesName(site, d, decl) {
      assert NameHolds(site, h, d) && ReachedAt(site, after, d) == ReachedAt(site, h, d);
    }
  }

  // Whole runs.

  /** Whatever is removed next, names are still right. */
  ghost predicate SafeToRemove(site: Site, t: Topology) {
    forall n, taken :: NamesHold(site, Step(site, t, Remove(n, taken)))
  }

  /** All along a run published names are right, and would be after any one remove more. */
  ghost predicate AlwaysRight(site: Site, t: Topology, ops: seq<Op>)
    decreases |ops|
  {
    && NamesHold(site, t) && SafeToRemove(site, t)
    && (ops == [] || AlwaysRight(site, Step(site, t, ops[0]), ops[1..]))
  }

  /** A block is tried under a name of its own that a declared one publishes. */
  ghost predicate Clashes(site: Site, t: Topology, op: Op) {
    && op.Add? && op.decl.name !in Names(t.decls)
    && (Verdict(site, op.decl, op.w).Added? || Verdict(site, op.decl, op.w).NotBooted?)
    && exists d :: d in t.decls && SharesName(site, d, op.decl)
  }

  ghost predicate NeverClashes(site: Site, t: Topology, ops: seq<Op>)
    decreases |ops|
  {
    && DistinctNames(site, t.decls)
    && (ops == [] || (!Clashes(site, t, ops[0]) && NeverClashes(site, Step(site, t, ops[0]), ops[1..])))
  }

  lemma NamesAreKeys(decls: seq<Decl>, n: string)
    requires Unique(decls)
    ensures n in ByName(decls) <==> n in Names(decls)
    ensures n in ByName(decls) ==> ByName(decls)[n] in decls && ByName(decls)[n].name == n
    ensures forall d | d in decls :: d.name in ByName(decls) && ByName(decls)[d.name] == d
  {
    forall i, j | 0 <= i < j < |decls| ensures Names(decls)[i] != Names(decls)[j] {
      assert decls[i].name != decls[j].name;
    }
    ByNameIsNameMap(decls);
    if n in Names(decls) {
      var i :| 0 <= i < |decls| && Names(decls)[i] == n;
      assert decls[i].name in ByName(decls);
    }
    if n in ByName(decls) {
      var i :| 0 <= i < |decls| && decls[i] == ByName(decls)[n];
      assert Names(decls)[i] == n;
    }
  }

  /** No other instance publishes the name of e. */
  ghost predicate Sole(site: Site, decls: seq<Decl>, e: Decl) {
    forall d | d in decls && d != e :: !SharesName(site, d, e)
  }

  lemma RemovalIsSafeIff(site: Site, t: Topology, n: string, taken: set<string>)
    requires Unique(t.decls) && NamesHold(site, t)
    ensures n in ByName(t.decls) ==> ByName(t.decls)[n] in t.decls
    ensures NamesHold(site, Step(site, t, Remove(n, taken))) <==>
            (n in ByName(t.decls) ==> Sole(site, t.decls, ByName(t.decls)[n]))
  {
    NamesAreKeys(t.decls, n);
    if n in ByName(t.decls) {
      RemoveKeepsNamesIff(site, t.held, t.decls, ByName(t.decls)[n], taken);
    }
  }

  lemma SafeToRemoveIff(site: Site, t: Topology)
    requires Unique(t.decls) && NamesHold(site, t)
    ensures SafeToRemove(site, t) <==> DistinctNames(site, t.decls)
  {
    forall n, taken
      ensures NamesHold(site, Step(site, t, Remove(n, taken))) <==>
              (n in ByName(t.decls) ==> Sole(site, t.decls, ByName(t.decls)[n]))
      ensures n in ByName(t.decls) ==> ByName(t.decls)[n] in t.decls
    {
      RemovalIsSafeIff(site, t, n, taken);
    }
    NamesAreKeys(t.decls, "");
    if SafeToRemove(site, t) {
      forall e | e in t.decls ensures Sole(site, t.decls, e) {
        assert NamesHold(site, Step(site, t, Remove(e.name, {})));
      }
    } else {
      var n, taken :| !NamesHold(site, Step(site, t, Remove(n, taken)));
      assert !Sole(site, t.decls, ByName(t.decls)[n]);
    }
  }

  lemma StepKeepsUnique(site: Site, t: Topology, op: Op)
    requires Unique(t.decls)
    ensures Unique(Step(site, t, op).decls)
  {
    match op
    case Add(d, w) =>
      NamesAreKeys(t.decls, d.name);
      if d.name !in ByName(t.decls) {
        NamesAreNotNew(t.decls, d);
      }
    case Remove(n, _) => WithoutKeepsUnique(t.decls, n);
  }

  lemma WithoutKeepsUnique(decls: seq<Decl>, n: string)
    requires Unique(decls)
    ensures Unique(Without(decls, n))
  {
    WithoutIsFilter(decls, n);
    forall i, j | 0 <= i < j < |decls| ensures Names(decls)[i] != Names(decls)[j] {
      assert decls[i].name != decls[j].name;
    }
    var w := Without(decls, n);
    forall i, j | 0 <= i < j < |w| ensures w[i].name != w[j].name {
      assert Names(w)[i] != Names(w)[j];
    }
  }

  /** A step that does not clash keeps names right. */
  lemma CleanStepKeepsNames(site: Site, t: Topology, op: Op)
    requires Unique(t.decls) && NamesHold(site, t) && DistinctNames(site, t.decls) && !Clashes(site, t, op)
    ensures NamesHold(site, Step(site, t, op))
  {
    match op
    case Add(d, w) =>
      NamesAreKeys(t.decls, d.name);
      if d.name !in ByName(t.decls) {
        if Verdict(site, d, w).Added? {
          AddKeepsNamesIff(site, t.held, t.decls, d, w);
        } else {
          FailedAddKeepsNamesIff(site, t.held, t.decls, d, w);
        }
      }
    case Remove(n, taken) =>
      SafeToRemoveIff(site, t);
  }

  /** One that clashes makes some name wrong, or leaves two of one name. */
  lemma ClashBreaks(site: Site, t: Topology, op: Op)
    requires Unique(t.decls) && NamesHold(site, t) && Clashes(site, t, op)
    ensures !(NamesHold(site, Step(site, t, op)) && DistinctNames(site, Step(site, t, op).decls))
  {
    NamesAreKeys(t.decls, op.decl.name);
    NamesAreNotNew(t.decls, op.decl);
    var d :| d in t.decls && SharesName(site, d, op.decl);
    if Verdict(site, op.decl, op.w).Added? {
      assert d in t.decls + [op.decl] && op.decl in t.decls + [op.decl];
    } else {
      FailedAddKeepsNamesIff(site, t.held, t.decls, op.decl, op.w);
    }
  }

  /** Over any run of live adds and removes, every enabled instance's name resolves to where
      it is reached, and would after any remove more, if and only if names are right at the
      start, no enabled instance ever shares its name with another declared one, enabled or
      not, and no block is tried under a name an enabled one publishes. */
  lemma {:induction false} NamesAlwaysRightIff(site: Site, t: Topology, ops: seq<Op>)
    requires Unique(t.decls)
    ensures AlwaysRight(site, t, ops) <==> NamesHold(site, t) && NeverClashes(site, t, ops)
    decreases |ops|
  {
    if NamesHold(site, t) {
      SafeToRemoveIff(site, t);
      if ops != [] && DistinctNames(site, t.decls) {
        var next := Step(site, t, ops[0]);
        StepKeepsUnique(site, t, ops[0]);
        NamesAlwaysRightIff(site, next, ops[1..]);
        if Clashes(site, t, ops[0]) {
          ClashBreaks(site, t, ops[0]);
          if NamesHold(site, next) {
            SafeToRemoveIff(site, next);
          }
        } else {
          CleanStepKeepsNames(site, t, ops[0]);
        }
      }
    }
  }

  // Two names of one label.

  const ONE := Decl(App, "orders-pg", true, [], [], [])
  const OTHER := Decl(App, "orders_pg", true, [], [], [])

  /** A site with names on, where apps bind their own port and are published under the names
      the zone gives. */
  function Apps(z: Placement.Zone): Site {
    Site(true, false, n => z.Domain(n), d => Tcp, d => "80", d => false, d => true, d => false, d => false)
  }

  lemma OneLabel(z: Placement.Zone)
    requires z.lower(ONE.name) == ONE.name && z.lower(OTHER.name) == OTHER.name
    ensures ONE.name != OTHER.name && z.Domain(ONE.name) == z.Domain(OTHER.name)
  {
    var a, b := "orders-pg", "orders_pg";
    assert a[6] != b[6];
    forall i | 0 <= i < |a| ensures Placement.Hyphened(a)[i] == Placement.Hyphened(b)[i] {
      if i != 6 {
        assert a[i] == b[i];
      }
    }
    assert Placement.Hyphened(a) == Placement.Hyphened(b);
  }

  /** Two live apps whose names have one label: the one left after a remove of the other is
      not published any more. */
  lemma TwinLosesItsName(z: Placement.Zone)
    requires z.lower(ONE.name) == ONE.name && z.lower(OTHER.name) == OTHER.name
    ensures var site, w := Apps(z), World(None, true, true, {}, true);
            var both := Step(site, Step(site, Topology(NOTHING, []), Add(ONE, w)), Add(OTHER, w));
            var left := Step(site, both, Remove(OTHER.name, {}));
            && NamesHold(site, both) && left.decls == [ONE]
            && !NamesHold(site, left) && z.Domain(ONE.name) !in left.held.resolved
  {
    OneLabel(z);
    TwinsShare(Apps(z), ONE, OTHER, z.Domain(ONE.name), World(None, true, true, {}, true));
  }

  lemma TwinsShare(site: Site, one: Decl, other: Decl, domain: string, w: World)
    requires one.name != other.name && site.Domain(one) == site.Domain(other) == Some(domain)
    requires !site.fronted(one) && !site.fronted(other) && w.booted && one.enabled
    ensures var both := Step(site, Step(site, Topology(NOTHING, []), Add(one, w)), Add(other, w));
            var left := Step(site, both, Remove(other.name, {}));
            && NamesHold(site, both) && left.decls == [one]
            && !NamesHold(site, left) && domain !in left.held.resolved
  {
    var both := Step(site, Step(site, Topology(NOTHING, []), Add(one, w)), Add(other, w));
    TwinsAreAdded(site, one, other, domain, w);
    TwinIsRemoved(site, both.held, one, other, domain);
  }

  lemma TwinsAreAdded(site: Site, one: Decl, other: Decl, domain: string, w: World)
    requires one.name != other.name && site.Domain(one) == site.Domain(other) == Some(domain)
    requires !site.fronted(one) && !site.fronted(other) && w.booted && one.enabled
    ensures var both := Step(site, Step(site, Topology(NOTHING, []), Add(one, w)), Add(other, w));
            NamesHold(site, both) && both.decls == [one, other]
  {
    var t1 := Step(site, Topology(NOTHING, []), Add(one, w));
    AddedNames(site, NOTHING, [], one, w);
    assert t1.decls == [one];
    NamesAreKeys([one], other.name);
    AddKeepsNamesIff(site, NOTHING, [], one, w);
    AddKeepsNamesIff(site, t1.held, [one], other, w);
  }

  lemma TwinIsRemoved(site: Site, h: Held, one: Decl, other: Decl, domain: string)
    requires one.name != other.name && site.Domain(one) == site.Domain(other) == Some(domain) && one.enabled
    ensures var left := Step(site, Topology(h, [one, other]), Remove(other.name, {}));
            left.decls == [one] && !NamesHold(site, left) && domain !in left.held.resolved
  {
    var decls := [one, other];
    NamesAreKeys(decls, other.name);
    assert other in decls;
    RemovedNames(site, h, decls, other, {});
    OtherIsDropped(one, other);
    assert one in Step(site, Topology(h, decls), Remove(other.name, {})).decls;
  }

  lemma OtherIsDropped(one: Decl, other: Decl)
    requires one.name != other.name
    ensures Without([one, other], other.name) == [one]
  {
    assert [one, other][..1] == [one];
    NothingToDrop([one], other.name);
  }

  /** No live add is needed: a stack loads with an enabled app and a disabled one of one
      label, and a remove of the disabled one takes the name from the other. */
  lemma DisabledTwinTakesTheName(z: Placement.Zone)
    requires z.lower(ONE.name) == ONE.name && z.lower(OTHER.name) == OTHER.name
    ensures Placement.DomainsFine([AsLoaded(ONE), AsLoaded(Paused())], 2, z)
    ensures var site := Apps(z);
            var loaded := Topology(NOTHING.(resolved := map[z.Domain(ONE.name) := LOOPBACK]), [ONE, Paused()]);
            var left := Step(site, loaded, Remove(OTHER.name, {}));
            && NamesHold(site, loaded) && left.decls == [ONE]
            && !NamesHold(site, left) && z.Domain(ONE.name) !in left.held.resolved
  {
    OneLabel(z);
    PausedTwinTakes(Apps(z), ONE, Paused(), z.Domain(ONE.name));
  }

  function Paused(): Decl {
    OTHER.(enabled := false)
  }

  /** The block as the checks at load see it. */
  function AsLoaded(d: Decl): Placement.Block {
    Placement.Block(d.name, d.enabled, None, Some("80"), true, false, {})
  }

  lemma PausedTwinTakes(site: Site, one: Decl, paused: Decl, domain: string)
    requires one.name != paused.name && one.enabled && !paused.enabled && !site.fronted(one)
    requires site.Domain(one) == site.Domain(paused) == Some(domain)
    ensures var loaded := Topology(NOTHING.(resolved := map[domain := LOOPBACK]), [one, paused]);
            var left := Step(site, loaded, Remove(paused.name, {}));
            && NamesHold(site, loaded) && left.decls == [one]
            && !NamesHold(site, left) && domain !in left.held.resolved
  {
    var loaded := Topology(NOTHING.(resolved := map[domain := LOOPBACK]), [one, paused]);
    NamesAreKeys(loaded.decls, paused.name);
    assert paused in loaded.decls;
    RemovedNames(site, loaded.held, loaded.decls, paused, {});
    OtherIsDropped(one, paused);
    assert one in Step(site, loaded, Remove(paused.name, {})).decls;
  }

  // Listeners a failed boot leaves.

  /** One address is listened on once: a listener opens only where no running one is. */
  predicate Opens(site: Site, h: Held, decl: Decl, w: World) {
    w.listening ==> forall m | m in h.running && m in h.binds :: h.binds[m] != BindOf(site, decl, w)
  }

  /** A listener is left of a block that is not declared. */
  predicate Left(t: Topology, name: string, x: Bind) {
    name in t.held.running && name in t.held.binds && t.held.binds[name] == x && name !in Names(t.decls)
  }

  /** What a failed boot of a fronted block leaves. */
  lemma FailedBootLeavesListener(site: Site, t: Topology, decl: Decl, w: World)
    requires decl.name !in Names(t.decls) && Unique(t.decls)
    requires Verdict(site, decl, w).NotBooted? && site.fronted(decl)
    ensures Left(Step(site, t, Add(decl, w)), decl.name, BindOf(site, decl, w))
  {
    NamesAreKeys(t.decls, decl.name);
    FailedBootLeaves(site, t.held, t.decls, decl, w);
    AddedNames(site, t.held, t.decls, decl, w);
  }

  /** An add at the address of a left listener cannot come through, the same add again
      among them: it is stopped at the listener at the latest. */
  lemma LeftListenerStopsAdds(site: Site, t: Topology, name: string, decl: Decl, w: World)
    requires Left(t, name, BindOf(site, decl, w)) && site.fronted(decl) && Opens(site, t.held, decl, w)
    ensures var r := Verdict(site, decl, w); r.NoPort? || r.NoAddress? || r.NotListening?
  {
  }

  /** And a remove does not find it, and changes nothing. */
  lemma LeftListenerIsNotFound(site: Site, t: Topology, name: string, x: Bind, taken: set<string>)
    requires Left(t, name, x) && Unique(t.decls)
    ensures Step(site, t, Remove(name, taken)) == t
  {
    NamesAreKeys(t.decls, name);
  }

  /** A run in which listeners open as they can, and a block of this name asks for no
      other address. */
  ghost predicate SameAddress(site: Site, t: Topology, ops: seq<Op>, name: string, x: Bind)
    decreases |ops|
  {
    ops == [] ||
    (&& (ops[0].Add? ==> Opens(site, t.held, ops[0].decl, ops[0].w))
     && (ops[0].Add? && ops[0].decl.name == name ==>
           site.fronted(ops[0].decl) && BindOf(site, ops[0].decl, ops[0].w) == x)
     && SameAddress(site, Step(site, t, ops[0]), ops[1..], name, x))
  }

  ghost function AfterRun(site: Site, t: Topology, ops: seq<Op>): Topology
    decreases |ops|
  {
    if ops == [] then t else AfterRun(site, Step(site, t, ops[0]), ops[1..])
  }

  /** A run of one operation more is the run, and then that operation. */
  lemma {:induction false} RunOneMore(site: Site, t: Topology, ops: seq<Op>, op: Op)
    ensures AfterRun(site, t, ops + [op]) == Step(site, AfterRun(site, t, ops), op)
    decreases |ops|
  {
    if ops == [] {
      assert (ops + [op])[1..] == [];
    } else {
      assert (ops + [op])[1..] == ops[1..] + [op];
      RunOneMore(site, Step(site, t, ops[0]), ops[1..], op);
    }
  }

  lemma StepIsIndexed(site: Site, t: Topology, op: Op)
    requires Unique(t.decls)
    ensures ByName(Step(site, t, op).decls) == Apply(site, ByName(t.decls), op)
  {
    match op
    case Add(d, w) =>
      assert (t.decls + [d])[..|t.decls|] == t.decls;
    case Remove(n, _) =>
      NamesAreKeys(t.decls, n);
      UniqueIsNameMap(t.decls);
      if n in ByName(t.decls) {
        RemoveKeepsExactness(t.decls, ByName(t.decls), n);
        NameMapIsByName(Without(t.decls, n), ByName(t.decls) - {n});
      }
  }

  lemma UniqueIsNameMap(decls: seq<Decl>)
    requires Unique(decls)
    ensures NameMap(decls, ByName(decls))
  {
    forall i, j | 0 <= i < j < |decls| ensures Names(decls)[i] != Names(decls)[j] {
      assert decls[i].name != decls[j].name;
    }
    ByNameIsNameMap(decls);
  }

  /** Over any run the index is the name map of what is declared then. */
  lemma {:induction false} RunIsIndexed(site: Site, t: Topology, ops: seq<Op>)
    requires Unique(t.decls)
    ensures Run(site, ByName(t.decls), ops) == ByName(AfterRun(site, t, ops).decls)
    decreases |ops|
  {
    if ops != [] {
      StepIsIndexed(site, t, ops[0]);
      StepKeepsUnique(site, t, ops[0]);
      RunIsIndexed(site, Step(site, t, ops[0]), ops[1..]);
    }
  }

  lemma LeftListenerStaysOnce(site: Site, t: Topology, op: Op, name: string, x: Bind)
    requires Left(t, name, x) && Unique(t.decls)
    requires op.Add? ==> Opens(site, t.held, op.decl, op.w)
    requires op.Add? && op.decl.name == name ==> site.fronted(op.decl) && BindOf(site, op.decl, op.w) == x
    ensures Left(Step(site, t, op), name, x)
  {
    match op
    case Add(d, w) =>
      NamesAreKeys(t.decls, d.name);
      AddedNames(site, t.held, t.decls, d, w);
      if d.name == name {
        LeftListenerStopsAdds(site, t, name, d, w);
      } else {
        OtherNameStays(t.decls, d, name);
      }
      StillRunning(site, t.held, t.decls, d, w, name);
    case Remove(n, taken) =>
      NamesAreKeys(t.decls, n);
      if n in ByName(t.decls) {
        RemovedNames(site, t.held, t.decls, ByName(t.decls)[n], taken);
        FewerNames(t.decls, n, name);
      }
  }

  lemma StillRunning(site: Site, h: Held, decls: seq<Decl>, d: Decl, w: World, name: string)
    requires name in h.running
    ensures name in AfterAdd(site, h, decls, d, w).running
  {
  }

  lemma OtherNameStays(decls: seq<Decl>, d: Decl, name: string)
    requires name !in Names(decls) && d.name != name
    ensures name !in Names(decls + [d])
  {
    assert Names(decls + [d]) == Names(decls) + [d.name];
  }

  lemma FewerNames(decls: seq<Decl>, n: string, name: string)
    requires name !in Names(decls)
    ensures name !in Names(Without(decls, n))
  {
    WithoutIsFilter(decls, n);
    forall d | d in decls ensures d.name != name {
      var i :| 0 <= i < |decls| && decls[i] == d;
      assert Names(decls)[i] == d.name;
    }
  }

  /** So the listener a failed boot leaves is open as long as the daemon runs, whatever is
      added and removed, unless a block of its name is added that asks for another address. */
  lemma {:induction false} LeftListenerStays(site: Site, t: Topology, ops: seq<Op>, name: string, x: Bind)
    requires Left(t, name, x) && Unique(t.decls) && SameAddress(site, t, ops, name, x)
    ensures Left(AfterRun(site, t, ops), name, x)
    decreases |ops|
  {
    if ops != [] {
      LeftListenerStaysOnce(site, t, ops[0], name, x);
      StepKeepsUnique(site, t, ops[0]);
      LeftListenerStays(site, Step(site, t, ops[0]), ops[1..], name, x);
    }
  }
}
