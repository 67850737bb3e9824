/** The live configuration: the instance list replaced, never edited, with its name index;
    and what adding and removing instances on a running daemon keeps. */
module Live {
  import opened Graphs
  import opened Stack
  import BootClosure
  import Edges

  /** The list without the instances called name. */
  function Without(decls: seq<Decl>, name: string): seq<Decl> {
    if decls == [] then []
    else
      var rest := Without(decls[..|decls| - 1], name);
      if decls[|decls| - 1].name == name then rest else rest + [decls[|decls| - 1]]
  }

  class Config {
    var instances: array<Decl>
    var index: map<string, Decl>

    /** The list declares no name twice, and the index is exactly its name map. */
    ghost predicate Exact()
      reads this, instances
    {
      NameMap(instances[..], index)
    }

    constructor ()
      ensures Exact() && instances.Length == 0
    {
      instances, index := new Decl[0], map[];
    }

    method Lookup(name: string) returns (d: Option<Decl>)
      ensures d.Some? <==> name in index
      ensures d.Some? ==> d.value == index[name]
      ensures Exact() ==> (d.Some? <==> exists x :: x in instances[..] && x.name == name)
    {
      d := if name in index then Some(index[name]) else None;
    }

    /** The instances as they are now: the list itself, not a copy. */
    method Decls() returns (now: array<Decl>)
      ensures now == instances
    {
      now := instances;
    }

    /** Puts decl at the end of a new list. No list handed out before changes. */
    method Add(decl: Decl)
      modifies this
      ensures fresh(instances) && instances[..] == old(instances[..]) + [decl]
      ensures index == old(index)[decl.name := decl]
      ensures old(instances)[..] == old(instances[..])
      ensures old(Exact()) ==> (Exact() <==> decl.name !in old(index))
    {
      ghost var was := instances[..];
      var n := instances.Length;
      instances := new Decl[n + 1](i requires 0 <= i <= n reads this, instances =>
        if i < instances.Length then instances[i] else decl);
      index := index[decl.name := decl];
      assert instances[..] == was + [decl];
      AddKeepsExactness(was, old(index), decl);
    }

    /** Drops name into a new list, saying whether it was there. */
    method Remove(name: string) returns (was: bool)
      modifies this
      ensures was <==> name in old(index)
      ensures !was ==> instances == old(instances) && index == old(index)
      ensures was ==> fresh(instances) && instances[..] == Without(old(instances[..]), name)
      ensures was ==> index == old(index) - {name}
      ensures old(instances)[..] == old(instances[..])
      ensures old(Exact()) ==> Exact()
    {
      if name !in index {
        return false;
      }
      index := index - {name};
      var next := [];
      for i := 0 to instances.Length
        invariant next == Without(instances[..i], name)
      {
        assert instances[..i + 1][..i] == instances[..i];
        if instances[i].name != name {
          next := next + [instances[i]];
        }
      }
      assert instances[..instances.Length] == instances[..];
      RemoveKeepsExactness(instances[..], old(index), name);
      instances := new Decl[|next|](i requires 0 <= i < |next| => next[i]);
      assert instances[..] == next;
      return true;
    }
  }

  lemma AddKeepsExactness(decls: seq<Decl>, index: map<string, Decl>, decl: Decl)
    ensures NameMap(decls, index) ==> (NameMap(decls + [decl], index[decl.name := decl]) <==> decl.name !in index)
  {
    if NameMap(decls, index) {
      var now := decls + [decl];
      if decl.name in index {
        var i :| 0 <= i < |decls| && decls[i] == index[decl.name];
        assert now[i].name == now[|decls|].name;
      } else {
        var after := index[decl.name := decl];
        forall n | n in after ensures after[n].name == n && after[n] in now {
          assert n != decl.name ==> index[n] in decls;
        }
      }
    }
  }

  lemma {:induction false} WithoutIsFilter(decls: seq<Decl>, name: string)
    ensures forall d :: d in Without(decls, name) <==> d in decls && d.name != name
    ensures NoDuplicates(Names(decls)) ==> NoDuplicates(Names(Without(decls, name)))
  {
    WithoutHolds(decls, name);
    if NoDuplicates(Names(decls)) {
      WithoutIsDistinct(decls, name);
    }
  }

  lemma {:induction false} WithoutHolds(decls: seq<Decl>, name: string)
    ensures forall d :: d in Without(decls, name) <==> d in decls && d.name != name
  {
    if decls != [] {
      WithoutHolds(decls[..|decls| - 1], name);
      assert decls == decls[..|decls| - 1] + [decls[|decls| - 1]];
    }
  }

  lemma {:induction false} WithoutIsDistinct(decls: seq<Decl>, name: string)
    requires NoDuplicates(Names(decls))
    ensures NoDuplicates(Names(Without(decls, name)))
  {
    if decls != [] {
      var init, last := decls[..|decls| - 1], decls[|decls| - 1];
      assert decls == init + [last];
      LastNameIsNew(init, last);
      WithoutIsDistinct(init, name);
      WithoutHolds(init, name);
      if last.name != name {
        OneMoreDistinct(Without(init, name), last);
      }
    }
  }

  lemma LastNameIsNew(init: seq<Decl>, last: Decl)
    requires NoDuplicates(Names(init + [last]))
    ensures NoDuplicates(Names(init)) && forall d | d in init :: d.name != last.name
  {
    var all := Names(init + [last]);
    forall i | 0 <= i < |init| ensures Names(init)[i] == all[i] && init[i].name != last.name {
      assert all[i] != all[|init|];
    }
  }

  lemma OneMoreDistinct(decls: seq<Decl>, last: Decl)
    requires NoDuplicates(Names(decls)) && forall d | d in decls :: d.name != last.name
    ensures NoDuplicates(Names(decls + [last]))
  {
    var all := Names(decls + [last]);
    forall i, j | 0 <= i < j < |all| ensures all[i] != all[j] {
      assert decls[i] in decls;
      if j < |decls| {
        assert Names(decls)[i] != Names(decls)[j];
      }
    }
  }

  lemma RemoveKeepsExactness(decls: seq<Decl>, index: map<string, Decl>, name: string)
    ensures NameMap(decls, index) ==> NameMap(Without(decls, name), index - {name})
  {
    if NameMap(decls, index) {
      WithoutIsFilter(decls, name);
      var w := Without(decls, name);
      assert forall i, j | 0 <= i < j < |decls| :: Names(decls)[i] != Names(decls)[j];
      assert forall i, j | 0 <= i < j < |w| :: Names(w)[i] != Names(w)[j];
      forall i | 0 <= i < |w| ensures w[i].name in index - {name} && (index - {name})[w[i].name] == w[i] {
        assert w[i] in w;
      }
    }
  }

  /** Removing what was just added under a new name gives back the list and the index. */
  lemma RemoveUndoesAdd(decls: seq<Decl>, index: map<string, Decl>, decl: Decl)
    requires NameMap(decls, index) && decl.name !in index
    ensures Without(decls + [decl], decl.name) == decls
    ensures index[decl.name := decl] - {decl.name} == index
  {
    assert (decls + [decl])[..|decls|] == decls;
    NothingToDrop(decls, decl.name);
  }

  lemma {:induction false} NothingToDrop(decls: seq<Decl>, name: string)
    requires forall d | d in decls :: d.name != name
    ensures Without(decls, name) == decls
  {
    if decls != [] {
      NothingToDrop(decls[..|decls| - 1], name);
      assert decls == decls[..|decls| - 1] + [decls[|decls| - 1]];
    }
  }

  lemma NothingCalled(decls: seq<Decl>, index: map<string, Decl>, name: string)
    requires NameMap(decls, index) && name !in index
    ensures Without(decls, name) == decls && index - {name} == index
  {
    NothingToDrop(decls, name);
  }

  // What a daemon holds beside its configuration.

  /** Where a block is reached by its clients: a host and port, a socket, or nowhere. */
  datatype Reach = Tcp | Socket | Nowhere

  datatype Bind = Bind(ip: string, port: string)

  /** What does not change while a daemon runs: whether names are on, whether each service
      has an address of its own, and what is read off a block. */
  datatype Site = Site(
    names: bool, own: bool, domain: string -> string, reach: Decl -> Reach, port: Decl -> string,
    fronted: Decl -> bool, supervised: Decl -> bool, console: Decl -> bool,
    forwards: Decl -> bool // an app with a port, served by the front door too
  )
  {
    /** A block's name in the zone, when it has one. */
    function Domain(d: Decl): Option<string> {
      if names && reach(d).Tcp? then Some(domain(d.name)) else None
    }

    predicate Addressed(d: Decl) {
      !reach(d).Nowhere?
    }

    /** The names the front door is asked to serve. */
    predicate Routed(d: Decl) {
      d.enabled && forwards(d) && Domain(d).Some?
    }
  }

  const LOOPBACK := "127.0.0.1"

  /** How one live add goes where the program asks the machine: the address the allocator
      gives, whether the listeners open, whether 127.0.0.1 is free for it too, the names
      other programs hold, and whether the boot comes through. */
  datatype World = World(address: Option<string>, listening: bool, localFree: bool, taken: set<string>, booted: bool)

  datatype AddResult = Added | NameTaken | NoPort | NoAddress | NotListening | NotBooted

  datatype Held = Held(
    running: set<string>,          // the listeners, by instance
    binds: map<string, Bind>,      // their addresses
    routes: set<string>,           // the names of their other listeners
    consoles: set<string>,
    nameOnly: set<string>,
    resources: set<string>,
    resolved: map<string, string>, // the published names, and their addresses
    leases: set<string>,           // the names whose leases are kept for release
    claimed: set<string>,          // the names the shared registry has for this process
    doors: set<string>,            // those of them the front door serves
    manifest: set<string>          // the instances endpoints.yaml lists
  )

  const NOTHING := Held({}, map[], {}, {}, {}, {}, map[], {}, {}, {}, {})

  // The steps, as functions of what is held.

  function Released(h: Held, hosts: set<string>): Held {
    h.(claimed := h.claimed - hosts, doors := h.doors - hosts)
  }

  /** Claims every published name anew, and releases what is published no more. */
  function Republished(site: Site, h: Held, taken: set<string>): Held {
    if !site.names then h
    else
      var live := h.resolved.Keys - taken;
      Released(h.(claimed := h.claimed + live), h.leases - live).(leases := live)
  }

  ghost function Doors(site: Site, decls: seq<Decl>, claimed: set<string>): set<string> {
    set d | d in decls && site.Routed(d) && site.Domain(d).value in claimed :: site.Domain(d).value
  }

  ghost function Listed(site: Site, decls: seq<Decl>): set<string> {
    set d | d in decls && site.Addressed(d) :: d.name
  }

  /** Writes the manifest anew, and asks the front door for the routes. */
  ghost function Written(site: Site, h: Held, decls: seq<Decl>): Held {
    h.(manifest := Listed(site, decls), doors := h.doors + Doors(site, decls, h.claimed))
  }

  function ClaimedFor(site: Site, h: Held, decl: Decl): Held {
    if site.own then h.(claimed := h.claimed + {site.domain(decl.name)}) else h
  }

  function AddressOf(site: Site, decl: Decl, w: World): string {
    if site.fronted(decl) && site.own && w.address.Some? then w.address.value else LOOPBACK
  }

  function BindOf(site: Site, decl: Decl, w: World): Bind {
    Bind(AddressOf(site, decl, w), site.port(decl))
  }

  /** Apps, services and tasks run on one engine, which also asks for 127.0.0.1. */
  function Listening(site: Site, h: Held, decl: Decl, w: World): Held {
    var name, ip := decl.name, AddressOf(site, decl, w);
    h.(running := h.running + {name}, routes := h.routes + {name}, binds := h.binds[name := BindOf(site, decl, w)],
       nameOnly := if decl.kind.Module? || ip == LOOPBACK then h.nameOnly
                   else if w.localFree then h.nameOnly - {name} else h.nameOnly + {name},
       consoles := if site.console(decl) then h.consoles + {name} else h.consoles - {name})
  }

  /** Everything an add does before the boot. */
  ghost function Wired(site: Site, h: Held, decls: seq<Decl>, decl: Decl, w: World): Held {
    var h1 := if site.fronted(decl) then Listening(site, ClaimedFor(site, h, decl), decl, w) else h;
    Written(site, Named(site, h1, decl, w), decls + [decl])
  }

  function Named(site: Site, h: Held, decl: Decl, w: World): Held {
    match site.Domain(decl)
    case Some(domain) => Republished(site, h.(resolved := h.resolved[domain := AddressOf(site, decl, w)]), w.taken)
    case None => h
  }

  /** What a failed boot takes back. */
  function Unnamed(site: Site, h: Held, decl: Decl, taken: set<string>): Held {
    match site.Domain(decl)
    case Some(domain) => Republished(site, h.(resolved := h.resolved - {domain}), taken)
    case None => h
  }

  /** What stops an add under a new name, first thing first. */
  function Verdict(site: Site, decl: Decl, w: World): AddResult {
    if site.fronted(decl) && !site.Addressed(decl) then NoPort
    else if site.fronted(decl) && (!site.reach(decl).Tcp? || (site.own && w.address.None?)) then NoAddress
    else if site.fronted(decl) && !w.listening then NotListening
    else if site.supervised(decl) && decl.enabled && !w.booted then NotBooted
    else Added
  }

  ghost function AfterAdd(site: Site, h: Held, decls: seq<Decl>, decl: Decl, w: World): Held {
    match Verdict(site, decl, w)
    case Added => Wired(site, h, decls, decl, w)
    case NotBooted => Unnamed(site, Wired(site, h, decls, decl, w), decl, w.taken)
    case NotListening => ClaimedFor(site, h, decl)
    case _ => h
  }

  ghost function AfterRemove(site: Site, h: Held, decls: seq<Decl>, decl: Decl, taken: set<string>): Held {
    var name := decl.name;
    var h1 := h.(running := h.running - {name}, routes := h.routes - {name},
                 resolved := if site.Domain(decl).Some? then h.resolved - {site.Domain(decl).value} else h.resolved);
    var h2 := Republished(site, h1, taken);
    Written(site,
      h2.(binds := h2.binds - {name}, nameOnly := h2.nameOnly - {name}, consoles := h2.consoles - {name},
          resources := h2.resources - {name}),
      Without(decls, name))
  }

  class Daemon {
    const cfg: Config
    const site: Site
    var held: Held

    constructor (cfg: Config, site: Site)
      ensures this.cfg == cfg && this.site == site
      ensures held == NOTHING
    {
      this.cfg, this.site, held := cfg, site, NOTHING;
    }

    /** Wires one isolated block into the running stack. */
    method AddInstance(decl: Decl, w: World) returns (r: AddResult)
      requires cfg.Exact()
      modifies this, cfg
      ensures cfg.Exact()
      ensures r == if decl.name in old(cfg.index) then NameTaken else Verdict(site, decl, w)
      ensures cfg.index == Apply(site, old(cfg.index), Add(decl, w))
      ensures cfg.instances[..] == old(cfg.instances[..]) + if r.Added? then [decl] else []
      ensures held == if r.NameTaken? then old(held) else AfterAdd(site, old(held), old(cfg.instances[..]), decl, w)
      ensures Topology(held, cfg.instances[..]) == Step(site, Topology(old(held), old(cfg.instances[..])), Add(decl, w))
    {
      ghost var decls, index := cfg.instances[..], cfg.index;
      NameMapIsByName(decls, index);
      var taken := cfg.Lookup(decl.name);
      if taken.Some? {
        return NameTaken;
      }
      cfg.Add(decl);
      r := Wire(decl, w, decls);
      if !r.Added? {
        Forget(decl, decls, index);
      }
    }

    /** Takes a block just added back out of the configuration. */
    method Forget(decl: Decl, ghost decls: seq<Decl>, ghost index: map<string, Decl>)
      requires NameMap(decls, index) && decl.name !in index
      requires cfg.instances[..] == decls + [decl] && cfg.index == index[decl.name := decl]
      modifies cfg
      ensures cfg.instances[..] == decls && cfg.index == index
    {
      RemoveUndoesAdd(decls, index, decl);
      var _ := cfg.Remove(decl.name);
    }

    /** The listeners, the published name, the manifest and the boot of an instance just
        declared; a boot that fails takes back the name. */
    method Wire(decl: Decl, w: World, ghost decls: seq<Decl>) returns (r: AddResult)
      requires cfg.instances[..] == decls + [decl]
      modifies this
      ensures r == Verdict(site, decl, w)
      ensures held == AfterAdd(site, old(held), decls, decl, w)
    {
      if site.fronted(decl) {
        if !site.Addressed(decl) {
          return NoPort;
        }
        if !site.reach(decl).Tcp? || (site.own && w.address.None?) {
          return NoAddress;
        }
        held := ClaimedFor(site, held, decl);
        if !w.listening {
          return NotListening;
        }
        held := Listening(site, held, decl, w);
      }
      Publish(decl, w);
      WriteManifest();
      if site.supervised(decl) && decl.enabled && !w.booted {
        Unpublish(decl, w.taken);
        return NotBooted;
      }
      return Added;
    }

    method Publish(decl: Decl, w: World)
      modifies this
      ensures held == Named(site, old(held), decl, w)
    {
      var domain := site.Domain(decl);
      if domain.Some? {
        held := held.(resolved := held.resolved[domain.value := AddressOf(site, decl, w)]);
        RepublishDomains(w.taken);
      }
    }

    method Unpublish(decl: Decl, taken: set<string>)
      modifies this
      ensures held == Unnamed(site, old(held), decl, taken)
    {
      var domain := site.Domain(decl);
      if domain.Some? {
        held := held.(resolved := held.resolved - {domain.value});
        RepublishDomains(taken);
      }
    }

    method RepublishDomains(taken: set<string>)
      modifies this
      ensures held == Republished(site, old(held), taken)
    {
      if !site.names {
        return;
      }
      var live := ClaimAll(taken);
      ReleaseOthers(live);
      held := held.(leases := live);
    }

    /** Claims each published name no other program holds, in any order. */
    method ClaimAll(taken: set<string>) returns (live: set<string>)
      modifies this
      ensures live == held.resolved.Keys - taken
      ensures held == old(held).(claimed := old(held).claimed + live)
    {
      live := {};
      var left := held.resolved.Keys;
      while left != {}
        invariant left <= held.resolved.Keys && live == held.resolved.Keys - left - taken
        invariant held == old(held).(claimed := old(held).claimed + live)
        decreases left
      {
        var host :| host in left;
        left := left - {host};
        if host !in taken {
          held := held.(claimed := held.claimed + {host});
          live := live + {host};
        }
      }
    }

    /** Releases every lease kept from before that is not live. */
    method ReleaseOthers(live: set<string>)
      modifies this
      ensures held == Released(old(held), old(held).leases - live)
    {
      var left := held.leases;
      while left != {}
        invariant left <= old(held).leases && held == Released(old(held), old(held).leases - left - live)
        decreases left
      {
        var host :| host in left;
        left := left - {host};
        if host !in live {
          held := Released(held, {host});
        }
      }
    }

    method WriteManifest()
      modifies this
      ensures held == Written(site, old(held), cfg.instances[..])
    {
      var listed, doors := {}, held.doors;
      for i := 0 to cfg.instances.Length
        invariant held == old(held)
        invariant listed == Listed(site, cfg.instances[..i])
        invariant doors == held.doors + Doors(site, cfg.instances[..i], held.claimed)
      {
        var d := cfg.instances[i];
        assert cfg.instances[..i + 1] == cfg.instances[..i] + [d];
        if site.Addressed(d) {
          listed := listed + {d.name};
        }
        if site.Routed(d) && site.Domain(d).value in held.claimed {
          doors := doors + {site.Domain(d).value};
        }
      }
      assert cfg.instances[..cfg.instances.Length] == cfg.instances[..];
      held := held.(manifest := listed, doors := doors);
    }

    /** Tears an instance out of the running stack; false when nothing is called that. */
    method RemoveInstance(name: string, taken: set<string>) returns (found: bool)
      requires cfg.Exact()
      modifies this, cfg
      ensures cfg.Exact()
      ensures found <==> name in old(cfg.index)
      ensures cfg.index == Apply(site, old(cfg.index), Remove(name, taken))
      ensures cfg.instances[..] == Without(old(cfg.instances[..]), name)
      ensures found ==> held == AfterRemove(site, old(held), old(cfg.instances[..]), old(cfg.index)[name], taken)
      ensures !found ==> held == old(held)
      ensures Topology(held, cfg.instances[..]) ==
              Step(site, Topology(old(held), old(cfg.instances[..])), Remove(name, taken))
    {
      NameMapIsByName(cfg.instances[..], cfg.index);
      if name !in cfg.index {
        NothingCalled(cfg.instances[..], cfg.index, name);
        return false;
      }
      var domain := site.Domain(cfg.index[name]);
      held := held.(running := held.running - {name}, routes := held.routes - {name});
      if domain.Some? {
        held := held.(resolved := held.resolved - {domain.value});
      }
      RepublishDomains(taken);
      held := held.(binds := held.binds - {name}, nameOnly := held.nameOnly - {name},
        consoles := held.consoles - {name}, resources := held.resources - {name});
      found := cfg.Remove(name);
      WriteManifest();
    }
  }

  // What is held agrees with the configuration, until an add fails.

  /** What the registry, the front door and the manifest say is what the configuration
      says, and every name claimed is leased. */
  ghost predicate Synced(site: Site, h: Held, decls: seq<Decl>) {
    && h.claimed == h.leases
    && h.doors == Doors(site, decls, h.claimed)
    && h.manifest == Listed(site, decls)
  }

  /** An address is granted only for a name no other program holds. */
  ghost predicate Fits(site: Site, decl: Decl, w: World) {
    site.own ==> site.names && (w.address.Some? ==> site.domain(decl.name) !in w.taken)
  }

  /** Writing makes the doors and the manifest those of the configuration, when no door is
      left of a name that is claimed no more or a block that is no more. */
  lemma WrittenIsSynced(site: Site, h: Held, decls: seq<Decl>)
    requires h.claimed == h.leases && h.doors <= Doors(site, decls, h.claimed)
    ensures Synced(site, Written(site, h, decls), decls)
  {
  }

  lemma NamedIsLeased(site: Site, h: Held, decl: Decl, w: World)
    requires Fits(site, decl, w)
    requires h.claimed == h.leases + (if site.fronted(decl) && site.own then {site.domain(decl.name)} else {})
    requires site.fronted(decl) && site.own ==> site.reach(decl).Tcp? && w.address.Some?
    ensures Named(site, h, decl, w).claimed == Named(site, h, decl, w).leases
  {
  }

  /** An add that comes through keeps everything in step. */
  lemma AddKeepsSynced(site: Site, h: Held, decls: seq<Decl>, decl: Decl, w: World)
    requires Synced(site, h, decls) && Fits(site, decl, w) && Verdict(site, decl, w).Added?
    ensures Synced(site, AfterAdd(site, h, decls, decl, w), decls + [decl])
  {
    var h1 := if site.fronted(decl) then Listening(site, ClaimedFor(site, h, decl), decl, w) else h;
    var h2 := Named(site, h1, decl, w);
    NamedIsLeased(site, h1, decl, w);
    assert h2.doors <= Doors(site, decls + [decl], h2.claimed) by {
      NamedKeepsDoors(site, h1, decls, decl, w);
    }
    WrittenIsSynced(site, h2, decls + [decl]);
  }

  lemma NamedKeepsDoors(site: Site, h: Held, decls: seq<Decl>, decl: Decl, w: World)
    requires h.doors <= Doors(site, decls, h.leases)
    requires h.leases <= h.claimed
    ensures Named(site, h, decl, w).doors <= Doors(site, decls + [decl], Named(site, h, decl, w).claimed)
  {
  }

  /** So does every remove. */
  lemma RemoveKeepsSynced(site: Site, h: Held, decls: seq<Decl>, decl: Decl, taken: set<string>)
    requires Synced(site, h, decls) && decl in decls
    requires forall d | d in decls && d.name == decl.name :: d == decl
    ensures Synced(site, AfterRemove(site, h, decls, decl, taken), Without(decls, decl.name))
  {
    WithoutIsFilter(decls, decl.name);
  }

  /** A failed add is not always undone. In a daemon that is in step with its configuration,
      it leaves what is held as it was if and only if it was stopped before the listener, or
      at the listener without an address claimed for it, or at the boot of a block that
      clients do not reach. */
  lemma FailedAddIsUndoneIff(site: Site, h: Held, decls: seq<Decl>, decl: Decl, w: World)
    requires Synced(site, h, decls) && decl.name !in Names(decls)
    ensures var r := Verdict(site, decl, w);
            !r.Added? ==>
              (AfterAdd(site, h, decls, decl, w) == h <==>
               && (r.NotListening? && site.own ==> site.domain(decl.name) in h.claimed)
               && (r.NotBooted? ==> !site.Addressed(decl)))
  {
    var after := AfterAdd(site, h, decls, decl, w);
    match Verdict(site, decl, w)
    case NotBooted =>
      if site.Addressed(decl) {
        FailedBootLeaves(site, h, decls, decl, w);
        NotListedBefore(site, decls, decl);
      } else {
        SilentBootLeavesNothing(site, h, decls, decl, w);
      }
    case _ =>
  }

  lemma NotListedBefore(site: Site, decls: seq<Decl>, decl: Decl)
    requires decl.name !in Names(decls)
    ensures decl.name !in Listed(site, decls)
  {
    forall i | 0 <= i < |decls| ensures decls[i].name != decl.name {
      assert Names(decls)[i] == decls[i].name;
    }
  }

  lemma SilentBootLeavesNothing(site: Site, h: Held, decls: seq<Decl>, decl: Decl, w: World)
    requires Synced(site, h, decls) && Verdict(site, decl, w).NotBooted? && !site.Addressed(decl)
    ensures AfterAdd(site, h, decls, decl, w) == h
  {
    assert Listed(site, decls + [decl]) == Listed(site, decls);
    assert Doors(site, decls + [decl], h.claimed) == Doors(site, decls, h.claimed);
  }

  /** A boot that fails leaves the instance in the manifest when it has an address; and, when
      doze fronts it, its listener, its address and its routes. */
  lemma FailedBootLeaves(site: Site, h: Held, decls: seq<Decl>, decl: Decl, w: World)
    requires Verdict(site, decl, w).NotBooted? && site.Addressed(decl)
    ensures var after := AfterAdd(site, h, decls, decl, w);
            && decl.name in after.manifest
            && (site.fronted(decl) ==>
                decl.name in after.running && decl.name in after.binds && decl.name in after.routes)
  {
    var wired := Wired(site, h, decls, decl, w);
    assert decl in decls + [decl];
    assert decl.name in wired.manifest;
  }

  /** Two such adds to a daemon that holds nothing: a direct app whose boot fails, with names
      off; and a module whose listener fails, with an address for each. */
  lemma FailedAddsThatLeaveSomething()
    ensures var direct := Site(false, false, n => n, d => Tcp, d => "80", d => false, d => true, d => false, d =>
        false);
            var web := Decl(App, "web", true, [], [], []);
            var w := World(None, true, true, {}, false);
            Verdict(direct, web, w).NotBooted? && "web" in AfterAdd(direct, NOTHING, [], web, w).manifest
    ensures var own := Site(true, true, n => n, d => Tcp, d => "80", d => true, d => false, d => false, d => false);
            var db := Decl(Module, "db", true, [], [], []);
            var w := World(Some("127.0.0.2"), false, true, {}, true);
            Verdict(own, db, w).NotListening? && "db" in AfterAdd(own, NOTHING, [], db, w).claimed
  {
    var direct := Site(false, false, n => n, d => Tcp, d => "80", d => false, d => true, d => false, d => false);
    FailedBootLeaves(direct, NOTHING, [], Decl(App, "web", true, [], [], []), World(None, true, true, {}, false));
  }

  ghost predicate HoldsNothing(h: Held, name: string) {
    && name !in h.running && name !in h.binds && name !in h.routes
    && name !in h.consoles && name !in h.nameOnly && name !in h.resources
  }

  /** Removing what was added gives the daemon back as it was, when it was in step and its
      names published. */
  lemma RemoveUndoesLiveAdd(site: Site, h: Held, decls: seq<Decl>, decl: Decl, w: World)
    requires Synced(site, h, decls) && Fits(site, decl, w) && Verdict(site, decl, w).Added?
    requires site.names ==> h.leases == h.resolved.Keys - w.taken
    requires decl.name !in Names(decls) && HoldsNothing(h, decl.name)
    requires site.Domain(decl).Some? ==> site.Domain(decl).value !in h.resolved
    ensures AfterRemove(site, AfterAdd(site, h, decls, decl, w), decls + [decl], decl, w.taken) == h
  {
    var added := AfterAdd(site, h, decls, decl, w);
    var back := AfterRemove(site, added, decls + [decl], decl, w.taken);
    AddKeepsSynced(site, h, decls, decl, w);
    NamesAreNew(decls, decl);
    RemoveKeepsSynced(site, added, decls + [decl], decl, w.taken);
    RemoveUndoesOwn(site, h, decls, decl, w);
    RemoveUndoesNames(site, h, decls, decl, w);
  }

  lemma RemoveUndoesOwn(site: Site, h: Held, decls: seq<Decl>, decl: Decl, w: World)
    requires Verdict(site, decl, w).Added? && HoldsNothing(h, decl.name)
    ensures var back := AfterRemove(site, AfterAdd(site, h, decls, decl, w), decls + [decl], decl, w.taken);
            && back.running == h.running && back.binds == h.binds && back.routes == h.routes
            && back.consoles == h.consoles && back.nameOnly == h.nameOnly && back.resources == h.resources
  {
    var added, name := AfterAdd(site, h, decls, decl, w), decl.name;
    assert added.running - {name} == h.running && added.binds - {name} == h.binds && added.routes - {name} == h.routes;
    assert added.consoles - {name} == h.consoles && added.nameOnly - {name} == h.nameOnly;
  }

  lemma RemoveUndoesNames(site: Site, h: Held, decls: seq<Decl>, decl: Decl, w: World)
    requires Verdict(site, decl, w).Added? && (site.names ==> h.leases == h.resolved.Keys - w.taken)
    requires site.Domain(decl).Some? ==> site.Domain(decl).value !in h.resolved
    ensures var back := AfterRemove(site, AfterAdd(site, h, decls, decl, w), decls + [decl], decl, w.taken);
            back.resolved == h.resolved && back.leases == h.leases
  {
    var added := AfterAdd(site, h, decls, decl, w);
    if site.Domain(decl).Some? {
      assert added.resolved - {site.Domain(decl).value} == h.resolved;
    }
  }

  lemma NamesAreNew(decls: seq<Decl>, decl: Decl)
    requires decl.name !in Names(decls)
    ensures Without(decls + [decl], decl.name) == decls
    ensures forall d | d in decls + [decl] && d.name == decl.name :: d == decl
  {
    forall i | 0 <= i < |decls| ensures decls[i].name != decl.name {
      assert Names(decls)[i] == decls[i].name;
    }
    assert (decls + [decl])[..|decls|] == decls;
    NothingToDrop(decls, decl.name);
  }

  // What any run of live adds and removes keeps.

  datatype Op = Add(decl: Decl, w: World) | Remove(name: string, taken: set<string>)

  /** What one add or remove makes of the index, whether or not the add comes through. */
  function Apply(site: Site, index: map<string, Decl>, op: Op): map<string, Decl> {
    match op
    case Add(d, w) => if d.name in index || !Verdict(site, d, w).Added? then index else index[d.name := d]
    case Remove(n, _) => index - {n}
  }

  function Run(site: Site, index: map<string, Decl>, ops: seq<Op>): map<string, Decl>
    decreases |ops|
  {
    if ops == [] then index else Run(site, Apply(site, index, ops[0]), ops[1..])
  }

  /** What a daemon is: what it holds, and what it has declared. */
  datatype Topology = Topology(held: Held, decls: seq<Decl>)

  /** What one add or remove makes of all of it. */
  ghost function Step(site: Site, t: Topology, op: Op): Topology {
    match op
    case Add(d, w) =>
      if d.name in ByName(t.decls) then t
      else Topology(AfterAdd(site, t.held, t.decls, d, w), if Verdict(site, d, w).Added? then t.decls + [d]
          else t.decls)
    case Remove(n, taken) =>
      if n !in ByName(t.decls) then t
      else Topology(AfterRemove(site, t.held, t.decls, ByName(t.decls)[n], taken), Without(t.decls, n))
  }

  lemma NameMapIsByName(decls: seq<Decl>, index: map<string, Decl>)
    requires NameMap(decls, index)
    ensures index == ByName(decls)
  {
    forall i, j | 0 <= i < j < |decls| ensures Names(decls)[i] != Names(decls)[j] {
      assert decls[i].name != decls[j].name;
    }
    ByNameIsNameMap(decls);
  }

  /** A block decoded alone: its dependencies are derived from mentions of nothing but
      itself, the one name declared where it was read. */
  ghost predicate DecodedAlone(d: Decl) {
    exists names, conds | forall i | 0 <= i < |names| :: names[i] == d.name ::
      d.deps == Edges.Dependencies(d.name, names, conds)
  }

  ghost predicate Isolated(ops: seq<Op>) {
    forall op | op in ops :: op.Add? ==> DecodedAlone(op.decl)
  }

  lemma DecodedAloneDependsOnNothing(d: Decl)
    requires DecodedAlone(d)
    ensures d.deps == []
  {
    var names, conds :| (forall i | 0 <= i < |names| :: names[i] == d.name)
        && d.deps == Edges.Dependencies(d.name, names, conds);
    Edges.IsolatedBlockHasNoDependencies(d.name, names, conds);
  }

  /** Whatever is added live and removed, the dependency graph only loses edges. */
  lemma {:induction false} LiveRunAddsNoEdge(site: Site, index: map<string, Decl>, ops: seq<Op>, a: string, b: string)
    requires Isolated(ops) && Edge(DepsGraph(Run(site, index, ops)), a, b)
    ensures Edge(DepsGraph(index), a, b)
    decreases |ops|
  {
    if ops != [] {
      assert ops[0] in ops;
      if ops[0].Add? {
        DecodedAloneDependsOnNothing(ops[0].decl);
      }
      LiveRunAddsNoEdge(site, Apply(site, index, ops[0]), ops[1..], a, b);
    }
  }

  /** So an acyclic stack stays acyclic, and goes on booting dependencies first, over any
      run of live adds and removes and for any targets. */
  lemma LiveStackBootsDependenciesFirst(site: Site, index: map<string, Decl>, ops: seq<Op>, targets: seq<string>)
    requires Acyclic(DepsGraph(index)) && Isolated(ops)
    ensures Acyclic(DepsGraph(Run(site, index, ops)))
    ensures DependenciesFirst(DepsGraph(Run(site, index, ops)),
        BootClosure.Closure(DepsGraph(Run(site, index, ops)), targets))
  {
    var now := DepsGraph(Run(site, index, ops));
    forall a, b | Edge(now, a, b) ensures Edge(DepsGraph(index), a, b) {
      LiveRunAddsNoEdge(site, index, ops, a, b);
    }
    SubgraphAcyclic(now, DepsGraph(index));
    BootClosure.ClosureOrdersIffOffCycles(now, targets);
  }
}
