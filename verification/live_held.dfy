/** What a live add or remove does to what the daemon holds: everything for the block it is
    about, and nothing for any other. */
module LiveHeld {
  import opened Stack
  import opened Live

  /** What is held under one instance's name. */
  datatype Own = Own(listens: bool, bind: Option<Bind>, routed: bool, console: bool, nameOnly: bool, resource: bool)

  function OwnOf(h: Held, name: string): Own {
    Own(name in h.running, if name in h.binds then Some(h.binds[name]) else None, name in h.routes,
      name in h.consoles, name in h.nameOnly, name in h.resources)
  }

  /** What is held for an instance that doze listens for: at an address of its own where
      each has one, at the loopback address otherwise; an app with an address of its own is
      reachable by name only when the loopback address is not free at its port. */
  ghost predicate ListensFor(site: Site, h: Held, decl: Decl, w: World, own: Own) {
    var apart := site.own && w.address.Some? && w.address.value != LOOPBACK;
    && own.listens && own.routed && own.console == site.console(decl)
    && own.bind == Some(Bind(if site.own && w.address.Some? then w.address.value else LOOPBACK, site.port(decl)))
    && (!decl.kind.Module? && apart ==> own.nameOnly == !w.localFree)
    && (decl.kind.Module? || !apart ==> own.nameOnly == (decl.name in h.nameOnly))
    && own.resource == (decl.name in h.resources)
  }

  lemma NamedKeepsOwn(site: Site, h: Held, decl: Decl, w: World, name: string)
    ensures OwnOf(Named(site, h, decl, w), name) == OwnOf(h, name)
    ensures OwnOf(Unnamed(site, h, decl, w.taken), name) == OwnOf(h, name)
  {
  }

  /** An add that comes through holds a listener, its address, routes and console for a block
      that doze fronts, and nothing for one that it does not; a boot that fails leaves as
      much; an add stopped before that holds nothing. */
  lemma AddedOwn(site: Site, h: Held, decls: seq<Decl>, decl: Decl, w: World)
    ensures var own, r := OwnOf(AfterAdd(site, h, decls, decl, w), decl.name), Verdict(site, decl, w);
            if (r.Added? || r.NotBooted?) && site.fronted(decl) then ListensFor(site, h, decl, w, own)
            else own == OwnOf(h, decl.name)
  {
    var h1 := if site.fronted(decl) then Listening(site, ClaimedFor(site, h, decl), decl, w) else h;
    NamedKeepsOwn(site, h1, decl, w, decl.name);
    NamedKeepsOwn(site, Wired(site, h, decls, decl, w), decl, w, decl.name);
  }

  /** A remove holds nothing of it any more. */
  lemma RemovedOwn(site: Site, h: Held, decls: seq<Decl>, decl: Decl, taken: set<string>)
    ensures OwnOf(AfterRemove(site, h, decls, decl, taken), decl.name) == Own(false, None, false, false, false, false)
  {
  }

  lemma ListeningKeepsOthers(site: Site, h: Held, decl: Decl, w: World, name: string)
    requires name != decl.name
    ensures OwnOf(Listening(site, ClaimedFor(site, h, decl), decl, w), name) == OwnOf(h, name)
  {
  }

  lemma WiredKeepsOthers(site: Site, h: Held, decls: seq<Decl>, decl: Decl, w: World, name: string)
    requires name != decl.name
    ensures OwnOf(Wired(site, h, decls, decl, w), name) == OwnOf(h, name)
  {
    var h1 := if site.fronted(decl) then Listening(site, ClaimedFor(site, h, decl), decl, w) else h;
    ListeningKeepsOthers(site, h, decl, w, name);
    NamedKeepsOwn(site, h1, decl, w, name);
  }

  lemma AddKeepsOthers(site: Site, h: Held, decls: seq<Decl>, decl: Decl, w: World, name: string)
    requires name != decl.name
    ensures OwnOf(AfterAdd(site, h, decls, decl, w), name) == OwnOf(h, name)
  {
    WiredKeepsOthers(site, h, decls, decl, w, name);
    NamedKeepsOwn(site, Wired(site, h, decls, decl, w), decl, w, name);
  }

  lemma RemoveKeepsOthers(site: Site, h: Held, decls: seq<Decl>, decl: Decl, taken: set<string>, name: string)
    requires name != decl.name
    ensures OwnOf(AfterRemove(site, h, decls, decl, taken), name) == OwnOf(h, name)
  {
  }

  /** Neither an add nor a remove touches what is held for any other instance, whatever
      comes of it. */
  lemma OthersAreUntouched(site: Site, h: Held, decls: seq<Decl>, decl: Decl, w: World, name: string)
    requires name != decl.name
    ensures OwnOf(AfterAdd(site, h, decls, decl, w), name) == OwnOf(h, name)
    ensures OwnOf(AfterRemove(site, h, decls, decl, w.taken), name) == OwnOf(h, name)
  {
    AddKeepsOthers(site, h, decls, decl, w, name);
    RemoveKeepsOthers(site, h, decls, decl, w.taken, name);
  }

  // What stops an add.

  /** An add is stopped at the first of these: a block doze fronts without a port for its
      clients, or with no address to be had for it; a listener that does not open; a boot
      that fails. A block it does not front is stopped only by its boot. */
  lemma WhatStopsAnAdd(site: Site, decl: Decl, w: World)
    ensures var r, fronted, reach := Verdict(site, decl, w), site.fronted(decl), site.reach(decl);
            && r != NameTaken
            && (r == NoPort <==> fronted && reach == Nowhere)
            && (r == NoAddress <==> fronted && (reach == Socket || (reach == Tcp && site.own && w.address == None)))
            && (r == NotListening <==> fronted && reach == Tcp && (site.own ==> w.address != None) && !w.listening)
            && (r == NotBooted ==> site.supervised(decl) && decl.enabled && !w.booted)
            && (r == Added ==> !(site.supervised(decl) && decl.enabled) || w.booted)
  {
  }

  // What a daemon in step says.

  /** An enabled app that asks the front door for this name of the zone. */
  ghost predicate Asks(site: Site, d: Decl, name: string) {
    d.enabled && site.forwards(d) && site.names && site.reach(d) == Tcp && site.domain(d.name) == name
  }

  /** In step, the manifest lists exactly the instances clients reach at a port or a socket;
      and the front door serves exactly the claimed names that enabled apps ask it for. */
  lemma SyncedMeans(site: Site, h: Held, decls: seq<Decl>, name: string)
    requires Synced(site, h, decls)
    ensures name in h.manifest <==> exists d :: d in decls && d.name == name && site.reach(d) != Nowhere
    ensures name in h.doors <==> name in h.claimed && exists d :: d in decls && Asks(site, d, name)
  {
    if d :| d in decls && site.Routed(d) && site.Domain(d).value in h.claimed && site.Domain(d).value == name {
      assert Asks(site, d, name);
    }
    if d :| d in decls && Asks(site, d, name) && name in h.claimed {
      assert site.Routed(d) && site.Domain(d).value in h.claimed;
    }
    if d :| d in decls && d.name == name && site.reach(d) != Nowhere {
      assert site.Addressed(d);
    }
  }
}
