/** The addresses a daemon assigns for one run, in its three modes, and why no two
    instances get the same one. */
module BindPlan {
  import opened Stack
  import opened Placement

  datatype Endpoint = Endpoint(name: string, address: Address, domain: Option<string>)

  /** Names off; names on with every service on one loopback address; names on with an
      address for each. */
  datatype Mode = Off | Shared | Own

  datatype Plan = Plan(bind: map<string, Address>, resolve: map<string, string>, loopback: bool)

  datatype Planned = Planned(plan: Plan) | NoAddress(host: string) | PortTaken(first: string, second: string,
      port: string)

  /** The config a plan is made for, the zone its blocks publish their names in, and what the machine's
      allocator answers for a host: its address, or a refusal. */
  datatype Setting = Setting(blocks: map<string, Block>, names: bool, pool: bool, zone: Zone,
      claim: string -> Option<string>)
  {
    function Mode(): Mode {
      if !names then Off else if pool then Own else Shared
    }

    predicate Places(ep: Endpoint) {
      ep.address.Tcp? && ep.name in blocks && blocks[ep.name].enabled && blocks[ep.name].fronted
    }

    predicate Direct(ep: Endpoint) {
      ep.address.Tcp? && ep.name in blocks && blocks[ep.name].enabled && !blocks[ep.name].fronted
    }

    function Ip(name: string): Option<string> {
      if Mode().Own? then claim(zone.Domain(name)) else Some(LOOPBACK)
    }

    /** Every port of an instance, its main one and its other listeners'. */
    function Ports(ep: Endpoint): set<string> {
      (if ep.address.Tcp? then {ep.address.port} else {}) + if ep.name in blocks then blocks[ep.name].extras else {}
    }
  }

  ghost predicate OneEach(eps: seq<Endpoint>) {
    forall i, j | 0 <= i < j < |eps| :: eps[i].name != eps[j].name
  }

  ghost predicate PortsApart(c: Setting, eps: seq<Endpoint>, k: nat)
    requires k <= |eps|
  {
    forall i, j | 0 <= i < j < k :: Apart(c, eps[i], eps[j])
  }

  /** If both are placed, no port of one is a port of the other. */
  predicate Apart(c: Setting, a: Endpoint, b: Endpoint) {
    c.Places(a) && c.Places(b) ==> c.Ports(a) !! c.Ports(b)
  }

  ghost predicate AddressesFound(c: Setting, eps: seq<Endpoint>, k: nat)
    requires k <= |eps|
  {
    forall i | 0 <= i < k && c.Places(eps[i]) :: c.Ip(eps[i].name).Some?
  }

  /** Exactly the placed instances are bound, each on its own port at its address. */
  ghost predicate Binds(c: Setting, eps: seq<Endpoint>, k: nat, bind: map<string, Address>)
    requires k <= |eps|
  {
    && (forall n | n in bind :: exists i :: 0 <= i < k && c.Places(eps[i]) && eps[i].name == n)
    && (forall i | 0 <= i < k && c.Places(eps[i]) ::
          && c.Ip(eps[i].name).Some? && eps[i].name in bind
          && bind[eps[i].name] == Tcp(c.Ip(eps[i].name).value, eps[i].address.port))
  }

  /** What each published name resolves to; a later instance of the same name wins. */
  function Resolved(c: Setting, eps: seq<Endpoint>, k: nat): map<string, string>
    requires k <= |eps|
  {
    if k == 0 then map[]
    else
      var ep, rest := eps[k - 1], Resolved(c, eps, k - 1);
      if ep.domain.None? then rest
      else if c.Direct(ep) then rest[ep.domain.value := LOOPBACK]
      else if c.Places(ep) && c.Ip(ep.name).Some? then rest[ep.domain.value := c.Ip(ep.name).value]
      else rest
  }

  /** Two placed instances use the port, the first and the second of them. */
  ghost predicate ReallyTaken(c: Setting, eps: seq<Endpoint>, first: string, second: string, port: string) {
    exists i, j :: 0 <= i < j < |eps| && Uses(c, eps[i], port, first) && Uses(c, eps[j], port, second)
  }

  ghost predicate Uses(c: Setting, ep: Endpoint, port: string, name: string) {
    c.Places(ep) && port in c.Ports(ep) && ep.name == name
  }

  /** A placed instance was refused the address for its name. */
  ghost predicate ReallyRefused(c: Setting, eps: seq<Endpoint>, host: string) {
    exists i :: 0 <= i < |eps| && c.Places(eps[i]) && c.Ip(eps[i].name).None? && host == c.zone.Domain(eps[i].name)
  }

  method BuildBindPlan(c: Setting, eps: seq<Endpoint>) returns (r: Planned)
    requires OneEach(eps)
    ensures r.Planned? <==> AddressesFound(c, eps, |eps|) && (c.Mode().Shared? ==> PortsApart(c, eps, |eps|))
    ensures r.Planned? ==> IsPlan(c, eps, r.plan)
    ensures r.NoAddress? ==> ReallyRefused(c, eps, r.host)
    ensures r.PortTaken? ==> c.Mode().Shared? && ReallyTaken(c, eps, r.first, r.second, r.port)
  {
    var bind: map<string, Address>, resolve: map<string, string> := map[], map[];
    var used: map<string, string> := map[];
    for k := 0 to |eps|
      invariant PlannedSoFar(c, eps, k, bind, resolve, used)
    {
      var refusal;
      refusal, bind, resolve, used := PlanOne(c, eps, k, bind, resolve, used);
      if refusal.Some? {
        return refusal.value;
      }
    }
    BindsFindsAll(c, eps, bind);
    r := Planned(Plan(bind, resolve, c.Mode().Own?));
  }

  /** What the first k endpoints come to. */
  ghost predicate PlannedSoFar(c: Setting, eps: seq<Endpoint>, k: nat, bind: map<string, Address>,
      resolve: map<string, string>, used: map<string, string>)
    requires k <= |eps|
  {
    Binds(c, eps, k, bind) && resolve == Resolved(c, eps, k) && PortsSoFar(c, eps, k, used)
  }

  /** No plan can be made, for the reason given. */
  ghost predicate Refuses(c: Setting, eps: seq<Endpoint>, r: Planned) {
    match r
    case NoAddress(host) => ReallyRefused(c, eps, host)
    case PortTaken(first, second, port) =>
      c.Mode().Shared? && !PortsApart(c, eps, |eps|) && ReallyTaken(c, eps, first, second, port)
    case Planned(_) => false
  }

  /** An endpoint that is not placed changes neither binds nor ports. */
  lemma NotPlaced(c: Setting, eps: seq<Endpoint>, k: nat, bind: map<string, Address>, used: map<string, string>)
    requires k < |eps| && !c.Places(eps[k])
    ensures Binds(c, eps, k, bind) ==> Binds(c, eps, k + 1, bind)
    ensures PortsSoFar(c, eps, k, used) ==> PortsSoFar(c, eps, k + 1, used)
  {
    if PortsSoFar(c, eps, k, used) && c.Mode().Shared? {
      NotPlacedUses(c, eps, k, used);
    }
  }

  lemma NotPlacedUses(c: Setting, eps: seq<Endpoint>, k: nat, used: map<string, string>)
    requires k < |eps| && !c.Places(eps[k]) && UsedUpTo(c, eps, k, used)
    ensures UsedUpTo(c, eps, k + 1, used)
  {
    forall p ensures UsedBy(c, eps, k, p) <==> UsedBy(c, eps, k + 1, p) {
    }
    forall p | p in used ensures UsedUnder(c, eps, k + 1, p, used[p]) {
      UsedStays(c, eps, k, p, used[p]);
    }
  }

  /** One endpoint's turn. */
  method PlanOne(c: Setting, eps: seq<Endpoint>, k: nat, bind: map<string, Address>, resolve: map<string, string>,
      used: map<string, string>)
    returns (refusal: Option<Planned>, bind': map<string, Address>, resolve': map<string, string>,
      used': map<string, string>)
    requires OneEach(eps) && k < |eps| && PlannedSoFar(c, eps, k, bind, resolve, used)
    ensures refusal.None? ==> PlannedSoFar(c, eps, k + 1, bind', resolve', used')
    ensures refusal.Some? ==> Refuses(c, eps, refusal.value)
  {
    refusal, bind', resolve', used' := None, bind, resolve, used;
    var ep := eps[k];
    if c.Direct(ep) {
      NotPlaced(c, eps, k, bind, used);
      if ep.domain.Some? {
        resolve' := resolve[ep.domain.value := LOOPBACK];
      }
      return;
    }
    if !c.Places(ep) {
      NotPlaced(c, eps, k, bind, used);
      return;
    }
    var ip := c.Ip(ep.name);
    if ip.None? {
      refusal := Some(NoAddress(c.zone.Domain(ep.name)));
      return;
    }
    refusal, used' := ClaimPorts(c, eps, k, used);
    if refusal.Some? {
      return;
    }
    BindsOneMore(c, eps, k, bind);
    bind' := bind[ep.name := Tcp(ip.value, ep.address.port)];
    if ep.domain.Some? {
      resolve' := resolve[ep.domain.value := ip.value];
    }
  }

  lemma BindsFindsAll(c: Setting, eps: seq<Endpoint>, bind: map<string, Address>)
    requires Binds(c, eps, |eps|, bind)
    ensures AddressesFound(c, eps, |eps|)
  {
  }

  lemma BindsOneMore(c: Setting, eps: seq<Endpoint>, k: nat, bind: map<string, Address>)
    requires OneEach(eps) && k < |eps| && Binds(c, eps, k, bind) && c.Places(eps[k]) && c.Ip(eps[k].name).Some?
    ensures Binds(c, eps, k + 1, bind[eps[k].name := Tcp(c.Ip(eps[k].name).value, eps[k].address.port)])
  {
    var bind' := bind[eps[k].name := Tcp(c.Ip(eps[k].name).value, eps[k].address.port)];
    forall n | n in bind' ensures exists i :: 0 <= i < k + 1 && c.Places(eps[i]) && eps[i].name == n {
      if n == eps[k].name { assert c.Places(eps[k]); }
    }
  }

  /** The ports in use so far, which only the one-address mode looks at. */
  ghost predicate PortsSoFar(c: Setting, eps: seq<Endpoint>, k: nat, used: map<string, string>)
    requires k <= |eps|
  {
    c.Mode().Shared? ==> PortsApart(c, eps, k) && UsedUpTo(c, eps, k, used)
  }

  method ClaimPorts(c: Setting, eps: seq<Endpoint>, k: nat, used: map<string, string>)
    returns (taken: Option<Planned>, used': map<string, string>)
    requires k < |eps| && c.Places(eps[k]) && PortsSoFar(c, eps, k, used)
    ensures taken.None? ==> PortsSoFar(c, eps, k + 1, used')
    ensures taken.Some? ==> Refuses(c, eps, taken.value)
  {
    taken, used' := None, used;
    if c.Mode().Shared? {
      var p;
      FreePortsIff(c, eps, k, used);
      p, used' := UsePorts(eps[k].name, c.Ports(eps[k]), used);
      if p.Some? {
        assert UsedUnder(c, eps, k, p.value, used[p.value]) && Uses(c, eps[k], p.value, eps[k].name);
        taken := Some(PortTaken(used[p.value], eps[k].name, p.value));
      } else {
        UsedOneMore(c, eps, k, used, used');
      }
    }
  }

  lemma UsedOneMore(c: Setting, eps: seq<Endpoint>, k: nat, used: map<string, string>, used': map<string, string>)
    requires k < |eps| && c.Places(eps[k]) && UsedUpTo(c, eps, k, used) && used'.Keys == used.Keys + c.Ports(eps[k])
    requires forall p | p in used' :: used'[p] == if p in used then used[p] else eps[k].name
    ensures UsedUpTo(c, eps, k + 1, used')
  {
    UsedPortsOneMore(c, eps, k, used, used');
    forall p | p in used' ensures UsedUnder(c, eps, k + 1, p, used'[p]) {
      if p in used {
        UsedStays(c, eps, k, p, used[p]);
      } else {
        assert Uses(c, eps[k], p, used'[p]);
      }
    }
  }

  lemma UsedPortsOneMore(c: Setting, eps: seq<Endpoint>, k: nat, used: map<string, string>,
      used': map<string, string>)
    requires k < |eps| && c.Places(eps[k]) && used'.Keys == used.Keys + c.Ports(eps[k])
    requires forall p :: p in used <==> UsedBy(c, eps, k, p)
    ensures forall p :: p in used' <==> UsedBy(c, eps, k + 1, p)
  {
    forall p ensures UsedBy(c, eps, k + 1, p) <==> UsedBy(c, eps, k, p) || p in c.Ports(eps[k]) {
    }
  }

  lemma UsedStays(c: Setting, eps: seq<Endpoint>, k: nat, p: string, name: string)
    requires k < |eps| && UsedUnder(c, eps, k, p, name)
    ensures UsedUnder(c, eps, k + 1, p, name)
  {
  }

  ghost predicate UsedUnder(c: Setting, eps: seq<Endpoint>, k: nat, p: string, name: string)
    requires k <= |eps|
  {
    exists i :: 0 <= i < k && Uses(c, eps[i], p, name)
  }

  ghost predicate UsedUpTo(c: Setting, eps: seq<Endpoint>, k: nat, used: map<string, string>)
    requires k <= |eps|
  {
    && (forall p :: p in used <==> UsedBy(c, eps, k, p))
    && forall p | p in used :: UsedUnder(c, eps, k, p, used[p])
  }

  ghost predicate UsedBy(c: Setting, eps: seq<Endpoint>, k: nat, p: string)
    requires k <= |eps|
  {
    exists i :: 0 <= i < k && c.Places(eps[i]) && p in c.Ports(eps[i])
  }

  method UsePorts(name: string, ports: set<string>, used: map<string, string>)
      returns (taken: Option<string>, used': map<string, string>)
    ensures taken.None? <==> ports !! used.Keys
    ensures taken.None? ==> used'.Keys == used.Keys + ports
    ensures forall p | p in used' :: used'[p] == if p in used then used[p] else name
    ensures taken.Some? ==> taken.value in ports && taken.value in used && taken.value in used'
  {
    used' := used;
    var left := ports;
    while left != {}
      invariant left <= ports && (ports - left) !! used.Keys && used'.Keys == used.Keys + (ports - left)
      invariant forall p | p in used' :: used'[p] == if p in used then used[p] else name
      decreases left
    {
      var p :| p in left;
      left := left - {p};
      if p in used' {
        return Some(p), used';
      }
      used' := used'[p := name];
    }
    taken := None;
  }

  lemma FreePortsIff(c: Setting, eps: seq<Endpoint>, k: nat, used: map<string, string>)
    requires k < |eps| && c.Places(eps[k]) && UsedUpTo(c, eps, k, used)
    ensures c.Ports(eps[k]) !! used.Keys <==> (forall i | 0 <= i < k :: Apart(c, eps[i], eps[k]))
    ensures c.Ports(eps[k]) !! used.Keys && PortsApart(c, eps, k) ==> PortsApart(c, eps, k + 1)
    ensures !(c.Ports(eps[k]) !! used.Keys) ==> !PortsApart(c, eps, |eps|)
  {
    if !(c.Ports(eps[k]) !! used.Keys) {
      var p :| p in c.Ports(eps[k]) && p in used;
      assert UsedBy(c, eps, k, p);
      var i :| 0 <= i < k && c.Places(eps[i]) && p in c.Ports(eps[i]);
      assert !Apart(c, eps[i], eps[k]);
    }
  }

  // What the checks at load and the plan add up to.

  /** The endpoints are the blocks', in their order: each with its block's address, and with
      its block's domain name when names are on. */
  ghost predicate Describe(c: Setting, blocks: seq<Block>, eps: seq<Endpoint>) {
    && DistinctBlocks(blocks) && OneEach(eps)
    && (forall b | b in blocks :: b.name in c.blocks && c.blocks[b.name] == b)
    && (forall n | n in c.blocks :: c.blocks[n] in blocks && c.blocks[n].name == n)
    && forall ep | ep in eps && ep.name in c.blocks ::
         && c.blocks[ep.name].Addr() == At(ep.address)
         && ep.domain == if c.names && ep.address.Tcp? then Some(c.zone.Domain(ep.name)) else None
  }

  /** The allocator gives no address to two hosts. */
  ghost predicate InjectiveOnHosts(claim: string -> Option<string>) {
    forall g, h | claim(g).Some? && claim(g) == claim(h) :: g == h
  }

  /** Everywhere an instance listens in a plan: its main port and its other listeners, all
      at the address the plan gave it. */
  function Listening(c: Setting, plan: Plan, ep: Endpoint): set<Address>
    requires ep.name in plan.bind && plan.bind[ep.name].Tcp? && ep.name in c.blocks
  {
    var host := plan.bind[ep.name].host;
    {plan.bind[ep.name]} + set e | e in c.blocks[ep.name].extras :: Tcp(host, e)
  }

  ghost predicate IsPlan(c: Setting, eps: seq<Endpoint>, plan: Plan) {
    && Binds(c, eps, |eps|, plan.bind) && plan.resolve == Resolved(c, eps, |eps|)
    && (plan.loopback <==> c.Mode().Own?)
    && (c.Mode().Shared? ==> PortsApart(c, eps, |eps|))
  }

  lemma BoundAt(c: Setting, eps: seq<Endpoint>, plan: Plan, i: nat)
    requires IsPlan(c, eps, plan) && i < |eps| && c.Places(eps[i])
    ensures c.Ip(eps[i].name).Some? && eps[i].name in plan.bind
    ensures plan.bind[eps[i].name] == Tcp(c.Ip(eps[i].name).value, eps[i].address.port)
    ensures forall a | a in Listening(c, plan, eps[i]) ::
        a.Tcp? && a.host == c.Ip(eps[i].name).value && a.port in c.Ports(eps[i])
  {
  }

  lemma ApartAtOneAddress(c: Setting, eps: seq<Endpoint>, plan: Plan, i: nat, j: nat)
    requires IsPlan(c, eps, plan) && i < |eps| && j < |eps| && c.Places(eps[i]) && c.Places(eps[j])
    requires c.Ports(eps[i]) !! c.Ports(eps[j])
    ensures eps[i].name in plan.bind && eps[j].name in plan.bind
    ensures Listening(c, plan, eps[i]) !! Listening(c, plan, eps[j])
  {
    BoundAt(c, eps, plan, i);
    BoundAt(c, eps, plan, j);
  }

  /** With an address for each, no two instances share one: their published names differ,
      because the stack passed the domain check. */
  lemma OwnAddressesDiffer(c: Setting, blocks: seq<Block>, eps: seq<Endpoint>, plan: Plan, i: nat, j: nat)
    requires Describe(c, blocks, eps) && IsPlan(c, eps, plan) && c.Mode().Own? && InjectiveOnHosts(c.claim)
    requires DomainsFine(blocks, |blocks|, c.zone)
    requires i < j < |eps| && c.Places(eps[i]) && c.Places(eps[j])
    ensures c.Ip(eps[i].name).Some? && c.Ip(eps[j].name).Some? && c.Ip(eps[i].name) != c.Ip(eps[j].name)
  {
    BoundAt(c, eps, plan, i);
    BoundAt(c, eps, plan, j);
    EnabledDomainsDiffer(c, blocks, eps, i, j);
  }

  /** Without names, two blocks placed by `port` ask for the addresses they are given, and
      the check at load let no two ask for one. */
  lemma PlacedByPortApart(c: Setting, blocks: seq<Block>, eps: seq<Endpoint>, i: nat, j: nat)
    requires Describe(c, blocks, eps) && PortsFine(blocks, |blocks|, false)
    requires i < j < |eps| && c.Places(eps[i]) && c.Places(eps[j])
    requires c.blocks[eps[i].name].listen.None? && c.blocks[eps[j].name].listen.None?
    ensures c.Ports(eps[i]) !! c.Ports(eps[j])
  {
    var bi, bj := c.blocks[eps[i].name], c.blocks[eps[j].name];
    assert eps[i] in eps && eps[j] in eps && eps[i].name != eps[j].name;
    var x :| 0 <= x < |blocks| && blocks[x] == bi;
    var y :| 0 <= y < |blocks| && blocks[y] == bj;
    assert Takes(bi) && Takes(bj);
    assert bi.Uses() !! bj.Uses() by { assert x < y || y < x; }
    forall p | p in c.Ports(eps[i]) ensures p !in c.Ports(eps[j]) {
      assert Tcp(LOOPBACK, p) in bi.Uses();
      assert p in c.Ports(eps[j]) ==> Tcp(LOOPBACK, p) in bj.Uses();
    }
  }

  /** A stack that passed both checks: any plan made for it gives two instances placed by
      `port` nothing in common, neither main port nor other listener, in all three modes;
      and with names on that holds of a `listen` override too. */
  lemma PlanIsInjective(c: Setting, blocks: seq<Block>, eps: seq<Endpoint>, plan: Plan, i: nat, j: nat)
    requires Describe(c, blocks, eps) && IsPlan(c, eps, plan) && InjectiveOnHosts(c.claim)
    requires PortsFine(blocks, |blocks|, c.names) && (c.names ==> DomainsFine(blocks, |blocks|, c.zone))
    requires i < j < |eps| && c.Places(eps[i]) && c.Places(eps[j])
    requires c.names || (c.blocks[eps[i].name].listen.None? && c.blocks[eps[j].name].listen.None?)
    ensures eps[i].name in plan.bind && eps[j].name in plan.bind
    ensures Listening(c, plan, eps[i]) !! Listening(c, plan, eps[j])
  {
    BoundAt(c, eps, plan, i);
    BoundAt(c, eps, plan, j);
    if c.Mode().Own? {
      OwnAddressesDiffer(c, blocks, eps, plan, i, j);
    } else {
      if c.Mode().Shared? {
        assert Apart(c, eps[i], eps[j]);
      } else {
        PlacedByPortApart(c, blocks, eps, i, j);
      }
      ApartAtOneAddress(c, eps, plan, i, j);
    }
  }

  /** The host of a `listen` is not looked at. Where instances do not get an address each,
      two of them have no address in common if and only if they have no port in common,
      main port or other listener, whatever hosts were asked for. */
  lemma ListenHostIsIgnored(c: Setting, eps: seq<Endpoint>, plan: Plan, i: nat, j: nat)
    requires IsPlan(c, eps, plan) && !c.Mode().Own?
    requires i < |eps| && j < |eps| && c.Places(eps[i]) && c.Places(eps[j])
    ensures eps[i].name in plan.bind && eps[j].name in plan.bind
    ensures Listening(c, plan, eps[i]) !! Listening(c, plan, eps[j]) <==> c.Ports(eps[i]) !! c.Ports(eps[j])
  {
    ListensOnPorts(c, eps, plan, i);
    ListensOnPorts(c, eps, plan, j);
    if p :| p in c.Ports(eps[i]) && p in c.Ports(eps[j]) {
      assert Tcp(LOOPBACK, p) in Listening(c, plan, eps[i]) && Tcp(LOOPBACK, p) in Listening(c, plan, eps[j]);
    }
  }

  lemma ListensOnPorts(c: Setting, eps: seq<Endpoint>, plan: Plan, i: nat)
    requires IsPlan(c, eps, plan) && !c.Mode().Own? && i < |eps| && c.Places(eps[i])
    ensures eps[i].name in plan.bind
    ensures Listening(c, plan, eps[i]) == set p | p in c.Ports(eps[i]) :: Tcp(LOOPBACK, p)
  {
    BoundAt(c, eps, plan, i);
  }

  /** Two blocks that override only the host pass the check at load. */
  lemma OtherHostsPassTheCheck(a: string, b: string, h: string, g: string, port: string)
    requires h != g
    ensures var one := Block(a, true, Some(Tcp(h, port)), None, false, true, {});
            var other := Block(b, true, Some(Tcp(g, port)), None, false, true, {});
            PortsFine([one, other], 2, false)
  {
  }

  /** Two blocks that pass both checks at load: the first listens on port p of host h, and
      has another listener on port q; the second listens on port q of another host. */
  function Pair(a: string, b: string, h: string, g: string, p: string, q: string): seq<Block> {
    [Block(a, true, Some(Tcp(h, p)), None, false, true, {q}), Block(b, true, Some(Tcp(g, q)), None, false, true, {})]
  }

  /** Without names, every plan made for such a pair gives them one address, even when their
      main ports differ. */
  lemma OtherHostsCollide(a: string, b: string, h: string, g: string, p: string, q: string, zone: Zone,
      claim: string -> Option<string>)
    requires a != b && h != g && h != "" && g != ""
    ensures var blocks := Pair(a, b, h, g, p, q);
            var c := Setting(map[a := blocks[0], b := blocks[1]], false, false, zone, claim);
            var eps := [Endpoint(a, Tcp(h, p), None), Endpoint(b, Tcp(g, q), None)];
            var plan := Plan(map[a := Tcp(LOOPBACK, p), b := Tcp(LOOPBACK, q)], map[], false);
            && PortsFine(blocks, 2, false) && Describe(c, blocks, eps) && IsPlan(c, eps, plan)
            && Tcp(LOOPBACK, q) in Listening(c, plan, eps[0]) * Listening(c, plan, eps[1])
  {
    var blocks := Pair(a, b, h, g, p, q);
    var c := Setting(map[a := blocks[0], b := blocks[1]], false, false, zone, claim);
    var eps := [Endpoint(a, Tcp(h, p), None), Endpoint(b, Tcp(g, q), None)];
    assert Resolved(c, eps, 0) == Resolved(c, eps, 1) == Resolved(c, eps, 2) == map[];
    assert c.Places(eps[0]) && c.Places(eps[1]);
    assert blocks[0] in blocks && blocks[1] in blocks;
  }

  /** A published name resolves to the address its instance is bound at. */
  lemma {:induction false} NamesResolveToTheirInstance(c: Setting, blocks: seq<Block>, eps: seq<Endpoint>,
      plan: Plan, i: nat)
    requires Describe(c, blocks, eps) && IsPlan(c, eps, plan) && DomainsFine(blocks, |blocks|, c.zone) && c.names
    requires i < |eps| && c.Places(eps[i])
    ensures c.zone.Domain(eps[i].name) in plan.resolve && eps[i].name in plan.bind
    ensures plan.bind[eps[i].name].Tcp? && plan.resolve[c.zone.Domain(eps[i].name)] == plan.bind[eps[i].name].host
  {
    BoundAt(c, eps, plan, i);
    ResolvedStays(c, blocks, eps, i, |eps|);
  }

  lemma {:induction false} ResolvedStays(c: Setting, blocks: seq<Block>, eps: seq<Endpoint>, i: nat, k: nat)
    requires Describe(c, blocks, eps) && DomainsFine(blocks, |blocks|, c.zone) && c.names
    requires i < k <= |eps| && (c.Direct(eps[i]) || (c.Places(eps[i]) && c.Ip(eps[i].name).Some?))
    ensures var d := c.zone.Domain(eps[i].name);
        && d in Resolved(c, eps, k)
        && Resolved(c, eps, k)[d] == if c.Direct(eps[i]) then LOOPBACK else c.Ip(eps[i].name).value
  {
    assert eps[i] in eps && eps[k - 1] in eps;
    if k - 1 > i {
      ResolvedStays(c, blocks, eps, i, k - 1);
      if c.Places(eps[k - 1]) || c.Direct(eps[k - 1]) {
        EnabledDomainsDiffer(c, blocks, eps, i, k - 1);
      }
    }
  }

  /** An enabled block with a port, doze listening for it or not. */
  ghost predicate Serves(c: Setting, ep: Endpoint, fronted: bool) {
    && ep.address.Tcp? && ep.name in c.blocks
    && c.blocks[ep.name].enabled && c.blocks[ep.name].fronted == fronted
  }

  ghost predicate Publishes(c: Setting, ep: Endpoint, d: string) {
    (Serves(c, ep, true) || Serves(c, ep, false)) && c.zone.Domain(ep.name) == d
  }

  /** Where an instance that doze listens for is reached, mode by mode: at the address of its
      own that was claimed for its name, with names on and a machine set up for it, and at
      the loopback address otherwise; on its own port. */
  lemma ServedWhere(c: Setting, eps: seq<Endpoint>, plan: Plan, i: nat)
    requires IsPlan(c, eps, plan) && i < |eps| && Serves(c, eps[i], true)
    ensures eps[i].name in plan.bind && plan.bind[eps[i].name].Tcp?
    ensures plan.bind[eps[i].name].port == eps[i].address.port
    ensures if c.names && c.pool then Some(plan.bind[eps[i].name].host) == c.claim(c.zone.Domain(eps[i].name))
            else plan.bind[eps[i].name].host == LOOPBACK
    ensures plan.loopback <==> c.names && c.pool
  {
    BoundAt(c, eps, plan, i);
  }

  /** Nothing else is bound: what binds its own port, is disabled or has none is not. */
  lemma NothingElseIsBound(c: Setting, eps: seq<Endpoint>, plan: Plan, n: string)
    requires IsPlan(c, eps, plan)
    ensures n in plan.bind <==> exists i :: 0 <= i < |eps| && Serves(c, eps[i], true) && eps[i].name == n
  {
    if i :| 0 <= i < |eps| && Serves(c, eps[i], true) && eps[i].name == n {
      BoundAt(c, eps, plan, i);
    }
    if n in plan.bind {
      var i :| 0 <= i < |eps| && c.Places(eps[i]) && eps[i].name == n;
      assert Serves(c, eps[i], true);
    }
  }

  /** An app that binds its own port is found under its name at the loopback address. */
  lemma DirectNamesResolveToLoopback(c: Setting, blocks: seq<Block>, eps: seq<Endpoint>, plan: Plan, i: nat)
    requires Describe(c, blocks, eps) && IsPlan(c, eps, plan) && DomainsFine(blocks, |blocks|, c.zone) && c.names
    requires i < |eps| && Serves(c, eps[i], false)
    ensures c.zone.Domain(eps[i].name) in plan.resolve
    ensures plan.resolve[c.zone.Domain(eps[i].name)] == LOOPBACK && eps[i].name !in plan.bind
  {
    ResolvedStays(c, blocks, eps, i, |eps|);
    NothingElseIsBound(c, eps, plan, eps[i].name);
    forall j | 0 <= j < |eps| && eps[j].name == eps[i].name ensures j == i {
    }
  }

  /** A plan resolves exactly the names that enabled blocks with a port publish, and none
      without names. */
  lemma ResolvesExactlyPublished(c: Setting, blocks: seq<Block>, eps: seq<Endpoint>, plan: Plan, d: string)
    requires Describe(c, blocks, eps) && IsPlan(c, eps, plan)
    ensures d in plan.resolve <==>
            c.names && exists i :: 0 <= i < |eps| && Publishes(c, eps[i], d)
  {
    ResolvedArePublished(c, eps, |eps|, d);
    if i :| 0 <= i < |eps| && eps[i].domain == Some(d) && (c.Direct(eps[i]) || Placed(c, eps[i])) {
      assert eps[i] in eps && Publishes(c, eps[i], d);
    }
    if c.names {
      if i :| 0 <= i < |eps| && Publishes(c, eps[i], d) {
        assert eps[i] in eps;
        if c.Places(eps[i]) { BoundAt(c, eps, plan, i); }
      }
    }
  }

  predicate Placed(c: Setting, ep: Endpoint) {
    c.Places(ep) && c.Ip(ep.name).Some?
  }

  lemma {:induction false} ResolvedArePublished(c: Setting, eps: seq<Endpoint>, k: nat, d: string)
    requires k <= |eps|
    ensures d in Resolved(c, eps, k) <==>
            exists i :: 0 <= i < k && eps[i].domain == Some(d) && (c.Direct(eps[i]) || Placed(c, eps[i]))
    decreases k
  {
    if k > 0 {
      ResolvedArePublished(c, eps, k - 1, d);
    }
  }

  lemma EnabledDomainsDiffer(c: Setting, blocks: seq<Block>, eps: seq<Endpoint>, i: nat, j: nat)
    requires Describe(c, blocks, eps) && DomainsFine(blocks, |blocks|, c.zone)
    requires i < j < |eps| && (c.Places(eps[i]) || c.Direct(eps[i])) && (c.Places(eps[j]) || c.Direct(eps[j]))
    ensures c.zone.Domain(eps[i].name) != c.zone.Domain(eps[j].name)
  {
    var bi, bj := c.blocks[eps[i].name], c.blocks[eps[j].name];
    assert eps[i].name != eps[j].name;
    var x :| 0 <= x < |blocks| && blocks[x] == bi;
    var y :| 0 <= y < |blocks| && blocks[y] == bj;
    assert x < y || y < x;
    SameDomainIff(c.zone, bi.name, bj.name);
  }
}
