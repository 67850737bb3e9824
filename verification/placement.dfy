/** Where each instance listens: what is checked when a stack loads (validatePorts,
    validateDomains) and what the daemon then assigns (buildBindPlan). */
module Placement {
  import opened Stack

  /** An address as it is written: a host and a port, or anything else (a unix socket). */
  datatype Address = Tcp(host: string, port: string) | Other(text: string)

  const LOOPBACK := "127.0.0.1"

  datatype Block = Block(
    name: string,
    enabled: bool,
    listen: Option<Address>,  // a full override of where it listens
    port: Option<string>,     // the declared port
    supervised: bool,         // may have no port
    fronted: bool,            // doze holds its port for it
    extras: set<string>       // the ports of its listeners other than the main one
  )
  {
    /** The client-facing address, if it is to have one. */
    function Addr(): Where {
      if listen.Some? then At(listen.value)
      else if port.Some? then At(Tcp(LOOPBACK, port.value))
      else if supervised then Portless
      else Missing
    }

    function ExtraHost(): string {
      if listen.Some? && listen.value.Tcp? && listen.value.host != "" then listen.value.host else LOOPBACK
    }

    /** Every address the block asks for without names. */
    function Uses(): set<Address> {
      (if Addr().At? then {Addr().address} else {}) + set e | e in extras :: Tcp(ExtraHost(), e)
    }
  }

  datatype Where = At(address: Address) | Portless | Missing

  ghost predicate DistinctBlocks(blocks: seq<Block>) {
    forall i, j | 0 <= i < j < |blocks| :: blocks[i].name != blocks[j].name
  }

  // What is checked when a stack loads.

  datatype PortError = NoPort(name: string) | PortConflict(first: string, second: string, address: Address)

  /** The block takes addresses: it is enabled, and has one. */
  predicate Takes(b: Block) {
    b.enabled && b.Addr().At?
  }

  ghost predicate PortsFine(blocks: seq<Block>, k: nat, names: bool)
    requires k <= |blocks|
  {
    && (forall i | 0 <= i < k :: blocks[i].enabled ==> !blocks[i].Addr().Missing?)
    && (!names ==> forall i, j | 0 <= i < j < k && Takes(blocks[i]) && Takes(blocks[j]) ::
        blocks[i].Uses() !! blocks[j].Uses())
  }

  /** A block asks for an address: for the one it listens on, or else its port on the
      loopback address; and for each other listener's port on the same host. */
  ghost predicate AsksFor(b: Block, a: Address) {
    || b.listen == Some(a)
    || (b.listen == None && b.port != None && a == Tcp("127.0.0.1", b.port.value))
    || (&& (b.listen != None || b.port != None) && a.Tcp? && a.port in b.extras
        && a.host == match b.listen {
                       case Some(Tcp(host, _)) => if host == "" then "127.0.0.1" else host
                       case _ => "127.0.0.1"
                     })
  }

  /** Ports are fine exactly when every enabled block listens somewhere, has a port or needs
      none, and, without names, no address is asked for by two enabled blocks. */
  lemma PortsFineIff(blocks: seq<Block>, names: bool)
    ensures PortsFine(blocks, |blocks|, names) <==>
            && (forall b | b in blocks && b.enabled :: b.listen != None || b.port != None || b.supervised)
            && (!names ==> forall i, j, a | 0 <= i < j < |blocks| && blocks[i].enabled && blocks[j].enabled ::
                  !AsksFor(blocks[i], a) || !AsksFor(blocks[j], a))
  {
    forall b: Block, a ensures AsksFor(b, a) <==> b.Addr().At? && a in b.Uses() {
      AsksIffUses(b, a);
    }
    forall i | 0 <= i < |blocks| && blocks[i].enabled
      ensures !blocks[i].Addr().Missing? <==>
          blocks[i].listen != None || blocks[i].port != None || blocks[i].supervised {
      assert blocks[i] in blocks;
    }
    forall i, j | 0 <= i < j < |blocks| && Takes(blocks[i]) && Takes(blocks[j])
      ensures blocks[i].Uses() !! blocks[j].Uses() <==> forall a :: !AsksFor(blocks[i], a) || !AsksFor(blocks[j], a) {
    }
  }

  lemma AsksIffUses(b: Block, a: Address)
    ensures AsksFor(b, a) <==> b.Addr().At? && a in b.Uses()
  {
  }

  ghost predicate Owns(b: Block, a: Address) {
    Takes(b) && a in b.Uses()
  }

  ghost predicate OwnedBy(blocks: seq<Block>, k: nat, a: Address, name: string)
    requires k <= |blocks|
  {
    exists i :: 0 <= i < k && Owns(blocks[i], a) && blocks[i].name == name
  }

  /** What addresses are taken, and by which block. */
  ghost predicate TakenBy(addrs: map<Address, string>, blocks: seq<Block>, k: nat)
    requires k <= |blocks|
  {
    && (forall a | a in addrs :: OwnedBy(blocks, k, a, addrs[a]))
    && (forall i, a | 0 <= i < k && Owns(blocks[i], a) :: a in addrs)
  }

  /** An error is about blocks that are as it says. */
  ghost predicate Real(e: PortError, blocks: seq<Block>, k: nat)
    requires k <= |blocks|
  {
    match e
    case NoPort(name) => exists i ::
        0 <= i < k && blocks[i].name == name && blocks[i].enabled && blocks[i].Addr().Missing?
    case PortConflict(first, second, address) =>
      exists j :: 0 <= j < k && blocks[j].name == second && Owns(blocks[j], address)
          && OwnedBy(blocks, j, address, first)
  }

  /** Every violation, in the order of the blocks; none exactly when every enabled block has
      an address or needs none, and, without names, no two blocks ask for one address. */
  method ValidatePorts(blocks: seq<Block>, names: bool) returns (errs: seq<PortError>)
    ensures errs == [] <==> PortsFine(blocks, |blocks|, names)
    ensures forall e | e in errs :: Real(e, blocks, |blocks|)
  {
    var addrs: map<Address, string> := map[];
    errs := [];
    for k := 0 to |blocks|
      invariant errs == [] <==> PortsFine(blocks, k, names)
      invariant !names ==> TakenBy(addrs, blocks, k)
      invariant forall e | e in errs :: Real(e, blocks, k)
    {
      var b := blocks[k];
      if !b.enabled {
        continue;
      }
      if b.Addr().Missing? {
        errs := errs + [NoPort(b.name)];
        continue;
      }
      if b.Addr().Portless? || names {
        continue;
      }
      errs, addrs := TakeBlock(blocks, k, addrs, errs);
    }
  }

  /** One block's addresses, without names. */
  method TakeBlock(blocks: seq<Block>, k: nat, addrs: map<Address, string>, errs: seq<PortError>)
      returns (errs': seq<PortError>, addrs': map<Address, string>)
    requires k < |blocks| && Takes(blocks[k]) && TakenBy(addrs, blocks, k)
    requires (errs == [] <==> PortsFine(blocks, k, false)) && forall e | e in errs :: Real(e, blocks, k)
    ensures errs' == [] <==> PortsFine(blocks, k + 1, false)
    ensures TakenBy(addrs', blocks, k + 1) && forall e | e in errs' :: Real(e, blocks, k + 1)
  {
    var conflicts;
    conflicts, addrs' := TakeAddresses(blocks[k], addrs);
    ConflictsAreReal(blocks, k, addrs, conflicts);
    RealStays(blocks, k, errs);
    errs' := errs + conflicts;
    OneMoreTakes(addrs, addrs', blocks, k);
    FreeIff(addrs, blocks, k);
    FineOneMore(blocks, k);
  }

  lemma RealStays(blocks: seq<Block>, k: nat, errs: seq<PortError>)
    requires k < |blocks| && forall e | e in errs :: Real(e, blocks, k)
    ensures forall e | e in errs :: Real(e, blocks, k + 1)
  {
  }

  /** An address of the block's that another took before. */
  predicate IsConflict(c: PortError, b: Block, addrs: map<Address, string>) {
    c.PortConflict? && c.address in b.Uses() && c.address in addrs && c.second == b.name && c.first == addrs[c.address]
  }

  lemma ConflictsAreReal(blocks: seq<Block>, k: nat, addrs: map<Address, string>, conflicts: seq<PortError>)
    requires k < |blocks| && Takes(blocks[k]) && TakenBy(addrs, blocks, k)
    requires forall c | c in conflicts :: IsConflict(c, blocks[k], addrs)
    ensures forall c | c in conflicts :: Real(c, blocks, k + 1)
  {
    forall c | c in conflicts ensures Real(c, blocks, k + 1) {
      assert IsConflict(c, blocks[k], addrs);
      assert Owns(blocks[k], c.address) && OwnedBy(blocks, k, c.address, c.first);
    }
  }

  lemma FineOneMore(blocks: seq<Block>, k: nat)
    requires k < |blocks| && Takes(blocks[k])
    ensures PortsFine(blocks, k + 1, false) <==>
            && PortsFine(blocks, k, false)
            && forall i | 0 <= i < k && Takes(blocks[i]) :: blocks[i].Uses() !! blocks[k].Uses()
  {
  }

  /** Addresses taken for a name, unless they were before. */
  function Given(used: set<Address>, name: string, addrs: map<Address, string>): map<Address, string> {
    (map a | a in used :: name) + addrs
  }

  lemma GivenOneMore(used: set<Address>, a: Address, name: string, addrs: map<Address, string>)
    requires a !in used
    ensures var given := Given(used, name, addrs);
            Given(used + {a}, name, addrs) == if a in given then given else given[a := name]
  {
  }

  method TakeAddresses(b: Block, addrs: map<Address, string>)
      returns (conflicts: seq<PortError>, addrs': map<Address, string>)
    ensures conflicts == [] <==> b.Uses() !! addrs.Keys
    ensures addrs' == Given(b.Uses(), b.name, addrs)
    ensures forall c | c in conflicts :: IsConflict(c, b, addrs)
  {
    conflicts, addrs' := [], addrs;
    var left := b.Uses();
    while left != {}
      invariant left <= b.Uses()
      invariant conflicts == [] <==> (b.Uses() - left) !! addrs.Keys
      invariant addrs' == Given(b.Uses() - left, b.name, addrs)
      invariant forall c | c in conflicts :: IsConflict(c, b, addrs)
      decreases left
    {
      var a :| a in left;
      GivenOneMore(b.Uses() - left, a, b.name, addrs);
      assert b.Uses() - (left - {a}) == b.Uses() - left + {a};
      left := left - {a};
      if a in addrs' {
        conflicts := conflicts + [PortConflict(addrs'[a], b.name, a)];
      } else {
        addrs' := addrs'[a := b.name];
      }
    }
  }

  lemma OneMoreTakes(was: map<Address, string>, addrs: map<Address, string>, blocks: seq<Block>, k: nat)
    requires k < |blocks| && Takes(blocks[k]) && TakenBy(was, blocks, k)
    requires addrs == (map a | a in blocks[k].Uses() :: blocks[k].name) + was
    ensures TakenBy(addrs, blocks, k + 1)
  {
    forall a | a in addrs ensures OwnedBy(blocks, k + 1, a, addrs[a]) {
      if a in was {
        assert OwnedBy(blocks, k, a, was[a]);
      } else {
        assert Owns(blocks[k], a);
      }
    }
    forall i, a | 0 <= i < k + 1 && Owns(blocks[i], a) ensures a in addrs {
    }
  }

  lemma FreeIff(was: map<Address, string>, blocks: seq<Block>, k: nat)
    requires k < |blocks| && Takes(blocks[k]) && TakenBy(was, blocks, k)
    ensures blocks[k].Uses() !! was.Keys <==>
        forall i | 0 <= i < k && Takes(blocks[i]) :: blocks[i].Uses() !! blocks[k].Uses()
  {
    if blocks[k].Uses() !! was.Keys {
      forall i | 0 <= i < k && Takes(blocks[i]) ensures blocks[i].Uses() !! blocks[k].Uses() {
        assert forall a | a in blocks[i].Uses() :: Owns(blocks[i], a);
      }
    } else {
      var a :| a in blocks[k].Uses() && a in was;
      assert OwnedBy(blocks, k, a, was[a]);
    }
  }

  // Names.

  predicate InLabel(c: char) {
    'a' <= c <= 'z' || '0' <= c <= '9'
  }

  function TrimLeft(s: string): string {
    if s != "" && s[0] == '-' then TrimLeft(s[1..]) else s
  }

  function TrimRight(s: string): string {
    if s != "" && s[|s| - 1] == '-' then TrimRight(s[..|s| - 1]) else s
  }

  function Hyphened(s: string): string {
    seq(|s|, i requires 0 <= i < |s| => if InLabel(s[i]) then s[i] else '-')
  }

  /** A name, in lower case, as one label of a domain name. */
  function Label(lowered: string): string {
    TrimRight(TrimLeft(Hyphened(lowered)))
  }

  method DomainLabel(lowered: string) returns (r: string)
    ensures r == Label(lowered)
  {
    var b := "";
    for i := 0 to |lowered|
      invariant b == Hyphened(lowered)[..i]
    {
      b := b + [if InLabel(lowered[i]) then lowered[i] else '-'];
    }
    assert b == Hyphened(lowered);
    r := TrimRight(TrimLeft(b));
  }

  /** A label has only letters, digits and hyphens, and no hyphen at either end. */
  predicate WellFormed(s: string) {
    && (forall i | 0 <= i < |s| :: InLabel(s[i]) || s[i] == '-')
    && (s != "" ==> s[0] != '-' && s[|s| - 1] != '-')
  }

  lemma {:induction false} TrimLeftKeeps(s: string)
    requires forall i | 0 <= i < |s| :: InLabel(s[i]) || s[i] == '-'
    ensures var t := TrimLeft(s); (forall i | 0 <= i < |t| :: InLabel(t[i]) || t[i] == '-') && (t != "" ==> t[0] != '-')
  {
    if s != "" && s[0] == '-' {
      TrimLeftKeeps(s[1..]);
    }
  }

  lemma {:induction false} TrimRightKeeps(s: string)
    requires (forall i | 0 <= i < |s| :: InLabel(s[i]) || s[i] == '-') && (s != "" ==> s[0] != '-')
    ensures WellFormed(TrimRight(s))
  {
    if s != "" && s[|s| - 1] == '-' {
      TrimRightKeeps(s[..|s| - 1]);
    }
  }

  /** Labels are well formed, and exactly the well-formed names are labels already. */
  lemma LabelIsWellFormed(s: string)
    ensures WellFormed(Label(s))
    ensures Label(s) == s <==> WellFormed(s)
  {
    TrimLeftKeeps(Hyphened(s));
    TrimRightKeeps(TrimLeft(Hyphened(s)));
    if WellFormed(s) {
      assert Hyphened(s) == s;
    }
  }

  /** A lower-case letter or a digit. */
  ghost predicate Plain(c: char) {
    'a' <= c <= 'z' || '0' <= c <= '9'
  }

  /** The label is a part of the name, all of its letters and digits in it, with a hyphen
      for whatever else is between them. */
  ghost predicate IsLabelOf(part: string, s: string, a: nat, b: nat) {
    && a <= b <= |s| && |part| == b - a
    && (forall i | 0 <= i < b - a :: part[i] == if Plain(s[a + i]) then s[a + i] else '-')
    && (forall i | 0 <= i < |s| && (i < a || b <= i) :: !Plain(s[i]))
    && (part != "" ==> Plain(part[0]) && Plain(part[|part| - 1]))
  }

  lemma {:induction false} TrimLeftIs(s: string) returns (a: nat)
    ensures a <= |s| && TrimLeft(s) == s[a..] && forall i | 0 <= i < a :: s[i] == '-'
    ensures a < |s| ==> s[a] != '-'
  {
    a := 0;
    if s != "" && s[0] == '-' {
      a := TrimLeftIs(s[1..]);
      a := a + 1;
    }
  }

  lemma {:induction false} TrimRightIs(s: string) returns (b: nat)
    ensures b <= |s| && TrimRight(s) == s[..b] && forall i | b <= i < |s| :: s[i] == '-'
    ensures b > 0 ==> s[b - 1] != '-'
  {
    b := |s|;
    if s != "" && s[|s| - 1] == '-' {
      b := TrimRightIs(s[..|s| - 1]);
    }
  }

  lemma LabelIs(s: string) returns (a: nat, b: nat)
    ensures IsLabelOf(Label(s), s, a, b)
  {
    var h := Hyphened(s);
    a := TrimLeftIs(h);
    b := TrimRightIs(h[a..]);
    b := a + b;
    assert Label(s) == h[a..b];
    forall i | 0 <= i < |s| && (i < a || b <= i) ensures !Plain(s[i]) {
      assert h[i] == '-' by {
        if b <= i { assert h[a..][i - a] == h[i]; }
      }
    }
  }

  const SUFFIX := ".doze"

  /** Where a stack publishes names: how they are put in lower case, and the stack's label. */
  datatype Zone = Zone(lower: string -> string, stack: string)
  {
    function LabelOf(name: string): string {
      Label(lower(name))
    }

    /** The name an instance publishes. */
    function Domain(name: string): string {
      LabelOf(name) + "." + stack + SUFFIX
    }
  }

  /** Two instances publish one name if and only if their names have one label. */
  lemma SameDomainIff(z: Zone, a: string, b: string)
    ensures z.Domain(a) == z.Domain(b) <==> z.LabelOf(a) == z.LabelOf(b)
  {
    var rest := "." + z.stack + SUFFIX;
    assert z.Domain(a) == z.LabelOf(a) + rest && z.Domain(b) == z.LabelOf(b) + rest;
    if z.LabelOf(a) + rest == z.LabelOf(b) + rest {
      SamePrefix(z.LabelOf(a), z.LabelOf(b), rest);
    }
  }

  /** An instance is published as the label of its name, in its stack, in doze. */
  lemma DomainIs(z: Zone, name: string) returns (part: string, a: nat, b: nat)
    ensures z.Domain(name) == part + "." + z.stack + ".doze" && IsLabelOf(part, z.lower(name), a, b)
  {
    part := z.LabelOf(name);
    a, b := LabelIs(z.lower(name));
  }

  lemma SamePrefix(a: string, b: string, rest: string)
    requires a + rest == b + rest
    ensures a == b
  {
    assert |a| == |b|;
    assert a == (a + rest)[..|a|] && b == (b + rest)[..|b|];
  }

  /** No two enabled names have one label: what is left of them in lower case, with hyphens
      for all but letters and digits, and none at the ends. */
  ghost predicate DomainsFine(blocks: seq<Block>, k: nat, z: Zone)
    requires k <= |blocks|
  {
    forall i, j | 0 <= i < j < k && blocks[i].enabled && blocks[j].enabled ::
        z.LabelOf(blocks[i].name) != z.LabelOf(blocks[j].name)
  }

  datatype DomainError = DomainConflict(first: string, second: string, domain: string)

  /** An earlier enabled block publishes d under the name first. */
  ghost predicate Publishes(blocks: seq<Block>, k: nat, z: Zone, first: string, d: string)
    requires k <= |blocks|
  {
    exists i :: 0 <= i < k && blocks[i].enabled && blocks[i].name == first && z.Domain(first) == d
  }

  ghost predicate RealConflict(e: DomainError, blocks: seq<Block>, z: Zone) {
    exists j :: 0 <= j < |blocks| && blocks[j].enabled && blocks[j].name == e.second
             && z.Domain(e.second) == e.domain && Publishes(blocks, j, z, e.first, e.domain)
  }

  /** With names on, no two enabled blocks may publish one name; the first that does is
      reported with the one before it. */
  method ValidateDomains(blocks: seq<Block>, names: bool, z: Zone) returns (err: Option<DomainError>)
    ensures err.None? <==> !names || DomainsFine(blocks, |blocks|, z)
    ensures err.Some? ==> RealConflict(err.value, blocks, z)
  {
    if !names {
      return None;
    }
    var owner: map<string, string> := map[];
    for k := 0 to |blocks|
      invariant DomainsFine(blocks, k, z) && Owners(blocks, k, z, owner)
    {
      if blocks[k].enabled {
        var d := z.Domain(blocks[k].name);
        NewOwnerIff(blocks, k, z, owner);
        if d in owner {
          assert Publishes(blocks, k, z, owner[d], d);
          return Some(DomainConflict(owner[d], blocks[k].name, d));
        }
        owner := owner[d := blocks[k].name];
      }
    }
    err := None;
  }

  ghost predicate Owners(blocks: seq<Block>, k: nat, z: Zone, owner: map<string, string>)
    requires k <= |blocks|
  {
    && (forall i | 0 <= i < k && blocks[i].enabled :: z.Domain(blocks[i].name) in owner)
    && (forall d | d in owner :: Publishes(blocks, k, z, owner[d], d))
  }

  lemma NewOwnerIff(blocks: seq<Block>, k: nat, z: Zone, owner: map<string, string>)
    requires k < |blocks| && blocks[k].enabled && DomainsFine(blocks, k, z) && Owners(blocks, k, z, owner)
    ensures z.Domain(blocks[k].name) in owner <==> !DomainsFine(blocks, k + 1, z)
    ensures z.Domain(blocks[k].name) in owner ==> !DomainsFine(blocks, |blocks|, z)
  {
    forall i | 0 <= i < k ensures z.Domain(blocks[i].name) == z.Domain(blocks[k].name) <==>
        z.LabelOf(blocks[i].name) == z.LabelOf(blocks[k].name) {
      SameDomainIff(z, blocks[i].name, blocks[k].name);
    }
    if z.Domain(blocks[k].name) in owner {
      assert Publishes(blocks, k, z, owner[z.Domain(blocks[k].name)], z.Domain(blocks[k].name));
    }
  }
}
