/** A block body with some arguments replaced, read as a decoder reads it: a schema at a
    time, each read leaving a body for the next. */
module Overrides {
  import opened Stack

  type Arguments = map<string, string>

  /** A body as it is written, or one laid under an override. */
  datatype Body = Written(arguments: Arguments) | Overridden(base: Body, over: Arguments)

  datatype Argument = Argument(name: string, required: bool)

  datatype Problem = Missing(name: string) | Unsupported(name: string)

  function Named(schema: seq<Argument>): set<string> {
    set a | a in schema :: a.name
  }

  function Required(schema: seq<Argument>): set<string> {
    set a | a in schema && a.required :: a.name
  }

  function Only(m: Arguments, names: set<string>): Arguments {
    map n | n in m && n in names :: m[n]
  }

  function MissingFrom(m: Arguments, schema: seq<Argument>): set<Problem> {
    set n | n in Required(schema) && n !in m :: Missing(n)
  }

  /** Reads what the schema names; what is left does not have it. */
  function PartialContent(b: Body, schema: seq<Argument>): (Arguments, Body, set<Problem>) {
    match b
    case Written(m) =>
      (Only(m, Named(schema)), Written(m - Named(schema)), MissingFrom(m, schema))
    case Overridden(base, over) =>
      var (content, rest, problems) := PartialContent(base, schema);
      (content + Only(over, Named(schema)), Overridden(rest, over - Named(schema)), problems)
  }

  /** Reads what the schema names and refuses anything else. */
  function Content(b: Body, schema: seq<Argument>): (Arguments, set<Problem>) {
    match b
    case Written(m) =>
      (Only(m, Named(schema)),
       MissingFrom(m, schema) + set n | n in m && n !in Named(schema) :: Unsupported(n))
    case Overridden(base, over) =>
      var (content, problems) := Content(base, schema);
      (content + Only(over, Named(schema)), problems)
  }

  function JustAttributes(b: Body): Arguments {
    match b
    case Written(m) => m
    case Overridden(base, over) => JustAttributes(base) + over
  }

  /** The body with the overridden arguments replaced. */
  function Flat(b: Body): Body {
    Written(JustAttributes(b))
  }

  /** The body as the user first wrote it. */
  function Bottom(b: Body): Arguments {
    match b
    case Written(m) => m
    case Overridden(base, _) => Bottom(base)
  }

  // One read.

  lemma {:induction false} PartialReadsAsFlat(b: Body, schema: seq<Argument>)
    ensures PartialContent(b, schema).0 == PartialContent(Flat(b), schema).0
    ensures Flat(PartialContent(b, schema).1) == PartialContent(Flat(b), schema).1
    ensures PartialContent(b, schema).2 == MissingFrom(Bottom(b), schema)
    ensures Bottom(PartialContent(b, schema).1) == Bottom(b) - Named(schema)
  {
    if b.Overridden? {
      PartialReadsAsFlat(b.base, schema);
      OnlyLaid(JustAttributes(b.base), b.over, Named(schema));
    }
  }

  lemma OnlyLaid(before: Arguments, over: Arguments, names: set<string>)
    ensures Only(before, names) + Only(over, names) == Only(before + over, names)
    ensures (before - names) + (over - names) == (before + over) - names
  {
  }

  lemma {:induction false} ContentReadsAsFlat(b: Body, schema: seq<Argument>)
    ensures Content(b, schema).0 == Content(Flat(b), schema).0
    ensures Content(b, schema).1 == Content(Written(Bottom(b)), schema).1
  {
    if b.Overridden? {
      ContentReadsAsFlat(b.base, schema);
      OnlyLaid(JustAttributes(b.base), b.over, Named(schema));
    }
  }

  // A whole decode.

  datatype Decoded = Decoded(contents: seq<Arguments>, problems: seq<set<Problem>>)

  /** Reads the body by schema after schema, and the last one exactly. */
  function Decode(b: Body, schemas: seq<seq<Argument>>, last: seq<Argument>): Decoded
    decreases schemas
  {
    if schemas == [] then
      var (content, problems) := Content(b, last);
      Decoded([content], [problems])
    else
      var (content, rest, problems) := PartialContent(b, schemas[0]);
      var later := Decode(rest, schemas[1..], last);
      Decoded([content] + later.contents, [problems] + later.problems)
  }

  /** However the reads are split, an override hands out what the flat body would. */
  lemma {:induction false} DecodesAsFlat(b: Body, schemas: seq<seq<Argument>>, last: seq<Argument>)
    ensures Decode(b, schemas, last).contents == Decode(Flat(b), schemas, last).contents
    ensures Decode(b, schemas, last).problems == Decode(Written(Bottom(b)), schemas, last).problems
    decreases schemas
  {
    if schemas == [] {
      ContentReadsAsFlat(b, last);
    } else {
      PartialReadsAsFlat(b, schemas[0]);
      PartialReadsAsFlat(Written(Bottom(b)), schemas[0]);
      DecodesAsFlat(PartialContent(b, schemas[0]).1, schemas[1..], last);
    }
  }

  /** No argument some read requires is set only by an override, and no argument set only by
      an override is left over by every read. */
  ghost predicate OverridesOnlyReplace(added: set<string>, schemas: seq<seq<Argument>>, last: seq<Argument>)
    decreases schemas
  {
    if schemas == [] then Required(last) !! added && added <= Named(last)
    else Required(schemas[0]) !! added && OverridesOnlyReplace(added - Named(schemas[0]), schemas[1..], last)
  }

  /** The arguments only an override sets. */
  function Added(b: Body): set<string> {
    JustAttributes(b).Keys - Bottom(b).Keys
  }

  lemma {:induction false} BottomIsUnder(b: Body)
    ensures Bottom(b).Keys <= JustAttributes(b).Keys
  {
    if b.Overridden? {
      BottomIsUnder(b.base);
    }
  }

  /** The same problems are reported as for the flat body exactly when overrides only
      replace: one that alone sets a required argument does not satisfy the check, and one
      that sets an argument no read asks for is not reported. */
  lemma {:induction false} SameProblemsIff(b: Body, schemas: seq<seq<Argument>>, last: seq<Argument>)
    ensures Decode(b, schemas, last).problems == Decode(Flat(b), schemas, last).problems
       <==> OverridesOnlyReplace(Added(b), schemas, last)
    decreases schemas
  {
    BottomIsUnder(b);
    if schemas == [] {
      ContentReadsAsFlat(b, last);
      SameFinalProblemsIff(JustAttributes(b), Bottom(b), last);
      assert Decode(b, [], last).problems[0] == Content(b, last).1;
      assert Decode(Flat(b), [], last).problems[0] == Content(Flat(b), last).1;
    } else {
      PartialReadsAsFlat(b, schemas[0]);
      var rest := PartialContent(b, schemas[0]).1;
      SameProblemsIff(rest, schemas[1..], last);
      assert Added(rest) == Added(b) - Named(schemas[0]);
      SameMissingIff(JustAttributes(b), Bottom(b), schemas[0]);
      HeadsAndTails(PartialContent(b, schemas[0]).2, Decode(rest, schemas[1..], last).problems,
        PartialContent(Flat(b), schemas[0]).2, Decode(Flat(rest), schemas[1..], last).problems);
    }
  }

  /** What an override file may set. */
  const OVERRIDABLE := {"port", "enabled", "sleep", "version"}

  function ReadBy(schemas: seq<seq<Argument>>, last: seq<Argument>): set<string> {
    if schemas == [] then Named(last) else Named(schemas[0]) + ReadBy(schemas[1..], last)
  }

  /** No read requires any of some names. */
  ghost predicate Optional(names: set<string>, schemas: seq<seq<Argument>>, last: seq<Argument>) {
    Required(last) !! names && forall i | 0 <= i < |schemas| :: Required(schemas[i]) !! names
  }

  lemma {:induction false} OnlyReplaceIffRead(added: set<string>, schemas: seq<seq<Argument>>, last: seq<Argument>)
    requires Optional(added, schemas, last)
    ensures OverridesOnlyReplace(added, schemas, last) <==> added <= ReadBy(schemas, last)
    decreases schemas
  {
    if schemas != [] {
      OnlyReplaceIffRead(added - Named(schemas[0]), schemas[1..], last);
    }
  }

  /** What an override file may set is required nowhere; so the same problems are reported
      as for the flat body exactly when every argument that only overrides set is read. */
  lemma SameProblemsIffAllRead(b: Body, schemas: seq<seq<Argument>>, last: seq<Argument>)
    requires Added(b) <= OVERRIDABLE && Optional(OVERRIDABLE, schemas, last)
    ensures Decode(b, schemas, last).problems == Decode(Flat(b), schemas, last).problems
       <==> Added(b) <= ReadBy(schemas, last)
  {
    SameProblemsIff(b, schemas, last);
    OnlyReplaceIffRead(Added(b), schemas, last);
  }

  // The reads of a task.

  function Any(name: string): Argument {
    Argument(name, false)
  }

  const DECLARED := [Any("count"), Any("for_each"), Any("enabled"), Any("depends_on")]
  const WAITS := [Any("after")]
  const TASK := [Argument("run", true), Any("dir"), Any("env"), Any("env_file"), Any("inputs"), Any("manual")]

  lemma TaskNames()
    ensures Named(DECLARED) == {"count", "for_each", "enabled", "depends_on"} && Required(DECLARED) == {}
    ensures Named(WAITS) == {"after"} && Required(WAITS) == {}
  {
    assert DECLARED[2] in DECLARED && DECLARED[3] in DECLARED && DECLARED[0] in DECLARED && DECLARED[1] in DECLARED;
    assert WAITS[0] in WAITS;
  }

  lemma TaskBodyNames()
    ensures Named(TASK) == {"run", "dir", "env", "env_file", "inputs", "manual"} && Required(TASK) == {"run"}
  {
    assert TASK[0] in TASK && TASK[1] in TASK && TASK[2] in TASK;
    assert TASK[3] in TASK && TASK[4] in TASK && TASK[5] in TASK;
  }

  lemma TaskReads()
    ensures Optional(OVERRIDABLE, [DECLARED, WAITS], TASK)
    ensures ReadBy([DECLARED, WAITS], TASK) * OVERRIDABLE == {"enabled"}
  {
    TaskNames();
    TaskBodyNames();
    NoneRequired();
    ReadInTurn(DECLARED, WAITS, TASK);
    OnlyEnabled(Named(DECLARED), Named(WAITS), Named(TASK));
  }

  lemma NoneRequired()
    requires Required(DECLARED) == {} && Required(WAITS) == {} && Required(TASK) == {"run"}
    ensures Optional(OVERRIDABLE, [DECLARED, WAITS], TASK)
  {
  }

  lemma ReadInTurn(first: seq<Argument>, second: seq<Argument>, last: seq<Argument>)
    ensures ReadBy([first, second], last) == Named(first) + (Named(second) + Named(last))
  {
    assert [first, second][1..] == [second] && [second][1..] == [];
    assert ReadBy([second], last) == Named(second) + ReadBy([], last);
  }

  lemma OnlyEnabled(declared: set<string>, waits: set<string>, task: set<string>)
    requires declared == {"count", "for_each", "enabled", "depends_on"} && waits == {"after"}
    requires task == {"run", "dir", "env", "env_file", "inputs", "manual"}
    ensures (declared + (waits + task)) * OVERRIDABLE == {"enabled"}
  {
    forall n | n in OVERRIDABLE ensures n in declared + (waits + task) <==> n == "enabled" {
      NotInTask(n);
    }
  }

  lemma NotInTask(n: string)
    requires n in OVERRIDABLE
    ensures n !in {"run", "dir", "env", "env_file", "inputs", "manual", "after", "count", "for_each", "depends_on"}
    ensures n == "enabled" || n !in {"enabled"}
  {
  }

  /** An override of a task reports what the flat body would exactly when `enabled` is all
      it adds: a port, a version or a sleep set by it alone is silently left. */
  lemma TaskOverrideIsReportedIff(b: Body)
    requires Added(b) <= OVERRIDABLE
    ensures Decode(b, [DECLARED, WAITS], TASK).problems == Decode(Flat(b), [DECLARED, WAITS], TASK).problems
       <==> Added(b) <= {"enabled"}
  {
    TaskReads();
    SameProblemsIffAllRead(b, [DECLARED, WAITS], TASK);
  }

  /** Such an input: an override that gives a task a port. */
  lemma TaskPortIsSilent()
    ensures var b := Overridden(Written(map["run" := "migrate"]), map["port" := "5432"]);
            && Decode(b, [DECLARED, WAITS], TASK).problems == [{}, {}, {}]
            && Decode(Flat(b), [DECLARED, WAITS], TASK).problems != [{}, {}, {}]
  {
    var m: Arguments := map["run" := "migrate"];
    var b := Overridden(Written(m), map["port" := "5432"]);
    TaskReads();
    DecodesAsFlat(b, [DECLARED, WAITS], TASK);
    assert "port" in JustAttributes(b) && "port" !in Bottom(b);
    TaskOverrideIsReportedIff(b);
    RunAloneIsFine(m);
  }

  lemma RunAloneIsFine(m: Arguments)
    requires m == map["run" := "migrate"]
    ensures Decode(Written(m), [DECLARED, WAITS], TASK).problems == [{}, {}, {}]
  {
    TaskNames();
    FinalReadIsFine(m);
    assert Decode(Written(m), [], TASK).problems == [{}];
    PassesBy(m, [WAITS], [{}]);
    PassesBy(m, [DECLARED, WAITS], [{}, {}]);
  }

  lemma FinalReadIsFine(m: Arguments)
    requires m == map["run" := "migrate"]
    ensures Content(Written(m), TASK).1 == {}
  {
    TaskBodyNames();
  }

  /** A read that names nothing of the body, and requires nothing, changes nothing. */
  lemma PassesBy(m: Arguments, schemas: seq<seq<Argument>>, later: seq<set<Problem>>)
    requires schemas != [] && Required(schemas[0]) == {} && m.Keys !! Named(schemas[0])
    requires Decode(Written(m), schemas[1..], TASK).problems == later
    ensures Decode(Written(m), schemas, TASK).problems == [{}] + later
  {
    assert m - Named(schemas[0]) == m;
    assert MissingFrom(m, schemas[0]) == {};
  }

  lemma HeadsAndTails<T>(a: T, p: seq<T>, b: T, q: seq<T>)
    ensures [a] + p == [b] + q <==> a == b && p == q
  {
    assert ([a] + p)[1..] == p && ([b] + q)[1..] == q;
    assert ([a] + p)[0] == a && ([b] + q)[0] == b;
  }

  lemma SameMissingIff(all: Arguments, bottom: Arguments, schema: seq<Argument>)
    requires bottom.Keys <= all.Keys
    ensures MissingFrom(all, schema) == MissingFrom(bottom, schema) <==> Required(schema) !! all.Keys - bottom.Keys
  {
    if n :| n in Required(schema) && n in all && n !in bottom {
      assert Missing(n) in MissingFrom(bottom, schema) && Missing(n) !in MissingFrom(all, schema);
    }
  }

  lemma SameFinalProblemsIff(all: Arguments, bottom: Arguments, last: seq<Argument>)
    requires bottom.Keys <= all.Keys
    ensures Content(Written(all), last).1 == Content(Written(bottom), last).1
       <==> Required(last) !! all.Keys - bottom.Keys && all.Keys - bottom.Keys <= Named(last)
  {
    var p, q := Content(Written(all), last).1, Content(Written(bottom), last).1;
    if n :| n in Required(last) && n in all && n !in bottom {
      assert Missing(n) in q && Missing(n) !in p;
    } else if n :| n in all && n !in bottom && n !in Named(last) {
      assert Unsupported(n) in p && Unsupported(n) !in q;
    }
  }

  /** The contents are parts of all, no two of them with an argument in common. */
  ghost predicate Parts(contents: seq<Arguments>, all: Arguments) {
    && (forall i | 0 <= i < |contents| :: PartOf(contents[i], all))
    && (forall i, j | 0 <= i < j < |contents| :: contents[i].Keys !! contents[j].Keys)
  }

  ghost predicate PartOf(m: Arguments, all: Arguments) {
    forall n | n in m :: n in all && m[n] == all[n]
  }

  /** Each argument is handed out once, and from the override when that sets it. */
  lemma {:induction false} HandedOutOnce(b: Body, schemas: seq<seq<Argument>>, last: seq<Argument>)
    ensures Parts(Decode(b, schemas, last).contents, JustAttributes(b))
    decreases schemas
  {
    if schemas == [] {
      ContentReadsAsFlat(b, last);
      assert Decode(b, schemas, last).contents == [Content(b, last).0];
    } else {
      PartialReadsAsFlat(b, schemas[0]);
      var rest := PartialContent(b, schemas[0]).1;
      HandedOutOnce(rest, schemas[1..], last);
      OnePartMore(Decode(rest, schemas[1..], last).contents, JustAttributes(b), Named(schemas[0]));
    }
  }

  lemma OnePartMore(later: seq<Arguments>, all: Arguments, names: set<string>)
    requires Parts(later, all - names)
    ensures Parts([Only(all, names)] + later, all)
  {
    var contents := [Only(all, names)] + later;
    forall i | 0 <= i < |contents| ensures PartOf(contents[i], all) {
      if i > 0 { assert PartOf(later[i - 1], all - names); }
    }
    forall i, j | 0 <= i < j < |contents| ensures contents[i].Keys !! contents[j].Keys {
      assert contents[j] == later[j - 1] && PartOf(later[j - 1], all - names);
      if i > 0 { assert contents[i] == later[i - 1]; }
    }
  }

  // What a body refers to.

  /** The names an argument's text refers to. */
  type Reading = string -> set<string>

  function ReferredIn(m: Arguments, refs: Reading): set<string> {
    set n, r | n in m && n != "after" && r in refs(m[n]) :: r
  }

  /** The references collected from a body: from what it was written with, and from every
      override, whether or not the argument is replaced. Its own `after` is left out. */
  function Referred(b: Body, refs: Reading): set<string> {
    match b
    case Written(m) => ReferredIn(m, refs)
    case Overridden(base, over) => Referred(base, refs) + ReferredIn(over, refs)
  }

  /** What the arguments that overrides replace refer to. */
  function ReplacedRefs(b: Body, refs: Reading): set<string> {
    match b
    case Written(_) => {}
    case Overridden(base, over) =>
      ReplacedRefs(base, refs) + ReferredIn(Only(JustAttributes(base), over.Keys), refs)
  }

  lemma ReferredLaid(m: Arguments, over: Arguments, refs: Reading)
    ensures ReferredIn(m + over, refs) + ReferredIn(Only(m, over.Keys), refs) ==
        ReferredIn(m, refs) + ReferredIn(over, refs)
  {
    forall r ensures r in ReferredIn(m, refs) ==>
        r in ReferredIn(m + over, refs) || r in ReferredIn(Only(m, over.Keys), refs) {
      if r in ReferredIn(m, refs) {
        var n :| n in m && n != "after" && r in refs(m[n]);
        if n in over {
          assert n in Only(m, over.Keys);
        } else {
          assert n in m + over && (m + over)[n] == m[n];
        }
      }
    }
    forall r ensures r in ReferredIn(over, refs) ==> r in ReferredIn(m + over, refs) {
      if r in ReferredIn(over, refs) {
        var n :| n in over && n != "after" && r in refs(over[n]);
        assert n in m + over && (m + over)[n] == over[n];
      }
    }
  }

  /** A body refers to what the flat one does, and to what each replaced argument did. */
  lemma {:induction false} ReferencesAre(b: Body, refs: Reading)
    ensures Referred(b, refs) == Referred(Flat(b), refs) + ReplacedRefs(b, refs)
  {
    if b.Overridden? {
      ReferencesAre(b.base, refs);
      ReferredLaid(JustAttributes(b.base), b.over, refs);
    }
  }

  /** So a block under overrides depends on what the flat one does exactly when every
      argument they replace refers to nothing else; otherwise it still waits for what the
      replaced argument named. */
  lemma SameReferencesIff(b: Body, refs: Reading)
    ensures Referred(Flat(b), refs) <= Referred(b, refs)
    ensures Referred(b, refs) == Referred(Flat(b), refs) <==> ReplacedRefs(b, refs) <= Referred(Flat(b), refs)
  {
    ReferencesAre(b, refs);
  }

  /** A port that was another's, overridden by a number: the block still depends on the
      other. */
  lemma ReplacedReferenceStays(refs: Reading)
    requires refs("service.db.port") == {"db"} && refs("5432") == {}
    ensures var b := Overridden(Written(map["port" := "service.db.port"]), map["port" := "5432"]);
            Referred(b, refs) == {"db"} && Referred(Flat(b), refs) == {}
  {
    var m: Arguments := map["port" := "service.db.port"];
    var over: Arguments := map["port" := "5432"];
    assert m + over == over;
    assert ReferredIn(m, refs) == {"db"} by {
      assert "port" in m && m["port"] == "service.db.port";
    }
    assert ReferredIn(over, refs) == {};
  }

  // Laying overrides over a stack's blocks.

  /** A block: its header, which an override names, and its body. */
  datatype Block = Block(header: string, body: Body)

  function Laid(b: Block, overrides: map<string, Arguments>): Block {
    if b.header in overrides then b.(body := Overridden(b.body, overrides[b.header])) else b
  }

  /** Wraps every overridden block's body in place. An override that matches no block is an
      error that names its header. */
  method Apply(blocks: array<Block>, overrides: map<string, Arguments>) returns (stray: Option<string>)
    modifies blocks
    ensures forall i | 0 <= i < blocks.Length ::
              blocks[i].header == old(blocks[i].header) && blocks[i].body ==
                if blocks[i].header in overrides then Overridden(old(blocks[i].body), overrides[blocks[i].header])
                else old(blocks[i].body)
    ensures stray.None? <==>
        forall h | h in overrides :: exists i :: 0 <= i < blocks.Length && old(blocks[i].header) == h
    ensures stray.Some? ==> stray.value in overrides && forall i | 0 <= i < blocks.Length ::
        old(blocks[i].header) != stray.value
  {
    var used: set<string> := {};
    for i := 0 to blocks.Length
      invariant forall k | 0 <= k < blocks.Length ::
          blocks[k] == if k < i then Laid(old(blocks[k]), overrides) else old(blocks[k])
      invariant forall h :: h in used <==> h in overrides && exists k :: 0 <= k < i && old(blocks[k].header) == h
    {
      if blocks[i].header in overrides {
        used := used + {blocks[i].header};
        blocks[i] := Laid(blocks[i], overrides);
      }
    }
    var left := overrides.Keys - used;
    if left == {} {
      assert overrides.Keys <= used;
      return None;
    }
    var h :| h in left;
    stray := Some(h);
  }
}
