/** How a block's references and its after list become dependencies: parseAfter, and the
    two derivations instanceDeps (modules and apps) and bootEdges (services and tasks). */
module Edges {
  import opened Graphs
  import opened Stack

  /** An entry of an after list: a reference, or a call around one. None is anything that
      is not a reference to a declared block. */
  datatype Entry = Bare(ref: Option<Ref>) | Call(fn: string, args: seq<Option<Ref>>)

  function Waits(fn: string): Option<Condition> {
    match fn
    case "started" => Some(Started)
    case "lazy" => Some(Lazy)
    case "ready" => Some(Healthy)
    case "healthy" => Some(Healthy)
    case _ => None
  }

  /** What an entry waits for, and how; None when it is refused. */
  function Read(e: Entry): Option<(Ref, Condition)> {
    match e
    case Bare(Some(ref)) => Some((ref, Healthy))
    case Bare(None) => None
    case Call(fn, args) =>
      if Waits(fn).Some? && |args| == 1 && args[0].Some? then Some((args[0].value, Waits(fn).value)) else None
  }

  datatype After = After(refs: seq<Ref>, conds: map<string, Condition>) | Refused

  /** How n is waited for: as its last entry that is not a bare wait says, else until it
      is healthy. */
  function Waited(entries: seq<Entry>, n: string): Condition {
    if entries == [] then Healthy
    else match Read(entries[|entries| - 1])
      case Some((ref, cond)) =>
        if ref.name == n && cond != Healthy then cond else Waited(entries[..|entries| - 1], n)
      case None => Waited(entries[..|entries| - 1], n)
  }

  predicate Readable(entries: seq<Entry>) {
    forall e | e in entries :: Read(e).Some?
  }

  function Awaited(entries: seq<Entry>): (refs: seq<Ref>)
    requires Readable(entries)
    ensures |refs| == |entries|
  {
    seq(|entries|, i requires 0 <= i < |entries| => assert entries[i] in entries; Read(entries[i]).value.0)
  }

  function CondOf(conds: map<string, Condition>, n: string): Condition {
    if n in conds then conds[n] else Healthy
  }

  method ParseAfter(entries: seq<Entry>) returns (r: After)
    ensures r.After? <==> Readable(entries)
    ensures r.After? ==> r.refs == Awaited(entries)
    ensures r.After? ==> forall n :: CondOf(r.conds, n) == Waited(entries, n)
  {
    var refs, conds := [], map[];
    for k := 0 to |entries|
      invariant Readable(entries[..k]) && refs == Awaited(entries[..k])
      invariant forall n :: CondOf(conds, n) == Waited(entries[..k], n)
    {
      var got := Read(entries[k]);
      if got.None? {
        assert entries[k] in entries;
        return Refused;
      }
      assert entries[..k + 1][..k] == entries[..k];
      refs := refs + [got.value.0];
      if got.value.1 != Healthy {
        conds := conds[got.value.0.name := got.value.1];
      }
    }
    assert entries[..|entries|] == entries;
    return After(refs, conds);
  }

  /** An entry as it is written: a reference, or one call of started, lazy, ready or
      healthy around one. */
  ghost predicate WellWritten(e: Entry) {
    match e
    case Bare(ref) => ref.Some?
    case Call(fn, args) => fn in {"started", "lazy", "ready", "healthy"} && |args| == 1 && args[0].Some?
  }

  /** The entry asks for n to be only started, or to be woken later. */
  ghost predicate AsksFor(e: Entry, fn: string, n: string) {
    e.Call? && e.fn == fn && |e.args| == 1 && e.args[0].Some? && e.args[0].value.name == n
  }

  ghost predicate LastAsks(entries: seq<Entry>, fn: string, n: string) {
    exists k :: 0 <= k < |entries| && AsksFor(entries[k], fn, n)
      && forall j | k < j < |entries| :: !AsksFor(entries[j], "started", n) && !AsksFor(entries[j], "lazy", n)
  }

  /** An after list is accepted exactly when every entry is well written, and its references
      are those written, in order. */
  lemma ReadableIff(entries: seq<Entry>)
    ensures Readable(entries) <==> forall e | e in entries :: WellWritten(e)
    ensures Readable(entries) ==> forall k | 0 <= k < |entries| ::
              Some(Awaited(entries)[k]) == if entries[k].Bare? then entries[k].ref else entries[k].args[0]
  {
    forall e | e in entries ensures Read(e).Some? <==> WellWritten(e) {
    }
  }

  /** A block is waited for as the last entry that is more than a wait for health says:
      until it is started, or not at all before it is needed; and else until it is healthy. */
  lemma {:induction false} WaitedIs(entries: seq<Entry>, n: string)
    ensures Waited(entries, n) == Started <==> LastAsks(entries, "started", n)
    ensures Waited(entries, n) == Lazy <==> LastAsks(entries, "lazy", n)
  {
    if entries != [] {
      var init, last := entries[..|entries| - 1], entries[|entries| - 1];
      WaitedIs(init, n);
      LastAsksIs(entries, "started", n);
      LastAsksIs(entries, "lazy", n);
    }
  }

  lemma LastAsksIs(entries: seq<Entry>, fn: string, n: string)
    requires entries != []
    ensures var last := entries[|entries| - 1];
            LastAsks(entries, fn, n) <==>
            (|| AsksFor(last, fn, n)
             || (&& LastAsks(entries[..|entries| - 1], fn, n)
                 && !AsksFor(last, "started", n) && !AsksFor(last, "lazy", n)))
  {
    var init, last := entries[..|entries| - 1], entries[|entries| - 1];
    if AsksFor(last, fn, n) {
      assert entries[|entries| - 1] == last;
    }
    if LastAsks(init, fn, n) && !AsksFor(last, "started", n) && !AsksFor(last, "lazy", n) {
      var k :| 0 <= k < |init| && AsksFor(init[k], fn, n)
        && forall j | k < j < |init| :: !AsksFor(init[j], "started", n) && !AsksFor(init[j], "lazy", n);
      assert AsksFor(entries[k], fn, n);
    }
  }

  // The derivations.

  /** Every name but self, once, in the order of first mention. */
  function FirstMentions(self: string, names: seq<string>): (r: seq<string>)
    ensures NoDuplicates(r)
    ensures forall n :: n in r <==> n in names && n != self
  {
    if names == [] then []
    else
      var before, n := FirstMentions(self, names[..|names| - 1]), names[|names| - 1];
      assert names == names[..|names| - 1] + [n];
      if n == self || n in before then before else before + [n]
  }

  function Conditioned(order: seq<string>, conds: map<string, Condition>): (deps: seq<Dependency>)
    ensures DepNames(deps) == order
  {
    seq(|order|, i requires 0 <= i < |order| => Dependency(order[i], CondOf(conds, order[i])))
  }

  /** The dependencies both derivations must come to. */
  function Dependencies(self: string, names: seq<string>, conds: map<string, Condition>): (deps: seq<Dependency>)
    ensures DepNames(deps) == FirstMentions(self, names)
  {
    Conditioned(FirstMentions(self, names), conds)
  }

  /** What instanceDeps has recorded after reading names. */
  ghost predicate Recorded(self: string, names: seq<string>, cond: map<string, Condition>, order: seq<string>) {
    && order == FirstMentions(self, names)
    && (forall n :: n in cond <==> n in order)
    && (forall n | n in cond :: cond[n] == Healthy)
  }

  /** Records one reference, unless it is the block itself or already known. */
  method AddEdge(self: string, n: string, cond: map<string, Condition>, order: seq<string>, ghost names: seq<string>)
    returns (cond': map<string, Condition>, order': seq<string>)
    requires Recorded(self, names, cond, order)
    ensures Recorded(self, names + [n], cond', order')
  {
    assert (names + [n])[..|names|] == names;
    cond', order' := cond, order;
    if n != self && n !in cond {
      order' := order + [n];
      cond' := cond[n := Healthy];
    }
  }

  datatype Derived = Derived(deps: seq<Dependency>) | SelfReference

  /** The dependencies of a module or an app. A block that reads its own attributes is an
      error; one that waits for itself is not, and the wait is dropped. */
  method InstanceDeps(self: string, refs: seq<Ref>, after: seq<Ref>, waits: map<string, Condition>) returns (r: Derived)
    ensures r.SelfReference? <==> self in RefNames(refs)
    ensures r.Derived? ==> r.deps == Dependencies(self, RefNames(refs) + RefNames(after), waits)
  {
    var cond, order;
    r, cond, order := EdgesOfRefs(self, refs);
    if r.SelfReference? {
      return;
    }
    cond, order := EdgesOfAfter(self, after, cond, order, RefNames(refs));
    var deps := WithConditions(order, cond + waits, waits);
    return Derived(deps);
  }

  /** The loop over the references. */
  method EdgesOfRefs(self: string, refs: seq<Ref>)
      returns (r: Derived, cond: map<string, Condition>, order: seq<string>)
    ensures r.SelfReference? <==> self in RefNames(refs)
    ensures r.Derived? ==> Recorded(self, RefNames(refs), cond, order)
  {
    cond, order := map[], [];
    ghost var names := RefNames(refs);
    for i := 0 to |refs|
      invariant Recorded(self, names[..i], cond, order) && self !in names[..i]
    {
      if refs[i].name == self {
        assert names[i] == self;
        return SelfReference, cond, order;
      }
      assert names[..i + 1] == names[..i] + [refs[i].name];
      cond, order := AddEdge(self, refs[i].name, cond, order, names[..i]);
    }
    assert names[..|refs|] == names;
    r := Derived([]);
  }

  /** The loop over the entries of after. */
  method EdgesOfAfter(self: string, after: seq<Ref>, cond: map<string, Condition>, order: seq<string>,
      ghost names: seq<string>) returns (cond': map<string, Condition>, order': seq<string>)
    requires Recorded(self, names, cond, order)
    ensures Recorded(self, names + RefNames(after), cond', order')
  {
    cond', order' := cond, order;
    ghost var waits := RefNames(after);
    assert names + waits[..0] == names;
    for i := 0 to |after|
      invariant Recorded(self, names + waits[..i], cond', order')
    {
      assert names + waits[..i + 1] == names + waits[..i] + [after[i].name];
      cond', order' := AddEdge(self, after[i].name, cond', order', names + waits[..i]);
    }
    assert waits[..|waits|] == waits;
  }

  method WithConditions(order: seq<string>, cond: map<string, Condition>, ghost waits: map<string, Condition>)
    returns (deps: seq<Dependency>)
    requires forall n | n in order :: n in cond && cond[n] == CondOf(waits, n)
    ensures deps == Conditioned(order, waits)
  {
    deps := [];
    for i := 0 to |order|
      invariant |deps| == i
      invariant forall j | 0 <= j < i :: deps[j] == Dependency(order[j], CondOf(waits, order[j]))
    {
      assert order[i] in order;
      deps := deps + [Dependency(order[i], cond[order[i]])];
    }
  }

  /** Where each dependency stands in the list. */
  ghost predicate Placed(deps: seq<Dependency>, at: map<string, int>) {
    && (forall i | 0 <= i < |deps| :: deps[i].name in at && at[deps[i].name] == i)
    && (forall n | n in at :: 0 <= at[n] < |deps| && deps[at[n]].name == n)
  }

  /** The dependencies of a service or a task. */
  method BootEdges(self: string, refs: seq<Ref>, after: seq<Ref>, conds: map<string, Condition>)
      returns (deps: seq<Dependency>)
    ensures deps == Dependencies(self, RefNames(refs) + RefNames(after), conds)
  {
    var all := refs + after;
    ghost var names := RefNames(refs) + RefNames(after);
    var at := map[];
    deps := [];
    for i := 0 to |all|
      invariant Placed(deps, at)
      invariant DepNames(deps) == FirstMentions(self, names[..i])
      invariant forall d | d in deps :: d.condition == Healthy
    {
      var n := all[i].name;
      assert names[..i + 1][..i] == names[..i] && names[i] == n;
      if n != self && n !in at {
        assert n !in DepNames(deps) && DepNames(deps + [Dependency(n, Healthy)]) == DepNames(deps) + [n];
        at := at[n := |deps|];
        deps := deps + [Dependency(n, Healthy)];
      }
    }
    assert names[..|names|] == names;
    deps := SetConditions(deps, at, conds);
    ghost var want := Dependencies(self, names, conds);
    assert forall j | 0 <= j < |deps| :: deps[j] == want[j];
  }

  /** Sets each named dependency's condition in place, taking the names in any order. */
  method SetConditions(start: seq<Dependency>, at: map<string, int>, conds: map<string, Condition>)
      returns (deps: seq<Dependency>)
    requires Placed(start, at)
    requires forall d | d in start :: d.condition == Healthy
    ensures DepNames(deps) == DepNames(start)
    ensures forall i | 0 <= i < |deps| :: deps[i] == Dependency(start[i].name, CondOf(conds, start[i].name))
  {
    deps := start;
    var left := conds.Keys;
    while left != {}
      invariant left <= conds.Keys && |deps| == |start|
      invariant forall i | 0 <= i < |deps| ::
                  deps[i] == Dependency(start[i].name,
                                        if start[i].name in left then Healthy else CondOf(conds, start[i].name))
      decreases left
    {
      var n :| n in left;
      if n in at {
        deps := deps[at[n] := deps[at[n]].(condition := conds[n])];
      }
      left := left - {n};
    }
  }

  /** Dependencies keep the order of first mention: of two, the earlier one is named
      before any mention of the later one. */
  lemma FirstMentionOrder(self: string, names: seq<string>, i: nat, j: nat)
    requires i < j < |FirstMentions(self, names)|
    ensures exists k :: 0 <= k < |names| && names[k] == FirstMentions(self, names)[i]
                     && FirstMentions(self, names)[j] !in names[..k]
    decreases |names|
  {
    var init, n := names[..|names| - 1], names[|names| - 1];
    var before := FirstMentions(self, init);
    if j < |before| {
      FirstMentionOrder(self, init, i, j);
      var k :| 0 <= k < |init| && init[k] == before[i] && before[j] !in init[..k];
      assert names[..k] == init[..k];
    } else {
      assert before[i] in before;
      var k :| 0 <= k < |init| && init[k] == before[i];
      assert names[k] == before[i];
      assert n !in init;
      assert n !in names[..k];
    }
  }

  /** A block decoded with nothing else declared depends on nothing. */
  lemma {:induction false} IsolatedBlockHasNoDependencies(self: string, names: seq<string>,
      conds: map<string, Condition>)
    requires forall i | 0 <= i < |names| :: names[i] == self
    ensures Dependencies(self, names, conds) == []
  {
    if names != [] {
      IsolatedBlockHasNoDependencies(self, names[..|names| - 1], conds);
    }
  }
}
