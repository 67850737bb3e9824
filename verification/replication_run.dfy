/** Every run of an instances subscription: registry changes, looks, sends, wakes,
    meter readings, deliveries, cuts and reconnects, in any interleaving. */
module ReplicationRun {
  import opened Replication
  import opened ReplicationFold

  /** Where the daemon's loop is on one connection: none, about to look, holding a frame
      made from what was sent before it, waiting for a wake, or resting after one. */
  datatype Phase =
    | Off | Ready | Sending(frame: Frame, was: map<string, View>, first: bool) | Waiting | Resting

  /** A frame on the wire, and the registry's version it brings its reader to. */
  datatype Sent = Sent(frame: Frame, version: nat)

  datatype State = State(
    versions: seq<seq<View>>, // history: every state of the registry, the newest last
    announced: nat,           // history: the newest version that signalled its change
    phase: Phase,
    wake: bool,               // the latched signal
    first: bool,
    last: map<string, View>,  // what the daemon last sent, by name
    looked: nat,              // history: the version the daemon last looked at
    wire: seq<Sent>,
    rows: seq<View>,          // the client's list
    shown: nat                // history: the version the client shows
  )
  {
    predicate Grown() { versions != [] }

    function Newest(): nat
      requires Grown()
    {
      |versions| - 1
    }

    /** The version the end of the wire leads to. */
    function Tail(): nat {
      if wire == [] then shown else wire[|wire| - 1].version
    }
  }

  datatype Action =
    | Change(now: seq<View>, announced: bool) | Connect | Look(frame: Frame) | Send
    | Readings(readings: seq<(string, nat)>) | Wake | Rest | Deliver | Cut

  const START := State([[]], 0, Off, false, true, map[], 0, [], [], 0)

  ghost predicate Can(s: State, a: Action, clean: Clean) {
    match a
    case Change(now, _) => DistinctNames(now) && CleanNames(now, clean)
    case Connect => s.phase.Off?
    case Look(frame) => s.phase.Ready? && s.Grown() && IsDiff(frame, s.versions[s.Newest()], s.last, s.first)
    case Send => s.phase.Sending?
    case Readings(_) => !s.phase.Off?
    case Wake => s.phase.Waiting? && s.wake
    case Rest => s.phase.Resting?
    case Deliver => s.wire != []
    case Cut => !s.phase.Off?
  }

  function Do(s: State, a: Action, clean: Clean): State
    requires s.Grown() && (a.Send? ==> s.phase.Sending?) && (a.Deliver? ==> s.wire != [])
  {
    match a
    case Change(now, announced) => Changed(s, now, announced)
    case Connect => s.(phase := Ready, wake := false, first := true, last := map[])
    case Look(frame) => Looked(s, frame)
    case Send => s.(phase := Waiting, wire := s.wire + [Sent(s.phase.frame, s.looked)])
    case Readings(readings) => s.(wire := s.wire + [Sent(Stats(readings), s.Tail())])
    case Wake => s.(phase := Resting, wake := false)
    case Rest => s.(phase := Ready)
    case Deliver => s.(rows := Applied(s.rows, s.wire[0].frame, clean), shown := s.wire[0].version, wire := s.wire[1..])
    case Cut => s.(phase := Off, wire := [])
  }

  /** A change that announces itself latches a wake; some changes do not. */
  function Changed(s: State, now: seq<View>, announced: bool): State {
    s.(versions := s.versions + [now],
       announced := if announced then |s.versions| else s.announced,
       wake := s.wake || announced)
  }

  /** A difference worth sending is sent; the first frame always is. */
  function Looked(s: State, frame: Frame): State
    requires s.Grown()
  {
    var worth := s.first || (frame.Instances? && (frame.views != [] || frame.removed != []));
    s.(phase := if worth then Sending(frame, s.last, s.first) else Waiting,
       first := false, last := ViewsByName(s.versions[s.Newest()]), looked := s.Newest())
  }

  /** What a client that shows version v shows. */
  ghost function Table(versions: seq<seq<View>>, v: nat, clean: Clean): map<string, string>
    requires v < |versions|
  {
    Bodies(ViewsByName(versions[v]), clean)
  }

  ghost predicate Versioned(s: State) {
    && s.Grown() && s.announced < |s.versions| && s.looked < |s.versions| && s.shown < |s.versions|
    && forall k | 0 <= k < |s.wire| :: s.wire[k].version < |s.versions|
  }

  ghost predicate Drawable(s: State, clean: Clean) {
    forall v | v in s.versions :: DistinctNames(v) && CleanNames(v, clean)
  }

  /** Versions only go forward: what is shown, what is on its way, what was looked at. */
  ghost predicate Forward(s: State) {
    && s.shown <= s.Tail() <= s.looked
    && (forall k | 0 <= k < |s.wire| :: s.shown <= s.wire[k].version)
    && forall j, k | 0 <= j < k < |s.wire| :: s.wire[j].version <= s.wire[k].version
  }

  /** No announced change is overlooked. */
  ghost predicate Awake(s: State) {
    s.phase.Off? || s.phase.Ready? || s.phase.Resting? || s.wake || s.announced <= s.looked
  }

  /** Each frame on the wire brings its reader to its version. */
  ghost predicate Leads(versions: seq<seq<View>>, rows: seq<View>, wire: seq<Sent>, clean: Clean)
    decreases wire
  {
    wire == [] ||
    var now := Applied(rows, wire[0].frame, clean);
    && wire[0].version < |versions| && Shows(now, Table(versions, wire[0].version, clean))
    && Leads(versions, now, wire[1..], clean)
  }

  /** What the daemon believes the end of the wire leads to. */
  ghost predicate Believed(s: State, clean: Clean)
    requires Versioned(s)
  {
    match s.phase
    case Off => s.wire == []
    case Sending(frame, was, first) =>
      && !s.first && s.last == ViewsByName(s.versions[s.looked])
      && IsDiff(frame, s.versions[s.looked], was, first)
      && if first then was == map[] else Bodies(was, clean) == Table(s.versions, TailOf(s), clean)
    case _ =>
      if s.first then s.phase.Ready? && s.last == map[]
      else s.last == ViewsByName(s.versions[s.looked]) && Bodies(s.last, clean) == Table(s.versions, TailOf(s), clean)
  }

  ghost function TailOf(s: State): (v: nat)
    requires Versioned(s)
    ensures v < |s.versions|
  {
    s.Tail()
  }

  ghost predicate Inv(s: State, clean: Clean) {
    && Versioned(s) && Drawable(s, clean) && Forward(s) && Awake(s) && Believed(s, clean)
    && Shows(s.rows, Table(s.versions, s.shown, clean)) && Leads(s.versions, s.rows, s.wire, clean)
  }

  ghost function End(rows: seq<View>, wire: seq<Sent>, clean: Clean): seq<View>
    decreases wire
  {
    if wire == [] then rows else End(Applied(rows, wire[0].frame, clean), wire[1..], clean)
  }

  lemma {:induction false} EndShows(versions: seq<seq<View>>, rows: seq<View>, wire: seq<Sent>, v: nat, clean: Clean)
    requires Leads(versions, rows, wire, clean)
    requires v < |versions| && Shows(rows, Table(versions, v, clean))
    ensures var t := if wire == [] then v else wire[|wire| - 1].version;
            t < |versions| && Shows(End(rows, wire, clean), Table(versions, t, clean))
    decreases wire
  {
    if wire != [] {
      EndShows(versions, Applied(rows, wire[0].frame, clean), wire[1..], wire[0].version, clean);
    }
  }

  lemma {:induction false} LeadsFurther(versions: seq<seq<View>>, rows: seq<View>, wire: seq<Sent>, more: Sent,
      clean: Clean)
    requires Leads(versions, rows, wire, clean) && more.version < |versions|
    requires Shows(Applied(End(rows, wire, clean), more.frame, clean), Table(versions, more.version, clean))
    ensures Leads(versions, rows, wire + [more], clean)
    decreases wire
  {
    if wire == [] {
      assert (wire + [more])[1..] == [];
    } else {
      LeadsFurther(versions, Applied(rows, wire[0].frame, clean), wire[1..], more, clean);
      assert (wire + [more])[1..] == wire[1..] + [more];
    }
  }

  lemma {:induction false} LeadsLater(versions: seq<seq<View>>, later: seq<seq<View>>, rows: seq<View>,
      wire: seq<Sent>, clean: Clean)
    requires Leads(versions, rows, wire, clean) && versions <= later
    ensures Leads(later, rows, wire, clean)
    decreases wire
  {
    if wire != [] {
      LeadsLater(versions, later, Applied(rows, wire[0].frame, clean), wire[1..], clean);
    }
  }

  lemma ChangeKeepsInv(s: State, now: seq<View>, announced: bool, clean: Clean)
    requires Inv(s, clean) && DistinctNames(now) && CleanNames(now, clean)
    ensures Inv(Changed(s, now, announced), clean)
  {
    ChangeKeepsForward(s, now, announced);
    ChangeKeepsDrawable(s, now, announced, clean);
    ChangeBelieved(s, now, announced, clean);
    LeadsLater(s.versions, s.versions + [now], s.rows, s.wire, clean);
  }

  lemma ChangeKeepsForward(s: State, now: seq<View>, announced: bool)
    requires Versioned(s) && Forward(s) && Awake(s)
    ensures var s' := Changed(s, now, announced); Versioned(s') && Forward(s') && Awake(s')
  {
    assert Changed(s, now, announced).Tail() == s.Tail();
  }

  lemma ChangeKeepsDrawable(s: State, now: seq<View>, announced: bool, clean: Clean)
    requires Drawable(s, clean) && DistinctNames(now) && CleanNames(now, clean)
    ensures Drawable(Changed(s, now, announced), clean)
  {
    forall v | v in Changed(s, now, announced).versions ensures DistinctNames(v) && CleanNames(v, clean) {
      if v != now { assert v in s.versions; }
    }
  }

  lemma ChangeBelieved(s: State, now: seq<View>, announced: bool, clean: Clean)
    requires Versioned(s) && Believed(s, clean)
    ensures var s' := Changed(s, now, announced);
            Versioned(s') && Believed(s', clean)
            && Table(s'.versions, s'.shown, clean) == Table(s.versions, s.shown, clean)
  {
    var s' := Changed(s, now, announced);
    assert s'.versions[TailOf(s')] == s.versions[TailOf(s)] && s'.versions[s'.looked] == s.versions[s.looked];
  }

  lemma ConnectKeepsInv(s: State, clean: Clean)
    requires Inv(s, clean) && s.phase.Off?
    ensures Inv(Do(s, Connect, clean), clean)
  {
  }

  lemma LookKeepsInv(s: State, frame: Frame, clean: Clean)
    requires Inv(s, clean) && Can(s, Look(frame), clean)
    ensures Inv(Looked(s, frame), clean)
  {
    var s' := Looked(s, frame);
    if s'.phase.Waiting? {
      NothingToSend(s, frame, clean);
    }
  }

  /** A difference not worth sending leaves the table as it was. */
  lemma NothingToSend(s: State, frame: Frame, clean: Clean)
    requires Drawable(s, clean) && Can(s, Look(frame), clean) && !s.first && frame.views == [] && frame.removed == []
    ensures Bodies(ViewsByName(s.versions[s.Newest()]), clean) == Bodies(s.last, clean)
  {
    var now := s.versions[s.Newest()];
    assert now in s.versions;
    ChangesMakeNow(now, s.last, clean, frame.removed);
    assert Bodies(s.last, clean) + Bodies(ViewsByName([]), clean) - NameSet([]) == Bodies(s.last, clean);
  }

  /** Putting a frame on the wire that makes its version of the one before. */
  lemma SentKeepsWire(s: State, more: Sent, clean: Clean)
    requires Inv(s, clean) && s.Tail() <= more.version <= s.looked
    requires Shows(Applied(End(s.rows, s.wire, clean), more.frame, clean), Table(s.versions, more.version, clean))
    ensures Versioned(s.(wire := s.wire + [more])) && Forward(s.(wire := s.wire + [more]))
    ensures Leads(s.versions, s.rows, s.wire + [more], clean)
  {
    LeadsFurther(s.versions, s.rows, s.wire, more, clean);
  }

  lemma PendingShows(s: State, clean: Clean)
    requires Inv(s, clean) && s.phase.Sending?
    ensures Shows(Applied(End(s.rows, s.wire, clean), s.phase.frame, clean), Table(s.versions, s.looked, clean))
  {
    TailShows(s, clean);
    assert s.versions[s.looked] in s.versions;
    DiffShows(End(s.rows, s.wire, clean), s.phase.frame, s.versions[s.looked], s.phase.was, s.phase.first, clean);
  }

  lemma SendKeepsInv(s: State, clean: Clean)
    requires Inv(s, clean) && s.phase.Sending?
    ensures Inv(Do(s, Send, clean), clean)
  {
    PendingShows(s, clean);
    SentKeepsWire(s, Sent(s.phase.frame, s.looked), clean);
    SendBelieved(s, clean);
  }

  lemma SendBelieved(s: State, clean: Clean)
    requires Versioned(s) && Believed(s, clean) && s.phase.Sending?
    ensures Versioned(Do(s, Send, clean)) && Believed(Do(s, Send, clean), clean)
  {
  }

  lemma ReadingsKeepInv(s: State, readings: seq<(string, nat)>, clean: Clean)
    requires Inv(s, clean) && !s.phase.Off?
    ensures Inv(Do(s, Readings(readings), clean), clean)
  {
    ReadingsShow(s, readings, clean);
    SentKeepsWire(s, Sent(Stats(readings), s.Tail()), clean);
    ReadingsBelieved(s, readings, clean);
  }

  lemma ReadingsShow(s: State, readings: seq<(string, nat)>, clean: Clean)
    requires Inv(s, clean)
    ensures Shows(Applied(End(s.rows, s.wire, clean), Stats(readings), clean), Table(s.versions, TailOf(s), clean))
  {
    TailShows(s, clean);
    MetersShow(End(s.rows, s.wire, clean), Table(s.versions, TailOf(s), clean), readings);
  }

  lemma TailShows(s: State, clean: Clean)
    requires Versioned(s) && Leads(s.versions, s.rows, s.wire, clean)
    requires Shows(s.rows, Table(s.versions, s.shown, clean))
    ensures Shows(End(s.rows, s.wire, clean), Table(s.versions, TailOf(s), clean))
  {
    EndShows(s.versions, s.rows, s.wire, s.shown, clean);
  }

  lemma ReadingsBelieved(s: State, readings: seq<(string, nat)>, clean: Clean)
    requires Versioned(s) && Believed(s, clean) && !s.phase.Off?
    ensures var s' := Do(s, Readings(readings), clean);
            Versioned(s') && s'.Tail() == s.Tail() && Believed(s', clean)
  {
  }

  lemma DeliverKeepsInv(s: State, clean: Clean)
    requires Inv(s, clean) && s.wire != []
    ensures Inv(Do(s, Deliver, clean), clean)
  {
    DeliverKeepsTail(s, clean);
    DeliverKeepsForward(s, clean);
  }

  lemma DeliverKeepsTail(s: State, clean: Clean)
    requires Versioned(s) && s.wire != []
    ensures Versioned(Do(s, Deliver, clean)) && Do(s, Deliver, clean).Tail() == s.Tail()
    ensures Believed(s, clean) ==> Believed(Do(s, Deliver, clean), clean)
  {
  }

  lemma DeliverKeepsForward(s: State, clean: Clean)
    requires Versioned(s) && Forward(s) && s.wire != []
    ensures Forward(Do(s, Deliver, clean))
  {
    DeliverKeepsTail(s, clean);
  }

  lemma QuietStepKeepsInv(s: State, a: Action, clean: Clean)
    requires Inv(s, clean) && Can(s, a, clean) && (a.Wake? || a.Rest? || a.Cut?)
    ensures Inv(Do(s, a, clean), clean)
  {
  }

  lemma StepKeepsInv(s: State, a: Action, clean: Clean)
    requires Inv(s, clean) && Can(s, a, clean)
    ensures Inv(Do(s, a, clean), clean)
    ensures s.shown <= Do(s, a, clean).shown && s.versions <= Do(s, a, clean).versions
  {
    match a
    case Change(now, announced) => ChangeKeepsInv(s, now, announced, clean);
    case Connect => ConnectKeepsInv(s, clean);
    case Look(frame) => LookKeepsInv(s, frame, clean);
    case Send => SendKeepsInv(s, clean);
    case Readings(readings) => ReadingsKeepInv(s, readings, clean);
    case Deliver => DeliverKeepsInv(s, clean);
    case _ => QuietStepKeepsInv(s, a, clean);
  }

  /** A run: every action is possible where it happens. */
  ghost predicate Possible(s: State, actions: seq<Action>, clean: Clean)
    decreases actions
  {
    actions == [] || (s.Grown() && Can(s, actions[0], clean) && Possible(Do(s, actions[0], clean), actions[1..], clean))
  }

  ghost function After(s: State, actions: seq<Action>, clean: Clean): State
    requires Possible(s, actions, clean)
    decreases actions
  {
    if actions == [] then s else After(Do(s, actions[0], clean), actions[1..], clean)
  }

  lemma {:induction false} RunKeepsInv(s: State, actions: seq<Action>, clean: Clean)
    requires Inv(s, clean) && Possible(s, actions, clean)
    ensures Inv(After(s, actions, clean), clean)
    ensures s.shown <= After(s, actions, clean).shown && s.versions <= After(s, actions, clean).versions
    decreases actions
  {
    if actions != [] {
      StepKeepsInv(s, actions[0], clean);
      RunKeepsInv(Do(s, actions[0], clean), actions[1..], clean);
    }
  }

  lemma StartHolds(clean: Clean)
    ensures Inv(START, clean)
  {
  }

  /** Over any run the client shows, whole and one row to a name, some state the registry
      was in; and what it shows later is never an older state, across reconnects too. */
  lemma ClientShowsOneVersion(before: seq<Action>, more: seq<Action>, clean: Clean)
    requires Possible(START, before, clean) && Possible(After(START, before, clean), more, clean)
    ensures var s, t := After(START, before, clean), After(After(START, before, clean), more, clean);
            && s.shown < |s.versions| && Shows(s.rows, Table(s.versions, s.shown, clean))
            && s.shown <= t.shown < |t.versions| && Shows(t.rows, Table(t.versions, t.shown, clean))
            && s.versions <= t.versions
  {
    StartHolds(clean);
    RunKeepsInv(START, before, clean);
    RunKeepsInv(After(START, before, clean), more, clean);
  }

  /** The daemon waits with no wake latched, and the client has read everything sent. */
  predicate Settled(s: State) {
    s.phase.Waiting? && !s.wake && s.wire == []
  }

  lemma ShowsOneTable(rows: seq<View>, a: map<string, string>, b: map<string, string>)
    requires Shows(rows, a) && Shows(rows, b)
    ensures a == b
  {
    forall n | n in a ensures n in b && a[n] == b[n] {
      assert Listed(rows, n);
    }
    forall n | n in b ensures n in a {
      assert Listed(rows, n);
    }
  }

  /** No wakeup is lost: a settled client shows the version the daemon last looked at, which
      is no older than the newest announced one. So after an announced change it shows what
      the registry is now; and after silent ones, exactly when they make no difference to
      the table of the version looked at. */
  lemma SettledShowsNowIff(actions: seq<Action>, clean: Clean)
    requires Possible(START, actions, clean) && Settled(After(START, actions, clean))
    ensures var s := After(START, actions, clean);
            && s.announced <= s.looked < |s.versions| && Shows(s.rows, Table(s.versions, s.looked, clean))
            && (s.announced == |s.versions| - 1 ==> Shows(s.rows, Table(s.versions, |s.versions| - 1, clean)))
            && (Shows(s.rows, Table(s.versions, |s.versions| - 1, clean)) <==>
                Table(s.versions, s.looked, clean) == Table(s.versions, |s.versions| - 1, clean))
  {
    StartHolds(clean);
    RunKeepsInv(START, actions, clean);
    var s := After(START, actions, clean);
    assert Shows(s.rows, Table(s.versions, s.looked, clean));
    if Shows(s.rows, Table(s.versions, |s.versions| - 1, clean)) {
      ShowsOneTable(s.rows, Table(s.versions, s.looked, clean), Table(s.versions, |s.versions| - 1, clean));
    }
  }

  /** A change that is not announced (a block added to the stack before it first wakes, an
      idle policy) stays unseen however long the client waits. */
  lemma SilentChangeIsUnseen(v: View, clean: Clean)
    requires clean.name(v.name) == v.name
    ensures var actions := [Connect, Look(Instances(true, [], [])), Send, Deliver, Change([v], false)];
            && Possible(START, actions, clean) && Settled(After(START, actions, clean))
            && After(START, actions, clean).rows == [] && After(START, actions, clean).versions == [[], [v]]
  {
    var empty := Instances(true, [], []);
    var s1 := Do(START, Connect, clean);
    var s2 := Do(s1, Look(empty), clean);
    var s3 := Do(s2, Send, clean);
    var s4 := Do(s3, Deliver, clean);
    StepFirst(s4, [Change([v], false)], clean);
    StepFirst(s3, [Deliver, Change([v], false)], clean);
    StepFirst(s2, [Send, Deliver, Change([v], false)], clean);
    StepFirst(s1, [Look(empty), Send, Deliver, Change([v], false)], clean);
    StepFirst(START, [Connect, Look(empty), Send, Deliver, Change([v], false)], clean);
  }

  lemma StepFirst(s: State, actions: seq<Action>, clean: Clean)
    requires s.Grown() && actions != [] && Can(s, actions[0], clean)
    requires Possible(Do(s, actions[0], clean), actions[1..], clean)
    ensures Possible(s, actions, clean)
    ensures After(s, actions, clean) == After(Do(s, actions[0], clean), actions[1..], clean)
  {
  }

  /** A removal names the instance as it was declared and the row as it is drawn: when the
      two differ the row stays. */
  lemma UncleanRowOutlivesItsInstance(v: View, clean: Clean)
    ensures var shown := Applied([], Instances(true, [v], []), clean);
            Applied(shown, Instances(false, [], [v.name]), clean) == if clean.name(v.name) == v.name then [] else shown
  {
    var shown := Applied([], Instances(true, [v], []), clean);
    assert shown == [clean.View(v)];
    assert DropAll(shown, [v.name]) == DropNamed(shown, v.name);
    assert DropNamed(shown, v.name) == if clean.name(v.name) == v.name then [] else shown;
  }
}
