/** Every run of a journal subscription: recording, forgetting, feed drops, disk reads,
    sends, deliveries, cuts and reconnects, in any interleaving. */
module JournalRun {
  import opened Stack
  import opened Journal

  /** Where the daemon's side of one connection is: none, subscribed but not yet read
      (since which event), or following the live feed. */
  datatype Phase = Off | Reading(since: nat) | Live

  datatype State = State(
    seq_: nat,          // the newest event recorded
    kept: nat,          // the oldest event the disk still keeps
    phase: Phase,
    feed: seq<nat>,     // the live channel
    held: Option<nat>,  // an event taken off it and not yet handled
    last: nat,          // the daemon's last
    out: seq<nat>,      // what the daemon is sending
    wire: seq<nat>,     // sent and not yet received
    log: seq<nat>,      // everything the client has received, over all its connections
    lastSeq: nat,       // what the client resumes after
    holes: set<nat>,    // history: events a disk read should have answered and could not
    offered: nat        // history: the newest event this connection was given a chance at
  )
  {
    function Disk(after: nat): seq<nat> {
      Numbers(Max(kept, after + 1), seq_)
    }

    function Queue(): seq<nat> {
      (if held.Some? then [held.value] else []) + feed
    }

    function Stream(): seq<nat> {
      log + wire + out
    }
  }

  datatype Action =
    | Record | Forget(kept: nat) | Connect(fromNow: bool) | Read | Send | Take | Handle | Deliver | Cut

  const START := State(0, 1, Off, [], None, 0, [], [], [], 0, {}, 0)

  predicate Can(s: State, a: Action) {
    match a
    case Record => true
    // the newest event is always on disk: rotation keeps the file it is written to
    case Forget(k) => s.kept <= k <= s.seq_
    // a client that has seen an event resumes after it; one that has not asks for
    // everything kept, or for events from now on
    case Connect(fromNow) => s.phase.Off? && (fromNow ==> s.log == [])
    case Read => s.phase.Reading?
    case Send => s.out != []
    case Take => s.phase.Live? && s.out == [] && s.held.None? && s.feed != []
    case Handle => s.phase.Live? && s.out == [] && s.held.Some?
    case Deliver => s.wire != []
    case Cut => !s.phase.Off?
  }

  /** The events a read after last found gone, up to but not including e. */
  function Gone(s: State, last: nat, e: nat): set<nat> {
    var gone := Numbers(last + 1, (if s.kept < e then s.kept else e) - 1);
    set m | m in gone
  }

  function Do(s: State, a: Action): State
    requires Can(s, a)
  {
    match a
    case Record => Recorded(s)
    case Forget(k) => s.(kept := k)
    case Connect(fromNow) => Connected(s, fromNow)
    case Read => ReadPast(s)
    case Send => s.(wire := s.wire + [s.out[0]], out := s.out[1..])
    case Take => s.(held := Some(s.feed[0]), feed := s.feed[1..])
    case Handle => Handled(s)
    case Deliver => Delivered(s)
    case Cut => s.(phase := Off, feed := [], held := None, out := [], wire := [])
  }

  /** An event is on disk first, then offered to the feed, which drops it when full. */
  function Recorded(s: State): State {
    var e := s.seq_ + 1;
    if !s.phase.Off? && |s.feed| < FEED then s.(seq_ := e, feed := s.feed + [e], offered := e)
    else s.(seq_ := e)
  }

  function Connected(s: State, fromNow: bool): State {
    s.(phase := if fromNow then Live else Reading(s.lastSeq),
       feed := [], held := None, last := 0, out := [], offered := s.seq_)
  }

  function ReadPast(s: State): State
    requires s.phase.Reading?
  {
    var past := s.Disk(s.phase.since);
    s.(phase := Live, out := past, last := if past == [] then 0 else past[|past| - 1], offered := s.seq_,
       holes := if s.log == [] then s.holes else s.holes + Gone(s, s.phase.since, s.seq_ + 1))
  }

  function Handled(s: State): State
    requires s.held.Some?
  {
    var e := s.held.value;
    s.(held := None, out := Batch(s.last, e, s.Disk(s.last)), last := Max(s.last, e),
       holes := if s.last != 0 && e > s.last + 1 then s.holes + Gone(s, s.last, e) else s.holes)
  }

  function Delivered(s: State): State
    requires s.wire != []
  {
    s.(log := s.log + [s.wire[0]], wire := s.wire[1..], lastSeq := Max(s.lastSeq, s.wire[0]))
  }

  /** Strictly increasing, and nothing between two neighbours but what the disk had lost. */
  ghost predicate Faithful(q: seq<nat>, holes: set<nat>) {
    && Increasing(q)
    && forall i, m | 0 < i < |q| && q[i - 1] < m < q[i] :: m in holes
  }

  ghost predicate Bounded(q: seq<nat>, hi: nat) {
    forall i | 0 <= i < |q| :: 1 <= q[i] <= hi
  }

  /** What the queue and the stream hold was recorded, and is in order. */
  ghost predicate Ordered(s: State) {
    && 1 <= s.kept <= Max(1, s.seq_)
    && Bounded(s.Stream(), s.seq_) && Bounded(s.Queue(), s.seq_) && Increasing(s.Queue())
    && s.lastSeq == (if s.log == [] then 0 else s.log[|s.log| - 1])
  }

  /** What the daemon's side of the connection knows, phase by phase. */
  ghost predicate Phased(s: State) {
    match s.phase
    case Off => s.wire == [] && s.out == [] && s.Queue() == []
    case Reading(since) =>
      && since == s.lastSeq && s.wire == [] && s.out == [] && s.held.None?
      && (forall i | 0 <= i < |s.feed| :: since < s.feed[i])
    case Live =>
      && (s.last != 0 ==> s.Stream() != [] && s.last == s.Stream()[|s.Stream()| - 1])
      && (s.last == 0 ==> s.wire == [] && s.out == [] && (s.log != [] ==> NextFollows(s)))
  }

  /** Nothing sent yet on a resumed connection: the next live event follows the last one
      the client saw, because an empty feed drops nothing. */
  ghost predicate NextFollows(s: State) {
    if s.Queue() == [] then s.seq_ == s.lastSeq else s.Queue()[0] == s.lastSeq + 1
  }

  /** The newest event offered is at the end of the queue, or has been sent already. */
  ghost predicate Caught(s: State) {
    s.phase.Live? ==>
      && s.last <= s.offered <= s.seq_
      && (forall i | 0 <= i < |s.Queue()| :: s.Queue()[i] <= s.offered)
      && (s.Queue() != [] ==> s.Queue()[|s.Queue()| - 1] == s.offered || EndsAt(s.Stream(), s.offered))
      && (s.Queue() == [] ==> s.Stream() == [] || EndsAt(s.Stream(), s.offered))
  }

  ghost predicate EndsAt(q: seq<nat>, e: nat) {
    q != [] && q[|q| - 1] == e
  }

  ghost predicate Inv(s: State) {
    Ordered(s) && Phased(s) && Caught(s) && Faithful(s.Stream(), s.holes)
  }

  lemma LastSeqRecorded(s: State)
    requires Ordered(s)
    ensures s.lastSeq <= s.seq_
  {
    assert s.log != [] ==> s.Stream()[|s.log| - 1] == s.lastSeq;
  }

  // Faithfulness.

  lemma FaithfulContinues(q: seq<nat>, more: seq<nat>, holes: set<nat>)
    requires Faithful(q, holes) && Faithful(more, holes)
    requires q != [] && more != [] ==>
               q[|q| - 1] < more[0] && forall m | q[|q| - 1] < m < more[0] :: m in holes
    ensures Faithful(q + more, holes)
  {
    var r := q + more;
    forall i, m | 0 < i < |r| && r[i - 1] < m < r[i] ensures m in holes {
      if i > |q| {
        assert r[i] == more[i - |q|] && r[i - 1] == more[i - 1 - |q|];
      }
    }
    forall i | 0 < i < |r| ensures r[i - 1] < r[i] {
      if i > |q| {
        assert r[i] == more[i - |q|] && r[i - 1] == more[i - 1 - |q|];
      }
    }
  }

  lemma FaithfulPrefix(q: seq<nat>, more: seq<nat>, holes: set<nat>)
    requires Faithful(q + more, holes)
    ensures Faithful(q, holes)
  {
    var r := q + more;
    forall i, m | 0 < i < |q| && q[i - 1] < m < q[i] ensures m in holes {
      assert r[i] == q[i] && r[i - 1] == q[i - 1];
    }
    forall i | 0 < i < |q| ensures q[i - 1] < q[i] {
      assert r[i] == q[i] && r[i - 1] == q[i - 1];
    }
  }

  lemma GoneExactly(s: State, last: nat, e: nat, m: nat)
    ensures m in Gone(s, last, e) <==> last < m < s.kept && m < e
  {
    var gone := Numbers(last + 1, (if s.kept < e then s.kept else e) - 1);
    if last < m < s.kept && m < e {
      assert gone[m - last - 1] == m;
    }
  }

  lemma BelowNumbers(lo: nat, hi: int, e: nat)
    requires e <= hi
    ensures Below(Numbers(lo, hi), e) == Numbers(lo, e - 1)
    decreases hi - lo
  {
    var q := Numbers(lo, hi);
    if q != [] && q[0] < e {
      assert q[1..] == Numbers(lo + 1, hi);
      BelowNumbers(lo + 1, hi, e);
      assert [lo] + Numbers(lo + 1, e - 1) == Numbers(lo, e - 1);
    }
  }

  // Reading the past.

  lemma ReadShape(s: State)
    requires Phased(s) && s.phase.Reading?
    ensures s.Stream() == s.log && ReadPast(s).Stream() == s.log + s.Disk(s.lastSeq)
    ensures s.Queue() == s.feed == ReadPast(s).Queue()
  {
  }

  lemma ReadIsFaithful(s: State)
    requires Ordered(s) && Phased(s) && Faithful(s.Stream(), s.holes) && s.phase.Reading?
    ensures Faithful(ReadPast(s).Stream(), ReadPast(s).holes)
  {
    var t, past := ReadPast(s), s.Disk(s.lastSeq);
    ReadShape(s);
    if s.log != [] {
      forall m | s.lastSeq < m < Max(s.kept, s.lastSeq + 1) && m <= s.seq_ ensures m in t.holes {
        GoneExactly(s, s.lastSeq, s.seq_ + 1, m);
      }
    }
    FaithfulContinues(s.log, past, t.holes);
  }

  lemma ReadIsOrdered(s: State)
    requires Ordered(s) && Phased(s) && s.phase.Reading?
    ensures Ordered(ReadPast(s))
  {
    ReadShape(s);
    BoundedTogether(s.log, s.Disk(s.lastSeq), s.seq_);
  }

  lemma ReadIsPhased(s: State)
    requires Ordered(s) && Phased(s) && s.phase.Reading?
    ensures Phased(ReadPast(s)) && Caught(ReadPast(s))
  {
    ReadEnds(s);
    ReadIsCaught(s);
    var t, past := ReadPast(s), s.Disk(s.lastSeq);
    if past == [] {
      ReadShape(s);
    }
  }

  /** After a read the stream ends at the newest event, unless it is empty. */
  lemma ReadEnds(s: State)
    requires Ordered(s) && Phased(s) && s.phase.Reading?
    ensures s.Disk(s.lastSeq) != [] ==> EndsAt(s.Disk(s.lastSeq), s.seq_) && EndsAt(ReadPast(s).Stream(), s.seq_)
    ensures s.Disk(s.lastSeq) == [] ==> ReadPast(s).Stream() == s.log && s.feed == [] && s.seq_ == s.lastSeq
  {
    ReadShape(s);
    if s.Disk(s.lastSeq) == [] {
      EmptyReadIsCurrent(s);
    } else {
      assert s.Disk(s.lastSeq)[|s.Disk(s.lastSeq)| - 1] == s.seq_;
    }
  }

  lemma EmptyReadIsCurrent(s: State)
    requires Ordered(s) && Phased(s) && s.phase.Reading? && s.Disk(s.lastSeq) == []
    ensures s.feed == [] && s.seq_ == s.lastSeq
  {
    FeedIsNew(s);
    LastSeqRecorded(s);
  }

  lemma FeedIsNew(s: State)
    requires Ordered(s) && Phased(s) && s.phase.Reading?
    ensures s.feed != [] ==> s.lastSeq < s.feed[0] <= s.seq_
  {
    assert s.Queue() == s.feed;
  }

  lemma ReadIsCaught(s: State)
    requires Ordered(s) && Phased(s) && s.phase.Reading?
    ensures Caught(ReadPast(s))
  {
    ReadShape(s);
    ReadEnds(s);
    assert Bounded(s.Queue(), s.seq_);
  }

  // Handling a live event.

  /** What the live loop sends for one event continues what was sent before. */
  lemma BatchContinues(s: State)
    requires Ordered(s) && s.held.Some? && s.held.value > s.last
    ensures var t, batch := Handled(s), Batch(s.last, s.held.value, s.Disk(s.last));
            && EndsAt(batch, s.held.value) && Faithful(batch, t.holes) && Bounded(batch, s.seq_)
            && batch[0] > s.last
            && (s.last != 0 ==> forall m | s.last < m < batch[0] :: m in t.holes)
  {
    var t, e := Handled(s), s.held.value;
    var batch := Batch(s.last, e, s.Disk(s.last));
    assert s.Queue()[0] == e;
    if s.last != 0 && e > s.last + 1 {
      BelowNumbers(Max(s.kept, s.last + 1), s.seq_, e);
      assert batch == Numbers(Max(s.kept, s.last + 1), e - 1) + [e];
      forall m | s.last < m < batch[0] ensures m in t.holes {
        GoneExactly(s, s.last, e, m);
      }
      FaithfulContinues(Numbers(Max(s.kept, s.last + 1), e - 1), [e], t.holes);
    }
  }

  lemma HandleShape(s: State)
    requires s.held.Some? && s.out == []
    ensures Handled(s).Stream() == s.Stream() + Batch(s.last, s.held.value, s.Disk(s.last))
    ensures s.held.value <= s.last ==> Handled(s).Stream() == s.Stream()
    ensures s.Queue()[0] == s.held.value && Handled(s).Queue() == s.Queue()[1..]
  {
  }

  lemma HandleIsFaithful(s: State)
    requires Ordered(s) && Phased(s) && Faithful(s.Stream(), s.holes) && Can(s, Handle)
    ensures Faithful(Handled(s).Stream(), Handled(s).holes)
  {
    var t, e := Handled(s), s.held.value;
    HandleShape(s);
    if e > s.last {
      BatchContinues(s);
      assert s.last == 0 ==> s.Stream() == s.log;
      FaithfulContinues(s.Stream(), Batch(s.last, e, s.Disk(s.last)), t.holes);
    }
  }

  lemma TailInOrder(q: seq<nat>, hi: nat)
    requires q != [] && Increasing(q) && Bounded(q, hi)
    ensures Increasing(q[1..]) && Bounded(q[1..], hi)
  {
    forall i | 0 < i < |q[1..]| ensures q[1..][i - 1] < q[1..][i] {
      assert q[1..][i] == q[i + 1] && q[1..][i - 1] == q[i + 1 - 1];
    }
  }

  lemma HandleIsOrdered(s: State)
    requires Ordered(s) && Can(s, Handle)
    ensures Ordered(Handled(s))
  {
    HandleShape(s);
    TailInOrder(s.Queue(), s.seq_);
    if s.held.value > s.last {
      BatchContinues(s);
      BoundedTogether(s.Stream(), Batch(s.last, s.held.value, s.Disk(s.last)), s.seq_);
    }
  }

  lemma BoundedTogether(p: seq<nat>, q: seq<nat>, hi: nat)
    requires Bounded(p, hi) && Bounded(q, hi)
    ensures Bounded(p + q, hi)
  {
  }

  lemma HandleIsPhased(s: State)
    requires Ordered(s) && Phased(s) && Can(s, Handle)
    ensures Phased(Handled(s))
  {
    HandleShape(s);
    if s.held.value > s.last {
      BatchContinues(s);
    }
  }

  lemma HandleIsCaught(s: State)
    requires Ordered(s) && Phased(s) && Caught(s) && Can(s, Handle)
    ensures Caught(Handled(s))
  {
    var q := s.Queue();
    HandleShape(s);
    CaughtTail(q, s.offered);
    if s.held.value > s.last {
      HandleEnds(s);
      NothingNewerSent(s);
    } else {
      StreamEndsAtLast(s);
    }
  }

  lemma CaughtTail(q: seq<nat>, e: nat)
    requires q != [] && forall i | 0 <= i < |q| :: q[i] <= e
    ensures forall i | 0 <= i < |q[1..]| :: q[1..][i] <= e
    ensures |q| > 1 ==> EndsAt(q[1..], q[|q| - 1])
  {
  }

  lemma HandleEnds(s: State)
    requires Ordered(s) && Can(s, Handle) && s.held.value > s.last
    ensures EndsAt(Handled(s).Stream(), s.held.value)
  {
    HandleShape(s);
    BatchContinues(s);
  }

  lemma StreamEndsAtLast(s: State)
    requires Ordered(s) && Phased(s) && Can(s, Handle) && s.held.value <= s.last
    ensures EndsAt(s.Stream(), s.last)
  {
    assert s.Queue()[0] == s.held.value;
  }

  /** An event newer than what was sent is no newer than the end of the queue. */
  lemma NothingNewerSent(s: State)
    requires Ordered(s) && Phased(s) && Caught(s) && Can(s, Handle) && s.held.value > s.last
    ensures EndsAt(s.Queue(), s.offered)
  {
    var q := s.Queue();
    assert q[0] == s.held.value && q[0] <= s.offered;
    if s.last == 0 && s.log != [] {
      assert s.Stream() == s.log;
    }
  }

  // The other steps only move what is already there.

  lemma RecordShape(s: State)
    ensures Recorded(s).Stream() == s.Stream()
    ensures Recorded(s).Queue() == s.Queue() + if !s.phase.Off? && |s.feed| < FEED then [s.seq_ + 1] else []
  {
  }

  lemma RecordIsOrdered(s: State)
    requires Ordered(s)
    ensures Ordered(Recorded(s))
  {
    RecordShape(s);
  }

  lemma RecordIsPhased(s: State)
    requires Ordered(s) && Phased(s)
    ensures Phased(Recorded(s))
  {
    RecordShape(s);
    LastSeqRecorded(s);
  }

  lemma RecordIsCaught(s: State)
    requires Caught(s)
    ensures Caught(Recorded(s))
  {
    RecordShape(s);
  }

  lemma RecordKeeps(s: State)
    requires Inv(s)
    ensures Inv(Recorded(s))
  {
    RecordShape(s);
    RecordIsOrdered(s);
    RecordIsPhased(s);
    RecordIsCaught(s);
  }

  lemma DeliverKeeps(s: State)
    requires Inv(s) && s.wire != []
    ensures Inv(Delivered(s))
  {
    var t := Delivered(s);
    assert s.log + s.wire == t.log + t.wire;
    assert t.Stream() == s.Stream() && t.Queue() == s.Queue();
    assert s.Stream()[|s.log|] == s.wire[0];
    assert s.log != [] ==> s.Stream()[|s.log| - 1] == s.lastSeq;
  }

  lemma ConnectKeeps(s: State, fromNow: bool)
    requires Inv(s) && Can(s, Connect(fromNow))
    ensures Inv(Connected(s, fromNow))
  {
    var t := Connected(s, fromNow);
    assert t.Stream() == s.Stream() && t.Queue() == [];
  }

  lemma CutShape(s: State)
    requires Can(s, Cut)
    ensures s.Stream() == s.log + (s.wire + s.out)
    ensures Do(s, Cut).Stream() == s.log && Do(s, Cut).Queue() == [] && Do(s, Cut).holes == s.holes
  {
  }

  lemma CutIsOrdered(s: State)
    requires Ordered(s) && Can(s, Cut)
    ensures Ordered(Do(s, Cut))
  {
    CutShape(s);
    BoundedPrefix(s.log, s.wire + s.out, s.seq_);
  }

  lemma CutKeeps(s: State)
    requires Inv(s) && Can(s, Cut)
    ensures Inv(Do(s, Cut))
  {
    CutIsOrdered(s);
    CutShape(s);
    FaithfulPrefix(s.log, s.wire + s.out, s.holes);
  }

  lemma BoundedPrefix(p: seq<nat>, q: seq<nat>, hi: nat)
    requires Bounded(p + q, hi)
    ensures Bounded(p, hi)
  {
    forall i | 0 <= i < |p| ensures 1 <= p[i] <= hi {
      assert (p + q)[i] == p[i];
    }
  }

  lemma MoveKeeps(s: State, a: Action)
    requires Inv(s) && Can(s, a) && (a.Forget? || a.Send? || a.Take?)
    ensures Inv(Do(s, a))
  {
    MoveShape(s, a);
    MoveIsPhased(s, a);
    MoveIsOrdered(s, a);
    MoveIsCaught(s, a);
  }

  lemma MoveIsCaught(s: State, a: Action)
    requires Caught(s) && Can(s, a) && (a.Forget? || a.Send? || a.Take?)
    ensures Caught(Do(s, a))
  {
    MoveShape(s, a);
  }

  lemma MoveIsOrdered(s: State, a: Action)
    requires Ordered(s) && Can(s, a) && (a.Forget? || a.Send? || a.Take?)
    ensures Ordered(Do(s, a))
  {
    MoveShape(s, a);
  }

  lemma MoveShape(s: State, a: Action)
    requires Can(s, a) && (a.Forget? || a.Send? || a.Take?)
    ensures Do(s, a).Stream() == s.Stream() && Do(s, a).Queue() == s.Queue()
  {
    if a.Send? {
      assert s.wire + s.out == s.wire + [s.out[0]] + s.out[1..];
    }
  }

  lemma MoveIsPhased(s: State, a: Action)
    requires Phased(s) && Can(s, a) && (a.Forget? || a.Send? || a.Take?)
    ensures Phased(Do(s, a))
  {
    MoveShape(s, a);
  }

  lemma ReadKeeps(s: State)
    requires Inv(s) && s.phase.Reading?
    ensures Inv(ReadPast(s))
  {
    ReadIsFaithful(s);
    ReadIsOrdered(s);
    ReadIsPhased(s);
  }

  lemma HandleKeeps(s: State)
    requires Inv(s) && Can(s, Handle)
    ensures Inv(Handled(s))
  {
    HandleIsFaithful(s);
    HandleIsOrdered(s);
    HandleIsPhased(s);
    HandleIsCaught(s);
  }

  lemma StepKeepsInv(s: State, a: Action)
    requires Inv(s) && Can(s, a)
    ensures Inv(Do(s, a))
  {
    match a
    case Record => RecordKeeps(s);
    case Connect(fromNow) => ConnectKeeps(s, fromNow);
    case Read => ReadKeeps(s);
    case Handle => HandleKeeps(s);
    case Deliver => DeliverKeeps(s);
    case Cut => CutKeeps(s);
    case _ => MoveKeeps(s, a);
  }

  // What a read found gone never arrives.

  /** A hole is off the disk for good, and is neither sent nor still to be taken. */
  ghost predicate Lost(s: State, m: nat) {
    && m < s.kept && m <= s.seq_ && m !in s.Stream()
    && (m in s.Queue() ==> s.phase.Live? && m <= s.last)
  }

  ghost predicate HolesLost(s: State) {
    forall m | m in s.holes :: Lost(s, m)
  }

  lemma {:induction false} NoneAfterEnd(q: seq<nat>, m: nat)
    requires Increasing(q) && m in q
    ensures q[0] <= m <= q[|q| - 1]
    decreases |q|
  {
    if m != q[|q| - 1] {
      var init := q[..|q| - 1];
      assert m in init;
      forall i | 0 < i < |init| ensures init[i - 1] < init[i] { assert q[i - 1] < q[i]; }
      NoneAfterEnd(init, m);
      assert q[|q| - 1 - 1] < q[|q| - 1];
    } else if |q| > 1 {
      var init := q[..|q| - 1];
      forall i | 0 < i < |init| ensures init[i - 1] < init[i] { assert q[i - 1] < q[i]; }
      NoneAfterEnd(init, init[|init| - 1]);
      assert q[|q| - 1 - 1] < q[|q| - 1];
    }
  }

  lemma ReadLoses(s: State, m: nat)
    requires Inv(s) && HolesLost(s) && s.phase.Reading? && m in ReadPast(s).holes
    ensures Lost(ReadPast(s), m)
  {
    var t, past := ReadPast(s), s.Disk(s.lastSeq);
    ReadShape(s);
    if m in s.holes {
      assert Lost(s, m);
    } else {
      GoneExactly(s, s.lastSeq, s.seq_ + 1, m);
      NewerIsNotInLog(s, m);
      assert past[|past| - 1] == s.seq_;
    }
  }

  lemma NewerIsNotInLog(s: State, m: nat)
    requires Ordered(s) && Faithful(s.Stream(), s.holes) && m > s.lastSeq
    ensures m !in s.log
  {
    LogIsFaithful(s);
    if m in s.log {
      NoneAfterEnd(s.log, m);
    }
  }

  lemma HandleLoses(s: State, m: nat)
    requires Inv(s) && HolesLost(s) && Can(s, Handle) && m in Handled(s).holes
    ensures Lost(Handled(s), m)
  {
    var t, e, batch := Handled(s), s.held.value, Batch(s.last, s.held.value, s.Disk(s.last));
    HandleShape(s);
    if m in s.holes {
      assert Lost(s, m);
      if e > s.last && s.last != 0 && e > s.last + 1 {
        BelowNumbers(Max(s.kept, s.last + 1), s.seq_, e);
      }
    } else {
      GoneExactly(s, s.last, e, m);
      BelowNumbers(Max(s.kept, s.last + 1), s.seq_, e);
      if m in s.Stream() {
        NoneAfterEnd(s.Stream(), m);
      }
    }
  }

  lemma RecordLoses(s: State, m: nat)
    requires Inv(s) && Lost(s, m)
    ensures Lost(Recorded(s), m)
  {
    RecordShape(s);
  }

  lemma OtherLoses(s: State, a: Action, m: nat)
    requires Inv(s) && Can(s, a) && Lost(s, m) && !a.Record? && !a.Read? && !a.Handle?
    ensures Lost(Do(s, a), m)
  {
    var t := Do(s, a);
    assert t.Queue() == s.Queue() || t.Queue() == [];
    assert forall e :: e in t.Stream() ==> e in s.Stream() by { StreamOnlyMoves(s, a); }
  }

  lemma StreamOnlyMoves(s: State, a: Action)
    requires Can(s, a) && !a.Record? && !a.Read? && !a.Handle?
    requires s.phase.Off? ==> s.wire == [] && s.out == []
    ensures forall e :: e in Do(s, a).Stream() ==> e in s.Stream()
  {
    var t := Do(s, a);
    if a.Send? {
      assert t.Stream() == s.Stream();
    } else if a.Deliver? {
      assert t.Stream() == s.Stream();
    }
  }

  lemma StepKeepsLost(s: State, a: Action)
    requires Inv(s) && HolesLost(s) && Can(s, a)
    ensures HolesLost(Do(s, a))
  {
    forall m | m in Do(s, a).holes ensures Lost(Do(s, a), m) {
      match a
      case Read => ReadLoses(s, m);
      case Handle => HandleLoses(s, m);
      case Record => RecordLoses(s, m);
      case _ => OtherLoses(s, a, m);
    }
  }

  // Whole runs.

  /** A run: each action possible where it is taken. */
  predicate Possible(s: State, run: seq<Action>)
    decreases |run|
  {
    run == [] || (Can(s, run[0]) && Possible(Do(s, run[0]), run[1..]))
  }

  function After(s: State, run: seq<Action>): State
    requires Possible(s, run)
    decreases |run|
  {
    if run == [] then s else After(Do(s, run[0]), run[1..])
  }

  lemma {:induction false} RunKeepsInv(s: State, run: seq<Action>)
    requires Possible(s, run) && Inv(s) && HolesLost(s)
    ensures Inv(After(s, run)) && HolesLost(After(s, run))
    decreases |run|
  {
    if run != [] {
      StepKeepsInv(s, run[0]);
      StepKeepsLost(s, run[0]);
      RunKeepsInv(Do(s, run[0]), run[1..]);
    }
  }

  lemma RunHolds(run: seq<Action>)
    requires Possible(START, run)
    ensures Inv(After(START, run)) && HolesLost(After(START, run))
  {
    StartHolds();
    RunKeepsInv(START, run);
  }

  lemma StartHolds()
    ensures Inv(START) && HolesLost(START)
  {
  }

  lemma LogIsFaithful(s: State)
    requires Faithful(s.Stream(), s.holes)
    ensures Faithful(s.log, s.holes)
  {
    assert s.Stream() == s.log + (s.wire + s.out);
    FaithfulPrefix(s.log, s.wire + s.out, s.holes);
  }

  lemma LogLacks(s: State, m: nat)
    requires Faithful(s.log, s.holes) && HolesLost(s) && s.log != [] && s.log[0] <= m <= s.log[|s.log| - 1]
    ensures m in s.log <==> m !in s.holes
  {
    if m in s.holes {
      assert Lost(s, m);
    } else {
      FaithfulHolds(s.log, s.holes, m);
    }
  }

  /** Over any interleaving of recording, rotation, feed drops, disk reads, sends,
      deliveries, cuts and reconnects, what the client has received is strictly
      increasing, and of the events between its first and its last it lacks exactly the
      ones a disk read found gone. */
  lemma ClientLacksOnlyWhatTheDiskLost(run: seq<Action>)
    requires Possible(START, run)
    ensures var s := After(START, run);
            && Increasing(s.log)
            && (forall m | s.log != [] && s.log[0] <= m <= s.log[|s.log| - 1] :: m in s.log <==> m !in s.holes)
  {
    RunHolds(run);
    var s := After(START, run);
    LogIsFaithful(s);
    forall m | s.log != [] && s.log[0] <= m <= s.log[|s.log| - 1] ensures m in s.log <==> m !in s.holes {
      LogLacks(s, m);
    }
  }

  lemma {:induction false} FaithfulHolds(q: seq<nat>, holes: set<nat>, m: nat)
    requires Faithful(q, holes) && q != [] && q[0] <= m <= q[|q| - 1] && m !in holes
    ensures m in q
    decreases |q|
  {
    if m != q[|q| - 1] {
      var init := q[..|q| - 1];
      assert q == init + [q[|q| - 1]];
      FaithfulPrefix(init, [q[|q| - 1]], holes);
      assert q[|q| - 1 - 1] == init[|init| - 1];
      FaithfulHolds(init, holes, m);
    }
  }

  /** As long as the disk kept every range a read asked for, the client's events are
      consecutive: no gap, no duplicate, over any number of reconnects. */
  lemma KeptRangesArriveConsecutively(run: seq<Action>)
    requires Possible(START, run) && After(START, run).holes == {}
    ensures var log := After(START, run).log;
            forall i | 0 <= i < |log| :: log[i] == log[0] + i
  {
    RunHolds(run);
    LogIsFaithful(After(START, run));
    NoHolesConsecutive(After(START, run).log);
  }

  lemma {:induction false} NoHolesConsecutive(q: seq<nat>)
    requires Faithful(q, {})
    ensures forall i | 0 <= i < |q| :: q[i] == q[0] + i
    decreases |q|
  {
    if |q| > 1 {
      var init := q[..|q| - 1];
      assert q == init + [q[|q| - 1]];
      FaithfulPrefix(init, [q[|q| - 1]], {});
      NoHolesConsecutive(init);
      var a, b := q[|q| - 1 - 1], q[|q| - 1];
      assert a == init[|init| - 1];
      var none: set<nat> := {};
      assert a < b && a + 1 !in none;
    }
  }

  /** When the daemon has nothing left to do, the client has the newest event the feed took
      or the disk was read for. It is the newest event of all if and only if the feed did
      not drop that one: a dropped newest event stays unseen until another follows it. */
  lemma QuietClientIsCaughtUpIff(run: seq<Action>)
    requires Possible(START, run)
    requires var s := After(START, run);
             s.phase.Live? && s.Queue() == [] && s.out == [] && s.wire == [] && s.log != []
    ensures var s := After(START, run);
            s.lastSeq == s.offered && (s.lastSeq == s.seq_ <==> s.offered == s.seq_)
  {
    RunHolds(run);
    QuietHasOffered(After(START, run));
  }

  lemma QuietHasOffered(s: State)
    requires Ordered(s) && Caught(s) && s.phase.Live? && s.Queue() == [] && s.out == [] && s.wire == [] && s.log != []
    ensures s.lastSeq == s.offered
  {
    assert s.Stream() == s.log;
  }
}
