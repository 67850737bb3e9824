/** A run in which a quiet subscriber lacks the newest event: the feed fills, drops it, and
    nothing follows it. */
module JournalLoss {
  import opened Stack
  import opened Journal
  import opened JournalRun

  /** A subscriber from now on, k events recorded since, and none yet taken. */
  function Filled(k: nat): State {
    State(k, 1, Live, Numbers(1, k), None, 0, [], [], [], 0, {}, k)
  }

  /** One event more was recorded than the feed holds, and the client has received j. */
  function Drained(j: nat): State {
    State(FEED + 1, 1, Live, Numbers(j + 1, FEED), None, j, [], [], Numbers(1, j), j, {}, FEED)
  }

  function Records(k: nat): seq<Action> {
    if k == 0 then [] else [Record] + Records(k - 1)
  }

  function Deliveries(k: nat): seq<Action> {
    if k == 0 then [] else [Take, Handle, Send, Deliver] + Deliveries(k - 1)
  }

  lemma {:induction false} RunTogether(s: State, a: seq<Action>, b: seq<Action>)
    requires Possible(s, a) && Possible(After(s, a), b)
    ensures Possible(s, a + b) && After(s, a + b) == After(After(s, a), b)
    decreases |a|
  {
    if a == [] {
      assert a + b == b;
    } else {
      assert (a + b)[1..] == a[1..] + b && (a + b)[0] == a[0];
      RunTogether(Do(s, a[0]), a[1..], b);
    }
  }

  /** From s, the actions a lead to t. */
  ghost predicate Leads(s: State, a: seq<Action>, t: State) {
    Possible(s, a) && After(s, a) == t
  }

  lemma LeadsOn(s: State, a: seq<Action>, t: State, b: seq<Action>, u: State)
    requires Leads(s, a, t) && Leads(t, b, u)
    ensures Leads(s, a + b, u)
  {
    RunTogether(s, a, b);
  }

  lemma OneStep(s: State, a: Action)
    requires Can(s, a)
    ensures Leads(s, [a], Do(s, a))
  {
    assert [a][1..] == [];
  }

  lemma NumbersGrow(lo: nat, hi: nat)
    requires lo <= hi + 1
    ensures Numbers(lo, hi) + [hi + 1] == Numbers(lo, hi + 1)
    ensures lo <= hi ==> Numbers(lo, hi) == [lo] + Numbers(lo + 1, hi)
  {
  }

  lemma OneRecord(j: nat)
    requires j < FEED
    ensures Leads(Filled(j), [Record], Filled(j + 1))
  {
    NumbersGrow(1, j);
    assert Do(Filled(j), Record) == Filled(j + 1);
    OneStep(Filled(j), Record);
  }

  lemma RecordFirst(j: nat, rest: seq<Action>, t: State)
    requires j < FEED && Leads(Filled(j + 1), rest, t)
    ensures Leads(Filled(j), [Record] + rest, t)
  {
    OneRecord(j);
    LeadsOn(Filled(j), [Record], Filled(j + 1), rest, t);
  }

  lemma {:induction false} RecordsFill(j: nat, k: nat, n: nat)
    requires j + k == n <= FEED
    ensures Leads(Filled(j), Records(k), Filled(n))
    decreases k
  {
    if k > 0 {
      RecordsFill(j + 1, k - 1, n);
      RecordFirst(j, Records(k - 1), Filled(n));
    }
  }

  lemma OneDelivery(j: nat)
    requires j < FEED
    ensures Leads(Drained(j), [Take, Handle, Send, Deliver], Drained(j + 1))
  {
    var s := Drained(j);
    NumbersGrow(j + 1, FEED);
    var taken := s.(held := Some(j + 1), feed := Numbers(j + 2, FEED));
    assert Do(s, Take) == taken;
    var handled := taken.(held := None, out := [j + 1], last := j + 1);
    assert Do(taken, Handle) == handled;
    var sent := handled.(out := [], wire := [j + 1]);
    assert Do(handled, Send) == sent;
    NumbersGrow(1, j);
    assert Do(sent, Deliver) == Drained(j + 1);
    FourSteps(s, taken, handled, sent, Drained(j + 1));
  }

  lemma FourSteps(s: State, taken: State, handled: State, sent: State, delivered: State)
    requires Can(s, Take) && Do(s, Take) == taken && Can(taken, Handle) && Do(taken, Handle) == handled
    requires Can(handled, Send) && Do(handled, Send) == sent && Can(sent, Deliver) && Do(sent, Deliver) == delivered
    ensures Leads(s, [Take, Handle, Send, Deliver], delivered)
  {
    OneStep(s, Take);
    OneStep(taken, Handle);
    OneStep(handled, Send);
    OneStep(sent, Deliver);
    LeadsOn(s, [Take], taken, [Handle], handled);
    LeadsOn(s, [Take] + [Handle], handled, [Send], sent);
    LeadsOn(s, [Take] + [Handle] + [Send], sent, [Deliver], delivered);
    assert [Take] + [Handle] + [Send] + [Deliver] == [Take, Handle, Send, Deliver];
  }

  lemma {:induction false} DeliveriesDrain(j: nat, k: nat, n: nat)
    requires j + k == n <= FEED
    ensures Leads(Drained(j), Deliveries(k), Drained(n))
    decreases k
  {
    if k > 0 {
      OneDelivery(j);
      DeliveriesDrain(j + 1, k - 1, n);
      LeadsOn(Drained(j), [Take, Handle, Send, Deliver], Drained(j + 1), Deliveries(k - 1), Drained(n));
    }
  }

  /** Subscribe from now on; record one event more than the feed holds, and let the daemon
      send and the client receive all it can. */
  const LOSS := [Connect(true)] + (Records(FEED) + ([Record] + Deliveries(FEED)))

  /** The run is possible; it ends quiet, with nothing held, queued or on the way; and the
      client lacks the newest event, which is on disk all along. */
  lemma QuietClientMayLackTheNewest()
    ensures Possible(START, LOSS)
    ensures var s := After(START, LOSS);
            && s.phase.Live? && s.Queue() == [] && s.out == [] && s.wire == []
            && s.log != [] && s.lastSeq < s.seq_ && s.seq_ !in s.log && s.seq_ in s.Disk(s.lastSeq)
  {
    assert Do(START, Connect(true)) == Filled(0);
    OneStep(START, Connect(true));
    RecordsFill(0, FEED, FEED);
    assert Do(Filled(FEED), Record) == Drained(0);
    OneStep(Filled(FEED), Record);
    DeliveriesDrain(0, FEED, FEED);
    LeadsOn(Filled(FEED), [Record], Drained(0), Deliveries(FEED), Drained(FEED));
    LeadsOn(Filled(0), Records(FEED), Filled(FEED), [Record] + Deliveries(FEED), Drained(FEED));
    LeadsOn(START, [Connect(true)], Filled(0), Records(FEED) + ([Record] + Deliveries(FEED)), Drained(FEED));
    LastIsLost(After(START, LOSS));
  }

  lemma LastIsLost(s: State)
    requires s == Drained(FEED)
    ensures s.Queue() == [] && s.log != [] && s.lastSeq < s.seq_ && s.seq_ !in s.log && s.seq_ in s.Disk(s.lastSeq)
  {
    assert s.Disk(FEED)[0] == FEED + 1;
    assert s.log[0] == 1;
  }

  // A client that lacks an event the disk forgot.

  /** A client that holds the first event, of a journal of n whose disk keeps those from k
      on. */
  function Away(n: nat, k: nat): State {
    State(n, k, Off, [], None, 1, [], [], [1], 1, {}, 1)
  }

  /** The first event is sent as it is recorded; the client is cut off; two more are
      recorded, and the first of them is forgotten before it comes back. */
  const FORGOTTEN := [Connect(true), Record] + [Take, Handle, Send, Deliver] + [Cut]
      + [Record, Record, Forget(3), Connect(false)] + [Read, Send, Deliver]

  lemma OnlyDelivery()
    ensures Leads(Filled(1), [Take, Handle, Send, Deliver], Away(1, 1).(phase := Live))
  {
    var s := Filled(1);
    assert Numbers(1, 1) == [1];
    var taken := s.(held := Some(1), feed := []);
    assert Do(s, Take) == taken;
    var handled := taken.(held := None, out := [1], last := 1);
    assert Do(taken, Handle) == handled;
    var sent := handled.(out := [], wire := [1]);
    assert Do(handled, Send) == sent;
    assert Do(sent, Deliver) == Away(1, 1).(phase := Live);
    FourSteps(s, taken, handled, sent, Away(1, 1).(phase := Live));
  }

  lemma FirstIsReceived()
    ensures Leads(START, [Connect(true), Record] + [Take, Handle, Send, Deliver] + [Cut], Away(1, 1))
  {
    assert Do(START, Connect(true)) == Filled(0);
    NumbersGrow(1, 0);
    assert Do(Filled(0), Record) == Filled(1);
    TwoSteps(START, Connect(true), Filled(0), Record, Filled(1));
    OnlyDelivery();
    OneStep(Away(1, 1).(phase := Live), Cut);
    LeadsOn(START, [Connect(true), Record], Filled(1), [Take, Handle, Send, Deliver], Away(1, 1).(phase := Live));
    LeadsOn(START, [Connect(true), Record] + [Take, Handle, Send, Deliver], Away(1, 1).(phase := Live), [Cut],
      Away(1, 1));
  }

  lemma TwoSteps(s: State, a: Action, t: State, b: Action, u: State)
    requires Can(s, a) && Do(s, a) == t && Can(t, b) && Do(t, b) == u
    ensures Leads(s, [a, b], u)
  {
    OneStep(s, a);
    OneStep(t, b);
    LeadsOn(s, [a], t, [b], u);
    assert [a] + [b] == [a, b];
  }

  lemma SecondIsForgotten()
    ensures var back := Away(3, 3).(phase := Reading(1), last := 0, offered := 3);
            Leads(Away(1, 1), [Record, Record, Forget(3), Connect(false)], back)
  {
    var back := Away(3, 3).(phase := Reading(1), last := 0, offered := 3);
    TwoSteps(Away(1, 1), Record, Away(2, 1), Record, Away(3, 1));
    TwoSteps(Away(3, 1), Forget(3), Away(3, 3), Connect(false), back);
    LeadsOn(Away(1, 1), [Record, Record], Away(3, 1), [Forget(3), Connect(false)], back);
    assert [Record, Record] + [Forget(3), Connect(false)] == [Record, Record, Forget(3), Connect(false)];
  }

  lemma ThirdIsReceived()
    ensures var back := Away(3, 3).(phase := Reading(1), last := 0, offered := 3);
            var end := back.(phase := Live, last := 3, log := [1, 3], lastSeq := 3, holes := {2});
            Leads(back, [Read, Send, Deliver], end)
  {
    var back := Away(3, 3).(phase := Reading(1), last := 0, offered := 3);
    assert back.Disk(1) == [3];
    var read := back.(phase := Live, out := [3], last := 3, holes := {2});
    OnlySecondIsGone(back);
    assert Do(back, Read) == read;
    var sent := read.(out := [], wire := [3]);
    TwoSteps(back, Read, read, Send, sent);
    OneStep(sent, Deliver);
    LeadsOn(back, [Read, Send], sent, [Deliver], Do(sent, Deliver));
    assert [Read, Send] + [Deliver] == [Read, Send, Deliver];
  }

  lemma OnlySecondIsGone(s: State)
    requires s.kept == 3
    ensures Gone(s, 1, 4) == {2}
  {
    forall m ensures m in Gone(s, 1, 4) <==> m == 2 {
      GoneExactly(s, 1, 4, m);
    }
  }

  /** An event can be lost for good: the run is possible, its read finds the second event
      gone, and the client goes from the first to the third. */
  lemma ForgottenEventIsLost()
    ensures Possible(START, FORGOTTEN)
    ensures var s := After(START, FORGOTTEN); s.log == [1, 3] && s.holes == {2}
  {
    var back := Away(3, 3).(phase := Reading(1), last := 0, offered := 3);
    var end := back.(phase := Live, last := 3, log := [1, 3], lastSeq := 3, holes := {2});
    var first := [Connect(true), Record] + [Take, Handle, Send, Deliver] + [Cut];
    var second := [Record, Record, Forget(3), Connect(false)];
    FirstIsReceived();
    SecondIsForgotten();
    ThirdIsReceived();
    LeadsOn(START, first, Away(1, 1), second, back);
    LeadsOn(START, first + second, back, [Read, Send, Deliver], end);
  }
}
