/** What one subscription to the journal sends, said of the events themselves: which they
    are and in what order. */
module JournalSent {
  import opened Journal

  /** x comes after event last and after the first i live events. */
  ghost predicate New(last: nat, live: seq<(nat, seq<nat>)>, i: nat, x: nat)
    requires i <= |live|
  {
    x > last && forall j | 0 <= j < i :: x > live[j].0
  }

  /** An event came before the ith live one, last or one of the live ones. */
  ghost predicate Started(last: nat, live: seq<(nat, seq<nat>)>, i: nat)
    requires i <= |live|
  {
    last != 0 || exists j | 0 <= j < i :: live[j].0 != 0
  }

  /** The ith live event brings x: it is x, or it shows that x was missed and x is in what
      the disk answers. */
  ghost predicate Brings(last: nat, live: seq<(nat, seq<nat>)>, i: nat, x: nat)
    requires i < |live|
  {
    && New(last, live, i, x)
    && (x == live[i].0 || (Started(last, live, i) && x < live[i].0 && x in live[i].1))
  }

  /** The disk answers in order, with events newer than those before. */
  ghost predicate Answers(last: nat, live: seq<(nat, seq<nat>)>) {
    forall i | 0 <= i < |live| :: Increasing(live[i].1) && forall x | x in live[i].1 :: New(last, live, i, x)
  }

  /** The disk answers with everything missed. */
  ghost predicate AnswersAll(last: nat, live: seq<(nat, seq<nat>)>) {
    forall i, m | 0 <= i < |live| && New(last, live, i, m) && m < live[i].0 :: m in live[i].1
  }

  // Orders.

  lemma {:induction false} InOrder(q: seq<nat>, i: nat, j: nat)
    requires Increasing(q) && i < j < |q|
    ensures q[i] < q[j]
    decreases j
  {
    if i < j - 1 {
      InOrder(q, i, j - 1);
    }
  }

  lemma InOrderTogether(p: seq<nat>, q: seq<nat>)
    requires Increasing(p) && Increasing(q) && (p != [] && q != [] ==> p[|p| - 1] < q[0])
    ensures Increasing(p + q)
  {
    forall i | 0 < i < |p + q| ensures (p + q)[i - 1] < (p + q)[i] {
      if i > |p| {
        assert (p + q)[i] == q[i - |p|] && (p + q)[i - 1] == q[i - |p| - 1];
      }
    }
  }

  lemma TailInOrder(q: seq<nat>)
    requires q != [] && Increasing(q)
    ensures Increasing(q[1..]) && forall x | x in q[1..] :: x > q[0]
  {
    forall i | 0 < i < |q[1..]| ensures q[1..][i - 1] < q[1..][i] {
      assert q[1..][i] == q[i + 1] && q[1..][i - 1] == q[i + 1 - 1];
    }
    forall x | x in q[1..] ensures x > q[0] {
      var k :| 0 <= k < |q[1..]| && q[1..][k] == x;
      InOrder(q, 0, k + 1);
    }
  }

  // One live event.

  lemma {:induction false} BelowIs(read: seq<nat>, e: nat)
    requires Increasing(read)
    ensures Increasing(Below(read, e))
    ensures forall x :: x in Below(read, e) <==> x in read && x < e
  {
    if read != [] {
      TailInOrder(read);
      if read[0] < e {
        BelowIs(read[1..], e);
        InOrderTogether([read[0]], Below(read[1..], e));
      }
      assert read == [read[0]] + read[1..];
    }
  }

  lemma BatchIs(last: nat, e: nat, read: seq<nat>)
    requires Increasing(read) && forall x | x in read :: x > last
    ensures var batch := Batch(last, e, read);
            && Increasing(batch)
            && (forall x :: x in batch <==> (x > last && (x == e || (last != 0 && x < e && x in read))))
            && (if e > last then batch != [] && batch[|batch| - 1] == e else batch == [])
  {
    BelowIs(read, e);
    if e > last && last != 0 && e > last + 1 {
      var below := Below(read, e);
      assert below != [] ==> below[|below| - 1] in below;
      InOrderTogether(Below(read, e), [e]);
    }
  }

  // All of them.

  lemma Later(last: nat, live: seq<(nat, seq<nat>)>)
    requires live != []
    ensures var next := Max(last, live[0].0);
            && (forall i, x | 0 <= i < |live| - 1 :: Brings(next, live[1..], i, x) <==> Brings(last, live, i + 1, x))
            && (forall i, x | 0 <= i < |live| - 1 :: New(next, live[1..], i, x) <==> New(last, live, i + 1, x))
  {
    var next := Max(last, live[0].0);
    forall i, x | 0 <= i < |live| - 1
      ensures New(next, live[1..], i, x) <==> New(last, live, i + 1, x)
      ensures Brings(next, live[1..], i, x) <==> Brings(last, live, i + 1, x)
    {
      LaterIsNew(last, live, i, x);
      LaterIsStarted(last, live, i);
    }
  }

  lemma LaterIsNew(last: nat, live: seq<(nat, seq<nat>)>, i: nat, x: nat)
    requires i < |live| - 1
    ensures New(Max(last, live[0].0), live[1..], i, x) <==> New(last, live, i + 1, x)
  {
    if New(Max(last, live[0].0), live[1..], i, x) {
      forall j | 0 <= j < i + 1 ensures x > live[j].0 {
        if j > 0 { assert live[j] == live[1..][j - 1]; }
      }
    }
  }

  lemma LaterIsStarted(last: nat, live: seq<(nat, seq<nat>)>, i: nat)
    requires i < |live| - 1
    ensures Started(Max(last, live[0].0), live[1..], i) <==> Started(last, live, i + 1)
  {
    if j :| 0 <= j < i && live[1..][j].0 != 0 {
      assert live[j + 1].0 != 0;
    }
    if j :| 0 <= j < i + 1 && live[j].0 != 0 {
      if j > 0 { assert live[1..][j - 1].0 != 0; }
    }
  }

  lemma LaterAnswers(last: nat, live: seq<(nat, seq<nat>)>)
    requires live != []
    ensures Answers(last, live) ==> Answers(Max(last, live[0].0), live[1..])
    ensures AnswersAll(last, live) ==> AnswersAll(Max(last, live[0].0), live[1..])
  {
    Later(last, live);
    forall i | 0 <= i < |live| - 1 ensures live[1..][i] == live[i + 1] {
    }
  }

  /** What the live events bring is in order, newer than what came before, and ends in the
      newest of them. */
  lemma {:induction false} BatchesInOrder(last: nat, live: seq<(nat, seq<nat>)>)
    requires Answers(last, live)
    ensures var batches := Batches(last, live);
            && Increasing(batches) && (batches != [] ==> batches[0] > last)
            && LastAfter(last, live) == (if batches == [] then last else batches[|batches| - 1])
    decreases |live|
  {
    if live != [] {
      var next := Max(last, live[0].0);
      FirstAnswers(last, live);
      LaterAnswers(last, live);
      BatchesInOrder(next, live[1..]);
      OrderTogether(last, live[0].0, live[0].1, Batches(next, live[1..]));
    }
  }

  lemma FirstAnswers(last: nat, live: seq<(nat, seq<nat>)>)
    requires live != [] && Answers(last, live)
    ensures Increasing(live[0].1) && forall x | x in live[0].1 :: x > last
  {
    assert forall x | x in live[0].1 :: New(last, live, 0, x);
  }

  lemma OrderTogether(last: nat, e: nat, read: seq<nat>, rest: seq<nat>)
    requires Increasing(read) && forall x | x in read :: x > last
    requires Increasing(rest) && (rest != [] ==> rest[0] > Max(last, e))
    ensures var batch := Batch(last, e, read);
            && Increasing(batch + rest) && (batch + rest != [] ==> (batch + rest)[0] > last)
            && (rest == [] ==> Max(last, e) == if batch == [] then last else batch[|batch| - 1])
  {
    var batch := Batch(last, e, read);
    BatchIs(last, e, read);
    InOrderTogether(batch, rest);
    assert batch != [] ==> batch[0] in batch;
  }

  /** And it is exactly what they bring. */
  lemma {:induction false} BatchesHold(last: nat, live: seq<(nat, seq<nat>)>, x: nat)
    requires Answers(last, live)
    ensures x in Batches(last, live) <==> exists i :: 0 <= i < |live| && Brings(last, live, i, x)
    decreases |live|
  {
    if live != [] {
      var next := Max(last, live[0].0);
      FirstAnswers(last, live);
      LaterAnswers(last, live);
      BatchesHold(next, live[1..], x);
      BatchIs(last, live[0].0, live[0].1);
      FirstBrings(last, live, x);
      BroughtNowOrLater(last, live, x);
    }
  }

  lemma FirstBrings(last: nat, live: seq<(nat, seq<nat>)>, x: nat)
    requires live != []
    ensures var (e, read) := live[0];
            Brings(last, live, 0, x) <==> (x > last && (x == e || (last != 0 && x < e && x in read)))
  {
  }

  lemma BroughtNowOrLater(last: nat, live: seq<(nat, seq<nat>)>, x: nat)
    requires live != []
    ensures (exists i :: 0 <= i < |live| && Brings(last, live, i, x)) <==>
            Brings(last, live, 0, x)
            || exists i :: 0 <= i < |live| - 1 && Brings(Max(last, live[0].0), live[1..], i, x)
  {
    Later(last, live);
    if i :| 0 <= i < |live| && Brings(last, live, i, x) {
      if i > 0 {
        assert Brings(Max(last, live[0].0), live[1..], i - 1, x);
      }
    }
    if i :| 0 <= i < |live| - 1 && Brings(Max(last, live[0].0), live[1..], i, x) {
      assert Brings(last, live, i + 1, x);
    }
  }

  /** Whatever the live feed carries, in order or not, dropped, repeated or already read,
      what is sent is strictly increasing and ends in the newest event of all; and it is
      exactly the past, each live event newer than everything before it, and of what the
      disk answers what falls between such an event and the ones before. */
  lemma SentIsInOrder(past: seq<nat>, live: seq<(nat, seq<nat>)>)
    requires Increasing(past) && Answers(LastOf(past), live)
    ensures var sent := Sent(past, live);
            && Increasing(sent)
            && LastAfter(LastOf(past), live) == LastOf(sent)
            && (forall x :: x in sent <==>
                  x in past || exists i :: 0 <= i < |live| && Brings(LastOf(past), live, i, x))
  {
    BatchesInOrder(LastOf(past), live);
    forall x ensures x in Batches(LastOf(past), live) <==>
                     exists i :: 0 <= i < |live| && Brings(LastOf(past), live, i, x) {
      BatchesHold(LastOf(past), live, x);
    }
    InOrderTogether(past, Batches(LastOf(past), live));
  }

  /** No event of the past or the live feed is newer than the last one. */
  lemma {:induction false} LastIsNewest(last: nat, live: seq<(nat, seq<nat>)>)
    ensures last <= LastAfter(last, live) && forall i | 0 <= i < |live| :: live[i].0 <= LastAfter(last, live)
    ensures LastAfter(last, live) == last || exists i :: 0 <= i < |live| && live[i].0 == LastAfter(last, live)
    decreases |live|
  {
    if live != [] {
      var next := Max(last, live[0].0);
      LastIsNewest(next, live[1..]);
      forall i | 0 <= i < |live| ensures live[i].0 <= LastAfter(last, live) {
        if i > 0 { assert live[i] == live[1..][i - 1]; }
      }
      if i :| 0 <= i < |live| - 1 && live[1..][i].0 == LastAfter(next, live[1..]) {
        assert live[i + 1].0 == LastAfter(last, live);
      }
    }
  }

  lemma {:induction false} AllIsBrought(last: nat, live: seq<(nat, seq<nat>)>, m: nat)
    requires AnswersAll(last, live) && last != 0 && last < m <= LastAfter(last, live)
    ensures exists i :: 0 <= i < |live| && Brings(last, live, i, m)
    decreases |live|
  {
    var next := Max(last, live[0].0);
    if m <= next {
      assert New(last, live, 0, m) && Brings(last, live, 0, m);
    } else {
      LaterAnswers(last, live);
      AllIsBrought(next, live[1..], m);
      BroughtNowOrLater(last, live, m);
    }
  }

  /** When the disk answers with everything missed, what follows the past has no gap. */
  lemma SentIsConsecutive(past: seq<nat>, live: seq<(nat, seq<nat>)>)
    requires past != [] && past[0] > 0 && forall i | 0 <= i < |past| :: past[i] == past[0] + i
    requires Answers(LastOf(past), live) && AnswersAll(LastOf(past), live)
    ensures var sent := Sent(past, live); forall i | 0 <= i < |sent| :: sent[i] == past[0] + i
  {
    var sent := Sent(past, live);
    SentIsInOrder(past, live);
    forall m | sent[0] <= m <= LastOf(sent) ensures m in sent {
      if m <= LastOf(past) {
        assert past[m - past[0]] == m;
      } else {
        AllIsBrought(LastOf(past), live, m);
      }
    }
    NoGaps(sent);
  }

  lemma NoGaps(q: seq<nat>)
    requires q != [] && Increasing(q) && forall m | q[0] <= m <= LastOf(q) :: m in q
    ensures forall i | 0 <= i < |q| :: q[i] == q[0] + i
  {
    for i := 1 to |q|
      invariant forall k | 0 <= k < i :: q[k] == q[0] + k
    {
      NextIsOneMore(q, i);
    }
  }

  lemma NextIsOneMore(q: seq<nat>, i: nat)
    requires 0 < i < |q| && Increasing(q) && q[0] <= q[i - 1] && forall m | q[0] <= m <= LastOf(q) :: m in q
    ensures q[i] == q[i - 1] + 1
  {
    var m := q[i - 1] + 1;
    if i < |q| - 1 {
      InOrder(q, i, |q| - 1);
    }
    assert q[i - 1] < q[i] <= LastOf(q) && m in q;
    var k :| 0 <= k < |q| && q[k] == m;
    if k < i - 1 {
      InOrder(q, k, i - 1);
    } else if k > i {
      InOrder(q, i, k);
    }
  }
}
