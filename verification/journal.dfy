/** The journal stream: a lossy live feed repaired from disk (subJournal), over a
    connection that may be cut at any time and resumes after the last event seen.
    Events are their sequence numbers. */
module Journal {

  /** The live feed's buffer; an event recorded while it is full is dropped from the feed. */
  const FEED := 256

  /** Numbers lo..hi, empty when lo is above hi. */
  function Numbers(lo: nat, hi: int): (r: seq<nat>)
    ensures |r| == if lo <= hi then hi - lo + 1 else 0
    ensures forall i | 0 <= i < |r| :: r[i] == lo + i
  {
    if lo <= hi then seq(hi - lo + 1, i requires 0 <= i => lo + i) else []
  }

  function Max(a: nat, b: nat): nat {
    if a < b then b else a
  }

  ghost predicate Increasing(q: seq<nat>) {
    forall i | 0 < i < |q| :: q[i - 1] < q[i]
  }

  /** The part of a disk read below e. */
  function Below(read: seq<nat>, e: nat): seq<nat> {
    if read == [] || read[0] >= e then [] else [read[0]] + Below(read[1..], e)
  }

  /** What the live loop sends for event e, when read is what the disk answers after last. */
  function Batch(last: nat, e: nat, read: seq<nat>): seq<nat> {
    if e <= last then []
    else if last != 0 && e > last + 1 then Below(read, e) + [e]
    else [e]
  }

  /** The loop of subJournal: the past, then each live event with the disk's answer at the
      time, taken as they come. */
  method SubJournal(past: seq<nat>, live: seq<(nat, seq<nat>)>) returns (sent: seq<nat>, last: nat)
    ensures sent == Sent(past, live) && last == LastAfter(LastOf(past), live)
  {
    sent, last := [], 0;
    for i := 0 to |past|
      invariant sent == past[..i] && last == if i == 0 then 0 else past[i - 1]
    {
      sent, last := sent + [past[i]], past[i];
    }
    assert past[..|past|] == past;
    var after;
    sent, after := FollowLive(sent, last, live);
    last := after;
  }

  /** The live half of the loop. */
  method FollowLive(before: seq<nat>, from: nat, live: seq<(nat, seq<nat>)>) returns (sent: seq<nat>, last: nat)
    ensures sent == before + Batches(from, live) && last == LastAfter(from, live)
  {
    sent, last := before, from;
    assert live[0..] == live;
    for i := 0 to |live|
      invariant sent + Batches(last, live[i..]) == before + Batches(from, live)
      invariant LastAfter(last, live[i..]) == LastAfter(from, live)
    {
      var (e, read) := live[i];
      assert live[i..][0] == live[i] && live[i..][1..] == live[i + 1..];
      InTurn(sent, Batch(last, e, read), Batches(Max(last, e), live[i + 1..]));
      sent, last := FollowOne(sent, last, e, read);
    }
  }

  /** One live event, and what a read gives if it shows that some were missed. */
  method FollowOne(before: seq<nat>, from: nat, e: nat, read: seq<nat>) returns (sent: seq<nat>, last: nat)
    ensures sent == before + Batch(from, e, read) && last == Max(from, e)
  {
    sent, last := before, from;
    if e <= last {
      return;
    }
    if last != 0 && e > last + 1 {
      var missed := TakeBelow(read, e);
      sent := sent + missed;
    }
    sent, last := sent + [e], e;
  }

  lemma InTurn(p: seq<nat>, q: seq<nat>, r: seq<nat>)
    ensures p + (q + r) == p + q + r
  {
  }

  method TakeBelow(read: seq<nat>, e: nat) returns (missed: seq<nat>)
    ensures missed == Below(read, e)
  {
    missed := [];
    var i := 0;
    while i < |read| && read[i] < e
      invariant i <= |read| && missed + Below(read[i..], e) == Below(read, e)
    {
      assert read[i..][0] == read[i] && read[i..][1..] == read[i + 1..];
      missed := missed + [read[i]];
      i := i + 1;
    }
  }

  function LastOf(past: seq<nat>): nat {
    if past == [] then 0 else past[|past| - 1]
  }

  /** Everything sent. */
  function Sent(past: seq<nat>, live: seq<(nat, seq<nat>)>): seq<nat> {
    past + Batches(LastOf(past), live)
  }

  function Batches(last: nat, live: seq<(nat, seq<nat>)>): seq<nat>
    decreases |live|
  {
    if live == [] then []
    else Batch(last, live[0].0, live[0].1) + Batches(Max(last, live[0].0), live[1..])
  }

  function LastAfter(last: nat, live: seq<(nat, seq<nat>)>): nat
    decreases |live|
  {
    if live == [] then last else LastAfter(Max(last, live[0].0), live[1..])
  }
}
