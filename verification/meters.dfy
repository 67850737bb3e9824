/** Meter readings: the daemon keeps the last few minutes of them, thinned, and a client
    that is sent them again after a reconnect holds each once. */
module Meters {
  import opened Stack

  const KEPT := 240
  const DEDUPE := 800 // milliseconds
  const SAMPLES := 240

  function LastOf<T>(q: seq<T>, n: nat): seq<T> {
    if |q| > n then q[|q| - n..] else q
  }

  lemma LastAppends<T>(q: seq<T>, x: T, n: nat)
    requires n > 0
    ensures LastOf(LastOf(q, n) + [x], n) == LastOf(q + [x], n)
    ensures q != [] ==> LastOf(q, n) != [] && LastOf(q, n)[|LastOf(q, n)| - 1] == q[|q| - 1]
  {
  }

  // The daemon's ring.

  datatype Stat = Stat(name: string, value: int, children: seq<string>)

  datatype Frame = Frame(at: int, stats: seq<Stat>)

  /** A frame as it is kept: without the processes under each instance. */
  function Stripped(f: Frame): Frame {
    f.(stats := seq(|f.stats|, i requires 0 <= i < |f.stats| => f.stats[i].(children := [])))
  }

  predicate TooSoon(kept: seq<Frame>, f: Frame) {
    kept != [] && f.at - kept[|kept| - 1].at < DEDUPE
  }

  /** All the frames worth keeping of those offered: each that has readings and does not
      follow the one kept before it too soon. */
  function Thinned(offered: seq<Frame>): seq<Frame> {
    if offered == [] then []
    else
      var kept, f := Thinned(offered[..|offered| - 1]), offered[|offered| - 1];
      if f.stats == [] || TooSoon(kept, f) then kept else kept + [Stripped(f)]
  }

  class MeterRing {
    var frames: seq<Frame>

    /** The ring is what is left of everything ever offered. */
    ghost predicate Holds(offered: seq<Frame>)
      reads this
    {
      frames == LastOf(Thinned(offered), KEPT)
    }

    constructor ()
      ensures Holds([])
    {
      frames := [];
    }

    method Record(f: Frame, ghost offered: seq<Frame>)
      requires Holds(offered)
      modifies this
      ensures Holds(offered + [f])
    {
      assert (offered + [f])[..|offered|] == offered;
      if |f.stats| == 0 {
        return;
      }
      LastAppends(Thinned(offered), Stripped(f), KEPT);
      if |frames| > 0 && f.at - frames[|frames| - 1].at < DEDUPE {
        return;
      }
      var kept := [];
      for i := 0 to |f.stats|
        invariant kept == Stripped(f).stats[..i]
      {
        kept := kept + [f.stats[i].(children := [])];
      }
      assert kept == Stripped(f).stats;
      frames := frames + [Frame(f.at, kept)];
      if |frames| > KEPT {
        frames := frames[|frames| - KEPT..];
      }
    }
  }

  /** What is kept is spaced out. */
  lemma {:induction false} ThinnedIsSpaced(offered: seq<Frame>)
    ensures forall i | 0 < i < |Thinned(offered)| :: Thinned(offered)[i].at - Thinned(offered)[i - 1].at >= DEDUPE
  {
    if offered != [] {
      ThinnedIsSpaced(offered[..|offered| - 1]);
    }
  }

  /** A frame as it is kept: its time, and each reading's name and value. */
  ghost predicate KeptAs(k: Frame, f: Frame) {
    && k.at == f.at && |k.stats| == |f.stats|
    && forall i | 0 <= i < |f.stats| ::
         k.stats[i].name == f.stats[i].name && k.stats[i].value == f.stats[i].value && k.stats[i].children == []
  }

  /** What is kept are the offered frames at some places, in order, each with readings. */
  ghost predicate WereOffered(kept: seq<Frame>, offered: seq<Frame>, at: seq<nat>) {
    && |at| == |kept| && (forall p, q | 0 <= p < q < |at| :: at[p] < at[q])
    && forall p | 0 <= p < |at| :: at[p] < |offered| && offered[at[p]].stats != [] && KeptAs(kept[p], offered[at[p]])
  }

  lemma {:induction false} ThinnedWereOffered(offered: seq<Frame>) returns (at: seq<nat>)
    ensures WereOffered(Thinned(offered), offered, at)
    decreases |offered|
  {
    at := [];
    if offered != [] {
      var n := |offered| - 1;
      at := ThinnedWereOffered(offered[..n]);
      OfferedStay(Thinned(offered[..n]), offered, at);
      if Thinned(offered) != Thinned(offered[..n]) {
        OneMoreOffered(Thinned(offered[..n]), offered, at);
        at := at + [n];
      }
    }
  }

  lemma OfferedStay(kept: seq<Frame>, offered: seq<Frame>, at: seq<nat>)
    requires offered != [] && WereOffered(kept, offered[..|offered| - 1], at)
    ensures WereOffered(kept, offered, at)
  {
  }

  lemma OneMoreOffered(kept: seq<Frame>, offered: seq<Frame>, at: seq<nat>)
    requires offered != [] && WereOffered(kept, offered[..|offered| - 1], at) && offered[|offered| - 1].stats != []
    ensures WereOffered(kept + [Stripped(offered[|offered| - 1])], offered, at + [|offered| - 1])
  {
  }

  /** A frame with readings is kept when it is offered, unless it comes too soon after one
      kept before it; and what is kept stays kept. */
  lemma {:induction false} ThinnedIsGreedy(offered: seq<Frame>, i: nat)
    requires i < |offered| && offered[i].stats != []
    ensures (exists k :: k in Thinned(offered[..i + 1]) && KeptAs(k, offered[i])) ||
            exists k :: k in Thinned(offered[..i]) && offered[i].at - k.at < DEDUPE
    ensures Thinned(offered[..i + 1]) <= Thinned(offered)
    decreases |offered|
  {
    if i < |offered| - 1 {
      var init := offered[..|offered| - 1];
      assert init[..i] == offered[..i] && init[..i + 1] == offered[..i + 1];
      ThinnedIsGreedy(init, i);
    } else {
      var kept := Thinned(offered[..i]);
      assert offered[..i + 1] == offered;
      if TooSoon(kept, offered[i]) {
        assert kept[|kept| - 1] in kept;
      } else {
        assert Stripped(offered[i]) in Thinned(offered) && KeptAs(Stripped(offered[i]), offered[i]);
      }
    }
  }

  // The client's series.

  /** A reading of one instance, and when it was taken, when that is known. */
  datatype Reading = Reading(at: Option<int>, value: int)

  /** The times and values held of one instance, the newest last. */
  datatype Series = Series(at: seq<int>, values: seq<int>)

  predicate Held(s: Series, r: Reading) {
    r.at.Some? && s.at != [] && r.at.value <= s.at[|s.at| - 1]
  }

  function Push(s: Series, r: Reading): Series {
    if Held(s, r) then s
    else Series(if r.at.None? then [] else LastOf(s.at + [r.at.value], SAMPLES), LastOf(s.values + [r.value], SAMPLES))
  }

  function Pushed(readings: seq<Reading>): Series {
    if readings == [] then Series([], []) else Push(Pushed(readings[..|readings| - 1]), readings[|readings| - 1])
  }

  class Charts {
    var at: map<string, seq<int>>
    var values: map<string, seq<int>>

    function Of(name: string): Series
      reads this
    {
      Series(if name in at then at[name] else [], if name in values then values[name] else [])
    }

    constructor ()
      ensures forall n :: Of(n) == Series([], [])
    {
      at, values := map[], map[];
    }

    /** One instance's reading in a stats frame. */
    method Apply(name: string, r: Reading)
      modifies this
      ensures Of(name) == Push(old(Of(name)), r)
      ensures forall n | n != name :: Of(n) == old(Of(n))
    {
      var times := if name in at then at[name] else [];
      if r.at.Some? && |times| > 0 && r.at.value <= times[|times| - 1] {
        return;
      }
      if r.at.None? {
        at := at - {name};
      } else {
        times := times + [r.at.value];
        if |times| > SAMPLES {
          times := times[|times| - SAMPLES..];
        }
        at := at[name := times];
      }
      var vs := (if name in values then values[name] else []) + [r.value];
      if |vs| > SAMPLES {
        vs := vs[|vs| - SAMPLES..];
      }
      values := values[name := vs];
    }
  }

  /** The readings that were not held already when they came. */
  function Accepted(readings: seq<Reading>): seq<Reading> {
    if readings == [] then []
    else
      var before, r := Accepted(readings[..|readings| - 1]), readings[|readings| - 1];
      if (&& r.at.Some? && before != [] && before[|before| - 1].at.Some?
          && r.at.value <= before[|before| - 1].at.value) then before
      else before + [r]
  }

  /** The times at the end of some readings, back to the last one without. */
  function Times(readings: seq<Reading>): seq<int> {
    if readings == [] || readings[|readings| - 1].at.None? then []
    else Times(readings[..|readings| - 1]) + [readings[|readings| - 1].at.value]
  }

  function Values(readings: seq<Reading>): seq<int> {
    seq(|readings|, i requires 0 <= i < |readings| => readings[i].value)
  }

  /** A series is the newest of the readings accepted, whatever was sent again. */
  lemma {:induction false} SeriesIsNewestAccepted(readings: seq<Reading>)
    ensures Pushed(readings).at == LastOf(Times(Accepted(readings)), SAMPLES)
    ensures Pushed(readings).values == LastOf(Values(Accepted(readings)), SAMPLES)
  {
    if readings != [] {
      var init, r := readings[..|readings| - 1], readings[|readings| - 1];
      SeriesIsNewestAccepted(init);
      var before := Accepted(init);
      TimesEnd(before);
      assert (before + [r])[..|before|] == before;
      assert Values(before + [r]) == Values(before) + [r.value];
      LastAppends(Values(before), r.value, SAMPLES);
      LastAppends(Times(before), if r.at.Some? then r.at.value else 0, SAMPLES);
    }
  }

  lemma TimesEnd(readings: seq<Reading>)
    ensures Times(readings) == [] <==> readings == [] || readings[|readings| - 1].at.None?
    ensures Times(readings) != [] ==> Times(readings)[|Times(readings)| - 1] == readings[|readings| - 1].at.value
  {
  }

  /** A series' kth newest value, and time when it has one, are those of the kth newest of
      some readings. */
  ghost predicate LinesUp(s: Series, acc: seq<Reading>, k: nat) {
    && |s.at| <= |s.values| <= |acc| && |s.values| <= SAMPLES
    && (k < |s.values| ==> s.values[|s.values| - 1 - k] == acc[|acc| - 1 - k].value)
    && (k < |s.at| ==> acc[|acc| - 1 - k].at == Some(s.at[|s.at| - 1 - k]))
  }

  /** Times and values line up from the newest back, each pair a reading that was accepted. */
  lemma SeriesLinesUp(readings: seq<Reading>, k: nat)
    ensures LinesUp(Pushed(readings), Accepted(readings), k)
  {
    SeriesIsNewestAccepted(readings);
    var acc := Accepted(readings);
    TimesLineUp(acc, k);
    NewestLineUp(acc, Times(acc), Pushed(readings), k);
  }

  lemma NewestLineUp(acc: seq<Reading>, times: seq<int>, s: Series, k: nat)
    requires s.at == LastOf(times, SAMPLES) && s.values == LastOf(Values(acc), SAMPLES) && |times| <= |acc|
    requires k < |times| ==> Some(times[|times| - 1 - k]) == acc[|acc| - 1 - k].at
    ensures LinesUp(s, acc, k)
  {
    LastLinesUp(times, SAMPLES, k);
    LastLinesUp(Values(acc), SAMPLES, k);
  }

  lemma LastLinesUp<T>(q: seq<T>, n: nat, k: nat)
    ensures |LastOf(q, n)| == if |q| > n then n else |q|
    ensures k < |LastOf(q, n)| ==> LastOf(q, n)[|LastOf(q, n)| - 1 - k] == q[|q| - 1 - k]
  {
  }

  lemma {:induction false} TimesLineUp(acc: seq<Reading>, k: nat)
    ensures |Times(acc)| <= |acc|
    ensures k < |Times(acc)| ==> Some(Times(acc)[|Times(acc)| - 1 - k]) == acc[|acc| - 1 - k].at
  {
    if acc != [] && acc[|acc| - 1].at.Some? {
      TimesLineUp(acc[..|acc| - 1], if k > 0 then k - 1 else 0);
    }
  }

  /** The times held only go forward. */
  lemma SeriesGoesForward(readings: seq<Reading>)
    ensures forall i, j | 0 <= i < j < |Pushed(readings).at| :: Pushed(readings).at[i] < Pushed(readings).at[j]
  {
    SeriesIsNewestAccepted(readings);
    TimesForward(readings);
  }

  lemma {:induction false} TimesForward(readings: seq<Reading>)
    ensures forall i, j | 0 <= i < j < |Times(Accepted(readings))| ::
        Times(Accepted(readings))[i] < Times(Accepted(readings))[j]
  {
    if readings != [] {
      var init, r := readings[..|readings| - 1], readings[|readings| - 1];
      TimesForward(init);
      var before := Accepted(init);
      TimesEnd(before);
      assert (before + [r])[..|before|] == before;
    }
  }

  /** Sending again what was sent changes nothing, as long as every reading was stamped. */
  lemma {:induction false} ReplayChangesNothing(readings: seq<Reading>, again: seq<Reading>)
    requires forall r | r in readings :: r.at.Some?
    requires forall r | r in again :: r in readings
    ensures Pushed(readings + again) == Pushed(readings)
    decreases |again|
  {
    if again == [] {
      assert readings + again == readings;
    } else {
      var init, r := again[..|again| - 1], again[|again| - 1];
      ReplayChangesNothing(readings, init);
      assert (readings + again)[..|readings + again| - 1] == readings + init;
      LatestIsHeld(readings, r);
    }
  }

  lemma {:induction false} LatestIsHeld(readings: seq<Reading>, r: Reading)
    requires forall r' | r' in readings :: r'.at.Some?
    requires r in readings
    ensures Held(Pushed(readings), r)
  {
    var init, last := readings[..|readings| - 1], readings[|readings| - 1];
    assert readings == init + [last];
    if r != last {
      LatestIsHeld(init, r);
    }
  }
}
