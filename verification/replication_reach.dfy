/** What an instances subscription can do: show a client that connects what there is, tell it
    of every change that is announced, and pass on every reading. */
module ReplicationReach {
  import opened Replication
  import opened ReplicationFold
  import opened ReplicationRun

  /** From s, the actions lead to t. */
  ghost predicate Goes(s: State, actions: seq<Action>, t: State, clean: Clean) {
    Possible(s, actions, clean) && After(s, actions, clean) == t
  }

  lemma OneMore(s: State, a: Action, u: State, more: seq<Action>, t: State, clean: Clean)
    requires s.Grown() && Can(s, a, clean) && Do(s, a, clean) == u && Goes(u, more, t, clean)
    ensures Goes(s, [a] + more, t, clean)
  {
    assert ([a] + more)[1..] == more;
    StepFirst(s, [a] + more, clean);
  }

  lemma Nothing(s: State, clean: Clean)
    ensures Goes(s, [], s, clean)
  {
  }

  /** The frame that says what changed since the daemon last sent. */
  function Difference(s: State, now: seq<View>, removed: seq<string>): Frame {
    Instances(s.first, ChangedViews(now, s.last, s.first), removed)
  }

  ghost predicate Gone(s: State, now: seq<View>, removed: seq<string>) {
    forall n :: n in removed <==> n in s.last && n !in ViewsByName(now)
  }

  /** A daemon about to look, whose difference is worth sending, sends it, and the client is
      shown it; then both wait. */
  lemma LooksAndSends(s: State, removed: seq<string>, clean: Clean) returns (t: State)
    requires s.Grown() && s.phase.Ready? && !s.wake && s.wire == []
    requires Gone(s, s.versions[s.Newest()], removed)
    requires var f := Difference(s, s.versions[s.Newest()], removed); s.first || f.views != [] || f.removed != []
    ensures Goes(s, [Look(Difference(s, s.versions[s.Newest()], removed)), Send, Deliver], t, clean)
    ensures t.versions == s.versions && t.announced == s.announced && Settled(t) && !t.first
    ensures t.looked == t.shown == s.Newest() && t.last == ViewsByName(s.versions[s.Newest()])
    ensures t.rows == Applied(s.rows, Difference(s, s.versions[s.Newest()], removed), clean)
  {
    var f := Difference(s, s.versions[s.Newest()], removed);
    var s1 := Looked(s, f);
    var s2 := Do(s1, Send, clean);
    assert s2.wire == [Sent(f, s1.looked)];
    t := Do(s2, Deliver, clean);
    Nothing(t, clean);
    OneMore(s2, Deliver, t, [], t, clean);
    OneMore(s1, Send, s2, [Deliver], t, clean);
    OneMore(s, Look(f), s1, [Send] + [Deliver], t, clean);
    assert [Look(f)] + ([Send] + ([Deliver] + [])) == [Look(f), Send, Deliver];
  }

  /** A client that connects, whenever it does and whatever it showed before, is shown what
      the registry holds. */
  lemma ConnectedClientIsShownAll(s: State, clean: Clean) returns (t: State)
    requires Inv(s, clean) && s.phase.Off?
    ensures Goes(s, [Connect, Look(Instances(true, s.versions[s.Newest()], [])), Send, Deliver], t, clean)
    ensures Settled(t) && t.versions == s.versions && t.rows == Cleaned(s.versions[s.Newest()], clean)
    ensures t.shown == s.Newest()
  {
    var s1 := Do(s, Connect, clean);
    FirstIsAll(s.versions[s.Newest()], map[]);
    t := LooksAndSends(s1, [], clean);
    OneMore(s, Connect, s1, [Look(Instances(true, s.versions[s.Newest()], [])), Send, Deliver], t, clean);
    assert DropAll(Cleaned(s.versions[s.Newest()], clean), []) == Cleaned(s.versions[s.Newest()], clean);
  }

  /** A change that announces itself wakes the daemon, and the client is shown it. */
  lemma AnnouncedChangeArrives(s: State, now: seq<View>, removed: seq<string>, clean: Clean) returns (t: State)
    requires Inv(s, clean) && Settled(s) && DistinctNames(now) && CleanNames(now, clean) && Gone(s, now, removed)
    requires ChangedViews(now, s.last, false) != [] || removed != []
    ensures var f := Instances(false, ChangedViews(now, s.last, false), removed);
            Goes(s, [Change(now, true), Wake, Rest, Look(f), Send, Deliver], t, clean)
    ensures Settled(t) && t.versions == s.versions + [now] && t.announced == t.shown == |s.versions|
    ensures Shows(t.rows, Bodies(ViewsByName(now), clean))
  {
    var f := Instances(false, ChangedViews(now, s.last, false), removed);
    var s1 := ReplicationRun.Changed(s, now, true);
    var s2 := Do(s1, Wake, clean);
    var s3 := Do(s2, Rest, clean);
    t := LooksAndSends(s3, removed, clean);
    OneMore(s2, Rest, s3, [Look(f), Send, Deliver], t, clean);
    OneMore(s1, Wake, s2, [Rest] + [Look(f), Send, Deliver], t, clean);
    OneMore(s, Change(now, true), s1, [Wake] + ([Rest] + [Look(f), Send, Deliver]), t, clean);
    var steps := [Change(now, true), Wake, Rest, Look(f), Send, Deliver];
    assert [Change(now, true)] + ([Wake] + ([Rest] + [Look(f), Send, Deliver])) == steps;
    RunKeepsInv(s, steps, clean);
  }

  /** One that makes no difference to what was sent wakes the daemon to no purpose. */
  lemma EmptyChangeSendsNothing(s: State, now: seq<View>, clean: Clean) returns (t: State)
    requires Inv(s, clean) && Settled(s) && DistinctNames(now) && CleanNames(now, clean) && Gone(s, now, [])
    requires ChangedViews(now, s.last, false) == []
    ensures Goes(s, [Change(now, true), Wake, Rest, Look(Instances(false, [], []))], t, clean)
    ensures Settled(t) && t.rows == s.rows && t.looked == |s.versions| && t.last == ViewsByName(now)
  {
    var f := Instances(false, [], []);
    var s1 := ReplicationRun.Changed(s, now, true);
    var s2 := Do(s1, Wake, clean);
    var s3 := Do(s2, Rest, clean);
    t := Do(s3, Look(f), clean);
    Nothing(t, clean);
    OneMore(s3, Look(f), t, [], t, clean);
    OneMore(s2, Rest, s3, [Look(f)] + [], t, clean);
    OneMore(s1, Wake, s2, [Rest] + ([Look(f)] + []), t, clean);
    OneMore(s, Change(now, true), s1, [Wake] + ([Rest] + ([Look(f)] + [])), t, clean);
    assert [Change(now, true)] + ([Wake] + ([Rest] + ([Look(f)] + [])))
        == [Change(now, true), Wake, Rest, Look(f)];
  }

  /** A reading is passed on whatever the daemon is about, and changes meters alone. */
  lemma ReadingIsPassedOn(s: State, readings: seq<(string, nat)>, clean: Clean)
    requires Inv(s, clean) && !s.phase.Off? && s.wire == []
    ensures Goes(s, [Readings(readings), Deliver], s.(rows := Applied(s.rows, Stats(readings), clean)), clean)
  {
    var s1 := Do(s, Readings(readings), clean);
    var t := s.(rows := Applied(s.rows, Stats(readings), clean));
    assert s1.wire == [Sent(Stats(readings), s.shown)];
    assert Do(s1, Deliver, clean) == t;
    Nothing(t, clean);
    OneMore(s1, Deliver, t, [], t, clean);
    OneMore(s, Readings(readings), s1, [Deliver] + [], t, clean);
    assert [Readings(readings)] + ([Deliver] + []) == [Readings(readings), Deliver];
  }
}
