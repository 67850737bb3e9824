/** What a frame makes of a client's rows, row by row: which rows there are after it, in what
    order, and with what meters. */
module ReplicationRows {
  import opened Replication
  import opened ReplicationFold

  ghost predicate InOrder(q: seq<nat>) {
    forall i, j | 0 <= i < j < |q| :: q[i] < q[j]
  }

  // A stats frame.

  /** No later reading is of the same instance. */
  ghost predicate LastOfItsName(readings: seq<(string, nat)>, k: nat)
    requires k < |readings|
  {
    forall j | k < j < |readings| :: readings[j].0 != readings[k].0
  }

  ghost predicate Read(readings: seq<(string, nat)>, name: string) {
    exists k :: 0 <= k < |readings| && readings[k].0 == name
  }

  /** A stats frame gives each row the meters of the last reading of its name, and changes
      nothing else: not the other rows, nor names, bodies and order. */
  lemma {:induction false} StatsSetMeters(rows: seq<View>, readings: seq<(string, nat)>, clean: Clean)
    ensures var now := Applied(rows, Stats(readings), clean);
            && |now| == |rows|
            && (forall i | 0 <= i < |rows| :: now[i].name == rows[i].name && now[i].body == rows[i].body)
            && (forall i, k | 0 <= i < |rows| && 0 <= k < |readings| ::
                  readings[k].0 == rows[i].name && LastOfItsName(readings, k) ==> now[i].meters == readings[k].1)
            && (forall i | 0 <= i < |rows| && !Read(readings, rows[i].name) :: now[i].meters == rows[i].meters)
    decreases |readings|
  {
    if readings != [] {
      var init := readings[..|readings| - 1];
      StatsSetMeters(rows, init, clean);
      var before, now := Applied(rows, Stats(init), clean), Applied(rows, Stats(readings), clean);
      forall i, k | 0 <= i < |rows| && 0 <= k < |readings| && readings[k].0 == rows[i].name
          && LastOfItsName(readings, k)
        ensures now[i].meters == readings[k].1
      {
        if k < |init| {
          assert init[k] == readings[k] && LastOfItsName(init, k);
        }
      }
      forall i | 0 <= i < |rows| && !Read(readings, rows[i].name) ensures now[i].meters == rows[i].meters {
        assert !Read(init, rows[i].name);
      }
    }
  }

  // An instances frame.

  /** A view as it is drawn. */
  ghost predicate Draws(r: View, v: View, clean: Clean) {
    r.name == clean.name(v.name) && r.body == clean.body(v.body) && r.meters == v.meters
  }

  /** A view is drawn under this name. */
  ghost predicate Lists(views: seq<View>, name: string, clean: Clean) {
    exists k :: 0 <= k < |views| && clean.name(views[k].name) == name
  }

  /** A snapshot's rows are its views as they are drawn, in their order. */
  lemma SnapshotRows(rows: seq<View>, views: seq<View>, clean: Clean)
    ensures var now := Applied(rows, Instances(true, views, []), clean);
            |now| == |views| && forall i | 0 <= i < |views| :: Draws(now[i], views[i], clean)
  {
  }

  /** What is left of rows without those of some names, in order: the ones at the places kept. */
  ghost predicate Leaves(rows: seq<View>, names: set<string>, now: seq<View>, kept: seq<nat>) {
    && InOrder(kept) && (forall k :: k in kept <==> 0 <= k < |rows| && rows[k].name !in names)
    && |now| == |kept| && forall p | 0 <= p < |kept| :: kept[p] < |rows| && now[p] == rows[kept[p]]
  }

  lemma {:induction false} DropLeaves(rows: seq<View>, name: string) returns (kept: seq<nat>)
    ensures Leaves(rows, {name}, DropNamed(rows, name), kept)
    decreases |rows|
  {
    kept := [];
    if rows != [] {
      var init := rows[..|rows| - 1];
      var before := DropLeaves(init, name);
      kept := if rows[|init|].name != name then before + [|init|] else before;
      OneMoreLeft(rows, name, DropNamed(init, name), before, kept);
    }
  }

  lemma OneMoreLeft(rows: seq<View>, name: string, now: seq<View>, before: seq<nat>, kept: seq<nat>)
    requires rows != [] && Leaves(rows[..|rows| - 1], {name}, now, before)
    requires kept == if rows[|rows| - 1].name != name then before + [|rows| - 1] else before
    ensures Leaves(rows, {name}, if rows[|rows| - 1].name != name then now + [rows[|rows| - 1]] else now, kept)
  {
    OneMorePlace(rows, name, before, kept);
    var now' := if rows[|rows| - 1].name != name then now + [rows[|rows| - 1]] else now;
    forall p | 0 <= p < |kept| ensures kept[p] < |rows| && now'[p] == rows[kept[p]] {
      if p < |before| {
        assert rows[..|rows| - 1][before[p]] == rows[before[p]];
      }
    }
  }

  lemma OneMorePlace(rows: seq<View>, name: string, before: seq<nat>, kept: seq<nat>)
    requires rows != [] && InOrder(before)
    requires forall k :: k in before <==> 0 <= k < |rows| - 1 && rows[..|rows| - 1][k].name !in {name}
    requires kept == if rows[|rows| - 1].name != name then before + [|rows| - 1] else before
    ensures InOrder(kept) && forall k :: k in kept <==> 0 <= k < |rows| && rows[k].name !in {name}
  {
    forall k ensures k in kept <==> 0 <= k < |rows| && rows[k].name !in {name} {
      assert k in kept <==> k in before || (k == |rows| - 1 && rows[k].name != name);
    }
    forall p | 0 <= p < |before| ensures before[p] < |rows| - 1 {
      assert before[p] in before;
    }
  }

  /** The rows an upsert leaves: each in its place, the one of that name replaced; a new
      one at the end. */
  lemma UpsertKeeps(rows: seq<View>, v: View)
    ensures var now := Upsert(rows, v);
            && (forall i | 0 <= i < |rows| :: now[i] == if rows[i].name == v.name then v else rows[i])
            && if (exists i :: 0 <= i < |rows| && rows[i].name == v.name) then |now| == |rows|
               else |now| == |rows| + 1 && now[|rows|] == v
  {
  }

  /** No row has the name view k is drawn under. */
  ghost predicate IsNew(rows: seq<View>, views: seq<View>, clean: Clean, k: int) {
    0 <= k < |views| && forall i | 0 <= i < |rows| :: rows[i].name != clean.name(views[k].name)
  }

  /** Row i is the view that is drawn under its name, or itself when there is none. */
  ghost predicate RowIsLaid(rows: seq<View>, views: seq<View>, clean: Clean, now: seq<View>, i: nat)
    requires i < |rows| <= |now|
  {
    && (forall k | 0 <= k < |views| && clean.name(views[k].name) == rows[i].name :: Draws(now[i], views[k], clean))
    && (!Lists(views, rows[i].name, clean) ==> now[i] == rows[i])
  }

  /** The places of the views of new names, in order. */
  ghost predicate NewPlaces(rows: seq<View>, views: seq<View>, clean: Clean, added: seq<nat>) {
    && InOrder(added) && (forall k :: k in added <==> IsNew(rows, views, clean, k))
    && forall p | 0 <= p < |added| :: IsNew(rows, views, clean, added[p])
  }

  /** They follow the rows, as they are drawn. */
  ghost predicate NewFollow(rows: seq<View>, views: seq<View>, clean: Clean, now: seq<View>, added: seq<nat>)
    requires NewPlaces(rows, views, clean, added) && |now| == |rows| + |added|
  {
    forall p | 0 <= p < |added| :: Draws(now[|rows| + p], views[added[p]], clean)
  }

  /** What views laid over rows leave: a row that is named is the view as it is drawn, and
      stays where it is; any other is left alone; and views of new names follow, in their
      order. */
  ghost predicate LaidOver(rows: seq<View>, views: seq<View>, clean: Clean, now: seq<View>, added: seq<nat>) {
    && |now| == |rows| + |added|
    && (forall i | 0 <= i < |rows| :: RowIsLaid(rows, views, clean, now, i))
    && NewPlaces(rows, views, clean, added) && NewFollow(rows, views, clean, now, added)
  }

  lemma {:induction false} UpsertsLayOver(rows: seq<View>, views: seq<View>, clean: Clean) returns (added: seq<nat>)
    requires DistinctNames(Cleaned(views, clean))
    ensures LaidOver(rows, views, clean, Upserts(rows, views, clean), added)
    decreases |views|
  {
    added := [];
    if views != [] {
      var n := |views| - 1;
      var init := views[..n];
      InitIsDistinct(views, clean);
      var before := UpsertsLayOver(rows, init, clean);
      added := if IsNew(rows, views, clean, n) then before + [n] else before;
      OneMoreLaid(rows, views, clean, Upserts(rows, init, clean), before, added);
    }
  }

  lemma InitIsDistinct(views: seq<View>, clean: Clean)
    requires views != [] && DistinctNames(Cleaned(views, clean))
    ensures DistinctNames(Cleaned(views[..|views| - 1], clean))
    ensures forall k | 0 <= k < |views| - 1 :: clean.name(views[k].name) != clean.name(views[|views| - 1].name)
  {
    var all, init := Cleaned(views, clean), Cleaned(views[..|views| - 1], clean);
    assert forall k | 0 <= k < |init| :: init[k] == all[k];
    forall k | 0 <= k < |views| - 1 ensures clean.name(views[k].name) != clean.name(views[|views| - 1].name) {
      assert all[k].name != all[|views| - 1].name;
    }
  }

  lemma OneMoreLaid(rows: seq<View>, views: seq<View>, clean: Clean, was: seq<View>, before: seq<nat>, added: seq<nat>)
    requires views != [] && LaidOver(rows, views[..|views| - 1], clean, was, before)
    requires DistinctNames(Cleaned(views, clean))
    requires added == if IsNew(rows, views, clean, |views| - 1) then before + [|views| - 1] else before
    ensures LaidOver(rows, views, clean, Upsert(was, clean.View(views[|views| - 1])), added)
  {
    var now := Upsert(was, clean.View(views[|views| - 1]));
    UpsertKeeps(was, clean.View(views[|views| - 1]));
    NamedIff(rows, views, clean, was, before);
    NewOneMore(rows, views, clean, before, added);
    forall i | 0 <= i < |rows| ensures RowIsLaid(rows, views, clean, now, i) {
      RowOnceMore(rows, views, clean, was, before, i);
    }
    AddedOneMore(rows, views, clean, was, before, added);
  }

  lemma AddedOneMore(rows: seq<View>, views: seq<View>, clean: Clean, was: seq<View>, before: seq<nat>, added: seq<nat>)
    requires views != [] && LaidOver(rows, views[..|views| - 1], clean, was, before)
    requires DistinctNames(Cleaned(views, clean)) && NewPlaces(rows, views, clean, added)
    requires added == if IsNew(rows, views, clean, |views| - 1) then before + [|views| - 1] else before
    requires |Upsert(was, clean.View(views[|views| - 1]))| == |rows| + |added|
    ensures NewFollow(rows, views, clean, Upsert(was, clean.View(views[|views| - 1])), added)
  {
    UpsertKeeps(was, clean.View(views[|views| - 1]));
    var now := Upsert(was, clean.View(views[|views| - 1]));
    forall p | 0 <= p < |added| ensures Draws(now[|rows| + p], views[added[p]], clean) {
      if p < |before| {
        NewOnceMore(rows, views, clean, was, before, p);
      }
    }
  }

  /** A row that was there stays as it was laid, unless the view is of its name. */
  lemma RowOnceMore(rows: seq<View>, views: seq<View>, clean: Clean, was: seq<View>, before: seq<nat>, i: nat)
    requires views != [] && LaidOver(rows, views[..|views| - 1], clean, was, before) && i < |rows|
    requires DistinctNames(Cleaned(views, clean))
    ensures |Upsert(was, clean.View(views[|views| - 1]))| >= |rows|
    ensures RowIsLaid(rows, views, clean, Upsert(was, clean.View(views[|views| - 1])), i)
  {
    var n := |views| - 1;
    var v := clean.View(views[n]);
    InitIsDistinct(views, clean);
    StillNamed(rows, views[..n], clean, was, before);
    UpsertKeeps(was, v);
    assert RowIsLaid(rows, views[..n], clean, was, i);
    if v.name == rows[i].name {
      assert Lists(views, rows[i].name, clean);
    } else {
      assert Lists(views, rows[i].name, clean) ==> Lists(views[..n], rows[i].name, clean);
    }
  }

  /** So does a row that was added. */
  lemma NewOnceMore(rows: seq<View>, views: seq<View>, clean: Clean, was: seq<View>, before: seq<nat>, p: nat)
    requires views != [] && LaidOver(rows, views[..|views| - 1], clean, was, before) && p < |before|
    requires DistinctNames(Cleaned(views, clean))
    ensures before[p] < |views| && |rows| + p < |Upsert(was, clean.View(views[|views| - 1]))|
    ensures Draws(Upsert(was, clean.View(views[|views| - 1]))[|rows| + p], views[before[p]], clean)
  {
    var n := |views| - 1;
    InitIsDistinct(views, clean);
    UpsertKeeps(was, clean.View(views[n]));
    assert IsNew(rows, views[..n], clean, before[p]);
    assert was[|rows| + p].name == clean.name(views[before[p]].name);
  }

  lemma StillNamed(rows: seq<View>, views: seq<View>, clean: Clean, now: seq<View>, added: seq<nat>)
    requires LaidOver(rows, views, clean, now, added)
    ensures forall i | 0 <= i < |rows| :: now[i].name == rows[i].name
    ensures forall p | 0 <= p < |added| ::
              IsNew(rows, views, clean, added[p]) && now[|rows| + p].name == clean.name(views[added[p]].name)
  {
    forall i | 0 <= i < |rows| ensures now[i].name == rows[i].name {
      assert RowIsLaid(rows, views, clean, now, i);
      if k :| 0 <= k < |views| && clean.name(views[k].name) == rows[i].name {
        assert Draws(now[i], views[k], clean);
      }
    }
  }

  lemma NamedIff(rows: seq<View>, views: seq<View>, clean: Clean, was: seq<View>, before: seq<nat>)
    requires views != [] && LaidOver(rows, views[..|views| - 1], clean, was, before)
    requires DistinctNames(Cleaned(views, clean))
    ensures IsNew(rows, views, clean, |views| - 1) <==>
            !exists i :: 0 <= i < |was| && was[i].name == clean.name(views[|views| - 1].name)
  {
    InitIsDistinct(views, clean);
    StillNamed(rows, views[..|views| - 1], clean, was, before);
    forall i | |rows| <= i < |was| ensures was[i].name != clean.name(views[|views| - 1].name) {
      assert IsNew(rows, views[..|views| - 1], clean, before[i - |rows|]);
      assert was[i] == was[|rows| + (i - |rows|)];
    }
    if i :| 0 <= i < |rows| && rows[i].name == clean.name(views[|views| - 1].name) {
      assert was[i].name == rows[i].name;
    }
  }

  lemma NewOneMore(rows: seq<View>, views: seq<View>, clean: Clean, before: seq<nat>, added: seq<nat>)
    requires views != [] && NewPlaces(rows, views[..|views| - 1], clean, before)
    requires added == if IsNew(rows, views, clean, |views| - 1) then before + [|views| - 1] else before
    ensures NewPlaces(rows, views, clean, added)
  {
    var n := |views| - 1;
    forall k | k != n ensures IsNew(rows, views[..n], clean, k) <==> IsNew(rows, views, clean, k) {
    }
    forall p | 0 <= p < |before| ensures before[p] < n {
      assert before[p] in before;
    }
    forall p | 0 <= p < |added| ensures IsNew(rows, views, clean, added[p]) {
      assert added[p] in added;
    }
  }

  /** Removing keeps exactly the rows that are not named, in their order. */
  lemma {:induction false} RemovalLeaves(rows: seq<View>, names: seq<string>) returns (kept: seq<nat>)
    ensures Leaves(rows, NameSet(names), DropAll(rows, names), kept)
    decreases |names|
  {
    if names == [] {
      kept := seq(|rows|, i requires 0 <= i < |rows| => i);
      forall k ensures k in kept <==> 0 <= k < |rows| {
        if 0 <= k < |rows| { assert kept[k] == k; }
      }
    } else {
      var init, n := names[..|names| - 1], names[|names| - 1];
      assert names == init + [n];
      var before := RemovalLeaves(rows, init);
      var more := DropLeaves(DropAll(rows, init), n);
      kept := seq(|more|, p requires 0 <= p < |more| => before[more[p]]);
      LeavesThrough(rows, NameSet(init), DropAll(rows, init), before, n, DropAll(rows, names), more, kept);
      assert NameSet(names) == NameSet(init) + {n};
    }
  }

  lemma LeavesThrough(rows: seq<View>, names: set<string>, was: seq<View>, before: seq<nat>, n: string,
      now: seq<View>, more: seq<nat>, kept: seq<nat>)
    requires Leaves(rows, names, was, before) && Leaves(was, {n}, now, more)
    requires |kept| == |more| && forall p | 0 <= p < |more| :: kept[p] == before[more[p]]
    ensures Leaves(rows, names + {n}, now, kept)
  {
    forall k ensures k in kept <==> 0 <= k < |rows| && rows[k].name !in names + {n} {
      if 0 <= k < |rows| && rows[k].name !in names + {n} {
        assert k in before;
        var q :| 0 <= q < |before| && before[q] == k;
        assert q in more;
        var p :| 0 <= p < |more| && more[p] == q;
        assert kept[p] == k;
      }
      if k in kept {
        var p :| 0 <= p < |kept| && kept[p] == k;
        assert before[more[p]] in before && more[p] in more;
      }
    }
  }

  /** After a frame of changes the rows are exactly the views in it, as they are drawn, and
      the rows no view was laid over, less what was removed. */
  lemma FrameRows(rows: seq<View>, views: seq<View>, removed: seq<string>, clean: Clean)
    requires DistinctNames(Cleaned(views, clean))
    ensures forall r :: r in Applied(rows, Instances(false, views, removed), clean) <==>
              && r.name !in removed
              && ((exists v :: v in views && Draws(r, v, clean)) || (r in rows && !Lists(views, r.name, clean)))
  {
    var start := Upserts(rows, views, clean);
    var added := UpsertsLayOver(rows, views, clean);
    forall r ensures r in Applied(rows, Instances(false, views, removed), clean) <==>
              && r.name !in removed
              && ((exists v :: v in views && Draws(r, v, clean)) || (r in rows && !Lists(views, r.name, clean))) {
      LeftRows(start, removed, r);
      LaidRows(rows, views, clean, start, added, r);
    }
  }

  lemma LeftRows(rows: seq<View>, names: seq<string>, r: View)
    ensures r in DropAll(rows, names) <==> r in rows && r.name !in names
  {
    var kept := RemovalLeaves(rows, names);
    if r in rows && r.name !in names {
      var k :| 0 <= k < |rows| && rows[k] == r;
      assert k in kept;
      var p :| 0 <= p < |kept| && kept[p] == k;
      assert DropAll(rows, names)[p] == r;
    }
    if r in DropAll(rows, names) {
      var p :| 0 <= p < |kept| && DropAll(rows, names)[p] == r;
      assert kept[p] in kept;
    }
  }

  lemma LaidRows(rows: seq<View>, views: seq<View>, clean: Clean, now: seq<View>, added: seq<nat>, r: View)
    requires LaidOver(rows, views, clean, now, added)
    ensures r in now <==>
        (exists v :: v in views && Draws(r, v, clean)) || (r in rows && !Lists(views, r.name, clean))
  {
    if r in now {
      var i :| 0 <= i < |now| && now[i] == r;
      if i >= |rows| {
        assert Draws(now[i], views[added[i - |rows|]], clean) && views[added[i - |rows|]] in views;
      } else {
        assert RowIsLaid(rows, views, clean, now, i);
        if k :| 0 <= k < |views| && clean.name(views[k].name) == rows[i].name {
          assert Draws(now[i], views[k], clean) && views[k] in views;
        } else {
          assert now[i] == rows[i] && rows[i] in rows;
        }
      }
    }
    if v :| v in views && Draws(r, v, clean) {
      var k :| 0 <= k < |views| && views[k] == v;
      ViewIsRow(rows, views, clean, now, added, k, r);
    }
    if r in rows && !Lists(views, r.name, clean) {
      var i :| 0 <= i < |rows| && rows[i] == r;
      assert RowIsLaid(rows, views, clean, now, i);
      assert now[i] == r;
    }
  }

  lemma ViewIsRow(rows: seq<View>, views: seq<View>, clean: Clean, now: seq<View>, added: seq<nat>, k: nat, r: View)
    requires LaidOver(rows, views, clean, now, added) && k < |views| && Draws(r, views[k], clean)
    ensures r in now
  {
    if IsNew(rows, views, clean, k) {
      assert k in added;
      var p :| 0 <= p < |added| && added[p] == k;
      assert now[|rows| + p] == r;
    } else {
      var i :| 0 <= i < |rows| && rows[i].name == clean.name(views[k].name);
      assert RowIsLaid(rows, views, clean, now, i);
      assert now[i] == r;
    }
  }

  /** Rows are exactly some views as they are drawn. */
  ghost predicate AreDrawn(rows: seq<View>, views: set<View>, clean: Clean) {
    forall r :: r in rows <==> exists v :: v in views && Draws(r, v, clean)
  }

  function Views(now: seq<View>): set<View> {
    set v | v in now
  }

  ghost predicate ByItsName(was: map<string, View>, clean: Clean) {
    forall n | n in was :: was[n].name == n && clean.name(n) == n
  }

  lemma SomeIsThere(names: seq<string>)
    ensures names == [] <==> forall n :: n !in names
  {
    if names != [] {
      assert names[0] in names;
    }
  }

  lemma DrawnIsCleaned(now: seq<View>, clean: Clean, r: View)
    ensures r in Cleaned(now, clean) <==> exists v :: v in Views(now) && Draws(r, v, clean)
  {
    if r in Cleaned(now, clean) {
      var k :| 0 <= k < |now| && Cleaned(now, clean)[k] == r;
      assert now[k] in now && Draws(r, now[k], clean);
    }
    if v :| v in now && Draws(r, v, clean) {
      var k :| 0 <= k < |now| && now[k] == v;
      assert Cleaned(now, clean)[k] == r;
    }
  }

  lemma ViewsAreDistinct(now: seq<View>, views: seq<View>, clean: Clean)
    requires DistinctNames(views) && CleanNames(now, clean) && forall v | v in views :: v in now
    ensures DistinctNames(Cleaned(views, clean))
  {
    var drawn := Cleaned(views, clean);
    forall i, j | 0 <= i < j < |drawn| ensures drawn[i].name != drawn[j].name {
      assert views[i] in views && views[j] in views;
    }
  }

  lemma {:induction false} ChangedAreDistinct(now: seq<View>, was: map<string, View>)
    requires DistinctNames(now)
    ensures DistinctNames(ChangedViews(now, was, false))
    decreases |now|
  {
    if now != [] {
      var init := now[..|now| - 1];
      ChangedAreDistinct(init, was);
      ChangedViewsHold(init, was, false);
      forall v | v in init ensures v.name != now[|now| - 1].name {
        var k :| 0 <= k < |init| && init[k] == v;
        assert now[k].name != now[|init|].name;
      }
      forall k | 0 <= k < |ChangedViews(init, was, false)|
        ensures ChangedViews(init, was, false)[k].name != now[|now| - 1].name {
        assert ChangedViews(init, was, false)[k] in ChangedViews(init, was, false);
      }
    }
  }

  /** The view a row is of, before and after a difference. */
  lemma RowIsOfNow(rows: seq<View>, f: Frame, now: seq<View>, was: map<string, View>, clean: Clean, r: View)
    requires DistinctNames(now) && CleanNames(now, clean) && IsDiff(f, now, was, false) && ByItsName(was, clean)
    requires AreDrawn(rows, was.Values, clean)
    ensures (&& r.name !in f.removed
             && ((exists v :: v in f.views && Draws(r, v, clean)) || (r in rows && !Lists(f.views, r.name, clean))))
            <==> exists v :: v in Views(now) && Draws(r, v, clean)
  {
    ChangedViewsHold(now, was, false);
    ViewsByNameHolds(now);
    if r.name !in f.removed && r in rows && !Lists(f.views, r.name, clean) {
      var u :| u in was.Values && Draws(r, u, clean);
      assert r.name in was && was[r.name] == u;
      UnchangedIsSame(f, now, was, clean, r.name);
    }
    if v :| v in now && Draws(r, v, clean) && r.name !in f.removed {
      ViewsByNameFinds(now, v);
      if !Changed(was, false, v) {
        assert was[v.name] in was.Values && Draws(r, was[v.name], clean);
        UnchangedIsNotListed(f, now, was, clean, v);
      }
    }
    if v :| v in now && Draws(r, v, clean) {
      ViewsByNameFinds(now, v);
      assert clean.name(v.name) == v.name;
    }
  }

  lemma UnchangedIsSame(f: Frame, now: seq<View>, was: map<string, View>, clean: Clean, n: string)
    requires DistinctNames(now) && CleanNames(now, clean) && IsDiff(f, now, was, false)
    requires n in was && n !in f.removed && !Lists(f.views, n, clean)
    ensures was[n] in now
  {
    ChangedViewsHold(now, was, false);
    ViewsByNameHolds(now);
    var v := ViewsByName(now)[n];
    assert v in now && v.name == n;
    NotListed(f.views, n, clean);
  }

  lemma NotListed(views: seq<View>, n: string, clean: Clean)
    requires !Lists(views, n, clean)
    ensures forall v | v in views :: clean.name(v.name) != n
  {
    forall k | 0 <= k < |views| ensures clean.name(views[k].name) != n {
    }
  }

  lemma UnchangedIsNotListed(f: Frame, now: seq<View>, was: map<string, View>, clean: Clean, v: View)
    requires DistinctNames(now) && CleanNames(now, clean) && IsDiff(f, now, was, false)
    requires v in now && !Changed(was, false, v)
    ensures !Lists(f.views, v.name, clean)
  {
    ChangedViewsHold(now, was, false);
    if k :| 0 <= k < |f.views| && clean.name(f.views[k].name) == v.name {
      assert f.views[k] in f.views;
      ViewsByNameFinds(now, f.views[k]);
      ViewsByNameFinds(now, v);
    }
  }

  /** Applying what changed to rows that are what was last sent, as it is drawn, meters
      among it, makes them what is sent now. */
  lemma DiffRows(rows: seq<View>, f: Frame, now: seq<View>, was: map<string, View>, first: bool, clean: Clean)
    requires DistinctNames(now) && CleanNames(now, clean) && IsDiff(f, now, was, first) && ByItsName(was, clean)
    requires if first then was == map[] else AreDrawn(rows, was.Values, clean)
    ensures AreDrawn(Applied(rows, f, clean), Views(now), clean)
  {
    if first {
      FirstIsAll(now, was);
      SomeIsThere(f.removed);
      forall r ensures r in Cleaned(now, clean) <==> exists v :: v in Views(now) && Draws(r, v, clean) {
        DrawnIsCleaned(now, clean, r);
      }
    } else {
      ChangedAreDistinct(now, was);
      ChangedViewsHold(now, was, false);
      ViewsAreDistinct(now, f.views, clean);
      FrameRows(rows, f.views, f.removed, clean);
      forall r ensures r in Applied(rows, f, clean) <==> exists v :: v in Views(now) && Draws(r, v, clean) {
        RowIsOfNow(rows, f, now, was, clean, r);
      }
    }
  }
}
