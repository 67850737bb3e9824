/** What the frames of an instances subscription do to the table a client shows. */
module ReplicationFold {
  import opened Replication

  /** What a client shows of what was last sent: the cleaned text, by name. */
  function Bodies(last: map<string, View>, clean: Clean): map<string, string> {
    map n | n in last :: clean.body(last[n].body)
  }

  /** The rows are exactly the table m, one row to a name. Meters are not compared: a
      stats frame changes them in place. */
  ghost predicate Shows(rows: seq<View>, m: map<string, string>) {
    && DistinctNames(rows)
    && (forall r | r in rows :: r.name in m && m[r.name] == r.body)
    && (forall n | n in m :: Listed(rows, n))
  }

  ghost predicate Listed(rows: seq<View>, n: string) {
    exists r :: r in rows && r.name == n
  }

  /** Names are drawn as they are. */
  ghost predicate CleanNames(views: seq<View>, clean: Clean) {
    forall v | v in views :: clean.name(v.name) == v.name
  }

  lemma UpsertLists(rows: seq<View>, v: View, n: string)
    requires Listed(rows, n) || n == v.name
    ensures Listed(Upsert(rows, v), n)
  {
    var now := Upsert(rows, v);
    if n == v.name {
      if k :| 0 <= k < |rows| && rows[k].name == v.name {
        assert now[k] in now;
      } else {
        assert v in now;
      }
    } else {
      var r :| r in rows && r.name == n;
      var k :| 0 <= k < |rows| && rows[k] == r;
      assert now[k] == r && now[k] in now;
    }
  }

  lemma UpsertShows(rows: seq<View>, m: map<string, string>, v: View)
    requires Shows(rows, m)
    ensures Shows(Upsert(rows, v), m[v.name := v.body])
  {
    var now, after := Upsert(rows, v), m[v.name := v.body];
    forall r | r in now ensures r.name in after && after[r.name] == r.body {
      var k :| 0 <= k < |now| && now[k] == r;
      assert k < |rows| ==> rows[k] in rows;
    }
    forall n | n in after ensures Listed(now, n) {
      UpsertLists(rows, v, n);
    }
  }

  lemma BodiesOneMore(a: map<string, string>, b: map<string, View>, n: string, v: View, clean: Clean)
    ensures a + Bodies(b[n := v], clean) == (a + Bodies(b, clean))[n := clean.body(v.body)]
  {
  }

  lemma {:induction false} UpsertsShow(rows: seq<View>, m: map<string, string>, views: seq<View>, clean: Clean)
    requires Shows(rows, m) && CleanNames(views, clean)
    ensures Shows(Upserts(rows, views, clean), m + Bodies(ViewsByName(views), clean))
  {
    if views == [] {
      assert m + Bodies(ViewsByName(views), clean) == m;
    } else {
      var init, v := views[..|views| - 1], views[|views| - 1];
      UpsertsShow(rows, m, init, clean);
      UpsertShows(Upserts(rows, init, clean), m + Bodies(ViewsByName(init), clean), clean.View(v));
      BodiesOneMore(m, ViewsByName(init), v.name, v, clean);
    }
  }

  lemma {:induction false} DropHolds(rows: seq<View>, name: string)
    ensures forall r :: r in DropNamed(rows, name) <==> r in rows && r.name != name
    ensures DistinctNames(rows) ==> DistinctNames(DropNamed(rows, name))
  {
    if rows != [] {
      var init, last := rows[..|rows| - 1], rows[|rows| - 1];
      DropHolds(init, name);
      assert rows == init + [last];
      if DistinctNames(rows) {
        forall r | r in DropNamed(init, name) ensures r.name != last.name {
          var k :| 0 <= k < |init| && init[k] == r;
          assert rows[k].name != rows[|init|].name;
        }
      }
    }
  }

  lemma DropShows(rows: seq<View>, m: map<string, string>, name: string)
    requires Shows(rows, m)
    ensures Shows(DropNamed(rows, name), m - {name})
  {
    DropHolds(rows, name);
    forall n | n in m - {name} ensures Listed(DropNamed(rows, name), n) {
      var r :| r in rows && r.name == n;
      assert r in DropNamed(rows, name);
    }
  }

  function NameSet(names: seq<string>): set<string> {
    set n | n in names
  }

  lemma {:induction false} DropAllShows(rows: seq<View>, m: map<string, string>, names: seq<string>)
    requires Shows(rows, m)
    ensures Shows(DropAll(rows, names), m - NameSet(names))
  {
    if names == [] {
      assert m - NameSet(names) == m;
    } else {
      var init, n := names[..|names| - 1], names[|names| - 1];
      DropAllShows(rows, m, init);
      DropShows(DropAll(rows, init), m - NameSet(init), n);
      assert names == init + [n];
      assert m - NameSet(init) - {n} == m - NameSet(names);
    }
  }

  lemma MeterShows(rows: seq<View>, m: map<string, string>, name: string, meters: nat)
    requires Shows(rows, m)
    ensures Shows(Metered(rows, name, meters), m)
  {
    var now := Metered(rows, name, meters);
    forall r | r in now ensures r.name in m && m[r.name] == r.body {
      var k :| 0 <= k < |now| && now[k] == r;
      assert rows[k] in rows;
    }
    forall n | n in m ensures Listed(now, n) {
      var r :| r in rows && r.name == n;
      var k :| 0 <= k < |rows| && rows[k] == r;
      assert now[k] in now;
    }
  }

  lemma {:induction false} MetersShow(rows: seq<View>, m: map<string, string>, readings: seq<(string, nat)>)
    requires Shows(rows, m)
    ensures Shows(MeteredAll(rows, readings), m)
  {
    if readings != [] {
      MetersShow(rows, m, readings[..|readings| - 1]);
      MeterShows(MeteredAll(rows, readings[..|readings| - 1]), m, readings[|readings| - 1].0,
          readings[|readings| - 1].1);
    }
  }

  /** A snapshot shows exactly what it carries, whatever was shown before. */
  lemma SnapshotShows(views: seq<View>, clean: Clean)
    requires DistinctNames(views) && CleanNames(views, clean)
    ensures Shows(Cleaned(views, clean), Bodies(ViewsByName(views), clean))
  {
    var rows := Cleaned(views, clean);
    ViewsByNameHolds(views);
    forall i, j | 0 <= i < j < |rows| ensures rows[i].name != rows[j].name {
      assert views[i] in views && views[j] in views;
    }
    forall r | r in rows ensures r.name in ViewsByName(views) && clean.body(ViewsByName(views)[r.name].body) == r.body {
      var k :| 0 <= k < |rows| && rows[k] == r;
      assert views[k] in views;
      ViewsByNameFinds(views, views[k]);
    }
    forall n | n in ViewsByName(views) ensures Listed(rows, n) {
      var k :| 0 <= k < |views| && views[k] == ViewsByName(views)[n];
      assert rows[k] in rows && views[k] in views;
    }
  }

  lemma ChangedAsNow(now: seq<View>, was: map<string, View>, n: string)
    requires DistinctNames(now)
    ensures var changed := ViewsByName(ChangedViews(now, was, false));
            && (n in changed ==> n in ViewsByName(now) && changed[n] == ViewsByName(now)[n])
            && (n in ViewsByName(now) && n !in changed ==> n in was && was[n] == ViewsByName(now)[n])
  {
    var changed := ChangedViews(now, was, false);
    ViewsByNameHolds(now);
    ViewsByNameHolds(changed);
    ChangedViewsHold(now, was, false);
    if n in ViewsByName(changed) {
      ViewsByNameFinds(now, ViewsByName(changed)[n]);
    }
  }

  lemma ChangesMakeNow(now: seq<View>, was: map<string, View>, clean: Clean, removed: seq<string>)
    requires DistinctNames(now) && forall n :: n in removed <==> n in was && n !in ViewsByName(now)
    ensures Bodies(was, clean) + Bodies(ViewsByName(ChangedViews(now, was, false)), clean) - NameSet(removed)
         == Bodies(ViewsByName(now), clean)
  {
    forall n ensures var changed := ViewsByName(ChangedViews(now, was, false));
            && (n in changed ==> n in ViewsByName(now) && changed[n] == ViewsByName(now)[n])
            && (n in ViewsByName(now) && n !in changed ==> n in was && was[n] == ViewsByName(now)[n])
    {
      ChangedAsNow(now, was, n);
    }
  }

  /** Applying a diff to rows that show what was last sent shows what is sent now. */
  lemma DiffShows(rows: seq<View>, f: Frame, now: seq<View>, was: map<string, View>, first: bool, clean: Clean)
    requires DistinctNames(now) && CleanNames(now, clean) && IsDiff(f, now, was, first)
    requires if first then was == map[] else Shows(rows, Bodies(was, clean))
    ensures Shows(Applied(rows, f, clean), Bodies(ViewsByName(now), clean))
  {
    ChangedViewsHold(now, was, first);
    if first {
      FirstIsAll(now, was);
      SnapshotShows(now, clean);
      DropAllShows(Cleaned(now, clean), Bodies(ViewsByName(now), clean), f.removed);
      assert Bodies(ViewsByName(now), clean) - NameSet(f.removed) == Bodies(ViewsByName(now), clean);
    } else {
      UpsertsShow(rows, Bodies(was, clean), f.views, clean);
      DropAllShows(Upserts(rows, f.views, clean), Bodies(was, clean) + Bodies(ViewsByName(f.views), clean), f.removed);
      ChangesMakeNow(now, was, clean, f.removed);
    }
  }

  lemma {:induction false} FirstIsAll(now: seq<View>, was: map<string, View>)
    ensures ChangedViews(now, was, true) == now
  {
    if now != [] {
      FirstIsAll(now[..|now| - 1], was);
    }
  }
}
