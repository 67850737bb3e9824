/** The instances topic: a daemon that sends what changed since it last looked
    (subInstances), and a client that folds the frames into the list it shows
    (Model.apply). */
module Replication {

  /** One instance's view: its name, its meters, and everything else about it. */
  datatype View = View(name: string, body: string, meters: nat)

  /** Making text safe to draw: a view's name, and the rest of its text. */
  datatype Clean = Clean(name: string -> string, body: string -> string)
  {
    function View(v: View): View {
      v.(name := name(v.name), body := body(v.body))
    }
  }

  datatype Frame =
    | Instances(snapshot: bool, views: seq<View>, removed: seq<string>)
    | Stats(readings: seq<(string, nat)>)

  predicate DistinctNames(views: seq<View>) {
    forall i, j | 0 <= i < j < |views| :: views[i].name != views[j].name
  }

  // The daemon's side.

  function ViewsByName(views: seq<View>): map<string, View> {
    if views == [] then map[]
    else ViewsByName(views[..|views| - 1])[views[|views| - 1].name := views[|views| - 1]]
  }

  lemma {:induction false} ViewsByNameHolds(views: seq<View>)
    ensures forall n | n in ViewsByName(views) :: ViewsByName(views)[n] in views && ViewsByName(views)[n].name == n
    ensures forall v | v in views :: v.name in ViewsByName(views)
  {
    if views != [] {
      ViewsByNameHolds(views[..|views| - 1]);
      assert views == views[..|views| - 1] + [views[|views| - 1]];
    }
  }

  lemma {:induction false} ViewsByNameFinds(views: seq<View>, v: View)
    requires DistinctNames(views) && v in views
    ensures v.name in ViewsByName(views) && ViewsByName(views)[v.name] == v
  {
    var init, last := views[..|views| - 1], views[|views| - 1];
    assert views == init + [last];
    if v != last {
      var k :| 0 <= k < |init| && init[k] == v;
      assert views[k].name != views[|init|].name;
      ViewsByNameFinds(init, v);
    } else {
      assert v.name == last.name;
    }
  }

  predicate Changed(last: map<string, View>, first: bool, v: View) {
    first || v.name !in last || last[v.name] != v
  }

  function ChangedViews(now: seq<View>, last: map<string, View>, first: bool): seq<View> {
    if now == [] then []
    else
      var rest, v := ChangedViews(now[..|now| - 1], last, first), now[|now| - 1];
      if Changed(last, first, v) then rest + [v] else rest
  }

  lemma {:induction false} ChangedViewsHold(now: seq<View>, last: map<string, View>, first: bool)
    ensures forall v :: v in ChangedViews(now, last, first) <==> v in now && Changed(last, first, v)
  {
    if now != [] {
      ChangedViewsHold(now[..|now| - 1], last, first);
      assert now == now[..|now| - 1] + [now[|now| - 1]];
    }
  }

  /** The frame that says what changed. */
  ghost predicate IsDiff(f: Frame, now: seq<View>, was: map<string, View>, first: bool) {
    && f.Instances? && f.snapshot == first && f.views == ChangedViews(now, was, first)
    && forall n :: n in f.removed <==> n in was && n !in ViewsByName(now)
  }

  /** Compares the instances as they are with what was last sent; removed names come in
      any order. */
  method Diff(now: seq<View>, was: map<string, View>, first: bool) returns (frame: Frame, last: map<string, View>)
    requires DistinctNames(now) && forall n | n in was :: was[n].name == n
    ensures last == ViewsByName(now)
    ensures IsDiff(frame, now, was, first)
  {
    var views, present;
    views, present, last := Compare(now, was, first);
    var removed;
    removed, last := DropAbsent(last, present);
    assert last == ViewsByName(now);
    frame := Instances(first, views, removed);
  }

  /** The loop over the instances as they are. */
  method Compare(now: seq<View>, was: map<string, View>, first: bool)
    returns (views: seq<View>, present: set<string>, last: map<string, View>)
    requires DistinctNames(now)
    ensures views == ChangedViews(now, was, first)
    ensures present == ViewsByName(now).Keys && last == was + ViewsByName(now)
  {
    views, present, last := [], {}, was;
    ghost var seen := map[];
    for i := 0 to |now|
      invariant views == ChangedViews(now[..i], was, first)
      invariant seen == ViewsByName(now[..i]) && present == seen.Keys && last == was + seen
    {
      assert now[..i + 1][..i] == now[..i];
      NotYetNamed(now, i);
      views, last := DiffOne(now[i], was, first, seen, views, last);
      present := present + {now[i].name};
      seen := seen[now[i].name := now[i]];
    }
    assert now[..|now|] == now;
  }

  method DiffOne(v: View, was: map<string, View>, first: bool, ghost seen: map<string, View>, views: seq<View>,
      last: map<string, View>)
    returns (views': seq<View>, last': map<string, View>)
    requires v.name !in seen && last == was + seen
    ensures views' == views + if Changed(was, first, v) then [v] else []
    ensures last' == was + seen[v.name := v]
  {
    PutLater(was, seen, v);
    views', last' := views, last;
    if first || v.name !in last || last[v.name] != v {
      views', last' := views + [v], last[v.name := v];
    }
  }

  lemma PutLater(was: map<string, View>, m: map<string, View>, v: View)
    requires v.name !in m
    ensures (was + m)[v.name := v] == was + m[v.name := v]
    ensures v.name in was && was[v.name] == v ==> was + m == was + m[v.name := v]
    ensures Changed(was + m, false, v) == Changed(was, false, v)
  {
  }

  lemma NotYetNamed(now: seq<View>, i: nat)
    requires DistinctNames(now) && i < |now|
    ensures now[i].name !in ViewsByName(now[..i])
  {
    ViewsByNameHolds(now[..i]);
    forall w | w in now[..i] ensures w.name != now[i].name {
      var k :| 0 <= k < i && now[..i][k] == w;
      assert now[k].name != now[i].name;
    }
  }

  method DropAbsent(was: map<string, View>, present: set<string>)
      returns (removed: seq<string>, last: map<string, View>)
    ensures last == was - (was.Keys - present)
    ensures forall n :: n in removed <==> n in was && n !in present
  {
    removed, last := [], was;
    var left := was.Keys;
    while left != {}
      invariant left <= was.Keys
      invariant forall n :: n in removed <==> n in was.Keys - left && n !in present
      invariant last == was - (was.Keys - left - present)
      decreases left
    {
      var n :| n in left;
      left := left - {n};
      if n !in present {
        removed := removed + [n];
        last := last - {n};
      }
    }
  }

  // The client's side.

  function Upsert(rows: seq<View>, v: View): (r: seq<View>)
    ensures |rows| <= |r|
  {
    var replaced := seq(|rows|, i requires 0 <= i < |rows| => if rows[i].name == v.name then v else rows[i]);
    if exists i :: 0 <= i < |rows| && rows[i].name == v.name then replaced else rows + [v]
  }

  function Upserts(rows: seq<View>, views: seq<View>, clean: Clean): seq<View> {
    if views == [] then rows
    else Upsert(Upserts(rows, views[..|views| - 1], clean), clean.View(views[|views| - 1]))
  }

  function DropNamed(rows: seq<View>, name: string): seq<View> {
    if rows == [] then []
    else
      var rest := DropNamed(rows[..|rows| - 1], name);
      if rows[|rows| - 1].name == name then rest else rest + [rows[|rows| - 1]]
  }

  function DropAll(rows: seq<View>, names: seq<string>): seq<View> {
    if names == [] then rows else DropNamed(DropAll(rows, names[..|names| - 1]), names[|names| - 1])
  }

  function Metered(rows: seq<View>, name: string, meters: nat): seq<View> {
    seq(|rows|, i requires 0 <= i < |rows| => if rows[i].name == name then rows[i].(meters := meters) else rows[i])
  }

  function MeteredAll(rows: seq<View>, readings: seq<(string, nat)>): seq<View> {
    if readings == [] then rows
    else
      var (name, meters) := readings[|readings| - 1];
      Metered(MeteredAll(rows, readings[..|readings| - 1]), name, meters)
  }

  /** What applying a frame makes of the rows. */
  function Applied(rows: seq<View>, f: Frame, clean: Clean): seq<View> {
    match f
    case Instances(snapshot, views, removed) =>
      var start := if snapshot then Cleaned(views, clean) else Upserts(rows, views, clean);
      DropAll(start, removed)
    case Stats(readings) => MeteredAll(rows, readings)
  }

  function Cleaned(views: seq<View>, clean: Clean): seq<View> {
    seq(|views|, i requires 0 <= i < |views| => clean.View(views[i]))
  }

  class Model {
    const clean: Clean
    var rows: seq<View>

    constructor (clean: Clean)
      ensures this.clean == clean && rows == []
    {
      this.clean, rows := clean, [];
    }

    method Apply(f: Frame)
      modifies this
      ensures rows == Applied(old(rows), f, clean)
    {
      match f
      case Instances(snapshot, views, removed) =>
        if snapshot {
          ReplaceAll(views);
        } else {
          for k := 0 to |views|
            invariant rows == Upserts(old(rows), views[..k], clean)
          {
            assert views[..k + 1][..k] == views[..k];
            Put(clean.View(views[k]));
          }
          assert views[..|views|] == views;
        }
        ghost var start := rows;
        for k := 0 to |removed|
          invariant rows == DropAll(start, removed[..k])
        {
          assert removed[..k + 1][..k] == removed[..k];
          Drop(removed[k]);
        }
        assert removed[..|removed|] == removed;
      case Stats(readings) =>
        for k := 0 to |readings|
          invariant rows == MeteredAll(old(rows), readings[..k])
        {
          assert readings[..k + 1][..k] == readings[..k];
          Meter(readings[k].0, readings[k].1);
        }
        assert readings[..|readings|] == readings;
    }

    method ReplaceAll(views: seq<View>)
      modifies this
      ensures rows == Cleaned(views, clean)
    {
      rows := views;
      for i := 0 to |rows|
        invariant |rows| == |views|
        invariant forall j | 0 <= j < |rows| :: rows[j] == if j < i then clean.View(views[j]) else views[j]
      {
        rows := rows[i := clean.View(rows[i])];
      }
    }

    method Put(v: View)
      modifies this
      ensures rows == Upsert(old(rows), v)
    {
      var replaced := false;
      for i := 0 to |rows|
        invariant |rows| == |old(rows)|
        invariant forall j | 0 <= j < |rows| ::
            rows[j] == if j < i && old(rows)[j].name == v.name then v else old(rows)[j]
        invariant replaced <==> exists j :: 0 <= j < i && old(rows)[j].name == v.name
      {
        if rows[i].name == v.name {
          rows, replaced := rows[i := v], true;
        }
      }
      if !replaced {
        assert rows == old(rows);
        rows := rows + [v];
      }
    }

    method Drop(name: string)
      modifies this
      ensures rows == DropNamed(old(rows), name)
    {
      var out := [];
      for i := 0 to |rows|
        invariant out == DropNamed(rows[..i], name)
        invariant rows == old(rows)
      {
        assert rows[..i + 1][..i] == rows[..i];
        if rows[i].name != name {
          out := out + [rows[i]];
        }
      }
      assert rows[..|rows|] == rows;
      rows := out;
    }

    method Meter(name: string, meters: nat)
      modifies this
      ensures rows == Metered(old(rows), name, meters)
    {
      for i := 0 to |rows|
        invariant |rows| == |old(rows)|
        invariant forall j | 0 <= j < |rows| ::
                    rows[j] == if j < i && old(rows)[j].name == name then old(rows)[j].(meters := meters)
                    else old(rows)[j]
      {
        if rows[i].name == name {
          rows := rows[i := rows[i].(meters := meters)];
        }
      }
    }
  }
}
