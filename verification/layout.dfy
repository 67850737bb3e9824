/** Drawing a console tree into a rectangle: rows split the width by weight, columns give
    each child the height it asks for and share what is left. */
module Layout {
  import opened Shares

  datatype Kind = Row | Col | Table | Stream | Stat | Detail | Note | Actions | Chart | Other

  datatype Node = Node(kind: Kind, weight: int, children: seq<Node>, content: string)
  {
    /** Its share of its parent's room, one when it did not say. */
    function Weight(): (n: nat)
      ensures n >= 1
    {
      if weight > 0 then weight else 1
    }

    predicate Flexible() {
      kind.Table? || kind.Stream? || kind.Row? || kind.Col?
    }

    predicate HasStream() {
      kind.Stream? || exists i :: 0 <= i < |children| && children[i].HasStream()
    }
  }

  const MAX_DEPTH := 3
  const MIN_FLEX_ROW := 5
  const NARROW := 20

  type Lines = seq<string>

  /** How many rows the content of a leaf needs at a width, and how a leaf is drawn; deep
      says it stands for a row or column nested too deeply. */
  datatype Screen = Screen(needs: (Node, nat) -> nat, leaf: (Node, nat, nat, bool) -> Lines)
  {
    /** A box fills its rectangle. */
    ghost predicate Fills() {
      forall n, w: nat, h: nat, deep | w >= 6 && h >= 2 :: Exact(leaf(n, w, h, deep), w, h)
    }
  }

  /** Exactly h rows of w cells. */
  predicate Exact(out: Lines, w: nat, h: nat) {
    |out| == h && forall y | 0 <= y < h :: |out[y]| == w
  }

  function Spaces(w: nat): (r: string)
    ensures |r| == w
  {
    seq(w, i => ' ')
  }

  function Blank(w: nat, h: nat): (r: Lines)
    ensures Exact(r, w, h)
  {
    seq(h, i => Spaces(w))
  }

  function Min(a: nat, b: nat): nat { if a < b then a else b }
  function Max(a: nat, b: nat): nat { if a > b then a else b }

  // How tall a node is.

  /** The height a node asks for at width w. */
  function Natural(s: Screen, n: Node, w: nat): nat
    decreases n, |n.children| + 1
  {
    match n.kind
    case Stat => 4
    case Detail => Max(3, s.needs(n, w) + 2)
    case Note => s.needs(n, w) + 2
    case Actions => 3
    case Chart => 12
    case Table => s.needs(n, w) + 3
    case Stream => MIN_FLEX_ROW + 2
    case Row => Tallest(s, n, |n.children|, w / Max(|n.children|, 1))
    case Col => Together(s, n, |n.children|, w)
    case Other => 3
  }

  function Tallest(s: Screen, n: Node, k: nat, w: nat): nat
    requires k <= |n.children|
    decreases n, k
  {
    if k == 0 then 0 else Max(Tallest(s, n, k - 1, w), Natural(s, n.children[k - 1], w))
  }

  function Together(s: Screen, n: Node, k: nat, w: nat): nat
    requires k <= |n.children|
    decreases n, k
  {
    if k == 0 then 0 else Together(s, n, k - 1, w) + Natural(s, n.children[k - 1], w)
  }

  // How a row is split.

  function Weights(kids: seq<Node>): seq<nat> {
    seq(|kids|, i requires 0 <= i < |kids| => kids[i].Weight())
  }

  lemma {:induction false} WeightsCount(kids: seq<Node>)
    ensures Sum(Weights(kids)) >= |kids|
  {
    if kids != [] {
      WeightsCount(kids[..|kids| - 1]);
      assert Weights(kids)[..|kids| - 1] == Weights(kids[..|kids| - 1]);
    }
  }

  /** The widths of a row's children; a cell goes between. */
  function Widths(kids: seq<Node>, w: nat): (r: seq<nat>)
    requires kids != [] && w >= |kids|
    ensures |r| == |kids|
  {
    WeightsCount(kids);
    Split(w - (|kids| - 1), Weights(kids))
  }

  // How a column is split.

  predicate StreamHere(kids: seq<Node>) {
    exists i :: 0 <= i < |kids| && kids[i].HasStream()
  }

  /** Next to a stream, what is not one is only as tall as it asks to be. */
  predicate Settled(kids: seq<Node>, i: nat)
    requires i < |kids|
  {
    StreamHere(kids) && !kids[i].HasStream()
  }

  predicate TakesShare(kids: seq<Node>, i: nat)
    requires i < |kids|
  {
    kids[i].Flexible() && !Settled(kids, i)
  }

  /** What a child is given before the rest is shared. */
  function Asked(s: Screen, kids: seq<Node>, w: nat, h: nat): seq<nat> {
    seq(|kids|, i requires 0 <= i < |kids| =>
      if Settled(kids, i) then Min(Natural(s, kids[i], w), Max(h / 2, 5))
      else if kids[i].Flexible() then 0
      else Natural(s, kids[i], w))
  }

  function ShareWeights(kids: seq<Node>): seq<nat> {
    seq(|kids|, i requires 0 <= i < |kids| => if TakesShare(kids, i) then kids[i].Weight() else 0)
  }

  function Rest(s: Screen, kids: seq<Node>, w: nat, h: nat): nat {
    if h < Sum(Asked(s, kids, w, h)) then 0 else h - Sum(Asked(s, kids, w, h))
  }

  function Heights(s: Screen, kids: seq<Node>, w: nat, h: nat): (r: seq<nat>)
    ensures |r| == |kids|
  {
    if Sum(ShareWeights(kids)) == 0 then Asked(s, kids, w, h)
    else
      var rest := Split(Rest(s, kids, w, h), ShareWeights(kids));
      seq(|kids|, i requires 0 <= i < |kids| => if TakesShare(kids, i) then rest[i] else Asked(s, kids, w, h)[i])
  }

  // What is drawn.

  /** The picture of a node in w x h cells. */
  function Picture(s: Screen, n: Node, w: nat, h: nat, depth: nat): Lines
    decreases MAX_DEPTH + 1 - depth, 2
  {
    if w < 6 || h < 2 then Blank(w, h)
    else if depth > MAX_DEPTH && (n.kind.Row? || n.kind.Col?) then s.leaf(n, w, h, true)
    else if n.kind.Row? then
      if n.children == [] then Blank(w, h)
      else if w < NARROW * |n.children| then Column(s, n.children, w, h, depth)
      else Beside(s, n.children, Widths(n.children, w), h, depth, |n.children|)
    else if n.kind.Col? then
      if n.children == [] then Blank(w, h) else Column(s, n.children, w, h, depth)
    else s.leaf(n, w, h, false)
  }

  function Column(s: Screen, kids: seq<Node>, w: nat, h: nat, depth: nat): Lines
    requires depth <= MAX_DEPTH
    decreases MAX_DEPTH + 1 - depth, 1, |kids| + 1
  {
    Fill(Stacked(s, kids, Heights(s, kids, w, h), w, h, depth, |kids|), w, h)
  }

  /** The first k children of a column, one under the other, in at most h rows. */
  function Stacked(s: Screen, kids: seq<Node>, heights: seq<nat>, w: nat, h: nat, depth: nat, k: nat): Lines
    requires k <= |kids| == |heights| && depth <= MAX_DEPTH
    decreases MAX_DEPTH + 1 - depth, 1, k
  {
    if k == 0 then []
    else
      var above := Stacked(s, kids, heights, w, h, depth, k - 1);
      if |above| >= h || heights[k - 1] == 0 then above
      else above + Picture(s, kids[k - 1], w, Min(heights[k - 1], h - |above|), depth + 1)
  }

  function Fill(out: Lines, w: nat, h: nat): Lines {
    if |out| < h then out + Blank(w, h - |out|) else out[..h]
  }

  /** The first k children of a row, side by side with a cell between. */
  function Beside(s: Screen, kids: seq<Node>, widths: seq<nat>, h: nat, depth: nat, k: nat): Lines
    requires k <= |kids| == |widths| && depth <= MAX_DEPTH
    decreases MAX_DEPTH + 1 - depth, 1, k
  {
    if k == 0 then Blank(0, h)
    else
      var left := Beside(s, kids, widths, h, depth, k - 1);
      Joined(left, Picture(s, kids[k - 1], widths[k - 1], h, depth + 1), k > 1, widths[k - 1], h)
  }

  /** A child's lines to the right of what is drawn; spaces where it has none. */
  function Joined(left: Lines, right: Lines, gap: bool, w: nat, h: nat): Lines
  {
    seq(h, y requires 0 <= y < h =>
      (if y < |left| then left[y] else "") + (if gap then " " else "") + (if y < |right| then right[y] else Spaces(w)))
  }

  // Every picture fills its rectangle.

  lemma {:induction false} PictureFills(s: Screen, n: Node, w: nat, h: nat, depth: nat)
    requires s.Fills()
    ensures Exact(Picture(s, n, w, h, depth), w, h)
    decreases MAX_DEPTH + 1 - depth, 2
  {
    if w >= 6 && h >= 2 && n.children != [] && depth <= MAX_DEPTH {
      if n.kind.Row? && w >= NARROW * |n.children| {
        BesideFills(s, n.children, Widths(n.children, w), h, depth, |n.children|);
        WidthsFillRow(n.children, w);
        assert Widths(n.children, w)[..|n.children|] == Widths(n.children, w);
      } else if n.kind.Row? || n.kind.Col? {
        StackedFits(s, n.children, Heights(s, n.children, w, h), w, h, depth, |n.children|);
      }
    }
  }

  /** A row's widths and the cells between them add up to its width. */
  lemma WidthsFillRow(kids: seq<Node>, w: nat)
    requires kids != [] && w >= |kids|
    ensures Sum(Widths(kids, w)) + |kids| - 1 == w
  {
    WeightsCount(kids);
    SplitFillsRoom(w - (|kids| - 1), Weights(kids));
  }

  /** How far right the first k children and the cells between reach. */
  function Reach(widths: seq<nat>, k: nat): nat
    requires k <= |widths|
  {
    Sum(widths[..k]) + if k == 0 then 0 else k - 1
  }

  lemma {:induction false} BesideFills(s: Screen, kids: seq<Node>, widths: seq<nat>, h: nat, depth: nat, k: nat)
    requires s.Fills() && k <= |kids| == |widths| && depth <= MAX_DEPTH
    ensures Exact(Beside(s, kids, widths, h, depth, k), Reach(widths, k), h)
    decreases MAX_DEPTH + 1 - depth, 1, k
  {
    if k > 0 {
      BesideFills(s, kids, widths, h, depth, k - 1);
      PictureFills(s, kids[k - 1], widths[k - 1], h, depth + 1);
      SumPrefix(widths, k - 1);
    }
  }

  /** The row a column's first k children reach, cut at its height. */
  function Bottom(heights: seq<nat>, h: nat, k: nat): nat
    requires k <= |heights|
  {
    Min(Sum(heights[..k]), h)
  }

  lemma {:induction false} StackedFits(s: Screen, kids: seq<Node>, heights: seq<nat>, w: nat, h: nat, depth: nat,
      k: nat)
    requires s.Fills() && k <= |kids| == |heights| && depth <= MAX_DEPTH
    ensures Exact(Stacked(s, kids, heights, w, h, depth, k), w, Bottom(heights, h, k))
    decreases MAX_DEPTH + 1 - depth, 1, k
  {
    if k > 0 {
      StackedFits(s, kids, heights, w, h, depth, k - 1);
      SumPrefix(heights, k - 1);
      var above := Stacked(s, kids, heights, w, h, depth, k - 1);
      if |above| < h && heights[k - 1] != 0 {
        PictureFills(s, kids[k - 1], w, Min(heights[k - 1], h - |above|), depth + 1);
      }
    }
  }

  // Every child is drawn whole, in a rectangle of its own.

  /** The column a row's child i begins at. */
  function Left(widths: seq<nat>, i: nat): nat
    requires i <= |widths|
  {
    Sum(widths[..i]) + i
  }

  /** Child i's picture is in the row, where it begins, with a space before it. */
  lemma {:induction false} RowShowsChild(s: Screen, kids: seq<Node>, widths: seq<nat>, h: nat, depth: nat, k: nat,
      i: nat, y: nat)
    requires s.Fills() && i < k <= |kids| == |widths| && depth <= MAX_DEPTH && y < h
    ensures |Beside(s, kids, widths, h, depth, k)| == h && |Picture(s, kids[i], widths[i], h, depth + 1)| == h
    ensures Shown(Beside(s, kids, widths, h, depth, k)[y], Picture(s, kids[i], widths[i], h, depth + 1)[y],
        Left(widths, i), i > 0)
    decreases k
  {
    PictureFills(s, kids[i], widths[i], h, depth + 1);
    JoinedKeepsLeft(s, kids, widths, h, depth, k, y);
    if i < k - 1 {
      RowShowsChild(s, kids, widths, h, depth, k - 1, i, y);
      StillShown(Beside(s, kids, widths, h, depth, k - 1)[y], Beside(s, kids, widths, h, depth, k)[y],
        Picture(s, kids[i], widths[i], h, depth + 1)[y], Left(widths, i), i > 0);
    } else {
      RowEndsInChild(s, kids, widths, h, depth, i, y);
    }
  }

  /** A line holds part, from x on; after a space, when there is a gap. */
  predicate Shown(line: string, part: string, x: nat, gap: bool) {
    x + |part| <= |line| && line[x..x + |part|] == part && (gap ==> x > 0 && line[x - 1] == ' ')
  }

  lemma StillShown(line: string, longer: string, part: string, x: nat, gap: bool)
    requires Shown(line, part, x, gap) && line <= longer
    ensures Shown(longer, part, x, gap)
  {
    assert longer[x..x + |part|] == line[x..x + |part|];
  }

  lemma RowEndsInChild(s: Screen, kids: seq<Node>, widths: seq<nat>, h: nat, depth: nat, i: nat, y: nat)
    requires s.Fills() && i < |kids| == |widths| && depth <= MAX_DEPTH && y < h
    ensures |Beside(s, kids, widths, h, depth, i + 1)| == h && |Picture(s, kids[i], widths[i], h, depth + 1)| == h
    ensures Shown(Beside(s, kids, widths, h, depth, i + 1)[y], Picture(s, kids[i], widths[i], h, depth + 1)[y],
        Left(widths, i), i > 0)
  {
    BesideFills(s, kids, widths, h, depth, i);
    PictureFills(s, kids[i], widths[i], h, depth + 1);
    var left, child := Beside(s, kids, widths, h, depth, i)[y], Picture(s, kids[i], widths[i], h, depth + 1)[y];
    assert Beside(s, kids, widths, h, depth, i + 1)[y] == left + (if i > 0 then " " else "") + child;
  }

  lemma JoinedKeepsLeft(s: Screen, kids: seq<Node>, widths: seq<nat>, h: nat, depth: nat, k: nat, y: nat)
    requires s.Fills() && 0 < k <= |kids| == |widths| && depth <= MAX_DEPTH && y < h
    ensures |Beside(s, kids, widths, h, depth, k - 1)| == h && |Beside(s, kids, widths, h, depth, k)| == h
    ensures Beside(s, kids, widths, h, depth, k - 1)[y] <= Beside(s, kids, widths, h, depth, k)[y]
  {
    BesideFills(s, kids, widths, h, depth, k - 1);
  }

  /** Child i's picture, as tall as the room left for it, is in the column where the ones
      before it end. */
  lemma {:induction false} ColumnShowsChild(s: Screen, kids: seq<Node>, heights: seq<nat>, w: nat, h: nat,
      depth: nat, k: nat, i: nat)
    requires s.Fills() && i < k <= |kids| == |heights| && depth <= MAX_DEPTH
    requires Bottom(heights, h, i) < Bottom(heights, h, i + 1)
    ensures var top, bottom := Bottom(heights, h, i), Bottom(heights, h, i + 1);
            && bottom <= |Stacked(s, kids, heights, w, h, depth, k)|
            && Stacked(s, kids, heights, w, h, depth, k)[top..bottom] == Picture(s, kids[i], w, bottom - top, depth + 1)
    decreases k
  {
    if i < k - 1 {
      ColumnShowsChild(s, kids, heights, w, h, depth, k - 1, i);
      StackedKeepsAbove(s, kids, heights, w, h, depth, k);
      SameInPrefix(Stacked(s, kids, heights, w, h, depth, k - 1), Stacked(s, kids, heights, w, h, depth, k),
        Bottom(heights, h, i), Bottom(heights, h, i + 1));
    } else {
      ColumnEndsInChild(s, kids, heights, w, h, depth, i);
    }
  }

  lemma SameInPrefix(p: Lines, q: Lines, a: nat, b: nat)
    requires p <= q && a <= b <= |p|
    ensures p[a..b] == q[a..b]
  {
  }

  lemma ColumnEndsInChild(s: Screen, kids: seq<Node>, heights: seq<nat>, w: nat, h: nat, depth: nat, i: nat)
    requires s.Fills() && i < |kids| == |heights| && depth <= MAX_DEPTH
    requires Bottom(heights, h, i) < Bottom(heights, h, i + 1)
    ensures var top, bottom := Bottom(heights, h, i), Bottom(heights, h, i + 1);
            && bottom <= |Stacked(s, kids, heights, w, h, depth, i + 1)|
            && Stacked(s, kids, heights, w, h, depth, i + 1)[top..bottom] ==
                Picture(s, kids[i], w, bottom - top, depth + 1)
  {
    SumPrefix(heights, i);
    StackedFits(s, kids, heights, w, h, depth, i);
    StackedFits(s, kids, heights, w, h, depth, i + 1);
    PictureFills(s, kids[i], w, Bottom(heights, h, i + 1) - Bottom(heights, h, i), depth + 1);
  }

  lemma StackedKeepsAbove(s: Screen, kids: seq<Node>, heights: seq<nat>, w: nat, h: nat, depth: nat, k: nat)
    requires 0 < k <= |kids| == |heights| && depth <= MAX_DEPTH
    ensures Stacked(s, kids, heights, w, h, depth, k - 1) <= Stacked(s, kids, heights, w, h, depth, k)
  {
  }

  // A column that has something to stretch, and room, is filled.

  lemma {:induction false} SumsAdd(a: seq<nat>, b: seq<nat>, c: seq<nat>)
    requires |a| == |b| == |c| && forall i | 0 <= i < |a| :: c[i] == a[i] + b[i]
    ensures Sum(c) == Sum(a) + Sum(b)
  {
    if a != [] {
      SumsAdd(a[..|a| - 1], b[..|b| - 1], c[..|c| - 1]);
    }
  }

  lemma {:induction false} NoWeightNoSum(q: seq<nat>)
    ensures Sum(q) == 0 <==> forall i | 0 <= i < |q| :: q[i] == 0
  {
    if q != [] {
      NoWeightNoSum(q[..|q| - 1]);
    }
  }

  lemma HeightsSplit(s: Screen, kids: seq<Node>, w: nat, h: nat, i: nat)
    requires i < |kids| && Sum(ShareWeights(kids)) > 0
    ensures Heights(s, kids, w, h)[i] == Asked(s, kids, w, h)[i] + Split(Rest(s, kids, w, h), ShareWeights(kids))[i]
  {
    if !TakesShare(kids, i) {
      NoWeightNoShare(Rest(s, kids, w, h), ShareWeights(kids), i);
    }
  }

  /** A column's heights add up to its height when some child takes what is left and what
      the others ask for fits; otherwise they add up to what is asked for. */
  lemma HeightsFillColumn(s: Screen, kids: seq<Node>, w: nat, h: nat)
    ensures (exists i :: 0 <= i < |kids| && TakesShare(kids, i)) ==>
              Sum(Heights(s, kids, w, h)) == Max(h, Sum(Asked(s, kids, w, h)))
    ensures (forall i | 0 <= i < |kids| :: !TakesShare(kids, i)) ==>
              Heights(s, kids, w, h) == Asked(s, kids, w, h)
  {
    var weights := ShareWeights(kids);
    NoWeightNoSum(weights);
    if i :| 0 <= i < |kids| && TakesShare(kids, i) {
      assert weights[i] > 0;
      forall k | 0 <= k < |kids|
        ensures Heights(s, kids, w, h)[k] == Asked(s, kids, w, h)[k] + Split(Rest(s, kids, w, h), weights)[k] {
        HeightsSplit(s, kids, w, h, k);
      }
      SumsAdd(Asked(s, kids, w, h), Split(Rest(s, kids, w, h), weights), Heights(s, kids, w, h));
      SplitFillsRoom(Rest(s, kids, w, h), weights);
    }
  }

  /** In a column that is filled no child is cut: each has the height it was given. */
  lemma FilledColumnCutsNothing(s: Screen, kids: seq<Node>, w: nat, h: nat, i: nat)
    requires i < |kids| && Sum(Heights(s, kids, w, h)) <= h
    ensures Bottom(Heights(s, kids, w, h), h, i + 1) - Bottom(Heights(s, kids, w, h), h, i) == Heights(s, kids, w, h)[i]
  {
    var heights := Heights(s, kids, w, h);
    SumPrefix(heights, i);
    SumGrows(heights, i, |heights|);
    SumGrows(heights, i + 1, |heights|);
    assert heights[..|heights|] == heights;
  }

  // The drawing itself.

  method DrawNode(s: Screen, n: Node, w: nat, h: nat, depth: nat) returns (out: Lines)
    requires s.Fills()
    ensures out == Picture(s, n, w, h, depth)
    decreases MAX_DEPTH + 1 - depth, 4
  {
    if w < 6 || h < 2 {
      return Blank(w, h);
    }
    if depth > MAX_DEPTH && (n.kind.Row? || n.kind.Col?) {
      return s.leaf(n, w, h, true);
    }
    match n.kind
    case Row => out := DrawRow(s, n, w, h, depth);
    case Col => out := if n.children == [] then Blank(w, h) else [];
      if n.children != [] {
        out := DrawCol(s, n.children, w, h, depth);
      }
    case _ => out := s.leaf(n, w, h, false);
  }

  method DrawRow(s: Screen, n: Node, w: nat, h: nat, depth: nat) returns (out: Lines)
    requires s.Fills() && n.kind.Row? && w >= 6 && h >= 2 && depth <= MAX_DEPTH
    ensures out == Picture(s, n, w, h, depth)
    decreases MAX_DEPTH + 1 - depth, 3
  {
    var kids := n.children;
    if kids == [] {
      return Blank(w, h);
    }
    if w < NARROW * |kids| {
      out := DrawCol(s, kids, w, h, depth);
      return;
    }
    var widths := RowWidths(kids, w);
    out := Blank(0, h);
    for i := 0 to |kids|
      invariant out == Beside(s, kids, widths, h, depth, i)
    {
      var picture := DrawNode(s, kids[i], widths[i], h, depth + 1);
      out := Joined(out, picture, i > 0, widths[i], h);
    }
  }

  method RowWidths(kids: seq<Node>, w: nat) returns (widths: seq<nat>)
    requires kids != [] && w >= |kids|
    ensures widths == Widths(kids, w)
  {
    var total := TotalWeight(kids);
    var avail := w - (|kids| - 1);
    WeightsCount(kids);
    RoundedFits(avail, Weights(kids), Sum(Weights(kids)));
    ghost var shares := Rounded(avail, Weights(kids), Sum(Weights(kids)));
    widths := [];
    var used := 0;
    for i := 0 to |kids|
      invariant widths == shares[..i] && used == Sum(shares[..i])
    {
      SumPrefix(shares, i);
      var width := Share(avail, kids[i].Weight(), total);
      widths := widths + [width];
      used := used + width;
    }
    assert shares[..|kids|] == shares;
    widths := widths[|widths| - 1 := widths[|widths| - 1] + (avail - used)];
  }

  method TotalWeight(kids: seq<Node>) returns (total: nat)
    ensures total == Sum(Weights(kids))
  {
    total := 0;
    for i := 0 to |kids|
      invariant total == Sum(Weights(kids)[..i])
    {
      SumPrefix(Weights(kids), i);
      total := total + kids[i].Weight();
    }
    assert Weights(kids)[..|kids|] == Weights(kids);
  }

  method DrawCol(s: Screen, kids: seq<Node>, w: nat, h: nat, depth: nat) returns (out: Lines)
    requires s.Fills() && depth <= MAX_DEPTH
    ensures out == Column(s, kids, w, h, depth)
    decreases MAX_DEPTH + 1 - depth, 2
  {
    var heights := ColumnHeights(s, kids, w, h);
    out := DrawStack(s, kids, heights, w, h, depth);
    out := Fill(out, w, h);
  }

  /** The children under each other, as far as they fit. */
  method DrawStack(s: Screen, kids: seq<Node>, heights: seq<nat>, w: nat, h: nat, depth: nat) returns (out: Lines)
    requires s.Fills() && depth <= MAX_DEPTH && |heights| == |kids|
    ensures out == Stacked(s, kids, heights, w, h, depth, |kids|)
    decreases MAX_DEPTH + 1 - depth, 1
  {
    out := [];
    for i := 0 to |kids|
      invariant out == Stacked(s, kids, heights, w, h, depth, i)
    {
      if |out| < h && heights[i] != 0 {
        var picture := DrawNode(s, kids[i], w, Min(heights[i], h - |out|), depth + 1);
        out := out + picture;
      }
    }
  }

  method ColumnHeights(s: Screen, kids: seq<Node>, w: nat, h: nat) returns (heights: seq<nat>)
    ensures heights == Heights(s, kids, w, h)
  {
    var fixed, flex;
    heights, fixed, flex := FixedHeights(s, kids, w, h);
    var left := if h < fixed then 0 else h - fixed;
    if flex > 0 {
      heights := ShareRest(s, kids, w, h, heights, left, flex);
    }
  }

  method FixedHeights(s: Screen, kids: seq<Node>, w: nat, h: nat) returns (heights: seq<nat>, fixed: nat, flex: nat)
    ensures heights == Asked(s, kids, w, h) && fixed == Sum(heights) && flex == Sum(ShareWeights(kids))
  {
    heights, fixed, flex := [], 0, 0;
    ghost var asked, weights := Asked(s, kids, w, h), ShareWeights(kids);
    for i := 0 to |kids|
      invariant heights == asked[..i] && fixed == Sum(asked[..i]) && flex == Sum(weights[..i])
    {
      SumPrefix(asked, i);
      SumPrefix(weights, i);
      var ask, weight := AskedBy(s, kids, i, w, h);
      heights := heights + [ask];
      fixed, flex := fixed + ask, flex + weight;
    }
    assert asked[..|kids|] == asked && weights[..|kids|] == weights;
  }

  /** One child's turn: what it asks for, or its weight in what is left. */
  method AskedBy(s: Screen, kids: seq<Node>, i: nat, w: nat, h: nat) returns (ask: nat, weight: nat)
    requires i < |kids|
    ensures ask == Asked(s, kids, w, h)[i] && weight == ShareWeights(kids)[i]
  {
    ask, weight := 0, 0;
    if Settled(kids, i) {
      ask := Min(Natural(s, kids[i], w), Max(h / 2, 5));
    } else if kids[i].Flexible() {
      weight := kids[i].Weight();
    } else {
      ask := Natural(s, kids[i], w);
    }
  }

  method ShareRest(s: Screen, kids: seq<Node>, w: nat, h: nat, asked: seq<nat>, left: nat, flex: nat)
      returns (heights: seq<nat>)
    requires asked == Asked(s, kids, w, h) && left == Rest(s, kids, w, h) && flex == Sum(ShareWeights(kids)) > 0
    ensures heights == Heights(s, kids, w, h)
  {
    RoundedFits(left, ShareWeights(kids), flex);
    var given;
    heights, given := ShareOut(kids, asked, left, flex);
    var i := LastSharer(kids);
    heights := heights[i := heights[i] + (left - given)];
  }

  method ShareOut(kids: seq<Node>, asked: seq<nat>, left: nat, flex: nat) returns (heights: seq<nat>, given: nat)
    requires |asked| == |kids| && flex > 0
    ensures |heights| == |kids| && given == Sum(Rounded(left, ShareWeights(kids), flex))
    ensures forall j | 0 <= j < |kids| ::
              heights[j] == if TakesShare(kids, j) then Rounded(left, ShareWeights(kids), flex)[j] else asked[j]
  {
    ghost var shares := Rounded(left, ShareWeights(kids), flex);
    heights, given := asked, 0;
    for i := 0 to |kids|
      invariant |heights| == |kids| && given == Sum(shares[..i])
      invariant forall j | 0 <= j < |kids| :: heights[j] == if j < i && TakesShare(kids, j) then shares[j] else asked[j]
    {
      SumPrefix(shares, i);
      assert shares[i] == Share(left, ShareWeights(kids)[i], flex);
      assert !TakesShare(kids, i) ==> shares[i] == 0;
      if TakesShare(kids, i) {
        heights := heights[i := Share(left, kids[i].Weight(), flex)];
        given := given + heights[i];
      }
    }
    assert shares[..|kids|] == shares;
  }

  method LastSharer(kids: seq<Node>) returns (i: nat)
    requires Sum(ShareWeights(kids)) > 0
    ensures i == LastWeighted(ShareWeights(kids))
  {
    i := |kids| - 1;
    while !TakesShare(kids, i)
      invariant LastWeighted(ShareWeights(kids)) <= i < |kids|
      decreases i
    {
      i := i - 1;
    }
    assert ShareWeights(kids)[i] > 0;
  }

  // A row and a column, whole.

  /** A row wide enough to be one: the children's widths and the cells between add up to
      its own, and every line of each child is there, where the child begins. */
  lemma RowTiles(s: Screen, n: Node, w: nat, h: nat, depth: nat, i: nat, y: nat)
    requires s.Fills() && n.kind.Row? && w >= 6 && h >= 2 && depth <= MAX_DEPTH
    requires i < |n.children| && w >= NARROW * |n.children| && y < h
    ensures var widths := Widths(n.children, w);
            && Sum(widths) + |n.children| - 1 == w
            && |Picture(s, n, w, h, depth)| == h && |Picture(s, n.children[i], widths[i], h, depth + 1)| == h
            && Shown(Picture(s, n, w, h, depth)[y], Picture(s, n.children[i], widths[i], h, depth + 1)[y],
                Left(widths, i), i > 0)
  {
    WidthsFillRow(n.children, w);
    RowShowsChild(s, n.children, Widths(n.children, w), h, depth, |n.children|, i, y);
  }

  /** A column whose children's heights fit: each child is drawn whole, as tall as it was
      given, below the ones before it. */
  lemma ColumnTiles(s: Screen, n: Node, w: nat, h: nat, depth: nat, i: nat)
    requires s.Fills() && n.kind.Col? && w >= 6 && h >= 2 && depth <= MAX_DEPTH && i < |n.children|
    requires Sum(Heights(s, n.children, w, h)) <= h && Heights(s, n.children, w, h)[i] > 0
    ensures var heights := Heights(s, n.children, w, h);
            var top := Sum(heights[..i]);
            && top + heights[i] <= |Picture(s, n, w, h, depth)| == h
            && Picture(s, n, w, h, depth)[top..top + heights[i]] == Picture(s, n.children[i], w, heights[i], depth + 1)
  {
    var heights := Heights(s, n.children, w, h);
    PictureFills(s, n, w, h, depth);
    StackTiles(s, n.children, w, h, depth, i);
    StackIsPicture(s, n, w, h, depth);
    SameInPrefix(Stacked(s, n.children, heights, w, h, depth, |n.children|), Picture(s, n, w, h, depth),
      Sum(heights[..i]), Sum(heights[..i]) + heights[i]);
  }

  lemma StackTiles(s: Screen, kids: seq<Node>, w: nat, h: nat, depth: nat, i: nat)
    requires s.Fills() && depth <= MAX_DEPTH && i < |kids|
    requires Sum(Heights(s, kids, w, h)) <= h && Heights(s, kids, w, h)[i] > 0
    ensures var heights := Heights(s, kids, w, h);
            var stack, top := Stacked(s, kids, heights, w, h, depth, |kids|), Sum(heights[..i]);
            && top + heights[i] <= |stack|
            && stack[top..top + heights[i]] == Picture(s, kids[i], w, heights[i], depth + 1)
  {
    ChildEndsInside(s, kids, w, h, i);
    ColumnShowsChild(s, kids, Heights(s, kids, w, h), w, h, depth, |kids|, i);
  }

  lemma ChildEndsInside(s: Screen, kids: seq<Node>, w: nat, h: nat, i: nat)
    requires i < |kids| && Sum(Heights(s, kids, w, h)) <= h
    ensures var heights := Heights(s, kids, w, h);
            && Bottom(heights, h, i) == Sum(heights[..i]) && Bottom(heights, h, i + 1) == Sum(heights[..i]) + heights[i]
            && Sum(heights[..i]) + heights[i] <= h
  {
    var heights := Heights(s, kids, w, h);
    FilledColumnCutsNothing(s, kids, w, h, i);
    SumPrefix(heights, i);
    SumGrows(heights, i + 1, |kids|);
    assert heights[..|kids|] == heights;
  }

  lemma StackIsPicture(s: Screen, n: Node, w: nat, h: nat, depth: nat)
    requires s.Fills() && n.kind.Col? && w >= 6 && h >= 2 && depth <= MAX_DEPTH && n.children != []
    ensures Stacked(s, n.children, Heights(s, n.children, w, h), w, h, depth, |n.children|) <=
            Picture(s, n, w, h, depth)
  {
    StackedFits(s, n.children, Heights(s, n.children, w, h), w, h, depth, |n.children|);
  }
}
