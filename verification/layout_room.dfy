/** The room each child of a row or a column is given, and the height a node asks for. */
module LayoutRoom {
  import opened Shares
  import opened Layout

  /** The weight a node has in its parent: what it says, or one. */
  ghost predicate Weighs(n: Node, k: nat) {
    if n.weight > 0 then k == n.weight else k == 1
  }

  /** A row's width is shared by weight, rounded down; the last child has what is left. */
  lemma WidthsAreFair(kids: seq<Node>, w: nat, i: nat, k: nat)
    requires w >= |kids| && i < |kids| && Weighs(kids[i], k)
    ensures var room, total := w - (|kids| - 1), Sum(Weights(kids));
            && NoLess(Widths(kids, w)[i], room, k, total)
            && (i < |kids| - 1 ==> RoundedDown(Widths(kids, w)[i], room, k, total))
  {
    WeightsCount(kids);
    SplitIsFair(w - (|kids| - 1), Weights(kids), i);
    LastIsWeighted(kids);
  }

  lemma LastIsWeighted(kids: seq<Node>)
    requires kids != []
    ensures Sum(Weights(kids)) > 0 && LastWeighted(Weights(kids)) == |kids| - 1
  {
    WeightsCount(kids);
    assert Weights(kids)[|kids| - 1] >= 1;
  }

  // Which children of a column share what is left.

  /** m is n or somewhere inside it. */
  ghost predicate Within(n: Node, m: Node) {
    m == n || exists i :: 0 <= i < |n.children| && Within(n.children[i], m)
  }

  lemma {:induction false} HasStreamIff(n: Node)
    ensures n.HasStream() <==> exists m :: Within(n, m) && m.kind.Stream?
  {
    forall i | 0 <= i < |n.children|
      ensures n.children[i].HasStream() <==> exists m :: Within(n.children[i], m) && m.kind.Stream? {
      HasStreamIff(n.children[i]);
    }
    if n.kind.Stream? {
      assert Within(n, n);
    }
    if i :| 0 <= i < |n.children| && n.children[i].HasStream() {
      var m :| Within(n.children[i], m) && m.kind.Stream?;
      assert Within(n, m);
    }
  }

  ghost predicate HoldsStream(n: Node) {
    exists m :: Within(n, m) && m.kind.Stream?
  }

  /** Tables, streams, rows and columns stretch; next to a stream, only what holds one. */
  ghost predicate Stretches(kids: seq<Node>, i: nat)
    requires i < |kids|
  {
    && (kids[i].kind.Table? || kids[i].kind.Stream? || kids[i].kind.Row? || kids[i].kind.Col?)
    && ((exists j :: 0 <= j < |kids| && HoldsStream(kids[j])) ==> HoldsStream(kids[i]))
  }

  lemma StretchesIff(kids: seq<Node>, i: nat)
    requires i < |kids|
    ensures Stretches(kids, i) <==> TakesShare(kids, i)
    ensures StreamHere(kids) <==> exists j :: 0 <= j < |kids| && HoldsStream(kids[j])
  {
    forall j | 0 <= j < |kids| ensures kids[j].HasStream() <==> HoldsStream(kids[j]) {
      HasStreamIff(kids[j]);
    }
  }

  /** The children that stretch share, by weight and rounded down, what the others leave of
      the column's height; the last of them has the remainder too. */
  lemma StretchedHeightsAreFair(s: Screen, kids: seq<Node>, w: nat, h: nat, i: nat, k: nat)
    requires i < |kids| && Stretches(kids, i) && Weighs(kids[i], k)
    ensures var room, total := Rest(s, kids, w, h), Sum(ShareWeights(kids));
            && NoLess(Heights(s, kids, w, h)[i], room, k, total)
            && ((exists j :: i < j < |kids| && Stretches(kids, j)) ==>
                  RoundedDown(Heights(s, kids, w, h)[i], room, k, total))
  {
    StretchesIff(kids, i);
    NoWeightNoSum(ShareWeights(kids));
    assert ShareWeights(kids)[i] == k;
    SplitIsFair(Rest(s, kids, w, h), ShareWeights(kids), i);
    if j :| i < j < |kids| && Stretches(kids, j) {
      StretchesIff(kids, j);
      assert ShareWeights(kids)[j] > 0;
    }
  }

  /** What is left is the height less what the children that do not stretch are given. */
  lemma {:induction false} RestIsLeft(s: Screen, kids: seq<Node>, w: nat, h: nat)
    ensures var fixed := seq(|kids|, i requires 0 <= i < |kids| =>
                             if TakesShare(kids, i) then 0 else Heights(s, kids, w, h)[i]);
            Rest(s, kids, w, h) == if h < Sum(fixed) then 0 else h - Sum(fixed)
  {
    var fixed := seq(|kids|, i requires 0 <= i < |kids| =>
                     if TakesShare(kids, i) then 0 else Heights(s, kids, w, h)[i]);
    NoWeightNoSum(ShareWeights(kids));
    forall i | 0 <= i < |kids| ensures fixed[i] == Asked(s, kids, w, h)[i] {
      assert TakesShare(kids, i) ==> ShareWeights(kids)[i] > 0;
    }
    assert fixed == Asked(s, kids, w, h);
  }

  /** A child that does not stretch is as tall as it asks to be; next to a stream, no taller
      than half the column or than five rows. */
  lemma OthersAreAsTallAsTheyAsk(s: Screen, kids: seq<Node>, w: nat, h: nat, i: nat)
    requires i < |kids| && !Stretches(kids, i)
    ensures var height, asks := Heights(s, kids, w, h)[i], Natural(s, kids[i], w);
            if !HoldsStream(kids[i]) && exists j :: 0 <= j < |kids| && HoldsStream(kids[j]) then
              && height <= asks && (height <= h / 2 || height <= 5)
              && (height == asks || height == h / 2 || height == 5)
                  && (height < asks ==> height >= 5 && height >= h / 2)
            else height == asks
  {
    StretchesIff(kids, i);
    forall j | 0 <= j < |kids| ensures kids[j].HasStream() <==> HoldsStream(kids[j]) {
      HasStreamIff(kids[j]);
    }
    NoWeightNoSum(ShareWeights(kids));
  }

  // The height a node asks for.

  function Asks(s: Screen, kids: seq<Node>, w: nat): seq<nat> {
    seq(|kids|, i requires 0 <= i < |kids| => Natural(s, kids[i], w))
  }

  /** A column asks for what its children ask for, together. */
  lemma ColumnAsksForAll(s: Screen, n: Node, w: nat)
    requires n.kind.Col?
    ensures Natural(s, n, w) == Sum(Asks(s, n.children, w))
  {
    TogetherIsSum(s, n, |n.children|, w);
    assert Asks(s, n.children, w)[..|n.children|] == Asks(s, n.children, w);
  }

  lemma {:induction false} TogetherIsSum(s: Screen, n: Node, k: nat, w: nat)
    requires k <= |n.children|
    ensures Together(s, n, k, w) == Sum(Asks(s, n.children, w)[..k])
  {
    if k > 0 {
      TogetherIsSum(s, n, k - 1, w);
      SumPrefix(Asks(s, n.children, w), k - 1);
    }
  }

  /** A row asks for what the tallest of its children asks for in an even part of the width. */
  lemma RowAsksForTallest(s: Screen, n: Node, w: nat)
    requires n.kind.Row? && n.children != []
    ensures forall i | 0 <= i < |n.children| :: Natural(s, n.children[i], w / |n.children|) <= Natural(s, n, w)
    ensures exists i :: 0 <= i < |n.children| && Natural(s, n.children[i], w / |n.children|) == Natural(s, n, w)
  {
    TallestIs(s, n, |n.children|, w / |n.children|);
  }

  lemma {:induction false} TallestIs(s: Screen, n: Node, k: nat, w: nat)
    requires k <= |n.children|
    ensures forall i | 0 <= i < k :: Natural(s, n.children[i], w) <= Tallest(s, n, k, w)
    ensures k > 0 ==> exists i :: 0 <= i < k && Natural(s, n.children[i], w) == Tallest(s, n, k, w)
  {
    if k > 0 {
      TallestIs(s, n, k - 1, w);
    }
  }

  /** A note, a detail or a table asks for its content and the frame around it, a detail for
      a row at least; the others have heights of their own. */
  lemma LeavesAskForContent(s: Screen, n: Node, w: nat)
    ensures n.kind.Note? || (n.kind.Detail? && s.needs(n, w) > 0) ==> Natural(s, n, w) - 2 == s.needs(n, w)
    ensures n.kind.Detail? && s.needs(n, w) == 0 ==> Natural(s, n, w) - 2 == 1
    ensures n.kind.Table? ==> Natural(s, n, w) - 3 == s.needs(n, w)
    ensures n.kind.Stream? ==> Natural(s, n, w) - 2 == MIN_FLEX_ROW
    ensures n.kind.Stat? || n.kind.Actions? || n.kind.Chart? || n.kind.Other? ==>
              (Natural(s, n, w) == if n.kind.Stat? then 4 else if n.kind.Chart? then 12 else 3)
  {
  }

  /** A column of blocks that do not stretch, given the height it asks for, draws each of
      them whole, as tall as it asks to be. */
  lemma ColumnAtItsHeight(s: Screen, n: Node, w: nat, depth: nat, i: nat)
    requires s.Fills() && n.kind.Col? && w >= 6 && depth <= MAX_DEPTH && i < |n.children|
    requires forall j | 0 <= j < |n.children| :: !Stretches(n.children, j) && !HoldsStream(n.children[j])
    requires Natural(s, n, w) >= 2 && Natural(s, n.children[i], w) > 0
    ensures var h, top, asks := Natural(s, n, w), Sum(Asks(s, n.children, w)[..i]), Natural(s, n.children[i], w);
            && top + asks <= |Picture(s, n, w, h, depth)| == h
            && Picture(s, n, w, h, depth)[top..top + asks] == Picture(s, n.children[i], w, asks, depth + 1)
  {
    var h := Natural(s, n, w);
    forall j | 0 <= j < |n.children| ensures Heights(s, n.children, w, h)[j] == Asks(s, n.children, w)[j] {
      OthersAreAsTallAsTheyAsk(s, n.children, w, h, j);
    }
    assert Heights(s, n.children, w, h) == Asks(s, n.children, w);
    ColumnAsksForAll(s, n, w);
    ColumnTiles(s, n, w, h, depth, i);
  }

  // What is drawn when there is no room, or nothing to draw.

  ghost predicate AllSpaces(line: string) {
    forall x | 0 <= x < |line| :: line[x] == ' '
  }

  /** A row or column nested more than three deep is a card that says so, whatever is in it;
      any other block is drawn as itself, however deep. */
  lemma NestingIsLimited(s: Screen, n: Node, w: nat, h: nat, depth: nat)
    requires w >= 6 && h >= 2
    ensures !n.kind.Row? && !n.kind.Col? ==> Picture(s, n, w, h, depth) == s.leaf(n, w, h, false)
    ensures (n.kind.Row? || n.kind.Col?) && depth > 3 ==> Picture(s, n, w, h, depth) == s.leaf(n, w, h, true)
  {
  }

  /** A rectangle too small to draw in, and a row or column of nothing, are left blank. */
  lemma NothingIsBlank(s: Screen, n: Node, w: nat, h: nat, depth: nat, y: nat)
    requires w < 6 || h < 2 || ((n.kind.Row? || n.kind.Col?) && n.children == [] && depth <= 3)
    requires y < h
    ensures |Picture(s, n, w, h, depth)| == h && |Picture(s, n, w, h, depth)[y]| == w
    ensures AllSpaces(Picture(s, n, w, h, depth)[y])
  {
  }

  /** A row with less than twenty cells to a child is drawn as the column of its children. */
  lemma NarrowRowIsColumn(s: Screen, n: Node, w: nat, h: nat, depth: nat)
    requires n.kind.Row? && w < 20 * |n.children| && depth <= 3
    ensures Picture(s, n, w, h, depth) == Picture(s, n.(kind := Col), w, h, depth)
  {
  }

  /** Below its children a column is blank. */
  lemma ColumnEndsBlank(s: Screen, n: Node, w: nat, h: nat, depth: nat, y: nat)
    requires s.Fills() && n.kind.Col? && n.children != [] && w >= 6 && h >= 2 && depth <= MAX_DEPTH
    requires Sum(Heights(s, n.children, w, h)) <= y < h
    ensures |Picture(s, n, w, h, depth)| == h && AllSpaces(Picture(s, n, w, h, depth)[y])
  {
    var kids, heights := n.children, Heights(s, n.children, w, h);
    PictureFills(s, n, w, h, depth);
    StackedFits(s, kids, heights, w, h, depth, |kids|);
    assert heights[..|kids|] == heights;
    var stack := Stacked(s, kids, heights, w, h, depth, |kids|);
    assert Picture(s, n, w, h, depth)[y] == Blank(w, h - |stack|)[y - |stack|];
  }
}
