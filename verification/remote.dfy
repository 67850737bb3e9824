/** Blanking doze's own arguments out of what a module reads, and moving the positions the
    module reports back onto the user's file. */
module Remote {
  import opened Stack
  import opened Source

  datatype Attribute = Attribute(name: string, start: nat, end: nat)

  datatype Block = Block(kind: string, labels: nat, attributes: seq<Attribute>)

  const MODULE := "module"
  const CORE := {"after", "sleep", "routes"}

  /** Offset i lies in an argument doze reads itself, of one of the first n blocks. */
  ghost predicate Covered(blocks: seq<Block>, n: nat, i: int)
    requires n <= |blocks|
  {
    exists b, a :: 0 <= b < n && Covers(blocks[b], a, i)
  }

  ghost predicate Covers(b: Block, a: int, i: int) {
    && b.kind == MODULE && b.labels == 2 && 0 <= a < |b.attributes|
    && b.attributes[a].name in CORE && b.attributes[a].start <= i < b.attributes[a].end
  }

  /** The bytes of src with some offsets blanked: spaces there, but newlines stay. */
  ghost predicate Blanks(src: Bytes, out: Bytes, covered: int -> bool) {
    && |out| == |src|
    && forall i | 0 <= i < |src| :: out[i] == if covered(i) && src[i] != NEWLINE then SPACE else src[i]
  }

  /** What a module reads of a file; one that does not parse is left as it is. */
  method BlankCoreArguments(src: Bytes, parsed: Option<seq<Block>>) returns (out: Bytes)
    ensures parsed.None? ==> out == src
    ensures parsed.Some? ==> Blanks(src, out, i => Covered(parsed.value, |parsed.value|, i))
  {
    if parsed.None? {
      return src;
    }
    var blocks := parsed.value;
    var work := new byte[|src|](i requires 0 <= i < |src| => src[i]);
    assert Blanks(src, work[..], i => Covered(blocks, 0, i));
    for b := 0 to |blocks|
      invariant work.Length == |src|
      invariant Blanks(src, work[..], i => Covered(blocks, b, i))
    {
      BlankBlock(src, blocks, b, work);
    }
    out := work[..];
  }

  method BlankBlock(src: Bytes, blocks: seq<Block>, b: nat, work: array<byte>)
    requires b < |blocks| && work.Length == |src|
    requires Blanks(src, work[..], i => Covered(blocks, b, i))
    modifies work
    ensures Blanks(src, work[..], i => Covered(blocks, b + 1, i))
  {
    ghost var before := work[..];
    if blocks[b].kind == MODULE && blocks[b].labels == 2 {
      for a := 0 to |blocks[b].attributes|
        invariant Blanks(before, work[..], i => CoveredBy(blocks[b], a, i))
      {
        ghost var was := work[..];
        if blocks[b].attributes[a].name in CORE {
          BlankRange(work, blocks[b].attributes[a].start, blocks[b].attributes[a].end);
        }
        assert Blanks(was, work[..], i => Covers(blocks[b], a, i));
        BlanksTogether(before, was, work[..],
          i => CoveredBy(blocks[b], a, i), i => Covers(blocks[b], a, i), i => CoveredBy(blocks[b], a + 1, i));
      }
    }
    assert Blanks(before, work[..], i => CoveredBy(blocks[b], |blocks[b].attributes|, i));
    OneMoreBlock(blocks, b);
    BlanksTogether(src, before, work[..],
      i => Covered(blocks, b, i), i => CoveredBy(blocks[b], |blocks[b].attributes|, i), i => Covered(blocks, b + 1, i));
  }

  ghost predicate CoveredBy(b: Block, a: int, i: int) {
    exists c :: 0 <= c < a && Covers(b, c, i)
  }

  lemma BlanksTogether(x: Bytes, y: Bytes, z: Bytes, p: int -> bool, q: int -> bool, r: int -> bool)
    requires Blanks(x, y, p) && Blanks(y, z, q) && forall i :: r(i) <==> p(i) || q(i)
    ensures Blanks(x, z, r)
  {
  }

  lemma OneMoreBlock(blocks: seq<Block>, b: nat)
    requires b < |blocks|
    ensures forall i :: Covered(blocks, b + 1, i) <==>
        Covered(blocks, b, i) || CoveredBy(blocks[b], |blocks[b].attributes|, i)
  {
    forall i | Covered(blocks, b, i) || CoveredBy(blocks[b], |blocks[b].attributes|, i)
        ensures Covered(blocks, b + 1, i) {
      if Covered(blocks, b, i) {
        var k, a :| 0 <= k < b && Covers(blocks[k], a, i);
        assert Covers(blocks[k], a, i);
      } else {
        var c :| 0 <= c < |blocks[b].attributes| && Covers(blocks[b], c, i);
        assert Covers(blocks[b], c, i);
      }
    }
  }

  method BlankRange(work: array<byte>, start: nat, end: nat)
    modifies work
    ensures Blanks(old(work[..]), work[..], i => start <= i < end)
  {
    var i := start;
    while i < end && i < work.Length
      invariant start <= i
      invariant forall j | 0 <= j < work.Length ::
                  work[j] == if start <= j < i && j < end && old(work[j]) != NEWLINE then SPACE else old(work[j])
    {
      if work[i] != NEWLINE {
        work[i] := SPACE;
      }
      i := i + 1;
    }
  }

  // Blanking moves no line.

  lemma {:induction false} BlanksKeepNewlines(src: Bytes, out: Bytes, covered: int -> bool, k: nat)
    requires Blanks(src, out, covered) && k <= |src|
    ensures Newlines(out[..k]) == Newlines(src[..k])
  {
    if k > 0 {
      BlanksKeepNewlines(src, out, covered, k - 1);
      assert src[..k][..k - 1] == src[..k - 1] && out[..k][..k - 1] == out[..k - 1];
    }
  }

  lemma {:induction false} BlanksKeepLineEnd(src: Bytes, out: Bytes, covered: int -> bool, lo: nat)
    requires Blanks(src, out, covered) && lo <= |src|
    ensures LineEnd(out, lo) == LineEnd(src, lo)
    decreases |src| - lo
  {
    if lo < |src| && src[lo] != NEWLINE {
      BlanksKeepLineEnd(src, out, covered, lo + 1);
    }
  }

  // Moving positions by line.

  ghost predicate OnLine(src: Bytes, pos: Pos, s: Span) {
    IsLine(src, pos.line, s) && s.lo <= pos.at <= s.hi
  }

  /** The line reads the same in both files, and q is as far into it as pos. */
  ghost predicate MovesBetween(pos: Pos, from: Bytes, to: Bytes, f: Span, t: Span, q: Pos) {
    && OnLine(from, pos, f) && OnLine(to, q, t) && from[f.lo..f.hi] == to[t.lo..t.hi]
    && q == pos.(at := q.at) && q.at - t.lo == pos.at - f.lo
  }

  ghost predicate Moves(pos: Pos, from: Bytes, to: Bytes, q: Pos) {
    exists f, t :: MovesBetween(pos, from, to, f, t, q)
  }

  method MoveByLine(pos: Pos, from: Bytes, to: Bytes) returns (r: Option<Pos>)
    ensures r.Some? ==> Moves(pos, from, to, r.value)
    ensures r.None? ==> forall q :: !Moves(pos, from, to, q)
  {
    var f := LineSpan(from, pos.line);
    if f.None? {
      NoSuchLine(from, pos.line);
      return None;
    }
    var t := LineSpan(to, pos.line);
    LinesAreOnce(from, pos.line, f.value);
    if t.None? {
      NoSuchLine(to, pos.line);
      return None;
    }
    LinesAreOnce(to, pos.line, t.value);
    if from[f.value.lo..f.value.hi] != to[t.value.lo..t.value.hi] {
      return None;
    }
    var off := pos.at - f.value.lo;
    if off < 0 || off > f.value.hi - f.value.lo {
      return None;
    }
    assert |from[f.value.lo..f.value.hi]| == |to[t.value.lo..t.value.hi]|;
    r := Some(pos.(at := t.value.lo + off));
    assert MovesBetween(pos, from, to, f.value, t.value, r.value);
  }

  lemma LinesAreOnce(src: Bytes, n: int, s: Span)
    requires IsLine(src, n, s)
    ensures forall s' | IsLine(src, n, s') :: s' == s
  {
    forall s' | IsLine(src, n, s') ensures s' == s {
      LineBeginsOnce(src, n, s.lo, s'.lo);
    }
  }

  lemma NoSuchLine(src: Bytes, n: int)
    requires !(1 <= n <= Newlines(src) + 1)
    ensures forall s :: !IsLine(src, n, s)
  {
    forall s ensures !IsLine(src, n, s) {
      if s.lo <= |src| {
        NewlinesGrow(src, s.lo, |src|);
        assert src[..|src|] == src;
      }
    }
  }

  /** A position moves to one place only. */
  lemma MovesOnce(pos: Pos, from: Bytes, to: Bytes, q: Pos, q': Pos)
    requires Moves(pos, from, to, q) && Moves(pos, from, to, q')
    ensures q == q'
  {
    var f, t :| MovesBetween(pos, from, to, f, t, q);
    var f', t' :| MovesBetween(pos, from, to, f', t', q');
    LineBeginsOnce(from, pos.line, f.lo, f'.lo);
    LineBeginsOnce(to, pos.line, t.lo, t'.lo);
  }

  /** Moving a position is undone by moving it the other way. */
  lemma MovesBack(pos: Pos, from: Bytes, to: Bytes, q: Pos)
    ensures Moves(pos, from, to, q) <==> Moves(q, to, from, pos)
  {
    if Moves(pos, from, to, q) {
      var f, t :| MovesBetween(pos, from, to, f, t, q);
      assert MovesBetween(q, to, from, t, f, pos);
    }
    if Moves(q, to, from, pos) {
      var t, f :| MovesBetween(q, to, from, t, f, pos);
      assert MovesBetween(pos, from, to, f, t, q);
    }
  }

  /** Two positions that move keep their order. */
  lemma MovesInOrder(a: Pos, b: Pos, from: Bytes, to: Bytes, a': Pos, b': Pos)
    requires Moves(a, from, to, a') && Moves(b, from, to, b')
    ensures a.at <= b.at <==> a'.at <= b'.at
  {
    var fa, ta :| MovesBetween(a, from, to, fa, ta, a');
    var fb, tb :| MovesBetween(b, from, to, fb, tb, b');
    OnLinesInOrder(from, a, b, fa, fb);
    OnLinesInOrder(from, b, a, fb, fa);
    OnLinesInOrder(to, a', b', ta, tb);
    OnLinesInOrder(to, b', a', tb, ta);
  }

  lemma OnLinesInOrder(src: Bytes, a: Pos, b: Pos, s: Span, t: Span)
    requires OnLine(src, a, s) && OnLine(src, b, t)
    ensures a.line == b.line ==> s == t
    ensures a.line < b.line ==> a.at < b.at
  {
    if a.line == b.line {
      LineBeginsOnce(src, a.line, s.lo, t.lo);
    } else if a.line < b.line {
      LaterLineFollows(src, a.line, b.line, s.lo, t.lo);
    }
  }

  /** A position in what a module reads moves to the user's file if and only if blanking
      left its whole line as it was; and then it is where it was. */
  lemma BlankedPositionMovesIff(pos: Pos, src: Bytes, out: Bytes, covered: int -> bool, s: Span)
    requires Blanks(src, out, covered) && OnLine(out, pos, s)
    ensures (exists q :: Moves(pos, out, src, q)) <==>
            forall i | s.lo <= i < LineEnd(src, s.lo) && covered(i) :: src[i] == SPACE
    ensures forall q :: Moves(pos, out, src, q) ==> q == pos
  {
    BlanksKeepNewlines(src, out, covered, s.lo);
    BlanksKeepLineEnd(src, out, covered, s.lo);
    var t := Text(src, s.lo);
    assert IsLine(src, pos.line, t);
    SameTextIff(src, out, covered, s);
    if src[t.lo..t.hi] == out[s.lo..s.hi] {
      assert |src[t.lo..t.hi]| == |out[s.lo..s.hi]|;
      assert MovesBetween(pos, out, src, s, t, pos);
      assert Moves(pos, out, src, pos);
    }
    forall q | Moves(pos, out, src, q) ensures q == pos && src[t.lo..t.hi] == out[s.lo..s.hi] {
      var f, t' :| MovesBetween(pos, out, src, f, t', q);
      LineBeginsOnce(out, pos.line, f.lo, s.lo);
      LineBeginsOnce(src, pos.line, t'.lo, t.lo);
    }
  }

  lemma SameTextIff(src: Bytes, out: Bytes, covered: int -> bool, s: Span)
    requires Blanks(src, out, covered) && s.lo <= |src| && s == Text(out, s.lo)
    requires LineEnd(out, s.lo) == LineEnd(src, s.lo)
    ensures var t := Text(src, s.lo);
            src[t.lo..t.hi] == out[s.lo..s.hi] <==>
            forall i | s.lo <= i < LineEnd(src, s.lo) && covered(i) :: src[i] == SPACE
  {
    var t, e := Text(src, s.lo), LineEnd(src, s.lo);
    if src[t.lo..t.hi] == out[s.lo..s.hi] {
      assert |src[t.lo..t.hi]| == |out[s.lo..s.hi]|;
      forall i | s.lo <= i < e && covered(i) ensures src[i] == SPACE {
        if i < t.hi {
          assert src[t.lo..t.hi][i - s.lo] == out[s.lo..s.hi][i - s.lo];
        }
      }
    }
  }

  // Ranges.

  datatype Range = Range(file: string, start: Pos, end: Pos)

  /** A file as the user wrote it, and as a module reads it. */
  datatype File = File(user: Bytes, module_: Bytes)

  /** The block a module decoded: its name and where its header is. */
  datatype Header = Header(name: string, at: Range)

  /** The file a range is in: an older module makes a name up. */
  function Named(p: Header, file: string): string {
    if file == "" || file == p.name + ".doze.hcl" then p.at.file else file
  }

  ghost predicate Mapped(f: File, r: Range, m: Range) {
    m.file == r.file && Moves(r.start, f.module_, f.user, m.start) && Moves(r.end, f.module_, f.user, m.end)
  }

  ghost predicate Unmapped(f: File, r: Range) {
    (forall q :: !Moves(r.start, f.module_, f.user, q)) || (forall q :: !Moves(r.end, f.module_, f.user, q))
  }

  predicate OnHeader(p: Header, r: Range) {
    r.file == p.at.file && r.start.line == p.at.start.line
  }

  /** The whole of the line s, from its first column. */
  predicate WholeLine(r: Range, m: Range, s: Span) {
    m == Range(r.file, Pos(r.start.line, 1, s.lo), Pos(r.start.line, s.hi - s.lo + 1, s.hi))
  }

  /** Where a range points: the same text of an identical line; or, when there is none, the
      block's own header, when that is the line; or else the whole line, when there is one. */
  ghost predicate Pointed(p: Header, f: File, r: Range, m: Range) {
    || Mapped(f, r, m)
    || (Unmapped(f, r) && if OnHeader(p, r) then m == p.at else AtLine(f.user, r, m))
  }

  ghost predicate AtLine(src: Bytes, r: Range, m: Range) {
    || (exists s :: IsLine(src, r.start.line, s) && WholeLine(r, m, s))
    || ((forall s :: !IsLine(src, r.start.line, s)) && m == r)
  }

  /** Where on the user's file a module's range points. */
  method RemoteRange(p: Header, files: map<string, File>, r: Option<Range>) returns (m: Option<Range>)
    ensures m.None? <==> r.None?
    ensures r.Some? ==>
              var named := r.value.(file := Named(p, r.value.file));
              if named.file in files then Pointed(p, files[named.file], named, m.value) else m == Some(named)
  {
    if r.None? {
      return None;
    }
    var named := r.value.(file := Named(p, r.value.file));
    if named.file !in files {
      return Some(named);
    }
    var f := files[named.file];
    var start := MoveByLine(named.start, f.module_, f.user);
    var end := MoveByLine(named.end, f.module_, f.user);
    if start.Some? && end.Some? {
      return Some(named.(start := start.value, end := end.value));
    }
    assert Unmapped(f, named);
    if OnHeader(p, named) {
      return Some(p.at);
    }
    m := WholeOfLine(f.user, named);
  }

  method WholeOfLine(src: Bytes, r: Range) returns (m: Option<Range>)
    ensures m.Some? && AtLine(src, r, m.value)
  {
    var s := LineSpan(src, r.start.line);
    if s.None? {
      NoSuchLine(src, r.start.line);
      return Some(r);
    }
    m := Some(Range(r.file, Pos(r.start.line, 1, s.value.lo),
        Pos(r.start.line, s.value.hi - s.value.lo + 1, s.value.hi)));
    assert IsLine(src, r.start.line, s.value) && WholeLine(r, m.value, s.value);
  }

  /** A position is in a file, on the line it says. */
  ghost predicate InFile(src: Bytes, pos: Pos) {
    exists s :: OnLine(src, pos, s)
  }

  /** A module's range in order, in a file with no more lines than the user's, points at
      the line it was reported on, in bounds, with its end no earlier than its start. */
  lemma RemoteRangeStaysOnItsLine(p: Header, f: File, r: Range, m: Range)
    requires InFile(f.module_, r.start) && InFile(f.module_, r.end) && r.start.at <= r.end.at
    requires OnHeader(p, r) ==> InFile(f.user, p.at.start) && InFile(f.user, p.at.end) && p.at.start.at <= p.at.end.at
    requires Newlines(f.module_) <= Newlines(f.user)
    requires Pointed(p, f, r, m)
    ensures InFile(f.user, m.start) && InFile(f.user, m.end) && m.start.line == r.start.line
    ensures 0 <= m.start.at <= m.end.at <= |f.user|
  {
    if Mapped(f, r, m) {
      MovedIsInFile(r.start, f.module_, f.user, m.start);
      MovedIsInFile(r.end, f.module_, f.user, m.end);
      MovesInOrder(r.start, r.end, f.module_, f.user, m.start, m.end);
    } else if !OnHeader(p, r) {
      LineExistsIff(f.module_, r.start.line);
      LineExistsIff(f.user, r.start.line);
      var s :| IsLine(f.user, r.start.line, s) && WholeLine(r, m, s);
      assert OnLine(f.user, m.start, s) && OnLine(f.user, m.end, s);
    }
  }

  /** A range under a name an older module made up, or under none, is in the block's own
      file; one under any other name is where it says. */
  lemma NoMadeUpName(p: Header, file: string)
    requires p.at.file != "" && p.at.file != p.name + ".doze.hcl"
    ensures Named(p, file) != "" && Named(p, file) != p.name + ".doze.hcl"
    ensures Named(p, file) == file || Named(p, file) == p.at.file
    ensures file != "" && file != p.name + ".doze.hcl" ==> Named(p, file) == file
  {
  }

  /** Where a range points that has no identical text: at the header, when it begins on the
      header's line of the header's file; and at its whole line otherwise, from the first
      column to the end of its text. */
  lemma UnmappedPointsAt(p: Header, f: File, r: Range, m: Range, s: Span)
    requires Pointed(p, f, r, m) && Unmapped(f, r) && IsLine(f.user, r.start.line, s)
    ensures if r.file == p.at.file && r.start.line == p.at.start.line then m == p.at
            else
              && m.file == r.file && m.start.line == m.end.line == r.start.line
              && m.start.column == 1 && m.end.column - m.start.column == s.hi - s.lo
              && m.start.at == s.lo && m.end.at == s.hi
  {
    forall q | IsLine(f.user, r.start.line, q) ensures q == s {
      assert q.lo == s.lo by { LineBeginsOnce(f.user, r.start.line, q.lo, s.lo); }
    }
  }

  lemma MovedIsInFile(pos: Pos, from: Bytes, to: Bytes, q: Pos)
    requires Moves(pos, from, to, q)
    ensures InFile(to, q) && q.line == pos.line && q.column == pos.column
  {
    var f, t :| MovesBetween(pos, from, to, f, t, q);
    assert OnLine(to, q, t);
  }

  lemma LineExistsIff(src: Bytes, n: int)
    ensures (exists s :: IsLine(src, n, s)) <==> 1 <= n <= Newlines(src) + 1
  {
    if 1 <= n <= Newlines(src) + 1 {
      var lo := StartOf(src, n);
      assert IsLine(src, n, Text(src, lo));
    } else {
      NoSuchLine(src, n);
    }
  }

  ghost function StartOf(src: Bytes, n: int): (lo: nat)
    requires 1 <= n <= Newlines(src) + 1
    ensures BeginsLine(src, n, lo)
  {
    if n == 1 then 0
    else
      var before := StartOf(src, n - 1);
      NextLineBegins(src, n - 1, before);
      LineEnd(src, before) + 1
  }

  /** Blanking keeps the number of lines. */
  lemma BlanksKeepLines(src: Bytes, out: Bytes, covered: int -> bool)
    requires Blanks(src, out, covered)
    ensures Newlines(out) == Newlines(src)
  {
    BlanksKeepNewlines(src, out, covered, |src|);
    assert src[..|src|] == src && out[..|out|] == out;
  }
}
