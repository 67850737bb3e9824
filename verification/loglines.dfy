/** Following a log that grows: the complete lines added since the last look, whatever the
    places it was cut in. */
module LogLines {

  const NEWLINE := '\n'
  const RETURN := '\r'

  /** The text between newlines; always at least one piece, the last one unfinished. */
  function Pieces(text: string): (r: seq<string>)
    ensures r != []
  {
    if text == "" then [""] else Before(text[0], Pieces(text[1..]))
  }

  /** The pieces of a text with c before it. */
  function Before(c: char, rest: seq<string>): (r: seq<string>)
    requires rest != []
    ensures |r| == |rest| + if c == NEWLINE then 1 else 0
  {
    if c == NEWLINE then [""] + rest else [[c] + rest[0]] + rest[1..]
  }

  function Unfinished(text: string): string {
    var pieces := Pieces(text);
    pieces[|pieces| - 1]
  }

  function TrimReturns(line: string): string {
    if line != "" && line[|line| - 1] == RETURN then TrimReturns(line[..|line| - 1]) else line
  }

  /** The pieces as they are reported: carriage returns trimmed, empty ones left out. */
  function Kept(pieces: seq<string>): seq<string> {
    if pieces == [] then []
    else
      var rest, line := Kept(pieces[..|pieces| - 1]), TrimReturns(pieces[|pieces| - 1]);
      if line == "" then rest else rest + [line]
  }

  /** A text's complete lines. */
  function Complete(text: string): seq<string> {
    var pieces := Pieces(text);
    Kept(pieces[..|pieces| - 1])
  }

  /** What more text does to the pieces: it continues the last one. */
  lemma {:induction false} PiecesContinue(a: string, b: string)
    ensures Pieces(a + b) == Continued(Pieces(a), b)
  {
    if a == "" {
      assert a + b == b && "" + b == b;
    } else {
      PiecesContinue(a[1..], b);
      assert (a + b)[1..] == a[1..] + b;
      BeforeContinued(a[0], Pieces(a[1..]), b);
    }
  }

  function Continued(pieces: seq<string>, b: string): seq<string>
    requires pieces != []
  {
    pieces[..|pieces| - 1] + Pieces(pieces[|pieces| - 1] + b)
  }

  lemma BeforeContinued(c: char, rest: seq<string>, b: string)
    requires rest != []
    ensures Before(c, Continued(rest, b)) == Continued(Before(c, rest), b)
  {
    if c == NEWLINE {
      NewlineContinued(rest, b);
    } else if |rest| == 1 {
      LineContinued(c, rest[0], b);
      assert rest == [rest[0]];
    } else {
      FirstContinued(c, rest, b);
    }
  }

  lemma NewlineContinued(rest: seq<string>, b: string)
    requires rest != []
    ensures Before(NEWLINE, Continued(rest, b)) == Continued(Before(NEWLINE, rest), b)
  {
    assert ([""] + rest)[..|rest|] == [""] + rest[..|rest| - 1];
  }

  lemma LineContinued(c: char, line: string, b: string)
    requires c != NEWLINE
    ensures Before(c, Continued([line], b)) == Continued(Before(c, [line]), b)
  {
    assert [c] + line + b == [c] + (line + b);
    assert Before(c, [line]) == [[c] + line];
  }

  lemma FirstContinued(c: char, rest: seq<string>, b: string)
    requires c != NEWLINE && |rest| > 1
    ensures Before(c, Continued(rest, b)) == Continued(Before(c, rest), b)
  {
    var first := [[c] + rest[0]];
    assert (first + rest[1..])[..|rest| - 1] == first + rest[1..|rest| - 1];
  }

  lemma {:induction false} KeptTogether(p: seq<string>, q: seq<string>)
    ensures Kept(p + q) == Kept(p) + Kept(q)
  {
    if q == [] {
      assert p + q == p;
    } else {
      KeptTogether(p, q[..|q| - 1]);
      assert (p + q)[..|p + q| - 1] == p + q[..|q| - 1];
    }
  }

  /** The complete lines of a text that grew are those it had, and those its unfinished
      line and what was added make; its unfinished line is the one they leave. */
  lemma CompleteContinues(a: string, b: string)
    ensures Complete(a + b) == Complete(a) + Complete(Unfinished(a) + b)
    ensures Unfinished(a + b) == Unfinished(Unfinished(a) + b)
  {
    var before, after := Pieces(a), Pieces(Unfinished(a) + b);
    PiecesContinue(a, b);
    var init := before[..|before| - 1];
    assert (init + after)[..|init + after| - 1] == init + after[..|after| - 1];
    KeptTogether(init, after[..|after| - 1]);
  }

  // What the pieces and the reported lines are.

  /** Pieces with a newline between each two. */
  function Joined(pieces: seq<string>): string
    requires pieces != []
  {
    if |pieces| == 1 then pieces[0] else pieces[0] + [NEWLINE] + Joined(pieces[1..])
  }

  /** The pieces are the text, cut at every newline. */
  lemma {:induction false} PiecesAreText(text: string)
    ensures Joined(Pieces(text)) == text
    ensures forall p | p in Pieces(text) :: NEWLINE !in p
  {
    if text != "" {
      PiecesAreText(text[1..]);
      BeforeIsJoined(text[0], Pieces(text[1..]));
      assert text == [text[0]] + text[1..];
    }
  }

  lemma BeforeIsJoined(c: char, rest: seq<string>)
    requires rest != [] && forall p | p in rest :: NEWLINE !in p
    ensures Joined(Before(c, rest)) == [c] + Joined(rest)
    ensures forall p | p in Before(c, rest) :: NEWLINE !in p
  {
    var all := Before(c, rest);
    if c == NEWLINE {
      assert all[1..] == rest;
    } else {
      assert all[0] == [c] + rest[0] && all[1..] == rest[1..] && rest[0] in rest;
      assert forall p | p in rest[1..] :: p in rest;
    }
  }

  function Returns(k: nat): string {
    seq(k, i => RETURN)
  }

  lemma {:induction false} TrimDropsReturns(line: string, k: nat)
    requires line != "" ==> line[|line| - 1] != RETURN
    ensures TrimReturns(line + Returns(k)) == line
    decreases k
  {
    if k == 0 {
      assert line + Returns(k) == line;
    } else {
      assert (line + Returns(k))[..|line| + k - 1] == line + Returns(k - 1);
      TrimDropsReturns(line, k - 1);
    }
  }

  lemma {:induction false} OneLine(line: string)
    requires NEWLINE !in line
    ensures Pieces(line + [NEWLINE]) == [line, ""]
  {
    if line == "" {
      assert line + [NEWLINE] == [NEWLINE];
    } else {
      OneLine(line[1..]);
      assert (line + [NEWLINE])[1..] == line[1..] + [NEWLINE];
      assert [line[0]] + line[1..] == line;
    }
  }

  /** A line is reported as it is, whatever returns stand before its newline; one that is
      empty but for them is not. */
  lemma LineIsReported(line: string, k: nat)
    requires NEWLINE !in line && (line != "" ==> line[|line| - 1] != RETURN)
    ensures Complete(line + Returns(k) + [NEWLINE]) == if line == "" then [] else [line]
    ensures Unfinished(line + Returns(k) + [NEWLINE]) == ""
  {
    OneLine(line + Returns(k));
    TrimDropsReturns(line, k);
    var pieces := [line + Returns(k), ""];
    assert pieces[..1] == [line + Returns(k)];
    KeptOne(line + Returns(k));
  }

  lemma KeptOne(piece: string)
    ensures Kept([piece]) == if TrimReturns(piece) == "" then [] else [TrimReturns(piece)]
  {
    assert [piece][..0] == [];
  }

  /** No line reported is empty, ends in a return or holds a newline. */
  lemma ReportedLinesAreClean(text: string, line: string)
    requires line in Complete(text)
    ensures line != "" && line[|line| - 1] != RETURN && NEWLINE !in line
  {
    PiecesAreText(text);
    KeptAreTrimmed(Pieces(text)[..|Pieces(text)| - 1], line);
  }

  lemma {:induction false} KeptAreTrimmed(pieces: seq<string>, line: string)
    requires line in Kept(pieces) && forall p | p in pieces :: NEWLINE !in p
    ensures line != "" && line[|line| - 1] != RETURN && NEWLINE !in line
    decreases |pieces|
  {
    var init, last := pieces[..|pieces| - 1], pieces[|pieces| - 1];
    TrimLeaves(last);
    if line in Kept(init) {
      KeptAreTrimmed(init, line);
    } else {
      assert line == TrimReturns(last) && last in pieces;
    }
  }

  lemma {:induction false} TrimLeaves(line: string)
    ensures TrimReturns(line) <= line
    ensures TrimReturns(line) != "" ==> TrimReturns(line)[|TrimReturns(line)| - 1] != RETURN
    decreases |line|
  {
    if line != "" && line[|line| - 1] == RETURN {
      TrimLeaves(line[..|line| - 1]);
    }
  }

  /** What a follower remembers between looks. */
  class Follower {
    var offset: nat
    var pending: string

    /** It has read exactly text. */
    ghost predicate HasRead(text: string)
      reads this
    {
      offset == |text| && pending == Unfinished(text)
    }

    constructor ()
      ensures HasRead("")
    {
      offset, pending := 0, "";
    }

    /** Reads on in a file that held text when it was last read and holds more, or no
        more, now. */
    method ReadNewLines(file: string, ghost text: string) returns (out: seq<string>)
      requires HasRead(text) && text <= file
      modifies this
      ensures HasRead(file)
      ensures out == Complete(old(pending) + file[old(offset)..])
      ensures Complete(file) == Complete(text) + out
    {
      assert file == text + file[offset..];
      var buf := file[offset..];
      if |buf| == 0 {
        CompleteContinues(text, buf);
        assert file == text && text + buf == text;
        return [];
      }
      CompleteContinues(text, buf);
      offset := offset + |buf|;
      var lines := Pieces(pending + buf);
      pending := lines[|lines| - 1];
      out := [];
      for i := 0 to |lines| - 1
        invariant out == Kept(lines[..i])
      {
        assert lines[..i + 1][..i] == lines[..i];
        var l := TrimReturns(lines[i]);
        if l != "" {
          out := out + [l];
        }
      }
    }
  }

  /** What successive looks at a log report, cut where the looks fell, and what the last
      one leaves pending. */
  function Reported(cuts: seq<string>, pending: string): seq<string> {
    if cuts == [] then []
    else Complete(pending + cuts[0]) + Reported(cuts[1..], Unfinished(pending + cuts[0]))
  }

  function Left(cuts: seq<string>, pending: string): string {
    if cuts == [] then pending else Left(cuts[1..], Unfinished(pending + cuts[0]))
  }

  function Whole(cuts: seq<string>): string {
    if cuts == [] then "" else cuts[0] + Whole(cuts[1..])
  }

  /** The cuts make no difference: together the looks report the complete lines of the
      whole log, and leave its unfinished line. */
  lemma {:induction false} CutsDoNotMatter(cuts: seq<string>, before: string)
    ensures Complete(before) + Reported(cuts, Unfinished(before)) == Complete(before + Whole(cuts))
    ensures Left(cuts, Unfinished(before)) == Unfinished(before + Whole(cuts))
  {
    if cuts == [] {
      assert before + Whole(cuts) == before;
    } else {
      CutsDoNotMatter(cuts[1..], before + cuts[0]);
      OneCut(cuts, before);
      InTurn(before, cuts[0], Whole(cuts[1..]));
    }
  }

  lemma OneCut(cuts: seq<string>, before: string)
    requires cuts != []
    ensures Complete(before) + Reported(cuts, Unfinished(before)) ==
        Complete(before + cuts[0]) + Reported(cuts[1..], Unfinished(before + cuts[0]))
    ensures Left(cuts, Unfinished(before)) == Left(cuts[1..], Unfinished(before + cuts[0]))
  {
    CompleteContinues(before, cuts[0]);
    var rest := Reported(cuts[1..], Unfinished(before + cuts[0]));
    ReportedOnce(cuts, Unfinished(before));
    InTurn(Complete(before), Complete(Unfinished(before) + cuts[0]), rest);
  }

  lemma InTurn<T>(p: seq<T>, q: seq<T>, r: seq<T>)
    ensures p + (q + r) == p + q + r
  {
  }

  lemma ReportedOnce(cuts: seq<string>, pending: string)
    requires cuts != []
    ensures Reported(cuts, pending) == Complete(pending + cuts[0]) + Reported(cuts[1..], Unfinished(pending + cuts[0]))
    ensures Left(cuts, pending) == Left(cuts[1..], Unfinished(pending + cuts[0]))
  {
  }
}
