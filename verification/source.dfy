/** Positions in a file and in the version of it a module reads: doze's own arguments are
    blanked in place, and what a module reports is moved back by line. */
module Source {
  import opened Stack

  newtype byte = x: int | 0 <= x < 256

  type Bytes = seq<byte>

  const NEWLINE: byte := 10
  const RETURN: byte := 13
  const SPACE: byte := 32

  datatype Pos = Pos(line: int, column: int, at: int)

  datatype Span = Span(lo: nat, hi: nat)

  // Lines.

  function Newlines(src: Bytes): nat {
    if src == [] then 0 else Newlines(src[..|src| - 1]) + if src[|src| - 1] == NEWLINE then 1 else 0
  }

  /** Where the line that holds offset lo ends: at its newline, or with the file. */
  function LineEnd(src: Bytes, lo: nat): (e: nat)
    requires lo <= |src|
    ensures lo <= e <= |src| && (e < |src| ==> src[e] == NEWLINE)
    ensures forall i | lo <= i < e :: src[i] != NEWLINE
    decreases |src| - lo
  {
    if lo == |src| || src[lo] == NEWLINE then lo else LineEnd(src, lo + 1)
  }

  /** Offset lo begins line n. */
  predicate BeginsLine(src: Bytes, n: int, lo: nat) {
    lo <= |src| && Newlines(src[..lo]) == n - 1 && (lo == 0 || src[lo - 1] == NEWLINE)
  }

  /** A line's text is what precedes its newline, less a carriage return. */
  function Text(src: Bytes, lo: nat): (s: Span)
    requires lo <= |src|
    ensures s.lo == lo <= s.hi <= |src|
  {
    var e := LineEnd(src, lo);
    Span(lo, if e > lo && src[e - 1] == RETURN then e - 1 else e)
  }

  ghost predicate IsLine(src: Bytes, n: int, s: Span) {
    BeginsLine(src, n, s.lo) && s == Text(src, s.lo)
  }

  /** A line's text holds no newline, and stops before one, before a carriage return and one,
      or where the file does; of the carriage returns at its end it leaves out the last. */
  lemma LineIs(src: Bytes, n: int, s: Span)
    requires IsLine(src, n, s)
    ensures s.lo <= s.hi <= |src| && forall i | s.lo <= i < s.hi :: src[i] != 10
    ensures || s.hi == |src| || src[s.hi] == 10
            || (src[s.hi] == 13 && (s.hi + 1 == |src| || src[s.hi + 1] == 10))
    ensures s.lo < s.hi && src[s.hi - 1] == 13 ==> s.hi < |src| && src[s.hi] == 13
  {
  }

  lemma {:induction false} NewlinesAppend(p: Bytes, q: Bytes)
    ensures Newlines(p + q) == Newlines(p) + Newlines(q)
  {
    if q == [] {
      assert p + q == p;
    } else {
      NewlinesAppend(p, q[..|q| - 1]);
      assert (p + q)[..|p + q| - 1] == p + q[..|q| - 1];
    }
  }

  lemma {:induction false} NoNewlines(p: Bytes)
    requires NEWLINE !in p
    ensures Newlines(p) == 0
  {
    if p != [] {
      NoNewlines(p[..|p| - 1]);
    }
  }

  /** Between two offsets there are no fewer newlines than before. */
  lemma NewlinesGrow(src: Bytes, a: nat, b: nat)
    requires a <= b <= |src|
    ensures Newlines(src[..b]) == Newlines(src[..a]) + Newlines(src[a..b])
  {
    assert src[..b] == src[..a] + src[a..b];
    NewlinesAppend(src[..a], src[a..b]);
  }

  lemma NextLineBegins(src: Bytes, n: int, lo: nat)
    requires BeginsLine(src, n, lo)
    ensures var e := LineEnd(src, lo);
            if e < |src| then BeginsLine(src, n + 1, e + 1) else Newlines(src) == n - 1
  {
    var e := LineEnd(src, lo);
    NewlinesGrow(src, lo, e);
    NoNewlines(src[lo..e]);
    if e < |src| {
      assert src[..e + 1][..e] == src[..e];
    } else {
      assert src[..e] == src;
    }
  }

  /** A line begins in one place. */
  lemma LineBeginsOnce(src: Bytes, n: int, a: nat, b: nat)
    requires BeginsLine(src, n, a) && BeginsLine(src, n, b)
    ensures a == b
  {
    if a < b {
      EarlierLine(src, a, b);
    } else if b < a {
      EarlierLine(src, b, a);
    }
  }

  lemma EarlierLine(src: Bytes, a: nat, b: nat)
    requires a < b <= |src| && src[b - 1] == NEWLINE
    ensures Newlines(src[..a]) < Newlines(src[..b])
  {
    NewlinesGrow(src, a, b - 1);
    assert src[..b][..b - 1] == src[..b - 1];
  }

  lemma LaterLineFollows(src: Bytes, n: int, m: int, a: nat, b: nat)
    requires BeginsLine(src, n, a) && BeginsLine(src, m, b) && n < m
    ensures LineEnd(src, a) < b
  {
    if b <= a {
      NewlinesGrow(src, b, a);
    }
  }

  /** Line n, if there is one. */
  method LineSpan(src: Bytes, n: int) returns (s: Option<Span>)
    ensures s.Some? <==> 1 <= n <= Newlines(src) + 1
    ensures s.Some? ==> IsLine(src, n, s.value)
  {
    if n < 1 {
      return None;
    }
    var lo := 0;
    for line := 1 to n
      invariant BeginsLine(src, line, lo) && line <= Newlines(src) + 1
    {
      NextLineBegins(src, line, lo);
      var i := IndexNewline(src, lo);
      if i.None? {
        return None;
      }
      lo := i.value + 1;
      NewlinesGrow(src, lo, |src|);
      assert src[..|src|] == src;
    }
    var hi := |src|;
    var i := IndexNewline(src, lo);
    if i.Some? {
      hi := i.value;
    }
    if hi > lo && src[hi - 1] == RETURN {
      hi := hi - 1;
    }
    s := Some(Span(lo, hi));
  }

  method IndexNewline(src: Bytes, lo: nat) returns (i: Option<nat>)
    requires lo <= |src|
    ensures i == if LineEnd(src, lo) < |src| then Some(LineEnd(src, lo)) else None
  {
    var k := lo;
    while k < |src| && src[k] != NEWLINE
      invariant lo <= k <= |src| && LineEnd(src, k) == LineEnd(src, lo)
    {
      k := k + 1;
    }
    i := if k < |src| then Some(k) else None;
  }
}
