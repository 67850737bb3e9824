/** Names in the order they are sorted in: character by character, a prefix first. */
module Sorted {

  predicate Before(a: string, b: string) {
    b != [] && (a == [] || a[0] < b[0] || (a[0] == b[0] && Before(a[1..], b[1..])))
  }

  lemma {:induction false} BeforeIsStrict(a: string, b: string)
    ensures !(Before(a, b) && Before(b, a)) && !Before(a, a)
  {
    if a != [] {
      BeforeIsStrict(a[1..], if b != [] then b[1..] else []);
    }
  }

  lemma {:induction false} BeforeIsTransitive(a: string, b: string, c: string)
    requires Before(a, b) && Before(b, c)
    ensures Before(a, c)
  {
    if a != [] && a[0] == b[0] && b[0] == c[0] {
      BeforeIsTransitive(a[1..], b[1..], c[1..]);
    }
  }

  lemma {:induction false} BeforeIsTotal(a: string, b: string)
    ensures Before(a, b) || Before(b, a) || a == b
  {
    if a != [] && b != [] && a[0] == b[0] {
      BeforeIsTotal(a[1..], b[1..]);
      assert a == [a[0]] + a[1..] && b == [b[0]] + b[1..];
    }
  }

  ghost predicate InOrder(names: seq<string>) {
    forall i, j | 0 <= i < j < |names| :: Before(names[i], names[j])
  }

  /** The first of some names. */
  lemma {:induction false} First(names: set<string>) returns (n: string)
    requires names != {}
    ensures n in names && forall m | m in names && m != n :: Before(n, m)
  {
    var x :| x in names;
    if names == {x} {
      n := x;
    } else {
      var y := First(names - {x});
      BeforeIsTotal(x, y);
      if Before(x, y) {
        n := x;
        forall m | m in names && m != x ensures Before(x, m) {
          if m != y {
            BeforeIsTransitive(x, y, m);
          }
        }
      } else {
        n := y;
      }
    }
  }

  lemma {:induction false} SortedListing(names: set<string>) returns (q: seq<string>)
    ensures InOrder(q) && forall m :: m in q <==> m in names
    decreases names
  {
    if names == {} {
      q := [];
    } else {
      var n := First(names);
      var rest := SortedListing(names - {n});
      q := [n] + rest;
      forall i, j | 0 <= i < j < |q| ensures Before(q[i], q[j]) {
        if i == 0 {
          assert q[j] in rest;
        }
      }
    }
  }
}
