/** Splitting room by weight: whole cells, nothing left over. */
module Shares {

  function Sum(q: seq<nat>): nat {
    if q == [] then 0 else Sum(q[..|q| - 1]) + q[|q| - 1]
  }

  lemma {:induction false} SumPrefix(q: seq<nat>, i: nat)
    requires i < |q|
    ensures Sum(q[..i + 1]) == Sum(q[..i]) + q[i]
  {
    assert q[..i + 1][..i] == q[..i];
  }

  lemma {:induction false} SumGrows(q: seq<nat>, i: nat, j: nat)
    requires i <= j <= |q|
    ensures Sum(q[..i]) <= Sum(q[..j])
    decreases j
  {
    if i < j {
      SumPrefix(q, j - 1);
      SumGrows(q, i, j - 1);
    }
  }

  /** A weight's share of the room, rounded down. */
  function Share(room: nat, weight: nat, total: nat): nat
    requires total > 0
  {
    room * weight / total
  }

  function Rounded(room: nat, weights: seq<nat>, total: nat): (r: seq<nat>)
    requires total > 0
    ensures |r| == |weights|
  {
    seq(|weights|, i requires 0 <= i < |weights| => Share(room, weights[i], total))
  }

  /** The place of the last weight there is. */
  function LastWeighted(weights: seq<nat>): (i: nat)
    requires Sum(weights) > 0
    ensures i < |weights| && weights[i] > 0 && forall k | i < k < |weights| :: weights[k] == 0
  {
    if weights[|weights| - 1] > 0 then |weights| - 1 else LastWeighted(weights[..|weights| - 1])
  }

  /** The shares, with what rounding left given to the last one. */
  function Split(room: nat, weights: seq<nat>): (r: seq<nat>)
    requires Sum(weights) > 0
    ensures |r| == |weights|
  {
    RoundedFits(room, weights, Sum(weights));
    var shares, last := Rounded(room, weights, Sum(weights)), LastWeighted(weights);
    shares[last := shares[last] + (room - Sum(shares))]
  }

  lemma MultiplyInOrder(a: nat, b: nat, t: nat)
    requires a <= b
    ensures a * t <= b * t
  {
  }

  lemma DivideInOrder(a: nat, b: nat, t: nat)
    requires t > 0 && a <= b
    ensures a / t <= b / t
  {
    if b / t + 1 <= a / t {
      MultiplyInOrder(b / t + 1, a / t, t);
    }
  }

  lemma DivideBack(k: nat, t: nat)
    requires t > 0
    ensures k * t / t == k
  {
    var m := k * t;
    DivideLeaves(m, t);
    if m / t + 1 <= k {
      MultiplyInOrder(m / t + 1, k, t);
    }
  }

  lemma DivideLeaves(m: nat, t: nat)
    requires t > 0
    ensures m / t * t <= m < (m / t + 1) * t
  {
  }

  lemma FloorsAdd(a: nat, b: nat, t: nat)
    requires t > 0
    ensures a / t + b / t <= (a + b) / t
  {
    var k := a / t + b / t;
    assert k * t == (a / t) * t + (b / t) * t;
    DivideInOrder(k * t, a + b, t);
    DivideBack(k, t);
  }

  lemma ShareOneMore(room: nat, before: nat, weight: nat, total: nat)
    requires total > 0
    ensures Share(room, before, total) + Share(room, weight, total) <= Share(room, before + weight, total)
  {
    FloorsAdd(room * before, room * weight, total);
    assert room * before + room * weight == room * (before + weight);
  }

  lemma {:induction false} RoundedFits(room: nat, weights: seq<nat>, total: nat)
    requires total > 0
    ensures Sum(Rounded(room, weights, total)) <= Share(room, Sum(weights), total)
    ensures Sum(weights) == total ==> Sum(Rounded(room, weights, total)) <= room
  {
    if weights == [] {
    } else {
      var init, w := weights[..|weights| - 1], weights[|weights| - 1];
      RoundedFits(room, init, total);
      assert Rounded(room, weights, total)[..|init|] == Rounded(room, init, total);
      ShareOneMore(room, Sum(init), w, total);
    }
    DivideBack(room, total);
  }

  lemma {:induction false} SumAfterRaise(q: seq<nat>, i: nat, more: nat)
    requires i < |q|
    ensures Sum(q[i := q[i] + more]) == Sum(q) + more
  {
    var r := q[i := q[i] + more];
    if i < |q| - 1 {
      SumAfterRaise(q[..|q| - 1], i, more);
      assert r[..|r| - 1] == q[..|q| - 1][i := q[i] + more];
    } else {
      assert r[..|r| - 1] == q[..|q| - 1];
    }
  }

  /** The shares add up to the room. */
  lemma SplitFillsRoom(room: nat, weights: seq<nat>)
    requires Sum(weights) > 0
    ensures Sum(Split(room, weights)) == room
  {
    RoundedFits(room, weights, Sum(weights));
    var shares, last := Rounded(room, weights, Sum(weights)), LastWeighted(weights);
    SumAfterRaise(shares, last, room - Sum(shares));
  }

  lemma SplitIsRounded(room: nat, weights: seq<nat>, i: nat)
    requires Sum(weights) > 0 && i < |weights|
    ensures Share(room, weights[i], Sum(weights)) <= Split(room, weights)[i]
    ensures i != LastWeighted(weights) ==> Split(room, weights)[i] == Share(room, weights[i], Sum(weights))
  {
    RoundedFits(room, weights, Sum(weights));
  }

  /** r is a weight's part of the room, rounded down. */
  ghost predicate RoundedDown(r: nat, room: nat, weight: nat, total: nat) {
    r * total <= room * weight && NoLess(r, room, weight, total)
  }

  ghost predicate NoLess(r: nat, room: nat, weight: nat, total: nat) {
    room * weight < (r + 1) * total
  }

  lemma ShareIsRoundedDown(room: nat, weight: nat, total: nat)
    requires total > 0
    ensures RoundedDown(Share(room, weight, total), room, weight, total)
  {
    DivideLeaves(room * weight, total);
  }

  lemma MoreIsNoLess(share: nat, r: nat, room: nat, weight: nat, total: nat)
    requires NoLess(share, room, weight, total) && share <= r
    ensures NoLess(r, room, weight, total)
  {
    MultiplyInOrder(share + 1, r + 1, total);
  }

  /** Every share but the last weight's is its weight's part of the room, rounded down; the
      last one is no less than that. */
  lemma SplitIsFair(room: nat, weights: seq<nat>, i: nat)
    requires Sum(weights) > 0 && i < |weights|
    ensures NoLess(Split(room, weights)[i], room, weights[i], Sum(weights))
    ensures i != LastWeighted(weights) ==> RoundedDown(Split(room, weights)[i], room, weights[i], Sum(weights))
  {
    var share := Share(room, weights[i], Sum(weights));
    SplitIsRounded(room, weights, i);
    ShareIsRoundedDown(room, weights[i], Sum(weights));
    MoreIsNoLess(share, Split(room, weights)[i], room, weights[i], Sum(weights));
  }

  /** What has no weight has no share. */
  lemma NoWeightNoShare(room: nat, weights: seq<nat>, i: nat)
    requires Sum(weights) > 0 && i < |weights| && weights[i] == 0
    ensures Split(room, weights)[i] == 0
  {
    SplitIsRounded(room, weights, i);
    NoneOfNothing(room, Sum(weights));
  }

  lemma NoneOfNothing(room: nat, total: nat)
    requires total > 0
    ensures Share(room, 0, total) == 0
  {
    DivideBack(0, total);
  }
}
