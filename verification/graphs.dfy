/** Dependency graphs by name: walks, reachability, cycles, and the order that puts
    every dependency before what needs it. */
module Graphs {

  /** What each declared name depends on, in the order it was mentioned. A name that is
      not a key is undeclared: it may be depended on, and depends on nothing. */
  type Graph = map<string, seq<string>>

  function Out(g: Graph, n: string): seq<string> {
    if n in g then g[n] else []
  }

  predicate Edge(g: Graph, a: string, b: string) {
    b in Out(g, a)
  }

  predicate IsWalk(g: Graph, p: seq<string>) {
    |p| > 0 && forall i | 0 < i < |p| :: Edge(g, p[i - 1], p[i])
  }

  /** A walk whose last name already occurs on it. */
  predicate ClosingWalk(g: Graph, p: seq<string>) {
    IsWalk(g, p) && p[|p| - 1] in p[..|p| - 1]
  }

  ghost predicate WalkBetween(g: Graph, p: seq<string>, a: string, b: string) {
    IsWalk(g, p) && p[0] == a && p[|p| - 1] == b
  }

  ghost predicate Reaches(g: Graph, a: string, b: string) {
    exists p :: WalkBetween(g, p, a, b)
  }

  ghost predicate ReachedFrom(g: Graph, roots: seq<string>, b: string) {
    exists a :: a in roots && Reaches(g, a, b)
  }

  /** A walk of at least one edge that comes back to where it began. */
  ghost predicate OnCycle(g: Graph, a: string) {
    exists p :: |p| > 1 && WalkBetween(g, p, a, a)
  }

  ghost predicate Acyclic(g: Graph) {
    forall a :: !OnCycle(g, a)
  }

  predicate NoDuplicates(s: seq<string>) {
    forall i, j | 0 <= i < j < |s| :: s[i] != s[j]
  }

  /** Every declared dependency stands before what needs it. */
  ghost predicate DependenciesFirst(g: Graph, order: seq<string>) {
    forall i, d | 0 <= i < |order| && Edge(g, order[i], d) && d in g :: d in order[..i]
  }

  lemma ReachesItself(g: Graph, a: string)
    ensures Reaches(g, a, a)
  {
    assert WalkBetween(g, [a], a, a);
  }

  lemma WalkConcat(g: Graph, p: seq<string>, q: seq<string>)
    requires IsWalk(g, p) && IsWalk(g, q) && p[|p| - 1] == q[0]
    ensures IsWalk(g, p + q[1..])
    ensures (p + q[1..])[|p + q[1..]| - 1] == q[|q| - 1]
  {
    var r := p + q[1..];
    forall i | 0 < i < |r| ensures Edge(g, r[i - 1], r[i]) {
      if i >= |p| {
        assert r[i] == q[i - |p| + 1];
        assert r[i - 1] == q[i - |p|];
      }
    }
  }

  lemma ReachesTransitive(g: Graph, a: string, b: string, c: string)
    requires Reaches(g, a, b) && Reaches(g, b, c)
    ensures Reaches(g, a, c)
  {
    var p :| WalkBetween(g, p, a, b);
    var q :| WalkBetween(g, q, b, c);
    WalkConcat(g, p, q);
    assert WalkBetween(g, p + q[1..], a, c);
  }

  lemma EdgeReaches(g: Graph, a: string, b: string)
    requires Edge(g, a, b)
    ensures Reaches(g, a, b)
  {
    assert WalkBetween(g, [a, b], a, b);
  }

  /** An edge closed by a walk back is a cycle through its source. */
  lemma EdgeAndBackIsCycle(g: Graph, a: string, b: string)
    requires Edge(g, a, b) && Reaches(g, b, a)
    ensures OnCycle(g, a)
  {
    var q :| WalkBetween(g, q, b, a);
    var p := [a, b] + q[1..];
    WalkConcat(g, [a, b], q);
    assert |p| > 1 && WalkBetween(g, p, a, a);
  }

  /** Along a walk of declared names, places in a dependencies-first order go down. */
  lemma {:induction false} WalkDescends(g: Graph, order: seq<string>, p: seq<string>, i: nat) returns (j: nat)
    requires DependenciesFirst(g, order) && IsWalk(g, p)
    requires i < |order| && order[i] == p[0]
    requires forall k | 0 <= k < |p| :: p[k] in g
    ensures j <= i && j + |p| <= i + 1 && order[j] == p[|p| - 1]
    decreases |p|
  {
    if |p| == 1 {
      j := i;
    } else {
      assert Edge(g, p[1 - 1], p[1]);
      assert p[1] in order[..i];
      var k :| 0 <= k < i && order[k] == p[1];
      var rest := p[1..];
      forall x | 0 < x < |rest| ensures Edge(g, rest[x - 1], rest[x]) {
        assert rest[x] == p[x + 1] && rest[x - 1] == p[x + 1 - 1];
      }
      j := WalkDescends(g, order, rest, k);
    }
  }

  /** No name of a dependencies-first order without repeats is on a cycle. */
  lemma OrderedIsOffCycles(g: Graph, order: seq<string>, a: string)
    requires DependenciesFirst(g, order) && NoDuplicates(order) && a in order
    ensures !OnCycle(g, a)
  {
    if OnCycle(g, a) {
      var p :| |p| > 1 && WalkBetween(g, p, a, a);
      forall k | 0 <= k < |p| ensures p[k] in g {
        if k + 1 < |p| {
          assert Edge(g, p[k + 1 - 1], p[k + 1]);
        } else {
          assert Edge(g, p[1 - 1], p[1]);
        }
      }
      var i :| 0 <= i < |order| && order[i] == a;
      var j := WalkDescends(g, order, p, i);
      assert false;
    }
  }

  /** A walk whose last name already occurs on it holds a cycle. */
  lemma RepeatingWalkHoldsCycle(g: Graph, p: seq<string>)
    requires ClosingWalk(g, p)
    ensures OnCycle(g, p[|p| - 1])
  {
    var k :| 0 <= k < |p| - 1 && p[k] == p[|p| - 1];
    var q := p[k..];
    forall i | 0 < i < |q| ensures Edge(g, q[i - 1], q[i]) {
      assert q[i] == p[k + i] && q[i - 1] == p[k + i - 1];
    }
    assert |q| > 1 && WalkBetween(g, q, p[k], p[k]);
  }

  lemma SubgraphCycles(small: Graph, big: Graph, a: string)
    requires forall a, b | Edge(small, a, b) :: Edge(big, a, b)
    ensures OnCycle(small, a) ==> OnCycle(big, a)
  {
    if OnCycle(small, a) {
      var p :| |p| > 1 && WalkBetween(small, p, a, a);
      assert WalkBetween(big, p, a, a);
    }
  }

  /** Fewer edges, fewer cycles. */
  lemma SubgraphAcyclic(small: Graph, big: Graph)
    requires Acyclic(big)
    requires forall a, b | Edge(small, a, b) :: Edge(big, a, b)
    ensures Acyclic(small)
  {
    forall a ensures !OnCycle(small, a) {
      SubgraphCycles(small, big, a);
    }
  }
}
