/** The boot closure: a depth-first walk from the targets that lists every declared name
    after the names it depends on. */
module BootClosure {
  import opened Graphs

  /** What the walk has seen, and what it has finished, in order. */
  datatype Walk = Walk(visited: set<string>, order: seq<string>)

  const FRESH := Walk({}, [])

  /** Visits names in order. An undeclared name is marked seen and not listed. */
  function Run(g: Graph, names: seq<string>, w: Walk): (r: Walk)
    ensures w.visited <= r.visited && w.order <= r.order
    decreases g.Keys - w.visited, |names|
  {
    if names == [] then w
    else
      var n := names[0];
      if n in w.visited then Run(g, names[1..], w)
      else
        var entered := w.(visited := w.visited + {n});
        if n !in g then
          assert g.Keys - entered.visited == g.Keys - w.visited;
          Run(g, names[1..], entered)
        else
          assert n in g.Keys - w.visited && n !in g.Keys - entered.visited;
          var deps := Run(g, g[n], entered);
          Run(g, names[1..], deps.(order := deps.order + [n]))
  }

  /** The targets and everything they need, in boot order. */
  function Closure(g: Graph, targets: seq<string>): seq<string> {
    Run(g, targets, FRESH).order
  }

  /** What is listed was seen, and is declared. */
  ghost predicate Sound(g: Graph, w: Walk) {
    && NoDuplicates(w.order)
    && (forall x | x in w.order :: x in w.visited && x in g)
  }

  /** Entered, declared, and not finished: the names the walk is inside of. */
  ghost predicate Open(g: Graph, w: Walk, x: string) {
    x in w.visited && x in g && x !in w.order
  }

  /** The walk lists each declared name it enters exactly once. */
  lemma {:induction false} RunLists(g: Graph, names: seq<string>, w: Walk)
    requires Sound(g, w)
    ensures var r := Run(g, names, w);
            && Sound(g, r)
            && (forall n | n in names :: n in r.visited)
            && (forall x :: Open(g, r, x) <==> Open(g, w, x))
            && (forall x, d | x in r.order && x !in w.order && Edge(g, x, d) :: d in r.visited)
    decreases g.Keys - w.visited, |names|
  {
    if names != [] {
      var n := names[0];
      if n in w.visited {
        RunLists(g, names[1..], w);
      } else {
        var entered := w.(visited := w.visited + {n});
        if n !in g {
          assert g.Keys - entered.visited == g.Keys - w.visited;
          RunLists(g, names[1..], entered);
        } else {
          assert n in g.Keys - w.visited && n !in g.Keys - entered.visited;
          RunLists(g, g[n], entered);
          var deps := Run(g, g[n], entered);
          assert Open(g, entered, n);
          var left := deps.(order := deps.order + [n]);
          forall x ensures Open(g, left, x) <==> Open(g, w, x) {
            assert Open(g, deps, x) <==> Open(g, entered, x);
          }
          RunLists(g, names[1..], left);
        }
      }
    }
  }

  /** The walk enters only what the names reach. */
  lemma {:induction false} RunStaysReachable(g: Graph, names: seq<string>, w: Walk, x: string)
    requires x in Run(g, names, w).visited && x !in w.visited
    ensures ReachedFrom(g, names, x)
    decreases g.Keys - w.visited, |names|
  {
    var n := names[0];
    if n in w.visited {
      RunStaysReachable(g, names[1..], w, x);
    } else {
      var entered := w.(visited := w.visited + {n});
      if x == n {
        ReachesItself(g, n);
      } else if n !in g {
        assert g.Keys - entered.visited == g.Keys - w.visited;
        RunStaysReachable(g, names[1..], entered, x);
      } else {
        assert n in g.Keys - w.visited && n !in g.Keys - entered.visited;
        var deps := Run(g, g[n], entered);
        if x in deps.visited {
          RunStaysReachable(g, g[n], entered, x);
          var a :| a in g[n] && Reaches(g, a, x);
          EdgeReaches(g, n, a);
          ReachesTransitive(g, n, a, x);
        } else {
          RunStaysReachable(g, names[1..], deps.(order := deps.order + [n]), x);
        }
      }
    }
  }

  /** Where d stands when x is listed: before it, unfinished since before the walk, or on
      a cycle with x. */
  ghost predicate Placed(g: Graph, w: Walk, r: Walk, i: nat, d: string)
    requires i < |r.order|
  {
    d in r.order[..i] || Open(g, w, d) || Reaches(g, d, r.order[i])
  }

  ghost predicate AllPlaced(g: Graph, w: Walk, r: Walk) {
    forall i, d | |w.order| <= i < |r.order| && Edge(g, r.order[i], d) && d in g :: Placed(g, w, r, i, d)
  }

  lemma {:induction false} RunPlaces(g: Graph, names: seq<string>, w: Walk)
    requires Sound(g, w)
    ensures AllPlaced(g, w, Run(g, names, w))
    decreases g.Keys - w.visited, |names|
  {
    if names != [] {
      var n := names[0];
      if n in w.visited {
        RunPlaces(g, names[1..], w);
      } else {
        var entered := w.(visited := w.visited + {n});
        var r := Run(g, names, w);
        if n !in g {
          assert g.Keys - entered.visited == g.Keys - w.visited;
          RunPlaces(g, names[1..], entered);
          forall x ensures Open(g, entered, x) <==> Open(g, w, x) {}
        } else {
          assert n in g.Keys - w.visited && n !in g.Keys - entered.visited;
          RunLists(g, g[n], entered);
          RunPlaces(g, g[n], entered);
          var deps := Run(g, g[n], entered);
          var left := deps.(order := deps.order + [n]);
          DependenciesPlaced(g, n, w, entered, deps);
          RunLists(g, names[1..], left);
          RunPlaces(g, names[1..], left);
          PlacedTogether(g, w, left, r);
        }
      }
    }
  }

  lemma DependenciesPlaced(g: Graph, n: string, w: Walk, entered: Walk, deps: Walk)
    requires Sound(g, w) && n !in w.visited && n in g
    requires entered == w.(visited := w.visited + {n})
    requires deps == Run(g, g[n], entered) && Sound(g, deps)
    requires forall x :: Open(g, deps, x) <==> Open(g, entered, x)
    requires forall d | d in g[n] :: d in deps.visited
    requires AllPlaced(g, entered, deps)
    ensures var left := deps.(order := deps.order + [n]);
            Sound(g, left) && AllPlaced(g, w, left) && (forall x :: Open(g, left, x) <==> Open(g, w, x))
  {
    var left := deps.(order := deps.order + [n]);
    assert Open(g, entered, n) && Open(g, deps, n);
    forall x ensures Open(g, left, x) <==> Open(g, w, x) {
      assert Open(g, deps, x) <==> Open(g, entered, x);
    }
    forall i, d | |w.order| <= i < |left.order| && Edge(g, left.order[i], d) && d in g
      ensures Placed(g, w, left, i, d)
    {
      if i == |deps.order| {
        assert left.order[..i] == deps.order;
        assert Open(g, deps, d) <==> Open(g, entered, d);
        if d == n {
          ReachesItself(g, n);
        }
      } else {
        assert left.order[..i] == deps.order[..i] && left.order[i] == deps.order[i];
        assert Placed(g, entered, deps, i, d);
        if d == n {
          var x := deps.order[i];
          assert x !in entered.order;
          assert x !in entered.visited by {
            assert Open(g, entered, x) ==> Open(g, deps, x);
          }
          RunStaysReachable(g, g[n], entered, x);
          var a :| a in g[n] && Reaches(g, a, x);
          EdgeReaches(g, n, a);
          ReachesTransitive(g, n, a, x);
        }
      }
    }
  }

  lemma PlacedTogether(g: Graph, w: Walk, mid: Walk, r: Walk)
    requires w.order <= mid.order <= r.order
    requires AllPlaced(g, w, mid) && AllPlaced(g, mid, r)
    requires forall x :: Open(g, mid, x) <==> Open(g, w, x)
    ensures AllPlaced(g, w, r)
  {
    forall i, d | |w.order| <= i < |r.order| && Edge(g, r.order[i], d) && d in g
      ensures Placed(g, w, r, i, d)
    {
      if i < |mid.order| {
        assert r.order[i] == mid.order[i] && r.order[..i] == mid.order[..i];
        assert Placed(g, w, mid, i, d);
      } else {
        assert Placed(g, mid, r, i, d);
      }
    }
  }

  /** A walk from a target stays among what the closure has seen. */
  lemma {:induction false} ClosureFollowsWalk(g: Graph, targets: seq<string>, p: seq<string>)
    requires IsWalk(g, p) && p[0] in targets
    ensures p[|p| - 1] in Run(g, targets, FRESH).visited
    decreases |p|
  {
    RunLists(g, targets, FRESH);
    var r := Run(g, targets, FRESH);
    if |p| > 1 {
      var x, d := p[|p| - 2], p[|p| - 1];
      ClosureFollowsWalk(g, targets, p[..|p| - 1]);
      assert Edge(g, p[|p| - 1 - 1], p[|p| - 1]);
      assert !Open(g, FRESH, x) && !Open(g, r, x);
    }
  }

  /** On any graph, cyclic or not, the closure is exactly the declared names the targets
      reach, each once. */
  lemma ClosureIsReachable(g: Graph, targets: seq<string>)
    ensures NoDuplicates(Closure(g, targets))
    ensures forall x :: x in Closure(g, targets) <==> x in g && ReachedFrom(g, targets, x)
  {
    RunLists(g, targets, FRESH);
    var r := Run(g, targets, FRESH);
    forall x ensures x in r.order <==> x in g && ReachedFrom(g, targets, x) {
      if x in r.order {
        RunStaysReachable(g, targets, FRESH, x);
      }
      if x in g && ReachedFrom(g, targets, x) {
        var a :| a in targets && Reaches(g, a, x);
        var p :| WalkBetween(g, p, a, x);
        ClosureFollowsWalk(g, targets, p);
        assert !Open(g, FRESH, x) && !Open(g, r, x);
      }
    }
  }

  /** The closure boots every dependency before what needs it if and only if nothing it
      boots is on a cycle. */
  lemma ClosureOrdersIffOffCycles(g: Graph, targets: seq<string>)
    ensures DependenciesFirst(g, Closure(g, targets)) <==> forall x | x in Closure(g, targets) :: !OnCycle(g, x)
  {
    var order := Closure(g, targets);
    ClosureIsReachable(g, targets);
    RunPlaces(g, targets, FRESH);
    if DependenciesFirst(g, order) {
      forall x | x in order ensures !OnCycle(g, x) {
        OrderedIsOffCycles(g, order, x);
      }
    }
    if forall x | x in order :: !OnCycle(g, x) {
      forall i, d | 0 <= i < |order| && Edge(g, order[i], d) && d in g ensures d in order[..i] {
        assert Placed(g, FRESH, Run(g, targets, FRESH), i, d);
        if Reaches(g, d, order[i]) {
          EdgeAndBackIsCycle(g, order[i], d);
        }
      }
    }
  }

  /** Even where the graph has cycles, a dependency is only ever listed late when it and
      its dependant need each other. */
  lemma LateDependencyIsOnCycle(g: Graph, targets: seq<string>, i: nat, d: string)
    requires i < |Closure(g, targets)| && Edge(g, Closure(g, targets)[i], d) && d in g
    ensures d !in Closure(g, targets)[..i] ==> Reaches(g, d, Closure(g, targets)[i])
  {
    RunPlaces(g, targets, FRESH);
    assert Placed(g, FRESH, Run(g, targets, FRESH), i, d);
  }
}
