/** Systems of named values, each computed from the others it mentions, solved by visiting
    what a name mentions before the name: evaluateLocals, and the decoding of module and
    app bodies in topological order. */
module Equations {
  import opened Graphs
  import opened Stack

  /** An expression: the names it mentions, in order, and its value in an environment. */
  datatype Expr<!V> = Expr(names: seq<string>, eval: map<string, V> -> Option<V>)

  type System<!V> = map<string, Expr<V>>

  /** Two environments tell an expression the same about every name it mentions. */
  ghost predicate Agree<V>(names: seq<string>, a: map<string, V>, b: map<string, V>) {
    forall n | n in names :: (n in a <==> n in b) && (n in a ==> a[n] == b[n])
  }

  /** Expressions read nothing but the names they mention. */
  ghost predicate Tracked<V(!new)>(sys: System<V>) {
    forall n, a, b | n in sys && Agree(sys[n].names, a, b) :: sys[n].eval(a) == sys[n].eval(b)
  }

  /** What each name mentions, itself included. */
  function Mentions<V>(sys: System<V>): (g: Graph)
    ensures g.Keys == sys.Keys
  {
    map n | n in sys :: sys[n].names
  }

  /** Every name has the value of its expression, read in the environment itself. */
  ghost predicate Solution<V>(sys: System<V>, env: map<string, V>) {
    env.Keys == sys.Keys && forall n | n in sys :: sys[n].eval(env) == Some(env[n])
  }

  /** Evaluates the names of order one after another, each where the ones before it are
      known. */
  function Fold<V>(sys: System<V>, order: seq<string>): (r: Option<map<string, V>>)
    requires forall n | n in order :: n in sys
    ensures r.Some? ==> forall n :: n in r.value <==> n in order
  {
    if order == [] then Some(map[])
    else
      var last := order[|order| - 1];
      match Fold(sys, order[..|order| - 1])
      case None => None
      case Some(env) =>
        match sys[last].eval(env)
        case None => None
        case Some(v) => Some(env[last := v])
  }

  ghost predicate Complete<V>(sys: System<V>, order: seq<string>) {
    && NoDuplicates(order) && (forall n :: n in order <==> n in sys)
    && DependenciesFirst(Mentions(sys), order)
  }

  /** Nothing in a dependencies-first order mentions its last name. */
  lemma LastUnmentioned<V>(sys: System<V>, order: seq<string>, n: string)
    requires order != [] && NoDuplicates(order) && DependenciesFirst(Mentions(sys), order)
    requires n in order && n in sys && order[|order| - 1] in sys
    ensures order[|order| - 1] !in sys[n].names
  {
    var last := order[|order| - 1];
    var i :| 0 <= i < |order| && order[i] == n;
    assert Edge(Mentions(sys), order[i], last) <==> last in sys[n].names;
  }

  /** What a later name adds leaves earlier expressions as they were. */
  lemma {:induction false} FoldSolves<V(!new)>(sys: System<V>, order: seq<string>, n: string)
    requires Tracked(sys) && NoDuplicates(order) && DependenciesFirst(Mentions(sys), order)
    requires forall m | m in order :: m in sys
    requires Fold(sys, order).Some? && n in order
    ensures sys[n].eval(Fold(sys, order).value) == Some(Fold(sys, order).value[n])
    decreases |order|
  {
    var init, last := order[..|order| - 1], order[|order| - 1];
    var before, after := Fold(sys, init).value, Fold(sys, order).value;
    LastUnmentioned(sys, order, n);
    assert Agree(sys[n].names, before, after);
    if n != last {
      InitOrdered(Mentions(sys), order);
      FoldSolves(sys, init, n);
    }
  }

  lemma InitOrdered(g: Graph, order: seq<string>)
    requires order != [] && NoDuplicates(order) && DependenciesFirst(g, order)
    ensures NoDuplicates(order[..|order| - 1]) && DependenciesFirst(g, order[..|order| - 1])
  {
    var init := order[..|order| - 1];
    forall i, d | 0 <= i < |init| && Edge(g, init[i], d) && d in g ensures d in init[..i] {
      assert Edge(g, order[i], d);
      assert init[..i] == order[..i];
    }
  }

  /** What the last name mentions is known by then. */
  lemma LastKnows<V>(sys: System<V>, order: seq<string>, m: string)
    requires order != [] && NoDuplicates(order) && DependenciesFirst(Mentions(sys), order)
    requires order[|order| - 1] in sys && m in sys[order[|order| - 1]].names && m in sys
    ensures m in order[..|order| - 1]
  {
    assert Edge(Mentions(sys), order[|order| - 1], m);
  }

  /** A solution is what any dependencies-first evaluation computes. */
  lemma {:induction false} SolutionIsFolded<V(!new)>(sys: System<V>, order: seq<string>, env: map<string, V>)
    requires Tracked(sys) && Solution(sys, env) && NoDuplicates(order) && DependenciesFirst(Mentions(sys), order)
    requires forall m | m in order :: m in sys
    ensures Fold(sys, order).Some? && forall n | n in order :: Fold(sys, order).value[n] == env[n]
    decreases |order|
  {
    if order != [] {
      var init, last := order[..|order| - 1], order[|order| - 1];
      InitOrdered(Mentions(sys), order);
      SolutionIsFolded(sys, init, env);
      var before := Fold(sys, init).value;
      forall m | m in sys[last].names ensures (m in before <==> m in env) && (m in before ==> before[m] == env[m]) {
        if m in sys {
          LastKnows(sys, order, m);
        }
      }
      assert Agree(sys[last].names, before, env);
    }
  }

  lemma FoldedIsSolution<V(!new)>(sys: System<V>, order: seq<string>)
    requires Tracked(sys) && Complete(sys, order) && Fold(sys, order).Some?
    ensures Solution(sys, Fold(sys, order).value)
  {
    forall n | n in sys ensures sys[n].eval(Fold(sys, order).value) == Some(Fold(sys, order).value[n]) {
      FoldSolves(sys, order, n);
    }
  }

  /** Evaluating along a dependencies-first order yields an environment if and only if it
      is a solution: there is at most one, and the order does not matter. */
  lemma FoldIffSolution<V(!new)>(sys: System<V>, order: seq<string>, env: map<string, V>)
    requires Tracked(sys) && Complete(sys, order)
    ensures Fold(sys, order) == Some(env) <==> Solution(sys, env)
  {
    if Fold(sys, order) == Some(env) {
      FoldedIsSolution(sys, order);
    }
    if Solution(sys, env) {
      SolutionIsFolded(sys, order, env);
      assert Fold(sys, order).value == env;
    }
  }
}
