/** The second pass of the configuration (evaluate): the pending bodies decoded in
    topological order, each against the attributes of the ones before it. */
module Decode {
  import opened Graphs
  import opened Stack
  import opened Equations
  import opened Topo

  datatype Evaluated<V> =
    | Decoded(attrs: map<string, V>)
    | Cyclic(names: seq<string>)
    | DependsOnDisabled(name: string, dep: string)
    | BadBody(name: string)

  /** Each pending body, and the blocks it references: all of them dependencies. */
  ghost predicate BodiesOf<V>(pending: seq<Decl>, sys: System<V>) {
    && NoDuplicates(Names(pending))
    && sys.Keys == ByName(pending).Keys
    && forall n, m | n in sys && m in sys[n].names :: m in DepNames(ByName(pending)[n].deps)
  }

  /** An enabled block that could never boot: it needs dep, which is paused. */
  predicate Blocked(byName: map<string, Decl>, n: string, dep: string) {
    && n in byName && byName[n].enabled && dep in DepNames(byName[n].deps)
    && dep in byName && !byName[dep].enabled
  }

  /** An enabled block of the list has a dependency on a disabled one of it. */
  ghost predicate NeedsDisabled(p: Decl, d: Dependency, q: Decl) {
    p.enabled && d in p.deps && d.name == q.name && !q.enabled
  }

  /** No block is blocked exactly when every dependency of an enabled block, on a block of
      the list, is on an enabled one. */
  lemma NoneBlockedIff(pending: seq<Decl>)
    requires NoDuplicates(Names(pending))
    ensures (forall n, dep :: !Blocked(ByName(pending), n, dep)) <==>
            (forall p, d, q | p in pending && q in pending :: !NeedsDisabled(p, d, q))
  {
    var byName := ByName(pending);
    ByNameIsNameMap(pending);
    forall p | p in pending ensures p.name in byName && byName[p.name] == p {
      var k :| 0 <= k < |pending| && pending[k] == p;
    }
    forall p, d, q | p in pending && q in pending && NeedsDisabled(p, d, q) ensures Blocked(byName, p.name, q.name) {
      var j :| 0 <= j < |p.deps| && p.deps[j] == d;
      assert DepNames(p.deps)[j] == q.name;
    }
    forall n, dep | Blocked(byName, n, dep)
      ensures exists p, d, q :: p in pending && q in pending && NeedsDisabled(p, d, q) {
      var j :| 0 <= j < |byName[n].deps| && DepNames(byName[n].deps)[j] == dep;
      assert NeedsDisabled(byName[n], byName[n].deps[j], byName[dep]);
    }
  }

  method FindBlocked(pending: seq<Decl>, byName: map<string, Decl>) returns (r: Option<(string, string)>)
    requires NameMap(pending, byName)
    ensures r.None? <==> forall n, dep :: !Blocked(byName, n, dep)
    ensures r.Some? ==> Blocked(byName, r.value.0, r.value.1)
  {
    for i := 0 to |pending|
      invariant forall k, dep | 0 <= k < i :: !Blocked(byName, pending[k].name, dep)
    {
      var p := pending[i];
      for j := 0 to if p.enabled then |p.deps| else 0
        invariant p.enabled ==> forall dep | dep in DepNames(p.deps)[..j] :: !Blocked(byName, p.name, dep)
      {
        var d := p.deps[j].name;
        assert DepNames(p.deps)[j] == d;
        if d in byName && !byName[d].enabled {
          assert Blocked(byName, p.name, d);
          return Some((p.name, d));
        }
      }
      assert DepNames(p.deps)[..|p.deps|] == DepNames(p.deps);
    }
    forall n, dep ensures !Blocked(byName, n, dep) {
      if n in byName {
        var k :| 0 <= k < |pending| && pending[k] == byName[n];
        assert !Blocked(byName, pending[k].name, dep);
      }
    }
    return None;
  }

  /** n's body does not decode against the attributes of the ones before it. */
  ghost predicate FailsAfter<V>(sys: System<V>, order: seq<string>, n: string)
    requires forall m | m in order :: m in sys
  {
    exists i :: 0 <= i < |order| && order[i] == n && Fold(sys, order[..i]).Some?
             && sys[n].eval(Fold(sys, order[..i]).value).None?
  }

  /** n's body does not decode against the attributes of all it references. */
  ghost predicate Fails<V(!new)>(sys: System<V>, n: string) {
    n in sys && exists env :: sys[n].eval(env).None? && forall m | m in sys[n].names && m in sys :: m in env
  }

  lemma FailingBodyFails<V(!new)>(sys: System<V>, order: seq<string>, n: string)
    requires Complete(sys, order) && FailsAfter(sys, order, n)
    ensures Fails(sys, n)
  {
    var i :| 0 <= i < |order| && order[i] == n && Fold(sys, order[..i]).Some?
             && sys[n].eval(Fold(sys, order[..i]).value).None?;
    var env := Fold(sys, order[..i]).value;
    forall m | m in sys[n].names && m in sys ensures m in env {
      assert Edge(Mentions(sys), order[i], m);
    }
  }

  method DecodeInOrder<V>(sys: System<V>, order: seq<string>) returns (r: Evaluated<V>)
    requires forall n | n in order :: n in sys
    ensures match Fold(sys, order)
            case Some(env) => r == Decoded(env)
            case None => r.BadBody? && FailsAfter(sys, order, r.name)
  {
    var env: map<string, V> := map[];
    for i := 0 to |order|
      invariant Fold(sys, order[..i]) == Some(env)
    {
      var n := order[i];
      assert order[..i + 1][..i] == order[..i];
      var v := sys[n].eval(env);
      if v.None? {
        FoldStays(sys, order, i + 1);
        assert Fold(sys, order[..i]) == Some(env) && order[i] == n;
        return BadBody(n);
      }
      env := env[n := v.value];
    }
    assert order[..|order|] == order;
    return Decoded(env);
  }

  lemma {:induction false} FoldStays<V>(sys: System<V>, order: seq<string>, k: nat)
    requires k <= |order| && (forall n | n in order :: n in sys) && Fold(sys, order[..k]).None?
    ensures Fold(sys, order).None?
    decreases |order|
  {
    if k < |order| {
      assert order[..|order| - 1][..k] == order[..k];
      FoldStays(sys, order[..|order| - 1], k);
    } else {
      assert order[..k] == order;
    }
  }

  /** Orders, checks and decodes the pending blocks. It succeeds if and only if they have
      no cycle, none enabled needs a disabled one, and their attributes have a solution;
      the attributes are then that solution, whatever order the blocks were written in. */
  method Evaluate<V(!new)>(pending: seq<Decl>, sys: System<V>) returns (r: Evaluated<V>)
    requires BodiesOf(pending, sys) && Tracked(sys)
    ensures r.Decoded? <==>
              && Acyclic(PendingGraph(ByName(pending)))
              && (forall n, dep :: !Blocked(ByName(pending), n, dep))
              && exists attrs :: Solution(sys, attrs)
    ensures r.Decoded? ==> forall attrs :: Solution(sys, attrs) <==> attrs == r.attrs
    ensures r.Cyclic? <==> !Acyclic(PendingGraph(ByName(pending)))
    ensures r.Cyclic? ==> ClosingWalk(PendingGraph(ByName(pending)), r.names)
    ensures r.DependsOnDisabled? <==>
              Acyclic(PendingGraph(ByName(pending))) && exists n, dep :: Blocked(ByName(pending), n, dep)
    ensures r.DependsOnDisabled? ==> Blocked(ByName(pending), r.name, r.dep)
    ensures r.BadBody? ==> Fails(sys, r.name)
  {
    var ordered := TopoOrder(pending);
    if ordered.CycleError? {
      return Cyclic(ordered.names);
    }
    var byName := IndexBlocks(pending);
    ByNameIsNameMap(pending);
    var blocked := FindBlocked(pending, byName);
    if blocked.Some? {
      return DependsOnDisabled(blocked.value.0, blocked.value.1);
    }
    OrderIsComplete(pending, ordered.decls, sys);
    r := DecodeInOrder(sys, Names(ordered.decls));
    DecodedIsSolution(sys, Names(ordered.decls));
    if r.BadBody? {
      FailingBodyFails(sys, Names(ordered.decls), r.name);
    }
  }

  lemma DecodedIsSolution<V(!new)>(sys: System<V>, order: seq<string>)
    requires Tracked(sys) && Complete(sys, order)
    ensures Fold(sys, order).Some? <==> exists attrs :: Solution(sys, attrs)
    ensures Fold(sys, order).Some? ==> forall attrs :: Solution(sys, attrs) <==> attrs == Fold(sys, order).value
  {
    forall attrs ensures Solution(sys, attrs) <==> Fold(sys, order) == Some(attrs) {
      FoldIffSolution(sys, order, attrs);
    }
    if Fold(sys, order).Some? {
      assert Solution(sys, Fold(sys, order).value);
    }
  }

  /** The topological order decodes every body after all it references. */
  lemma OrderIsComplete<V>(pending: seq<Decl>, order: seq<Decl>, sys: System<V>)
    requires BodiesOf(pending, sys) && multiset(order) == multiset(pending)
    requires DependenciesFirst(PendingGraph(ByName(pending)), Names(order))
    ensures Complete(sys, Names(order))
  {
    ByNameIsNameMap(pending);
    SameBlocks(pending, order);
    var names := Names(order);
    forall i, d | 0 <= i < |names| && Edge(Mentions(sys), names[i], d) && d in sys ensures d in names[..i] {
      assert Edge(PendingGraph(ByName(pending)), names[i], d);
    }
  }

  lemma SameBlocks(pending: seq<Decl>, order: seq<Decl>)
    requires NameMap(pending, ByName(pending)) && multiset(order) == multiset(pending)
    ensures NoDuplicates(Names(order))
    ensures forall n :: n in Names(order) <==> n in ByName(pending)
  {
    forall d ensures d in order <==> d in pending {
      assert d in multiset(order) <==> d in multiset(pending);
    }
    forall i, j | 0 <= i < j < |order| ensures order[i].name != order[j].name {
      assert order[i] in order && order[j] in order;
      if order[i] == order[j] {
        AtMostOnce(pending, order[i]);
        TwiceCounts(order, i, j);
      }
    }
    forall n ensures n in Names(order) <==> n in ByName(pending) {
      if n in Names(order) {
        var i :| 0 <= i < |order| && Names(order)[i] == n;
        assert order[i] in order;
      }
      if n in ByName(pending) {
        var i :| 0 <= i < |order| && order[i] == ByName(pending)[n];
        assert Names(order)[i] == n;
      }
    }
  }

  lemma AtMostOnce(pending: seq<Decl>, d: Decl)
    requires forall i, j | 0 <= i < j < |pending| :: pending[i].name != pending[j].name
    ensures multiset(pending)[d] <= 1
  {
    CountOnce(pending);
  }

  lemma TwiceCounts(order: seq<Decl>, i: nat, j: nat)
    requires i < j < |order| && order[i] == order[j]
    ensures multiset(order)[order[i]] >= 2
  {
    assert order == order[..j] + order[j..];
    assert order[i] in order[..j] && order[j] in order[j..];
  }
}
