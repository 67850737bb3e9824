/** The closure walk of session.go and cmd/doze/up.go. */
module Boot {
  import opened Graphs
  import opened Stack
  import opened BootClosure

  /** The variables the closure walk shares between its calls. */
  class ClosureWalk {
    const index: map<string, Decl>
    var visited: set<string>
    var order: seq<string>

    ghost function State(): Walk
      reads this
    {
      Walk(visited, order)
    }

    constructor (index: map<string, Decl>)
      ensures this.index == index && State() == FRESH
    {
      this.index := index;
      visited, order := {}, [];
    }

    method Visit(name: string)
      modifies this
      ensures State() == Run(DepsGraph(index), [name], old(State()))
      decreases index.Keys - visited
    {
      ghost var g := DepsGraph(index);
      if name in visited {
        return;
      }
      visited := visited + {name};
      if name !in index {
        return;
      }
      var deps := index[name].deps;
      ghost var names := DepNames(deps);
      ghost var entered := State();
      assert name in index.Keys - old(visited);
      for i := 0 to |deps|
        invariant entered.visited <= visited
        invariant Run(g, names[i..], State()) == Run(g, names, entered)
      {
        assert names[i..][0] == deps[i].name && names[i..][1..] == names[i + 1..];
        assert name !in index.Keys - visited;
        RunOneByOne(g, names[i..], State());
        Visit(deps[i].name);
      }
      order := order + [name];
    }
  }

  lemma RunOneByOne(g: Graph, names: seq<string>, w: Walk)
    requires names != []
    ensures Run(g, names, w) == Run(g, names[1..], Run(g, [names[0]], w))
  {
  }

  /** The targets and their transitive dependencies, in boot order. */
  method BootOrder(index: map<string, Decl>, targets: seq<string>) returns (order: seq<string>)
    ensures order == Closure(DepsGraph(index), targets)
  {
    ghost var g := DepsGraph(index);
    var walk := new ClosureWalk(index);
    for i := 0 to |targets|
      invariant walk.index == index
      invariant Run(g, targets[i..], walk.State()) == Run(g, targets, FRESH)
    {
      assert targets[i..][0] == targets[i] && targets[i..][1..] == targets[i + 1..];
      RunOneByOne(g, targets[i..], walk.State());
      walk.Visit(targets[i]);
    }
    order := walk.order;
  }
}
