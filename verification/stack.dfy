/** The declared stack: its blocks, its name index, and the dependency graph it spells. */
module Stack {
  import opened Graphs

  datatype Option<+T> = None | Some(value: T)

  /** How far a dependency must have come before what needs it starts. */
  datatype Condition = Healthy | Started | Lazy

  datatype Dependency = Dependency(name: string, condition: Condition)

  datatype Kind = Module | App | Service | Task

  datatype Ref = Ref(kind: Kind, name: string)

  datatype Decl = Decl(
    kind: Kind, name: string, enabled: bool,
    deps: seq<Dependency>, refs: seq<Ref>, after: seq<Ref>)

  function DepNames(deps: seq<Dependency>): (names: seq<string>)
    ensures |names| == |deps| && forall i | 0 <= i < |deps| :: names[i] == deps[i].name
  {
    seq(|deps|, i requires 0 <= i < |deps| => deps[i].name)
  }

  function Names(decls: seq<Decl>): (names: seq<string>)
    ensures |names| == |decls| && forall i | 0 <= i < |decls| :: names[i] == decls[i].name
  {
    seq(|decls|, i requires 0 <= i < |decls| => decls[i].name)
  }

  function RefNames(refs: seq<Ref>): (names: seq<string>)
    ensures |names| == |refs| && forall i | 0 <= i < |refs| :: names[i] == refs[i].name
  {
    seq(|refs|, i requires 0 <= i < |refs| => refs[i].name)
  }

  /** The index is exactly the name map of a list that declares no name twice. */
  ghost predicate NameMap(decls: seq<Decl>, index: map<string, Decl>) {
    && (forall i, j | 0 <= i < j < |decls| :: decls[i].name != decls[j].name)
    && (forall i | 0 <= i < |decls| :: decls[i].name in index && index[decls[i].name] == decls[i])
    && (forall n | n in index :: index[n].name == n && index[n] in decls)
  }

  /** The blocks by name; a later block of the same name replaces an earlier one. */
  function ByName(decls: seq<Decl>): map<string, Decl> {
    if decls == [] then map[]
    else ByName(decls[..|decls| - 1])[decls[|decls| - 1].name := decls[|decls| - 1]]
  }

  lemma {:induction false} ByNameIsNameMap(decls: seq<Decl>)
    requires NoDuplicates(Names(decls))
    ensures NameMap(decls, ByName(decls))
  {
    if decls != [] {
      var rest, last := decls[..|decls| - 1], decls[|decls| - 1];
      assert NoDuplicates(Names(rest)) by {
        assert forall i | 0 <= i < |rest| :: Names(rest)[i] == Names(decls)[i];
      }
      ByNameIsNameMap(rest);
      forall i | 0 <= i < |decls| ensures decls[i].name in ByName(decls) && ByName(decls)[decls[i].name] == decls[i] {
        if i < |rest| {
          assert rest[i] == decls[i] && Names(decls)[i] != Names(decls)[|rest|];
        }
      }
      assert forall i, j | 0 <= i < j < |decls| :: Names(decls)[i] != Names(decls)[j];
    }
  }

  /** What each declared instance boots first. */
  function DepsGraph(index: map<string, Decl>): (g: Graph)
    ensures g.Keys == index.Keys
  {
    map n | n in index :: DepNames(index[n].deps)
  }
}
