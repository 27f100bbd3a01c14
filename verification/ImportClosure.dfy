/** The import gate: a worklist search from the library root, and which modules it calls orphans. */
module ImportClosure {

  type Module = string

  const ROOT: Module := "L4YAML"

  predicate InLibrary(m: Module) {
    m == ROOT || "L4YAML." <= m
  }

  /** `imports` maps every module whose file exists to the names its import lines give. */
  type Imports = map<Module, seq<Module>>

  predicate Edge(imports: Imports, a: Module, b: Module) {
    a in imports && b in imports[a] && (b == "L4YAML" || "L4YAML." <= b)
  }

  /** A path of imports from the root, every module on the way having a file. */
  ghost predicate ImportPath(imports: Imports, path: seq<Module>, m: Module) {
    && path != [] && path[0] == "L4YAML" && path[|path| - 1] == m
    && forall i :: 0 <= i < |path| - 1 ==> Edge(imports, path[i], path[i + 1])
  }

  ghost predicate Reachable(imports: Imports, m: Module) {
    exists path :: ImportPath(imports, path, m)
  }

  lemma ExtendPath(imports: Imports, a: Module, b: Module)
    requires Reachable(imports, a) && Edge(imports, a, b)
    ensures Reachable(imports, b)
  {
    var path :| ImportPath(imports, path, a);
    assert ImportPath(imports, path + [b], b);
  }

  /** A set that holds the root and is closed under imports holds everything reachable. */
  lemma {:induction false} ClosedHoldsAll(imports: Imports, seen: set<Module>, path: seq<Module>, m: Module)
    requires ROOT in seen && forall a, b :: a in seen && Edge(imports, a, b) ==> b in seen
    requires ImportPath(imports, path, m)
    ensures m in seen
  {
    if |path| > 1 {
      var k := |path| - 1;
      assert ImportPath(imports, path[..k], path[k - 1]);
      ClosedHoldsAll(imports, seen, path[..k], path[k - 1]);
      assert Edge(imports, path[k - 1], path[k]);
    }
  }

  /** Every name that can occur: finitely many, whatever cycles the imports have. */
  ghost function Names(imports: Imports): set<Module> {
    {ROOT} + set a, b | a in imports && b in imports[a] :: b
  }

  method LibraryImports(names: seq<Module>) returns (found: seq<Module>)
    ensures forall m :: m in found <==> m in names && InLibrary(m)
  {
    found := [];
    for i := 0 to |names|
      invariant forall m :: m in found <==> m in names[..i] && InLibrary(m)
    {
      assert names[..i + 1] == names[..i] + [names[i]];
      if InLibrary(names[i]) {
        found := found + [names[i]];
      }
    }
    assert names[..|names|] == names;
  }

  /** The search ends on every import graph and calls orphan exactly the modules on disk without
      an import path from the root through existing files. */
  method Orphans(onDisk: set<Module>, imports: Imports) returns (orphans: set<Module>)
    ensures forall m :: m in orphans <==> m in onDisk && !Reachable(imports, m)
  {
    var seen: set<Module>, frontier := {}, [ROOT];
    assert ImportPath(imports, [ROOT], ROOT);
    while frontier != []
      invariant forall m :: m in seen ==> Reachable(imports, m)
      invariant forall m :: m in frontier ==> Reachable(imports, m)
      invariant seen <= Names(imports) && forall m :: m in frontier ==> m in Names(imports)
      invariant ROOT in seen || ROOT in frontier
      invariant forall a, b :: a in seen && Edge(imports, a, b) ==> b in seen || b in frontier
      decreases Names(imports) - seen, |frontier|
    {
      var mod := frontier[|frontier| - 1];
      ghost var before := frontier;
      frontier := frontier[..|frontier| - 1];
      assert before == frontier + [mod];
      if mod !in seen {
        seen := seen + {mod};
        if mod in imports {
          var found := LibraryImports(imports[mod]);
          forall m | m in found ensures Reachable(imports, m) && m in Names(imports) {
            ExtendPath(imports, mod, m);
          }
          frontier := frontier + found;
        }
      }
    }
    forall m | Reachable(imports, m) ensures m in seen {
      var path :| ImportPath(imports, path, m);
      ClosedHoldsAll(imports, seen, path, m);
    }
    orphans := onDisk - seen;
  }
}
