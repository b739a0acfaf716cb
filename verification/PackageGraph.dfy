// The loaded packages of a program and how their imports resolve.
module PackageGraph {
  datatype Package = Package(path: string, id: nat)

  // What an import stands for. Packages of the Go runtime and of the environment
  // have no builder of their own; hasModule tells whether sources are available.
  datatype Target = Loaded(dependency: Package, hasModule: bool) | Runtime | Environment | Unresolved
  datatype Import = Import(path: string, target: Target)

  type Imports = Package -> seq<Import>

  predicate Exempt(i: Import) {
    i.target.Runtime? || i.target.Environment?
  }

  // Every import that needs a builder has one.
  ghost predicate Closed(imports: Imports, builders: set<Package>) {
    forall p, i :: p in builders && i in imports(p) ==> Satisfied(i, builders)
  }

  predicate Satisfied(i: Import, builders: set<Package>) {
    Exempt(i) || (i.target.Loaded? && i.target.dependency in builders)
  }
}
