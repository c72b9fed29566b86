/** The dependency guard: the packages reachable from the core crate over runtime edges, and
    the law they are checked against. */
module CoreIsolation {
  import opened Common

  type PackageId = string

  datatype DependencyKind = Normal | Development | Build

  /** A declared dependency of a package. */
  datatype Dependency = Dependency(name: string, kind: DependencyKind)

  datatype Package = Package(id: PackageId, name: string, dependencies: seq<Dependency>)

  /** A resolved edge, with every kind under which it is declared. */
  datatype NodeDep = NodeDep(pkg: PackageId, kinds: seq<DependencyKind>)

  datatype Node = Node(id: PackageId, deps: seq<NodeDep>)

  datatype Metadata = Metadata(packages: seq<Package>, resolve: Option<seq<Node>>)

  datatype CrateDeps = CrateDeps(name: string, runtimeDepNames: seq<string>, allDeclaredDepNames: seq<string>)

  const CORE: string := "mailmate-core"

  const FORBIDDEN_BACKENDS: set<string> :=
    {"rusqlite", "libsqlite3-sys", "sqlx", "tokio", "tokio-macros", "mio", "reqwest", "hyper", "h2", "burn",
     "candle-core", "ort", "onnxruntime", "tract-core", "pyo3", "numpy"}

  const CORE_ALLOWED_WORKSPACE_DEPS: set<string> := {"mailmate-ports", "mailmate-common"}

  // ---- the graph --------------------------------------------------------------------------

  /** Package names by id; the last package of an id wins. */
  function NamesById(packages: seq<Package>): map<PackageId, string> {
    if packages == [] then map[]
    else
      var last := packages[|packages| - 1];
      NamesById(packages[..|packages| - 1])[last.id := last.name]
  }

  /** Resolved edges by id; the last node of an id wins. */
  function DepsById(nodes: seq<Node>): map<PackageId, seq<NodeDep>> {
    if nodes == [] then map[]
    else
      var last := nodes[|nodes| - 1];
      DepsById(nodes[..|nodes| - 1])[last.id := last.deps]
  }

  predicate IsRuntime(dep: NodeDep) {
    exists i :: 0 <= i < |dep.kinds| && dep.kinds[i] != Development
  }

  type Graph = map<PackageId, seq<NodeDep>>

  /** A runtime edge of the resolved graph. */
  ghost predicate Edge(g: Graph, from: PackageId, to: PackageId) {
    from in g && exists j :: 0 <= j < |g[from]| && g[from][j].pkg == to && IsRuntime(g[from][j])
  }

  /** An edge counts exactly when one of its declarations is normal or for the build. */
  lemma EdgeIff(g: Graph, from: PackageId, to: PackageId)
    ensures Edge(g, from, to) <==>
      from in g && exists j, k | 0 <= j < |g[from]| && 0 <= k < |g[from][j].kinds| ::
        g[from][j].pkg == to && (g[from][j].kinds[k] == Normal || g[from][j].kinds[k] == Build)
  {
    if from in g {
      if j, k :| 0 <= j < |g[from]| && 0 <= k < |g[from][j].kinds|
                 && g[from][j].pkg == to && (g[from][j].kinds[k] == Normal || g[from][j].kinds[k] == Build) {
        assert IsRuntime(g[from][j]);
      }
    }
  }

  /** Of several packages of one id the last one names it, and of several nodes the last one has
      its edges. */
  lemma {:induction false} LastNameWins(packages: seq<Package>, i: nat)
    requires i < |packages| && forall j :: i < j < |packages| ==> packages[j].id != packages[i].id
    ensures packages[i].id in NamesById(packages) && NamesById(packages)[packages[i].id] == packages[i].name
  {
    if i < |packages| - 1 {
      LastNameWins(packages[..|packages| - 1], i);
    }
  }

  lemma {:induction false} LastNodeWins(nodes: seq<Node>, i: nat)
    requires i < |nodes| && forall j :: i < j < |nodes| ==> nodes[j].id != nodes[i].id
    ensures nodes[i].id in DepsById(nodes) && DepsById(nodes)[nodes[i].id] == nodes[i].deps
  {
    if i < |nodes| - 1 {
      LastNodeWins(nodes[..|nodes| - 1], i);
    }
  }

  ghost predicate IsPath(g: Graph, path: seq<PackageId>) {
    forall i :: 0 <= i < |path| - 1 ==> Edge(g, path[i], path[i + 1])
  }

  /** Reachable over one or more runtime edges. */
  ghost predicate Reachable(g: Graph, from: PackageId, to: PackageId) {
    exists path: seq<PackageId> :: |path| >= 2 && path[0] == from && path[|path| - 1] == to && IsPath(g, path)
  }

  lemma EdgeReaches(g: Graph, from: PackageId, to: PackageId)
    requires Edge(g, from, to)
    ensures Reachable(g, from, to)
  {
    var path := [from, to];
    assert IsPath(g, path);
  }

  lemma EdgeExtends(g: Graph, from: PackageId, mid: PackageId, to: PackageId)
    requires Reachable(g, from, mid) && Edge(g, mid, to)
    ensures Reachable(g, from, to)
  {
    var path :| |path| >= 2 && path[0] == from && path[|path| - 1] == mid && IsPath(g, path);
    var longer := path + [to];
    forall i | 0 <= i < |longer| - 1
      ensures Edge(g, longer[i], longer[i + 1])
    {
      if i < |path| - 1 {
        assert Edge(g, path[i], path[i + 1]);
      }
    }
    assert IsPath(g, longer);
  }

  /** A set that holds every successor of `from` and of its own members holds everything
      reachable from `from`. */
  lemma ClosedSetHoldsReachable(g: Graph, from: PackageId, s: set<PackageId>, to: PackageId)
    requires forall a, b :: (a == from || a in s) && Edge(g, a, b) ==> b in s
    requires Reachable(g, from, to)
    ensures to in s
  {
    var path :| |path| >= 2 && path[0] == from && path[|path| - 1] == to && IsPath(g, path);
    var i := 1;
    assert Edge(g, path[0], path[1]);
    while i < |path| - 1
      invariant 1 <= i <= |path| - 1 && path[i] in s
    {
      assert Edge(g, path[i], path[i + 1]);
      i := i + 1;
    }
  }

  // ---- the walk -----------------------------------------------------------------------------

  ghost function Targets(g: Graph): set<PackageId> {
    set id, j | id in g && 0 <= j < |g[id]| :: g[id][j].pkg
  }

  /** The names of the visited packages that have one, in visiting order. */
  function KnownNames(order: seq<PackageId>, names: map<PackageId, string>): seq<string> {
    if order == [] then []
    else
      var last := order[|order| - 1];
      KnownNames(order[..|order| - 1], names) + if last in names then [names[last]] else []
  }

  /** Every runtime successor of `a` has been seen. */
  ghost predicate Expanded(g: Graph, a: PackageId, seen: set<PackageId>) {
    forall b :: Edge(g, a, b) ==> b in seen
  }

  /** What the walk has collected: `order` lists the seen packages once, all of them
      reachable. */
  ghost predicate Collected(g: Graph, core: PackageId, seen: set<PackageId>, order: seq<PackageId>) {
    && Distinct(order)
    && (forall id :: id in order <==> id in seen)
    && seen <= Targets(g)
    && forall id :: id in seen ==> Reachable(g, core, id)
  }

  lemma CollectOneMore(g: Graph, core: PackageId, seen: set<PackageId>, order: seq<PackageId>, from: PackageId, j: nat)
    requires Collected(g, core, seen, order) && (from == core || from in seen)
    requires from in g && j < |g[from]| && IsRuntime(g[from][j]) && g[from][j].pkg !in seen
    ensures Collected(g, core, seen + {g[from][j].pkg}, order + [g[from][j].pkg])
  {
    var id := g[from][j].pkg;
    assert Edge(g, from, id);
    if from == core {
      EdgeReaches(g, core, id);
    } else {
      EdgeExtends(g, core, from, id);
    }
  }

  lemma KnownNamesOneMore(order: seq<PackageId>, id: PackageId, names: map<PackageId, string>)
    ensures KnownNames(order + [id], names) == KnownNames(order, names) + if id in names then [names[id]] else []
  {
    assert (order + [id])[..|order|] == order;
  }

  lemma ScannedIsExpanded(g: Graph, id: PackageId, seen: set<PackageId>)
    requires id in g
    requires forall i :: 0 <= i < |g[id]| && IsRuntime(g[id][i]) ==> g[id][i].pkg in seen
    ensures Expanded(g, id, seen)
  {
  }

  /** Looks at every edge of one package: unseen runtime successors are recorded and pushed. */
  method Visit(g: Graph, core: PackageId, names: map<PackageId, string>, id: PackageId,
               seen0: set<PackageId>, stack0: seq<PackageId>, closure0: seq<string>, ghost order0: seq<PackageId>)
    returns (seen: set<PackageId>, stack: seq<PackageId>, closure: seq<string>, ghost order: seq<PackageId>)
    requires id in g && (id == core || id in seen0)
    requires Collected(g, core, seen0, order0) && closure0 == KnownNames(order0, names)
    ensures Collected(g, core, seen, order) && closure == KnownNames(order, names)
    ensures seen0 <= seen && Expanded(g, id, seen)
    ensures stack0 <= stack && forall x :: x in stack <==> x in stack0 || x in seen - seen0
    ensures seen == seen0 ==> stack == stack0
  {
    hide Collected;
    hide KnownNames;
    hide Expanded;
    hide Edge;
    hide IsRuntime;
    seen, stack, closure, order := seen0, stack0, closure0, order0;
    var deps := g[id];
    for j := 0 to |deps|
      invariant Collected(g, core, seen, order) && closure == KnownNames(order, names)
      invariant seen0 <= seen
      invariant stack0 <= stack && forall x :: x in stack <==> x in stack0 || x in seen - seen0
      invariant seen == seen0 ==> stack == stack0
      invariant forall i :: 0 <= i < j && IsRuntime(deps[i]) ==> deps[i].pkg in seen
    {
      var nd := deps[j];
      if IsRuntime(nd) && nd.pkg !in seen {
        CollectOneMore(g, core, seen, order, id, j);
        KnownNamesOneMore(order, nd.pkg, names);
        seen := seen + {nd.pkg};
        if nd.pkg in names {
          closure := closure + [names[nd.pkg]];
        }
        order := order + [nd.pkg];
        stack := stack + [nd.pkg];
      }
    }
    ScannedIsExpanded(g, id, seen);
  }

  /** Core and every seen package are expanded, except those still on the stack. */
  ghost predicate Frontier(g: Graph, core: PackageId, seen: set<PackageId>, stack: seq<PackageId>) {
    && (forall id :: id in stack ==> id == core || id in seen)
    && forall a :: (a == core || a in seen) && a !in stack ==> Expanded(g, a, seen)
  }

  lemma FrontierAdvances(g: Graph, core: PackageId, seen: set<PackageId>, stack: seq<PackageId>, id: PackageId,
                         seen': set<PackageId>, stack': seq<PackageId>)
    requires Frontier(g, core, seen, stack + [id])
    requires seen <= seen' && Expanded(g, id, seen')
    requires forall x :: x in stack' <==> x in stack || x in seen' - seen
    ensures Frontier(g, core, seen', stack')
  {
    forall x | x in stack'
      ensures x == core || x in seen'
    {
      assert x in stack ==> x in stack + [id];
    }
    forall a | (a == core || a in seen') && a !in stack'
      ensures Expanded(g, a, seen')
    {
      assert a != id ==> a !in stack + [id];
      assert a != id ==> Expanded(g, a, seen);
    }
  }

  lemma TopOfFrontier(g: Graph, core: PackageId, seen: set<PackageId>, stack: seq<PackageId>, id: PackageId)
    requires Frontier(g, core, seen, stack + [id])
    ensures id == core || id in seen
  {
    assert id in stack + [id];
  }

  lemma MoreCollected(g: Graph, core: PackageId, before: set<PackageId>, seen: set<PackageId>, order: seq<PackageId>)
    requires Collected(g, core, seen, order) && before < seen
    ensures |Targets(g) - seen| < |Targets(g) - before|
  {
    SmallerComplement(Targets(g), before, seen);
  }

  lemma FrontierIsComplete(g: Graph, core: PackageId, seen: set<PackageId>, id: PackageId)
    requires Frontier(g, core, seen, []) && Reachable(g, core, id)
    ensures id in seen
  {
    forall a, b | (a == core || a in seen) && Edge(g, a, b)
      ensures b in seen
    {
      assert Expanded(g, a, seen);
    }
    ClosedSetHoldsReachable(g, core, seen, id);
  }

  /** One round of the walk: pops a package and visits it. */
  method PopAndVisit(g: Graph, core: PackageId, names: map<PackageId, string>,
                     seen0: set<PackageId>, stack0: seq<PackageId>, closure0: seq<string>, ghost order0: seq<PackageId>)
    returns (seen: set<PackageId>, stack: seq<PackageId>, closure: seq<string>, ghost order: seq<PackageId>)
    requires stack0 != [] && Frontier(g, core, seen0, stack0)
    requires Collected(g, core, seen0, order0) && closure0 == KnownNames(order0, names)
    ensures Collected(g, core, seen, order) && closure == KnownNames(order, names)
    ensures Frontier(g, core, seen, stack)
    ensures |Targets(g) - seen| < |Targets(g) - seen0| || (seen == seen0 && |stack| < |stack0|)
  {
    hide Reachable;
    hide Edge;
    hide KnownNames;
    hide Targets;
    hide Expanded;
    hide Frontier;
    hide Collected;
    seen, closure, order := seen0, closure0, order0;
    var id := stack0[|stack0| - 1];
    stack := stack0[..|stack0| - 1];
    ghost var rest := stack;
    assert stack0 == rest + [id];
    TopOfFrontier(g, core, seen0, rest, id);
    if id in g {
      seen, stack, closure, order := Visit(g, core, names, id, seen, stack, closure, order);
      if seen != seen0 {
        MoreCollected(g, core, seen0, seen, order);
      }
    } else {
      NoNodeNoEdge(g, id, seen);
    }
    FrontierAdvances(g, core, seen0, rest, id, seen, stack);
  }

  /** The runtime closure: each package reachable over runtime edges once, and nothing else,
      whatever cycles the graph has. */
  method Walk(core: PackageId, g: Graph, names: map<PackageId, string>)
    returns (closure: seq<string>, ghost order: seq<PackageId>)
    ensures Distinct(order)
    ensures forall id :: id in order <==> Reachable(g, core, id)
    ensures closure == KnownNames(order, names)
  {
    closure, order := [], [];
    var seen: set<PackageId> := {};
    var stack := [core];
    while stack != []
      invariant Collected(g, core, seen, order) && closure == KnownNames(order, names)
      invariant Frontier(g, core, seen, stack)
      decreases |Targets(g) - seen|, |stack|
    {
      seen, stack, closure, order := PopAndVisit(g, core, names, seen, stack, closure, order);
    }
    forall id | Reachable(g, core, id)
      ensures id in order
    {
      FrontierIsComplete(g, core, seen, id);
    }
  }

  lemma NoNodeNoEdge(g: Graph, id: PackageId, seen: set<PackageId>)
    requires id !in g
    ensures Expanded(g, id, seen)
  {
  }

  lemma SmallerComplement<T>(all: set<T>, a: set<T>, b: set<T>)
    requires a < b <= all
    ensures |all - b| < |all - a|
  {
    assert exists x :: x in b && x !in a;
    assert all - b < all - a;
    SubsetIsSmaller(all - b, all - a);
  }

  lemma SubsetIsSmaller<T>(a: set<T>, b: set<T>)
    requires a < b
    ensures |a| < |b|
  {
    assert b == a + (b - a);
  }

  // ---- the law ------------------------------------------------------------------------------

  /** The first package of a name. */
  function FirstNamed(packages: seq<Package>, name: string): (r: Option<Package>)
    ensures r.Some? <==> exists i :: 0 <= i < |packages| && packages[i].name == name
    ensures r.Some? ==>
      exists i :: 0 <= i < |packages| && r.value == packages[i] && packages[i].name == name
        && forall j :: 0 <= j < i ==> packages[j].name != name
  {
    if packages == [] then None
    else if packages[0].name == name then Some(packages[0])
    else
      assert forall i :: 0 < i < |packages| ==> packages[i] == packages[1..][i - 1];
      FirstNamed(packages[1..], name)
  }

  function DeclaredNames(dependencies: seq<Dependency>): seq<string> {
    seq(|dependencies|, i requires 0 <= i < |dependencies| => dependencies[i].name)
  }

  function RuntimeNames(dependencies: seq<Dependency>): (names: seq<string>)
    ensures forall n :: n in names <==>
      exists i :: 0 <= i < |dependencies| && dependencies[i].name == n && dependencies[i].kind != Development
  {
    if dependencies == [] then []
    else
      var last := dependencies[|dependencies| - 1];
      var init := dependencies[..|dependencies| - 1];
      assert forall i :: 0 <= i < |init| ==> dependencies[i] == init[i];
      RuntimeNames(init) + if last.kind != Development then [last.name] else []
  }

  /** What the extractor reads off the metadata, or why it cannot. */
  method ExtractCore(meta: Metadata)
    returns (r: Result<(CrateDeps, seq<string>), string>, ghost order: seq<PackageId>)
    ensures r.Ok? <==> FirstNamed(meta.packages, CORE).Some? && meta.resolve.Some?
    ensures r.Ok? ==>
      var core := FirstNamed(meta.packages, CORE).value;
      && Distinct(order)
      && (forall id :: id in order <==> Reachable(DepsById(meta.resolve.value), core.id, id))
      && r.value.1 == KnownNames(order, NamesById(meta.packages))
      && r.value.0 == CrateDeps(CORE, RuntimeNames(core.dependencies), DeclaredNames(core.dependencies))
  {
    order := [];
    match FirstNamed(meta.packages, CORE)
    case None => r := Err("mailmate-core package not found in metadata");
    case Some(core) =>
      if meta.resolve.None? {
        r := Err("metadata has no resolve graph (do not pass --no-deps)");
      } else {
        var closure;
        closure, order := Walk(core.id, DepsById(meta.resolve.value), NamesById(meta.packages));
        r := Ok((CrateDeps(CORE, RuntimeNames(core.dependencies), DeclaredNames(core.dependencies)), closure));
      }
  }

  datatype Violation =
    | WorkspaceDependency(dep: string)
    | BackendReachable(name: string)
    | BackendDeclared(dep: string)

  predicate ForeignWorkspaceCrate(name: string) {
    "mailmate-" <= name && name !in CORE_ALLOWED_WORKSPACE_DEPS
  }

  /** Reports every entry that breaks a clause of the law, and nothing else. */
  method CheckCoreIsolation(core: CrateDeps, runtimeClosure: seq<string>) returns (violations: seq<Violation>)
    ensures forall v :: v in violations <==>
      match v
      case WorkspaceDependency(dep) => dep in core.runtimeDepNames && ForeignWorkspaceCrate(dep)
      case BackendReachable(name) => name in runtimeClosure && name in FORBIDDEN_BACKENDS
      case BackendDeclared(dep) => dep in core.allDeclaredDepNames && dep in FORBIDDEN_BACKENDS
  {
    hide ForeignWorkspaceCrate;
    violations := [];
    for i := 0 to |core.runtimeDepNames|
      invariant forall v :: v in violations <==>
        v.WorkspaceDependency? && v.dep in core.runtimeDepNames[..i] && ForeignWorkspaceCrate(v.dep)
    {
      if ForeignWorkspaceCrate(core.runtimeDepNames[i]) {
        violations := violations + [WorkspaceDependency(core.runtimeDepNames[i])];
      }
    }
    for i := 0 to |runtimeClosure|
      invariant forall v :: v in violations <==>
        match v
        case WorkspaceDependency(dep) => dep in core.runtimeDepNames && ForeignWorkspaceCrate(dep)
        case BackendReachable(name) => name in runtimeClosure[..i] && name in FORBIDDEN_BACKENDS
        case BackendDeclared(_) => false
    {
      if runtimeClosure[i] in FORBIDDEN_BACKENDS {
        violations := violations + [BackendReachable(runtimeClosure[i])];
      }
    }
    for i := 0 to |core.allDeclaredDepNames|
      invariant forall v :: v in violations <==>
        match v
        case WorkspaceDependency(dep) => dep in core.runtimeDepNames && ForeignWorkspaceCrate(dep)
        case BackendReachable(name) => name in runtimeClosure && name in FORBIDDEN_BACKENDS
        case BackendDeclared(dep) => dep in core.allDeclaredDepNames[..i] && dep in FORBIDDEN_BACKENDS
    {
      if core.allDeclaredDepNames[i] in FORBIDDEN_BACKENDS {
        violations := violations + [BackendDeclared(core.allDeclaredDepNames[i])];
      }
    }
  }

  /** The hexagonal law read off the metadata: no foreign workspace crate as a runtime
      dependency, no backend declared, and no package reachable over runtime edges that
      carries a backend's name. */
  ghost predicate LawHolds(meta: Metadata, core: Package, nodes: seq<Node>) {
    && (forall i :: 0 <= i < |core.dependencies| && core.dependencies[i].kind != Development ==>
          !ForeignWorkspaceCrate(core.dependencies[i].name))
    && (forall i :: 0 <= i < |core.dependencies| ==> core.dependencies[i].name !in FORBIDDEN_BACKENDS)
    && (forall id :: Reachable(DepsById(nodes), core.id, id) && id in NamesById(meta.packages) ==>
          NamesById(meta.packages)[id] !in FORBIDDEN_BACKENDS)
  }

  lemma {:induction false} KnownNamesAre(order: seq<PackageId>, names: map<PackageId, string>, name: string)
    ensures name in KnownNames(order, names) <==> exists id :: id in order && id in names && names[id] == name
  {
    if order != [] {
      var init, last := order[..|order| - 1], order[|order| - 1];
      KnownNamesAre(init, names, name);
      assert order == init + [last];
    }
  }

  /** A name is reachable: some package of that name is, over runtime edges. */
  ghost predicate ReachableName(meta: Metadata, core: Package, nodes: seq<Node>, name: string) {
    exists id :: Reachable(DepsById(nodes), core.id, id) && id in NamesById(meta.packages)
                 && NamesById(meta.packages)[id] == name
  }

  /** The guard as the workspace test runs it: extraction and check together report nothing
      exactly when the law holds of the metadata, and otherwise exactly what breaks it. */
  method GuardCore(meta: Metadata) returns (r: Result<seq<Violation>, string>)
    ensures r.Ok? <==> FirstNamed(meta.packages, CORE).Some? && meta.resolve.Some?
    ensures r.Ok? ==>
      (r.value == [] <==> LawHolds(meta, FirstNamed(meta.packages, CORE).value, meta.resolve.value))
    ensures r.Ok? ==>
      FirstNamed(meta.packages, "mailmate-core").Some?
      && Reports(meta, FirstNamed(meta.packages, "mailmate-core").value, meta.resolve.value, r.value)
  {
    var extracted;
    ghost var order;
    extracted, order := ExtractCore(meta);
    if extracted.Err? {
      return Err(extracted.error);
    }
    var (core, closure) := extracted.value;
    var violations := CheckCoreIsolation(core, closure);
    NothingToReport(meta, FirstNamed(meta.packages, CORE).value, meta.resolve.value, order, violations);
    WhatIsReported(meta, FirstNamed(meta.packages, CORE).value, meta.resolve.value, order, violations);
    return Ok(violations);
  }

  /** Reported are: a dependency of the core, other than for development only, on a workspace crate
      that is neither the ports nor the common crate; a backend's name reachable from the core; and
      a backend's name declared by it. */
  ghost predicate Reports(meta: Metadata, core: Package, nodes: seq<Node>, violations: seq<Violation>) {
    && (forall dep ::
          WorkspaceDependency(dep) in violations <==>
          "mailmate-" <= dep && dep != "mailmate-ports" && dep != "mailmate-common"
          && exists i :: 0 <= i < |core.dependencies| && core.dependencies[i].name == dep
                         && (core.dependencies[i].kind.Normal? || core.dependencies[i].kind.Build?))
    && (forall name ::
          BackendReachable(name) in violations <==> Backend(name) && ReachableName(meta, core, nodes, name))
    && (forall dep ::
          BackendDeclared(dep) in violations <==>
          Backend(dep) && exists i :: 0 <= i < |core.dependencies| && core.dependencies[i].name == dep)
  }

  predicate Backend(name: string) {
    || name == "rusqlite" || name == "libsqlite3-sys" || name == "sqlx" || name == "tokio"
    || name == "tokio-macros" || name == "mio" || name == "reqwest" || name == "hyper" || name == "h2"
    || name == "burn" || name == "candle-core" || name == "ort" || name == "onnxruntime"
    || name == "tract-core" || name == "pyo3" || name == "numpy"
  }

  lemma WhatIsReported(
      meta: Metadata, core: Package, nodes: seq<Node>, order: seq<PackageId>, violations: seq<Violation>)
    requires forall id :: id in order <==> Reachable(DepsById(nodes), core.id, id)
    requires forall v :: v in violations <==>
      match v
      case WorkspaceDependency(dep) => dep in RuntimeNames(core.dependencies) && ForeignWorkspaceCrate(dep)
      case BackendReachable(name) => name in KnownNames(order, NamesById(meta.packages)) && name in FORBIDDEN_BACKENDS
      case BackendDeclared(dep) => dep in DeclaredNames(core.dependencies) && dep in FORBIDDEN_BACKENDS
    ensures Reports(meta, core, nodes, violations)
  {
    hide Reachable;
    hide KnownNames;
    forall name
      ensures BackendReachable(name) in violations <==> Backend(name) && ReachableName(meta, core, nodes, name)
    {
      KnownNamesAre(order, NamesById(meta.packages), name);
    }
    forall dep
      ensures dep in DeclaredNames(core.dependencies) <==>
        exists i :: 0 <= i < |core.dependencies| && core.dependencies[i].name == dep
    {
      DeclaredNamesAre(core.dependencies, dep);
    }
  }

  lemma DeclaredNamesAre(dependencies: seq<Dependency>, dep: string)
    ensures dep in DeclaredNames(dependencies) <==>
      exists i :: 0 <= i < |dependencies| && dependencies[i].name == dep
  {
    if i :| 0 <= i < |dependencies| && dependencies[i].name == dep {
      assert DeclaredNames(dependencies)[i] == dep;
    }
  }

  lemma NothingToReport(
      meta: Metadata, core: Package, nodes: seq<Node>, order: seq<PackageId>, violations: seq<Violation>)
    requires forall id :: id in order <==> Reachable(DepsById(nodes), core.id, id)
    requires forall v :: v in violations <==>
      match v
      case WorkspaceDependency(dep) => dep in RuntimeNames(core.dependencies) && ForeignWorkspaceCrate(dep)
      case BackendReachable(name) => name in KnownNames(order, NamesById(meta.packages)) && name in FORBIDDEN_BACKENDS
      case BackendDeclared(dep) => dep in DeclaredNames(core.dependencies) && dep in FORBIDDEN_BACKENDS
    ensures violations == [] <==> LawHolds(meta, core, nodes)
  {
    hide Reachable;
    hide ForeignWorkspaceCrate;
    hide KnownNames;
    var names := NamesById(meta.packages);
    if violations == [] {
      forall i | 0 <= i < |core.dependencies| && core.dependencies[i].kind != Development
        ensures !ForeignWorkspaceCrate(core.dependencies[i].name)
      {
        assert WorkspaceDependency(core.dependencies[i].name) !in violations;
      }
      forall i | 0 <= i < |core.dependencies|
        ensures core.dependencies[i].name !in FORBIDDEN_BACKENDS
      {
        assert DeclaredNames(core.dependencies)[i] == core.dependencies[i].name;
        assert BackendDeclared(core.dependencies[i].name) !in violations;
      }
      forall id | Reachable(DepsById(nodes), core.id, id) && id in names
        ensures names[id] !in FORBIDDEN_BACKENDS
      {
        KnownNamesAre(order, names, names[id]);
        assert BackendReachable(names[id]) !in violations;
      }
    } else {
      var v := violations[0];
      assert v in violations;
      match v
      case WorkspaceDependency(dep) =>
      case BackendReachable(name) => KnownNamesAre(order, names, name);
      case BackendDeclared(dep) =>
    }
  }
}
