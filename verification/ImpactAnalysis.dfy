/** Impact of changed paths: the sets read off the graph, and what they mean for the
    source tree the graph was built from. */
module ImpactAnalysis {
  import opened Basics
  import opened Impact
  import opened ImpactIndexer

  datatype Reason = ChangedPackage | ImportsChanged

  datatype Advice = Broad(why: string) | Targeted(packages: set<string>) | TestEverything

  datatype Report = Report(
    affected: map<Node, Reason>, dependents: set<string>, tests: set<string>,
    uncertainty: real, broaden: bool, advice: Advice)

  /** The stored state of the last indexing run, if any: its source revision. */
  predicate Stale(indexed: Option<string>, revision: string) {
    indexed.None? || (revision != "" && indexed.value != "" && indexed.value != revision)
  }

  /** The first reason there is to broaden validation. */
  function Why(empty: bool, stale: bool): string {
    if empty then "graph not built"
    else if stale then "graph stale vs current revision"
    else "change includes paths the graph does not cover"
  }

  predicate Covered(nodes: set<Node>, rel: string) {
    GoFile(rel) && NodeOf(rel) in nodes
  }

  function Uncovered(nodes: set<Node>, changed: seq<string>): (n: nat)
    ensures n <= |changed|
  {
    if changed == [] then 0
    else Uncovered(nodes, changed[..|changed| - 1]) + if Covered(nodes, changed[|changed| - 1]) then 0 else 1
  }

  function ChangedFiles(nodes: set<Node>, changed: seq<string>): set<Node> {
    set k | 0 <= k < |changed| && Covered(nodes, changed[k]) :: NodeOf(changed[k])
  }

  function Dependents(edges: set<Edge>, packages: set<Node>): set<Node> {
    SourcesOf(edges, packages, Imports)
  }

  function DependentPackages(edges: set<Edge>, packages: set<Node>): set<Node> {
    SourcesOf(edges, Dependents(edges, packages), Contains)
  }

  function TestsIn(edges: set<Edge>, packages: set<Node>): set<string> {
    set n | n in TargetsOf(edges, packages, Contains) && n.kind == TestNode :: n.key
  }

  function Capped(u: real): real {
    if u > 1.0 then 1.0 else u
  }

  function Uncertainty(empty: bool, stale: bool, uncovered: nat, total: nat): real {
    Capped((if empty then 0.6 else 0.0) + (if stale then 0.3 else 0.0)
           + (if total > 0 then 0.5 * (uncovered as real) / (total as real) else 0.0))
  }

  /** The uncertainty threshold never decides: on a graph that is there and covers
      every path it is out of reach. */
  lemma ThresholdNeverDecides(empty: bool, stale: bool, uncovered: nat, total: nat)
    ensures !empty && uncovered == 0 ==> Uncertainty(empty, stale, uncovered, total) <= 0.3
  {
    if uncovered == 0 && total > 0 {
      assert 0.5 * (uncovered as real) / (total as real) == 0.0;
    }
  }

  /** What the packages of some changed files contribute to the report. */
  ghost predicate Collected(edges: set<Edge>, packages: set<Node>, affected: map<Node, Reason>, dependents: set<Node>) {
    && affected.Keys == packages + DependentPackages(edges, packages)
    && (forall p :: p in affected ==> (affected[p] == ChangedPackage <==> p in packages))
    && dependents == Dependents(edges, packages)
  }

  lemma SourcesJoin(edges: set<Edge>, a: set<Node>, b: set<Node>, kind: EdgeKind)
    ensures SourcesOf(edges, a + b, kind) == SourcesOf(edges, a, kind) + SourcesOf(edges, b, kind)
  {
  }

  lemma OneMorePackage(edges: set<Edge>, packages: set<Node>, pkg: Node)
    ensures Dependents(edges, packages + {pkg}) == Dependents(edges, packages) + Dependents(edges, {pkg})
    ensures DependentPackages(edges, packages + {pkg}) == DependentPackages(edges, packages) + DependentPackages(edges, {pkg})
  {
    hide SourcesOf;
    SourcesJoin(edges, packages, {pkg}, Imports);
    SourcesJoin(edges, Dependents(edges, packages), Dependents(edges, {pkg}), Contains);
  }

  /** The packages of one importer of a changed package. */
  method AddImporter(g: Graph, importer: Node, affected: map<Node, Reason>) returns (now: map<Node, Reason>)
    ensures now.Keys == affected.Keys + SourcesOf(g.edges, {importer}, Contains)
    ensures forall p :: p in affected ==> now[p] == affected[p]
    ensures forall p :: p in now && p !in affected ==> now[p] == ImportsChanged
  {
    var left := g.EdgesTo(importer, Contains);
    ghost var all := left;
    now := affected;
    while left != {}
      invariant left <= all && now.Keys == affected.Keys + (all - left)
      invariant forall p :: p in affected ==> now[p] == affected[p]
      invariant forall p :: p in now && p !in affected ==> now[p] == ImportsChanged
      decreases left
    {
      var p :| p in left;
      left := left - {p};
      if p !in now {
        now := now[p := ImportsChanged];
      }
    }
  }

  method AddPackage(g: Graph, pkg: Node, affected: map<Node, Reason>, dependents: set<Node>)
    returns (now: map<Node, Reason>, deps: set<Node>)
    ensures now.Keys == affected.Keys + {pkg} + DependentPackages(g.edges, {pkg})
    ensures forall p :: p in now ==>
      (now[p] == ChangedPackage <==> p == pkg || (p in affected && affected[p] == ChangedPackage))
    ensures deps == dependents + Dependents(g.edges, {pkg})
  {
    hide SourcesOf;
    now := affected[pkg := ChangedPackage];
    var left := g.EdgesTo(pkg, Imports);
    deps := dependents + left;
    ghost var all, done: set<Node> := left, {};
    assert SourcesOf(g.edges, done, Contains) == {} by { NoSources(g.edges, Contains); }
    while left != {}
      invariant left <= all && done == all - left
      invariant now.Keys == affected.Keys + {pkg} + SourcesOf(g.edges, done, Contains)
      invariant forall p :: p in now ==>
        (now[p] == ChangedPackage <==> p == pkg || (p in affected && affected[p] == ChangedPackage))
      decreases left
    {
      var importer :| importer in left;
      left := left - {importer};
      SourcesJoin(g.edges, done, {importer}, Contains);
      done := done + {importer};
      now := AddImporter(g, importer, now);
    }
    assert done == all;
  }

  lemma NoSources(edges: set<Edge>, kind: EdgeKind)
    ensures SourcesOf(edges, {}, kind) == {}
  {
  }

  /** One covered changed file. */
  method AddFile(g: Graph, rel: string, affected: map<Node, Reason>, dependents: set<Node>, ghost packages: set<Node>)
    returns (now: map<Node, Reason>, deps: set<Node>)
    requires Collected(g.edges, packages, affected, dependents)
    ensures Collected(g.edges, packages + SourcesOf(g.edges, {NodeOf(rel)}, Contains), now, deps)
  {
    hide SourcesOf, Dependents, DependentPackages;
    now, deps := affected, dependents;
    var left := g.EdgesTo(NodeOf(rel), Contains);
    ghost var all, done: set<Node> := left, {};
    assert packages + done == packages;
    while left != {}
      invariant left <= all && done == all - left
      invariant Collected(g.edges, packages + done, now, deps)
      decreases left
    {
      var pkg :| pkg in left;
      left := left - {pkg};
      OneMorePackage(g.edges, packages + done, pkg);
      done := done + {pkg};
      assert packages + done == packages + (done - {pkg}) + {pkg};
      now, deps := AddPackage(g, pkg, now, deps);
    }
    assert done == all;
  }

  method CollectTests(g: Graph, affected: set<Node>) returns (tests: set<string>)
    ensures tests == TestsIn(g.edges, affected)
  {
    var left := affected;
    ghost var done: set<Node> := {};
    tests := {};
    while left != {}
      invariant left <= affected && done == affected - left && tests == TestsIn(g.edges, done)
      decreases left
    {
      var pkg :| pkg in left;
      left := left - {pkg};
      var contained := g.EdgesFrom(pkg, Contains);
      tests := tests + set n | n in contained && n.kind == TestNode :: n.key;
      OneMoreTested(g.edges, done, pkg);
      done := done + {pkg};
    }
    assert done == affected;
  }

  lemma OneMoreTested(edges: set<Edge>, done: set<Node>, pkg: Node)
    ensures TestsIn(edges, done + {pkg}) == TestsIn(edges, done) + set n | n in TargetsOf(edges, {pkg}, Contains) && n.kind == TestNode :: n.key
  {
    assert TargetsOf(edges, done + {pkg}, Contains) == TargetsOf(edges, done, Contains) + TargetsOf(edges, {pkg}, Contains);
  }

  function PackagesOf(nodes: set<Node>, edges: set<Edge>, changed: seq<string>): set<Node> {
    SourcesOf(edges, ChangedFiles(nodes, changed), Contains)
  }

  /** Every changed path is a Go file whose node is stored. */
  predicate AllStored(nodes: set<Node>, changed: seq<string>) {
    forall k :: 0 <= k < |changed| ==>
      HasSuffix(changed[k], ".go")
      && Node(if HasSuffix(changed[k], "_test.go") then TestNode else FileNode, changed[k]) in nodes
  }

  /** Both revisions are known, and they differ. */
  predicate Differ(last: string, revision: string) {
    last != "" && revision != "" && last != revision
  }

  /** u is half of the share that part has in total. */
  predicate HalfShare(u: real, part: nat, total: nat) {
    u * total as real == 0.5 * part as real
  }

  /** When validation is broadened: always without a graph or an index state, and on a
      graph that stores every changed path exactly when the revision that was indexed
      and the one asked about differ. Only an empty graph makes the uncertainty reach
      its cap, and paths outside the graph add half their share. */
  ghost predicate Broadens(nodes: set<Node>, indexed: Option<string>, revision: string, changed: seq<string>, r: Report) {
    && (nodes == {} ==> r.broaden && r.uncertainty >= 0.6 && (changed != [] ==> r.uncertainty == 1.0))
    && (indexed.None? ==> r.broaden && r.uncertainty >= 0.3)
    && (nodes != {} && !AllStored(nodes, changed) ==> r.broaden && r.uncertainty > 0.0)
    && (nodes != {} && AllStored(nodes, changed) && indexed.Some? ==>
          (r.broaden <==> Differ(indexed.value, revision)) && r.uncertainty == if r.broaden then 0.3 else 0.0)
    && (nodes != {} && !AllStored(nodes, changed) && indexed.Some? && !Differ(indexed.value, revision) ==>
          HalfShare(r.uncertainty, Uncovered(nodes, changed), |changed|))
  }

  /** The reason given is the first that holds. */
  ghost predicate Explains(nodes: set<Node>, indexed: Option<string>, revision: string, r: Report) {
    if !r.broaden then !r.advice.Broad?
    else if nodes == {} then r.advice == Broad("graph not built")
    else if indexed.None? || Differ(indexed.value, revision) then r.advice == Broad("graph stale vs current revision")
    else r.advice == Broad("change includes paths the graph does not cover")
  }

  lemma StoredIs(nodes: set<Node>, changed: seq<string>)
    ensures AllStored(nodes, changed) <==> Uncovered(nodes, changed) == 0
  {
    UncoveredMeans(nodes, changed);
    assert forall k :: 0 <= k < |changed| ==> (Covered(nodes, changed[k]) <==> GoFile(changed[k]) && NodeOf(changed[k]) in nodes);
  }

  lemma {:induction false} NothingCovered(changed: seq<string>)
    ensures Uncovered({}, changed) == |changed|
  {
    if changed != [] {
      NothingCovered(changed[..|changed| - 1]);
    }
  }

  lemma ReportBroadens(nodes: set<Node>, indexed: Option<string>, revision: string, changed: seq<string>, r: Report)
    requires r.uncertainty == Uncertainty(nodes == {}, Stale(indexed, revision), Uncovered(nodes, changed), |changed|)
    requires r.broaden <==> nodes == {} || Stale(indexed, revision) || Uncovered(nodes, changed) > 0
    ensures Broadens(nodes, indexed, revision, changed, r)
  {
    StoredIs(nodes, changed);
    NothingCovered(changed);
    StaleIs(indexed, revision);
    UncertaintyIs(nodes == {}, Stale(indexed, revision), Uncovered(nodes, changed), |changed|);
    hide Uncovered, AllStored, Uncertainty, Capped, Stale, Differ, HalfShare;
  }

  lemma StaleIs(indexed: Option<string>, revision: string)
    ensures Stale(indexed, revision) <==> indexed.None? || Differ(indexed.value, revision)
  {
  }

  lemma ReportExplains(nodes: set<Node>, indexed: Option<string>, revision: string, r: Report)
    requires if r.broaden then r.advice == Broad(Why(nodes == {}, Stale(indexed, revision))) else !r.advice.Broad?
    ensures Explains(nodes, indexed, revision, r)
  {
    StaleIs(indexed, revision);
    hide Stale, Differ;
  }

  lemma UncertaintyIs(empty: bool, stale: bool, uncovered: nat, total: nat)
    requires uncovered <= total
    ensures
      var u := Uncertainty(empty, stale, uncovered, total);
      && (empty ==> u >= 0.6) && (stale ==> u >= 0.3)
      && (empty && uncovered == total > 0 ==> u == 1.0)
      && (!empty && uncovered == 0 ==> u == if stale then 0.3 else 0.0)
      && (!empty && uncovered > 0 ==> u > 0.0)
      && (!empty && !stale && uncovered > 0 ==> HalfShare(u, uncovered, total))
  {
    if total > 0 {
      Share(uncovered, total);
    }
  }

  lemma Share(part: nat, total: nat)
    requires part <= total && total > 0
    ensures
      var share := 0.5 * (part as real) / (total as real);
      && share * total as real == 0.5 * part as real && 0.0 <= share <= 0.5
      && (share > 0.0 <==> part > 0) && (part == total ==> share == 0.5)
  {
  }

  /** The report's sets are those of the graph, and validation is broadened exactly
      when the graph is empty, stale, or does not cover a path. */
  method Analyze(g: Graph, indexed: Option<string>, revision: string, changed: seq<string>) returns (r: Report)
    requires g.Valid()
    ensures Collected(g.edges, PackagesOf(g.nodes, g.edges, changed), r.affected, Dependents(g.edges, PackagesOf(g.nodes, g.edges, changed)))
    ensures r.dependents == set n | n in Dependents(g.edges, PackagesOf(g.nodes, g.edges, changed)) :: n.key
    ensures r.tests == TestsIn(g.edges, r.affected.Keys)
    ensures r.broaden <==> g.nodes == {} || Stale(indexed, revision) || exists k :: 0 <= k < |changed| && !Covered(g.nodes, changed[k])
    ensures r.uncertainty == Uncertainty(g.nodes == {}, Stale(indexed, revision), Uncovered(g.nodes, changed), |changed|)
    ensures
      if r.broaden then r.advice == Broad(Why(g.nodes == {}, Stale(indexed, revision)))
      else if r.affected.Keys == {} then r.advice == TestEverything
      else r.advice == Targeted(set p | p in r.affected :: p.key)
    ensures Broadens(g.nodes, indexed, revision, changed, r) && Explains(g.nodes, indexed, revision, r)
  {
    hide SourcesOf, Dependents, DependentPackages, TestsIn;
    var affected, dependents, uncovered := map[], {}, 0;
    ghost var packages: set<Node> := {};
    NoPackages(g.nodes, g.edges, changed);
    var k := 0;
    while k < |changed|
      invariant k <= |changed| && uncovered == Uncovered(g.nodes, changed[..k])
      invariant packages == PackagesOf(g.nodes, g.edges, changed[..k])
      invariant Collected(g.edges, packages, affected, dependents)
    {
      var rel := changed[k];
      assert changed[..k + 1][..k] == changed[..k];
      OneMoreChanged(g.nodes, g.edges, changed[..k], rel);
      assert changed[..k + 1] == changed[..k] + [rel];
      k := k + 1;
      if !HasSuffix(rel, ".go") {
        uncovered := uncovered + 1;
        continue;
      }
      var found := g.NodeByKey(FileNodeType(rel), rel);
      if !found {
        uncovered := uncovered + 1;
        continue;
      }
      affected, dependents := AddFile(g, rel, affected, dependents, packages);
      packages := packages + SourcesOf(g.edges, {NodeOf(rel)}, Contains);
    }
    assert changed[..k] == changed;
    UncoveredMeans(g.nodes, changed);
    var tests := CollectTests(g, affected.Keys);
    var empty, stale := g.nodes == {}, Stale(indexed, revision);
    r := Conclude(affected, dependents, tests, empty, stale, uncovered, |changed|);
    ReportBroadens(g.nodes, indexed, revision, changed, r);
    ReportExplains(g.nodes, indexed, revision, r);
  }

  method Conclude(affected: map<Node, Reason>, dependents: set<Node>, tests: set<string>,
                  empty: bool, stale: bool, uncovered: nat, total: nat) returns (r: Report)
    ensures r.affected == affected && r.dependents == (set n | n in dependents :: n.key) && r.tests == tests
    ensures r.uncertainty == Uncertainty(empty, stale, uncovered, total)
    ensures r.broaden <==> empty || stale || uncovered > 0
    ensures
      if r.broaden then r.advice == Broad(Why(empty, stale))
      else if affected.Keys == {} then r.advice == TestEverything
      else r.advice == Targeted(set p | p in affected :: p.key)
  {
    var u := Uncertainty(empty, stale, uncovered, total);
    ThresholdNeverDecides(empty, stale, uncovered, total);
    var broaden := empty || stale || uncovered > 0 || u >= 0.5;
    var packages := set p | p in affected :: p.key;
    var advice: Advice;
    if broaden {
      advice := Broad(
        if empty then "graph not built"
        else if stale then "graph stale vs current revision"
        else if uncovered > 0 then "change includes paths the graph does not cover"
        else "impact uncertainty above threshold");
    } else if packages == {} {
      assert forall p :: p in affected ==> p.key in packages;
      advice := TestEverything;
    } else {
      advice := Targeted(packages);
      assert exists key :: key in packages;
    }
    r := Report(affected, set n | n in dependents :: n.key, tests, u, broaden, advice);
  }

  lemma NoPackages(nodes: set<Node>, edges: set<Edge>, changed: seq<string>)
    ensures PackagesOf(nodes, edges, changed[..0]) == {} && Dependents(edges, {}) == {} && DependentPackages(edges, {}) == {}
  {
  }

  lemma OneMoreChanged(nodes: set<Node>, edges: set<Edge>, init: seq<string>, rel: string)
    ensures PackagesOf(nodes, edges, init + [rel]) ==
      PackagesOf(nodes, edges, init) + if Covered(nodes, rel) then SourcesOf(edges, {NodeOf(rel)}, Contains) else {}
  {
    hide SourcesOf, NodeOf, Covered;
    var all := init + [rel];
    assert all[|init|] == rel && forall k :: 0 <= k < |init| ==> all[k] == init[k];
    if Covered(nodes, rel) {
      assert ChangedFiles(nodes, all) == ChangedFiles(nodes, init) + {NodeOf(rel)};
      SourcesJoin(edges, ChangedFiles(nodes, init), {NodeOf(rel)}, Contains);
    } else {
      assert ChangedFiles(nodes, all) == ChangedFiles(nodes, init);
    }
  }

  lemma {:induction false} UncoveredMeans(nodes: set<Node>, changed: seq<string>)
    ensures Uncovered(nodes, changed) > 0 <==> exists k :: 0 <= k < |changed| && !Covered(nodes, changed[k])
  {
    if changed != [] {
      var init := changed[..|changed| - 1];
      UncoveredMeans(nodes, init);
      if exists k :: 0 <= k < |init| && !Covered(nodes, init[k]) {
        var k :| 0 <= k < |init| && !Covered(nodes, init[k]);
        assert !Covered(nodes, changed[k]);
      }
    }
  }

  // --------------------------------------------------- in terms of the sources

  predicate IsIndexed(tree: Tree, rel: string) {
    rel in tree && Visited(rel) && tree[rel].Some?
  }

  /** A file of the tree imports another file's package. */
  predicate ImportsPackageOf(modulePath: string, tree: Tree, importer: string, rel: string) {
    IsIndexed(tree, importer) && Package(modulePath, rel).key in tree[importer].value
  }

  lemma FileIsStored(modulePath: string, tree: Tree, rel: string)
    ensures NodeOf(rel) in FullNodes(modulePath, tree) <==> IsIndexed(tree, rel)
  {
    hide Visited;
    if IsIndexed(tree, rel) {
      assert NodeOf(rel) in WalkedNodes(modulePath, tree, rel);
    }
  }

  lemma ContainsIff(modulePath: string, tree: Tree, p: Node, rel: string)
    requires modulePath != ""
    ensures Edge(p, NodeOf(rel), Contains) in FullEdges(modulePath, tree) <==> IsIndexed(tree, rel) && p == Package(modulePath, rel)
  {
    hide Visited;
    var e := Edge(p, NodeOf(rel), Contains);
    InFull(modulePath, tree, e);
    if IsIndexed(tree, rel) && p == Package(modulePath, rel) {
      assert e in WalkedPart(modulePath, tree, rel);
    }
  }

  lemma ImportsIff(modulePath: string, tree: Tree, importer: string, rel: string)
    requires modulePath != ""
    ensures Edge(NodeOf(importer), Package(modulePath, rel), Imports) in FullEdges(modulePath, tree) <==>
      ImportsPackageOf(modulePath, tree, importer, rel)
  {
    hide Visited;
    var e := Edge(NodeOf(importer), Package(modulePath, rel), Imports);
    InFull(modulePath, tree, e);
    if ImportsPackageOf(modulePath, tree, importer, rel) {
      assert e in WalkedPart(modulePath, tree, importer);
    }
  }

  /** The end of every contains edge, and the start of every imports edge, is a file. */
  lemma EndsAreFiles(modulePath: string, tree: Tree, e: Edge) returns (rel: string)
    requires e in FullEdges(modulePath, tree) && e.kind != Tests
    ensures (if e.kind == Contains then e.target else e.source) == NodeOf(rel)
  {
    InFull(modulePath, tree, e);
    hide FullEdges, Part;
    var r :| e in WalkedPart(modulePath, tree, r);
    rel := r;
    WalkedIsPart(modulePath, tree, rel);
    PartEnds(modulePath, tree, rel, e);
  }

  lemma PartEnds(modulePath: string, tree: Tree, rel: string, e: Edge)
    requires e in Part(modulePath, tree, rel) && e.kind != Tests
    ensures (if e.kind == Contains then e.target else e.source) == NodeOf(rel)
  {
  }

  lemma ChangedPackageIff(modulePath: string, tree: Tree, changed: seq<string>, p: Node)
    requires modulePath != ""
    ensures p in PackagesOf(FullNodes(modulePath, tree), FullEdges(modulePath, tree), changed) <==>
      exists k :: 0 <= k < |changed| && IsIndexed(tree, changed[k]) && p == Package(modulePath, changed[k])
  {
    var nodes, edges := FullNodes(modulePath, tree), FullEdges(modulePath, tree);
    hide FullNodes, FullEdges, NodeOf, Package, IsIndexed, GoFile;
    if p in PackagesOf(nodes, edges, changed) {
      var e :| e in edges && e.target in ChangedFiles(nodes, changed) && e.kind == Contains && e.source == p;
      var k :| 0 <= k < |changed| && Covered(nodes, changed[k]) && e.target == NodeOf(changed[k]);
      assert e == Edge(p, NodeOf(changed[k]), Contains);
      ContainsIff(modulePath, tree, p, changed[k]);
    }
    if exists k :: 0 <= k < |changed| && IsIndexed(tree, changed[k]) && p == Package(modulePath, changed[k]) {
      var k :| 0 <= k < |changed| && IsIndexed(tree, changed[k]) && p == Package(modulePath, changed[k]);
      FileIsStored(modulePath, tree, changed[k]);
      IndexedIsGo(tree, changed[k]);
      ContainsIff(modulePath, tree, p, changed[k]);
      assert Edge(p, NodeOf(changed[k]), Contains) in edges;
    }
  }

  lemma IndexedIsGo(tree: Tree, rel: string)
    requires IsIndexed(tree, rel)
    ensures GoFile(rel)
  {
  }

  /** A file of package p imports a changed file's package. */
  predicate Reaches(modulePath: string, tree: Tree, changed: string, p: Node) {
    exists q :: q in tree && ImportsPackageOf(modulePath, tree, q, changed) && Package(modulePath, q) == p
  }

  lemma DependentPackageIff(modulePath: string, tree: Tree, changed: seq<string>, p: Node)
    requires modulePath != ""
    ensures p in DependentPackages(FullEdges(modulePath, tree),
                                   PackagesOf(FullNodes(modulePath, tree), FullEdges(modulePath, tree), changed)) <==>
      exists k :: 0 <= k < |changed| && IsIndexed(tree, changed[k]) && Reaches(modulePath, tree, changed[k], p)
  {
    var nodes, edges := FullNodes(modulePath, tree), FullEdges(modulePath, tree);
    var packages := PackagesOf(nodes, edges, changed);
    hide FullNodes, FullEdges, NodeOf, Package, IsIndexed, GoFile, PackagesOf, Reaches, ImportsPackageOf;
    if p in DependentPackages(edges, packages) {
      var e :| e in edges && e.target in Dependents(edges, packages) && e.kind == Contains && e.source == p;
      var f :| f in edges && f.target in packages && f.kind == Imports && f.source == e.target;
      var q := EndsAreFiles(modulePath, tree, f);
      ChangedPackageIff(modulePath, tree, changed, f.target);
      var k :| 0 <= k < |changed| && IsIndexed(tree, changed[k]) && f.target == Package(modulePath, changed[k]);
      assert f == Edge(NodeOf(q), Package(modulePath, changed[k]), Imports);
      ImportsIff(modulePath, tree, q, changed[k]);
      assert e == Edge(p, NodeOf(q), Contains);
      ContainsIff(modulePath, tree, p, q);
      ReachesBy(modulePath, tree, changed[k], q, p);
    }
    if exists k :: 0 <= k < |changed| && IsIndexed(tree, changed[k]) && Reaches(modulePath, tree, changed[k], p) {
      var k :| 0 <= k < |changed| && IsIndexed(tree, changed[k]) && Reaches(modulePath, tree, changed[k], p);
      var q := Importer(modulePath, tree, changed[k], p);
      ChangedPackageIff(modulePath, tree, changed, Package(modulePath, changed[k]));
      ImportsIff(modulePath, tree, q, changed[k]);
      ContainsIff(modulePath, tree, p, q);
      assert Edge(NodeOf(q), Package(modulePath, changed[k]), Imports) in edges;
      assert NodeOf(q) in Dependents(edges, packages);
      assert Edge(p, NodeOf(q), Contains) in edges;
    }
  }

  lemma ReachesBy(modulePath: string, tree: Tree, changed: string, q: string, p: Node)
    requires ImportsPackageOf(modulePath, tree, q, changed) && Package(modulePath, q) == p
    ensures Reaches(modulePath, tree, changed, p)
  {
    hide Package;
  }

  lemma Importer(modulePath: string, tree: Tree, changed: string, p: Node) returns (q: string)
    requires Reaches(modulePath, tree, changed, p)
    ensures ImportsPackageOf(modulePath, tree, q, changed) && Package(modulePath, q) == p && IsIndexed(tree, q)
  {
    hide Package;
    var r :| r in tree && ImportsPackageOf(modulePath, tree, r, changed) && Package(modulePath, r) == p;
    q := r;
  }

  /** On the graph of a tree, the related tests of some changed files are exactly the
      indexed test files in a changed file's package, or in a package one of whose
      files imports a changed file's package. */
  lemma RelatedTestsMean(modulePath: string, tree: Tree, changed: seq<string>, affected: map<Node, Reason>, dependents: set<Node>, t: string)
    requires modulePath != ""
    requires Collected(FullEdges(modulePath, tree),
                       PackagesOf(FullNodes(modulePath, tree), FullEdges(modulePath, tree), changed), affected, dependents)
    ensures t in TestsIn(FullEdges(modulePath, tree), affected.Keys) <==>
      && IsIndexed(tree, t) && HasSuffix(t, "_test.go")
      && exists k :: 0 <= k < |changed| && IsIndexed(tree, changed[k])
           && (Package(modulePath, t) == Package(modulePath, changed[k])
               || Reaches(modulePath, tree, changed[k], Package(modulePath, t)))
  {
    var edges := FullEdges(modulePath, tree);
    var p := Package(modulePath, t);
    ChangedPackageIff(modulePath, tree, changed, p);
    DependentPackageIff(modulePath, tree, changed, p);
    TestIff(modulePath, tree, affected.Keys, t);
    hide FullNodes, FullEdges, Package, IsIndexed, PackagesOf, Reaches, DependentPackages, TestsIn, HasSuffix, Dependents;
  }

  lemma TestIff(modulePath: string, tree: Tree, packages: set<Node>, t: string)
    requires modulePath != ""
    ensures t in TestsIn(FullEdges(modulePath, tree), packages) <==>
      IsIndexed(tree, t) && HasSuffix(t, "_test.go") && Package(modulePath, t) in packages
  {
    var edges := FullEdges(modulePath, tree);
    hide FullEdges, IsIndexed, Package, HasSuffix;
    if t in TestsIn(edges, packages) {
      var e :| e in edges && e.source in packages && e.kind == Contains && e.target.kind == TestNode && e.target.key == t;
      var rel := EndsAreFiles(modulePath, tree, e);
      assert e == Edge(e.source, NodeOf(t), Contains);
      ContainsIff(modulePath, tree, e.source, t);
    }
    ContainsIff(modulePath, tree, Package(modulePath, t), t);
    if IsIndexed(tree, t) && HasSuffix(t, "_test.go") && Package(modulePath, t) in packages {
      assert Edge(Package(modulePath, t), NodeOf(t), Contains) in edges;
      assert NodeOf(t) in TargetsOf(edges, packages, Contains);
    }
  }
}
