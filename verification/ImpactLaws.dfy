/** The impact graph and its analysis in terms of paths split at their slashes: which
    directory is which package, which files the walk visits, and what a change to a
    directory's files reaches. */
module ImpactLaws {
  import opened Text
  import opened Paths
  import opened Impact
  import opened ImpactAnalysis
  import ImpactIndexer

  /** The names of the directories a path leads through. */
  function DirNames(rel: string): seq<string> {
    SplitSlash(rel)[..|SplitSlash(rel)| - 1]
  }

  function BaseName(rel: string): string {
    SplitSlash(rel)[|SplitSlash(rel)| - 1]
  }

  /** A path as the walk gives it: proper names between the slashes. */
  predicate Plain(rel: string) {
    Names(SplitSlash(rel))
  }

  /** The module's path, or one of its packages' by directory. */
  function ImportPath(modulePath: string, dirs: seq<string>): string {
    JoinSlash([modulePath] + dirs)
  }

  // ------------------------------------------------------- paths and packages

  lemma {:induction false} JoinSplit(path: string)
    ensures JoinSlash(SplitSlash(path)) == path
  {
    if path != "" {
      JoinSplit(path[1..]);
      var rest := SplitSlash(path[1..]);
      if path[0] == '/' {
        assert ([""] + rest)[1..] == rest;
        assert path == "/" + path[1..];
      } else {
        assert path == [path[0]] + path[1..];
        if |rest| > 1 {
          assert ([[path[0]] + rest[0]] + rest[1..])[1..] == rest[1..];
        }
      }
    }
  }

  lemma {:induction false} JoinLast(dirs: seq<string>, name: string)
    requires dirs != []
    ensures JoinSlash(dirs + [name]) == JoinSlash(dirs) + "/" + name
    decreases |dirs|
  {
    assert (dirs + [name])[1..] == dirs[1..] + [name];
    if |dirs| > 1 {
      JoinLast(dirs[1..], name);
    } else {
      assert dirs[1..] + [name] == [name];
    }
  }

  lemma {:induction false} NameStartIs(dir: string, name: string)
    requires '/' !in name
    ensures NameStart(dir + "/" + name) == |dir| + 1
  {
    var path := dir + "/" + name;
    if name == "" {
      assert path[|path| - 1] == '/';
    } else {
      var init := name[..|name| - 1];
      assert path[..|path| - 1] == dir + "/" + init && path[|path| - 1] == name[|name| - 1];
      NameStartIs(dir, init);
    }
  }

  lemma {:induction false} NoDirectory(name: string)
    requires '/' !in name
    ensures NameStart(name) == 0
  {
    if name != "" {
      NoDirectory(name[..|name| - 1]);
    }
  }

  /** The path is its directories' path, a slash and its base name. */
  lemma PathParts(rel: string)
    requires Plain(rel)
    ensures Name(BaseName(rel)) && Names(DirNames(rel))
    ensures rel == if DirNames(rel) == [] then BaseName(rel) else JoinSlash(DirNames(rel)) + "/" + BaseName(rel)
  {
    var names := SplitSlash(rel);
    JoinSplit(rel);
    assert names == DirNames(rel) + [BaseName(rel)];
    if DirNames(rel) != [] {
      JoinLast(DirNames(rel), BaseName(rel));
    }
  }

  /** The directory of a plain path is its directories joined, or ".". */
  lemma DirIs(rel: string)
    requires Plain(rel)
    ensures Dir(rel) == if DirNames(rel) == [] then "." else JoinSlash(DirNames(rel))
    ensures DirNames(rel) != [] ==> Dir(rel) != "."
  {
    PathParts(rel);
    var dirs, name := DirNames(rel), BaseName(rel);
    hide DirNames, BaseName, SplitSlash;
    if dirs == [] {
      NoDirectory(name);
    } else {
      NameStartIs(JoinSlash(dirs), name);
      assert (JoinSlash(dirs) + "/" + name)[..|JoinSlash(dirs)|] == JoinSlash(dirs);
      JoinedIsNotDot(dirs);
    }
  }

  lemma JoinedIsNotDot(names: seq<string>)
    requires names != [] && Names(names)
    ensures JoinSlash(names) != "."
  {
    SplitJoinSlash(names);
    assert Name(names[0]);
    SplitName(".");
  }

  /** A file belongs to the package that its directories name under the module. */
  lemma PackageIs(modulePath: string, rel: string)
    requires Plain(rel)
    ensures Package(modulePath, rel) == Node(PackageNode, ImportPath(modulePath, DirNames(rel)))
  {
    DirIs(rel);
    var dirs := DirNames(rel);
    assert ([modulePath] + dirs)[1..] == dirs;
  }

  /** Different directories are different packages. */
  lemma PackagesDiffer(modulePath: string, a: seq<string>, b: seq<string>)
    requires Names(a) && Names(b)
    ensures ImportPath(modulePath, a) == ImportPath(modulePath, b) <==> a == b
  {
    assert ([modulePath] + a)[1..] == a && ([modulePath] + b)[1..] == b;
    if a != [] {
      SplitJoinSlash(a);
      assert a != [] ==> ImportPath(modulePath, a)[|modulePath| + 1..] == JoinSlash(a);
    }
    if b != [] {
      SplitJoinSlash(b);
      assert b != [] ==> ImportPath(modulePath, b)[|modulePath| + 1..] == JoinSlash(b);
    }
  }

  // ------------------------------------------------------------------- the walk

  /** A directory name at which the walk turns back. */
  predicate Skipped(name: string) {
    || name == "vendor" || name == "node_modules" || name == ".git" || name == "dist" || name == "bin"
    || name == ".aux" || (name != "" && name[0] == '.')
  }

  lemma SkipIs(name: string)
    requires Name(name)
    ensures SkipDir(name) <==> Skipped(name)
  {
    assert HasPrefix(name, ".") <==> name[..1] == ".";
  }

  lemma EnterTop(name: string)
    requires Name(name)
    ensures Entered(name) <==> !Skipped(name)
  {
    NoDirectory(name);
    SkipIs(name);
    assert name[0..] == name;
  }

  lemma EnterBelow(dir: string, name: string)
    requires Name(name)
    ensures Entered(dir + "/" + name) <==> !Skipped(name) && Entered(dir)
  {
    var path := dir + "/" + name;
    NameStartIs(dir, name);
    SkipIs(name);
    hide NameStart, SkipDir, Skipped;
    assert path[|dir| + 1..] == name && path[..|dir|] == dir && path[|dir|] == '/';
  }

  lemma {:induction false} EnteredIs(dirs: seq<string>)
    requires dirs != [] && Names(dirs)
    ensures Entered(JoinSlash(dirs)) <==> forall k :: 0 <= k < |dirs| ==> !Skipped(dirs[k])
    decreases |dirs|
  {
    var init, last := dirs[..|dirs| - 1], dirs[|dirs| - 1];
    assert dirs == init + [last] && Name(last);
    hide Entered, Skipped, Name;
    if init == [] {
      assert JoinSlash(dirs) == last;
      EnterTop(last);
    } else {
      JoinLast(init, last);
      EnterBelow(JoinSlash(init), last);
      EnteredIs(init);
    }
  }

  /** The walk visits exactly the Go files none of whose directories is skipped. */
  lemma VisitedIff(rel: string)
    requires Plain(rel)
    ensures Visited(rel) <==> HasSuffix(rel, ".go") && forall k :: 0 <= k < |DirNames(rel)| ==> !Skipped(DirNames(rel)[k])
  {
    DirIs(rel);
    PathParts(rel);
    hide DirNames, SplitSlash, Skipped, BaseName;
    if DirNames(rel) != [] {
      EnteredIs(DirNames(rel));
    }
  }

  // ------------------------------------------------------------------ the graph

  /** The file is there, parses, and is visited by the walk. */
  predicate Listed(tree: Tree, rel: string) {
    rel in tree && tree[rel].Some? && Visited(rel)
  }

  function FileAt(rel: string): Node {
    Node(if HasSuffix(rel, "_test.go") then TestNode else FileNode, rel)
  }

  function PackageAt(modulePath: string, dirs: seq<string>): Node {
    Node(PackageNode, ImportPath(modulePath, dirs))
  }

  predicate PlainTree(tree: Tree) {
    forall rel :: rel in tree ==> Plain(rel)
  }

  /** Every indexed file is contained in the package of its directories and in no
      other; a test file tests that package and no other. */
  lemma ContainedIn(modulePath: string, tree: Tree, rel: string, p: Node)
    requires modulePath != "" && Plain(rel)
    ensures Edge(p, FileAt(rel), Contains) in FullEdges(modulePath, tree) <==>
      Listed(tree, rel) && p == PackageAt(modulePath, DirNames(rel))
    ensures Edge(FileAt(rel), p, Tests) in FullEdges(modulePath, tree) <==>
      Listed(tree, rel) && HasSuffix(rel, "_test.go") && p == PackageAt(modulePath, DirNames(rel))
  {
    PackageIs(modulePath, rel);
    ContainsIff(modulePath, tree, p, rel);
    TestsEdgeIff(modulePath, tree, p, rel);
    hide Visited, FullEdges, DirNames, ImportPath, Package;
  }

  lemma TestsEdgeIff(modulePath: string, tree: Tree, p: Node, rel: string)
    requires modulePath != ""
    ensures Edge(NodeOf(rel), p, Tests) in FullEdges(modulePath, tree) <==>
      IsIndexed(tree, rel) && NodeOf(rel).kind == TestNode && p == Package(modulePath, rel)
  {
    hide Visited, Package;
    var e := Edge(NodeOf(rel), p, Tests);
    InFull(modulePath, tree, e);
    if IsIndexed(tree, rel) && NodeOf(rel).kind == TestNode && p == Package(modulePath, rel) {
      assert e in WalkedPart(modulePath, tree, rel);
    }
  }

  /** An indexed file imports exactly the packages it names whose paths start with the
      module's. */
  lemma ImportsOf(modulePath: string, tree: Tree, rel: string, path: string)
    requires modulePath != ""
    ensures Edge(FileAt(rel), Node(PackageNode, path), Imports) in FullEdges(modulePath, tree) <==>
      Listed(tree, rel) && path in tree[rel].value && HasPrefix(path, modulePath)
  {
    hide Visited;
    var e := Edge(FileAt(rel), Node(PackageNode, path), Imports);
    InFull(modulePath, tree, e);
    if Listed(tree, rel) && path in tree[rel].value && HasPrefix(path, modulePath) {
      assert e in WalkedPart(modulePath, tree, rel);
    }
  }

  predicate Mentions(modulePath: string, tree: Tree, rel: string, n: Node)
    requires Listed(tree, rel)
  {
    || n == FileAt(rel) || n == PackageAt(modulePath, DirNames(rel))
    || (n.kind == PackageNode && n.key in tree[rel].value && HasPrefix(n.key, modulePath))
  }

  lemma FileMentions(modulePath: string, tree: Tree, rel: string, n: Node)
    requires modulePath != "" && PlainTree(tree) && rel in tree
    ensures n in WalkedNodes(modulePath, tree, rel) <==> Listed(tree, rel) && Mentions(modulePath, tree, rel, n)
  {
    PackageIs(modulePath, rel);
    hide Visited, DirNames, ImportPath, Package, Plain;
  }

  /** The nodes are the indexed files, their packages and the packages they import. */
  lemma NodesAre(modulePath: string, tree: Tree, n: Node)
    requires modulePath != "" && PlainTree(tree)
    ensures n in FullNodes(modulePath, tree) <==> exists rel :: Listed(tree, rel) && Mentions(modulePath, tree, rel, n)
  {
    hide Visited, WalkedNodes, Mentions, PlainTree;
    forall rel | rel in tree
      ensures n in WalkedNodes(modulePath, tree, rel) <==> Listed(tree, rel) && Mentions(modulePath, tree, rel, n)
    {
      FileMentions(modulePath, tree, rel, n);
    }
  }

  // --------------------------------------------------------------- the analysis

  lemma PackagesStartWithModule(modulePath: string, dirs: seq<string>)
    ensures HasPrefix(ImportPath(modulePath, dirs), modulePath)
  {
    assert ([modulePath] + dirs)[1..] == dirs;
  }

  /** A listed file imports the package of the file's directory. */
  predicate ImportsDirOf(modulePath: string, tree: Tree, importer: string, rel: string) {
    Listed(tree, importer) && ImportPath(modulePath, DirNames(rel)) in tree[importer].value
  }

  lemma SamePackage(modulePath: string, a: string, b: string)
    requires Plain(a) && Plain(b)
    ensures Package(modulePath, a) == Package(modulePath, b) <==> DirNames(a) == DirNames(b)
  {
    PackageIs(modulePath, a);
    PackageIs(modulePath, b);
    PathParts(a);
    PathParts(b);
    hide DirNames, ImportPath, Package, Plain;
    PackagesDiffer(modulePath, DirNames(a), DirNames(b));
  }

  lemma ImportsDirIs(modulePath: string, tree: Tree, importer: string, rel: string)
    requires Plain(rel)
    ensures ImportsPackageOf(modulePath, tree, importer, rel) <==> ImportsDirOf(modulePath, tree, importer, rel)
  {
    PackageIs(modulePath, rel);
    hide DirNames, ImportPath, Package, Plain, Visited;
  }

  /** A file is reported as a dependent exactly when it imports the package of the
      directory of an indexed changed file. */
  lemma DependentsAre(modulePath: string, tree: Tree, changed: seq<string>, q: string)
    requires modulePath != "" && PlainTree(tree)
    ensures
      var packages := PackagesOf(FullNodes(modulePath, tree), FullEdges(modulePath, tree), changed);
      q in (set n | n in Dependents(FullEdges(modulePath, tree), packages) :: n.key) <==>
        exists k :: 0 <= k < |changed| && Listed(tree, changed[k]) && ImportsDirOf(modulePath, tree, q, changed[k])
  {
    var nodes, edges := FullNodes(modulePath, tree), FullEdges(modulePath, tree);
    var packages := PackagesOf(nodes, edges, changed);
    hide FullNodes, FullEdges, Package, Visited, GoFile, PackagesOf, DirNames, ImportPath, Plain;
    if n :| n in Dependents(edges, packages) && n.key == q {
      var f :| f in edges && f.target in packages && f.kind == Imports && f.source == n;
      var rel := EndsAreFiles(modulePath, tree, f);
      ChangedPackageIff(modulePath, tree, changed, f.target);
      var k :| 0 <= k < |changed| && IsIndexed(tree, changed[k]) && f.target == Package(modulePath, changed[k]);
      assert f == Edge(NodeOf(q), Package(modulePath, changed[k]), Imports);
      ImportsIff(modulePath, tree, q, changed[k]);
      ImportsDirIs(modulePath, tree, q, changed[k]);
      assert Listed(tree, changed[k]);
    }
    if k :| 0 <= k < |changed| && Listed(tree, changed[k]) && ImportsDirOf(modulePath, tree, q, changed[k]) {
      ImportsDirIs(modulePath, tree, q, changed[k]);
      ImportsIff(modulePath, tree, q, changed[k]);
      ChangedPackageIff(modulePath, tree, changed, Package(modulePath, changed[k]));
      assert IsIndexed(tree, changed[k]);
      var f := Edge(NodeOf(q), Package(modulePath, changed[k]), Imports);
      assert f in edges && f.target in packages && f.source in Dependents(edges, packages);
    }
  }

  /** The packages of indexed changed files, and of the files that import one. */
  lemma AffectedAre(
    modulePath: string, tree: Tree, changed: seq<string>, affected: map<Node, Reason>, dependents: set<Node>, p: Node)
    requires modulePath != "" && PlainTree(tree)
    requires Collected(FullEdges(modulePath, tree),
                       PackagesOf(FullNodes(modulePath, tree), FullEdges(modulePath, tree), changed), affected, dependents)
    ensures p in affected <==> exists k :: 0 <= k < |changed| && Listed(tree, changed[k]) && Affects(modulePath, tree, changed[k], p)
  {
    ChangedPackageIff(modulePath, tree, changed, p);
    DependentPackageIff(modulePath, tree, changed, p);
    hide FullNodes, FullEdges, PackagesOf, DependentPackages, Dependents, Reaches, Package, Visited, Affects;
    forall k | 0 <= k < |changed| && Listed(tree, changed[k])
      ensures Affects(modulePath, tree, changed[k], p) <==>
        p == Package(modulePath, changed[k]) || Reaches(modulePath, tree, changed[k], p)
    {
      AffectsIs(modulePath, tree, changed[k], p);
    }
    forall k ensures 0 <= k < |changed| ==> (Listed(tree, changed[k]) <==> IsIndexed(tree, changed[k])) {
    }
  }

  /** The package is the changed file's, or some file of it imports that package. */
  predicate Affects(modulePath: string, tree: Tree, changed: string, p: Node) {
    || p == PackageAt(modulePath, DirNames(changed))
    || exists q :: q in tree && ImportsDirOf(modulePath, tree, q, changed) && p == PackageAt(modulePath, DirNames(q))
  }

  lemma AffectsIs(modulePath: string, tree: Tree, changed: string, p: Node)
    requires PlainTree(tree) && Plain(changed)
    ensures Affects(modulePath, tree, changed, p) <==>
      p == Package(modulePath, changed) || Reaches(modulePath, tree, changed, p)
  {
    PackageIs(modulePath, changed);
    hide Package, DirNames, ImportPath, Plain, Visited, ImportsDirOf, ImportsPackageOf;
    forall q | q in tree
      ensures ImportsPackageOf(modulePath, tree, q, changed) <==> ImportsDirOf(modulePath, tree, q, changed)
      ensures Package(modulePath, q) == PackageAt(modulePath, DirNames(q))
    {
      ImportsDirIs(modulePath, tree, q, changed);
      PackageIs(modulePath, q);
    }
  }

  /** The related tests of some changed files: the indexed test files in an indexed
      changed file's directory, or in a directory one of whose files imports that
      directory's package. */
  lemma RelatedTestsAre(
    modulePath: string, tree: Tree, changed: seq<string>, affected: map<Node, Reason>, dependents: set<Node>, t: string)
    requires modulePath != "" && PlainTree(tree)
    requires Collected(FullEdges(modulePath, tree),
                       PackagesOf(FullNodes(modulePath, tree), FullEdges(modulePath, tree), changed), affected, dependents)
    ensures t in TestsIn(FullEdges(modulePath, tree), affected.Keys) <==>
      && Listed(tree, t) && HasSuffix(t, "_test.go")
      && exists k :: 0 <= k < |changed| && Listed(tree, changed[k]) && NearTo(modulePath, tree, changed[k], t)
  {
    hide *;
    RelatedTestsMean(modulePath, tree, changed, affected, dependents, t);
    IndexedIsListed(tree);
    forall k | 0 <= k < |changed| && Listed(tree, changed[k]) && Listed(tree, t)
      ensures NearTo(modulePath, tree, changed[k], t) <==>
        Package(modulePath, t) == Package(modulePath, changed[k]) || Reaches(modulePath, tree, changed[k], Package(modulePath, t))
    {
      NearIs(modulePath, tree, changed[k], t);
    }
  }

  lemma IndexedIsListed(tree: Tree)
    ensures forall rel :: IsIndexed(tree, rel) <==> Listed(tree, rel)
  {
    hide Visited;
  }

  /** In the changed file's directory, or in that of a file that imports its package. */
  predicate NearTo(modulePath: string, tree: Tree, changed: string, t: string) {
    || DirNames(t) == DirNames(changed)
    || exists q :: q in tree && ImportsDirOf(modulePath, tree, q, changed) && DirNames(q) == DirNames(t)
  }

  lemma NearIs(modulePath: string, tree: Tree, changed: string, t: string)
    requires PlainTree(tree) && Listed(tree, changed) && Listed(tree, t)
    ensures NearTo(modulePath, tree, changed, t) <==>
      Package(modulePath, t) == Package(modulePath, changed) || Reaches(modulePath, tree, changed, Package(modulePath, t))
  {
    SamePackage(modulePath, t, changed);
    hide Package, DirNames, ImportPath, Plain, Visited, ImportsDirOf, ImportsPackageOf;
    forall q | q in tree
      ensures ImportsPackageOf(modulePath, tree, q, changed) <==> ImportsDirOf(modulePath, tree, q, changed)
      ensures Package(modulePath, q) == Package(modulePath, t) <==> DirNames(q) == DirNames(t)
    {
      ImportsDirIs(modulePath, tree, q, changed);
      SamePackage(modulePath, q, t);
    }
  }

  /** The files a full build counts. */
  lemma IndexedAre(tree: Tree)
    ensures ImpactIndexer.Indexed(tree, tree.Keys) == set rel | rel in tree && Listed(tree, rel)
  {
    IndexedIsListed(tree);
    hide Visited, Listed;
  }

  /** Without a module path there are no packages: the graph is the indexed files, and
      nothing is joined to anything. */
  lemma WithoutModule(tree: Tree, n: Node)
    ensures FullEdges("", tree) == {}
    ensures n in FullNodes("", tree) <==>
      exists rel :: Listed(tree, rel) && n == Node(if HasSuffix(rel, "_test.go") then TestNode else FileNode, rel)
  {
    IndexedIsListed(tree);
    hide Visited, Listed;
    if n in FullNodes("", tree) {
      var rel :| rel in tree && n in WalkedNodes("", tree, rel);
      assert IsIndexed(tree, rel);
    }
    if rel :| Listed(tree, rel) && n == Node(if HasSuffix(rel, "_test.go") then TestNode else FileNode, rel) {
      assert IsIndexed(tree, rel);
      assert n in WalkedNodes("", tree, rel);
    }
  }
}
