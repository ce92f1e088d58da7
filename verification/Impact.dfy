/** The impact graph of a Go module: what one file contributes, what a full build
    contains, and what an incremental update does to it. */
module Impact {
  import opened Basics
  import opened Text
  import opened Paths

  datatype Kind = FileNode | TestNode | PackageNode

  /** A node is identified by its type and stable key. */
  datatype Node = Node(kind: Kind, key: string)

  datatype EdgeKind = Contains | Tests | Imports

  /** An edge is identified by its ends and its type. */
  datatype Edge = Edge(source: Node, target: Node, kind: EdgeKind)

  /** The files below the root by clean relative path, with their import paths if
      they parse. */
  type Tree = map<string, Option<seq<string>>>

  predicate HasSuffix(s: string, suffix: string) {
    |suffix| <= |s| && s[|s| - |suffix|..] == suffix
  }

  function FileNodeType(rel: string): Kind {
    if HasSuffix(rel, "_test.go") then TestNode else FileNode
  }

  function NodeOf(rel: string): Node {
    Node(FileNodeType(rel), rel)
  }

  /** The position just behind the last slash; 0 if there is none. */
  function NameStart(path: string): (r: nat)
    ensures r <= |path| && (r > 0 ==> path[r - 1] == '/') && forall k :: r <= k < |path| ==> path[k] != '/'
  {
    if path == "" then 0
    else if path[|path| - 1] == '/' then |path|
    else NameStart(path[..|path| - 1])
  }

  /** The directory of a clean relative path. */
  function Dir(path: string): string {
    if NameStart(path) == 0 then "." else path[..NameStart(path) - 1]
  }

  predicate SkipDir(name: string) {
    || name in ["vendor", "node_modules", ".git", "dist", "bin", ".aux"]
    || (HasPrefix(name, ".") && name != ".")
  }

  /** The walk enters the directory: no part of its path is skipped. */
  predicate Entered(dir: string)
    decreases |dir|
  {
    dir == "." || (!SkipDir(dir[NameStart(dir)..]) && (NameStart(dir) == 0 || Entered(dir[..NameStart(dir) - 1])))
  }

  predicate GoFile(rel: string) {
    HasSuffix(rel, ".go")
  }

  predicate Visited(rel: string) {
    GoFile(rel) && Entered(Dir(rel))
  }

  function Package(modulePath: string, rel: string): Node {
    Node(PackageNode, if Dir(rel) == "." then modulePath else modulePath + "/" + Dir(rel))
  }

  /** Imports are followed when they start with the module's path. */
  predicate Internal(modulePath: string, path: string) {
    modulePath != "" && HasPrefix(path, modulePath)
  }

  /** The edges that indexing one parsed file adds. */
  function FileEdges(modulePath: string, rel: string, imports: seq<string>): set<Edge> {
    (if modulePath == "" then {}
     else {Edge(Package(modulePath, rel), NodeOf(rel), Contains)}
          + if NodeOf(rel).kind == TestNode then {Edge(NodeOf(rel), Package(modulePath, rel), Tests)} else {})
    + ImportEdges(modulePath, rel, imports)
  }

  function ImportEdges(modulePath: string, rel: string, imports: seq<string>): set<Edge> {
    set path | path in imports && Internal(modulePath, path) :: Edge(NodeOf(rel), Node(PackageNode, path), Imports)
  }

  /** The nodes that indexing one parsed file makes sure of. */
  function FileNodes(modulePath: string, rel: string, imports: seq<string>): set<Node> {
    {NodeOf(rel)} + (if modulePath == "" then {} else {Package(modulePath, rel)})
    + set path | path in imports && Internal(modulePath, path) :: Node(PackageNode, path)
  }

  /** What a file contributes to the graph if it is indexed at all. */
  function Part(modulePath: string, tree: Tree, rel: string): set<Edge> {
    if rel in tree && tree[rel].Some? then FileEdges(modulePath, rel, tree[rel].value) else {}
  }

  function NodePart(modulePath: string, tree: Tree, rel: string): set<Node> {
    if rel in tree && tree[rel].Some? then FileNodes(modulePath, rel, tree[rel].value) else {}
  }

  /** What a file contributes to a full build, which only reaches visited files. */
  function WalkedPart(modulePath: string, tree: Tree, rel: string): set<Edge> {
    if Visited(rel) then Part(modulePath, tree, rel) else {}
  }

  function WalkedNodes(modulePath: string, tree: Tree, rel: string): set<Node> {
    if Visited(rel) then NodePart(modulePath, tree, rel) else {}
  }

  /** The graph of a full build from an empty store. */
  function FullEdges(modulePath: string, tree: Tree): set<Edge> {
    set rel, e | rel in tree && e in WalkedPart(modulePath, tree, rel) :: e
  }

  function FullNodes(modulePath: string, tree: Tree): set<Node> {
    set rel, n | rel in tree && n in WalkedNodes(modulePath, tree, rel) :: n
  }

  predicate Incident(e: Edge, n: Node) {
    e.source == n || e.target == n
  }

  function Without(edges: set<Edge>, n: Node): set<Edge> {
    set e | e in edges && !Incident(e, n)
  }

  /** The trees below a root: every file goes by the path the walk gives it. */
  predicate Walked(root: seq<string>, tree: Tree) {
    forall rel :: rel in tree ==> Resolve(root, rel) == rel
  }

  /** One changed path. The edges are cleared at the path as it is given, and added
      for the path as it is resolved. */
  function ReindexOne(root: seq<string>, modulePath: string, tree: Tree, edges: set<Edge>, rel: string): set<Edge> {
    if !GoFile(rel) then edges
    else Without(edges, NodeOf(rel)) + Part(modulePath, tree, Resolve(root, rel))
  }

  function Reindexed(root: seq<string>, modulePath: string, tree: Tree, edges: set<Edge>, changed: seq<string>): set<Edge> {
    if changed == [] then edges
    else
      var init := changed[..|changed| - 1];
      ReindexOne(root, modulePath, tree, Reindexed(root, modulePath, tree, edges, init), changed[|changed| - 1])
  }

  /** The nodes an update makes sure of; it never removes one. */
  function ReindexedNodes(root: seq<string>, modulePath: string, tree: Tree, nodes: set<Node>, changed: seq<string>): set<Node> {
    nodes + set k, n | 0 <= k < |changed| && GoFile(changed[k]) && n in NodePart(modulePath, tree, Resolve(root, changed[k])) :: n
  }

  // ------------------------------------------------------------------- laws

  /** A file's edges touch the node of that file and of no other file. */
  lemma EdgesTouchTheirFile(modulePath: string, rel: string, imports: seq<string>, e: Edge, other: string)
    requires e in FileEdges(modulePath, rel, imports)
    ensures Incident(e, NodeOf(other)) <==> other == rel
  {
  }

  lemma PartTouches(modulePath: string, tree: Tree, rel: string, e: Edge, other: string)
    requires e in Part(modulePath, tree, rel)
    ensures Incident(e, NodeOf(other)) <==> other == rel
  {
    EdgesTouchTheirFile(modulePath, rel, tree[rel].value, e, other);
  }

  /** What is left of the old edges after the changed files' edges are cleared. */
  function Untouched(edges: set<Edge>, changed: seq<string>): set<Edge> {
    set e | e in edges && forall k :: 0 <= k < |changed| && GoFile(changed[k]) ==> !Incident(e, NodeOf(changed[k]))
  }

  function NewParts(root: seq<string>, modulePath: string, tree: Tree, changed: seq<string>): set<Edge> {
    set k, e | 0 <= k < |changed| && GoFile(changed[k]) && e in Part(modulePath, tree, Resolve(root, changed[k])) :: e
  }

  lemma UntouchedStep(edges: set<Edge>, init: seq<string>, rel: string)
    ensures Untouched(edges, init + [rel]) ==
      if GoFile(rel) then Without(Untouched(edges, init), NodeOf(rel)) else Untouched(edges, init)
  {
    hide Incident, NodeOf, GoFile;
    var all := init + [rel];
    forall e ensures e in Untouched(edges, all) <==>
      e in Untouched(edges, init) && (GoFile(rel) ==> !Incident(e, NodeOf(rel)))
    {
      if e in Untouched(edges, all) {
        assert all[|init|] == rel;
        forall k | 0 <= k < |init| && GoFile(init[k]) ensures !Incident(e, NodeOf(init[k])) {
          assert all[k] == init[k];
        }
      }
    }
  }

  lemma NewPartsStep(root: seq<string>, modulePath: string, tree: Tree, init: seq<string>, rel: string)
    ensures NewParts(root, modulePath, tree, init + [rel]) ==
      NewParts(root, modulePath, tree, init) + if GoFile(rel) then Part(modulePath, tree, Resolve(root, rel)) else {}
  {
    hide Part, GoFile, Resolve;
    var all := init + [rel];
    assert all[|init|] == rel && forall k :: 0 <= k < |init| ==> all[k] == init[k];
  }

  lemma PartIsThere(modulePath: string, tree: Tree, rel: string, e: Edge)
    requires e in Part(modulePath, tree, rel)
    ensures rel in tree
  {
  }

  /** What clearing a file takes from files already updated is put back. */
  lemma ClearedComesBack(root: seq<string>, modulePath: string, tree: Tree, init: seq<string>, rel: string)
    requires Walked(root, tree)
    ensures
      var own := Part(modulePath, tree, Resolve(root, rel));
      Without(NewParts(root, modulePath, tree, init), NodeOf(rel)) + own == NewParts(root, modulePath, tree, init) + own
  {
    hide Part, Incident, NodeOf, GoFile, Resolve;
    forall e | e in NewParts(root, modulePath, tree, init) && Incident(e, NodeOf(rel))
      ensures e in Part(modulePath, tree, Resolve(root, rel))
    {
      var k :| 0 <= k < |init| && GoFile(init[k]) && e in Part(modulePath, tree, Resolve(root, init[k]));
      PartTouches(modulePath, tree, Resolve(root, init[k]), e, rel);
      PartIsThere(modulePath, tree, rel, e);
    }
  }

  /** An update clears the edges at each changed path and adds its file's new ones,
      whatever the store held, in whatever order and however often files are named. */
  lemma {:induction false} ReindexedMeans(root: seq<string>, modulePath: string, tree: Tree, edges: set<Edge>, changed: seq<string>)
    requires Walked(root, tree)
    ensures Reindexed(root, modulePath, tree, edges, changed) ==
      Untouched(edges, changed) + NewParts(root, modulePath, tree, changed)
  {
    if changed != [] {
      var init, rel := changed[..|changed| - 1], changed[|changed| - 1];
      ReindexedMeans(root, modulePath, tree, edges, init);
      hide Part, Incident, NodeOf, GoFile, Untouched, NewParts, Resolve, Walked;
      UntouchedStep(edges, init, rel);
      NewPartsStep(root, modulePath, tree, init, rel);
      ClearedComesBack(root, modulePath, tree, init, rel);
      assert changed == init + [rel];
    }
  }

  // ------------------------------------------- incremental against full builds

  /** The file's node is one whose edges are cleared. */
  predicate Named(changed: seq<string>, rel: string) {
    GoFile(rel) && rel in changed
  }

  /** The file is one a changed path means, however it is written. */
  predicate Meant(root: seq<string>, changed: seq<string>, rel: string) {
    exists k :: 0 <= k < |changed| && GoFile(changed[k]) && Resolve(root, changed[k]) == rel
  }

  /** What a file has contributed once the changed files are updated. */
  function UpdatedPart(root: seq<string>, modulePath: string, before: Tree, after: Tree, changed: seq<string>, rel: string): set<Edge> {
    (if Named(changed, rel) then {} else WalkedPart(modulePath, before, rel))
    + if Meant(root, changed, rel) then Part(modulePath, after, rel) else {}
  }

  lemma InFull(modulePath: string, tree: Tree, e: Edge)
    ensures e in FullEdges(modulePath, tree) <==> exists rel :: e in WalkedPart(modulePath, tree, rel)
  {
    hide FileEdges;
  }

  lemma WalkedIsPart(modulePath: string, tree: Tree, rel: string)
    ensures WalkedPart(modulePath, tree, rel) <= Part(modulePath, tree, rel)
  {
    hide Part;
  }

  /** An edge of the updated graph is one some file contributes. */
  lemma FromUpdated(root: seq<string>, modulePath: string, before: Tree, after: Tree, changed: seq<string>, e: Edge) returns (rel: string)
    requires Walked(root, after) && e in Reindexed(root, modulePath, after, FullEdges(modulePath, before), changed)
    ensures e in UpdatedPart(root, modulePath, before, after, changed, rel)
  {
    var full := FullEdges(modulePath, before);
    ReindexedMeans(root, modulePath, after, full, changed);
    hide Part, Incident, NodeOf, GoFile, Reindexed, FullEdges, Visited, WalkedPart, Resolve, Walked, Untouched, NewParts;
    if e in NewParts(root, modulePath, after, changed) {
      rel := FromNew(root, modulePath, after, changed, e);
    } else {
      rel := FromUntouched(modulePath, before, changed, e);
    }
  }

  lemma FromNew(root: seq<string>, modulePath: string, after: Tree, changed: seq<string>, e: Edge) returns (rel: string)
    requires e in NewParts(root, modulePath, after, changed)
    ensures Meant(root, changed, rel) && e in Part(modulePath, after, rel)
  {
    hide Part, GoFile, Resolve;
    var k :| 0 <= k < |changed| && GoFile(changed[k]) && e in Part(modulePath, after, Resolve(root, changed[k]));
    rel := Resolve(root, changed[k]);
  }

  lemma FromUntouched(modulePath: string, before: Tree, changed: seq<string>, e: Edge) returns (rel: string)
    requires e in Untouched(FullEdges(modulePath, before), changed)
    ensures e in WalkedPart(modulePath, before, rel) && !Named(changed, rel)
  {
    hide Part, Incident, NodeOf, GoFile, FullEdges, Visited, WalkedPart;
    InFull(modulePath, before, e);
    var r :| e in WalkedPart(modulePath, before, r);
    rel := r;
    WalkedIsPart(modulePath, before, rel);
    PartTouches(modulePath, before, rel, e, rel);
  }

  lemma IntoUntouched(modulePath: string, before: Tree, changed: seq<string>, rel: string, e: Edge)
    requires e in WalkedPart(modulePath, before, rel) && !Named(changed, rel)
    ensures e in Untouched(FullEdges(modulePath, before), changed)
  {
    hide Part, Incident, NodeOf, GoFile, FullEdges, Visited, WalkedPart;
    InFull(modulePath, before, e);
    WalkedIsPart(modulePath, before, rel);
    forall k | 0 <= k < |changed| && GoFile(changed[k]) ensures !Incident(e, NodeOf(changed[k])) {
      PartTouches(modulePath, before, rel, e, changed[k]);
    }
  }

  /** What a file contributes after the update is in the updated graph. */
  lemma IntoUpdated(root: seq<string>, modulePath: string, before: Tree, after: Tree, changed: seq<string>, rel: string, e: Edge)
    requires Walked(root, after) && e in UpdatedPart(root, modulePath, before, after, changed, rel)
    ensures e in Reindexed(root, modulePath, after, FullEdges(modulePath, before), changed)
  {
    var full := FullEdges(modulePath, before);
    ReindexedMeans(root, modulePath, after, full, changed);
    hide Part, Incident, NodeOf, GoFile, Reindexed, FullEdges, Visited, WalkedPart, Resolve, Walked, Untouched, Named;
    if Meant(root, changed, rel) && e in Part(modulePath, after, rel) {
      var k :| 0 <= k < |changed| && GoFile(changed[k]) && Resolve(root, changed[k]) == rel;
      assert e in NewParts(root, modulePath, after, changed);
    } else {
      IntoUntouched(modulePath, before, changed, rel, e);
    }
  }

  lemma InUpdated(root: seq<string>, modulePath: string, before: Tree, after: Tree, changed: seq<string>, e: Edge)
    requires Walked(root, after)
    ensures e in Reindexed(root, modulePath, after, FullEdges(modulePath, before), changed) <==>
      exists rel :: e in UpdatedPart(root, modulePath, before, after, changed, rel)
  {
    hide *;
    if e in Reindexed(root, modulePath, after, FullEdges(modulePath, before), changed) {
      var rel := FromUpdated(root, modulePath, before, after, changed, e);
    }
    if exists rel :: e in UpdatedPart(root, modulePath, before, after, changed, rel) {
      var rel :| e in UpdatedPart(root, modulePath, before, after, changed, rel);
      IntoUpdated(root, modulePath, before, after, changed, rel, e);
    }
  }

  /** An edge tells which file it came from. */
  lemma OneFile(modulePath: string, a: Tree, b: Tree, rel: string, other: string, e: Edge)
    requires e in Part(modulePath, a, rel) && e in Part(modulePath, b, other)
    ensures rel == other
  {
    PartTouches(modulePath, a, rel, e, other);
    PartTouches(modulePath, b, other, e, other);
  }

  lemma UpdatedPartIsAPart(
    root: seq<string>, modulePath: string, before: Tree, after: Tree, changed: seq<string>, rel: string, e: Edge)
    requires e in UpdatedPart(root, modulePath, before, after, changed, rel)
    ensures e in Part(modulePath, before, rel) || e in Part(modulePath, after, rel)
  {
    hide Part, Meant, Named;
  }

  /** What an edge of either tree says of its file, by any tree's contribution. */
  lemma SameFile(root: seq<string>, modulePath: string, before: Tree, after: Tree, changed: seq<string>, rel: string, other: string, e: Edge)
    requires e in UpdatedPart(root, modulePath, before, after, changed, rel) && e in WalkedPart(modulePath, after, other)
    ensures rel == other
  {
    hide Part, UpdatedPart, WalkedPart;
    UpdatedPartIsAPart(root, modulePath, before, after, changed, rel, e);
    WalkedIsPart(modulePath, after, other);
    if e in Part(modulePath, before, rel) {
      OneFile(modulePath, before, after, rel, other, e);
    } else {
      OneFile(modulePath, after, after, rel, other, e);
    }
  }

  lemma SamePart(root: seq<string>, modulePath: string, before: Tree, after: Tree, changed: seq<string>, rel: string)
    requires Walked(root, after)
    requires Reindexed(root, modulePath, after, FullEdges(modulePath, before), changed) == FullEdges(modulePath, after)
    ensures UpdatedPart(root, modulePath, before, after, changed, rel) == WalkedPart(modulePath, after, rel)
  {
    hide UpdatedPart, Reindexed, FullEdges, WalkedPart, Walked;
    forall e ensures e in UpdatedPart(root, modulePath, before, after, changed, rel) <==> e in WalkedPart(modulePath, after, rel) {
      InUpdated(root, modulePath, before, after, changed, e);
      InFull(modulePath, after, e);
      if e in UpdatedPart(root, modulePath, before, after, changed, rel) {
        var other :| e in WalkedPart(modulePath, after, other);
        SameFile(root, modulePath, before, after, changed, rel, other, e);
      }
      if e in WalkedPart(modulePath, after, rel) {
        var other :| e in UpdatedPart(root, modulePath, before, after, changed, other);
        SameFile(root, modulePath, before, after, changed, other, rel, e);
      }
    }
  }

  /** What has to hold of a file for the update to be a full build: if no changed path
      means it, it contributes the same to both trees; if one does but does not name
      it as the walk does, its old edges are among its new ones, because they are not
      cleared; and if it lies outside the walk, it contributes nothing. */
  predicate FileAgrees(root: seq<string>, modulePath: string, before: Tree, after: Tree, changed: seq<string>, rel: string) {
    && (!Meant(root, changed, rel) ==> WalkedPart(modulePath, before, rel) == WalkedPart(modulePath, after, rel))
    && (Meant(root, changed, rel) && !Named(changed, rel) ==>
          WalkedPart(modulePath, before, rel) <= WalkedPart(modulePath, after, rel))
    && (Meant(root, changed, rel) && !Visited(rel) ==> Part(modulePath, after, rel) == {})
  }

  lemma PartAgreesIff(root: seq<string>, modulePath: string, before: Tree, after: Tree, changed: seq<string>, rel: string)
    requires Walked(root, before) && Walked(root, after)
    ensures UpdatedPart(root, modulePath, before, after, changed, rel) == WalkedPart(modulePath, after, rel) <==>
      FileAgrees(root, modulePath, before, after, changed, rel)
  {
    hide Visited, FileEdges, Resolve, GoFile;
    if Named(changed, rel) && !Meant(root, changed, rel) {
      var k :| 0 <= k < |changed| && changed[k] == rel;
      assert Resolve(root, rel) != rel;
    }
  }

  /** The update of the old tree's graph, whatever paths are given, is the new tree's
      graph exactly when each file agrees. */
  lemma ReindexMatchesFullIff(root: seq<string>, modulePath: string, before: Tree, after: Tree, changed: seq<string>)
    requires Walked(root, before) && Walked(root, after)
    ensures Reindexed(root, modulePath, after, FullEdges(modulePath, before), changed) == FullEdges(modulePath, after) <==>
      forall rel :: FileAgrees(root, modulePath, before, after, changed, rel)
  {
    hide UpdatedPart, Reindexed, FullEdges, WalkedPart, Walked, FileAgrees;
    var updated := Reindexed(root, modulePath, after, FullEdges(modulePath, before), changed);
    var full := FullEdges(modulePath, after);
    forall e ensures e in updated <==> exists rel :: e in UpdatedPart(root, modulePath, before, after, changed, rel) {
      InUpdated(root, modulePath, before, after, changed, e);
    }
    forall e ensures e in full <==> exists rel :: e in WalkedPart(modulePath, after, rel) {
      InFull(modulePath, after, e);
    }
    forall rel ensures UpdatedPart(root, modulePath, before, after, changed, rel) == WalkedPart(modulePath, after, rel) <==>
      FileAgrees(root, modulePath, before, after, changed, rel)
    {
      PartAgreesIff(root, modulePath, before, after, changed, rel);
    }
    if updated == full {
      forall rel ensures UpdatedPart(root, modulePath, before, after, changed, rel) == WalkedPart(modulePath, after, rel) {
        SamePart(root, modulePath, before, after, changed, rel);
      }
    } else {
      assert !(forall rel :: UpdatedPart(root, modulePath, before, after, changed, rel) == WalkedPart(modulePath, after, rel));
    }
  }

  /** Naming at least the visited Go files whose content changed, and meaning nothing
      that exists outside the walk, makes the update a full build. */
  lemma ReindexMatchesFull(root: seq<string>, modulePath: string, before: Tree, after: Tree, changed: seq<string>)
    requires Walked(root, before) && Walked(root, after)
    requires forall rel :: Visited(rel) && !Named(changed, rel) ==>
      (rel in before <==> rel in after) && (rel in before ==> before[rel] == after[rel])
    requires forall rel :: Meant(root, changed, rel) && !Visited(rel) ==> rel !in after
    ensures Reindexed(root, modulePath, after, FullEdges(modulePath, before), changed) == FullEdges(modulePath, after)
  {
    ReindexMatchesFullIff(root, modulePath, before, after, changed);
    hide Reindexed, FullEdges;
    forall rel ensures FileAgrees(root, modulePath, before, after, changed, rel) {
      FileUnchanged(root, modulePath, before, after, changed, rel);
    }
  }

  lemma FileUnchanged(root: seq<string>, modulePath: string, before: Tree, after: Tree, changed: seq<string>, rel: string)
    requires Walked(root, before) && Walked(root, after)
    requires Visited(rel) && !Named(changed, rel) ==>
      (rel in before <==> rel in after) && (rel in before ==> before[rel] == after[rel])
    requires Meant(root, changed, rel) && !Visited(rel) ==> rel !in after
    ensures FileAgrees(root, modulePath, before, after, changed, rel)
  {
    hide Visited, FileEdges, Resolve, GoFile;
    if Named(changed, rel) && (rel in before || rel in after) {
      var k :| 0 <= k < |changed| && changed[k] == rel;
      assert Resolve(root, changed[k]) == rel;
    }
  }

  /** Updating leaves every edge of every other file alone. */
  lemma OthersUntouched(root: seq<string>, modulePath: string, tree: Tree, edges: set<Edge>, changed: seq<string>, e: Edge)
    requires Walked(root, tree)
    requires forall k :: 0 <= k < |changed| && GoFile(changed[k]) ==>
      !Incident(e, NodeOf(changed[k])) && !Incident(e, NodeOf(Resolve(root, changed[k])))
    ensures e in Reindexed(root, modulePath, tree, edges, changed) <==> e in edges
  {
    ReindexedMeans(root, modulePath, tree, edges, changed);
    hide Reindexed, Part, NodeOf, Incident, GoFile, Resolve;
    if e in NewParts(root, modulePath, tree, changed) {
      var k :| 0 <= k < |changed| && GoFile(changed[k]) && e in Part(modulePath, tree, Resolve(root, changed[k]));
      PartTouches(modulePath, tree, Resolve(root, changed[k]), e, Resolve(root, changed[k]));
    }
  }

  /** A deleted, or no longer parsing, file keeps no edge. */
  lemma DeletedHasNoEdges(root: seq<string>, modulePath: string, tree: Tree, edges: set<Edge>, changed: seq<string>, rel: string, e: Edge)
    requires Walked(root, tree) && Named(changed, rel) && (rel !in tree || tree[rel].None?)
    requires e in Reindexed(root, modulePath, tree, edges, changed)
    ensures !Incident(e, NodeOf(rel))
  {
    ReindexedMeans(root, modulePath, tree, edges, changed);
    assert Part(modulePath, tree, rel) == {};
    hide Reindexed, NodeOf, Incident, GoFile, Part, Resolve, NewParts, Walked;
    if e in NewParts(root, modulePath, tree, changed) {
      var other := FromNew(root, modulePath, tree, changed, e);
      PartTouches(modulePath, tree, other, e, rel);
    } else {
      var k :| 0 <= k < |changed| && changed[k] == rel;
    }
  }

  // -------------------------------------------------------------- stale edges

  /** A full build of the new tree over the old tree's graph only adds. It is the new
      tree's graph exactly when every file's old edges are among its new ones. */
  lemma FullBuildRepairsIff(modulePath: string, before: Tree, after: Tree)
    ensures FullEdges(modulePath, before) + FullEdges(modulePath, after) == FullEdges(modulePath, after) <==>
      forall rel :: WalkedPart(modulePath, before, rel) <= WalkedPart(modulePath, after, rel)
  {
    hide FullEdges, WalkedPart, Part;
    forall e
      ensures e in FullEdges(modulePath, after) <==> exists rel :: e in WalkedPart(modulePath, after, rel)
      ensures e in FullEdges(modulePath, before) <==> exists rel :: e in WalkedPart(modulePath, before, rel)
    {
      InFull(modulePath, after, e);
      InFull(modulePath, before, e);
    }
    if FullEdges(modulePath, before) + FullEdges(modulePath, after) == FullEdges(modulePath, after) {
      forall rel, e | e in WalkedPart(modulePath, before, rel) ensures e in WalkedPart(modulePath, after, rel) {
        assert e in FullEdges(modulePath, before) + FullEdges(modulePath, after);
        var other :| e in WalkedPart(modulePath, after, other);
        WalkedIsPart(modulePath, before, rel);
        WalkedIsPart(modulePath, after, other);
        OneFile(modulePath, before, after, rel, other, e);
      }
    }
  }

  /** A file that imports a package of the module, and then no longer does. */
  function Importing(modulePath: string): Tree {
    map["a.go" := Some([modulePath + "/x"])]
  }

  const NO_LONGER: Tree := map["a.go" := Some([])]

  function Dropped(modulePath: string): Edge {
    Edge(NodeOf("a.go"), Node(PackageNode, modulePath + "/x"), Imports)
  }

  lemma DroppedIsStale(modulePath: string)
    requires modulePath != ""
    ensures Visited("a.go")
    ensures Dropped(modulePath) in WalkedPart(modulePath, Importing(modulePath), "a.go")
    ensures Dropped(modulePath) !in WalkedPart(modulePath, NO_LONGER, "a.go")
  {
    assert "a.go"[1..] == ".go";
    assert NameStart("a.go") == 0 by {
      assert forall k :: 0 <= k < 4 ==> "a.go"[k] != '/';
    }
    assert HasPrefix(modulePath + "/x", modulePath);
    assert (modulePath + "/x") in [modulePath + "/x"];
  }

  /** Rebuilding keeps an import the file has dropped. */
  lemma FullBuildKeepsADroppedImport(modulePath: string)
    requires modulePath != ""
    ensures FullEdges(modulePath, Importing(modulePath)) + FullEdges(modulePath, NO_LONGER) != FullEdges(modulePath, NO_LONGER)
  {
    DroppedIsStale(modulePath);
    hide FullEdges, WalkedPart, Importing;
    FullBuildRepairsIff(modulePath, Importing(modulePath), NO_LONGER);
  }

  /** Both spellings of the file mean the file. */
  lemma DotSpelling(root: seq<string>)
    ensures GoFile("./a.go") && Resolve(root, "./a.go") == "a.go"
    ensures GoFile("a.go") && Resolve(root, "a.go") == "a.go"
  {
    var names := ["a.go"];
    assert Names(names) && JoinSlash(names) == "a.go";
    assert "./" + "a.go" == "./a.go";
    CleanPathStays(root, names);
    DotIsDropped(root, names);
  }

  lemma DotMeant(root: seq<string>)
    ensures Meant(root, ["./a.go"], "a.go")
  {
    DotSpelling(root);
    hide Resolve, GoFile;
    assert ["./a.go"][0] == "./a.go";
  }

  lemma BothWalked(root: seq<string>, modulePath: string)
    ensures Walked(root, Importing(modulePath)) && Walked(root, NO_LONGER)
  {
    DotSpelling(root);
    hide Resolve;
  }

  lemma StaleFile(root: seq<string>, modulePath: string, given: string)
    requires modulePath != "" && given != "a.go" && Meant(root, [given], "a.go")
    ensures !FileAgrees(root, modulePath, Importing(modulePath), NO_LONGER, [given], "a.go")
  {
    DroppedIsStale(modulePath);
    hide Resolve, WalkedPart, Visited, GoFile, Importing, Meant;
  }

  /** Reported under another name, the file is indexed again, but its old edges were
      looked for under that name and stay. */
  lemma StaleUnder(root: seq<string>, modulePath: string, given: string)
    requires modulePath != "" && given != "a.go" && Meant(root, [given], "a.go")
    ensures Reindexed(root, modulePath, NO_LONGER, FullEdges(modulePath, Importing(modulePath)), [given]) !=
      FullEdges(modulePath, NO_LONGER)
  {
    hide *;
    BothWalked(root, modulePath);
    ReindexMatchesFullIff(root, modulePath, Importing(modulePath), NO_LONGER, [given]);
    StaleFile(root, modulePath, given);
  }

  /** Reported under its own name, nothing stale stays. */
  lemma RepairedUnderItsName(root: seq<string>, modulePath: string)
    ensures Reindexed(root, modulePath, NO_LONGER, FullEdges(modulePath, Importing(modulePath)), ["a.go"]) ==
      FullEdges(modulePath, NO_LONGER)
  {
    BothWalked(root, modulePath);
    DotSpelling(root);
    VisitedName();
    hide Resolve, FullEdges, Reindexed, Visited, GoFile, Walked;
    forall rel | Meant(root, ["a.go"], rel) ensures rel == "a.go" {
    }
    assert ["a.go"][0] == "a.go";
    ReindexMatchesFull(root, modulePath, Importing(modulePath), NO_LONGER, ["a.go"]);
  }

  lemma VisitedName()
    ensures Visited("a.go")
  {
    DroppedIsStale("m");
  }

  /** A dropped import stays in the graph when the change is reported as "./a.go", and
      goes when it is reported as "a.go". */
  lemma UncleanPathKeepsStaleEdges(root: seq<string>, modulePath: string)
    requires modulePath != ""
    ensures Walked(root, Importing(modulePath)) && Walked(root, NO_LONGER) && Meant(root, ["./a.go"], "a.go")
    ensures Reindexed(root, modulePath, NO_LONGER, FullEdges(modulePath, Importing(modulePath)), ["./a.go"]) !=
      FullEdges(modulePath, NO_LONGER)
    ensures Reindexed(root, modulePath, NO_LONGER, FullEdges(modulePath, Importing(modulePath)), ["a.go"]) ==
      FullEdges(modulePath, NO_LONGER)
  {
    hide *;
    DotSpelling(root);
    BothWalked(root, modulePath);
    DotMeant(root);
    StaleUnder(root, modulePath, "./a.go");
    RepairedUnderItsName(root, modulePath);
  }
}
