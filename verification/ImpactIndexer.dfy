/** The graph store, the indexer that fills it, and the analysis that reads it. */
module ImpactIndexer {
  import opened Text
  import opened Paths
  import opened Impact

  /** The nodes that edges of a kind lead from, into the given nodes. */
  function SourcesOf(edges: set<Edge>, targets: set<Node>, kind: EdgeKind): set<Node> {
    set e | e in edges && e.target in targets && e.kind == kind :: e.source
  }

  function TargetsOf(edges: set<Edge>, sources: set<Node>, kind: EdgeKind): set<Node> {
    set e | e in edges && e.source in sources && e.kind == kind :: e.target
  }

  class Graph {
    var nodes: set<Node>
    var edges: set<Edge>

    /** Edges only join stored nodes. */
    ghost predicate Valid()
      reads this
    {
      forall e :: e in edges ==> e.source in nodes && e.target in nodes
    }

    constructor ()
      ensures Valid() && nodes == {} && edges == {}
    {
      nodes, edges := {}, {};
    }

    method UpsertNode(n: Node)
      requires Valid()
      modifies this`nodes
      ensures Valid() && nodes == old(nodes) + {n}
    {
      nodes := nodes + {n};
    }

    method UpsertEdge(e: Edge)
      requires Valid() && e.source in nodes && e.target in nodes
      modifies this`edges
      ensures Valid() && edges == old(edges) + {e}
    {
      edges := edges + {e};
    }

    method NodeByKey(kind: Kind, key: string) returns (found: bool)
      ensures found <==> Node(kind, key) in nodes
    {
      found := Node(kind, key) in nodes;
    }

    /** Every edge at the node goes, in either direction, and no other. */
    method DeleteNodeEdges(n: Node)
      requires Valid()
      modifies this`edges
      ensures Valid() && edges == Without(old(edges), n)
    {
      edges := set e | e in edges && !(e.source == n || e.target == n);
    }

    method EdgesTo(n: Node, kind: EdgeKind) returns (sources: set<Node>)
      ensures sources == SourcesOf(edges, {n}, kind)
    {
      sources := set e | e in edges && e.target == n && e.kind == kind :: e.source;
    }

    method EdgesFrom(n: Node, kind: EdgeKind) returns (targets: set<Node>)
      ensures targets == TargetsOf(edges, {n}, kind)
    {
      targets := set e | e in edges && e.source == n && e.kind == kind :: e.target;
    }
  }

  method IndexFile(g: Graph, modulePath: string, rel: string, imports: seq<string>)
    requires g.Valid()
    modifies g
    ensures g.Valid()
    ensures g.nodes == old(g.nodes) + FileNodes(modulePath, rel, imports)
    ensures g.edges == old(g.edges) + FileEdges(modulePath, rel, imports)
  {
    var file := NodeOf(rel);
    g.UpsertNode(file);
    if modulePath != "" {
      var pkg := Package(modulePath, rel);
      g.UpsertNode(pkg);
      g.UpsertEdge(Edge(pkg, file, Contains));
      if HasSuffix(rel, "_test.go") {
        g.UpsertEdge(Edge(file, pkg, Tests));
      }
    }
    ghost var nodes, edges := g.nodes, g.edges;
    AddImports(g, modulePath, rel, imports);
    assert imports[..|imports|] == imports;
  }

  method AddImports(g: Graph, modulePath: string, rel: string, imports: seq<string>)
    requires g.Valid() && NodeOf(rel) in g.nodes
    modifies g
    ensures g.Valid()
    ensures g.nodes == old(g.nodes) + (set path | path in imports && Internal(modulePath, path) :: Node(PackageNode, path))
    ensures g.edges == old(g.edges) + ImportEdges(modulePath, rel, imports)
  {
    var k := 0;
    while k < |imports|
      invariant k <= |imports| && g.Valid() && NodeOf(rel) in g.nodes
      invariant g.nodes == old(g.nodes) + (set path | path in imports[..k] && Internal(modulePath, path) :: Node(PackageNode, path))
      invariant g.edges == old(g.edges) + ImportEdges(modulePath, rel, imports[..k])
    {
      var path := imports[k];
      assert imports[..k + 1] == imports[..k] + [path];
      if !(modulePath == "" || !HasPrefix(path, modulePath)) {
        g.UpsertNode(Node(PackageNode, path));
        g.UpsertEdge(Edge(NodeOf(rel), Node(PackageNode, path), Imports));
      }
      k := k + 1;
    }
    assert imports[..k] == imports;
  }

  /** Some files' contributions to a full build. */
  function SomeEdges(modulePath: string, tree: Tree, files: set<string>): set<Edge> {
    set rel, e | rel in files && e in WalkedPart(modulePath, tree, rel) :: e
  }

  function SomeNodes(modulePath: string, tree: Tree, files: set<string>): set<Node> {
    set rel, n | rel in files && n in WalkedNodes(modulePath, tree, rel) :: n
  }

  lemma OneMoreFile(modulePath: string, tree: Tree, files: set<string>, rel: string)
    ensures SomeEdges(modulePath, tree, files + {rel}) == SomeEdges(modulePath, tree, files) + WalkedPart(modulePath, tree, rel)
    ensures SomeNodes(modulePath, tree, files + {rel}) == SomeNodes(modulePath, tree, files) + WalkedNodes(modulePath, tree, rel)
  {
    hide WalkedPart, WalkedNodes;
  }

  lemma AllFiles(modulePath: string, tree: Tree)
    ensures SomeEdges(modulePath, tree, tree.Keys) == FullEdges(modulePath, tree)
    ensures SomeNodes(modulePath, tree, tree.Keys) == FullNodes(modulePath, tree)
  {
    hide WalkedPart, WalkedNodes;
  }

  /** The files of some that a walk indexes. */
  function Indexed(tree: Tree, files: set<string>): set<string> {
    set rel | rel in files && rel in tree && Visited(rel) && tree[rel].Some?
  }

  lemma OneMoreIndexed(tree: Tree, files: set<string>, rel: string)
    requires rel in tree && rel !in files
    ensures |Indexed(tree, files + {rel})| == |Indexed(tree, files)| + if Visited(rel) && tree[rel].Some? then 1 else 0
  {
    hide Visited;
    if Visited(rel) && tree[rel].Some? {
      assert Indexed(tree, files + {rel}) == Indexed(tree, files) + {rel};
    } else {
      assert Indexed(tree, files + {rel}) == Indexed(tree, files);
    }
  }

  /** The walk's order does not matter; each visited file is indexed once. */
  method IndexProject(g: Graph, modulePath: string, tree: Tree) returns (count: nat)
    requires g.Valid()
    modifies g
    ensures g.Valid()
    ensures g.nodes == old(g.nodes) + FullNodes(modulePath, tree)
    ensures g.edges == old(g.edges) + FullEdges(modulePath, tree)
    ensures count == |Indexed(tree, tree.Keys)|
  {
    hide Visited, WalkedPart, WalkedNodes, Indexed, SomeNodes, SomeEdges, FullNodes, FullEdges;
    var left := tree.Keys;
    ghost var done: set<string> := {};
    count := 0;
    NoFiles(modulePath, tree);
    while left != {}
      invariant left <= tree.Keys && done == tree.Keys - left && g.Valid()
      invariant g.nodes == old(g.nodes) + SomeNodes(modulePath, tree, done)
      invariant g.edges == old(g.edges) + SomeEdges(modulePath, tree, done)
      invariant count == |Indexed(tree, done)|
      decreases left
    {
      var rel :| rel in left;
      left := left - {rel};
      OneMoreFile(modulePath, tree, done, rel);
      OneMoreIndexed(tree, done, rel);
      done := done + {rel};
      var indexed := VisitFile(g, modulePath, tree, rel);
      if indexed {
        count := count + 1;
      }
    }
    assert done == tree.Keys;
    AllFiles(modulePath, tree);
  }

  /** The walk's callback for one file. */
  method VisitFile(g: Graph, modulePath: string, tree: Tree, rel: string) returns (indexed: bool)
    requires g.Valid() && rel in tree
    modifies g
    ensures g.Valid() && (indexed <==> Visited(rel) && tree[rel].Some?)
    ensures g.nodes == old(g.nodes) + WalkedNodes(modulePath, tree, rel)
    ensures g.edges == old(g.edges) + WalkedPart(modulePath, tree, rel)
  {
    hide Visited, FileEdges, FileNodes;
    indexed := Visited(rel) && tree[rel].Some?;
    if indexed {
      IndexFile(g, modulePath, rel, tree[rel].value);
    }
  }

  lemma NoFiles(modulePath: string, tree: Tree)
    ensures SomeEdges(modulePath, tree, {}) == {} && SomeNodes(modulePath, tree, {}) == {} && Indexed(tree, {}) == {}
  {
  }

  lemma NothingToClear(edges: set<Edge>, nodes: set<Node>, n: Node)
    requires (forall e :: e in edges ==> e.source in nodes && e.target in nodes) && n !in nodes
    ensures Without(edges, n) == edges
  {
  }

  lemma OneMoreUpdated(root: seq<string>, modulePath: string, tree: Tree, nodes: set<Node>, init: seq<string>, rel: string)
    ensures ReindexedNodes(root, modulePath, tree, nodes, init + [rel]) ==
      ReindexedNodes(root, modulePath, tree, nodes, init)
      + if GoFile(rel) then NodePart(modulePath, tree, Resolve(root, rel)) else {}
  {
    hide NodePart, GoFile, Resolve;
    var all := init + [rel];
    assert all[|init|] == rel && forall k :: 0 <= k < |init| ==> all[k] == init[k];
  }

  /** Each changed file in turn; the nodes of deleted files stay. */
  method Reindex(g: Graph, root: seq<string>, modulePath: string, tree: Tree, changed: seq<string>)
    requires g.Valid()
    modifies g
    ensures g.Valid()
    ensures g.nodes == ReindexedNodes(root, modulePath, tree, old(g.nodes), changed)
    ensures g.edges == Reindexed(root, modulePath, tree, old(g.edges), changed)
  {
    hide Part, NodePart, NodeOf, ReindexedNodes, Without, Resolve;
    var k := 0;
    assert changed[..0] == [];
    NothingUpdated(root, modulePath, tree, g.nodes);
    while k < |changed|
      invariant k <= |changed| && g.Valid()
      invariant g.nodes == ReindexedNodes(root, modulePath, tree, old(g.nodes), changed[..k])
      invariant g.edges == Reindexed(root, modulePath, tree, old(g.edges), changed[..k])
    {
      assert changed[..k + 1][..k] == changed[..k];
      assert changed[..k + 1] == changed[..k] + [changed[k]];
      OneMoreUpdated(root, modulePath, tree, old(g.nodes), changed[..k], changed[k]);
      var rel := changed[k];
      k := k + 1;
      if !HasSuffix(rel, ".go") {
        continue;
      }
      UpdateFile(g, root, modulePath, tree, rel);
    }
    assert changed[..k] == changed;
  }

  lemma NothingUpdated(root: seq<string>, modulePath: string, tree: Tree, nodes: set<Node>)
    ensures ReindexedNodes(root, modulePath, tree, nodes, []) == nodes
  {
  }

  /** One changed Go path: its edges cleared under the name it was given, and the file
      it means indexed again if it is there and parses. */
  method UpdateFile(g: Graph, root: seq<string>, modulePath: string, tree: Tree, rel: string)
    requires g.Valid()
    modifies g
    ensures g.Valid()
    ensures g.nodes == old(g.nodes) + NodePart(modulePath, tree, Resolve(root, rel))
    ensures g.edges == Without(old(g.edges), NodeOf(rel)) + Part(modulePath, tree, Resolve(root, rel))
  {
    hide FileEdges, FileNodes, NodeOf, Resolve;
    ClearFile(g, rel);
    var clean := Resolve(root, rel);
    if clean !in tree {
      return;
    }
    if tree[clean].Some? {
      IndexFile(g, modulePath, clean, tree[clean].value);
    }
  }

  /** Reset a file's edges, if the store knows the file. */
  method ClearFile(g: Graph, rel: string)
    requires g.Valid()
    modifies g`edges
    ensures g.Valid() && g.edges == Without(old(g.edges), NodeOf(rel))
  {
    var found := g.NodeByKey(FileNodeType(rel), rel);
    if found {
      g.DeleteNodeEdges(NodeOf(rel));
    } else {
      NothingToClear(g.edges, g.nodes, NodeOf(rel));
    }
  }
}
