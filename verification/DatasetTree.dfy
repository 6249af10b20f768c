/** The dataset tree of a pool: names linked into nodes by buildTree. */
module DatasetTree {
  import opened Objects
  import opened Options
  import opened Sequences
  import opened Text

  datatype Dataset = Dataset(
    name: string, used: string, avail: string, mountpoint: string, quota: string, compression: Option<string>,
    compressratio: Option<string>, refcompressratio: Option<string>, encryption: Option<string>, keystatus: Option<string>)

  class TreeNode {
    var data: Dataset
    var children: seq<TreeNode>

    constructor (d: Dataset)
      ensures data == d && children == []
    {
      data, children := d, [];
    }
  }

  // ---------------------------------------------------------------------------
  // Names
  // ---------------------------------------------------------------------------

  /** The name without its last component. */
  function Parent(name: string): Option<string> {
    var parts := Split(name, "/");
    if |parts| > 1 then Some(Join(Init(parts), "/")) else None
  }

  lemma ParentOfJoined(p: string, leaf: string)
    requires '/' !in leaf
    ensures Parent(p + "/" + leaf) == Some(p)
  {
    JoinSplit(p, "/");
    SplitFree(p, '/');
    JoinSnoc(Split(p, "/"), leaf, "/");
    SplitJoin(Split(p, "/") + [leaf], '/');
  }

  lemma ParentInFront(name: string) returns (leaf: string)
    requires Parent(name).Some?
    ensures '/' !in leaf && name == Parent(name).value + "/" + leaf
    ensures |Split(name, "/")| == |Split(Parent(name).value, "/")| + 1
  {
    var parts := Split(name, "/");
    leaf := Last(parts);
    SplitFree(name, '/');
    JoinSplit(name, "/");
    assert parts == Init(parts) + [leaf];
    JoinSnoc(Init(parts), leaf, "/");
    SplitJoin(Init(parts), '/');
  }

  /** The parent is what stands in front of the last slash. */
  lemma {:induction false} ParentIs(name: string, p: string)
    ensures Parent(name) == Some(p) <==> exists leaf :: '/' !in leaf && name == p + "/" + leaf
    ensures Parent(name) == Some(p) ==> |Split(name, "/")| == |Split(p, "/")| + 1
  {
    if Parent(name) == Some(p) {
      var leaf := ParentInFront(name);
    }
    if leaf :| '/' !in leaf && name == p + "/" + leaf {
      ParentOfJoined(p, leaf);
    }
  }

  lemma ParentShorter(name: string)
    ensures Parent(name).Some? ==> |Parent(name).value| < |name|
  {
    if Parent(name).Some? {
      ParentIs(name, Parent(name).value);
    }
  }

  // ---------------------------------------------------------------------------
  // The tree as a value
  // ---------------------------------------------------------------------------

  datatype Tree = Tree(name: string, kids: seq<Tree>)

  /** No name is longer than this. */
  function Longest(datasets: seq<Dataset>): (n: nat)
    ensures forall d :: d in datasets ==> |d.name| <= n
  {
    if datasets == [] then 0
    else
      var (n, m) := (Longest(datasets[1..]), |datasets[0].name|);
      if m > n then m else n
  }

  ghost function TreeOf(datasets: seq<Dataset>, root: string): Tree
    decreases Longest(datasets) - |root|, |datasets| + 1
  {
    Tree(root, ForestOf(datasets, root, datasets))
  }

  /** The trees of those of some whose parent is root, in order. */
  ghost function ForestOf(datasets: seq<Dataset>, root: string, some: seq<Dataset>): seq<Tree>
    requires forall d :: d in some ==> d in datasets
    decreases Longest(datasets) - |root|, |some|
  {
    if some == [] then []
    else
      var (d, before) := (some[|some| - 1], some[..|some| - 1]);
      ParentShorter(d.name);
      ForestOf(datasets, root, before) + if Parent(d.name) == Some(root) then [TreeOf(datasets, d.name)] else []
  }

  predicate Named(datasets: seq<Dataset>, name: string) { exists d :: d in datasets && d.name == name }

  /** What buildTree returns, as values: the pool's tree, if the pool is listed. */
  ghost function Returned(datasets: seq<Dataset>, pool: string): seq<Tree> {
    if Named(datasets, pool) then [TreeOf(datasets, pool)] else []
  }

  function Count(t: Tree, name: string): nat { (if t.name == name then 1 else 0) + CountAll(t.kids, name) }

  function CountAll(ts: seq<Tree>, name: string): nat {
    if ts == [] then 0 else CountAll(ts[..|ts| - 1], name) + Count(ts[|ts| - 1], name)
  }

  function Listed(datasets: seq<Dataset>, name: string): nat {
    if datasets == [] then 0
    else Listed(datasets[..|datasets| - 1], name) + if datasets[|datasets| - 1].name == name then 1 else 0
  }

  /** The ways to go down from root to name, one component at a time and always to a listed dataset. */
  function Ways(datasets: seq<Dataset>, root: string, name: string): nat
    decreases |name|
  {
    ParentShorter(name);
    if name == root then 1
    else if Parent(name).None? then 0
    else Listed(datasets, name) * Ways(datasets, root, Parent(name).value)
  }

  /** The ways from root whose first step is to one of some. */
  function WaysVia(datasets: seq<Dataset>, some: seq<Dataset>, root: string, name: string): nat {
    if some == [] then 0
    else
      var d := some[|some| - 1];
      WaysVia(datasets, some[..|some| - 1], root, name) +
      if Parent(d.name) == Some(root) then Ways(datasets, d.name, name) else 0
  }

  lemma {:induction false} NoWayUp(datasets: seq<Dataset>, root: string, name: string)
    requires |name| <= |root| && name != root
    ensures Ways(datasets, root, name) == 0
    decreases |name|
  {
    ParentShorter(name);
    if Parent(name).Some? {
      NoWayUp(datasets, root, Parent(name).value);
    }
  }

  lemma {:induction false} ViaLastStep(datasets: seq<Dataset>, some: seq<Dataset>, root: string, name: string)
    requires Parent(name).Some?
    ensures var p := Parent(name).value;
            WaysVia(datasets, some, root, name) ==
              Listed(datasets, name) * WaysVia(datasets, some, root, p) + if p == root then Listed(some, name) else 0
    decreases |some|
  {
    if some != [] {
      var (d, before, p, m) := (some[|some| - 1], some[..|some| - 1], Parent(name).value, Listed(datasets, name));
      ViaLastStep(datasets, before, root, name);
      ParentShorter(d.name);
      ParentShorter(name);
      if Parent(d.name) == Some(root) {
        Distribute(m, WaysVia(datasets, before, root, p), Ways(datasets, d.name, p));
        if d.name == name {
          NoWayUp(datasets, name, p);
        }
      }
    }
  }

  lemma Distribute(m: nat, a: nat, b: nat)
    ensures m * (a + b) == m * a + m * b
  {}

  lemma {:induction false} NoneVia(datasets: seq<Dataset>, some: seq<Dataset>, root: string, name: string)
    requires |name| <= |root| || Parent(name).None?
    ensures WaysVia(datasets, some, root, name) == 0
    decreases |some|
  {
    if some != [] {
      var d := some[|some| - 1];
      NoneVia(datasets, some[..|some| - 1], root, name);
      ParentShorter(d.name);
      if Parent(d.name) == Some(root) && |name| <= |root| {
        NoWayUp(datasets, d.name, name);
      }
    }
  }

  lemma {:induction false} FirstStep(datasets: seq<Dataset>, root: string, name: string)
    ensures Ways(datasets, root, name) == (if name == root then 1 else 0) + WaysVia(datasets, datasets, root, name)
    decreases |name|
  {
    ParentShorter(name);
    if name == root || Parent(name).None? {
      NoneVia(datasets, datasets, root, name);
    } else {
      var (p, m) := (Parent(name).value, Listed(datasets, name));
      FirstStep(datasets, root, p);
      ViaLastStep(datasets, datasets, root, name);
      Distribute(m, if p == root then 1 else 0, WaysVia(datasets, datasets, root, p));
    }
  }

  lemma {:induction false} CountTree(datasets: seq<Dataset>, root: string, name: string)
    ensures Count(TreeOf(datasets, root), name) == Ways(datasets, root, name)
    decreases Longest(datasets) - |root|, |datasets| + 1
  {
    CountForest(datasets, datasets, root, name);
    FirstStep(datasets, root, name);
  }

  lemma {:induction false} CountForest(datasets: seq<Dataset>, some: seq<Dataset>, root: string, name: string)
    requires forall d :: d in some ==> d in datasets
    ensures CountAll(ForestOf(datasets, root, some), name) == WaysVia(datasets, some, root, name)
    decreases Longest(datasets) - |root|, |some|
  {
    if some != [] {
      var (d, before) := (some[|some| - 1], some[..|some| - 1]);
      CountForest(datasets, before, root, name);
      ParentShorter(d.name);
      var forest := ForestOf(datasets, root, before);
      if Parent(d.name) == Some(root) {
        CountTree(datasets, d.name, name);
        assert (forest + [TreeOf(datasets, d.name)])[..|forest|] == forest;
      } else {
        assert forest + [] == forest;
      }
    }
  }

  lemma {:induction false} CountOfOne(t: Tree, name: string)
    ensures CountAll([t], name) == Count(t, name)
  {
    assert [t][..0] == [];
  }

  /** How often a name is in what buildTree returns, for any list. */
  lemma {:induction false} CountIsWays(datasets: seq<Dataset>, pool: string, name: string)
    ensures CountAll(Returned(datasets, pool), name) == if Named(datasets, pool) then Ways(datasets, pool, name) else 0
  {
    CountTree(datasets, pool, name);
    CountOfOne(TreeOf(datasets, pool), name);
  }

  /** Every name on the way from name up to the root is listed, both ends included. */
  predicate Connected(datasets: seq<Dataset>, root: string, name: string)
    decreases |name|
  {
    ParentShorter(name);
    Named(datasets, name) && (name == root || (Parent(name).Some? && Connected(datasets, root, Parent(name).value)))
  }

  predicate Distinct(datasets: seq<Dataset>) {
    forall i, j :: 0 <= i < j < |datasets| ==> datasets[i].name != datasets[j].name
  }

  lemma {:induction false} ListedOnce(datasets: seq<Dataset>, name: string)
    requires Distinct(datasets)
    ensures Listed(datasets, name) == if Named(datasets, name) then 1 else 0
    decreases |datasets|
  {
    if datasets != [] {
      var (before, d) := (datasets[..|datasets| - 1], datasets[|datasets| - 1]);
      ListedOnce(before, name);
      assert datasets == before + [d];
      assert d in datasets;
    }
  }

  lemma {:induction false} OneWayIfConnected(datasets: seq<Dataset>, root: string, name: string)
    requires Distinct(datasets)
    ensures Named(datasets, root) ==> Ways(datasets, root, name) == if Connected(datasets, root, name) then 1 else 0
    ensures Connected(datasets, root, name) ==> Named(datasets, root)
    decreases |name|
  {
    ParentShorter(name);
    if name != root && Parent(name).Some? {
      OneWayIfConnected(datasets, root, Parent(name).value);
      ListedOnce(datasets, name);
    }
  }

  /** Distinct names: what is returned has each name once if it is connected to the root, and never
      otherwise. */
  lemma {:induction false} OnceIfConnected(datasets: seq<Dataset>, root: string, name: string)
    requires Distinct(datasets)
    ensures CountAll(Returned(datasets, root), name) == if Connected(datasets, root, name) then 1 else 0
  {
    CountIsWays(datasets, root, name);
    OneWayIfConnected(datasets, root, name);
  }

  /** Every edge adds one component to the name. */
  ghost predicate Deepens(t: Tree) {
    forall i :: 0 <= i < |t.kids| ==>
      Parent(t.kids[i].name) == Some(t.name) && |Split(t.kids[i].name, "/")| == |Split(t.name, "/")| + 1 &&
      Deepens(t.kids[i])
  }

  lemma {:induction false} TreeDeepens(datasets: seq<Dataset>, root: string)
    ensures Deepens(TreeOf(datasets, root))
    decreases Longest(datasets) - |root|, |datasets| + 1
  {
    ForestDeepens(datasets, root, datasets);
  }

  lemma {:induction false} ForestDeepens(datasets: seq<Dataset>, root: string, some: seq<Dataset>)
    requires forall d :: d in some ==> d in datasets
    ensures forall t :: t in ForestOf(datasets, root, some) ==>
              Parent(t.name) == Some(root) && |Split(t.name, "/")| == |Split(root, "/")| + 1 && Deepens(t)
    decreases Longest(datasets) - |root|, |some|
  {
    if some != [] {
      var d := some[|some| - 1];
      ForestDeepens(datasets, root, some[..|some| - 1]);
      ParentShorter(d.name);
      if Parent(d.name) == Some(root) {
        ParentIs(d.name, root);
        TreeDeepens(datasets, d.name);
      }
    }
  }

  // ---------------------------------------------------------------------------
  // The tree as linked nodes
  // ---------------------------------------------------------------------------

  /** The last dataset of the name. */
  function Latest(datasets: seq<Dataset>, name: string): (d: Dataset)
    requires Named(datasets, name)
    ensures d.name == name
    ensures exists i :: 0 <= i < |datasets| && datasets[i] == d && forall j :: i < j < |datasets| ==> datasets[j].name != name
  {
    var last := datasets[|datasets| - 1];
    assert datasets == datasets[..|datasets| - 1] + [last];
    if last.name == name then last else Latest(datasets[..|datasets| - 1], name)
  }

  /** The nodes of the datasets whose parent is name, in the order of the list. */
  function Kids(nodes: map<string, TreeNode>, datasets: seq<Dataset>, name: string): seq<TreeNode>
    requires forall d :: d in datasets ==> d.name in nodes
  {
    if datasets == [] then []
    else
      var d := datasets[|datasets| - 1];
      Kids(nodes, datasets[..|datasets| - 1], name) + if Parent(d.name) == Some(name) then [nodes[d.name]] else []
  }

  /** The children are the nodes of exactly those datasets whose parent is name, each as often as it is
      listed and in the order of the list. */
  lemma {:induction false} KidsInOrder(nodes: map<string, TreeNode>, datasets: seq<Dataset>, name: string)
    returns (idx: seq<nat>)
    requires forall d :: d in datasets ==> d.name in nodes
    ensures Places(idx, |datasets|) && |Kids(nodes, datasets, name)| == |idx|
    ensures forall i :: 0 <= i < |datasets| ==> (i in idx <==> Parent(datasets[i].name) == Some(name))
    ensures forall k :: 0 <= k < |idx| ==> Kids(nodes, datasets, name)[k] == nodes[datasets[idx[k]].name]
    decreases |datasets|
  {
    idx := [];
    if datasets != [] {
      var (before, n) := (datasets[..|datasets| - 1], |datasets| - 1);
      idx := KidsInOrder(nodes, before, name);
      PlacesMore(idx, n);
      if Parent(datasets[n].name) == Some(name) {
        idx := idx + [n];
      }
    }
  }

  /** One node a name, linked to the nodes of the datasets it is the parent of. */
  ghost predicate Linked(nodes: map<string, TreeNode>, datasets: seq<Dataset>, linked: seq<Dataset>)
    reads nodes.Values
  {
    (forall d :: d in linked ==> d in datasets) &&
    (forall name :: name in nodes <==> Named(datasets, name)) &&
    (forall name :: name in nodes ==> nodes[name].data == Latest(datasets, name)) &&
    (forall name :: name in nodes ==> nodes[name].children == Kids(nodes, linked, name))
  }

  /** Following the links from node unfolds to the finite tree t. */
  ghost predicate Shows(node: TreeNode, t: Tree, all: set<TreeNode>)
    reads all
    decreases t
  {
    node in all && node.data.name == t.name && |node.children| == |t.kids| &&
    forall i :: 0 <= i < |t.kids| ==> Shows(node.children[i], t.kids[i], all)
  }

  lemma AddName(nodes: map<string, TreeNode>, before: seq<Dataset>, d: Dataset, node: TreeNode)
    requires Linked(nodes, before, []) && node !in nodes.Values && node.data == d && node.children == []
    ensures Linked(nodes[d.name := node], before + [d], [])
  {}

  lemma {:induction false} ShowsTree(datasets: seq<Dataset>, nodes: map<string, TreeNode>, root: string)
    requires Linked(nodes, datasets, datasets) && root in nodes
    ensures Shows(nodes[root], TreeOf(datasets, root), nodes.Values)
    decreases Longest(datasets) - |root|, |datasets| + 1
  {
    ShowsForest(datasets, nodes, root, datasets);
    assert root in nodes.Keys && nodes[root] in nodes.Values;
    assert nodes[root].data.name == root;
  }

  lemma {:induction false} ShowsForest(datasets: seq<Dataset>, nodes: map<string, TreeNode>, root: string, some: seq<Dataset>)
    requires Linked(nodes, datasets, datasets) && root in nodes && forall d :: d in some ==> d in datasets
    ensures var (kids, forest) := (Kids(nodes, some, root), ForestOf(datasets, root, some));
            |kids| == |forest| && forall i :: 0 <= i < |kids| ==> Shows(kids[i], forest[i], nodes.Values)
    decreases Longest(datasets) - |root|, |some|
  {
    if some != [] {
      var d := some[|some| - 1];
      ShowsForest(datasets, nodes, root, some[..|some| - 1]);
      ParentShorter(d.name);
      if Parent(d.name) == Some(root) {
        ShowsTree(datasets, nodes, d.name);
      }
    }
  }

  method AddNode(table: map<string, TreeNode>, ghost before: seq<Dataset>, d: Dataset)
    returns (now: map<string, TreeNode>)
    requires Linked(table, before, [])
    ensures Linked(now, before + [d], []) && fresh(now.Values - table.Values)
  {
    var node := new TreeNode(d);
    AddName(table, before, d, node);
    now := table[d.name := node];
    assert now.Values <= table.Values + {node};
  }

  /** The parent is not listed but names a property that the table of nodes inherits: it has no children
      to add to. */
  predicate Clashes(datasets: seq<Dataset>, d: Dataset) {
    Parent(d.name).Some? && !Named(datasets, Parent(d.name).value) && Inherited(Parent(d.name).value)
  }

  predicate Throws(datasets: seq<Dataset>) { exists i :: 0 <= i < |datasets| && Clashes(datasets, datasets[i]) }

  method AddChild(table: map<string, TreeNode>, ghost datasets: seq<Dataset>, ghost linked: seq<Dataset>, d: Dataset)
    returns (ok: bool)
    requires Linked(table, datasets, linked) && d in datasets
    modifies table.Values
    ensures ok <==> !Clashes(datasets, d)
    ensures ok ==> Linked(table, datasets, linked + [d])
  {
    assert (linked + [d])[..|linked|] == linked;
    ok := true;
    var parts := Split(d.name, "/");
    if |parts| > 1 {
      var parentName := Join(Init(parts), "/");
      if parentName in table {
        var parent := table[parentName];
        parent.children := parent.children + [table[d.name]];
      } else {
        ok := !Inherited(parentName);
      }
    }
  }

  /** The first i datasets are linked, and none of them has thrown. */
  ghost predicate LinkedTo(nodes: map<string, TreeNode>, datasets: seq<Dataset>, i: nat)
    reads nodes.Values
  {
    i <= |datasets| && Linked(nodes, datasets, datasets[..i]) && forall k :: 0 <= k < i ==> !Clashes(datasets, datasets[k])
  }

  method LinkNext(table: map<string, TreeNode>, datasets: seq<Dataset>, i: nat) returns (ok: bool)
    requires i < |datasets| && LinkedTo(table, datasets, i)
    modifies table.Values
    ensures if ok then LinkedTo(table, datasets, i + 1) else Throws(datasets)
  {
    assert datasets[..i + 1] == datasets[..i] + [datasets[i]];
    ok := AddChild(table, datasets, datasets[..i], datasets[i]);
  }

  method MakeNodes(datasets: seq<Dataset>) returns (table: map<string, TreeNode>)
    ensures fresh(table.Values) && Linked(table, datasets, [])
  {
    table := map[];
    for i := 0 to |datasets|
      invariant fresh(table.Values) && Linked(table, datasets[..i], [])
    {
      table := AddNode(table, datasets[..i], datasets[i]);
      assert datasets[..i + 1] == datasets[..i] + [datasets[i]];
    }
    assert datasets[..|datasets|] == datasets;
  }

  method LinkNodes(table: map<string, TreeNode>, datasets: seq<Dataset>) returns (ok: bool)
    requires Linked(table, datasets, [])
    modifies table.Values
    ensures ok <==> !Throws(datasets)
    ensures ok ==> Linked(table, datasets, datasets)
  {
    assert datasets[..0] == [] && LinkedTo(table, datasets, 0);
    for i := 0 to |datasets|
      invariant LinkedTo(table, datasets, i)
    {
      ok := LinkNext(table, datasets, i);
      if !ok {
        return;
      }
    }
    assert datasets[..|datasets|] == datasets;
    ok := true;
  }

  /** What buildTree does: it throws, or returns the roots, or something that is no node. */
  datatype Built = Threw | Roots(roots: seq<TreeNode>) | NotANode

  method BuildTree(datasets: seq<Dataset>, poolName: string) returns (built: Built, ghost nodes: map<string, TreeNode>)
    ensures fresh(nodes.Values) && (built.Threw? <==> Throws(datasets))
    ensures built.NotANode? <==> !Throws(datasets) && !Named(datasets, poolName) && Inherited(poolName)
    ensures built.Roots? ==>
              Linked(nodes, datasets, datasets) &&
              built.roots == if Named(datasets, poolName) then [nodes[poolName]] else []
    ensures built.Roots? ==>
              var (roots, trees) := (built.roots, Returned(datasets, poolName));
              |roots| == |trees| && forall i :: 0 <= i < |roots| ==> Shows(roots[i], trees[i], nodes.Values)
  {
    var table := MakeNodes(datasets);
    nodes := table;
    var ok := LinkNodes(table, datasets);
    if !ok {
      built := Threw;
    } else if poolName in table {
      ShowsTree(datasets, table, poolName);
      built := Roots([table[poolName]]);
    } else if Inherited(poolName) {
      built := NotANode;
    } else {
      built := Roots([]);
    }
  }
}
