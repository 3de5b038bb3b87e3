/**
 * The two builders of backend/utils/build_tree.py on the heap: node records
 * that gain a shared, mutable list of children.
 */
module TreeBuilders {
  import opened Wrappers
  import opened BuildTree

  /** A node dict; `children` is absent until a builder adds it. */
  class Node {
    const item: Item
    var children: Option<seq<Node>>

    constructor (item: Item)
      ensures this.item == item && children == None
    {
      this.item := item;
      children := None;
    }
  }

  function ItemsOf(nodes: seq<Node>): seq<Item> {
    seq(|nodes|, i requires 0 <= i < |nodes| => nodes[i].item)
  }

  function Pick(nodes: seq<Node>, at: seq<int>): seq<Node>
    requires forall i :: 0 <= i < |at| ==> 0 <= at[i] < |nodes|
  {
    seq(|at|, i requires 0 <= i < |at| => nodes[at[i]])
  }

  ghost function KidNodes(nodes: seq<Node>, parent: Option<int>, n: nat): seq<Node>
    requires n <= |nodes|
  {
    KidsAreKids(ItemsOf(nodes), parent, n);
    var kids := KidsUpTo(ItemsOf(nodes), parent, n);
    assert forall i :: 0 <= i < |kids| ==> kids[i] in kids;
    Pick(nodes, kids)
  }

  lemma KidNodesNext(nodes: seq<Node>, parent: Option<int>, n: nat)
    requires n < |nodes|
    ensures KidNodes(nodes, parent, n + 1) ==
      if nodes[n].item.parent == parent then KidNodes(nodes, parent, n) + [nodes[n]] else KidNodes(nodes, parent, n)
  {
  }

  /** The children list that node k must get. */
  ghost function LinkOf(nodes: seq<Node>, k: int): Option<seq<Node>>
    requires 0 <= k < |nodes|
  {
    ListOrAbsent(KidNodes(nodes, Some(nodes[k].item.id), |nodes|))
  }

  ghost function ListOrAbsent(kids: seq<Node>): Option<seq<Node>> {
    if kids == [] then None else Some(kids)
  }

  /** Node k lists exactly its children, in row order, or has no list when it has none. */
  ghost predicate Linked(nodes: seq<Node>, k: int)
    requires 0 <= k < |nodes|
    reads nodes
  {
    nodes[k].children == LinkOf(nodes, k)
  }

  /** The heap below a node, read off as a value, is the given tree. */
  ghost predicate Represents(nodes: seq<Node>, n: Node, t: Tree)
    requires n in nodes
    reads nodes
    decreases t
  {
    && n.item.id == t.id
    && (n.children.None? ==> t.children == [])
    && (n.children.Some? ==>
         && n.children.value != [] && |n.children.value| == |t.children|
         && forall i :: 0 <= i < |t.children| ==>
              n.children.value[i] in nodes && Represents(nodes, n.children.value[i], t.children[i]))
  }

  ghost predicate RepresentsAll(nodes: seq<Node>, tree: seq<Node>, forest: seq<Tree>)
    reads nodes
  {
    |tree| == |forest| && forall i :: 0 <= i < |tree| ==> tree[i] in nodes && Represents(nodes, tree[i], forest[i])
  }

  /** Everything below a chain is linked. */
  ghost predicate BelowLinked(nodes: seq<Node>, root: Option<int>, c: seq<int>)
    reads nodes
  {
    forall k :: 0 <= k < |nodes| && Below(ItemsOf(nodes), root, c, k) ==> Linked(nodes, k)
  }

  /** A child extends the chain; it is linked, and so is everything below it. */
  lemma KidIsLinked(nodes: seq<Node>, root: Option<int>, c: seq<int>, k: int)
    requires Rooted(ItemsOf(nodes), root, c) && BelowLinked(nodes, root, c)
    requires 0 <= k < |nodes| && ItemsOf(nodes)[k].parent == After(ItemsOf(nodes), root, c)
    ensures Rooted(ItemsOf(nodes), root, c + [k]) && Unused(ItemsOf(nodes), c + [k]) < Unused(ItemsOf(nodes), c)
    ensures Linked(nodes, k) && BelowLinked(nodes, root, c + [k])
  {
    var items, d := ItemsOf(nodes), c + [k];
    ChainGrows(items, root, c, k);
    assert k in Unused(items, c) && k !in Unused(items, d);
    assert d <= d && Below(items, root, c, k);
    forall m | 0 <= m < |nodes| && Below(items, root, d, m) ensures Linked(nodes, m) {
    }
  }

  /** A linked node over represented children is represented. */
  lemma LinkedOverForest(nodes: seq<Node>, k: int, children: seq<Tree>)
    requires 0 <= k < |nodes| && Linked(nodes, k)
    requires RepresentsAll(nodes, KidNodes(nodes, Some(nodes[k].item.id), |nodes|), children)
    ensures Represents(nodes, nodes[k], Tree(nodes[k].item.id, children))
  {
  }

  /** When everything below a chain is linked, the heap there represents the forest. */
  lemma {:induction false} LinkedRepresents(nodes: seq<Node>, root: Option<int>, c: seq<int>)
    requires Rooted(ItemsOf(nodes), root, c) && BelowLinked(nodes, root, c)
    ensures var kids := KidNodes(nodes, After(ItemsOf(nodes), root, c), |nodes|);
      RepresentsAll(nodes, kids, Forest(ItemsOf(nodes), root, c))
    decreases Unused(ItemsOf(nodes), c), 1
  {
    var items := ItemsOf(nodes);
    var kids := Kids(items, After(items, root, c));
    KidsAreKids(items, After(items, root, c), |items|);
    forall i | 0 <= i < |kids|
      ensures 0 <= kids[i] < |nodes| && Represents(nodes, nodes[kids[i]], Forest(items, root, c)[i])
    {
      assert kids[i] in kids;
      KidRepresents(nodes, root, c, i);
    }
  }

  lemma {:induction false} KidRepresents(nodes: seq<Node>, root: Option<int>, c: seq<int>, i: nat)
    requires Rooted(ItemsOf(nodes), root, c) && BelowLinked(nodes, root, c)
    requires i < |Kids(ItemsOf(nodes), After(ItemsOf(nodes), root, c))|
    ensures var k := Kids(ItemsOf(nodes), After(ItemsOf(nodes), root, c))[i];
      0 <= k < |nodes| && Represents(nodes, nodes[k], Forest(ItemsOf(nodes), root, c)[i])
    decreases Unused(ItemsOf(nodes), c), 0
  {
    var items := ItemsOf(nodes);
    var kids := Kids(items, After(items, root, c));
    KidsAreKids(items, After(items, root, c), |items|);
    var k := kids[i];
    assert k in kids;
    KidIsLinked(nodes, root, c, k);
    LinkedRepresents(nodes, root, c + [k]);
    LinkedOverForest(nodes, k, Forest(items, root, c + [k]));
    assert Forest(items, root, c)[i] == Tree(items[k].id, Forest(items, root, c + [k]));
  }

  // ---------------------------------------------------------------- the recursive builder

  /** Position k is reached through one of the first n children of the chain's end. */
  ghost predicate Started(items: seq<Item>, root: Option<int>, c: seq<int>, n: nat, k: int)
    requires Chain(items, root, c) && n <= |items|
  {
    exists m :: m in KidsUpTo(items, After(items, root, c), n) && Passes(items, root, c + [m], k)
  }

  lemma StartedNone(items: seq<Item>, root: Option<int>, c: seq<int>, k: int)
    requires Rooted(items, root, c)
    ensures !Started(items, root, c, 0, k)
    ensures Started(items, root, c, |items|, k) <==> Below(items, root, c, k)
  {
    BelowIffThroughKid(items, root, c, k);
  }

  /** The next child adds itself and what is below it, none of which was reached before. */
  lemma StartedNext(items: seq<Item>, root: Option<int>, c: seq<int>, i: nat, k: int)
    requires Rooted(items, root, c) && i < |items|
    ensures items[i].parent != After(items, root, c) ==>
      (Started(items, root, c, i + 1, k) <==> Started(items, root, c, i, k))
    ensures items[i].parent == After(items, root, c) ==>
      && Chain(items, root, c + [i])
      && (Started(items, root, c, i + 1, k) <==>
           Started(items, root, c, i, k) || k == i || Below(items, root, c + [i], k))
      && (k == i || Below(items, root, c + [i], k) ==> !Started(items, root, c, i, k) && Below(items, root, c, k))
      && !Below(items, root, c + [i], i)
  {
    var kids := KidsUpTo(items, After(items, root, c), i);
    KidsAreKids(items, After(items, root, c), i);
    if items[i].parent == After(items, root, c) {
      var d := c + [i];
      ChainGrows(items, root, c, i);
      NotBelowItself(items, root, d);
      if Passes(items, root, d, k) {
        forall m | m in kids ensures !Passes(items, root, c + [m], k) {
          if Passes(items, root, c + [m], k) {
            OneKidPasses(items, root, c, i, m, k);
          }
        }
      }
      var next := KidsUpTo(items, After(items, root, c), i + 1);
      assert next == kids + [i];
      assert forall m :: m in next <==> m in kids || m == i;
    }
  }

  ghost function Lists(nodes: seq<Node>): (lists: seq<Option<seq<Node>>>)
    reads nodes
    ensures |lists| == |nodes| && forall k :: 0 <= k < |nodes| ==> lists[k] == nodes[k].children
  {
    seq(|nodes|, k requires 0 <= k < |nodes| reads nodes => nodes[k].children)
  }

  /** Entries reached so far are linked, the others are as they were. */
  ghost predicate Progress(nodes: seq<Node>, lists: seq<Option<seq<Node>>>, was: seq<Option<seq<Node>>>,
                           root: Option<int>, c: seq<int>, n: nat)
    requires Chain(ItemsOf(nodes), root, c) && n <= |nodes| && |was| == |nodes| == |lists|
  {
    forall k :: 0 <= k < |nodes| ==>
      lists[k] == if Started(ItemsOf(nodes), root, c, n, k) then LinkOf(nodes, k) else was[k]
  }

  /** Everything below a chain is linked, the rest is unchanged. */
  ghost predicate Grafted(nodes: seq<Node>, lists: seq<Option<seq<Node>>>, before: seq<Option<seq<Node>>>,
                          root: Option<int>, c: seq<int>)
    requires |before| == |nodes| == |lists|
  {
    forall k :: 0 <= k < |nodes| ==>
      lists[k] == if Below(ItemsOf(nodes), root, c, k) then LinkOf(nodes, k) else before[k]
  }

  /** Nothing below a chain has a list yet. */
  ghost predicate Bare(nodes: seq<Node>, lists: seq<Option<seq<Node>>>, root: Option<int>, c: seq<int>)
    requires |nodes| == |lists|
  {
    forall k :: 0 <= k < |nodes| && Below(ItemsOf(nodes), root, c, k) ==> lists[k] == None
  }

  lemma ProgressEnds(nodes: seq<Node>, lists: seq<Option<seq<Node>>>, was: seq<Option<seq<Node>>>,
                     root: Option<int>, c: seq<int>)
    requires Rooted(ItemsOf(nodes), root, c) && |was| == |nodes| == |lists|
    requires Progress(nodes, lists, was, root, c, |nodes|)
    ensures Grafted(nodes, lists, was, root, c)
  {
    forall k | 0 <= k < |nodes| {
      StartedNone(ItemsOf(nodes), root, c, k);
    }
  }

  /** A child may be entered: it extends the chain, and nothing at or below it has a list. */
  lemma EnterKid(nodes: seq<Node>, before: seq<Option<seq<Node>>>, was: seq<Option<seq<Node>>>,
                 root: Option<int>, c: seq<int>, i: nat)
    requires Rooted(ItemsOf(nodes), root, c) && i < |nodes| && |was| == |nodes| == |before|
    requires ItemsOf(nodes)[i].parent == After(ItemsOf(nodes), root, c)
    requires Progress(nodes, before, was, root, c, i) && Bare(nodes, was, root, c)
    ensures Rooted(ItemsOf(nodes), root, c + [i])
    ensures Bare(nodes, before, root, c + [i]) && before[i] == None
    ensures Unused(ItemsOf(nodes), c + [i]) < Unused(ItemsOf(nodes), c)
  {
    ChainGrows(ItemsOf(nodes), root, c, i);
    assert i in Unused(ItemsOf(nodes), c) && i !in Unused(ItemsOf(nodes), c + [i]);
    forall k | 0 <= k < |nodes| && (k == i || Below(ItemsOf(nodes), root, c + [i], k)) ensures before[k] == None {
      StartedNext(ItemsOf(nodes), root, c, i, k);
    }
  }

  /** Once the subtree of a child is grafted and its own list set, one more child is done. */
  lemma LeaveKid(nodes: seq<Node>, before: seq<Option<seq<Node>>>, mid: seq<Option<seq<Node>>>,
                 was: seq<Option<seq<Node>>>, root: Option<int>, c: seq<int>, i: nat)
    requires Rooted(ItemsOf(nodes), root, c) && i < |nodes| && |was| == |nodes| == |before| == |mid|
    requires ItemsOf(nodes)[i].parent == After(ItemsOf(nodes), root, c)
    requires Progress(nodes, before, was, root, c, i)
    requires Rooted(ItemsOf(nodes), root, c + [i]) && Grafted(nodes, mid, before, root, c + [i])
    ensures mid[i] == before[i]
    ensures Progress(nodes, mid[i := LinkOf(nodes, i)], was, root, c, i + 1)
  {
    forall k | 0 <= k < |nodes| {
      StartedNext(ItemsOf(nodes), root, c, i, k);
    }
  }

  /** The tree holds the first n rows' children of the id, and what is below them is linked. */
  ghost predicate Built(nodes: seq<Node>, parentId: Option<int>, tree: seq<Node>, was: seq<Option<seq<Node>>>,
                        root: Option<int>, c: seq<int>, n: nat)
    requires Chain(ItemsOf(nodes), root, c) && n <= |nodes| == |was|
    reads nodes
  {
    tree == KidNodes(nodes, parentId, n) && Progress(nodes, Lists(nodes), was, root, c, n)
  }

  /**
   * recursive_to_tree, called with the id that ends the ghost chain c.  It
   * returns the children of that id and links everything below them, and
   * nothing else.
   */
  method RecursiveToTree(nodes: seq<Node>, parentId: Option<int>, ghost root: Option<int>, ghost c: seq<int>)
    returns (tree: seq<Node>)
    requires Rooted(ItemsOf(nodes), root, c) && parentId == After(ItemsOf(nodes), root, c)
    requires Bare(nodes, Lists(nodes), root, c)
    modifies nodes
    ensures tree == KidNodes(nodes, parentId, |nodes|)
    ensures Grafted(nodes, Lists(nodes), old(Lists(nodes)), root, c)
    decreases Unused(ItemsOf(nodes), c), 2
  {
    ghost var was := Lists(nodes);
    tree := [];
    for i := 0 to |nodes|
      invariant Built(nodes, parentId, tree, was, root, c, i)
    {
      tree := VisitRow(nodes, i, parentId, tree, was, root, c);
    }
    ProgressEnds(nodes, Lists(nodes), was, root, c);
  }

  /** The body of the loop: a matching node gets its subtree and joins the tree. */
  method VisitRow(nodes: seq<Node>, i: nat, parentId: Option<int>, before: seq<Node>,
                  ghost was: seq<Option<seq<Node>>>, ghost root: Option<int>, ghost c: seq<int>)
    returns (tree: seq<Node>)
    requires Rooted(ItemsOf(nodes), root, c) && parentId == After(ItemsOf(nodes), root, c) && i < |nodes| == |was|
    requires Bare(nodes, was, root, c) && Built(nodes, parentId, before, was, root, c, i)
    modifies nodes
    ensures Built(nodes, parentId, tree, was, root, c, i + 1)
    decreases Unused(ItemsOf(nodes), c), 1
  {
    assert ItemsOf(nodes)[i] == nodes[i].item;
    KidNodesNext(nodes, parentId, i);
    if nodes[i].item.parent == parentId {
      BuildChild(nodes, i, was, root, c);
      tree := before + [nodes[i]];
    } else {
      tree := before;
    }
  }

  /** The recursive step for a matching node: its subtree, then its own list. */
  method BuildChild(nodes: seq<Node>, i: nat, ghost was: seq<Option<seq<Node>>>,
                    ghost root: Option<int>, ghost c: seq<int>)
    requires Rooted(ItemsOf(nodes), root, c) && i < |nodes| == |was|
    requires ItemsOf(nodes)[i].parent == After(ItemsOf(nodes), root, c)
    requires Progress(nodes, Lists(nodes), was, root, c, i) && Bare(nodes, was, root, c)
    modifies nodes
    ensures Progress(nodes, Lists(nodes), was, root, c, i + 1)
    decreases Unused(ItemsOf(nodes), c), 0
  {
    ghost var before := Lists(nodes);
    EnterKid(nodes, before, was, root, c, i);
    var childNodes := RecursiveToTree(nodes, Some(nodes[i].item.id), root, c + [i]);
    ghost var mid := Lists(nodes);
    LeaveKid(nodes, before, mid, was, root, c, i);
    if childNodes != [] {
      SetChildren(nodes, i, childNodes);
    }
    assert Lists(nodes) == mid[i := LinkOf(nodes, i)];
  }

  /** node['children'] = children */
  method SetChildren(nodes: seq<Node>, i: nat, children: seq<Node>)
    requires UniqueIds(ItemsOf(nodes)) && i < |nodes|
    modifies nodes[i]
    ensures Lists(nodes) == old(Lists(nodes))[i := Some(children)]
  {
    DistinctNodes(nodes);
    nodes[i].children := Some(children);
  }

  lemma DistinctNodes(nodes: seq<Node>)
    requires UniqueIds(ItemsOf(nodes))
    ensures forall i, j :: 0 <= i < j < |nodes| ==> nodes[i] != nodes[j]
  {
    forall i, j | 0 <= i < j < |nodes| ensures nodes[i] != nodes[j] {
      assert ItemsOf(nodes)[i].id != ItemsOf(nodes)[j].id;
    }
  }

  /** The recursion from an id on no cycle, or from null, leaves the forest below it in the heap. */
  method RecursiveForest(nodes: seq<Node>, parentId: Option<int>) returns (tree: seq<Node>)
    requires UniqueIds(ItemsOf(nodes)) && NoReturn(ItemsOf(nodes), parentId)
    requires forall k :: 0 <= k < |nodes| ==> nodes[k].children == None
    modifies nodes
    ensures RepresentsAll(nodes, tree, Forest(ItemsOf(nodes), parentId, []))
  {
    tree := RecursiveToTree(nodes, parentId, parentId, []);
    LinkedRepresents(nodes, parentId, []);
  }

  // ---------------------------------------------------------------- the one-pass builder

  ghost function TopNodes(nodes: seq<Node>, n: nat): seq<Node>
    requires n <= |nodes|
  {
    TopsAreTop(ItemsOf(nodes), n);
    var tops := TopsUpTo(ItemsOf(nodes), n);
    assert forall i :: 0 <= i < |tops| ==> tops[i] in tops;
    Pick(nodes, tops)
  }

  lemma TopNodesNext(nodes: seq<Node>, n: nat)
    requires n < |nodes|
    ensures TopNodes(nodes, n + 1) ==
      if IsTop(ItemsOf(nodes), n) then TopNodes(nodes, n) + [nodes[n]] else TopNodes(nodes, n)
  {
  }

  /** The list of node k after the first n rows. */
  ghost function LinkUpTo(nodes: seq<Node>, k: int, n: nat): Option<seq<Node>>
    requires 0 <= k < |nodes| && n <= |nodes|
  {
    ListOrAbsent(KidNodes(nodes, Some(nodes[k].item.id), n))
  }

  ghost predicate LinkedUpTo(nodes: seq<Node>, lists: seq<Option<seq<Node>>>, n: nat)
    requires n <= |nodes| == |lists|
  {
    forall k :: 0 <= k < |nodes| ==> lists[k] == LinkUpTo(nodes, k, n)
  }

  lemma NewToLists(nodes: seq<Node>, parent: Option<int>, n: nat)
    requires UniqueIds(ItemsOf(nodes)) && n < |nodes|
    ensures nodes[n] !in KidNodes(nodes, parent, n) && nodes[n] !in TopNodes(nodes, n)
  {
    DistinctNodes(nodes);
    var kids, tops := KidsUpTo(ItemsOf(nodes), parent, n), TopsUpTo(ItemsOf(nodes), n);
    KidsAreKids(ItemsOf(nodes), parent, n);
    TopsAreTop(ItemsOf(nodes), n);
    forall i | 0 <= i < |kids| ensures KidNodes(nodes, parent, n)[i] != nodes[n] {
      assert kids[i] in kids;
    }
    forall i | 0 <= i < |tops| ensures TopNodes(nodes, n)[i] != nodes[n] {
      assert tops[i] in tops;
    }
  }

  /** Row n joins the list of its parent, row p. */
  lemma LinkNext(nodes: seq<Node>, lists: seq<Option<seq<Node>>>, n: nat, p: nat)
    requires UniqueIds(ItemsOf(nodes)) && n < |nodes| == |lists| && p < |nodes| && LinkedUpTo(nodes, lists, n)
    requires nodes[n].item.parent == Some(nodes[p].item.id)
    ensures var list := if lists[p].Some? then lists[p].value else [];
      nodes[n] !in list && LinkedUpTo(nodes, lists[p := Some(list + [nodes[n]])], n + 1)
  {
    NewToLists(nodes, Some(nodes[p].item.id), n);
    var list := if lists[p].Some? then lists[p].value else [];
    assert list == KidNodes(nodes, Some(nodes[p].item.id), n);
    var next := lists[p := Some(list + [nodes[n]])];
    forall k | 0 <= k < |nodes| ensures next[k] == LinkUpTo(nodes, k, n + 1) {
      KidNodesNext(nodes, Some(nodes[k].item.id), n);
      assert k != p ==> ItemsOf(nodes)[k].id != ItemsOf(nodes)[p].id;
    }
  }

  /** Row n joins no list: its parent is null or absent. */
  lemma LinkNone(nodes: seq<Node>, lists: seq<Option<seq<Node>>>, n: nat)
    requires n < |nodes| == |lists| && LinkedUpTo(nodes, lists, n) && IsTop(ItemsOf(nodes), n)
    ensures LinkedUpTo(nodes, lists, n + 1)
  {
    forall k | 0 <= k < |nodes| ensures lists[k] == LinkUpTo(nodes, k, n + 1) {
      KidNodesNext(nodes, Some(nodes[k].item.id), n);
      assert ItemsOf(nodes)[k].id == nodes[k].item.id && ItemsOf(nodes)[n] == nodes[n].item;
    }
  }

  /** node_dict: the node of every id. */
  ghost predicate Finds(dict: map<int, Node>, nodes: seq<Node>, n: nat)
    requires n <= |nodes|
  {
    && (forall k :: 0 <= k < n ==> nodes[k].item.id in dict && dict[nodes[k].item.id] == nodes[k])
    && (forall id :: id in dict ==> exists k :: 0 <= k < n && nodes[k].item.id == id)
  }

  method NodeDict(nodes: seq<Node>) returns (dict: map<int, Node>)
    requires UniqueIds(ItemsOf(nodes))
    ensures Finds(dict, nodes, |nodes|)
  {
    dict := map[];
    for i := 0 to |nodes|
      invariant Finds(dict, nodes, i)
    {
      forall k | 0 <= k < i ensures nodes[k].item.id != nodes[i].item.id {
        assert ItemsOf(nodes)[k].id != ItemsOf(nodes)[i].id;
      }
      dict := dict[nodes[i].item.id := nodes[i]];
    }
  }

  /**
   * traversal_to_tree.  One pass links every node, whatever the order of the
   * rows; the heap then represents the forest of the top nodes, which is the
   * recursive builder's forest when every parent is present.
   */
  method TraversalToTree(nodes: seq<Node>) returns (tree: seq<Node>)
    requires UniqueIds(ItemsOf(nodes))
    requires forall k :: 0 <= k < |nodes| ==> nodes[k].children == None
    modifies nodes
    ensures forall k :: 0 <= k < |nodes| ==> Linked(nodes, k)
    ensures tree == TopNodes(nodes, |nodes|)
    ensures RepresentsAll(nodes, tree, TopForest(ItemsOf(nodes)))
    ensures ParentsPresent(ItemsOf(nodes)) ==> RepresentsAll(nodes, tree, NullForest(ItemsOf(nodes)))
  {
    var nodeDict := NodeDict(nodes);
    tree := Traverse(nodes, nodeDict);
    TraversalEnds(nodes, tree);
  }

  /** The loop over all rows. */
  method Traverse(nodes: seq<Node>, nodeDict: map<int, Node>) returns (tree: seq<Node>)
    requires UniqueIds(ItemsOf(nodes)) && Finds(nodeDict, nodes, |nodes|) && Traversed(nodes, [], 0)
    modifies nodes
    ensures Traversed(nodes, tree, |nodes|)
  {
    tree := [];
    for i := 0 to |nodes|
      invariant Traversed(nodes, tree, i)
    {
      tree := AddNode(nodes, nodeDict, i, tree);
    }
  }

  /** The first n rows are in the tree and in the lists of their parents. */
  ghost predicate Traversed(nodes: seq<Node>, tree: seq<Node>, n: nat)
    requires n <= |nodes|
    reads nodes
  {
    tree == TopNodes(nodes, n) && LinkedUpTo(nodes, Lists(nodes), n)
  }

  lemma TraversalEnds(nodes: seq<Node>, tree: seq<Node>)
    requires UniqueIds(ItemsOf(nodes)) && Traversed(nodes, tree, |nodes|)
    ensures forall k :: 0 <= k < |nodes| ==> Linked(nodes, k)
    ensures tree == TopNodes(nodes, |nodes|) && RepresentsAll(nodes, tree, TopForest(ItemsOf(nodes)))
    ensures ParentsPresent(ItemsOf(nodes)) ==> RepresentsAll(nodes, tree, NullForest(ItemsOf(nodes)))
  {
    TopsRepresent(nodes);
    if ParentsPresent(ItemsOf(nodes)) {
      TopForestIsNullForest(ItemsOf(nodes));
    }
  }

  /** The body of the loop: row i joins its parent's list, or the top of the tree. */
  method AddNode(nodes: seq<Node>, nodeDict: map<int, Node>, i: nat, before: seq<Node>) returns (tree: seq<Node>)
    requires UniqueIds(ItemsOf(nodes)) && i < |nodes| && Finds(nodeDict, nodes, |nodes|)
    requires Traversed(nodes, before, i)
    modifies nodes
    ensures Traversed(nodes, tree, i + 1)
  {
    tree := before;
    ghost var lists := Lists(nodes);
    var node := nodes[i];
    TopNodesNext(nodes, i);
    NewToLists(nodes, None, i);
    if node.item.parent.None? {
      LinkNone(nodes, lists, i);
      tree := tree + [node];
    } else if node.item.parent.value in nodeDict {
      ghost var p :| 0 <= p < |nodes| && nodes[p].item.id == node.item.parent.value;
      var parentNode := nodeDict[node.item.parent.value];
      assert ItemsOf(nodes)[p].id == node.item.parent.value;
      LinkNext(nodes, lists, i, p);
      AppendChild(nodes, p, parentNode, node);
    } else {
      assert IsTop(ItemsOf(nodes), i);
      LinkNone(nodes, lists, i);
      if node !in tree {
        tree := tree + [node];
      }
    }
  }

  /** Append a node to its parent's list, which is made when it is absent. */
  method AppendChild(nodes: seq<Node>, ghost p: nat, parentNode: Node, node: Node)
    requires UniqueIds(ItemsOf(nodes)) && p < |nodes| && nodes[p] == parentNode
    requires parentNode.children.Some? ==> node !in parentNode.children.value
    modifies parentNode
    ensures var list := old(if parentNode.children.Some? then parentNode.children.value else []);
      Lists(nodes) == old(Lists(nodes))[p := Some(list + [node])]
  {
    DistinctNodes(nodes);
    if parentNode.children.None? {
      parentNode.children := Some([]);
    }
    if node !in parentNode.children.value {
      parentNode.children := Some(parentNode.children.value + [node]);
    }
  }

  lemma TopsRepresent(nodes: seq<Node>)
    requires UniqueIds(ItemsOf(nodes)) && forall k :: 0 <= k < |nodes| ==> Linked(nodes, k)
    ensures RepresentsAll(nodes, TopNodes(nodes, |nodes|), TopForest(ItemsOf(nodes)))
  {
    var items := ItemsOf(nodes);
    var tops := TopsUpTo(items, |items|);
    TopsAreTop(items, |items|);
    forall i | 0 <= i < |tops|
      ensures 0 <= tops[i] < |nodes| && Represents(nodes, nodes[tops[i]], TopForest(items)[i])
    {
      assert tops[i] in tops;
      TopRepresents(nodes, tops[i]);
    }
  }

  lemma TopRepresents(nodes: seq<Node>, k: int)
    requires UniqueIds(ItemsOf(nodes)) && forall k :: 0 <= k < |nodes| ==> Linked(nodes, k)
    requires 0 <= k < |nodes| && IsTop(ItemsOf(nodes), k)
    ensures Rooted(ItemsOf(nodes), ItemsOf(nodes)[k].parent, [k])
    ensures Represents(nodes, nodes[k], Tree(nodes[k].item.id, Forest(ItemsOf(nodes), ItemsOf(nodes)[k].parent, [k])))
  {
    var items := ItemsOf(nodes);
    TopIsRooted(items, k);
    LinkedRepresents(nodes, items[k].parent, [k]);
    LinkedOverForest(nodes, k, Forest(items, items[k].parent, [k]));
  }
}
