/**
 * Building a forest from rows that name their parent (backend/utils/build_tree.py).
 *
 * One builder makes a single pass that appends every node to its parent's
 * children list in place; the other searches the whole list again for every
 * node.  Both are proved to leave the same forest behind, and the forest to
 * hold every node whose parent chain ends exactly once.
 */
module BuildTree {
  import opened Wrappers

  // ---------------------------------------------------------------- the rows as values

  datatype Item = Item(id: int, parent: Option<int>)

  ghost predicate UniqueIds(items: seq<Item>) {
    forall i, j :: 0 <= i < j < |items| ==> items[i].id != items[j].id
  }

  /** The positions among the first n whose parent is the given one, in order. */
  function KidsUpTo(items: seq<Item>, parent: Option<int>, n: nat): seq<int>
    requires n <= |items|
  {
    if n == 0 then []
    else KidsUpTo(items, parent, n - 1) + if items[n - 1].parent == parent then [n - 1] else []
  }

  function Kids(items: seq<Item>, parent: Option<int>): seq<int> {
    KidsUpTo(items, parent, |items|)
  }

  lemma {:induction false} KidsAreKids(items: seq<Item>, parent: Option<int>, n: nat)
    requires n <= |items|
    ensures forall k :: k in KidsUpTo(items, parent, n) <==> 0 <= k < n && items[k].parent == parent
    ensures forall i, j :: 0 <= i < j < |KidsUpTo(items, parent, n)| ==>
      KidsUpTo(items, parent, n)[i] < KidsUpTo(items, parent, n)[j]
  {
    if n > 0 {
      KidsAreKids(items, parent, n - 1);
      var before := KidsUpTo(items, parent, n - 1);
      forall i | 0 <= i < |before| ensures before[i] < n - 1 {
        assert before[i] in before;
      }
    }
  }

  // ---------------------------------------------------------------- chains of parents

  /** Positions leading from a child of `root` down, each the parent of the next. */
  ghost predicate Chain(items: seq<Item>, root: Option<int>, c: seq<int>) {
    && (forall i :: 0 <= i < |c| ==> 0 <= c[i] < |items|)
    && (c != [] ==> items[c[0]].parent == root)
    && (forall i :: 0 < i < |c| ==> items[c[i]].parent == Some(items[c[i - 1]].id))
  }

  /** The root is not met again below itself: it lies on no cycle of parents. */
  ghost predicate NoReturn(items: seq<Item>, root: Option<int>) {
    forall c :: !Returns(items, root, c)
  }

  ghost predicate Returns(items: seq<Item>, root: Option<int>, c: seq<int>) {
    Chain(items, root, c) && c != [] && Some(items[c[|c| - 1]].id) == root
  }

  /** A chain under a root that does not return, among rows with unique ids. */
  ghost predicate Rooted(items: seq<Item>, root: Option<int>, c: seq<int>) {
    UniqueIds(items) && NoReturn(items, root) && Chain(items, root, c)
  }

  /** Two chains that meet agree from there back up. */
  lemma {:induction false} ChainsMeet(items: seq<Item>, r: Option<int>, a: seq<int>, s: Option<int>, b: seq<int>,
                                      k: nat)
    requires UniqueIds(items) && Chain(items, r, a) && Chain(items, s, b)
    requires a != [] && b != [] && a[|a| - 1] == b[|b| - 1] && k < |a| && k < |b|
    ensures a[|a| - 1 - k] == b[|b| - 1 - k]
  {
    if k > 0 {
      ChainsMeet(items, r, a, s, b, k - 1);
      var x, y := a[|a| - 1 - k], b[|b| - 1 - k];
      assert items[a[|a| - k]].parent == Some(items[x].id);
      assert items[b[|b| - k]].parent == Some(items[y].id);
    }
  }

  /** From a root that does not return, every node has at most one chain. */
  lemma ChainIsUnique(items: seq<Item>, root: Option<int>, a: seq<int>, b: seq<int>)
    requires UniqueIds(items) && NoReturn(items, root) && Chain(items, root, a) && Chain(items, root, b)
    requires a != [] && b != [] && a[|a| - 1] == b[|b| - 1]
    ensures a == b
  {
    NotShorter(items, root, a, b);
    NotShorter(items, root, b, a);
    forall i | 0 <= i < |a| ensures a[i] == b[i] {
      ChainsMeet(items, root, a, root, b, |a| - 1 - i);
    }
  }

  lemma NotShorter(items: seq<Item>, root: Option<int>, a: seq<int>, b: seq<int>)
    requires UniqueIds(items) && NoReturn(items, root) && Chain(items, root, a) && Chain(items, root, b)
    requires a != [] && b != [] && a[|a| - 1] == b[|b| - 1]
    ensures |b| <= |a|
  {
    if |a| < |b| {
      LongerChainReturns(items, root, a, root, b);
    }
  }

  /** If two chains meet and one is longer, the other's root is a node of the longer one. */
  lemma LongerChainReturns(items: seq<Item>, r: Option<int>, a: seq<int>, s: Option<int>, b: seq<int>)
    requires UniqueIds(items) && Chain(items, r, a) && Chain(items, s, b)
    requires a != [] && b != [] && a[|a| - 1] == b[|b| - 1] && |a| < |b|
    ensures var above := b[..|b| - |a|]; Chain(items, s, above) && Some(items[above[|above| - 1]].id) == r
    ensures r == s ==> Returns(items, r, b[..|b| - |a|])
  {
    ChainsMeet(items, r, a, s, b, |a| - 1);
    assert items[b[|b| - |a|]].parent == Some(items[b[|b| - |a| - 1]].id);
  }

  lemma ChainGrows(items: seq<Item>, root: Option<int>, c: seq<int>, k: int)
    requires Rooted(items, root, c)
    requires 0 <= k < |items| && items[k].parent == After(items, root, c)
    ensures Chain(items, root, c + [k]) && k !in c
  {
    if k in c {
      var i :| 0 <= i < |c| && c[i] == k;
      assert Chain(items, root, c[..i + 1]);
      assert Chain(items, root, c + [k]);
      ChainIsUnique(items, root, c[..i + 1], c + [k]);
    }
  }

  /** The parent that the next position of a chain must have. */
  ghost function After(items: seq<Item>, root: Option<int>, c: seq<int>): Option<int>
    requires Chain(items, root, c)
  {
    if c == [] then root else Some(items[c[|c| - 1]].id)
  }

  ghost function Unused(items: seq<Item>, c: seq<int>): set<int> {
    set i | 0 <= i < |items| && i !in c
  }

  /** Under a root on a cycle there are chains of every length: the recursion would never end. */
  lemma {:induction false} CyclesUnwind(items: seq<Item>, root: Option<int>, n: nat) returns (c: seq<int>)
    requires !NoReturn(items, root)
    ensures Chain(items, root, c) && |c| >= n && After(items, root, c) == root
  {
    if n == 0 {
      c := [];
    } else {
      var before := CyclesUnwind(items, root, n - 1);
      var loop :| Returns(items, root, loop);
      c := before + loop;
    }
  }

  // ---------------------------------------------------------------- the forest

  datatype Tree = Tree(id: int, children: seq<Tree>)

  /** The forest below a chain: the children in row order, each with its own forest. */
  ghost function Forest(items: seq<Item>, root: Option<int>, c: seq<int>): (forest: seq<Tree>)
    requires Rooted(items, root, c)
    ensures |forest| == |Kids(items, After(items, root, c))|
    decreases Unused(items, c)
  {
    KidsAreKids(items, After(items, root, c), |items|);
    var kids := Kids(items, After(items, root, c));
    seq(|kids|, i requires 0 <= i < |kids| =>
      assert kids[i] in kids;
      ChainGrows(items, root, c, kids[i]);
      assert kids[i] in Unused(items, c) && kids[i] !in Unused(items, c + [kids[i]]);
      Tree(items[kids[i]].id, Forest(items, root, c + [kids[i]])))
  }

  /** How often an id occurs in a forest. */
  ghost function Count(forest: seq<Tree>, id: int): nat {
    if forest == [] then 0
    else (if forest[0].id == id then 1 else 0) + Count(forest[0].children, id) + Count(forest[1..], id)
  }

  /** Some chain from the root continues c, which may be all of it, down to position k. */
  ghost predicate Passes(items: seq<Item>, root: Option<int>, c: seq<int>, k: int) {
    exists d :: Chain(items, root, d) && d != [] && c <= d && d[|d| - 1] == k
  }

  /** Position k lies strictly below the chain c. */
  ghost predicate Below(items: seq<Item>, root: Option<int>, c: seq<int>, k: int) {
    exists d :: Chain(items, root, d) && |c| < |d| && c <= d && d[|d| - 1] == k
  }

  lemma BelowIffThroughKid(items: seq<Item>, root: Option<int>, c: seq<int>, k: int)
    requires Rooted(items, root, c)
    ensures Below(items, root, c, k) <==>
      exists i :: i in Kids(items, After(items, root, c)) && Passes(items, root, c + [i], k)
  {
    KidsAreKids(items, After(items, root, c), |items|);
    if Below(items, root, c, k) {
      var d :| Chain(items, root, d) && |c| < |d| && c <= d && d[|d| - 1] == k;
      assert c + [d[|c|]] <= d;
      assert Passes(items, root, c + [d[|c|]], k);
    }
    forall i | i in Kids(items, After(items, root, c)) && Passes(items, root, c + [i], k)
      ensures Below(items, root, c, k)
    {
      var d :| Chain(items, root, d) && d != [] && c + [i] <= d && d[|d| - 1] == k;
      assert c <= d;
    }
  }

  lemma OneKidPasses(items: seq<Item>, root: Option<int>, c: seq<int>, i: int, j: int, k: int)
    requires UniqueIds(items) && NoReturn(items, root)
    requires Passes(items, root, c + [i], k) && Passes(items, root, c + [j], k)
    ensures i == j
  {
    var d :| Chain(items, root, d) && d != [] && c + [i] <= d && d[|d| - 1] == k;
    var e :| Chain(items, root, e) && e != [] && c + [j] <= e && e[|e| - 1] == k;
    ChainIsUnique(items, root, d, e);
    assert (c + [i])[|c|] == d[|c|] && (c + [j])[|c|] == e[|c|];
  }

  lemma NotBelowItself(items: seq<Item>, root: Option<int>, c: seq<int>)
    requires Rooted(items, root, c) && c != []
    ensures !Below(items, root, c, c[|c| - 1])
  {
    if d :| Chain(items, root, d) && |c| < |d| && c <= d && d[|d| - 1] == c[|c| - 1] {
      ChainIsUnique(items, root, c, d);
    }
  }

  /** Counting a forest whose trees count to a given number each. */
  lemma {:induction false} CountSums(forest: seq<Tree>, id: int, hit: int)
    requires -1 <= hit < |forest|
    requires forall i :: 0 <= i < |forest| ==> CountTree(forest[i], id) == if i == hit then 1 else 0
    ensures Count(forest, id) == if hit >= 0 then 1 else 0
  {
    if forest != [] {
      var rest := forest[1..];
      forall i | 0 <= i < |rest| ensures CountTree(rest[i], id) == if i == hit - 1 then 1 else 0 {
        assert rest[i] == forest[i + 1];
      }
      CountSums(rest, id, if hit >= 1 then hit - 1 else -1);
      assert CountTree(forest[0], id) == if hit == 0 then 1 else 0;
    }
  }

  ghost function CountTree(t: Tree, id: int): nat {
    (if t.id == id then 1 else 0) + Count(t.children, id)
  }

  /** The forest below a chain holds every position below it exactly once, and no other. */
  lemma {:induction false} ForestCounts(items: seq<Item>, root: Option<int>, c: seq<int>, k: int)
    requires Rooted(items, root, c) && 0 <= k < |items|
    ensures Count(Forest(items, root, c), items[k].id) == if Below(items, root, c, k) then 1 else 0
    decreases Unused(items, c), 1
  {
    var kids, forest := Kids(items, After(items, root, c)), Forest(items, root, c);
    forall i | 0 <= i < |kids|
      ensures CountTree(forest[i], items[k].id) == if Passes(items, root, c + [kids[i]], k) then 1 else 0
    {
      KidCounts(items, root, c, i, k);
    }
    var hit := KidThatPasses(items, root, c, k);
    CountSums(forest, items[k].id, hit);
  }

  lemma {:induction false} KidCounts(items: seq<Item>, root: Option<int>, c: seq<int>, i: nat, k: int)
    requires Rooted(items, root, c) && 0 <= k < |items|
    requires i < |Kids(items, After(items, root, c))|
    ensures CountTree(Forest(items, root, c)[i], items[k].id)
      == if Passes(items, root, c + [Kids(items, After(items, root, c))[i]], k) then 1 else 0
    decreases Unused(items, c), 0
  {
    var kids := Kids(items, After(items, root, c));
    var d := c + [kids[i]];
    KidsAreKids(items, After(items, root, c), |items|);
    assert kids[i] in kids;
    ChainGrows(items, root, c, kids[i]);
    assert kids[i] in Unused(items, c) && kids[i] !in Unused(items, d);
    ForestCounts(items, root, d, k);
    NotBelowItself(items, root, d);
  }

  /** The child through which position k is reached, or -1 when k is not below. */
  lemma KidThatPasses(items: seq<Item>, root: Option<int>, c: seq<int>, k: int) returns (hit: int)
    requires Rooted(items, root, c)
    ensures var kids := Kids(items, After(items, root, c));
      && -1 <= hit < |kids| && (hit >= 0 <==> Below(items, root, c, k))
      && forall i :: 0 <= i < |kids| ==> (Passes(items, root, c + [kids[i]], k) <==> i == hit)
  {
    var kids := Kids(items, After(items, root, c));
    KidsAreKids(items, After(items, root, c), |items|);
    BelowIffThroughKid(items, root, c, k);
    hit := -1;
    if m :| m in kids && Passes(items, root, c + [m], k) {
      hit :| 0 <= hit < |kids| && kids[hit] == m;
    }
    forall i | 0 <= i < |kids| ensures Passes(items, root, c + [kids[i]], k) <==> i == hit {
      assert kids[i] in kids;
      if Passes(items, root, c + [kids[i]], k) {
        OneKidPasses(items, root, c, kids[i], kids[hit], k);
      }
    }
  }

  // ---------------------------------------------------------------- the whole forest

  /** A top node: its parent is null or not among the rows. */
  predicate IsTop(items: seq<Item>, k: int)
    requires 0 <= k < |items|
  {
    items[k].parent.None? || forall i :: 0 <= i < |items| ==> items[i].id != items[k].parent.value
  }

  function TopsUpTo(items: seq<Item>, n: nat): seq<int>
    requires n <= |items|
  {
    if n == 0 then [] else TopsUpTo(items, n - 1) + if IsTop(items, n - 1) then [n - 1] else []
  }

  lemma {:induction false} TopsAreTop(items: seq<Item>, n: nat)
    requires n <= |items|
    ensures forall k :: k in TopsUpTo(items, n) <==> 0 <= k < n && IsTop(items, k)
    ensures forall i, j :: 0 <= i < j < |TopsUpTo(items, n)| ==> TopsUpTo(items, n)[i] < TopsUpTo(items, n)[j]
  {
    if n > 0 {
      TopsAreTop(items, n - 1);
      var before := TopsUpTo(items, n - 1);
      forall i | 0 <= i < |before| ensures before[i] < n - 1 {
        assert before[i] in before;
      }
    }
  }

  lemma TopIsRooted(items: seq<Item>, k: int)
    requires UniqueIds(items) && 0 <= k < |items| && IsTop(items, k)
    ensures Rooted(items, items[k].parent, [k])
  {
  }

  ghost function TopForest(items: seq<Item>): (forest: seq<Tree>)
    requires UniqueIds(items)
    ensures |forest| == |TopsUpTo(items, |items|)|
  {
    var tops := TopsUpTo(items, |items|);
    TopsAreTop(items, |items|);
    seq(|tops|, i requires 0 <= i < |tops| =>
      assert tops[i] in tops;
      TopIsRooted(items, tops[i]);
      Tree(items[tops[i]].id, Forest(items, items[tops[i]].parent, [tops[i]])))
  }

  ghost function NullForest(items: seq<Item>): seq<Tree>
    requires UniqueIds(items)
  {
    Forest(items, None, [])
  }

  /** The parent chain of position k ends: at null, or at a parent that is not among the rows. */
  ghost predicate Grounded(items: seq<Item>, k: int) {
    exists d :: d != [] && 0 <= d[0] < |items| && IsTop(items, d[0])
      && Chain(items, items[d[0]].parent, d) && d[|d| - 1] == k
  }

  lemma TopCounts(items: seq<Item>, i: nat, k: int)
    requires UniqueIds(items) && i < |TopsUpTo(items, |items|)| && 0 <= k < |items|
    ensures var t := TopsUpTo(items, |items|)[i];
      && 0 <= t < |items| && IsTop(items, t)
      && CountTree(TopForest(items)[i], items[k].id) == if Passes(items, items[t].parent, [t], k) then 1 else 0
  {
    var tops := TopsUpTo(items, |items|);
    TopsAreTop(items, |items|);
    assert tops[i] in tops;
    var t := tops[i];
    TopIsRooted(items, t);
    ForestCounts(items, items[t].parent, [t], k);
    NotBelowItself(items, items[t].parent, [t]);
  }

  lemma OneTopPasses(items: seq<Item>, t: int, u: int, k: int)
    requires UniqueIds(items) && 0 <= t < |items| && 0 <= u < |items| && IsTop(items, t) && IsTop(items, u)
    requires Passes(items, items[t].parent, [t], k) && Passes(items, items[u].parent, [u], k)
    ensures t == u
  {
    var d :| Chain(items, items[t].parent, d) && d != [] && [t] <= d && d[|d| - 1] == k;
    var e :| Chain(items, items[u].parent, e) && e != [] && [u] <= e && e[|e| - 1] == k;
    assert d[0] == t && e[0] == u;
    if |d| < |e| {
      LongerChainReturns(items, items[t].parent, d, items[u].parent, e);
    } else if |e| < |d| {
      LongerChainReturns(items, items[u].parent, e, items[t].parent, d);
    } else {
      ChainsMeet(items, items[t].parent, d, items[u].parent, e, |d| - 1);
    }
  }

  lemma GroundedIffTopPasses(items: seq<Item>, k: int)
    requires UniqueIds(items)
    ensures Grounded(items, k) <==>
      exists t :: 0 <= t < |items| && IsTop(items, t) && Passes(items, items[t].parent, [t], k)
  {
    if Grounded(items, k) {
      var d :| d != [] && 0 <= d[0] < |items| && IsTop(items, d[0])
        && Chain(items, items[d[0]].parent, d) && d[|d| - 1] == k;
      assert [d[0]] <= d;
      assert Passes(items, items[d[0]].parent, [d[0]], k);
    }
    forall t | 0 <= t < |items| && IsTop(items, t) && Passes(items, items[t].parent, [t], k)
      ensures Grounded(items, k)
    {
      var d :| Chain(items, items[t].parent, d) && d != [] && [t] <= d && d[|d| - 1] == k;
      assert d[0] == t;
    }
  }

  /**
   * Conservation: the forest holds every row whose parent chain ends exactly
   * once, and no row whose chain runs into a cycle.
   */
  lemma TopForestCounts(items: seq<Item>, k: int)
    requires UniqueIds(items) && 0 <= k < |items|
    ensures Count(TopForest(items), items[k].id) == if Grounded(items, k) then 1 else 0
  {
    var tops, forest := TopsUpTo(items, |items|), TopForest(items);
    TopsAreTop(items, |items|);
    GroundedIffTopPasses(items, k);
    var hit := -1;
    if t :| 0 <= t < |items| && IsTop(items, t) && Passes(items, items[t].parent, [t], k) {
      hit :| 0 <= hit < |tops| && tops[hit] == t;
    }
    forall i | 0 <= i < |forest| ensures CountTree(forest[i], items[k].id) == if i == hit then 1 else 0 {
      TopCounts(items, i, k);
      if Passes(items, items[tops[i]].parent, [tops[i]], k) {
        OneTopPasses(items, tops[i], tops[hit], k);
      }
    }
    CountSums(forest, items[k].id, hit);
  }

  /** From the null root: every row whose parent chain reaches null exactly once, and no other. */
  lemma NullForestCounts(items: seq<Item>, k: int)
    requires UniqueIds(items) && 0 <= k < |items|
    ensures Count(NullForest(items), items[k].id) ==
      if exists d :: Chain(items, None, d) && d != [] && d[|d| - 1] == k then 1 else 0
  {
    ForestCounts(items, None, [], k);
    if d :| Chain(items, None, d) && d != [] && d[|d| - 1] == k {
      assert [] <= d;
    }
  }

  ghost predicate ParentsPresent(items: seq<Item>) {
    forall k :: 0 <= k < |items| && items[k].parent.Some? ==>
      exists i :: 0 <= i < |items| && items[i].id == items[k].parent.value
  }

  lemma {:induction false} TopsAreNullKids(items: seq<Item>, n: nat)
    requires ParentsPresent(items) && n <= |items|
    ensures TopsUpTo(items, n) == KidsUpTo(items, None, n)
  {
    if n > 0 {
      TopsAreNullKids(items, n - 1);
    }
  }

  /** When every parent is present, the top nodes are the null root's children, with the same forests. */
  lemma TopForestIsNullForest(items: seq<Item>)
    requires UniqueIds(items) && ParentsPresent(items)
    ensures TopForest(items) == NullForest(items)
  {
    TopsAreNullKids(items, |items|);
    TopsAreTop(items, |items|);
    var tops := TopsUpTo(items, |items|);
    forall i | 0 <= i < |tops| ensures TopForest(items)[i] == NullForest(items)[i] {
      assert tops[i] in tops;
      assert [] + [tops[i]] == [tops[i]];
    }
  }
}
