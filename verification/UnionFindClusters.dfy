/** Grouping notes that are linked by `similar_to` edges.

    `parent` is the dict forest: a node that is not a key is a root. `root`, `rank` and
    `bound` are ghost: the representative of every node, and a measure that grows along
    every parent link, so that the forest has no cycle and both `find` loops end. */
module UnionFindClusters {
  type Node = string
  type Pair = (Node, Node)

  function Itself(x: Node): Node { x }
  function Leaf(x: Node): nat { 0 }

  ghost predicate TotalRep(m: imap<Node, Node>) { forall x :: x in m }
  ghost predicate TotalRank(m: imap<Node, nat>) { forall x :: x in m }

  type Rep = m: imap<Node, Node> | TotalRep(m) ghost witness imap x: Node :: Itself(x)
  type Rank = m: imap<Node, nat> | TotalRank(m) ghost witness imap x: Node :: Leaf(x)

  // ------------------------------------------------------------- connectedness

  ghost predicate Linked(pairs: seq<Pair>, x: Node, y: Node) {
    (x, y) in pairs || (y, x) in pairs
  }

  ghost predicate IsPath(pairs: seq<Pair>, p: seq<Node>, x: Node, y: Node) {
    && p != [] && p[0] == x && p[|p| - 1] == y
    && forall i :: 0 <= i < |p| - 1 ==> Linked(pairs, p[i], p[i + 1])
  }

  ghost predicate Connected(pairs: seq<Pair>, x: Node, y: Node) {
    exists p :: IsPath(pairs, p, x, y)
  }

  ghost predicate Mentioned(pairs: seq<Pair>, x: Node) {
    exists i :: 0 <= i < |pairs| && (pairs[i].0 == x || pairs[i].1 == x)
  }

  lemma ConnectedRefl(pairs: seq<Pair>, x: Node)
    ensures Connected(pairs, x, x)
  {
    assert IsPath(pairs, [x], x, x);
  }

  lemma ConnectedSym(pairs: seq<Pair>, x: Node, y: Node)
    requires Connected(pairs, x, y)
    ensures Connected(pairs, y, x)
  {
    var p :| IsPath(pairs, p, x, y);
    var q := seq(|p|, i requires 0 <= i < |p| => p[|p| - 1 - i]);
    assert IsPath(pairs, q, y, x) by {
      forall i | 0 <= i < |q| - 1
        ensures Linked(pairs, q[i], q[i + 1])
      {
        assert Linked(pairs, p[|p| - 2 - i], p[|p| - 2 - i + 1]);
      }
    }
  }

  lemma ConnectedTrans(pairs: seq<Pair>, x: Node, y: Node, z: Node)
    requires Connected(pairs, x, y) && Connected(pairs, y, z)
    ensures Connected(pairs, x, z)
  {
    var p :| IsPath(pairs, p, x, y);
    var q :| IsPath(pairs, q, y, z);
    assert IsPath(pairs, p + q[1..], x, z);
  }

  lemma ConnectedExtend(pairs: seq<Pair>, pair: Pair, x: Node, y: Node)
    requires Connected(pairs, x, y)
    ensures Connected(pairs + [pair], x, y)
  {
    var p :| IsPath(pairs, p, x, y);
    forall i | 0 <= i < |p| - 1
      ensures Linked(pairs + [pair], p[i], p[i + 1])
    {
      assert Linked(pairs, p[i], p[i + 1]);
    }
    assert IsPath(pairs + [pair], p, x, y);
  }

  lemma PairConnected(pairs: seq<Pair>, pair: Pair)
    requires pair in pairs
    ensures Connected(pairs, pair.0, pair.1)
  {
    assert IsPath(pairs, [pair.0, pair.1], pair.0, pair.1);
  }

  /** A labelling that agrees on every pair agrees along every path. */
  lemma {:induction false} PathAgrees(pairs: seq<Pair>, rep: Rep, p: seq<Node>, x: Node, y: Node)
    requires forall i :: 0 <= i < |pairs| ==> rep[pairs[i].0] == rep[pairs[i].1]
    requires IsPath(pairs, p, x, y)
    ensures rep[x] == rep[y]
  {
    if |p| > 1 {
      assert Linked(pairs, p[0], p[1]);
      assert IsPath(pairs, p[1..], p[1], y) by {
        forall i | 0 <= i < |p[1..]| - 1
          ensures Linked(pairs, p[1..][i], p[1..][i + 1])
        {
          assert Linked(pairs, p[i + 1], p[i + 1 + 1]);
        }
      }
      PathAgrees(pairs, rep, p[1..], p[1], y);
    }
  }

  /** Roots that agree on every pair and are connected to their nodes decide connectedness. */
  lemma RootsDecide(pairs: seq<Pair>, rep: Rep, x: Node, y: Node)
    requires forall i :: 0 <= i < |pairs| ==> rep[pairs[i].0] == rep[pairs[i].1]
    requires Connected(pairs, x, rep[x]) && Connected(pairs, y, rep[y])
    ensures rep[x] == rep[y] <==> Connected(pairs, x, y)
  {
    if rep[x] == rep[y] {
      ConnectedSym(pairs, y, rep[y]);
      ConnectedTrans(pairs, x, rep[x], y);
    } else if Connected(pairs, x, y) {
      var p :| IsPath(pairs, p, x, y);
      PathAgrees(pairs, rep, p, x, y);
    }
  }

  // ------------------------------------------------------------------ the forest

  /** `root` and `rank` witness that `parent` is an acyclic forest with these roots. */
  ghost predicate IsForest(parent: map<Node, Node>, root: Rep, rank: Rank, bound: nat) {
    && (forall x :: x in parent ==> root[parent[x]] == root[x] && rank[x] < rank[parent[x]])
    && (forall x :: root[x] !in parent)
    && (forall x :: x in parent ==> rank[x] < rank[root[x]])
    && (forall x :: x !in parent ==> root[x] == x)
    && (forall x :: rank[x] <= bound)
  }

  lemma CompressKeepsForest(parent: map<Node, Node>, root: Rep, rank: Rank, bound: nat, x: Node)
    requires IsForest(parent, root, rank, bound) && x in parent
    ensures IsForest(parent[x := root[x]], root, rank, bound)
  {
  }

  ghost function JoinRoots(root: Rep, ra: Node, rb: Node): Rep {
    imap x {:trigger root[x]} :: if root[x] == rb then ra else root[x]
  }

  ghost function JoinRanks(rank: Rank, ra: Node, rb: Node): Rank {
    imap x {:trigger rank[x]} :: if x == ra && rank[ra] <= rank[rb] then rank[rb] + 1 else rank[x]
  }

  lemma JoinKeepsForest(parent: map<Node, Node>, root: Rep, rank: Rank, bound: nat, ra: Node, rb: Node)
    requires IsForest(parent, root, rank, bound) && ra !in parent && rb !in parent && ra != rb
    ensures IsForest(parent[rb := ra], JoinRoots(root, ra, rb), JoinRanks(rank, ra, rb), bound + 1)
  {
    assert root[ra] == ra && root[rb] == rb;
    var after, roots, ranks := parent[rb := ra], JoinRoots(root, ra, rb), JoinRanks(rank, ra, rb);
    forall x
      ensures roots[x] !in after && (x !in after ==> roots[x] == x) && ranks[x] <= bound + 1
    {
    }
    forall x | x in after
      ensures roots[after[x]] == roots[x] && ranks[x] < ranks[after[x]] && ranks[x] < ranks[roots[x]]
    {
      if x != rb {
        assert root[parent[x]] == root[x] && rank[x] < rank[parent[x]] && rank[x] < rank[root[x]];
      }
    }
  }

  class Forest {
    var parent: map<Node, Node>
    ghost var root: Rep
    ghost var rank: Rank
    ghost var bound: nat

    ghost predicate Valid()
      reads this
    {
      IsForest(parent, root, rank, bound)
    }

    constructor ()
      ensures Valid() && parent == map[] && forall x :: root[x] == x
    {
      parent, root, rank, bound := map[], imap x: Node :: Itself(x), imap x: Node :: Leaf(x), 0;
    }

    /** The two loops of `find`: up to the root, then compressing the path behind it.
        Parents are rewritten, but no node changes its root. */
    method Find(x0: Node) returns (r: Node)
      requires Valid()
      modifies `parent
      ensures Valid() && parent.Keys == old(parent.Keys)
      ensures r == root[x0]
      ensures forall x :: x in parent ==> parent[x] == old(parent)[x] || parent[x] == r
    {
      r := x0;
      while r in parent
        invariant root[r] == root[x0]
        decreases bound - rank[r]
      {
        r := parent[r];
      }
      Compress(x0, r);
    }

    method Compress(x0: Node, r: Node)
      requires Valid() && r == root[x0]
      modifies `parent
      ensures Valid() && parent.Keys == old(parent.Keys)
      ensures forall x :: x in parent ==> parent[x] == old(parent)[x] || parent[x] == r
    {
      var x := x0;
      while x in parent
        invariant Valid() && parent.Keys == old(parent.Keys)
        invariant root[x] == r
        invariant forall x :: x in parent ==> parent[x] == old(parent)[x] || parent[x] == r
        decreases bound - rank[x]
      {
        var next := parent[x];
        Repoint(x, r);
        x := next;
      }
    }

    method Repoint(x: Node, r: Node)
      requires Valid() && x in parent && r == root[x]
      modifies `parent
      ensures Valid() && parent == old(parent)[x := r]
    {
      CompressKeepsForest(parent, root, rank, bound, x);
      parent := parent[x := r];
    }

    /** Merges two trees: exactly the nodes rooted at `b`'s root move to `a`'s root. */
    method Union(a: Node, b: Node)
      requires Valid()
      modifies this
      ensures Valid()
      ensures root == JoinRoots(old(root), old(root)[a], old(root)[b])
    {
      var ra := Find(a);
      var rb := Find(b);
      if ra != rb {
        JoinKeepsForest(parent, root, rank, bound, ra, rb);
        parent := parent[rb := ra];
        root, rank, bound := JoinRoots(root, ra, rb), JoinRanks(rank, ra, rb), bound + 1;
      }
    }
  }

  // ------------------------------------------------------------------- clusters

  ghost predicate Distinct(s: seq<Node>) {
    forall i, j :: 0 <= i < j < |s| ==> s[i] != s[j]
  }

  /** `groups` partitions the mentioned nodes into the connected components of `pairs`. */
  ghost predicate IsComponents(pairs: seq<Pair>, groups: seq<seq<Node>>) {
    && (forall k :: 0 <= k < |groups| ==> groups[k] != [] && Distinct(groups[k]))
    && (forall x :: Mentioned(pairs, x) <==> exists k :: 0 <= k < |groups| && x in groups[k])
    && (forall j, k, x, y :: 0 <= j < |groups| && 0 <= k < |groups| && x in groups[j] && y in groups[k] ==>
          (j == k <==> Connected(pairs, x, y)))
  }

  /** What the union loop has established after the first `i` pairs. */
  ghost predicate Joined(pairs: seq<Pair>, nodes: set<Node>, root: Rep) {
    && (forall x :: x in nodes <==> Mentioned(pairs, x))
    && (forall k :: 0 <= k < |pairs| ==> root[pairs[k].0] == root[pairs[k].1])
    && (forall x :: Connected(pairs, x, root[x]))
  }

  lemma JoinedStep(pairs: seq<Pair>, i: nat, nodes: set<Node>, root: Rep)
    requires i < |pairs| && Joined(pairs[..i], nodes, root)
    ensures Joined(pairs[..i + 1], nodes + {pairs[i].0, pairs[i].1},
                   JoinRoots(root, root[pairs[i].0], root[pairs[i].1]))
  {
    var after := JoinRoots(root, root[pairs[i].0], root[pairs[i].1]);
    MentionedStep(pairs, i);
    UnionStaysConnected(pairs, i, root, after);
    var now := pairs[..i + 1];
    forall k | 0 <= k < |now|
      ensures after[now[k].0] == after[now[k].1]
    {
      if k < i { assert pairs[..i][k] == now[k]; }
    }
  }

  lemma JoinedDecides(pairs: seq<Pair>, nodes: set<Node>, root: Rep, groups: seq<seq<Node>>)
    requires Joined(pairs, nodes, root) && Grouped(groups, nodes, root)
    ensures IsComponents(pairs, groups)
  {
    forall x, y
      ensures root[x] == root[y] <==> Connected(pairs, x, y)
    {
      RootsDecide(pairs, root, x, y);
    }
  }

  method UnionFindClusters(pairs: seq<Pair>) returns (groups: seq<seq<Node>>)
    ensures IsComponents(pairs, groups)
  {
    var forest := new Forest();
    var nodes: set<Node> := {};
    assert Joined(pairs[..0], nodes, forest.root) by {
      forall x ensures Connected(pairs[..0], x, x) { ConnectedRefl(pairs[..0], x); }
    }
    for i := 0 to |pairs|
      invariant forest.Valid() && fresh(forest)
      invariant Joined(pairs[..i], nodes, forest.root)
    {
      var (a, b) := pairs[i];
      JoinedStep(pairs, i, nodes, forest.root);
      nodes := nodes + {a, b};
      forest.Union(a, b);
    }
    assert pairs[..|pairs|] == pairs;
    groups := GroupByRoot(forest, nodes);
    JoinedDecides(pairs, nodes, forest.root, groups);
  }

  lemma MentionedStep(pairs: seq<Pair>, i: nat)
    requires i < |pairs|
    ensures forall x :: Mentioned(pairs[..i + 1], x) <==> Mentioned(pairs[..i], x) || x == pairs[i].0 || x == pairs[i].1
  {
    forall x
      ensures Mentioned(pairs[..i + 1], x) <==> Mentioned(pairs[..i], x) || x == pairs[i].0 || x == pairs[i].1
    {
      if Mentioned(pairs[..i], x) {
        var k :| 0 <= k < i && (pairs[..i][k].0 == x || pairs[..i][k].1 == x);
        assert pairs[..i + 1][k] == pairs[..i][k];
      }
      if x == pairs[i].0 || x == pairs[i].1 {
        assert pairs[..i + 1][i] == pairs[i];
      }
      if Mentioned(pairs[..i + 1], x) {
        var k :| 0 <= k < i + 1 && (pairs[..i + 1][k].0 == x || pairs[..i + 1][k].1 == x);
        if k < i { assert pairs[..i][k] == pairs[k]; }
      }
    }
  }

  lemma UnionStaysConnected(pairs: seq<Pair>, i: nat, before: Rep, after: Rep)
    requires i < |pairs|
    requires forall x :: Connected(pairs[..i], x, before[x])
    requires after == JoinRoots(before, before[pairs[i].0], before[pairs[i].1])
    ensures forall x :: Connected(pairs[..i + 1], x, after[x])
  {
    var (a, b) := pairs[i];
    var now := pairs[..i + 1];
    assert now == pairs[..i] + [pairs[i]];
    assert now[i] == (a, b);
    PairConnected(now, (a, b));
    ConnectedSym(now, a, b);
    ConnectedExtend(pairs[..i], pairs[i], a, before[a]);
    ConnectedExtend(pairs[..i], pairs[i], b, before[b]);
    ConnectedSym(now, b, before[b]);
    ConnectedTrans(now, before[b], b, a);
    ConnectedTrans(now, before[b], a, before[a]);
    forall x
      ensures Connected(now, x, after[x])
    {
      ConnectedExtend(pairs[..i], pairs[i], x, before[x]);
      if before[x] == before[b] {
        ConnectedTrans(now, x, before[b], before[a]);
      }
    }
  }

  /** `groups` partitions `nodes` by root. */
  ghost predicate Grouped(groups: seq<seq<Node>>, nodes: set<Node>, root: Rep) {
    && (forall k :: 0 <= k < |groups| ==> groups[k] != [] && Distinct(groups[k]))
    && (forall x :: x in nodes <==> exists k :: 0 <= k < |groups| && x in groups[k])
    && (forall j, k, x, y :: 0 <= j < |groups| && 0 <= k < |groups| && x in groups[j] && y in groups[k] ==>
          (j == k <==> root[x] == root[y]))
  }

  /** The same for the dict being filled: `order` lists its keys as they were inserted. */
  ghost predicate Filling(groups: map<Node, seq<Node>>, order: seq<Node>, done: set<Node>, root: Rep) {
    && Distinct(order)
    && (forall r :: r in order <==> r in groups)
    && (forall r :: r in groups ==> groups[r] != [] && Distinct(groups[r]))
    && (forall r, x :: r in groups && x in groups[r] ==> x in done && root[x] == r)
    && (forall x :: x in done ==> root[x] in groups && x in groups[root[x]])
  }

  /** `groups.setdefault(root, []).append(node)` for every node. */
  method GroupByRoot(forest: Forest, nodes: set<Node>) returns (result: seq<seq<Node>>)
    requires forest.Valid()
    modifies forest
    ensures forest.Valid() && forest.root == old(forest.root)
    ensures Grouped(result, nodes, forest.root)
  {
    var groups: map<Node, seq<Node>> := map[];
    var order: seq<Node> := [];
    var todo := nodes;
    while todo != {}
      invariant todo <= nodes
      invariant forest.Valid() && forest.root == old(forest.root)
      invariant Filling(groups, order, nodes - todo, forest.root)
    {
      var node :| node in todo;
      var r := forest.Find(node);
      FillingStep(groups, order, nodes - todo, forest.root, node);
      if r !in groups {
        order := order + [r];
        groups := groups[r := [node]];
      } else {
        groups := groups[r := groups[r] + [node]];
      }
      assert nodes - (todo - {node}) == nodes - todo + {node};
      todo := todo - {node};
    }
    assert nodes - todo == nodes;
    result := seq(|order|, k requires 0 <= k < |order| && order[k] in groups => groups[order[k]]);
    FilledIsGrouped(groups, order, nodes, forest.root, result);
  }

  lemma FillingStep(groups: map<Node, seq<Node>>, order: seq<Node>, done: set<Node>, root: Rep, node: Node)
    requires Filling(groups, order, done, root) && node !in done
    ensures root[node] !in groups ==>
              Filling(groups[root[node] := [node]], order + [root[node]], done + {node}, root)
    ensures root[node] in groups ==>
              Filling(groups[root[node] := groups[root[node]] + [node]], order, done + {node}, root)
  {
  }

  lemma FilledIsGrouped(groups: map<Node, seq<Node>>, order: seq<Node>, nodes: set<Node>, root: Rep,
                        result: seq<seq<Node>>)
    requires Filling(groups, order, nodes, root)
    requires |result| == |order| && forall k :: 0 <= k < |order| ==> result[k] == groups[order[k]]
    ensures Grouped(result, nodes, root)
  {
    forall x | x in nodes
      ensures exists k :: 0 <= k < |result| && x in result[k]
    {
      var k :| 0 <= k < |order| && order[k] == root[x];
      assert x in result[k];
    }
  }

  // -------------------------------------------------------------------- capping

  function Flatten(parts: seq<seq<Node>>): seq<Node> {
    if parts == [] then [] else parts[0] + Flatten(parts[1..])
  }

  function LargeEnough(groups: seq<seq<Node>>, minSize: int): seq<seq<Node>> {
    if groups == [] then []
    else (if |groups[0]| >= minSize then [groups[0]] else []) + LargeEnough(groups[1..], minSize)
  }

  function Sliced(cluster: seq<Node>, maxSize: nat): seq<seq<Node>>
    requires 1 <= maxSize
  {
    if |cluster| > maxSize then [cluster[..maxSize]] + Sliced(cluster[maxSize..], maxSize)
    else if cluster != [] then [cluster] else []
  }

  function AllSliced(groups: seq<seq<Node>>, maxSize: nat): seq<seq<Node>>
    requires 1 <= maxSize
  {
    if groups == [] then [] else Sliced(groups[0], maxSize) + AllSliced(groups[1..], maxSize)
  }

  method CapClusters(clusters: seq<seq<Node>>, minSize: int, maxSize: nat) returns (capped: seq<seq<Node>>)
    requires 1 <= maxSize
    ensures capped == AllSliced(LargeEnough(clusters, minSize), maxSize)
  {
    var kept := LargeEnough(clusters, minSize);
    capped := [];
    for i := 0 to |kept|
      invariant AllSliced(kept, maxSize) == capped + AllSliced(kept[i..], maxSize)
    {
      var slices := SliceCluster(kept[i], maxSize);
      assert kept[i..][1..] == kept[i + 1..];
      capped := capped + slices;
    }
  }

  method SliceCluster(whole: seq<Node>, maxSize: nat) returns (slices: seq<seq<Node>>)
    requires 1 <= maxSize
    ensures slices == Sliced(whole, maxSize)
  {
    var cluster := whole;
    slices := [];
    while |cluster| > maxSize
      invariant Sliced(whole, maxSize) == slices + Sliced(cluster, maxSize)
      decreases |cluster|
    {
      slices := slices + [cluster[..maxSize]];
      cluster := cluster[maxSize..];
    }
    if cluster != [] {
      slices := slices + [cluster];
    }
  }

  /** Slicing loses and reorders nothing, and every slice but the last is full. */
  lemma {:induction false} SlicedFacts(cluster: seq<Node>, maxSize: nat)
    requires 1 <= maxSize
    ensures Flatten(Sliced(cluster, maxSize)) == cluster
    ensures var s := Sliced(cluster, maxSize);
            forall k :: 0 <= k < |s| ==> 1 <= |s[k]| <= maxSize && (k < |s| - 1 ==> |s[k]| == maxSize)
  {
    if |cluster| > maxSize {
      SlicedFacts(cluster[maxSize..], maxSize);
    } else if cluster != [] {
      assert Flatten([cluster]) == cluster + Flatten([cluster][1..]);
    }
  }

  lemma {:induction false} SlicesStayInside(cluster: seq<Node>, maxSize: nat, slice: seq<Node>)
    requires 1 <= maxSize && slice in Sliced(cluster, maxSize)
    ensures forall x :: x in slice ==> x in cluster
  {
    if |cluster| > maxSize && slice != cluster[..maxSize] {
      SlicesStayInside(cluster[maxSize..], maxSize, slice);
    }
  }

  /** Every chunk handed to validation is one to `maxSize` notes of a single component that
      has at least `minSize` of them. */
  lemma {:induction false} ChunksRespectComponents(groups: seq<seq<Node>>, minSize: int, maxSize: nat, chunk: seq<Node>)
    requires 1 <= maxSize && chunk in AllSliced(LargeEnough(groups, minSize), maxSize)
    ensures 1 <= |chunk| <= maxSize
    ensures exists k :: 0 <= k < |groups| && |groups[k]| >= minSize && forall x :: x in chunk ==> x in groups[k]
  {
    var large := LargeEnough(groups[1..], minSize);
    assert |groups[0]| >= minSize ==> LargeEnough(groups, minSize)[1..] == large;
    if |groups[0]| >= minSize && chunk in Sliced(groups[0], maxSize) {
      SlicedFacts(groups[0], maxSize);
      SlicesStayInside(groups[0], maxSize, chunk);
    } else {
      assert |groups[0]| < minSize ==> LargeEnough(groups, minSize) == large;
      ChunksRespectComponents(groups[1..], minSize, maxSize, chunk);
      var k :| 0 <= k < |groups[1..]| && |groups[1..][k]| >= minSize && forall x :: x in chunk ==> x in groups[1..][k];
      assert groups[1..][k] == groups[k + 1];
    }
  }

  /** Capping keeps every member of the large enough components, once and in order. */
  lemma {:induction false} CappingKeepsMembers(groups: seq<seq<Node>>, maxSize: nat)
    requires 1 <= maxSize
    ensures Flatten(AllSliced(groups, maxSize)) == Flatten(groups)
  {
    if groups != [] {
      CappingKeepsMembers(groups[1..], maxSize);
      SlicedFacts(groups[0], maxSize);
      FlattenConcat(Sliced(groups[0], maxSize), AllSliced(groups[1..], maxSize));
    }
  }

  lemma {:induction false} LargeMembers(groups: seq<seq<Node>>, minSize: int, x: Node)
    ensures x in Flatten(LargeEnough(groups, minSize)) <==>
              exists k :: 0 <= k < |groups| && |groups[k]| >= minSize && x in groups[k]
  {
    if groups != [] {
      LargeMembers(groups[1..], minSize, x);
      var rest := LargeEnough(groups[1..], minSize);
      assert |groups[0]| >= minSize ==> LargeEnough(groups, minSize) == [groups[0]] + rest;
      assert |groups[0]| < minSize ==> LargeEnough(groups, minSize) == rest;
      FlattenConcat([groups[0]], rest);
      assert Flatten([groups[0]]) == groups[0] + Flatten([groups[0]][1..]);
      assert forall k :: 1 <= k < |groups| ==> groups[k] == groups[1..][k - 1];
    }
  }

  /** A note is handed to validation if and only if its group has at least `minSize` notes. */
  lemma CappingReachesLarge(groups: seq<seq<Node>>, minSize: int, maxSize: nat, x: Node)
    requires 1 <= maxSize
    ensures x in Flatten(AllSliced(LargeEnough(groups, minSize), maxSize)) <==>
              exists k :: 0 <= k < |groups| && |groups[k]| >= minSize && x in groups[k]
  {
    CappingKeepsMembers(LargeEnough(groups, minSize), maxSize);
    LargeMembers(groups, minSize, x);
  }

  lemma {:induction false} FlattenConcat(a: seq<seq<Node>>, b: seq<seq<Node>>)
    ensures Flatten(a + b) == Flatten(a) + Flatten(b)
  {
    if a == [] {
      assert a + b == b;
    } else {
      assert (a + b)[1..] == a[1..] + b;
      FlattenConcat(a[1..], b);
    }
  }
}
