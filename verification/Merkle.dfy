/** Merkle trees over the transactions of a block (src/lib/core/core.cpp:220-268). */
module Merkle {
  import opened Script
  import opened Transactions
  import Bits
  import opened Options
  import Sequences

  type Hash = Bytes
  type Combine = (Hash, Hash) -> Hash

  const NoHash: Hash := ZeroBytes(32)

  function Min(a: int, b: int): (r: int)
    ensures r <= a && r <= b && (r == a || r == b)
  {
    if a < b then a else b
  }

  // -------------------------------------------------------------------- the tree

  /** The pair of hashes above which parent `i` stands; an odd one out is paired with itself. */
  function Pair(s: seq<Hash>, i: nat): (r: (Hash, Hash))
    requires 2 * i < |s|
  {
    (s[2 * i], s[Min(2 * i + 1, |s| - 1)])
  }

  /** The level above. */
  function Parents(s: seq<Hash>, hash: Combine): (r: seq<Hash>)
    ensures |r| == (|s| + 1) / 2
    ensures forall i :: 0 <= i < |r| ==> r[i] == hash(Pair(s, i).0, Pair(s, i).1)
  {
    seq((|s| + 1) / 2, i requires 0 <= i < (|s| + 1) / 2 => hash(Pair(s, i).0, Pair(s, i).1))
  }

  /** All levels, from the leaves up. */
  function Levels(s: seq<Hash>, hash: Combine): (r: seq<Hash>)
    decreases |s|
  {
    if |s| <= 1 then s else s + Levels(Parents(s, hash), hash)
  }

  function Root(s: seq<Hash>, hash: Combine): (r: Hash)
    decreases |s|
  {
    if s == [] then NoHash else if |s| == 1 then s[0] else Root(Parents(s, hash), hash)
  }

  /** nIndex ^ 1. */
  function Sibling(i: nat): (r: nat) {
    if i % 2 == 0 then i + 1 else i - 1
  }

  function Branch(s: seq<Hash>, i: nat, hash: Combine): (r: seq<Hash>)
    decreases |s|
  {
    if |s| <= 1 then [] else [s[Min(Sibling(i), |s| - 1)]] + Branch(Parents(s, hash), i / 2, hash)
  }

  /** The arguments of one step of the branch check. */
  function StepPair(h: Hash, other: Hash, i: int): (r: (Hash, Hash)) {
    if i % 2 == 1 then (other, h) else (h, other)
  }

  function Climb(h: Hash, branch: seq<Hash>, i: int, hash: Combine): (r: Hash)
    decreases |branch|
  {
    if branch == [] then h
    else
      var p := StepPair(h, branch[0], i);
      Climb(hash(p.0, p.1), branch[1..], i / 2, hash)
  }

  // ------------------------------------------------------------------ the theorems

  /** Leaf, branch and index give the pair that the parent stands above. */
  lemma PairOfLeaf(s: seq<Hash>, i: nat)
    requires |s| >= 2 && i < |s|
    ensures StepPair(s[i], s[Min(Sibling(i), |s| - 1)], i) == Pair(s, i / 2)
  {
    if i % 2 == 0 {
      assert 2 * (i / 2) == i;
    } else {
      assert 2 * (i / 2) == i - 1;
    }
  }

  /** Every leaf's branch leads to the root, odd levels included. */
  lemma {:induction false} BranchLeadsToRoot(s: seq<Hash>, i: nat, hash: Combine)
    requires i < |s|
    ensures Climb(s[i], Branch(s, i, hash), i, hash) == Root(s, hash)
    decreases |s|
  {
    if |s| >= 2 {
      PairOfLeaf(s, i);
      var b := Branch(s, i, hash);
      Sequences.ConsTail(s[Min(Sibling(i), |s| - 1)], Branch(Parents(s, hash), i / 2, hash));
      BranchLeadsToRoot(Parents(s, hash), i / 2, hash);
    }
  }

  lemma ParentsOfHalves(s: seq<Hash>, n: nat, hash: Combine)
    requires |s| == 4 * n
    ensures Parents(s, hash)[..n] == Parents(s[..2 * n], hash) && Parents(s, hash)[n..] == Parents(s[2 * n..], hash)
  {
  }

  /** Over a power of two the root is the hash of the left half's root and the right half's. */
  lemma {:induction false} RootOfHalves(s: seq<Hash>, k: nat, hash: Combine)
    requires |s| == 2 * Bits.Pow2(k)
    ensures Root(s, hash) == hash(Root(s[..Bits.Pow2(k)], hash), Root(s[Bits.Pow2(k)..], hash))
    decreases k
  {
    hide Parents;
    if k > 0 {
      var n := Bits.Pow2(k - 1);
      ParentsOfHalves(s, n, hash);
      RootOfHalves(Parents(s, hash), k - 1, hash);
    }
  }

  /** The pairs that are hashed to build the tree. */
  ghost function TreePairs(s: seq<Hash>, hash: Combine): (r: set<(Hash, Hash)>)
    decreases |s|
  {
    if |s| <= 1 then {}
    else (set i: nat | i < (|s| + 1) / 2 :: Pair(s, i)) + TreePairs(Parents(s, hash), hash)
  }

  /** The pairs that are hashed to check a branch. */
  ghost function ClimbPairs(h: Hash, branch: seq<Hash>, i: int, hash: Combine): (r: set<(Hash, Hash)>)
    decreases |branch|
  {
    if branch == [] then {}
    else
      var p := StepPair(h, branch[0], i);
      {p} + ClimbPairs(hash(p.0, p.1), branch[1..], i / 2, hash)
  }

  /** No two of the pairs have the same hash. */
  ghost predicate CollisionFree(pairs: set<(Hash, Hash)>, hash: Combine) {
    forall p, q :: p in pairs && q in pairs && hash(p.0, p.1) == hash(q.0, q.1) ==> p == q
  }

  lemma FewerPairs(pairs: set<(Hash, Hash)>, some: set<(Hash, Hash)>, hash: Combine)
    requires CollisionFree(pairs, hash) && some <= pairs
    ensures CollisionFree(some, hash)
  {
  }

  /** Only the leaf at the index passes, and only with its own branch: otherwise two of the hashed pairs collide. */
  lemma {:induction false} OnlyTheLeafPasses(s: seq<Hash>, i: nat, h: Hash, branch: seq<Hash>, hash: Combine)
    requires i < |s| && |branch| == |Branch(s, i, hash)|
    requires Climb(h, branch, i, hash) == Root(s, hash)
    requires CollisionFree(TreePairs(s, hash) + ClimbPairs(h, branch, i, hash), hash)
    ensures h == s[i] && branch == Branch(s, i, hash)
    decreases |s|
  {
    if |s| >= 2 {
      var p, up := StepPair(h, branch[0], i), Parents(s, hash);
      var own := s[Min(Sibling(i), |s| - 1)];
      var all := TreePairs(s, hash) + ClimbPairs(h, branch, i, hash);
      FewerPairs(all, TreePairs(up, hash) + ClimbPairs(hash(p.0, p.1), branch[1..], i / 2, hash), hash);
      OnlyTheLeafPasses(up, i / 2, hash(p.0, p.1), branch[1..], hash);
      PairOfLeaf(s, i);
      assert Pair(s, i / 2) in TreePairs(s, hash);
      assert p in ClimbPairs(h, branch, i, hash);
      assert p == Pair(s, i / 2);
      assert h == s[i] && branch[0] == own;
      assert branch == [branch[0]] + branch[1..];
    }
  }

  /** Equally many leaves with the same root are the same, unless two hashed pairs collide. */
  lemma {:induction false} RootDeterminesLeaves(s: seq<Hash>, t: seq<Hash>, hash: Combine)
    requires |s| == |t| && Root(s, hash) == Root(t, hash)
    requires CollisionFree(TreePairs(s, hash) + TreePairs(t, hash), hash)
    ensures s == t
    decreases |s|
  {
    hide Parents, Min;
    if |s| >= 2 {
      var u, v := Parents(s, hash), Parents(t, hash);
      FewerPairs(TreePairs(s, hash) + TreePairs(t, hash), TreePairs(u, hash) + TreePairs(v, hash), hash);
      RootDeterminesLeaves(u, v, hash);
      forall i | 0 <= i < |u|
        ensures Pair(s, i) == Pair(t, i)
      {
        SamePair(s, t, i, hash);
      }
      SamePairsSameLevel(s, t);
    }
  }

  lemma SamePair(s: seq<Hash>, t: seq<Hash>, i: nat, hash: Combine)
    requires |s| == |t| >= 2 && 2 * i < |s| && Parents(s, hash)[i] == Parents(t, hash)[i]
    requires CollisionFree(TreePairs(s, hash) + TreePairs(t, hash), hash)
    ensures Pair(s, i) == Pair(t, i)
  {
    assert Pair(s, i) in TreePairs(s, hash) && Pair(t, i) in TreePairs(t, hash);
  }

  lemma SamePairsSameLevel(s: seq<Hash>, t: seq<Hash>)
    requires |s| == |t| && forall i :: 0 <= i < (|s| + 1) / 2 ==> Pair(s, i) == Pair(t, i)
    ensures s == t
  {
    forall k | 0 <= k < |s|
      ensures s[k] == t[k]
    {
      assert Pair(s, k / 2) == Pair(t, k / 2);
      assert k == 2 * (k / 2) || k == Min(2 * (k / 2) + 1, |s| - 1);
    }
  }

  lemma SameParents(s: seq<Hash>, hash: Combine)
    requires |s| % 2 == 1 && |s| >= 3
    ensures Parents(s + [s[|s| - 1]], hash) == Parents(s, hash)
  {
    var t := s + [s[|s| - 1]];
    forall i | 0 <= i < (|s| + 1) / 2
      ensures Pair(t, i) == Pair(s, i)
    {
      if 2 * i + 1 < |s| {
        assert t[2 * i + 1] == s[2 * i + 1];
      }
    }
  }

  /** The number of leaves matters: repeating the last of an odd number of leaves keeps the root. */
  lemma RepeatedLastLeaf(s: seq<Hash>, hash: Combine)
    requires |s| % 2 == 1 && |s| >= 3
    ensures Root(s + [s[|s| - 1]], hash) == Root(s, hash)
  {
    hide Parents;
    SameParents(s, hash);
  }

  // ---------------------------------------------------- which leaves share a root

  /** The number of levels above the leaves. */
  function Height(n: nat): (r: nat) {
    if n <= 1 then 0 else 1 + Height((n + 1) / 2)
  }

  /** Which of `n` leaves stands at place `i` of the full tree, where the last node of an odd level stands twice. */
  function Place(n: nat, i: nat): (r: nat)
    requires n >= 1
    ensures r < n
    decreases n
  {
    if n == 1 then 0 else Min(2 * Place((n + 1) / 2, i / 2) + i % 2, n - 1)
  }

  /** The leaves of the full tree: the given ones after duplication at every odd level. */
  function Filled(s: seq<Hash>): (r: seq<Hash>)
    requires s != []
    ensures |r| == Bits.Pow2(Height(|s|))
  {
    seq(Bits.Pow2(Height(|s|)), i requires 0 <= i < Bits.Pow2(Height(|s|)) => s[Place(|s|, i)])
  }

  /** The parents' full tree stands above that of the leaves. */
  lemma {:induction false} FilledPair(s: seq<Hash>, j: nat, hash: Combine)
    requires |s| >= 2 && j < Bits.Pow2(Height(|s|) - 1)
    ensures var p := Place((|s| + 1) / 2, j);
            2 * p < |s| && Pair(s, p) == (Filled(s)[2 * j], Filled(s)[2 * j + 1]) &&
            Filled(Parents(s, hash))[j] == hash(Pair(s, p).0, Pair(s, p).1)
  {
    hide Place, Height, Parents;
    LevelsOfHeight(|s|);
    PlaceBelow(|s|, j);
  }

  lemma {:induction false} PlaceBelow(n: nat, j: nat)
    requires n >= 2
    ensures Place(n, 2 * j) == Min(2 * Place((n + 1) / 2, j), n - 1)
    ensures Place(n, 2 * j + 1) == Min(2 * Place((n + 1) / 2, j) + 1, n - 1)
  {
    assert 2 * j / 2 == j && (2 * j + 1) / 2 == j;
  }

  /** The level `d` steps above the given one. */
  function Above(s: seq<Hash>, d: nat, hash: Combine): (r: seq<Hash>)
    decreases d
  {
    if d == 0 then s else Above(Parents(s, hash), d - 1, hash)
  }

  lemma {:induction false} AboveKeepsRoot(s: seq<Hash>, d: nat, hash: Combine)
    requires s != [] && d <= Height(|s|)
    ensures var u := Above(s, d, hash);
            u != [] && Height(|u|) == Height(|s|) - d && Root(u, hash) == Root(s, hash) &&
            TreePairs(u, hash) <= TreePairs(s, hash)
    decreases d
  {
    hide Parents, Pair;
    if d > 0 {
      LevelsOfHeight(|s|);
      AboveKeepsRoot(Parents(s, hash), d - 1, hash);
    }
  }

  /** Two trees, of which the first is at least as high, have the same root exactly when the level of the first
      at the height of the second has, after duplication at every odd level, the leaves of the second; unless
      two hashed pairs collide. */
  lemma {:induction false} SameRoot(s: seq<Hash>, t: seq<Hash>, hash: Combine)
    requires s != [] && t != [] && Height(|s|) >= Height(|t|)
    requires CollisionFree(TreePairs(s, hash) + TreePairs(t, hash), hash)
    ensures var u := Above(s, Height(|s|) - Height(|t|), hash);
            u != [] && (Root(s, hash) == Root(t, hash) <==> Filled(u) == Filled(t))
  {
    hide Above, TreePairs, Filled, Height;
    var d := Height(|s|) - Height(|t|);
    AboveKeepsRoot(s, d, hash);
    var u := Above(s, d, hash);
    FewerPairs(TreePairs(s, hash) + TreePairs(t, hash), TreePairs(u, hash) + TreePairs(t, hash), hash);
    SameRootAtHeight(u, t, hash);
  }

  /** Two leaves and their one parent. */
  lemma LeafAndParent(a: Hash, b: Hash, hash: Combine)
    ensures Root([a, b], hash) == Root([hash(a, b)], hash)
  {
    assert Pair([a, b], 0) == (a, b);
    assert Parents([a, b], hash) == [hash(a, b)];
  }

  /** Trees of the same height have the same root exactly when their leaves are the same after duplication at
      every odd level, unless two hashed pairs collide. */
  lemma {:induction false} SameRootAtHeight(s: seq<Hash>, t: seq<Hash>, hash: Combine)
    requires s != [] && t != [] && Height(|s|) == Height(|t|)
    requires CollisionFree(TreePairs(s, hash) + TreePairs(t, hash), hash)
    ensures Root(s, hash) == Root(t, hash) <==> Filled(s) == Filled(t)
    decreases |s|
  {
    hide Parents, Min;
    if |s| == 1 {
      assert Filled(s) == s && Filled(t) == t;
    } else {
      var u, v := Parents(s, hash), Parents(t, hash);
      FewerPairs(TreePairs(s, hash) + TreePairs(t, hash), TreePairs(u, hash) + TreePairs(v, hash), hash);
      SameRootAtHeight(u, v, hash);
      FilledTogether(s, t, hash);
    }
  }

  lemma {:induction false} FilledTogether(s: seq<Hash>, t: seq<Hash>, hash: Combine)
    requires |s| >= 2 && |t| >= 2 && Height(|s|) == Height(|t|)
    requires CollisionFree(TreePairs(s, hash) + TreePairs(t, hash), hash)
    ensures Filled(Parents(s, hash)) == Filled(Parents(t, hash)) <==> Filled(s) == Filled(t)
  {
    hide Parents, TreePairs, CollisionFree, Height, Min, Place;
    LevelsOfHeight(|s|);
    LevelsOfHeight(|t|);
    var u, v := Filled(Parents(s, hash)), Filled(Parents(t, hash));
    var n := Bits.Pow2(Height(|s|) - 1);
    forall j | 0 <= j < n
      ensures u[j] == v[j] <==> Filled(s)[2 * j] == Filled(t)[2 * j] && Filled(s)[2 * j + 1] == Filled(t)[2 * j + 1]
    {
      ParentsTogether(s, t, j, hash);
    }
    hide Filled;
    SameHalves(Filled(s), Filled(t), u, v, n);
  }

  lemma LevelsOfHeight(n: nat)
    requires n >= 2
    ensures Height(n) >= 1 && Height((n + 1) / 2) == Height(n) - 1
    ensures Bits.Pow2(Height(n)) == 2 * Bits.Pow2(Height(n) - 1)
  {
  }

  lemma {:induction false} ParentsTogether(s: seq<Hash>, t: seq<Hash>, j: nat, hash: Combine)
    requires |s| >= 2 && |t| >= 2 && Height(|s|) == Height(|t|) && j < Bits.Pow2(Height(|s|) - 1)
    requires CollisionFree(TreePairs(s, hash) + TreePairs(t, hash), hash)
    ensures Filled(Parents(s, hash))[j] == Filled(Parents(t, hash))[j] <==>
            Filled(s)[2 * j] == Filled(t)[2 * j] && Filled(s)[2 * j + 1] == Filled(t)[2 * j + 1]
  {
    hide Parents, Height, Min, Filled, Place;
    FilledPair(s, j, hash);
    FilledPair(t, j, hash);
    assert Pair(s, Place((|s| + 1) / 2, j)) in TreePairs(s, hash);
    assert Pair(t, Place((|t| + 1) / 2, j)) in TreePairs(t, hash);
  }

  lemma SameHalves(a: seq<Hash>, b: seq<Hash>, u: seq<Hash>, v: seq<Hash>, n: nat)
    requires |a| == |b| == 2 * n && |u| == |v| == n
    requires forall j :: 0 <= j < n ==> (u[j] == v[j] <==> a[2 * j] == b[2 * j] && a[2 * j + 1] == b[2 * j + 1])
    ensures u == v <==> a == b
  {
    if u == v {
      forall i | 0 <= i < 2 * n
        ensures a[i] == b[i]
      {
        assert u[i / 2] == v[i / 2];
      }
    }
  }

  /** Six leaves, and the same six with the last two once more. */
  lemma {:induction false} SixAndEight(s: seq<Hash>, hash: Combine)
    requires |s| == 6
    ensures Filled(s) == Filled(s + s[4..])
    ensures Root(s + s[4..], hash) == Root(s, hash)
  {
    hide Place, Min, Parents;
    assert Bits.Pow2(3) == 8 && Height(8) == Height(6) == 3 by { assert Height(1) == 0 && Height(4) == 2 && Height(3) == 2; }
    forall i | 0 <= i < 8
      ensures (s + s[4..])[Place(8, i)] == s[Place(6, i)]
    {
      PlaceOfSix(i);
    }
    ParentsOfSix(s, hash);
    RepeatedLastLeaf(Parents(s, hash), hash);
  }

  lemma {:induction false} ParentsOfSix(s: seq<Hash>, hash: Combine)
    requires |s| == 6
    ensures Parents(s + s[4..], hash) == Parents(s, hash) + [Parents(s, hash)[2]]
  {
    var t := s + s[4..];
    assert Pair(t, 0) == Pair(s, 0) && Pair(t, 1) == Pair(s, 1) && Pair(t, 2) == Pair(s, 2) && Pair(t, 3) == Pair(s, 2);
  }

  lemma {:induction false} PlaceOfSix(i: nat)
    requires i < 8
    ensures Place(8, i) == i && Place(6, i) == if i < 6 then i else i - 2
  {
    hide Place;
    PlaceStep(8, i);
    PlaceStep(4, i / 2);
    PlaceStep(2, i / 2 / 2);
    PlaceStep(6, i);
    PlaceStep(3, i / 2);
    PlaceStep(1, i / 2 / 2 / 2);
  }

  lemma {:induction false} PlaceStep(n: nat, i: nat)
    requires n >= 1
    ensures Place(n, i) == if n == 1 then 0 else Min(2 * Place((n + 1) / 2, i / 2) + i % 2, n - 1)
  {
  }

  // ------------------------------------------------------------------- the block

  function HashesOf(txs: seq<Tx>, txHash: Tx -> Hash): (r: seq<Hash>)
    ensures |r| == |txs| && forall i :: 0 <= i < |txs| ==> r[i] == txHash(txs[i])
  {
    seq(|txs|, i requires 0 <= i < |txs| => txHash(txs[i]))
  }

  /** The branch as it is read from the stored levels, of which the current one begins at `j`. */
  function StoredBranch(tree: seq<Hash>, j: nat, nSize: nat, i: nat): (r: Option<seq<Hash>>)
    decreases nSize
  {
    if nSize <= 1 then Some([])
    else
      var k := j + Min(Sibling(i), nSize - 1);
      if k >= |tree| then None else Behind([tree[k]], StoredBranch(tree, j + nSize, (nSize + 1) / 2, i / 2))
  }

  function Behind(a: seq<Hash>, b: Option<seq<Hash>>): (r: Option<seq<Hash>>) {
    if b.Some? then Some(a + b.value) else None
  }

  lemma NothingBefore(b: Option<seq<Hash>>)
    ensures Behind([], b) == b
  {
    if b.Some? { Sequences.NothingAround(b.value); }
  }

  lemma OneSibling(found: seq<Hash>, tree: seq<Hash>, j: nat, nSize: nat, i: nat)
    requires nSize > 1
    ensures var k := j + Min(Sibling(i), nSize - 1);
            Behind(found, StoredBranch(tree, j, nSize, i)) ==
              if k >= |tree| then None
              else Behind(found + [tree[k]], StoredBranch(tree, j + nSize, (nSize + 1) / 2, i / 2))
  {
    hide Min, Sibling;
    var k, more := j + Min(Sibling(i), nSize - 1), StoredBranch(tree, j + nSize, (nSize + 1) / 2, i / 2);
    if k < |tree| && more.Some? {
      Sequences.Assoc(found, [tree[k]], more.value);
    }
  }

  /** In a tree of the leaves it is their branch. */
  lemma {:induction false} StoredBranchIs(done: seq<Hash>, level: seq<Hash>, i: nat, hash: Combine)
    ensures StoredBranch(done + Levels(level, hash), |done|, |level|, i) == Some(Branch(level, i, hash))
    decreases |level|
  {
    hide Parents;
    if |level| > 1 {
      var up := Parents(level, hash);
      Sequences.Assoc(done, level, Levels(up, hash));
      StoredBranchIs(done + level, up, i / 2, hash);
    }
  }

  lemma StoredIfUpToDate(tree: seq<Hash>, leaves: seq<Hash>, i: nat, hash: Combine)
    ensures tree == Levels(leaves, hash) ==> StoredBranch(tree, 0, |leaves|, i) == Some(Branch(leaves, i, hash))
  {
    hide Levels, Branch, StoredBranch;
    Sequences.NothingAround(Levels(leaves, hash));
    StoredBranchIs([], leaves, i, hash);
  }

  lemma AllFound(found: seq<Hash>, tree: seq<Hash>, j: nat, nSize: nat, i: nat)
    requires nSize <= 1
    ensures Behind(found, StoredBranch(tree, j, nSize, i)) == Some(found)
  {
    Sequences.NothingAround(found);
  }

  class Block {
    const txHash: Tx -> Hash
    const hash: Combine
    var vtx: seq<Tx>
    /** Filled by BuildMerkleTree and kept. */
    var vMerkleTree: seq<Hash>

    constructor (txHash: Tx -> Hash, hash: Combine, txs: seq<Tx>)
      ensures vtx == txs && vMerkleTree == [] && this.txHash == txHash && this.hash == hash
    {
      this.txHash := txHash;
      this.hash := hash;
      vtx := txs;
      vMerkleTree := [];
    }

    function Leaves(): (r: seq<Hash>)
      reads this`vtx
    {
      HashesOf(vtx, txHash)
    }

    /** Nothing has been built, or the tree of the transactions. */
    predicate UpToDate()
      reads this
    {
      vMerkleTree == [] || vMerkleTree == Levels(Leaves(), hash)
    }

    method BuildMerkleTree() returns (root: Hash)
      modifies this`vMerkleTree
      ensures vMerkleTree == Levels(Leaves(), hash)
      ensures root == Root(Leaves(), hash)
    {
      hide Parents, Height, Place, Filled, Pair, Branch;
      var tree: seq<Hash> := [];
      for k := 0 to |vtx|
        invariant tree == Leaves()[..k]
      {
        tree := tree + [txHash(vtx[k])];
      }
      var j, nSize := 0, |vtx|;
      ghost var done: seq<Hash>, level := [], Leaves();
      Sequences.NothingAround(level);
      Sequences.NothingAround(Levels(level, hash));
      while nSize > 1
        invariant 0 <= nSize == |level| && j == |done| && tree == done + level
        invariant Levels(Leaves(), hash) == done + Levels(level, hash)
        invariant Root(Leaves(), hash) == Root(level, hash)
        invariant level == [] ==> done == []
        decreases nSize
      {
        tree := AddLevel(tree, j, nSize, hash, level);
        Sequences.Assoc(done, level, Levels(Parents(level, hash), hash));
        j := j + nSize;
        done, level := done + level, Parents(level, hash);
        nSize := (nSize + 1) / 2;
      }
      vMerkleTree := tree;
      root := if vMerkleTree == [] then NoHash else vMerkleTree[|vMerkleTree| - 1];
    }

    /** The other side at every level. An old tree is not rebuilt when the transactions have changed; None where
        the source then reads behind its end. */
    method GetMerkleBranch(index: nat) returns (branch: Option<seq<Hash>>)
      modifies this`vMerkleTree
      ensures vMerkleTree == if old(vMerkleTree) == [] then Levels(Leaves(), hash) else old(vMerkleTree)
      ensures branch == StoredBranch(vMerkleTree, 0, |vtx|, index)
      ensures old(UpToDate()) ==> UpToDate() && branch == Some(Branch(Leaves(), index, hash))
    {
      hide Parents, Branch, Levels, Min, Sibling, StoredBranch, Behind;
      if vMerkleTree == [] {
        var root := BuildMerkleTree();
      }
      StoredIfUpToDate(vMerkleTree, Leaves(), index, hash);
      ghost var tree := vMerkleTree;
      var found: seq<Hash>, j, nSize, nIndex := [], 0, |vtx|, index;
      NothingBefore(StoredBranch(vMerkleTree, 0, |vtx|, index));
      while nSize > 1
        invariant 0 <= nSize && 0 <= nIndex && 0 <= j && vMerkleTree == tree
        invariant Behind(found, StoredBranch(vMerkleTree, j, nSize, nIndex)) == StoredBranch(vMerkleTree, 0, |vtx|, index)
        decreases nSize
      {
        var i := Min(Sibling(nIndex), nSize - 1);
        OneSibling(found, vMerkleTree, j, nSize, nIndex);
        if j + i >= |vMerkleTree| {
          return None;
        }
        found := found + [vMerkleTree[j + i]];
        nIndex := nIndex / 2;
        j := j + nSize;
        nSize := (nSize + 1) / 2;
      }
      branch := Some(found);
      AllFound(found, vMerkleTree, j, nSize, nIndex);
    }

    static method CheckMerkleBranch(leaf: Hash, branch: seq<Hash>, index: int, hash: Combine) returns (h: Hash)
      ensures h == if index == -1 then NoHash else Climb(leaf, branch, index, hash)
    {
      if index == -1 {
        return NoHash;
      }
      h := leaf;
      var nIndex := index;
      for k := 0 to |branch|
        invariant Climb(h, branch[k..], nIndex, hash) == Climb(leaf, branch, index, hash)
      {
        assert branch[k..][1..] == branch[k + 1..];
        var otherside := branch[k];
        if nIndex % 2 == 1 {
          h := hash(otherside, h);
        } else {
          h := hash(h, otherside);
        }
        nIndex := nIndex / 2;
      }
    }
  }

  /** The inner loop of BuildMerkleTree: the parents of the level that starts at `j`. */
  method AddLevel(tree: seq<Hash>, j: nat, nSize: nat, hash: Combine, ghost level: seq<Hash>) returns (r: seq<Hash>)
    requires nSize >= 2 && |level| == nSize && |tree| == j + nSize && tree[j..] == level
    ensures r == tree + Parents(level, hash)
  {
    r := tree;
    var i := 0;
    while i < nSize
      invariant 0 <= i <= nSize + 1 && i % 2 == 0
      invariant |r| == |tree| + i / 2 && r == tree + Parents(level, hash)[..i / 2]
      decreases nSize - i
    {
      var i2 := Min(i + 1, nSize - 1);
      assert r[j + i] == tree[j..][i] && r[j + i2] == tree[j..][i2];
      assert Pair(level, i / 2) == (level[i], level[i2]);
      r := r + [hash(r[j + i], r[j + i2])];
      i := i + 2;
    }
    assert Parents(level, hash)[..i / 2] == Parents(level, hash);
  }

  /** The three methods together: every transaction's branch is accepted. */
  method ProveInclusion(block: Block, i: nat) returns (ok: bool)
    requires i < |block.vtx|
    modifies block`vMerkleTree
    ensures ok
  {
    var root := block.BuildMerkleTree();
    var branch := block.GetMerkleBranch(i);
    var h := Block.CheckMerkleBranch(block.txHash(block.vtx[i]), branch.value, i, block.hash);
    BranchLeadsToRoot(block.Leaves(), i, block.hash);
    ok := h == root;
  }
}
