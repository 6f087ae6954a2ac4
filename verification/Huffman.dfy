/** Building the Huffman tree from a priority queue (src/lib/bms/DataCompression.cpp:29-167). */
module Huffman {
  import opened Bits
  import opened CodeTrees
  import opened PrefixCodes
  import Sequences

  type Symbol = Byte
  type FreqMap = map<Symbol, int>

  datatype Node =
    | LeafNode(frequency: int, character: Symbol)
    | InternalNode(frequency: int, left: Node, right: Node)

  /** The InternalNode constructor: the frequency is the children's sum. */
  function Parent(node1: Node, node2: Node): Node {
    InternalNode(node1.frequency + node2.frequency, node1, node2)
  }

  function ShapeOf(t: Node): Shape {
    match t
    case LeafNode(_, _) => Tip
    case InternalNode(_, l, r) => Fork(ShapeOf(l), ShapeOf(r))
  }

  /** The leaves from left to right as (symbol, frequency). */
  function Leaves(t: Node): (r: seq<(Symbol, int)>)
    ensures |r| >= 1
  {
    match t
    case LeafNode(f, c) => [(c, f)]
    case InternalNode(_, l, r) => Leaves(l) + Leaves(r)
  }

  function Weights(t: Node): (r: seq<int>)
    ensures |r| == |Depths(ShapeOf(t), 0)|
  {
    match t
    case LeafNode(f, _) => [f]
    case InternalNode(_, l, r) =>
      SameSize(ShapeOf(l), 0, 1);
      SameSize(ShapeOf(r), 0, 1);
      Weights(l) + Weights(r)
  }

  lemma {:induction false} SameSize(t: Shape, d: nat, e: nat)
    ensures |Depths(t, d)| == |Depths(t, e)|
  {
    match t
    case Tip =>
    case Fork(l, r) =>
      SameSize(l, d + 1, e + 1);
      SameSize(r, d + 1, e + 1);
  }

  lemma {:induction false} WeightsOfLeaves(t: Node)
    ensures |Weights(t)| == |Leaves(t)|
    ensures forall i :: 0 <= i < |Leaves(t)| ==> Weights(t)[i] == Leaves(t)[i].1
  {
    match t
    case LeafNode(_, _) =>
    case InternalNode(_, l, r) =>
      WeightsOfLeaves(l);
      WeightsOfLeaves(r);
  }

  /** The sum of the leaves' frequencies. */
  function Mass(t: Node): int {
    match t
    case LeafNode(f, _) => f
    case InternalNode(_, l, r) => Mass(l) + Mass(r)
  }

  /** Every edge is paid for by the leaves below it. */
  function TreeCost(t: Node): int {
    match t
    case LeafNode(_, _) => 0
    case InternalNode(_, l, r) => TreeCost(l) + TreeCost(r) + Mass(l) + Mass(r)
  }

  /** That is the weighted path length: the sum of frequency times depth over the leaves. */
  lemma {:induction false} TreeCostIsPathLength(t: Node)
    ensures Mass(t) == Total(Weights(t))
    ensures TreeCost(t) == Cost(ShapeOf(t), Weights(t))
  {
    match t
    case LeafNode(f, _) =>
      TotalCons(f, []);
      DotSingle(f, 0);
    case InternalNode(_, l, r) =>
      TreeCostIsPathLength(l);
      TreeCostIsPathLength(r);
      TotalConcat(Weights(l), Weights(r));
      ForkCost(ShapeOf(l), ShapeOf(r), Weights(l), Weights(r));
  }

  /** Every internal node carries the sum of its children's frequencies. */
  ghost predicate SumsUp(t: Node) {
    t.InternalNode? ==>
      t.frequency == t.left.frequency + t.right.frequency && SumsUp(t.left) && SumsUp(t.right)
  }

  lemma {:induction false} SumIsMass(t: Node)
    requires SumsUp(t)
    ensures t.frequency == Mass(t)
  {
    match t
    case LeafNode(f, _) =>
    case InternalNode(_, l, r) =>
      SumIsMass(l);
      SumIsMass(r);
  }

  // ------------------------------------------------------------- priority queue

  /** std::priority_queue with NodeCmp: a least frequent node comes first; which one of several
      equally frequent nodes comes first is left open. */
  class PriorityQueue {
    var items: seq<Node>

    constructor ()
      ensures items == []
    {
      items := [];
    }

    method Push(n: Node)
      modifies this
      ensures items == old(items) + [n]
    {
      items := items + [n];
    }

    /** top() followed by pop(). */
    method Pop() returns (n: Node, ghost i: nat)
      requires items != []
      modifies this
      ensures i < |old(items)| && n == old(items)[i] && items == Sequences.RemoveAt(old(items), i)
      ensures Least(old(items), i)
    {
      LeastExists(items);
      var j: nat :| j < |items| && Least(items, j);
      n, i := items[j], j;
      items := items[..j] + items[j + 1..];
    }
  }

  /** No node of the queue is less frequent than the one at `i`. */
  predicate Least(q: seq<Node>, i: nat)
    requires i < |q|
  {
    forall k :: 0 <= k < |q| ==> q[i].frequency <= q[k].frequency
  }

  lemma {:induction false} LeastExists(q: seq<Node>)
    requires q != []
    ensures exists j: nat :: j < |q| && Least(q, j)
  {
    if |q| == 1 {
      assert Least(q, 0);
    } else {
      LeastExists(q[1..]);
      var j: nat :| j < |q[1..]| && Least(q[1..], j);
      var i := if q[0].frequency <= q[j + 1].frequency then 0 else j + 1;
      forall k | 0 <= k < |q|
        ensures q[i].frequency <= q[k].frequency
      {
        if k > 0 { assert q[1..][j].frequency <= q[1..][k - 1].frequency; }
      }
      assert Least(q, i);
    }
  }

  // ------------------------------------------------------------------- the queue as a forest

  function Roots(q: seq<Node>): (r: seq<int>)
    ensures |r| == |q| && forall i :: 0 <= i < |q| ==> r[i] == q[i].frequency
  {
    seq(|q|, i requires 0 <= i < |q| => q[i].frequency)
  }

  function ForestCost(q: seq<Node>): (r: int) {
    if q == [] then 0 else TreeCost(q[0]) + ForestCost(q[1..])
  }

  function ForestLeaves(q: seq<Node>): (r: seq<(Symbol, int)>) {
    if q == [] then [] else Leaves(q[0]) + ForestLeaves(q[1..])
  }

  ghost predicate AllSumUp(q: seq<Node>) {
    forall i :: 0 <= i < |q| ==> SumsUp(q[i])
  }

  lemma {:induction false} ForestCostConcat(p: seq<Node>, q: seq<Node>)
    ensures ForestCost(p + q) == ForestCost(p) + ForestCost(q)
  {
    if p == [] {
      assert p + q == q;
    } else {
      ForestCostConcat(p[1..], q);
      assert (p + q)[1..] == p[1..] + q;
    }
  }

  lemma {:induction false} ForestLeavesConcat(p: seq<Node>, q: seq<Node>)
    ensures ForestLeaves(p + q) == ForestLeaves(p) + ForestLeaves(q)
  {
    hide Leaves;
    if p == [] {
      assert p + q == q;
    } else {
      ForestLeavesConcat(p[1..], q);
      assert (p + q)[1..] == p[1..] + q;
    }
  }

  lemma ForestAppend(q: seq<Node>, t: Node)
    ensures ForestCost(q + [t]) == ForestCost(q) + TreeCost(t)
    ensures ForestLeaves(q + [t]) == ForestLeaves(q) + Leaves(t)
  {
    ForestCostConcat(q, [t]);
    ForestLeavesConcat(q, [t]);
    assert ForestCost([t][1..]) == 0 && ForestLeaves([t][1..]) == [];
  }

  lemma SplitAt(q: seq<Node>, i: nat)
    requires i < |q|
    ensures q[..i] + [q[i]] + q[i + 1..] == q && q[..i] + q[i + 1..] == Sequences.RemoveAt(q, i)
  {
  }

  lemma ForestRemove(q: seq<Node>, i: nat)
    requires i < |q|
    ensures ForestCost(q) == ForestCost(Sequences.RemoveAt(q, i)) + TreeCost(q[i])
    ensures multiset(ForestLeaves(q)) == multiset(ForestLeaves(Sequences.RemoveAt(q, i)) + Leaves(q[i]))
  {
    var l, r := q[..i], q[i + 1..];
    SplitAt(q, i);
    ForestAppend(l, q[i]);
    ForestCostConcat(l + [q[i]], r);
    ForestCostConcat(l, r);
    ForestLeavesConcat(l + [q[i]], r);
    ForestLeavesConcat(l, r);
  }

  lemma RootsRemove(q: seq<Node>, i: nat)
    requires i < |q|
    ensures multiset(Roots(q)) == multiset(Roots(Sequences.RemoveAt(q, i))) + multiset{q[i].frequency}
  {
    SplitOne(Roots(q), i);
    assert Roots(Sequences.RemoveAt(q, i)) == Sequences.RemoveAt(Roots(q), i);
  }

  /** Some tree over the current roots, together with what the forest costs already, stays within `bound`. */
  ghost predicate Completes(q: seq<Node>, bound: int) {
    exists s: Shape, vs: seq<int> :: FitsRoots(q, s, vs) && Cost(s, vs) + ForestCost(q) <= bound
  }

  ghost predicate FitsRoots(q: seq<Node>, s: Shape, vs: seq<int>)
    ensures FitsRoots(q, s, vs) ==> |vs| == |Depths(s, 0)|
  {
    |vs| == |Depths(s, 0)| && multiset(vs) == multiset(Roots(q))
  }

  /** `t` is a code tree whose leaves carry exactly the weights W. */
  ghost predicate Over(t: Shape, ws: seq<int>, W: multiset<int>)
    ensures Over(t, ws, W) ==> |ws| == |Depths(t, 0)|
  {
    |ws| == |Depths(t, 0)| && multiset(ws) == W
  }

  /** No code tree over the original weights W beats what the queue can still be completed to. */
  ghost predicate LosesNothing(q: seq<Node>, W: multiset<int>) {
    forall t: Shape, ws: seq<int> :: Over(t, ws, W) ==> Completes(q, Cost(t, ws))
  }

  lemma TwoLeastRoots(q: seq<Node>, i: nat, j: nat)
    requires i < |q| && j < |Sequences.RemoveAt(q, i)| && Least(q, i) && Least(Sequences.RemoveAt(q, i), j)
    ensures var l, r := q[i].frequency, Sequences.RemoveAt(q, i)[j].frequency;
            TwoSmallest(multiset(Roots(q)), l, r) &&
            multiset(Roots(q)) == multiset(Roots(Sequences.RemoveAt(Sequences.RemoveAt(q, i), j))) + multiset{l, r}
  {
    var p := Sequences.RemoveAt(q, i);
    RootsRemove(q, i);
    RootsRemove(p, j);
    RemainingAreLarger(p, j);
    assert p[j] == q[if j < i then j else j + 1];
    RestAfterTwo(multiset(Roots(q)), multiset(Roots(Sequences.RemoveAt(p, j))), q[i].frequency, p[j].frequency);
  }

  lemma RestAfterTwo(W: multiset<int>, R: multiset<int>, l: int, r: int)
    requires W == R + multiset{r} + multiset{l} && l <= r && forall w :: w in R ==> r <= w
    ensures TwoSmallest(W, l, r) && W == R + multiset{l, r}
  {
    assert W - multiset{l, r} == R;
  }

  lemma RemainingAreLarger(p: seq<Node>, j: nat)
    requires j < |p| && Least(p, j)
    ensures forall w :: w in multiset(Roots(Sequences.RemoveAt(p, j))) ==> p[j].frequency <= w
  {
    var R := Roots(Sequences.RemoveAt(p, j));
    forall w | w in multiset(R)
      ensures p[j].frequency <= w
    {
      var k :| 0 <= k < |R| && R[k] == w;
      assert Sequences.RemoveAt(p, j)[k] == p[if k < j then k else k + 1];
    }
  }

  /** The queue after one round of BuildTree's loop. */
  ghost function Merge(q: seq<Node>, i: nat, j: nat): (next: seq<Node>)
    requires i < |q| && j < |Sequences.RemoveAt(q, i)|
  {
    Sequences.RemoveAt(Sequences.RemoveAt(q, i), j) + [Parent(q[i], Sequences.RemoveAt(q, i)[j])]
  }

  lemma MergeKeepsLeaves(q: seq<Node>, i: nat, j: nat)
    requires i < |q| && j < |Sequences.RemoveAt(q, i)|
    ensures multiset(ForestLeaves(Merge(q, i, j))) == multiset(ForestLeaves(q))
  {
    var p := Sequences.RemoveAt(q, i);
    ForestRemove(q, i);
    ForestRemove(p, j);
    ForestAppend(Sequences.RemoveAt(p, j), Parent(q[i], p[j]));
  }

  lemma MergeCost(q: seq<Node>, i: nat, j: nat)
    requires i < |q| && j < |Sequences.RemoveAt(q, i)| && AllSumUp(q)
    ensures AllSumUp(Merge(q, i, j))
    ensures ForestCost(Merge(q, i, j)) == ForestCost(q) + q[i].frequency + Sequences.RemoveAt(q, i)[j].frequency
  {
    var p := Sequences.RemoveAt(q, i);
    ForestRemove(q, i);
    ForestRemove(p, j);
    SumUpWithout(q, i);
    SumUpWithout(p, j);
    MergedNode(Sequences.RemoveAt(p, j), q[i], p[j]);
  }

  lemma MergedNode(rest: seq<Node>, l: Node, r: Node)
    requires AllSumUp(rest) && SumsUp(l) && SumsUp(r)
    ensures AllSumUp(rest + [Parent(l, r)])
    ensures ForestCost(rest + [Parent(l, r)])
         == ForestCost(rest) + TreeCost(l) + TreeCost(r) + l.frequency + r.frequency
  {
    ForestAppend(rest, Parent(l, r));
    SumIsMass(l);
    SumIsMass(r);
  }

  lemma SumUpWithout(q: seq<Node>, i: nat)
    requires i < |q| && AllSumUp(q)
    ensures AllSumUp(Sequences.RemoveAt(q, i))
  {
  }

  lemma {:induction false} MergeRoots(q: seq<Node>, i: nat, j: nat)
    requires i < |q| && j < |Sequences.RemoveAt(q, i)| && Least(q, i) && Least(Sequences.RemoveAt(q, i), j)
    ensures var l, r := q[i].frequency, Sequences.RemoveAt(q, i)[j].frequency;
            TwoSmallest(multiset(Roots(q)), l, r) &&
            multiset(Roots(Merge(q, i, j))) == Merged(multiset(Roots(q)), l, r)
  {
    hide Roots, Least, TwoSmallest, Merged, Sequences.RemoveAt;
    var rest := Sequences.RemoveAt(Sequences.RemoveAt(q, i), j);
    TwoLeastRoots(q, i, j);
    RootsAppend(rest, Parent(q[i], Sequences.RemoveAt(q, i)[j]));
    MergedFrom(multiset(Roots(q)), multiset(Roots(rest)), q[i].frequency, Sequences.RemoveAt(q, i)[j].frequency);
  }

  lemma MergedFrom(W: multiset<int>, R: multiset<int>, l: int, r: int)
    requires W == R + multiset{l, r}
    ensures Merged(W, l, r) == R + multiset{l + r}
  {
    assert W - multiset{l, r} == R;
  }

  lemma {:induction false} RootsAppend(q: seq<Node>, t: Node)
    ensures multiset(Roots(q + [t])) == multiset(Roots(q)) + multiset{t.frequency}
  {
    assert Roots(q + [t]) == Roots(q) + [t.frequency];
  }

  lemma MergeCompletes(q: seq<Node>, i: nat, j: nat, bound: int)
    requires i < |q| && j < |Sequences.RemoveAt(q, i)| && AllSumUp(q)
    requires Least(q, i) && Least(Sequences.RemoveAt(q, i), j) && Completes(q, bound)
    ensures Completes(Merge(q, i, j), bound)
  {
    var s, vs :| FitsRoots(q, s, vs) && Cost(s, vs) + ForestCost(q) <= bound;
    MergeRoots(q, i, j);
    MergeCost(q, i, j);
    var s', vs' := MergeSmallest(s, vs, q[i].frequency, Sequences.RemoveAt(q, i)[j].frequency);
    assert FitsRoots(Merge(q, i, j), s', vs');
  }

  /** Merging two least frequent trees keeps everything the loop of BuildTree relies on. */
  lemma MergeStep(q: seq<Node>, i: nat, j: nat, W: multiset<int>)
    requires i < |q| && j < |Sequences.RemoveAt(q, i)| && AllSumUp(q) && LosesNothing(q, W)
    requires Least(q, i) && Least(Sequences.RemoveAt(q, i), j)
    ensures AllSumUp(Merge(q, i, j)) && LosesNothing(Merge(q, i, j), W)
    ensures multiset(ForestLeaves(Merge(q, i, j))) == multiset(ForestLeaves(q))
  {
    MergeKeepsLeaves(q, i, j);
    MergeCost(q, i, j);
    forall t: Shape, ws: seq<int> | Over(t, ws, W)
      ensures Completes(Merge(q, i, j), Cost(t, ws))
    {
      MergeCompletes(q, i, j, Cost(t, ws));
    }
  }

  // ------------------------------------------------------------- left before right

  /** Below every node the left subtree is not heavier than the right one. */
  ghost predicate Ordered(t: Node) {
    t.InternalNode? ==> Mass(t.left) <= Mass(t.right) && Ordered(t.left) && Ordered(t.right)
  }

  ghost predicate AllOrdered(q: seq<Node>) {
    forall i :: 0 <= i < |q| ==> Ordered(q[i])
  }

  lemma LeavesOrdered(q: seq<Node>)
    requires AllLeaves(q)
    ensures AllOrdered(q)
  {
  }

  /** The first of two nodes taken off the queue becomes the left child. */
  lemma MergeOrdered(q: seq<Node>, i: nat, j: nat)
    requires i < |q| && j < |Sequences.RemoveAt(q, i)| && Least(q, i) && AllSumUp(q) && AllOrdered(q)
    ensures AllOrdered(Merge(q, i, j))
  {
    hide SumsUp;
    var rest := Sequences.RemoveAt(q, i);
    SumUpWithout(q, i);
    SumIsMass(q[i]);
    SumIsMass(rest[j]);
    assert Ordered(Parent(q[i], rest[j]));
    assert AllOrdered(rest);
  }

  // ------------------------------------------------------------------- BuildTree

  /** The tree has each symbol of the map on exactly one leaf, with its frequency. */
  ghost predicate OnSymbols(t: Node, frequencies: FreqMap) {
    multiset(Leaves(t)) == multiset(Entries(frequencies, frequencies.Keys))
  }

  ghost function Entries(frequencies: FreqMap, symbols: set<Symbol>): (r: set<(Symbol, int)>)
    requires symbols <= frequencies.Keys
  {
    set c | c in symbols :: (c, frequencies[c])
  }

  function Seconds(s: seq<(Symbol, int)>): (r: seq<int>)
    ensures |r| == |s| && forall i :: 0 <= i < |s| ==> r[i] == s[i].1
  {
    seq(|s|, i requires 0 <= i < |s| => s[i].1)
  }

  lemma {:induction false} SecondsOfMultiset(a: seq<(Symbol, int)>, b: seq<(Symbol, int)>)
    requires multiset(a) == multiset(b)
    ensures multiset(Seconds(a)) == multiset(Seconds(b))
  {
    if a == [] {
      assert |multiset(b)| == 0;
    } else {
      assert a[0] in multiset(a);
      var i :| 0 <= i < |b| && b[i] == a[0];
      SplitPairs(a, 0);
      SplitPairs(b, i);
      CancelOne(multiset(Sequences.RemoveAt(a, 0)), multiset(Sequences.RemoveAt(b, i)), a[0]);
      assert Sequences.RemoveAt(a, 0) == a[1..];
      SecondsOfMultiset(a[1..], Sequences.RemoveAt(b, i));
    }
  }

  lemma SplitPairs(s: seq<(Symbol, int)>, i: nat)
    requires i < |s|
    ensures multiset(s) == multiset(Sequences.RemoveAt(s, i)) + multiset{s[i]}
    ensures multiset(Seconds(s)) == multiset(Seconds(Sequences.RemoveAt(s, i))) + multiset{s[i].1}
  {
    SplitOne(s, i);
    SplitOne(Seconds(s), i);
    assert Seconds(Sequences.RemoveAt(s, i)) == Sequences.RemoveAt(Seconds(s), i);
  }

  lemma SplitOne<T>(s: seq<T>, i: nat)
    requires i < |s|
    ensures multiset(s) == multiset(Sequences.RemoveAt(s, i)) + multiset{s[i]}
  {
    assert s == s[..i] + [s[i]] + s[i + 1..];
  }

  ghost predicate AllLeaves(q: seq<Node>) {
    forall i :: 0 <= i < |q| ==> q[i].LeafNode?
  }

  lemma {:induction false} LeafForest(q: seq<Node>)
    requires AllLeaves(q)
    ensures ForestCost(q) == 0 && Seconds(ForestLeaves(q)) == Roots(q) && AllSumUp(q)
  {
    if q != [] {
      LeafForest(q[1..]);
      hide Roots, Seconds;
      assert Leaves(q[0]) == [(q[0].character, q[0].frequency)];
      FirstOfSeconds((q[0].character, q[0].frequency), ForestLeaves(q[1..]));
      assert Roots(q) == [q[0].frequency] + Roots(q[1..]);
    }
  }

  lemma FirstOfSeconds(first: (Symbol, int), rest: seq<(Symbol, int)>)
    ensures Seconds([first] + rest) == [first.1] + Seconds(rest)
  {
  }

  lemma InitiallyLosesNothing(q: seq<Node>)
    requires AllLeaves(q)
    ensures LosesNothing(q, multiset(Roots(q)))
  {
    LeafForest(q);
    forall t: Shape, ws: seq<int> | Over(t, ws, multiset(Roots(q)))
      ensures Completes(q, Cost(t, ws))
    {
      assert FitsRoots(q, t, ws);
    }
  }

  lemma FinallyOptimal(root: Node, W: multiset<int>)
    requires LosesNothing([root], W) && W == multiset(Weights(root))
    ensures Optimal(root)
  {
    forall t: Shape, ws: seq<int> | Over(t, ws, W)
      ensures TreeCost(root) <= Cost(t, ws)
    {
      OneTreeLeft(root, W, t, ws);
    }
  }

  lemma OneTreeLeft(root: Node, W: multiset<int>, t: Shape, ws: seq<int>)
    requires LosesNothing([root], W) && Over(t, ws, W)
    ensures TreeCost(root) <= Cost(t, ws)
  {
    assert Completes([root], Cost(t, ws));
    var s, vs :| FitsRoots([root], s, vs) && Cost(s, vs) + ForestCost([root]) <= Cost(t, ws);
    assert |vs| == |multiset(vs)| == |Roots([root])| == 1;
    assert s.Tip?;
    assert vs == [vs[0]];
    DotSingle(vs[0], 0);
    assert ForestCost([root][1..]) == 0;
  }

  lemma SameWeights(root: Node, t: Node, frequencies: FreqMap)
    requires OnSymbols(root, frequencies) && OnSymbols(t, frequencies)
    ensures multiset(Weights(t)) == multiset(Weights(root))
  {
    WeightsOfLeaves(t);
    WeightsOfLeaves(root);
    assert Weights(t) == Seconds(Leaves(t)) && Weights(root) == Seconds(Leaves(root));
    SecondsOfMultiset(Leaves(t), Leaves(root));
  }

  lemma EntriesGrow(frequencies: FreqMap, done: set<Symbol>, c: Symbol)
    requires done <= frequencies.Keys && c in frequencies && c !in done
    ensures multiset(Entries(frequencies, done + {c}))
         == multiset(Entries(frequencies, done)) + multiset{(c, frequencies[c])}
  {
    assert Entries(frequencies, done + {c}) == Entries(frequencies, done) + {(c, frequencies[c])};
  }

  /** No code tree over the same weights is cheaper. */
  ghost predicate Optimal(root: Node) {
    forall t: Shape, ws: seq<int> :: Over(t, ws, multiset(Weights(root))) ==> TreeCost(root) <= Cost(t, ws)
  }

  lemma NoLeaves(frequencies: FreqMap)
    ensures AllLeaves([]) && multiset(ForestLeaves([])) == multiset(Entries(frequencies, {}))
  {
    assert Entries(frequencies, {}) == {};
  }

  /** One more leaf for one more entry. */
  lemma LeafPushed(q: seq<Node>, frequencies: FreqMap, done: set<Symbol>, c: Symbol)
    requires AllLeaves(q) && done <= frequencies.Keys && c in frequencies && c !in done
    requires multiset(ForestLeaves(q)) == multiset(Entries(frequencies, done))
    ensures var leaf := LeafNode(frequencies[c], c);
            AllLeaves(q + [leaf]) &&
            multiset(ForestLeaves(q + [leaf])) == multiset(Entries(frequencies, done + {c}))
  {
    hide ForestLeaves, Entries;
    var leaf := LeafNode(frequencies[c], c);
    EntriesGrow(frequencies, done, c);
    ForestAppend(q, leaf);
    assert Leaves(leaf) == [(c, frequencies[c])];
  }

  /** The first loop of BuildTree: a leaf for every entry of the map. */
  method PushLeaves(frequencies: FreqMap) returns (tree: PriorityQueue)
    ensures fresh(tree) && AllLeaves(tree.items)
    ensures multiset(ForestLeaves(tree.items)) == multiset(Entries(frequencies, frequencies.Keys))
  {
    hide ForestLeaves, Entries, AllLeaves;
    tree := new PriorityQueue();
    var symbols := frequencies.Keys;
    NoLeaves(frequencies);
    ghost var done := {};
    while symbols != {}
      invariant AllLeaves(tree.items)
      invariant done + symbols == frequencies.Keys && done !! symbols
      invariant multiset(ForestLeaves(tree.items)) == multiset(Entries(frequencies, done))
    {
      var c :| c in symbols;
      LeafPushed(tree.items, frequencies, done, c);
      tree.Push(LeafNode(frequencies[c], c));
      symbols, done := symbols - {c}, done + {c};
    }
  }

  /** BuildTree: an optimal tree, whichever of equally frequent nodes are merged first. */
  method BuildTree(frequencies: FreqMap) returns (root: Node)
    requires frequencies != map[]
    ensures OnSymbols(root, frequencies) && Optimal(root) && Ordered(root)
  {
    var tree := PushLeaves(frequencies);
    ghost var leaves := tree.items;
    InitiallyLosesNothing(leaves);
    LeafForest(leaves);
    SomeSymbol(leaves, frequencies);
    LeavesOrdered(leaves);
    while |tree.items| > 1
      invariant tree.items != [] && AllSumUp(tree.items) && AllOrdered(tree.items)
      invariant LosesNothing(tree.items, multiset(Roots(leaves)))
      invariant multiset(ForestLeaves(tree.items)) == multiset(ForestLeaves(leaves))
      decreases |tree.items|
    {
      ghost var q := tree.items;
      var childLeft, i := tree.Pop();
      var childRight, j := tree.Pop();
      MergeStep(q, i, j, multiset(Roots(leaves)));
      MergeOrdered(q, i, j);
      tree.Push(Parent(childLeft, childRight));
    }
    root := tree.items[0];
    assert tree.items == [root];
    RootLeaves(root, ForestLeaves(leaves));
    FinallyOptimal(root, multiset(Roots(leaves)));
  }

  lemma SomeSymbol(q: seq<Node>, frequencies: FreqMap)
    requires frequencies != map[]
    requires multiset(ForestLeaves(q)) == multiset(Entries(frequencies, frequencies.Keys))
    ensures q != []
  {
    var c :| c in frequencies.Keys;
    assert (c, frequencies[c]) in Entries(frequencies, frequencies.Keys);
    assert (c, frequencies[c]) in multiset(ForestLeaves(q));
  }

  lemma RootLeaves(root: Node, leaves: seq<(Symbol, int)>)
    requires multiset(ForestLeaves([root])) == multiset(leaves)
    ensures multiset(Leaves(root)) == multiset(leaves)
    ensures multiset(Weights(root)) == multiset(Seconds(leaves))
  {
    assert ForestLeaves([root][1..]) == [];
    assert ForestLeaves([root]) == Leaves(root);
    WeightsOfLeaves(root);
    assert Weights(root) == Seconds(Leaves(root));
    SecondsOfMultiset(Leaves(root), leaves);
  }

  /** Huffman's tree is no more expensive than any code tree on the same symbols. */
  lemma OptimalAmongCodeTrees(root: Node, frequencies: FreqMap, t: Node)
    requires OnSymbols(root, frequencies) && OnSymbols(t, frequencies)
    requires Optimal(root)
    ensures TreeCost(root) <= TreeCost(t)
  {
    SameWeights(root, t, frequencies);
    TreeCostIsPathLength(t);
    assert Over(ShapeOf(t), Weights(t), multiset(Weights(root)));
  }
}
