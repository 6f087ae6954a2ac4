/** Binary code trees as shapes with weights assigned to the leaves in order, and the
    exchange argument behind Huffman's algorithm. */
module CodeTrees {

  datatype Shape = Tip | Fork(left: Shape, right: Shape)

  /** Depths of the leaves from left to right, the root being at depth `d`. */
  function Depths(t: Shape, d: nat): (r: seq<nat>)
    ensures |r| >= 1
  {
    match t
    case Tip => [d]
    case Fork(l, r) => Depths(l, d + 1) + Depths(r, d + 1)
  }

  /** w * d by repeated addition, which keeps the proofs linear. */
  function Times(w: int, d: nat): (r: int) {
    if d == 0 then 0 else w + Times(w, d - 1)
  }

  lemma {:induction false} TimesIsProduct(w: int, d: nat)
    ensures Times(w, d) == w * d
  {
    if d > 0 {
      TimesIsProduct(w, d - 1);
    }
  }

  function Dot(ws: seq<int>, ds: seq<nat>): (r: int)
    requires |ws| == |ds|
  {
    if ws == [] then 0 else Times(ws[0], ds[0]) + Dot(ws[1..], ds[1..])
  }

  function Total(ws: seq<int>): (r: int) {
    if ws == [] then 0 else ws[0] + Total(ws[1..])
  }

  /** The weighted path length of `t` when its leaves carry `ws`. */
  function Cost(t: Shape, ws: seq<int>): (r: int)
    requires |ws| == |Depths(t, 0)|
  {
    Dot(ws, Depths(t, 0))
  }

  lemma {:induction false} DotConcat(ws: seq<int>, vs: seq<int>, ds: seq<nat>, es: seq<nat>)
    requires |ws| == |ds| && |vs| == |es|
    ensures Dot(ws + vs, ds + es) == Dot(ws, ds) + Dot(vs, es)
  {
    if ws == [] {
      assert ws + vs == vs && ds + es == es;
    } else {
      DotConcat(ws[1..], vs, ds[1..], es);
      assert (ws + vs)[1..] == ws[1..] + vs && (ds + es)[1..] == ds[1..] + es;
    }
  }

  lemma TotalCons(w: int, ws: seq<int>)
    ensures Total([w] + ws) == w + Total(ws)
  {
    assert ([w] + ws)[1..] == ws;
  }

  lemma {:induction false} TotalConcat(ws: seq<int>, vs: seq<int>)
    ensures Total(ws + vs) == Total(ws) + Total(vs)
  {
    if ws == [] {
      assert ws + vs == vs;
    } else {
      TotalConcat(ws[1..], vs);
      assert (ws + vs)[1..] == ws[1..] + vs;
    }
  }

  /** Moving the root of a tree one level down adds its total weight to the cost. */
  lemma {:induction false} DeeperRoot(t: Shape, d: nat, ws: seq<int>)
    requires |ws| == |Depths(t, d)|
    ensures |Depths(t, d + 1)| == |ws|
    ensures Dot(ws, Depths(t, d + 1)) == Dot(ws, Depths(t, d)) + Total(ws)
  {
    match t
    case Tip =>
    case Fork(l, r) =>
      var n := |Depths(l, d + 1)|;
      DeeperRoot(l, d + 1, ws[..n]);
      DeeperRoot(r, d + 1, ws[n..]);
      DotConcat(ws[..n], ws[n..], Depths(l, d + 1), Depths(r, d + 1));
      DotConcat(ws[..n], ws[n..], Depths(l, d + 2), Depths(r, d + 2));
      TotalConcat(ws[..n], ws[n..]);
      assert ws == ws[..n] + ws[n..];
  }

  lemma ForkCost(l: Shape, r: Shape, ws: seq<int>, vs: seq<int>)
    requires |ws| == |Depths(l, 0)| && |vs| == |Depths(r, 0)|
    ensures |ws + vs| == |Depths(Fork(l, r), 0)|
    ensures Cost(Fork(l, r), ws + vs) == Cost(l, ws) + Cost(r, vs) + Total(ws) + Total(vs)
  {
    DeeperRoot(l, 0, ws);
    DeeperRoot(r, 0, vs);
    DotConcat(ws, vs, Depths(l, 1), Depths(r, 1));
  }

  // ------------------------------------------------------ exchanging two leaves

  lemma {:induction false} DotUpdate(ws: seq<int>, ds: seq<nat>, i: nat, v: int)
    requires |ws| == |ds| && i < |ws|
    ensures Dot(ws[i := v], ds) + Times(ws[i], ds[i]) == Dot(ws, ds) + Times(v, ds[i])
  {
    if i > 0 {
      DotUpdate(ws[1..], ds[1..], i - 1, v);
      assert ws[i := v][1..] == ws[1..][i - 1 := v];
    } else {
      assert ws[0 := v][1..] == ws[1..];
    }
  }

  function Swap(ws: seq<int>, i: nat, j: nat): (r: seq<int>)
    requires i < |ws| && j < |ws|
    ensures |r| == |ws| && r[j] == ws[i] && r[i] == ws[j]
    ensures forall k :: 0 <= k < |ws| && k != i && k != j ==> r[k] == ws[k]
    ensures multiset(r) == multiset(ws)
  {
    ws[i := ws[j]][j := ws[i]]
  }

  /** Putting the lighter of two weights at the deeper leaf does not raise the cost. */
  lemma SwapCost(ws: seq<int>, ds: seq<nat>, i: nat, j: nat)
    requires |ws| == |ds| && i < |ws| && j < |ws|
    requires ws[i] <= ws[j] && ds[i] <= ds[j]
    ensures Dot(Swap(ws, i, j), ds) <= Dot(ws, ds)
  {
    if i == j {
      assert Swap(ws, i, j) == ws;
    } else {
      var us := ws[i := ws[j]];
      DotUpdate(ws, ds, i, ws[j]);
      DotUpdate(us, ds, j, ws[i]);
      Crosswise(ws[i], ws[j], ds[i], ds[j]);
    }
  }

  lemma {:induction false} Crosswise(a: int, b: int, x: nat, y: nat)
    requires a <= b && x <= y
    ensures Times(b, x) + Times(a, y) <= Times(a, x) + Times(b, y)
  {
    if x < y {
      Crosswise(a, b, x, y - 1);
    }
  }

  ghost predicate AtMost(ds: seq<nat>, D: nat) {
    forall i :: 0 <= i < |ds| ==> ds[i] <= D
  }

  /** The depths read d, D, D, e: two neighbouring leaves as deep as any leaf. */
  ghost predicate DeepestBetween(ds: seq<nat>, d: seq<nat>, D: nat, e: seq<nat>) {
    ds == d + [D, D] + e && AtMost(ds, D)
  }

  lemma DeepestInLeft(l: seq<nat>, r: seq<nat>, d: seq<nat>, D: nat, e: seq<nat>)
    requires DeepestBetween(l, d, D, e) && AtMost(r, D)
    ensures DeepestBetween(l + r, d, D, e + r)
  {
  }

  lemma DeepestInRight(l: seq<nat>, r: seq<nat>, d: seq<nat>, D: nat, e: seq<nat>)
    requires DeepestBetween(r, d, D, e) && AtMost(l, D)
    ensures DeepestBetween(l + r, l + d, D, e)
  {
    assert l + r == l + d + [D, D] + e;
  }

  lemma ConcatAssociates(u: seq<nat>, v: seq<nat>, w: seq<nat>)
    ensures u + (v + w) == u + v + w
  {
  }

  /** Some two sibling leaves are as deep as any leaf; merging them gives a smaller tree. */
  lemma {:induction false} DeepestPair(t: Shape, h: nat) returns (s: Shape, d: seq<nat>, D: nat, e: seq<nat>)
    requires t.Fork?
    ensures D >= h + 1 && DeepestBetween(Depths(t, h), d, D, e)
    ensures Depths(s, h) == d + [D - 1] + e
  {
    var l, r := Depths(t.left, h + 1), Depths(t.right, h + 1);
    if t.left.Tip? && t.right.Tip? {
      s, d, D, e := Tip, [], h + 1, [];
    } else {
      var sl, dl, Dl, el := Tip, [], h + 1, l;
      var sr, dr, Dr, er := Tip, [], h + 1, r;
      if t.left.Fork? { sl, dl, Dl, el := DeepestPair(t.left, h + 1); }
      if t.right.Fork? { sr, dr, Dr, er := DeepestPair(t.right, h + 1); }
      assert AtMost(l, Dl) && AtMost(r, Dr);
      if t.right.Tip? || (t.left.Fork? && Dr <= Dl) {
        s, d, D, e := DeepestOnLeft(t, h, sl, dl, Dl, el);
      } else {
        s, d, D, e := DeepestOnRight(t, h, sr, dr, Dr, er);
      }
    }
  }

  lemma DeepestOnLeft(t: Shape, h: nat, sl: Shape, dl: seq<nat>, Dl: nat, el: seq<nat>)
    returns (s: Shape, d: seq<nat>, D: nat, e: seq<nat>)
    requires t.Fork? && Dl >= h + 1 && DeepestBetween(Depths(t.left, h + 1), dl, Dl, el)
    requires AtMost(Depths(t.right, h + 1), Dl) && Depths(sl, h + 1) == dl + [Dl - 1] + el
    ensures D >= h + 1 && DeepestBetween(Depths(t, h), d, D, e)
    ensures Depths(s, h) == d + [D - 1] + e
  {
    var r := Depths(t.right, h + 1);
    s, d, D, e := Fork(sl, t.right), dl, Dl, el + r;
    DeepestInLeft(Depths(t.left, h + 1), r, dl, Dl, el);
    ConcatAssociates(dl + [Dl - 1], el, r);
  }

  lemma DeepestOnRight(t: Shape, h: nat, sr: Shape, dr: seq<nat>, Dr: nat, er: seq<nat>)
    returns (s: Shape, d: seq<nat>, D: nat, e: seq<nat>)
    requires t.Fork? && Dr >= h + 1 && DeepestBetween(Depths(t.right, h + 1), dr, Dr, er)
    requires AtMost(Depths(t.left, h + 1), Dr) && Depths(sr, h + 1) == dr + [Dr - 1] + er
    ensures D >= h + 1 && DeepestBetween(Depths(t, h), d, D, e)
    ensures Depths(s, h) == d + [D - 1] + e
  {
    var l := Depths(t.left, h + 1);
    s, d, D, e := Fork(t.left, sr), l + dr, Dr, er;
    DeepestInRight(l, Depths(t.right, h + 1), dr, Dr, er);
    ConcatAssociates(l, dr + [Dr - 1], er);
    ConcatAssociates(l, dr, [Dr - 1]);
  }

  /** `a` and `b` are two smallest weights of `W`. */
  ghost predicate TwoSmallest(W: multiset<int>, a: int, b: int) {
    a <= b && multiset{a, b} <= W && forall w :: w in W - multiset{a, b} ==> b <= w
  }

  /** `W` with `a` and `b` replaced by their sum. */
  ghost function Merged(W: multiset<int>, a: int, b: int): (r: multiset<int>) {
    W - multiset{a, b} + multiset{a + b}
  }

  lemma SmallestIsSmallest(W: multiset<int>, a: int, b: int)
    requires TwoSmallest(W, a, b)
    ensures forall w :: w in W ==> a <= w
  {
    forall w | w in W
      ensures a <= w
    {
      assert w == a || w == b || w in W - multiset{a, b};
    }
  }

  lemma FindSmallest(ws: seq<int>, a: int, b: int) returns (i: nat)
    requires TwoSmallest(multiset(ws), a, b)
    ensures i < |ws| && ws[i] == a && forall k :: 0 <= k < |ws| ==> a <= ws[k]
  {
    SmallestIsSmallest(multiset(ws), a, b);
    assert a in multiset(ws);
    i :| 0 <= i < |ws| && ws[i] == a;
    assert forall k :: 0 <= k < |ws| ==> ws[k] in multiset(ws);
  }

  ghost function Others(ws: seq<int>, p: nat): (r: seq<int>)
    requires p < |ws|
    ensures |r| == |ws| - 1
    ensures forall k :: 0 <= k < |r| ==> r[k] == ws[if k < p then k else k + 1]
    ensures forall k :: 0 <= k < |ws| && k != p ==> ws[k] == r[if k < p then k else k - 1]
  {
    ws[..p] + ws[p + 1..]
  }

  lemma OthersMultiset(ws: seq<int>, p: nat)
    requires p < |ws|
    ensures multiset(Others(ws, p)) == multiset(ws) - multiset{ws[p]}
  {
    assert ws == ws[..p] + [ws[p]] + ws[p + 1..];
  }

  /** With a smallest weight at p, the other one is found among the rest. */
  lemma FindSecond(ws: seq<int>, p: nat, a: int, b: int) returns (j: nat)
    requires TwoSmallest(multiset(ws), a, b) && p < |ws| && ws[p] == a
    ensures j < |ws| && j != p && ws[j] == b
    ensures forall k :: 0 <= k < |ws| && k != p ==> b <= ws[k]
  {
    var rest := Others(ws, p);
    OthersMultiset(ws, p);
    assert b in multiset(rest);
    var j' :| 0 <= j' < |rest| && rest[j'] == b;
    j := if j' < p then j' else j' + 1;
    forall k | 0 <= k < |ws| && k != p
      ensures b <= ws[k]
    {
      assert ws[k] in multiset(rest);
      SecondSmallest(multiset(ws), a, b, ws[k]);
    }
  }

  lemma SecondSmallest(W: multiset<int>, a: int, b: int, w: int)
    requires TwoSmallest(W, a, b) && w in W - multiset{a}
    ensures b <= w
  {
    assert w == b || w in W - multiset{a, b};
  }

  /** Two smallest weights can be moved to a deepest pair of siblings. */
  lemma MoveSmallestDown(ws: seq<int>, ds: seq<nat>, p: nat, a: int, b: int) returns (vs: seq<int>)
    requires |ws| == |ds| && p + 1 < |ds| && ds[p] == ds[p + 1] && AtMost(ds, ds[p])
    requires TwoSmallest(multiset(ws), a, b)
    ensures |vs| == |ws| && multiset(vs) == multiset(ws)
    ensures vs[p] == a && vs[p + 1] == b && Dot(vs, ds) <= Dot(ws, ds)
  {
    var i := FindSmallest(ws, a, b);
    SwapCost(ws, ds, i, p);
    var us := Swap(ws, i, p);
    var j := FindSecond(us, p, a, b);
    SwapCost(us, ds, j, p + 1);
    vs := Swap(us, j, p + 1);
  }

  /** The step of Huffman's algorithm loses nothing: from any tree over `ws` one can build a tree
      in which the two smallest weights a, b are replaced by a + b and which is cheaper by a + b. */
  lemma MergeSmallest(t: Shape, ws: seq<int>, a: int, b: int) returns (s: Shape, vs: seq<int>)
    requires |ws| == |Depths(t, 0)| && TwoSmallest(multiset(ws), a, b)
    ensures |vs| == |Depths(s, 0)|
    ensures multiset(vs) == Merged(multiset(ws), a, b)
    ensures Cost(s, vs) + a + b <= Cost(t, ws)
  {
    TwoNeedAFork(t, ws, a, b);
    var d, D, e;
    s, d, D, e := DeepestPair(t, 0);
    var us := MoveSmallestDown(ws, Depths(t, 0), |d|, a, b);
    vs := MergePair(us, Depths(t, 0), Depths(s, 0), d, D, e);
  }

  lemma MergePair(us: seq<int>, ds: seq<nat>, es: seq<nat>, d: seq<nat>, D: nat, e: seq<nat>)
    returns (vs: seq<int>)
    requires |us| == |ds| && D >= 1 && ds == d + [D, D] + e && es == d + [D - 1] + e
    ensures |vs| == |es|
    ensures multiset(vs) == Merged(multiset(us), us[|d|], us[|d| + 1])
    ensures Dot(vs, es) + us[|d|] + us[|d| + 1] == Dot(us, ds)
  {
    var a, b, u, v := us[|d|], us[|d| + 1], us[..|d|], us[|d| + 2..];
    assert us == u + [a, b] + v;
    vs := u + [a + b] + v;
    MergeMultiset(u, a, b, v);
    MergeParts(us, vs, ds, es, u, a, b, v, d, D, e);
  }

  lemma MergeMultiset(u: seq<int>, a: int, b: int, v: seq<int>)
    ensures multiset(u + [a + b] + v) == Merged(multiset(u + [a, b] + v), a, b)
  {
    assert multiset(u + [a, b] + v) == multiset(u) + multiset{a, b} + multiset(v);
  }

  lemma MergeParts(us: seq<int>, vs: seq<int>, ds: seq<nat>, es: seq<nat>,
                   u: seq<int>, a: int, b: int, v: seq<int>, d: seq<nat>, D: nat, e: seq<nat>)
    requires |u| == |d| && |v| == |e| && D >= 1
    requires us == u + [a, b] + v && ds == d + [D, D] + e
    requires vs == u + [a + b] + v && es == d + [D - 1] + e
    ensures Dot(vs, es) + a + b == Dot(us, ds)
  {
    ThreeParts(u, [a, b], v, d, [D, D], e);
    ThreeParts(u, [a + b], v, d, [D - 1], e);
    PairCost(a, b, D);
  }

  lemma ThreeParts(u: seq<int>, v: seq<int>, w: seq<int>, d: seq<nat>, e: seq<nat>, f: seq<nat>)
    requires |u| == |d| && |v| == |e| && |w| == |f|
    ensures Dot(u + v + w, d + e + f) == Dot(u, d) + Dot(v, e) + Dot(w, f)
  {
    DotConcat(u + v, w, d + e, f);
    DotConcat(u, v, d, e);
  }

  lemma PairCost(a: int, b: int, D: nat)
    requires D >= 1
    ensures Dot([a, b], [D, D]) == Dot([a + b], [D - 1]) + a + b
  {
    TimesSum(a, b, D - 1);
    DotSingle(b, D);
    DotSingle(a + b, D - 1);
    assert [a, b][1..] == [b] && [D, D][1..] == [D];
  }

  lemma DotSingle(w: int, d: nat)
    ensures Dot([w], [d]) == Times(w, d)
  {
    assert [w][1..] == [] && Dot([w][1..], [d][1..]) == 0;
  }

  lemma {:induction false} TimesSum(a: int, b: int, d: nat)
    ensures Times(a + b, d) == Times(a, d) + Times(b, d)
  {
    if d > 0 {
      TimesSum(a, b, d - 1);
    }
  }

  lemma TwoNeedAFork(t: Shape, ws: seq<int>, a: int, b: int)
    requires |ws| == |Depths(t, 0)| && multiset{a, b} <= multiset(ws)
    ensures t.Fork?
  {
    assert |multiset{a, b}| == 2;
    assert |multiset(ws)| == |ws|;
    assert multiset(ws) == multiset{a, b} + (multiset(ws) - multiset{a, b});
  }
}
