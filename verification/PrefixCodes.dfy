/** Prefix-free codes and the trees behind them. */
module PrefixCodes {
  import opened Bits
  import opened CodeTrees

  ghost predicate Incomparable(a: DataBits, b: DataBits) {
    !(a <= b) && !(b <= a)
  }

  /** No code word of the list is a prefix of another one. */
  ghost predicate PrefixFree(cs: seq<DataBits>) {
    cs == [] || (IncomparableToAll(cs[0], cs[1..]) && PrefixFree(cs[1..]))
  }

  ghost predicate IncomparableToAll(c: DataBits, cs: seq<DataBits>) {
    forall i :: 0 <= i < |cs| ==> Incomparable(c, cs[i])
  }

  lemma {:induction false} PrefixFreeFromPairs(cs: seq<DataBits>)
    requires forall i, j :: 0 <= i < j < |cs| ==> Incomparable(cs[i], cs[j])
    ensures PrefixFree(cs)
  {
    if cs != [] {
      PrefixFreeFromPairs(cs[1..]);
    }
  }

  /** The number of bits spent when code word i is used ws[i] times. */
  function CodeCost(ws: seq<int>, cs: seq<DataBits>): (r: int)
    requires |ws| == |cs|
  {
    if ws == [] then 0 else Times(ws[0], |cs[0]|) + CodeCost(ws[1..], cs[1..])
  }

  /** A code whose words are as long as the leaves of a tree are deep costs what the tree costs. */
  lemma {:induction false} CodeCostIsDot(ws: seq<int>, cs: seq<DataBits>, ds: seq<nat>)
    requires |ws| == |cs| == |ds| && forall i :: 0 <= i < |cs| ==> |cs[i]| == ds[i]
    ensures CodeCost(ws, cs) == Dot(ws, ds)
  {
    if ws != [] {
      CodeCostIsDot(ws[1..], cs[1..], ds[1..]);
    }
  }

  function TotalLength(cs: seq<DataBits>): (r: nat) {
    if cs == [] then 0 else |cs[0]| + TotalLength(cs[1..])
  }

  // ---------------------------------------------- splitting on the first bit

  ghost predicate NoneEmpty(cs: seq<DataBits>) {
    forall i :: 0 <= i < |cs| ==> cs[i] != []
  }

  /** The code words starting with `b`, that bit removed ... */
  function PickCodes(cs: seq<DataBits>, b: bool): (r: seq<DataBits>)
    requires NoneEmpty(cs)
  {
    if cs == [] then []
    else if cs[0][0] == b then [cs[0][1..]] + PickCodes(cs[1..], b)
    else PickCodes(cs[1..], b)
  }

  /** ... and their weights. */
  function PickWeights(ws: seq<int>, cs: seq<DataBits>, b: bool): (r: seq<int>)
    requires NoneEmpty(cs) && |ws| == |cs|
    ensures |r| == |PickCodes(cs, b)|
  {
    if cs == [] then []
    else if cs[0][0] == b then [ws[0]] + PickWeights(ws[1..], cs[1..], b)
    else PickWeights(ws[1..], cs[1..], b)
  }

  lemma {:induction false} PickIncomparable(c: DataBits, cs: seq<DataBits>, b: bool)
    requires NoneEmpty(cs) && c != [] && c[0] == b && IncomparableToAll(c, cs)
    ensures IncomparableToAll(c[1..], PickCodes(cs, b))
  {
    if cs != [] {
      PickIncomparable(c, cs[1..], b);
      assert Incomparable(c, cs[0]);
      if cs[0][0] == b {
        assert c == [b] + c[1..] && cs[0] == [b] + cs[0][1..];
        assert Incomparable(c[1..], cs[0][1..]);
      }
    }
  }

  lemma {:induction false} PickPrefixFree(cs: seq<DataBits>, b: bool)
    requires NoneEmpty(cs) && PrefixFree(cs)
    ensures PrefixFree(PickCodes(cs, b))
  {
    if cs != [] {
      PickPrefixFree(cs[1..], b);
      if cs[0][0] == b {
        PickIncomparable(cs[0], cs[1..], b);
        var rest := PickCodes(cs[1..], b);
        assert ([cs[0][1..]] + rest)[1..] == rest;
      }
    }
  }

  lemma {:induction false} PickLengths(cs: seq<DataBits>)
    requires NoneEmpty(cs)
    ensures TotalLength(PickCodes(cs, false)) + TotalLength(PickCodes(cs, true)) + |cs| == TotalLength(cs)
  {
    if cs != [] {
      PickLengths(cs[1..]);
      var c, rest := cs[0][1..], PickCodes(cs[1..], cs[0][0]);
      assert ([c] + rest)[1..] == rest;
    }
  }

  lemma {:induction false} PickSplits(ws: seq<int>, cs: seq<DataBits>)
    requires NoneEmpty(cs) && |ws| == |cs|
    ensures multiset(PickWeights(ws, cs, false)) + multiset(PickWeights(ws, cs, true)) == multiset(ws)
  {
    if cs != [] {
      PickSplits(ws[1..], cs[1..]);
      assert ws == [ws[0]] + ws[1..];
    }
  }

  lemma {:induction false} PickTotals(ws: seq<int>, cs: seq<DataBits>)
    requires NoneEmpty(cs) && |ws| == |cs|
    ensures Total(PickWeights(ws, cs, false)) + Total(PickWeights(ws, cs, true)) == Total(ws)
  {
    if cs != [] {
      PickTotals(ws[1..], cs[1..]);
      TotalCons(ws[0], PickWeights(ws[1..], cs[1..], cs[0][0]));
    }
  }

  lemma {:induction false} PickCost(ws: seq<int>, cs: seq<DataBits>)
    requires NoneEmpty(cs) && |ws| == |cs|
    ensures CodeCost(PickWeights(ws, cs, false), PickCodes(cs, false))
          + CodeCost(PickWeights(ws, cs, true), PickCodes(cs, true))
          + Total(ws) == CodeCost(ws, cs)
  {
    if cs != [] {
      PickCost(ws[1..], cs[1..]);
      var b := cs[0][0];
      CodeCostCons(ws[0], PickWeights(ws[1..], cs[1..], b), cs[0][1..], PickCodes(cs[1..], b));
    }
  }

  lemma CodeCostCons(w: int, ws: seq<int>, c: DataBits, cs: seq<DataBits>)
    requires |ws| == |cs|
    ensures CodeCost([w] + ws, [c] + cs) == Times(w, |c|) + CodeCost(ws, cs)
  {
    var vs, ds := [w] + ws, [c] + cs;
    assert vs[0] == w && ds[0] == c && vs[1..] == ws && ds[1..] == cs;
    assert CodeCost(vs, ds) == Times(vs[0], |ds[0]|) + CodeCost(vs[1..], ds[1..]);
  }

  ghost predicate AllNonNegative(ws: seq<int>) {
    forall i :: 0 <= i < |ws| ==> ws[i] >= 0
  }

  lemma {:induction false} PickNonNegative(ws: seq<int>, cs: seq<DataBits>, b: bool)
    requires NoneEmpty(cs) && |ws| == |cs| && AllNonNegative(ws)
    ensures AllNonNegative(PickWeights(ws, cs, b)) && Total(PickWeights(ws, cs, b)) >= 0
  {
    if cs != [] {
      PickNonNegative(ws[1..], cs[1..], b);
      if cs[0][0] == b {
        var rest := PickWeights(ws[1..], cs[1..], b);
        assert ([ws[0]] + rest)[1..] == rest;
      }
    }
  }

  lemma CancelOne<T>(A: multiset<T>, B: multiset<T>, x: T)
    requires A + multiset{x} == B + multiset{x}
    ensures A == B
  {
    assert A == A + multiset{x} - multiset{x};
    assert B == B + multiset{x} - multiset{x};
  }

  lemma {:induction false} TotalOfMultiset(ws: seq<int>, vs: seq<int>)
    requires multiset(ws) == multiset(vs)
    ensures Total(ws) == Total(vs)
  {
    if ws == [] {
      assert |multiset(vs)| == 0;
    } else {
      assert ws[0] in multiset(ws);
      var i :| 0 <= i < |vs| && vs[i] == ws[0];
      var rest := vs[..i] + vs[i + 1..];
      assert vs == vs[..i] + [vs[i]] + vs[i + 1..];
      assert ws == [ws[0]] + ws[1..];
      var l, r := vs[..i], vs[i + 1..];
      assert multiset(vs) == multiset(l) + multiset{vs[i]} + multiset(r);
      assert multiset(rest) + multiset{ws[0]} == multiset(vs);
      assert multiset(ws[1..]) + multiset{ws[0]} == multiset(ws);
      CancelOne(multiset(ws[1..]), multiset(rest), ws[0]);
      TotalOfMultiset(ws[1..], rest);
      TotalConcat(vs[..i] + [vs[i]], vs[i + 1..]);
      TotalConcat(vs[..i], [vs[i]]);
      TotalConcat(vs[..i], vs[i + 1..]);
    }
  }

  lemma NoEmptyCodeWord(cs: seq<DataBits>)
    requires PrefixFree(cs) && |cs| >= 2
    ensures NoneEmpty(cs)
  {
    forall i | 0 <= i < |cs|
      ensures cs[i] != []
    {
      if i == 0 {
        assert Incomparable(cs[0], cs[1..][0]);
      } else {
        assert Incomparable(cs[0], cs[1..][i - 1]);
      }
    }
  }

  /** Every prefix-free code is at least as long as some code tree for the same weights. */
  lemma {:induction false} TreeOfCode(ws: seq<int>, cs: seq<DataBits>) returns (t: Shape, vs: seq<int>)
    requires |ws| == |cs| >= 1 && PrefixFree(cs) && AllNonNegative(ws)
    ensures |vs| == |Depths(t, 0)| && multiset(vs) == multiset(ws)
    ensures Cost(t, vs) <= CodeCost(ws, cs)
    decreases TotalLength(cs)
  {
    if |cs| == 1 {
      t, vs := Tip, ws;
      SingleLeaf(ws, cs);
    } else {
      NoEmptyCodeWord(cs);
      PickLengths(cs);
      PickSplits(ws, cs);
      PickTotals(ws, cs);
      PickCost(ws, cs);
      var w0, c0 := PickWeights(ws, cs, false), PickCodes(cs, false);
      var w1, c1 := PickWeights(ws, cs, true), PickCodes(cs, true);
      PickPrefixFree(cs, false);
      PickPrefixFree(cs, true);
      PickNonNegative(ws, cs, false);
      PickNonNegative(ws, cs, true);
      if c1 == [] {
        t, vs := TreeOfCode(w0, c0);
      } else if c0 == [] {
        t, vs := TreeOfCode(w1, c1);
      } else {
        var t0, v0 := TreeOfCode(w0, c0);
        var t1, v1 := TreeOfCode(w1, c1);
        t, vs := Fork(t0, t1), v0 + v1;
        ForkCost(t0, t1, v0, v1);
        TotalOfMultiset(v0, w0);
        TotalOfMultiset(v1, w1);
      }
    }
  }

  lemma SingleLeaf(ws: seq<int>, cs: seq<DataBits>)
    requires |ws| == |cs| == 1 && AllNonNegative(ws)
    ensures Cost(Tip, ws) == 0 <= CodeCost(ws, cs)
  {
    assert ws == [ws[0]];
    DotSingle(ws[0], 0);
    TimesNonNegative(ws[0], |cs[0]|);
    assert CodeCost(ws[1..], cs[1..]) == 0;
  }

  lemma {:induction false} TimesNonNegative(w: int, d: nat)
    requires w >= 0
    ensures Times(w, d) >= 0
  {
    if d > 0 {
      TimesNonNegative(w, d - 1);
    }
  }
}
