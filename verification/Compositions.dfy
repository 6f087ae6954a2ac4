/** Ranking and unranking of weak compositions (src/lib/bms/Maths.cpp:119-185). */
module Compositions {
  import opened Binomials
  import opened Lexicographic

  function Sum(c: seq<nat>): (r: nat) {
    if c == [] then 0 else c[0] + Sum(c[1..])
  }

  ghost predicate IsComposition(c: seq<nat>, n: nat, k: nat) {
    |c| == k && Sum(c) == n
  }

  lemma SumConcat(a: seq<nat>, b: seq<nat>)
    ensures Sum(a + b) == Sum(a) + Sum(b)
  {
    if a == [] {
      assert a + b == b;
    } else {
      SumConcat(a[1..], b);
      assert (a + b)[1..] == a[1..] + b;
    }
  }

  /** The rank: for each part, how many compositions have a smaller part there. */
  function Rank(c: seq<nat>): (r: int)
    requires c != []
  {
    if |c| == 1 then 0
    else NumComps(Sum(c), |c|) - NumComps(Sum(c) - c[0], |c|) + Rank(c[1..])
  }

  /** Ranks stay below the count, and below the rank of any composition with a larger head. */
  lemma {:induction false} RankBounds(c: seq<nat>)
    requires c != []
    ensures 0 <= Rank(c) < NumComps(Sum(c), |c|)
    ensures |c| >= 2 ==> NumComps(Sum(c), |c|) - NumComps(Sum(c) - c[0], |c|) <= Rank(c)
    ensures |c| >= 2 && c[0] < Sum(c) ==>
              Rank(c) < NumComps(Sum(c), |c|) - NumComps(Sum(c) - c[0] - 1, |c|)
  {
    var n, k := Sum(c), |c|;
    if k == 1 {
      NumCompsPositive(n, 1);
    } else {
      var m := n - c[0];
      RankBounds(c[1..]);
      NumCompsMonotone(m, n, k);
      NumCompsFewerParts(m, k);
      if m >= 1 { NumCompsStep(m, k); }
    }
  }

  lemma {:induction false} RankLess(a: seq<nat>, b: seq<nat>)
    requires a != [] && |a| == |b| && Sum(a) == Sum(b)
    requires LexLess(a, b)
    ensures Rank(a) < Rank(b)
  {
    if |a| == 1 {
    } else if a[0] < b[0] {
      RankBounds(a);
      RankBounds(b);
      NumCompsMonotone(Sum(b) - b[0], Sum(a) - a[0] - 1, |a|);
    } else {
      RankLess(a[1..], b[1..]);
    }
  }

  /** Numeric order of ranks is lexicographic order of compositions. */
  lemma RankOrder(a: seq<nat>, b: seq<nat>)
    requires a != [] && |a| == |b| && Sum(a) == Sum(b)
    ensures Rank(a) < Rank(b) <==> LexLess(a, b)
    ensures Rank(a) == Rank(b) <==> a == b
  {
    LexTotal(a, b);
    if LexLess(a, b) {
      RankLess(a, b);
    }
    if LexLess(b, a) {
      RankLess(b, a);
    }
  }

  /** The enumeration by counting: the first NumComps(n, k - 1) compositions start with 0,
      the rest are the compositions of n - 1 with one added to the first part. */
  ghost function FirstPart(idx: nat, n: nat, k: nat): (mu: nat)
    requires k >= 2 && idx < NumComps(n, k)
    ensures mu <= n
    ensures NumComps(n, k) - NumComps(n - mu, k) <= idx
    ensures idx < NumComps(n, k) - NumComps(n - mu, k) + NumComps(n - mu, k - 1)
    decreases n
  {
    if idx < NumComps(n, k - 1) then 0
    else
      assert n >= 1 by { if n == 0 { NumCompsNothing(k); NumCompsNothing(k - 1); } }
      NumCompsStep(n, k);
      1 + FirstPart(idx - NumComps(n, k - 1), n - 1, k)
  }

  ghost predicate IsRank(idx: nat, n: nat, k: nat) {
    k >= 1 && idx < NumComps(n, k)
  }

  ghost function Unrank(idx: nat, n: nat, k: nat): (c: seq<nat>)
    requires IsRank(idx, n, k)
    ensures IsComposition(c, n, k)
    decreases k
  {
    if k == 1 then [n]
    else
      var mu := FirstPart(idx, n, k);
      [mu] + Unrank(idx - (NumComps(n, k) - NumComps(n - mu, k)), n - mu, k - 1)
  }

  /** `c` is the composition of `n` into `k` parts at index `idx`. */
  ghost predicate Unranks(c: seq<nat>, idx: nat, n: nat, k: nat) {
    IsRank(idx, n, k) && c == Unrank(idx, n, k)
  }

  lemma UnrankRest(idx: nat, n: nat, k: nat, mu: nat, left: nat, goal: seq<nat>) returns (tail: seq<nat>)
    requires k >= 2 && Unranks(goal, idx, n, k) && mu == FirstPart(idx, n, k)
    requires left == idx - (NumComps(n, k) - NumComps(n - mu, k))
    ensures Unranks(tail, left, n - mu, k - 1) && goal == [mu] + tail
  {
    tail := Unrank(left, n - mu, k - 1);
  }

  lemma {:induction false} RankOfUnrank(idx: nat, n: nat, k: nat)
    requires IsRank(idx, n, k)
    ensures Rank(Unrank(idx, n, k)) == idx
    decreases k
  {
    if k == 1 {
      assert NumComps(n, 1) == 1;
    } else {
      var mu := FirstPart(idx, n, k);
      var skipped := NumComps(n, k) - NumComps(n - mu, k);
      var tail := UnrankRest(idx, n, k, mu, idx - skipped, Unrank(idx, n, k));
      RankOfUnrank(idx - skipped, n - mu, k - 1);
      RankStep(idx, n, k, mu, tail);
    }
  }

  lemma RankStep(idx: nat, n: nat, k: nat, mu: nat, rest: seq<nat>)
    requires k >= 2 && mu <= n && IsComposition(rest, n - mu, k - 1)
    requires Rank(rest) == idx - (NumComps(n, k) - NumComps(n - mu, k))
    ensures Rank([mu] + rest) == idx
  {
    ConsFacts(mu, rest);
    RankUnfold([mu] + rest, n, k, mu, rest);
  }

  lemma ConsFacts(head: nat, rest: seq<nat>)
    ensures ([head] + rest)[0] == head && ([head] + rest)[1..] == rest
    ensures Sum([head] + rest) == head + Sum(rest)
  {
    assert ([head] + rest)[1..] == rest;
  }

  lemma RankUnfold(c: seq<nat>, n: nat, k: nat, head: nat, rest: seq<nat>)
    requires |c| == k >= 2 && Sum(c) == n && c[0] == head && c[1..] == rest && head <= n
    ensures Rank(c) == NumComps(n, k) - NumComps(n - head, k) + Rank(rest)
  {
  }

  /** Rank and Unrank are mutually inverse between 0..NumComps(n, k) - 1 and the
      compositions of n into k parts. */
  lemma Bijection(n: nat, k: nat)
    requires k >= 1
    ensures forall idx: nat :: IsRank(idx, n, k) ==>
              IsComposition(Unrank(idx, n, k), n, k) && Rank(Unrank(idx, n, k)) == idx
    ensures forall c: seq<nat> {:trigger Rank(c)} :: IsComposition(c, n, k) ==>
              0 <= Rank(c) && IsRank(Rank(c), n, k) && Unrank(Rank(c), n, k) == c
  {
    forall idx: nat | IsRank(idx, n, k)
      ensures Rank(Unrank(idx, n, k)) == idx
    {
      RankOfUnrank(idx, n, k);
    }
    forall c: seq<nat> | IsComposition(c, n, k)
      ensures 0 <= Rank(c) && IsRank(Rank(c), n, k) && Unrank(Rank(c), n, k) == c
    {
      RankBounds(c);
      RankOfUnrank(Rank(c), n, k);
      RankOrder(Unrank(Rank(c), n, k), c);
    }
  }

  // ------------------------------------------------------------------- methods

  /** std::accumulate over the parts. */
  method Accumulate(c: seq<nat>) returns (total: nat)
    ensures total == Sum(c)
  {
    total := 0;
    for i := 0 to |c|
      invariant total + Sum(c[i..]) == Sum(c)
    {
      total := total + c[i];
    }
  }

  lemma {:induction false} PartAtMostSum(c: seq<nat>, i: nat)
    requires i < |c|
    ensures c[i] <= Sum(c)
  {
    if i > 0 { PartAtMostSum(c[1..], i - 1); }
  }

  /** CompositionToInteger computes the rank. */
  method CompositionToInteger(c: seq<nat>) returns (idx: nat)
    requires 1 <= |c| < 0x10000 && Sum(c) + |c| - 1 < WORD
    ensures idx == Rank(c)
  {
    var n := Accumulate(c);
    var k := |c|;
    RankBounds(c);
    var acc: int := 0;
    for i := 0 to |c| - 1
      invariant k == |c| - i && n == Sum(c[i..]) <= Sum(c)
      invariant acc + Rank(c[i..]) == Rank(c)
    {
      assert c[i..][0] == c[i] && c[i..][1..] == c[i + 1..];
      var all := NumberCompositions(n, k);
      var rest := NumberCompositions(n - c[i], k);
      acc := acc + all - rest;
      k := k - 1;
      n := n - c[i];
    }
    idx := acc;
  }

  /** The two correction loops: from any starting point, mu ends where
      NumComps(n - mu - 1, k) < target <= NumComps(n - mu, k). The loops are stated with
      m = n - mu modulo 2^64, the only way mu is used. */
  method CorrectEstimate(n: nat, k: nat, target: nat, start: nat) returns (mu: nat)
    requires 2 <= k < 0x10000 && n + k - 1 < WORD && start < WORD
    requires 1 <= target <= NumComps(n, k)
    ensures mu <= n && target <= NumComps(n - mu, k)
    ensures mu < n ==> NumComps(n - mu - 1, k) < target
  {
    mu := start;
    while true
      invariant mu < WORD
      decreases Wrap(n - mu)
    {
      var below := NumberCompositions(Wrap(n - mu - 1), k);
      if below < target { break; }
      assert Wrap(n - mu) > 0;
      mu := Wrap(mu + 1);
    }
    while true
      invariant mu < WORD
      invariant NumComps64(Wrap(n - mu - 1), k) < target
      decreases if Wrap(n - mu) <= n then n - Wrap(n - mu) else WORD - Wrap(n - mu) + n + 1
    {
      ghost var m := Wrap(n - mu);
      var here := NumberCompositions(Wrap(n - mu), k);
      if m > n && m + k - 2 < WORD {
        NumCompsMonotone(n, m - 1, k);
        assert false;
      }
      if target <= here { break; }
      mu := Wrap(mu - 1);
    }
  }

  /** One round of IntegerToComposition: the next part and the index left for the others. */
  method NextPart(idx: nat, n: nat, k: nat, estimate: (int, nat) -> nat, ghost goal: seq<nat>)
    returns (mu: nat, left: nat, ghost tail: seq<nat>)
    requires 2 <= k < 0x10000 && n + k - 1 < WORD && Unranks(goal, idx, n, k)
    ensures mu <= n && Unranks(tail, left, n - mu, k - 1) && goal == [mu] + tail
  {
    var all := NumberCompositions(n, k);
    var fac := Factorial(k - 1);
    var root := estimate((all - idx) * fac, k - 1);
    mu := CorrectEstimate(n, k, all - idx, Wrap(n - root - (k - 1) / 2));
    FirstPartUnique(idx, n, k, mu);
    var rest := NumberCompositions(n - mu, k);
    left := idx - (all - rest);
    tail := UnrankRest(idx, n, k, mu, left, goal);
  }

  /** IntegerToComposition, whatever value the floating-point root estimate takes. */
  method IntegerToComposition(index: nat, total: nat, parts: nat, estimate: (int, nat) -> nat)
    returns (composition: seq<nat>)
    requires 1 <= parts < 0x10000 && total + parts - 1 < WORD
    requires IsRank(index, total, parts)
    ensures composition == Unrank(index, total, parts)
  {
    hide NumComps, IsRank;
    var idx: nat, n: nat, k: nat := index, total, parts;
    composition := seq(parts, i => 0);
    ghost var goal := Unrank(index, total, parts);
    ghost var left := goal;
    assert Unranks(left, idx, n, k);
    var i := 0;
    while i <= parts - 2
      invariant 0 <= i <= parts - 1 && k == parts - i && |composition| == parts
      invariant n <= total && Unranks(left, idx, n, k)
      invariant forall j :: i <= j < parts ==> composition[j] == 0
      invariant composition[..i] + left == goal
    {
      if n == 0 {
        break;
      }
      var mu, idx', tail := NextPart(idx, n, k, estimate, left);
      idx, n, k := idx', n - mu, k - 1;
      ShiftHead(composition, i, mu, left, tail);
      left := tail;
      composition := composition[i := mu];
      i := i + 1;
    }
    if i < parts - 1 {
      UnrankNothing(idx, k);
    }
    ghost var before := composition[..i];
    composition := composition[parts - 1 := n];
    assert composition == before + left;
  }

  lemma ShiftHead(c: seq<nat>, i: nat, mu: nat, left: seq<nat>, tail: seq<nat>)
    requires i < |c| && left == [mu] + tail
    ensures c[i := mu][..i + 1] + tail == c[..i] + left
  {
  }

  lemma FirstPartUnique(idx: nat, n: nat, k: nat, mu: nat)
    requires k >= 2 && idx < NumComps(n, k) && mu <= n
    requires NumComps(n, k) - idx <= NumComps(n - mu, k)
    requires mu < n ==> NumComps(n - mu - 1, k) < NumComps(n, k) - idx
    ensures mu == FirstPart(idx, n, k)
  {
    var nu := FirstPart(idx, n, k);
    if nu < n { NumCompsStep(n - nu, k); }
    if mu < nu {
      NumCompsMonotone(n - nu, n - mu - 1, k);
    } else if nu < mu {
      NumCompsMonotone(n - mu, n - nu - 1, k);
    }
  }

  lemma {:induction false} UnrankNothing(idx: nat, k: nat)
    requires IsRank(idx, 0, k)
    ensures Unrank(idx, 0, k) == seq(k, i => 0)
  {
    NumCompsNothing(k);
    if k > 1 {
      NumCompsNothing(k - 1);
      UnrankNothing(0, k - 1);
      assert FirstPart(idx, 0, k) == 0;
      assert Unrank(idx, 0, k) == [0] + Unrank(0, 0, k - 1);
    }
  }
}
