/** Ranking and unranking of permutations (src/lib/bms/Maths.cpp:69-117). */
module Permutations {
  import opened Binomials
  import opened Lexicographic
  import Bits
  import Sequences

  ghost predicate Increasing(s: seq<nat>) {
    forall i, j :: 0 <= i < j < |s| ==> s[i] < s[j]
  }

  ghost function Elements(s: seq<nat>): (r: set<nat>) { set v | v in s }

  /** `p` arranges the set `S`: every element occurs exactly once. */
  ghost predicate Arranges(p: seq<nat>, S: set<nat>) {
    Sequences.Distinct(p) && Elements(p) == S
  }

  /** 0, 1, ..., k - 1 (std::iota). */
  function Iota(k: nat): (r: seq<nat>)
    ensures |r| == k && forall i :: 0 <= i < k ==> r[i] == i
  {
    seq(k, i => i)
  }

  ghost predicate IsPermutation(p: seq<nat>, k: nat) {
    |p| == k && Arranges(p, Elements(Iota(k)))
  }

  function CountLess(x: nat, s: seq<nat>): (r: nat)
    ensures r <= |s|
  {
    if s == [] then 0 else (if s[0] < x then 1 else 0) + CountLess(x, s[1..])
  }

  /** The rank by inversion counts. */
  function Rank(p: seq<nat>): (r: nat) {
    if p == [] then 0 else CountLess(p[0], p[1..]) * Fact(|p| - 1) + Rank(p[1..])
  }

  /** The arrangement at index `idx`: the digits of `idx` in factorial base pick from `buf`. */
  function Unrank(idx: nat, buf: seq<nat>): (p: seq<nat>)
    requires idx < Fact(|buf|)
    ensures |p| == |buf|
    decreases |buf|
  {
    if buf == [] then []
    else
      DigitBounds(idx, |buf|);
      var x := idx / Fact(|buf| - 1);
      [buf[x]] + Unrank(idx % Fact(|buf| - 1), Sequences.RemoveAt(buf, x))
  }

  lemma DigitBounds(idx: nat, k: nat)
    requires k > 0 && idx < Fact(k)
    ensures 0 <= idx / Fact(k - 1) < k && 0 <= idx % Fact(k - 1) < Fact(k - 1)
    ensures idx == idx / Fact(k - 1) * Fact(k - 1) + idx % Fact(k - 1)
  {
    var f := Fact(k - 1);
    Bits.DivMod(idx, f);
    var x := idx / f;
    if x >= k {
      Bits.MulAtMost(f, k, x);
    } else if x < 0 {
      Bits.MulAtMost(f, x, -1);
    }
  }

  // ------------------------------------------------------- counting over a set

  ghost function Below(x: nat, S: set<nat>): (r: set<nat>) { set v | v in S && v < x }

  lemma {:induction false} CountLessIsCardinality(x: nat, s: seq<nat>)
    requires Sequences.Distinct(s)
    ensures CountLess(x, s) == |Below(x, Elements(s))|
  {
    if s == [] {
      assert Below(x, Elements(s)) == {};
    } else {
      CountLessIsCardinality(x, s[1..]);
      BelowCons(x, s[0], Elements(s[1..]));
      assert Elements(s) == {s[0]} + Elements(s[1..]);
    }
  }

  lemma BelowCons(x: nat, y: nat, S: set<nat>)
    requires y !in S
    ensures |Below(x, {y} + S)| == (if y < x then 1 else 0) + |Below(x, S)|
  {
    var smaller := Below(x, S);
    assert Below(x, {y} + S) == if y < x then {y} + smaller else smaller;
  }

  lemma {:induction false} BelowInIncreasing(buf: seq<nat>, x: nat)
    requires Increasing(buf) && x < |buf|
    ensures |Below(buf[x], Elements(buf))| == x
  {
    if x == 0 {
      assert Below(buf[0], Elements(buf)) == {};
    } else {
      BelowInIncreasing(buf, x - 1);
      assert Below(buf[x], Elements(buf)) == Below(buf[x - 1], Elements(buf)) + {buf[x - 1]};
    }
  }

  lemma RemoveAtElements(buf: seq<nat>, x: nat)
    requires Sequences.Distinct(buf) && x < |buf|
    ensures Elements(Sequences.RemoveAt(buf, x)) == Elements(buf) - {buf[x]}
    ensures Sequences.Distinct(Sequences.RemoveAt(buf, x))
  {
    var r := Sequences.RemoveAt(buf, x);
    forall v | v in buf && v != buf[x]
      ensures v in r
    {
      var i :| 0 <= i < |buf| && buf[i] == v;
      assert v == if i < x then r[i] else r[i - 1];
    }
  }

  /** Removing the head of an arrangement. */
  lemma ArrangesTail(p: seq<nat>, S: set<nat>)
    requires Arranges(p, S) && p != []
    ensures p[0] in S && Arranges(p[1..], S - {p[0]})
  {
    assert p == [p[0]] + p[1..];
  }

  lemma {:induction false} ArrangesLength(p: seq<nat>, S: set<nat>)
    requires Arranges(p, S)
    ensures |p| == |S|
  {
    if p != [] {
      ArrangesTail(p, S);
      ArrangesLength(p[1..], S - {p[0]});
    } else {
      assert S == {};
    }
  }

  /** The head's inversion count is its position in the set. */
  lemma HeadCount(p: seq<nat>, S: set<nat>)
    requires Arranges(p, S) && p != []
    ensures CountLess(p[0], p[1..]) == |Below(p[0], S)|
  {
    ArrangesTail(p, S);
    CountLessIsCardinality(p[0], p[1..]);
    assert Below(p[0], S - {p[0]}) == Below(p[0], S);
  }

  // ---------------------------------------------------------- the two inverses

  lemma {:induction false} UnrankArranges(idx: nat, buf: seq<nat>)
    requires Increasing(buf) && idx < Fact(|buf|)
    ensures Arranges(Unrank(idx, buf), Elements(buf))
    ensures Rank(Unrank(idx, buf)) == idx
    decreases |buf|
  {
    if buf != [] {
      DigitBounds(idx, |buf|);
      var x, rest := idx / Fact(|buf| - 1), idx % Fact(|buf| - 1);
      var tail := Unrank(rest, Sequences.RemoveAt(buf, x));
      UnrankArranges(rest, Sequences.RemoveAt(buf, x));
      ConsArranges(buf, x, tail);
      RankCons(buf[x], tail);
    }
  }

  lemma RankCons(head: nat, tail: seq<nat>)
    ensures Rank([head] + tail) == CountLess(head, tail) * Fact(|tail|) + Rank(tail)
  {
    assert ([head] + tail)[1..] == tail;
  }

  lemma ConsArranges(buf: seq<nat>, x: nat, tail: seq<nat>)
    requires Increasing(buf) && x < |buf| && Arranges(tail, Elements(Sequences.RemoveAt(buf, x)))
    ensures Arranges([buf[x]] + tail, Elements(buf))
    ensures CountLess(buf[x], tail) == x
  {
    RemoveAtElements(buf, x);
    ArrangesCons(buf[x], tail, Elements(buf));
    BelowInIncreasing(buf, x);
    HeadCount([buf[x]] + tail, Elements(buf));
    assert ([buf[x]] + tail)[1..] == tail;
  }

  lemma ArrangesCons(head: nat, tail: seq<nat>, S: set<nat>)
    requires head in S && Arranges(tail, S - {head})
    ensures Arranges([head] + tail, S)
  {
    var p := [head] + tail;
    assert p[1..] == tail;
    forall i, j | 0 <= i < j < |p|
      ensures p[i] != p[j]
    {
      assert p[j] == tail[j - 1] && p[j] in Elements(tail);
      if i > 0 { assert p[i] == tail[i - 1]; }
    }
    forall v
      ensures v in Elements(p) <==> v in S
    {
      assert v in p <==> v == head || v in tail;
      assert v in tail <==> v in Elements(tail);
    }
  }

  lemma {:induction false} RankBound(p: seq<nat>)
    ensures Rank(p) < Fact(|p|)
  {
    if p != [] {
      RankBound(p[1..]);
      DigitBelow(CountLess(p[0], p[1..]), |p|, Fact(|p| - 1), Rank(p[1..]));
    }
  }

  lemma DigitBelow(c: nat, d: nat, f: nat, r: nat)
    requires c < d && r < f
    ensures c * f + r < d * f
  {
    Bits.MulAtMost(f, c + 1, d);
  }

  lemma {:induction false} RankLess(a: seq<nat>, b: seq<nat>, S: set<nat>)
    requires Arranges(a, S) && Arranges(b, S) && |a| == |b|
    requires LexLess(a, b)
    ensures Rank(a) < Rank(b)
  {
    HeadCount(a, S);
    HeadCount(b, S);
    ArrangesTail(a, S);
    ArrangesTail(b, S);
    if a[0] < b[0] {
      BelowSmaller(a[0], b[0], S);
      RankBound(a[1..]);
      DigitBelow(CountLess(a[0], a[1..]), CountLess(b[0], b[1..]), Fact(|a| - 1), Rank(a[1..]));
    } else {
      RankLess(a[1..], b[1..], S - {a[0]});
    }
  }

  lemma BelowSmaller(x: nat, y: nat, S: set<nat>)
    requires x in S && x < y
    ensures |Below(x, S)| < |Below(y, S)|
  {
    assert Below(x, S) + {x} <= Below(y, S);
    SubsetCardinality(Below(x, S) + {x}, Below(y, S));
  }

  lemma {:induction false} SubsetCardinality(s: set<nat>, t: set<nat>)
    requires s <= t
    ensures |s| <= |t|
  {
    assert t == s + (t - s);
    assert |t| == |s| + |t - s|;
  }

  /** Numeric order of ranks is lexicographic order of arrangements of the same set. */
  lemma RankOrder(a: seq<nat>, b: seq<nat>, S: set<nat>)
    requires Arranges(a, S) && Arranges(b, S)
    ensures |a| == |b|
    ensures Rank(a) < Rank(b) <==> LexLess(a, b)
    ensures Rank(a) == Rank(b) <==> a == b
  {
    ArrangesLength(a, S);
    ArrangesLength(b, S);
    LexTotal(a, b);
    if LexLess(a, b) {
      RankLess(a, b, S);
    }
    if LexLess(b, a) {
      RankLess(b, a, S);
    }
  }

  /** Rank and Unrank are mutually inverse between 0..k! - 1 and the permutations of 0..k - 1. */
  lemma Bijection(k: nat)
    ensures forall idx: nat :: idx < Fact(k) ==>
              IsPermutation(Unrank(idx, Iota(k)), k) && Rank(Unrank(idx, Iota(k))) == idx
    ensures forall p: seq<nat> :: IsPermutation(p, k) ==>
              Rank(p) < Fact(k) && Unrank(Rank(p), Iota(k)) == p
  {
    forall idx: nat | idx < Fact(k)
      ensures IsPermutation(Unrank(idx, Iota(k)), k) && Rank(Unrank(idx, Iota(k))) == idx
    {
      UnrankArranges(idx, Iota(k));
    }
    forall p: seq<nat> | IsPermutation(p, k)
      ensures Rank(p) < Fact(k) && Unrank(Rank(p), Iota(k)) == p
    {
      RankBound(p);
      UnrankArranges(Rank(p), Iota(k));
      RankOrder(Unrank(Rank(p), Iota(k)), p, Elements(Iota(k)));
    }
  }

  // ------------------------------------------------------------------- methods

  /** PermutationToInteger; the loop bound PermSize - 2 is unsigned, so two elements are needed. */
  method PermutationToInteger(p: seq<nat>) returns (idx: nat)
    requires |p| >= 2
    ensures idx == Rank(p)
  {
    hide CountLess, Fact;
    idx := 0;
    for i := 0 to |p| - 1
      invariant idx + Rank(p[i..]) == Rank(p)
    {
      var a := CountBehind(p, i);
      assert p[i..][1..] == p[i + 1..];
      var fac := Factorial(|p| - i - 1);
      idx := idx + a * fac;
    }
    assert Rank(p[|p| - 1..]) == 0;
  }

  /** The inner loop: how many of the elements behind the i-th are less than it. */
  method CountBehind(p: seq<nat>, i: nat) returns (a: nat)
    requires i < |p|
    ensures a == CountLess(p[i], p[i + 1..])
  {
    a := 0;
    for j := i + 1 to |p|
      invariant a + CountLess(p[i], p[j..]) == CountLess(p[i], p[i + 1..])
    {
      assert p[j..][1..] == p[j + 1..];
      if p[i] > p[j] {
        a := a + 1;
      }
    }
  }

  /** std::remove followed by erase: every element equal to `v` goes. */
  function Without(s: seq<nat>, v: nat): (r: seq<nat>) {
    if s == [] then [] else (if s[0] == v then [] else [s[0]]) + Without(s[1..], v)
  }

  lemma {:induction false} WithoutAbsent(s: seq<nat>, v: nat)
    requires v !in s
    ensures Without(s, v) == s
  {
    if s != [] {
      WithoutAbsent(s[1..], v);
    }
  }

  lemma {:induction false} WithoutIsRemoveAt(s: seq<nat>, x: nat)
    requires Sequences.Distinct(s) && x < |s|
    ensures Without(s, s[x]) == Sequences.RemoveAt(s, x)
  {
    if x == 0 {
      WithoutAbsent(s[1..], s[0]);
    } else {
      WithoutIsRemoveAt(s[1..], x - 1);
      assert Sequences.RemoveAt(s, x) == [s[0]] + Sequences.RemoveAt(s[1..], x - 1);
    }
  }

  /** One round of IntegerToPermutation: pick a digit and erase the element it points to. */
  method NextElement(idx: nat, buf: seq<nat>, ghost goal: seq<nat>)
    returns (element: nat, idx': nat, buf': seq<nat>, ghost tail: seq<nat>)
    requires buf != [] && Increasing(buf) && Unranks(goal, idx, buf)
    ensures |buf'| == |buf| - 1 && Increasing(buf')
    ensures goal == [element] + tail && Unranks(tail, idx', buf')
  {
    var fac := Factorial(|buf| - 1);
    DigitBounds(idx, |buf|);
    var x := idx / fac;
    element := buf[x];
    idx' := idx - x * fac;
    WithoutIsRemoveAt(buf, x);
    buf' := Without(buf, element);
    tail := Unrank(idx', buf');
  }

  /** `p` is the arrangement of `buf` at index `idx`. */
  ghost predicate Unranks(p: seq<nat>, idx: nat, buf: seq<nat>) {
    idx < Fact(|buf|) && p == Unrank(idx, buf)
  }

  method IntegerToPermutation(index: nat, k: nat) returns (perm: seq<nat>)
    requires index < Fact(k)
    ensures perm == Unrank(index, Iota(k))
  {
    perm := [];
    var idx := index;
    var buf := Iota(k);
    ghost var goal := Unrank(index, Iota(k));
    ghost var tail := goal;
    assert Unranks(tail, idx, buf);
    for i := 0 to k
      invariant |perm| == i && |buf| == k - i && Increasing(buf)
      invariant Unranks(tail, idx, buf) && perm + tail == goal
    {
      var element;
      ghost var rest := tail;
      element, idx, buf, tail := NextElement(idx, buf, tail);
      assert perm + rest == (perm + [element]) + tail;
      perm := perm + [element];
    }
    assert tail == [];
  }
}
