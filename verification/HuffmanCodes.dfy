/** Code generation, compression and decompression (src/lib/bms/DataCompression.cpp:77-252). */
module HuffmanCodes {
  import opened Bits
  import opened CodeTrees
  import opened PrefixCodes
  import opened Huffman
  import Sequences

  const EOF_SYMBOL: Symbol := 3

  /** boost::bimap<char, HuffCode>: both directions of the code. */
  datatype HuffCodeMap = HuffCodeMap(left: map<Symbol, DataBits>, right: map<DataBits, Symbol>)

  ghost predicate Consistent(m: HuffCodeMap) {
    (forall c :: c in m.left ==> m.left[c] in m.right && m.right[m.left[c]] == c) &&
    (forall b :: b in m.right ==> m.right[b] in m.left && m.left[m.right[b]] == b)
  }

  /** bimap::insert does nothing when either side is already present. */
  function Insert(m: HuffCodeMap, c: Symbol, code: DataBits): HuffCodeMap {
    if c in m.left || code in m.right then m
    else HuffCodeMap(m.left[c := code], m.right[code := c])
  }

  /** What GenerateCodes(node, prefix, codes) leaves in `codes`. */
  function AddCodes(t: Node, prefix: DataBits, m: HuffCodeMap): HuffCodeMap {
    match t
    case LeafNode(_, c) => Insert(m, c, prefix)
    case InternalNode(_, l, r) => AddCodes(r, prefix + [true], AddCodes(l, prefix + [false], m))
  }

  const EmptyMap := HuffCodeMap(map[], map[])

  // ------------------------------------------------- the paths to the leaves

  function Symbols(t: Node): (r: seq<Symbol>)
    ensures |r| == |Leaves(t)| && forall i :: 0 <= i < |r| ==> r[i] == Leaves(t)[i].0
  {
    match t
    case LeafNode(_, c) => [c]
    case InternalNode(_, l, r) => Symbols(l) + Symbols(r)
  }

  function Paths(t: Node, prefix: DataBits): (r: seq<DataBits>)
    ensures |r| == |Leaves(t)|
  {
    match t
    case LeafNode(_, _) => [prefix]
    case InternalNode(_, l, r) => Paths(l, prefix + [false]) + Paths(r, prefix + [true])
  }

  lemma {:induction false} PathsExtend(t: Node, prefix: DataBits)
    ensures forall i :: 0 <= i < |Paths(t, prefix)| ==> prefix <= Paths(t, prefix)[i]
  {
    match t
    case LeafNode(_, _) =>
    case InternalNode(_, l, r) =>
      PathsExtend(l, prefix + [false]);
      PathsExtend(r, prefix + [true]);
      var p, q := Paths(l, prefix + [false]), Paths(r, prefix + [true]);
      forall i | 0 <= i < |p + q|
        ensures prefix <= (p + q)[i]
      {
        if i < |p| {
          assert prefix + [false] <= p[i];
        } else {
          assert prefix + [true] <= q[i - |p|];
        }
      }
  }

  lemma Siblings(prefix: DataBits, a: DataBits, b: DataBits)
    requires prefix + [false] <= a && prefix + [true] <= b
    ensures Incomparable(a, b) && Incomparable(b, a)
  {
    assert a[|prefix|] == false && b[|prefix|] == true;
  }

  /** The paths to different leaves are never prefixes of each other. */
  lemma {:induction false} PathsPrefixFree(t: Node, prefix: DataBits)
    ensures forall i, j :: 0 <= i < j < |Paths(t, prefix)| ==> Incomparable(Paths(t, prefix)[i], Paths(t, prefix)[j])
  {
    match t
    case LeafNode(_, _) =>
    case InternalNode(_, l, r) =>
      var p, q := Paths(l, prefix + [false]), Paths(r, prefix + [true]);
      PathsPrefixFree(l, prefix + [false]);
      PathsPrefixFree(r, prefix + [true]);
      PathsExtend(l, prefix + [false]);
      PathsExtend(r, prefix + [true]);
      forall i, j | 0 <= i < j < |p + q|
        ensures Incomparable((p + q)[i], (p + q)[j])
      {
        if j < |p| {
          assert Incomparable(p[i], p[j]);
        } else if i < |p| {
          Siblings(prefix, p[i], q[j - |p|]);
        } else {
          assert Incomparable(q[i - |p|], q[j - |p|]);
        }
      }
  }

  /** A path is as long as its leaf is deep. */
  lemma {:induction false} PathLengths(t: Node, prefix: DataBits)
    ensures |Paths(t, prefix)| == |Depths(ShapeOf(t), |prefix|)|
    ensures forall i :: 0 <= i < |Paths(t, prefix)| ==> |Paths(t, prefix)[i]| == Depths(ShapeOf(t), |prefix|)[i]
  {
    match t
    case LeafNode(_, _) =>
    case InternalNode(_, l, r) =>
      PathLengths(l, prefix + [false]);
      PathLengths(r, prefix + [true]);
  }

  // ------------------------------------------------------------ Kraft's equality

  function Half(n: nat): (r: real)
  {
    if n == 0 then 1.0 else Half(n - 1) / 2.0
  }

  function KraftSum(cs: seq<DataBits>): real {
    if cs == [] then 0.0 else Half(|cs[0]|) + KraftSum(cs[1..])
  }

  lemma {:induction false} KraftConcat(p: seq<DataBits>, q: seq<DataBits>)
    ensures KraftSum(p + q) == KraftSum(p) + KraftSum(q)
  {
    if p == [] {
      assert p + q == q;
    } else {
      KraftConcat(p[1..], q);
      assert (p + q)[1..] == p[1..] + q;
    }
  }

  /** The code leaves no gaps: the sum of 2^-length over all code words is one. */
  lemma {:induction false} KraftEquality(t: Node, prefix: DataBits)
    ensures KraftSum(Paths(t, prefix)) == Half(|prefix|)
  {
    match t
    case LeafNode(_, _) =>
      assert [prefix][1..] == [];
    case InternalNode(_, l, r) =>
      KraftEquality(l, prefix + [false]);
      KraftEquality(r, prefix + [true]);
      KraftConcat(Paths(l, prefix + [false]), Paths(r, prefix + [true]));
  }

  // -------------------------------------------------- the generated code map

  ghost predicate NothingBelow(m: HuffCodeMap, prefix: DataBits) {
    forall b :: b in m.right ==> !(prefix <= b)
  }

  ghost predicate Fresh(t: Node, m: HuffCodeMap) {
    forall i :: 0 <= i < |Symbols(t)| ==> Symbols(t)[i] !in m.left
  }

  /** Symbol ss[i] has code word cs[i]. */
  ghost predicate Labels(m: HuffCodeMap, ss: seq<Symbol>, cs: seq<DataBits>) {
    |ss| == |cs| && forall i :: 0 <= i < |ss| ==> ss[i] in m.left && m.left[ss[i]] == cs[i]
  }

  ghost predicate Extends(r: HuffCodeMap, m: HuffCodeMap) {
    forall c :: c in m.left ==> c in r.left && r.left[c] == m.left[c]
  }

  ghost function SetOf(ss: seq<Symbol>): set<Symbol> { set c | c in ss }

  lemma LabelsConcat(r: HuffCodeMap, m: HuffCodeMap, s: seq<Symbol>, p: seq<DataBits>, u: seq<Symbol>, q: seq<DataBits>)
    requires Labels(m, s, p) && Extends(r, m) && Labels(r, u, q)
    ensures Labels(r, s + u, p + q)
  {
  }

  lemma SetOfConcat(s: seq<Symbol>, u: seq<Symbol>)
    ensures SetOf(s + u) == SetOf(s) + SetOf(u)
  {
  }

  /** `r` is `m` with the code words of the tree added below the prefix. */
  ghost predicate Adds(r: HuffCodeMap, m: HuffCodeMap, t: Node, prefix: DataBits) {
    Consistent(r) && Labels(r, Symbols(t), Paths(t, prefix)) && Extends(r, m) &&
    r.left.Keys == m.left.Keys + SetOf(Symbols(t)) && OnlyBelow(r, m, prefix)
  }

  lemma {:induction false} AddCodesAdds(t: Node, prefix: DataBits, m: HuffCodeMap)
    requires Consistent(m) && Sequences.Distinct(Symbols(t)) && Fresh(t, m) && NothingBelow(m, prefix)
    ensures Adds(AddCodes(t, prefix, m), m, t, prefix)
  {
    match t
    case LeafNode(_, c) =>
      assert Symbols(t)[0] == c;
      InsertFresh(m, c, prefix);
    case InternalNode(_, l, r) =>
      DistinctHalves(Symbols(l), Symbols(r));
      FreshHalves(t, m);
      AddCodesAdds(l, prefix + [false], m);
      var m1 := AddCodes(l, prefix + [false], m);
      FreshAfter(r, m1, m, Symbols(l));
      StillNothingBelow(m1, m, prefix);
      AddCodesAdds(r, prefix + [true], m1);
      AddsBoth(t, prefix, m, m1, AddCodes(r, prefix + [true], m1));
  }

  lemma AddsBoth(t: Node, prefix: DataBits, m: HuffCodeMap, m1: HuffCodeMap, m2: HuffCodeMap)
    requires t.InternalNode? && Adds(m1, m, t.left, prefix + [false]) && Adds(m2, m1, t.right, prefix + [true])
    ensures Adds(m2, m, t, prefix)
  {
    var sl, sr := Symbols(t.left), Symbols(t.right);
    LabelsConcat(m2, m1, sl, Paths(t.left, prefix + [false]), sr, Paths(t.right, prefix + [true]));
    SetOfConcat(sl, sr);
    OnlyBelowBoth(m2, m1, m, prefix);
  }

  lemma OnlyBelowBoth(m2: HuffCodeMap, m1: HuffCodeMap, m: HuffCodeMap, prefix: DataBits)
    requires OnlyBelow(m1, m, prefix + [false]) && OnlyBelow(m2, m1, prefix + [true])
    ensures OnlyBelow(m2, m, prefix)
  {
    forall b | b in m2.right && b !in m.right
      ensures prefix <= b
    {
      if b in m1.right {
        assert prefix + [false] <= b;
      } else {
        assert prefix + [true] <= b;
      }
    }
  }

  /** Every code word added extends the prefix. */
  ghost predicate OnlyBelow(r: HuffCodeMap, m: HuffCodeMap, prefix: DataBits) {
    forall b :: b in r.right ==> b in m.right || prefix <= b
  }

  lemma InsertFresh(m: HuffCodeMap, c: Symbol, code: DataBits)
    requires Consistent(m) && c !in m.left && NothingBelow(m, code)
    ensures var r := Insert(m, c, code);
            Consistent(r) && Labels(r, [c], [code]) && Extends(r, m) &&
            r.left.Keys == m.left.Keys + SetOf([c]) && OnlyBelow(r, m, code)
  {
  }

  lemma FreshHalves(t: Node, m: HuffCodeMap)
    requires t.InternalNode? && Fresh(t, m)
    ensures Fresh(t.left, m) && Fresh(t.right, m)
  {
    var sl, sr := Symbols(t.left), Symbols(t.right);
    assert Symbols(t) == sl + sr;
    assert forall i :: 0 <= i < |sl| ==> sl[i] == (sl + sr)[i];
    assert forall i :: 0 <= i < |sr| ==> sr[i] == (sl + sr)[|sl| + i];
  }

  lemma FreshAfter(t: Node, r: HuffCodeMap, m: HuffCodeMap, sl: seq<Symbol>)
    requires Fresh(t, m) && r.left.Keys == m.left.Keys + SetOf(sl)
    requires forall i, j :: 0 <= i < |sl| && 0 <= j < |Symbols(t)| ==> sl[i] != Symbols(t)[j]
    ensures Fresh(t, r)
  {
  }

  lemma StillNothingBelow(r: HuffCodeMap, m: HuffCodeMap, prefix: DataBits)
    requires NothingBelow(m, prefix) && OnlyBelow(r, m, prefix + [false])
    ensures NothingBelow(r, prefix + [true])
  {
    forall b | b in r.right
      ensures !(prefix + [true] <= b)
    {
      if b in m.right {
        assert !(prefix <= b);
      } else {
        assert b[|prefix|] == false;
      }
    }
  }

  lemma DistinctHalves(s: seq<Symbol>, u: seq<Symbol>)
    requires Sequences.Distinct(s + u)
    ensures Sequences.Distinct(s) && Sequences.Distinct(u)
    ensures forall i, j :: 0 <= i < |s| && 0 <= j < |u| ==> s[i] != u[j]
  {
    var w := s + u;
    assert forall i :: 0 <= i < |s| ==> s[i] == w[i];
    assert forall j :: 0 <= j < |u| ==> u[j] == w[|s| + j];
  }

  /** Each symbol labels exactly one leaf. */
  lemma SymbolsOnce(t: Node, frequencies: FreqMap)
    requires OnSymbols(t, frequencies)
    ensures Sequences.Distinct(Symbols(t)) && SetOf(Symbols(t)) == frequencies.Keys
    ensures forall i :: 0 <= i < |Leaves(t)| ==>
      Leaves(t)[i].0 in frequencies && frequencies[Leaves(t)[i].0] == Leaves(t)[i].1
  {
    LeavesAreEntries(t, frequencies);
    LeavesDiffer(t, frequencies);
    forall c | c in frequencies.Keys
      ensures c in Symbols(t)
    {
      assert (c, frequencies[c]) in Entries(frequencies, frequencies.Keys);
      assert (c, frequencies[c]) in multiset(Leaves(t));
      var i :| 0 <= i < |Leaves(t)| && Leaves(t)[i] == (c, frequencies[c]);
      assert Symbols(t)[i] == c;
    }
  }

  lemma LeavesAreEntries(t: Node, frequencies: FreqMap)
    requires OnSymbols(t, frequencies)
    ensures forall i :: 0 <= i < |Leaves(t)| ==>
      Leaves(t)[i].0 in frequencies && frequencies[Leaves(t)[i].0] == Leaves(t)[i].1
  {
    forall i | 0 <= i < |Leaves(t)|
      ensures Leaves(t)[i].0 in frequencies && frequencies[Leaves(t)[i].0] == Leaves(t)[i].1
    {
      assert Leaves(t)[i] in multiset(Leaves(t));
    }
  }

  lemma LeavesDiffer(t: Node, frequencies: FreqMap)
    requires OnSymbols(t, frequencies)
    ensures Sequences.Distinct(Symbols(t))
  {
    LeavesAreEntries(t, frequencies);
    var E, L := Entries(frequencies, frequencies.Keys), Leaves(t);
    forall i, j | 0 <= i < j < |L|
      ensures L[i].0 != L[j].0
    {
      if L[i] == L[j] {
        assert multiset(E)[L[i]] <= 1;
        TwiceInSequence(L, i, j);
      }
    }
  }

  lemma TwiceInSequence<T>(s: seq<T>, i: nat, j: nat)
    requires i < j < |s| && s[i] == s[j]
    ensures multiset(s)[s[i]] >= 2
  {
    assert s == s[..i] + [s[i]] + s[i + 1..j] + [s[j]] + s[j + 1..];
  }

  /** A code: consistent, and no code word is a prefix of another symbol's. */
  ghost predicate PrefixCode(m: HuffCodeMap) {
    Consistent(m) && forall c, d :: c in m.left && d in m.left && c != d ==> Incomparable(m.left[c], m.left[d])
  }

  ghost predicate NoEmptyWord(m: HuffCodeMap) {
    forall c :: c in m.left ==> m.left[c] != []
  }

  /** The code of a tree: one word per symbol, prefix-free, complete, as long as the leaves are deep. */
  lemma CodeOfTree(t: Node, frequencies: FreqMap)
    requires OnSymbols(t, frequencies)
    ensures var m := AddCodes(t, [], EmptyMap);
            PrefixCode(m) && m.left.Keys == frequencies.Keys && Labels(m, Symbols(t), Paths(t, []))
    ensures KraftSum(Paths(t, [])) == 1.0
  {
    hide AddCodes, Symbols, OnSymbols, Consistent, PrefixCode;
    SymbolsOnce(t, frequencies);
    AddCodesAdds(t, [], EmptyMap);
    PathsPrefixFree(t, []);
    KraftEquality(t, []);
    LabelledPrefixCode(AddCodes(t, [], EmptyMap), Symbols(t), Paths(t, []));
  }

  lemma LabelledPrefixCode(m: HuffCodeMap, ss: seq<Symbol>, cs: seq<DataBits>)
    requires Consistent(m) && Labels(m, ss, cs) && m.left.Keys == SetOf(ss)
    requires forall i, j :: 0 <= i < j < |cs| ==> Incomparable(cs[i], cs[j])
    ensures PrefixCode(m)
  {
    forall c, d | c in m.left && d in m.left && c != d
      ensures Incomparable(m.left[c], m.left[d])
    {
      var i :| 0 <= i < |ss| && ss[i] == c;
      var j :| 0 <= j < |ss| && ss[j] == d;
      if i < j {
        assert Incomparable(cs[i], cs[j]);
      } else {
        assert Incomparable(cs[j], cs[i]);
      }
    }
  }

  /** With at least two symbols no code word is empty. */
  lemma TwoSymbols(m: HuffCodeMap, c: Symbol, d: Symbol)
    requires PrefixCode(m) && c in m.left && d in m.left && c != d
    ensures NoEmptyWord(m)
  {
    forall e | e in m.left
      ensures m.left[e] != []
    {
      assert Incomparable(m.left[e], m.left[if e == c then d else c]);
    }
  }
}
