/** Which of two subtrees gets the zero (src/lib/bms/DataCompression.cpp:54-60, 136-167). */
module CodeOrder {
  import opened Bits
  import opened Huffman
  import opened HuffmanCodes
  import opened Compression

  /** How often the symbols occur whose code words begin with `p`. */
  function WeightBelow(leaves: seq<(Symbol, int)>, words: seq<DataBits>, p: DataBits): (r: int)
    requires |leaves| == |words|
  {
    if leaves == [] then 0
    else (if p <= words[0] then leaves[0].1 else 0) + WeightBelow(leaves[1..], words[1..], p)
  }

  lemma {:induction false} WeightConcat(a: seq<(Symbol, int)>, u: seq<DataBits>, b: seq<(Symbol, int)>,
                                        v: seq<DataBits>, p: DataBits)
    requires |a| == |u| && |b| == |v|
    ensures WeightBelow(a + b, u + v, p) == WeightBelow(a, u, p) + WeightBelow(b, v, p)
  {
    if a == [] {
      assert a + b == b && u + v == v;
    } else {
      assert (a + b)[1..] == a[1..] + b && (u + v)[1..] == u[1..] + v;
      WeightConcat(a[1..], u[1..], b, v, p);
    }
  }

  /** All words of a subtree begin with its prefix. */
  lemma {:induction false} WholeSubtree(t: Node, prefix: DataBits)
    ensures WeightBelow(Leaves(t), Paths(t, prefix), prefix) == Mass(t)
  {
    var leaves, words := Leaves(t), Paths(t, prefix);
    PathsExtend(t, prefix);
    AllBelow(leaves, words, prefix);
    MassOfLeaves(t);
  }

  function Sum(leaves: seq<(Symbol, int)>): (r: int) {
    if leaves == [] then 0 else leaves[0].1 + Sum(leaves[1..])
  }

  lemma {:induction false} AllBelow(leaves: seq<(Symbol, int)>, words: seq<DataBits>, p: DataBits)
    requires |leaves| == |words| && forall i :: 0 <= i < |words| ==> p <= words[i]
    ensures WeightBelow(leaves, words, p) == Sum(leaves)
  {
    if leaves != [] {
      AllBelow(leaves[1..], words[1..], p);
    }
  }

  lemma {:induction false} NoneBelow(leaves: seq<(Symbol, int)>, words: seq<DataBits>, p: DataBits)
    requires |leaves| == |words| && forall i :: 0 <= i < |words| ==> !(p <= words[i])
    ensures WeightBelow(leaves, words, p) == 0
  {
    if leaves != [] {
      NoneBelow(leaves[1..], words[1..], p);
    }
  }

  lemma {:induction false} SumConcat(a: seq<(Symbol, int)>, b: seq<(Symbol, int)>)
    ensures Sum(a + b) == Sum(a) + Sum(b)
  {
    if a == [] {
      assert a + b == b;
    } else {
      assert (a + b)[1..] == a[1..] + b;
      SumConcat(a[1..], b);
    }
  }

  lemma {:induction false} MassOfLeaves(t: Node)
    ensures Sum(Leaves(t)) == Mass(t)
  {
    match t
    case LeafNode(f, c) =>
      assert Sum([(c, f)][1..]) == 0;
    case InternalNode(_, l, r) =>
      MassOfLeaves(l);
      MassOfLeaves(r);
      SumConcat(Leaves(l), Leaves(r));
  }

  /** No word of the sibling's subtree begins with `p`. */
  lemma OtherSubtree(t: Node, prefix: DataBits, b: bool, p: DataBits)
    requires prefix + [!b] <= p
    ensures WeightBelow(Leaves(t), Paths(t, prefix + [b]), p) == 0
  {
    var leaves, words := Leaves(t), Paths(t, prefix + [b]);
    PathsExtend(t, prefix + [b]);
    assert p[|prefix|] == (prefix + [!b])[|prefix|];
    forall i | 0 <= i < |words|
      ensures !(p <= words[i])
    {
      assert words[i][|prefix|] == (prefix + [b])[|prefix|] == b;
    }
    NoneBelow(leaves, words, p);
  }

  lemma {:induction false} LighterBelow(t: Node, prefix: DataBits, p: DataBits)
    requires Ordered(t) && prefix <= p
    ensures WeightBelow(Leaves(t), Paths(t, prefix), p + [false]) <= WeightBelow(Leaves(t), Paths(t, prefix), p + [true])
  {
    hide WeightBelow;
    var zero, one := p + [false], p + [true];
    match t
    case LeafNode(_, _) =>
      NoneBelow(Leaves(t), Paths(t, prefix), zero);
      NoneBelow(Leaves(t), Paths(t, prefix), one);
    case InternalNode(_, l, r) =>
      var u, v := Paths(l, prefix + [false]), Paths(r, prefix + [true]);
      WeightConcat(Leaves(l), u, Leaves(r), v, zero);
      WeightConcat(Leaves(l), u, Leaves(r), v, one);
      if p == prefix {
        WholeSubtree(l, zero);
        WholeSubtree(r, one);
        OtherSubtree(l, prefix, false, one);
        OtherSubtree(r, prefix, true, zero);
      } else if p[|prefix|] {
        assert prefix + [true] <= p;
        OtherSubtree(l, prefix, false, zero);
        OtherSubtree(l, prefix, false, one);
        LighterBelow(r, prefix + [true], p);
      } else {
        assert prefix + [false] <= p;
        OtherSubtree(r, prefix, true, zero);
        OtherSubtree(r, prefix, true, one);
        LighterBelow(l, prefix + [false], p);
      }
  }

  /** The entries of the map in some order, with their words. */
  ghost predicate Lists(entries: seq<(Symbol, int)>, words: seq<DataBits>, codes: HuffCodeMap, frequencies: FreqMap) {
    |entries| == |words| && (forall i, j :: 0 <= i < j < |entries| ==> entries[i].0 != entries[j].0) &&
    (forall i :: 0 <= i < |entries| ==>
      entries[i].0 in frequencies && frequencies[entries[i].0] == entries[i].1 &&
      entries[i].0 in codes.left && codes.left[entries[i].0] == words[i]) &&
    forall c :: c in frequencies ==> exists i :: 0 <= i < |entries| && entries[i].0 == c
  }

  lemma LeavesAreListed(root: Node, codes: HuffCodeMap, frequencies: FreqMap)
    requires OnSymbols(root, frequencies) && codes == AddCodes(root, [], EmptyMap)
    ensures Lists(Leaves(root), Paths(root, []), codes, frequencies)
  {
    hide OnSymbols, AddCodes, Paths, Leaves, Symbols, PrefixCode, KraftSum;
    CodeOfTree(root, frequencies);
    SymbolsOnce(root, frequencies);
    var entries := Leaves(root);
    forall i, j | 0 <= i < j < |entries|
      ensures entries[i].0 != entries[j].0
    {
      assert Symbols(root)[i] != Symbols(root)[j];
    }
    forall c | c in frequencies
      ensures exists i :: 0 <= i < |entries| && entries[i].0 == c
    {
      assert c in SetOf(Symbols(root));
      var i :| 0 <= i < |Symbols(root)| && Symbols(root)[i] == c;
      assert entries[i].0 == c;
    }
  }

  /** In a generated code the lighter half gets the zero: of the symbols whose words begin alike, those that go on
      with a zero do not occur more often than those that go on with a one. */
  lemma LighterIsZero(codes: HuffCodeMap, frequencies: FreqMap)
    requires HuffmanCode(codes, frequencies)
    ensures exists entries, words :: Lists(entries, words, codes, frequencies) &&
              forall p :: WeightBelow(entries, words, p + [false]) <= WeightBelow(entries, words, p + [true])
  {
    hide WeightBelow, Lists, Optimal, OnSymbols, AddCodes, Ordered;
    var root :| ReadOff(codes, root, frequencies);
    LeavesAreListed(root, codes, frequencies);
    forall p
      ensures WeightBelow(Leaves(root), Paths(root, []), p + [false]) <= WeightBelow(Leaves(root), Paths(root, []), p + [true])
    {
      LighterBelow(root, [], p);
    }
  }
}
