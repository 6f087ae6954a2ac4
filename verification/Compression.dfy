/** Compression with a Huffman code that ends every message with an EoF symbol
    (src/lib/bms/DataCompression.cpp:77-252). */
module Compression {
  import opened Bits
  import opened CodeTrees
  import opened PrefixCodes
  import opened Huffman
  import opened HuffmanCodes
  import opened Options
  import Sequences

  // ------------------------------------------------------------ character domain

  predicate IsCharInvalid(symbol: Symbol) {
    if 0x0A == symbol then false
    else if 0x20 <= symbol && symbol <= 0x2F then false
    else if 0x30 <= symbol && symbol <= 0x39 then false
    else if 0x3A <= symbol && symbol <= 0x40 then false
    else if 0x61 <= symbol && symbol <= 0x7A then false
    else if 0x41 <= symbol && symbol <= 0x5A then false
    else true
  }

  /** remove_if followed by erase. */
  function TransformCharDomain(text: seq<Symbol>): (r: seq<Symbol>)
    ensures forall i :: 0 <= i < |r| ==> !IsCharInvalid(r[i])
  {
    if text == [] then []
    else if IsCharInvalid(text[0]) then TransformCharDomain(text[1..])
    else [text[0]] + TransformCharDomain(text[1..])
  }

  /** Newlines, and the characters from space to Z and from a to z, stay where they are; all others are removed. */
  lemma {:induction false} TransformKeepsSupported(before: seq<Symbol>, c: Symbol, after: seq<Symbol>)
    ensures TransformCharDomain(before + [c] + after) ==
            TransformCharDomain(before) +
            (if c == 0x0a || 0x20 <= c <= 0x5a || 0x61 <= c <= 0x7a then [c] else []) + TransformCharDomain(after)
  {
    if before == [] {
      assert [] + [c] + after == [c] + after;
      assert ([c] + after)[1..] == after;
    } else {
      assert (before + [c] + after)[1..] == before[1..] + [c] + after;
      TransformKeepsSupported(before[1..], c, after);
    }
  }

  /** How often each symbol of the text occurs. */
  ghost function Frequencies(text: seq<Symbol>): (r: FreqMap) {
    map c | c in text :: multiset(text)[c]
  }

  method ComputeFrequencies(text: seq<Symbol>) returns (frequencies: FreqMap)
    ensures frequencies == Frequencies(text)
  {
    frequencies := map[];
    for i := 0 to |text|
      invariant frequencies == Frequencies(text[..i])
    {
      var c := text[i];
      assert text[..i + 1] == text[..i] + [c];
      frequencies := frequencies[c := (if c in frequencies then frequencies[c] else 0) + 1];
    }
    assert text[..|text|] == text;
  }

  // -------------------------------------------------------------- GenerateCodes

  /** The bimap that GenerateCodes fills by reference. */
  class CodeTable {
    var codes: HuffCodeMap

    constructor ()
      ensures codes == EmptyMap
    {
      codes := EmptyMap;
    }

    method Insert(c: Symbol, code: DataBits)
      modifies this
      ensures codes == HuffmanCodes.Insert(old(codes), c, code)
    {
      codes := HuffmanCodes.Insert(codes, c, code);
    }
  }

  method GenerateCodesBelow(node: Node, prefix: DataBits, table: CodeTable)
    modifies table
    ensures table.codes == AddCodes(node, prefix, old(table.codes))
    decreases node
  {
    match node
    case LeafNode(_, c) =>
      table.Insert(c, prefix);
    case InternalNode(_, left, right) =>
      GenerateCodesBelow(left, prefix + [false], table);
      GenerateCodesBelow(right, prefix + [true], table);
  }

  /** `codes` reads off an optimal tree for the frequencies. */
  ghost predicate HuffmanCode(codes: HuffCodeMap, frequencies: FreqMap) {
    exists root: Node :: ReadOff(codes, root, frequencies)
  }

  ghost predicate ReadOff(codes: HuffCodeMap, root: Node, frequencies: FreqMap) {
    OnSymbols(root, frequencies) && Optimal(root) && Ordered(root) && codes == AddCodes(root, [], EmptyMap)
  }

  method GenerateCodes(frequencies: FreqMap) returns (codes: HuffCodeMap)
    requires frequencies != map[]
    ensures HuffmanCode(codes, frequencies)
  {
    var root := BuildTree(frequencies);
    var table := new CodeTable();
    GenerateCodesBelow(root, [], table);
    codes := table.codes;
    assert ReadOff(codes, root, frequencies);
  }

  /** Some order of the code words meets Kraft's equality. */
  ghost predicate Complete(codes: HuffCodeMap) {
    exists ss: seq<Symbol>, cs: seq<DataBits> ::
      Sequences.Distinct(ss) && SetOf(ss) == codes.left.Keys && Labels(codes, ss, cs) && KraftSum(cs) == 1.0
  }

  /** Every symbol gets exactly one code word; the code is prefix-free and complete. */
  lemma HuffmanCodeIsPrefixCode(codes: HuffCodeMap, frequencies: FreqMap)
    requires HuffmanCode(codes, frequencies)
    ensures PrefixCode(codes) && codes.left.Keys == frequencies.Keys && Complete(codes)
    ensures forall c, d :: c in frequencies && d in frequencies && c != d ==> NoEmptyWord(codes)
  {
    var root :| ReadOff(codes, root, frequencies);
    CodeOfTree(root, frequencies);
    SymbolsOnce(root, frequencies);
    assert Sequences.Distinct(Symbols(root)) && Labels(codes, Symbols(root), Paths(root, []));
    forall c, d | c in frequencies && d in frequencies && c != d
      ensures NoEmptyWord(codes)
    {
      TwoSymbols(codes, c, d);
    }
  }

  // ------------------------------------------------------------------- encoding

  ghost predicate Coded(data: seq<Symbol>, m: HuffCodeMap) {
    forall i :: 0 <= i < |data| ==> data[i] in m.left
  }

  /** The code words of the data, one after the other. */
  ghost function Encode(data: seq<Symbol>, m: HuffCodeMap): (r: DataBits)
    requires Coded(data, m)
  {
    if data == [] then [] else Encode(data[..|data| - 1], m) + m.left[data[|data| - 1]]
  }

  lemma {:induction false} EncodeConcat(a: seq<Symbol>, b: seq<Symbol>, m: HuffCodeMap)
    requires Coded(a, m) && Coded(b, m)
    ensures Encode(a + b, m) == Encode(a, m) + Encode(b, m)
  {
    if b == [] {
      assert a + b == a;
    } else {
      var c := b[..|b| - 1];
      EncodeConcat(a, c, m);
      assert (a + b)[..|a + b| - 1] == a + c;
    }
  }

  lemma EncodeCons(c: Symbol, data: seq<Symbol>, m: HuffCodeMap)
    requires c in m.left && Coded(data, m)
    ensures Encode([c] + data, m) == m.left[c] + Encode(data, m)
  {
    EncodeConcat([c], data, m);
    assert [c][..0] == [];
  }

  /** What Compress returns: the data and an EoF; an unknown symbol makes bimap::at throw. */
  ghost function Compressed(data: seq<Symbol>, m: HuffCodeMap): Option<DataBits> {
    if Coded(data, m) && EOF_SYMBOL in m.left then Some(Encode(data, m) + m.left[EOF_SYMBOL]) else None
  }

  method Compress(data: seq<Symbol>, codes: HuffCodeMap) returns (result: Option<DataBits>)
    ensures result == Compressed(data, codes)
  {
    var compData := [];
    for i := 0 to |data|
      invariant Coded(data[..i], codes) && compData == Encode(data[..i], codes)
    {
      if data[i] !in codes.left {
        return None;
      }
      assert data[..i + 1][..i] == data[..i];
      compData := compData + codes.left[data[i]];
    }
    assert data[..|data|] == data;
    if EOF_SYMBOL !in codes.left {
      return None;
    }
    return Some(compData + codes.left[EOF_SYMBOL]);
  }

  // ------------------------------------------------------------------- decoding

  /** Decompress from the bits still to be read and the bits of the symbol begun. */
  ghost function Decode(bits: DataBits, ch: DataBits, m: HuffCodeMap): (r: seq<Symbol>)
    decreases |bits|
  {
    if bits == [] then []
    else
      var next := ch + [bits[0]];
      if next !in m.right then Decode(bits[1..], next, m)
      else if m.right[next] == EOF_SYMBOL then []
      else [m.right[next]] + Decode(bits[1..], [], m)
  }

  method Decompress(bits: DataBits, codes: HuffCodeMap) returns (decompData: seq<Symbol>)
    ensures decompData == Decode(bits, [], codes)
  {
    decompData := [];
    var ch := [];
    for i := 0 to |bits|
      invariant decompData + Decode(bits[i..], ch, codes) == Decode(bits, [], codes)
    {
      assert bits[i..][1..] == bits[i + 1..];
      ghost var rest := Decode(bits[i..], ch, codes);
      ch := ch + [bits[i]];
      if ch in codes.right {
        var tmp := codes.right[ch];
        if tmp == EOF_SYMBOL {
          assert decompData + [] == decompData;
          return;
        }
        assert decompData + ([tmp] + rest[1..]) == (decompData + [tmp]) + rest[1..];
        decompData := decompData + [tmp];
        ch := [];
      }
    }
  }

  /** Reading the remaining bits of a code word recognises its symbol and nothing before. */
  lemma {:induction false} DecodeWord(c: Symbol, k: nat, rest: DataBits, m: HuffCodeMap)
    requires PrefixCode(m) && c in m.left && k < |m.left[c]|
    ensures Decode(m.left[c][k..] + rest, m.left[c][..k], m)
         == if c == EOF_SYMBOL then [] else [c] + Decode(rest, [], m)
    decreases |m.left[c]| - k
  {
    var word := m.left[c];
    var bits := word[k..] + rest;
    assert bits[0] == word[k] && bits[1..] == word[k + 1..] + rest;
    assert word[..k] + [word[k]] == word[..k + 1];
    if k + 1 == |word| {
      assert word[..k + 1] == word && word[k + 1..] + rest == rest;
    } else {
      if word[..k + 1] in m.right {
        ProperPrefixIsNoWord(c, k + 1, m);
      }
      DecodeWord(c, k + 1, rest, m);
    }
  }

  lemma ProperPrefixIsNoWord(c: Symbol, k: nat, m: HuffCodeMap)
    requires PrefixCode(m) && c in m.left && k < |m.left[c]|
    ensures m.left[c][..k] !in m.right
  {
  }

  /** The data up to the first EoF. */
  ghost function UpToEoF(data: seq<Symbol>): (r: seq<Symbol>) {
    if data == [] || data[0] == EOF_SYMBOL then [] else [data[0]] + UpToEoF(data[1..])
  }

  lemma {:induction false} UpToEoFIsAll(data: seq<Symbol>)
    ensures UpToEoF(data) == data <==> EOF_SYMBOL !in data
  {
    if data != [] {
      UpToEoFIsAll(data[1..]);
      assert data == [data[0]] + data[1..];
    }
  }

  /** Decompression undoes compression up to the first EoF in the data, whatever bits follow. */
  lemma {:induction false} DecodeEncode(data: seq<Symbol>, extra: DataBits, m: HuffCodeMap)
    requires PrefixCode(m) && NoEmptyWord(m) && Coded(data, m) && EOF_SYMBOL in m.left
    ensures Decode(Encode(data, m) + m.left[EOF_SYMBOL] + extra, [], m) == UpToEoF(data)
  {
    var end := m.left[EOF_SYMBOL];
    if data == [] {
      assert Encode(data, m) + end + extra == end[0..] + extra && end[..0] == [];
      DecodeWord(EOF_SYMBOL, 0, extra, m);
    } else {
      var c, tail := data[0], data[1..];
      var word := m.left[c];
      assert data == [c] + tail;
      EncodeCons(c, tail, m);
      var rest := Encode(tail, m) + end + extra;
      assert Encode(data, m) + end + extra == word[0..] + rest && word[..0] == [];
      DecodeWord(c, 0, rest, m);
      DecodeEncode(tail, extra, m);
    }
  }

  /** Decompress(Compress(d) followed by any bits) gives d back exactly when d has no EoF. */
  lemma RoundTrip(data: seq<Symbol>, extra: DataBits, m: HuffCodeMap)
    requires PrefixCode(m) && NoEmptyWord(m) && Compressed(data, m).Some?
    ensures Decode(Compressed(data, m).value + extra, [], m) == data <==> EOF_SYMBOL !in data
  {
    DecodeEncode(data, extra, m);
    UpToEoFIsAll(data);
  }

  /** An EoF and a letter: nothing is read. */
  lemma CutAtEoF(m: HuffCodeMap)
    requires PrefixCode(m) && NoEmptyWord(m) && 3 in m.left && 0x41 in m.left
    ensures Compressed([3, 0x41], m).Some? && Decode(Compressed([3, 0x41], m).value, [], m) == []
  {
    var data := [3, 0x41];
    DecodeEncode(data, [], m);
    Sequences.NothingAround(Compressed(data, m).value);
  }

  /** Text restricted to the supported characters never contains an EoF, so it always survives. */
  lemma TransformedRoundTrip(text: seq<Symbol>, extra: DataBits, m: HuffCodeMap)
    requires PrefixCode(m) && NoEmptyWord(m)
    requires EOF_SYMBOL in m.left && forall c: Symbol :: !IsCharInvalid(c) ==> c in m.left
    ensures Compressed(TransformCharDomain(text), m).Some?
    ensures Decode(Compressed(TransformCharDomain(text), m).value + extra, [], m) == TransformCharDomain(text)
  {
    RoundTrip(TransformCharDomain(text), extra, m);
  }

  // ------------------------------------------------- no shorter prefix-free code

  ghost function Counts(text: seq<Symbol>, ss: seq<Symbol>): (r: seq<int>)
    ensures |r| == |ss| && forall i :: 0 <= i < |ss| ==> r[i] == multiset(text)[ss[i]]
  {
    seq(|ss|, i requires 0 <= i < |ss| => multiset(text)[ss[i]])
  }

  ghost function Words(m: HuffCodeMap, ss: seq<Symbol>): (r: seq<DataBits>)
    requires Coded(ss, m)
    ensures |r| == |ss| && forall i :: 0 <= i < |ss| ==> r[i] == m.left[ss[i]]
  {
    seq(|ss|, i requires 0 <= i < |ss| => m.left[ss[i]])
  }

  lemma {:induction false} OneMoreUse(ws: seq<int>, cs: seq<DataBits>, i: nat)
    requires |ws| == |cs| && i < |ws|
    ensures CodeCost(ws[i := ws[i] + 1], cs) == CodeCost(ws, cs) + |cs[i]|
  {
    if i == 0 {
      assert ws[0 := ws[0] + 1][1..] == ws[1..];
      TimesOneMore(ws[0], |cs[0]|);
    } else {
      OneMoreUse(ws[1..], cs[1..], i - 1);
      assert ws[i := ws[i] + 1][1..] == ws[1..][i - 1 := ws[i] + 1];
    }
  }

  lemma {:induction false} TimesOneMore(w: int, d: nat)
    ensures Times(w + 1, d) == Times(w, d) + d
  {
    if d > 0 {
      TimesOneMore(w, d - 1);
    }
  }

  lemma {:induction false} NothingUsed(ws: seq<int>, cs: seq<DataBits>)
    requires |ws| == |cs| && forall i :: 0 <= i < |ws| ==> ws[i] == 0
    ensures CodeCost(ws, cs) == 0
  {
    if ws != [] {
      NothingUsed(ws[1..], cs[1..]);
      TimesIsProduct(0, |cs[0]|);
    }
  }

  lemma CountsSnoc(init: seq<Symbol>, c: Symbol, ss: seq<Symbol>, i: nat)
    requires Sequences.Distinct(ss) && i < |ss| && ss[i] == c
    ensures Counts(init + [c], ss) == Counts(init, ss)[i := Counts(init, ss)[i] + 1]
  {
    var after := Counts(init + [c], ss);
    forall j | 0 <= j < |ss|
      ensures after[j] == multiset(init)[ss[j]] + if j == i then 1 else 0
    {
      assert j == i || ss[j] != c;
    }
  }

  /** The encoded length is the cost of the code under the symbol counts. */
  lemma {:induction false} EncodedLength(text: seq<Symbol>, m: HuffCodeMap, ss: seq<Symbol>)
    requires Sequences.Distinct(ss) && Coded(ss, m) && forall c: Symbol :: c in text ==> c in ss
    ensures Coded(text, m)
    ensures |Encode(text, m)| == CodeCost(Counts(text, ss), Words(m, ss))
  {
    if text == [] {
      NothingUsed(Counts(text, ss), Words(m, ss));
    } else {
      var init, c := text[..|text| - 1], text[|text| - 1];
      EncodedLength(init, m, ss);
      assert c in text && c in ss;
      var i :| 0 <= i < |ss| && ss[i] == c;
      assert text == init + [c];
      CountsSnoc(init, c, ss, i);
      OneMoreUse(Counts(init, ss), Words(m, ss), i);
    }
  }

  /** A text's own Huffman code encodes it in no more bits than any prefix-free code does. */
  lemma ShortestEncoding(text: seq<Symbol>, codes: HuffCodeMap, other: HuffCodeMap)
    requires HuffmanCode(codes, Frequencies(text)) && PrefixCode(other) && Coded(text, other)
    ensures Coded(text, codes) && |Encode(text, codes)| <= |Encode(text, other)|
  {
    var root :| ReadOff(codes, root, Frequencies(text));
    var ss := Symbols(root);
    SymbolsOfText(text, root, codes);
    assert Coded(ss, other) by {
      forall i | 0 <= i < |ss|
        ensures ss[i] in other.left
      {
        assert ss[i] in text;
      }
    }
    EncodedLength(text, codes, ss);
    EncodedLength(text, other, ss);
    OwnCost(root);
    WordsPrefixFree(other, ss);
    OtherCost(root, Weights(root), Words(other, ss));
  }

  /** The leaves of the text's own tree carry its symbols with their counts. */
  lemma SymbolsOfText(text: seq<Symbol>, root: Node, codes: HuffCodeMap)
    requires ReadOff(codes, root, Frequencies(text))
    ensures Sequences.Distinct(Symbols(root)) && (forall c: Symbol :: c in text <==> c in Symbols(root))
    ensures Weights(root) == Counts(text, Symbols(root)) && AllNonNegative(Weights(root))
    ensures Coded(Symbols(root), codes) && Words(codes, Symbols(root)) == Paths(root, [])
  {
    var frequencies, ss := Frequencies(text), Symbols(root);
    CodeOfTree(root, frequencies);
    SymbolsOnce(root, frequencies);
    WeightsAreCounts(text, root);
    forall c: Symbol
      ensures c in text <==> c in ss
    {
      assert c in ss <==> c in SetOf(ss);
      assert c in text <==> c in frequencies.Keys;
    }
  }

  lemma WeightsAreCounts(text: seq<Symbol>, root: Node)
    requires OnSymbols(root, Frequencies(text))
    ensures Weights(root) == Counts(text, Symbols(root)) && AllNonNegative(Weights(root))
  {
    SymbolsOnce(root, Frequencies(text));
    WeightsOfLeaves(root);
    var ws, cs := Weights(root), Counts(text, Symbols(root));
    assert |ws| == |cs|;
    forall i | 0 <= i < |ws|
      ensures ws[i] == cs[i] >= 0
    {
      assert ws[i] == Leaves(root)[i].1 == Frequencies(text)[Symbols(root)[i]];
    }
  }

  lemma OwnCost(root: Node)
    ensures |Weights(root)| == |Paths(root, [])|
    ensures CodeCost(Weights(root), Paths(root, [])) == TreeCost(root)
  {
    PathLengths(root, []);
    TreeCostIsPathLength(root);
    CodeCostIsDot(Weights(root), Paths(root, []), Depths(ShapeOf(root), 0));
  }

  lemma OtherCost(root: Node, ws: seq<int>, cs: seq<DataBits>)
    requires Optimal(root) && ws == Weights(root) && |cs| == |ws| >= 1 && PrefixFree(cs) && AllNonNegative(ws)
    ensures TreeCost(root) <= CodeCost(ws, cs)
  {
    var t, vs := TreeOfCode(ws, cs);
    assert Over(t, vs, multiset(Weights(root)));
  }

  lemma WordsPrefixFree(m: HuffCodeMap, ss: seq<Symbol>)
    requires PrefixCode(m) && Sequences.Distinct(ss) && Coded(ss, m)
    ensures PrefixFree(Words(m, ss))
  {
    var cs := Words(m, ss);
    forall i, j | 0 <= i < j < |cs|
      ensures Incomparable(cs[i], cs[j])
    {
      assert ss[i] != ss[j];
    }
    PrefixFreeFromPairs(cs);
  }
}
