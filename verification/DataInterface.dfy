/** Data in sequence numbers, public keys, output values and claim orders
    (src/lib/bms/DataInterface.cpp). */
module DataInterface {
  import opened Bits
  import opened Binomials
  import opened Options
  import opened Script
  import Compositions
  import Permutations
  import Sequences

  // ------------------------------------------------------------ sequence numbers

  lemma AppendedByte(init: seq<Byte>, b: Byte)
    ensures FromBits(BytesToBits(init + [b])) == 256 * FromBits(BytesToBits(init)) + b
  {
    BytesToBitsSnoc(init, b);
    FromBitsConcat(BytesToBits(init), ToBits(b, 8));
    ByteFromBits(b);
    assert Pow2(8) == 256;
  }

  /** Four bytes read as a big-endian number. */
  lemma FourBytes(a: Byte, b: Byte, c: Byte, d: Byte)
    ensures FromBits(BytesToBits([a, b, c, d])) == a * 0x100_0000 + b * 0x1_0000 + c * 0x100 + d
  {
    AppendedByte([], a);
    AppendedByte([a], b);
    AppendedByte([a, b], c);
    AppendedByte([a, b, c], d);
    assert [] + [a] == [a] && [a] + [b] == [a, b] && [a, b] + [c] == [a, b, c] && [a, b, c] + [d] == [a, b, c, d];
  }

  /** EncodeDataInSequenceNr; the bit ranges that are or-ed together do not overlap. */
  method EncodeDataInSequenceNr(bits: DataBits) returns (seqnr: nat)
    requires |bits| == 32
    ensures seqnr == FromBits(bits) < 0x1_0000_0000
  {
    var data := BitsToData(bits);
    seqnr := 0;
    seqnr := seqnr + 0x100_0000 * (data[0] as int);
    seqnr := seqnr + 0x1_0000 * (data[1] as int);
    seqnr := seqnr + 0x100 * (data[2] as int);
    seqnr := seqnr + data[3];
    FourBytes(data[0], data[1], data[2], data[3]);
    assert data == [data[0], data[1], data[2], data[3]];
  }

  /** (v >> n) & 0xFF, the shift given as the power of two. */
  function ByteAt(v: nat, power: nat): (r: Byte)
    requires power > 0
  {
    v / power % 256
  }

  lemma BytesOfNumber(v: nat)
    requires v < 0x1_0000_0000
    ensures ByteAt(v, 0x100_0000) * 0x100_0000 + ByteAt(v, 0x1_0000) * 0x1_0000 + ByteAt(v, 0x100) * 0x100 +
            ByteAt(v, 1) == v
  {
    var q1, q2, q3 := v / 0x100, v / 0x1_0000, v / 0x100_0000;
    assert v == 0x100 * q1 + v % 256;
    assert q1 == 0x100 * q2 + q1 % 256;
    assert q2 == 0x100 * q3 + q2 % 256;
    assert q3 % 256 == q3;
  }

  /** DecodeDataInSequenceNr. */
  method DecodeDataInSequenceNr(seqnr: nat) returns (bits: DataBits)
    requires seqnr < 0x1_0000_0000
    ensures bits == ToBits(seqnr, 32)
  {
    hide ByteAt, BytesToBits, ToBits, FromBits;
    var tmp: seq<Byte> := [];
    tmp := tmp + [ByteAt(seqnr, 0x100_0000)];
    tmp := tmp + [ByteAt(seqnr, 0x1_0000)];
    tmp := tmp + [ByteAt(seqnr, 0x100)];
    tmp := tmp + [ByteAt(seqnr, 1)];
    bits := DataToBits(tmp);
    BytesOfNumber(seqnr);
    assert tmp == [ByteAt(seqnr, 0x100_0000), ByteAt(seqnr, 0x1_0000), ByteAt(seqnr, 0x100), ByteAt(seqnr, 1)];
    FourBytes(tmp[0], tmp[1], tmp[2], tmp[3]);
    ToFromBits(bits);
  }

  /** The sequence number carries its 32 bits unchanged, in both directions. */
  lemma SequenceNrRoundTrip(bits: DataBits, seqnr: nat)
    requires |bits| == 32 && seqnr < 0x1_0000_0000
    ensures ToBits(FromBits(bits), 32) == bits && FromBits(ToBits(seqnr, 32)) == seqnr
  {
    ToFromBits(bits);
    assert Pow2(32) == 0x1_0000_0000 by {
      assert Pow2(8) == 0x100 && Pow2(16) == 0x1_0000 && Pow2(24) == 0x100_0000;
    }
    FromToBits(seqnr, 32);
  }

  // ----------------------------------------------------------------- public keys

  /** The number 2 in eight bits, the header of a compressed key with an even y coordinate. */
  const Header: DataBits := [false, false, false, false, false, false, true, false]

  /** The bits of a compressed key that carries data: the header, a zero, the data and a random rest. */
  function PubkeyBits(data: DataBits, random: DataBits): (r: DataBits)
    requires |data| + |random| == 255
    ensures |r| == 264
  {
    Header + ([false] + data) + random
  }

  /** The key that one draw of random bits leads to. */
  function DrawnKey(data: DataBits, nRandBits: nat, draw: nat): (r: Bytes)
    requires |data| + nRandBits == 255
  {
    ToBytes(PubkeyBits(data, ToBits(draw, nRandBits)))
  }

  /** Some draw gives a point on the curve, so that the retry loop can end. */
  predicate SomeDrawIsValid(onCurve: Bytes -> bool, data: DataBits, nRandBits: nat) {
    |data| + nRandBits == 255 &&
    exists draw: nat :: draw < Pow2(nRandBits) && onCurve(DrawnKey(data, nRandBits, draw))
  }

  /** DecodeDataInPubkey; None where bits outside the key would be erased. */
  function DataInPubkey(pubkey: Bytes, nRandBits: nat): (r: Option<DataBits>) {
    var buf := BytesToBits(pubkey);
    if |buf| < 9 + nRandBits then None else Some(buf[9..|buf| - nRandBits])
  }

  /** EncodeDataInPubkey: random suffixes are drawn until the key is fully valid. None where no draw is
      valid, so that the source draws forever. */
  method EncodeDataInPubkey(data: DataBits, nRandBits: nat, onCurve: Bytes -> bool) returns (result: Option<Bytes>)
    requires 1 <= |data| && 5 <= nRandBits && 255 - |data| == nRandBits
    ensures result.Some? <==> SomeDrawIsValid(onCurve, data, nRandBits)
    ensures result.Some? ==>
      var pk := result.value;
      |pk| == 33 && pk[0] == 2 && onCurve(pk) && DataInPubkey(pk, nRandBits) == Some(data)
  {
    if !SomeDrawIsValid(onCurve, data, nRandBits) {
      return None;
    }
    var draw: nat :| draw < Pow2(nRandBits) && onCurve(DrawnKey(data, nRandBits, draw));
    var random := ToBits(draw, nRandBits);
    var prefix := Zeros(6) + [true] + [false];
    var body := [false] + data;
    body := body + Zeros(256 - |body| - nRandBits);
    Sequences.NothingAround([false] + data);
    HeaderParts();
    hide Zeros, ToBits, BytesToBits;
    var pk := BitsToData(prefix + body + random);
    BytesToBitsInjective(pk, DrawnKey(data, nRandBits, draw));
    Sequences.Assoc(Header, body, random);
    HeaderByte(pk, body + random);
    PubkeyPayload(data, random);
    result := Some(pk);
  }

  lemma HeaderParts()
    ensures Zeros(0) == []
    ensures Zeros(6) + [true] + [false] == Header
    ensures FromBits(Header) == 2
  {
    assert Header == Zeros(6) + [true, false];
    LeadingZeros(6, [true, false]);
    assert [true, false][..1] == [true] && [true][..0] == [];
  }

  lemma HeaderByte(pk: Bytes, rest: DataBits)
    requires BytesToBits(pk) == Header + rest && |pk| >= 1
    ensures pk[0] == 2
  {
    assert pk == [pk[0]] + pk[1..];
    BytesToBitsConcat([pk[0]], pk[1..]);
    assert [pk[0]][..0] == [];
    assert BytesToBits([pk[0]]) == ToBits(pk[0], 8);
    AlikePrefix(ToBits(pk[0], 8), BytesToBits(pk[1..]), Header, rest);
    ByteFromBits(pk[0]);
    HeaderParts();
  }

  lemma AlikePrefix(u: DataBits, x: DataBits, v: DataBits, y: DataBits)
    requires |u| == |v| && u + x == v + y
    ensures u == v
  {
    assert u == (u + x)[..|u|] && v == (v + y)[..|v|];
  }

  lemma PubkeyPayload(data: DataBits, random: DataBits)
    requires |data| + |random| == 255
    ensures PubkeyBits(data, random)[9..264 - |random|] == data
  {
  }

  /** DecodeDataInPubkey. */
  method DecodeDataInPubkey(pubkey: Bytes, nRandBits: nat) returns (buf: DataBits)
    requires DataInPubkey(pubkey, nRandBits).Some?
    ensures DataInPubkey(pubkey, nRandBits) == Some(buf)
  {
    buf := DataToBits(pubkey);
    buf := buf[9..];
    buf := buf[..|buf| - nRandBits];
    assert buf == BytesToBits(pubkey)[9..|BytesToBits(pubkey)| - nRandBits];
  }

  // --------------------------------------------------------------- output values

  /** Arguments for which no 64-bit sum wraps. */
  predicate Splittable(n: nat, k: nat) {
    1 <= k < 0x10000 && n + k - 1 < WORD
  }

  /** The capacity of the split of `n` into `k` parts. */
  function ValueBits(n: nat, k: nat): (r: nat)
    requires k >= 1
  {
    NumCompsPositive(n, k);
    FloorLog2(NumComps(n, k))
  }

  method EmbeddableBitsInValues(n: nat, k: nat) returns (r: nat)
    requires Splittable(n, k)
    ensures r == ValueBits(n, k)
  {
    var count := NumberCompositions(n, k);
    NumCompsPositive(n, k);
    r := FloorLog2(count);
  }

  /** A split into two or more parts has room for a bit exactly when there is something to split. */
  lemma ValueBitsPositive(n: nat, k: nat)
    requires k >= 2
    ensures ValueBits(n, k) >= 1 <==> n >= 1
  {
    NumCompsPositive(n, k);
    NumCompsNothing(k);
    if n >= 1 {
      NumCompsMonotone(0, n, k);
    }
  }

  lemma BitsAreRanks(data: DataBits, count: nat)
    requires count >= 1 && |data| == FloorLog2(count)
    ensures FromBits(data) < count
  {
    FromBitsBound(data);
  }

  lemma ValuesAreRanked(data: DataBits, budget: nat, nParts: nat)
    requires nParts >= 1 && |data| == ValueBits(budget, nParts)
    ensures Compositions.IsRank(FromBits(data), budget, nParts)
  {
    NumCompsPositive(budget, nParts);
    BitsAreRanks(data, NumComps(budget, nParts));
  }

  /** EncodeDataInValues: the data is the index of the composition. */
  method EncodeDataInValues(data: DataBits, budget: nat, nParts: nat, estimate: (int, nat) -> nat)
    returns (composition: seq<nat>)
    requires nParts >= 2 && Splittable(budget, nParts) && |data| == ValueBits(budget, nParts) && data != []
    ensures DataInValues(composition) == Some(data)
    ensures Compositions.IsComposition(composition, budget, nParts)
  {
    var idx := DataBitsToInt(data);
    ValuesAreRanked(data, budget, nParts);
    composition := Compositions.IntegerToComposition(idx, budget, nParts, estimate);
    ValuesRoundTrip(data, budget, nParts);
  }

  /** DecodeDataInValues; None where the index does not fit the capacity. */
  ghost function DataInValues(values: seq<nat>): (r: Option<DataBits>) {
    var budget := Compositions.Sum(values);
    if |values| < 2 || !Splittable(budget, |values|) then None
    else FittingBits(Compositions.Rank(values), ValueBits(budget, |values|))
  }

  /** The number in `maxBits` bits, if it has no more of them. */
  function FittingBits(idx: int, maxBits: nat): (r: Option<DataBits>) {
    if 0 <= idx < Pow2(maxBits) then Some(ToBits(idx, maxBits)) else None
  }

  method DecodeDataInValues(values: seq<nat>) returns (data: DataBits)
    requires DataInValues(values).Some?
    ensures DataInValues(values) == Some(data)
  {
    var budget := Compositions.Accumulate(values);
    var maxBits := EmbeddableBitsInValues(budget, |values|);
    var idx := Compositions.CompositionToInteger(values);
    var bits := IntToDataBits(idx);
    PaddedToWidth(bits, maxBits);
    data := Zeros(maxBits - |bits|) + bits;
  }

  /** Data as the index of a composition is read back from the values. */
  lemma ValuesRoundTrip(data: DataBits, budget: nat, nParts: nat)
    requires nParts >= 2 && Splittable(budget, nParts) && |data| == ValueBits(budget, nParts)
    ensures Compositions.IsRank(FromBits(data), budget, nParts)
    ensures DataInValues(Compositions.Unrank(FromBits(data), budget, nParts)) == Some(data)
  {
    ValuesAreRanked(data, budget, nParts);
    Compositions.RankOfUnrank(FromBits(data), budget, nParts);
    FromBitsBound(data);
    ToFromBits(data);
  }

  // ----------------------------------------------------------------- claim order

  /** The capacity of the order of `k` claims. */
  function PermutationBits(k: nat): (r: nat) {
    FloorLog2(Fact(k))
  }

  method EmbeddableBitsInPermutation(nParts: nat) returns (r: nat)
    ensures r == PermutationBits(nParts)
  {
    var count := Factorial(nParts);
    r := FloorLog2(count);
  }

  lemma PermutationBitsPositive(k: nat)
    requires k >= 2
    ensures PermutationBits(k) >= 1
  {
    Bits.MulAtMost(k, 1, Fact(k - 1));
  }

  /** The capacities are the largest numbers of bits all of whose values are indices. */
  lemma LargestCapacities(n: nat, k: nat)
    requires k >= 1
    ensures Pow2(ValueBits(n, k)) * (Fact(k - 1) * Fact(n)) <= Fact(n + k - 1) <
            Pow2(ValueBits(n, k) + 1) * (Fact(k - 1) * Fact(n))
    ensures Pow2(PermutationBits(k)) <= Fact(k) < Pow2(PermutationBits(k) + 1)
  {
    hide Pow2, Fact, Choose, FloorLog2;
    var c, f, g := NumComps(n, k), Fact(k - 1), Fact(n);
    NumCompsPositive(n, k);
    ChooseClosedForm(n + k - 1, k - 1);
    assert n + k - 1 - (k - 1) == n;
    Multiplied(c, f, g);
    Scaled(Pow2(ValueBits(n, k)), c, Pow2(ValueBits(n, k) + 1), f, g);
  }

  lemma Multiplied(c: nat, f: nat, g: nat)
    ensures c * f * g == c * (f * g)
  {
  }

  lemma Scaled(a: nat, c: nat, b: nat, f: nat, g: nat)
    requires a <= c < b && f >= 1 && g >= 1
    ensures a * (f * g) <= c * (f * g) < b * (f * g)
  {
    Bits.MulAtMost(f, 1, g);
    Bits.MulAtMost(f * g, a, c);
    Bits.MulAtMost(f * g, c + 1, b);
  }

  /** EncodeDataInPermutation: the data is the index of the permutation. */
  method EncodeDataInPermutation(data: DataBits, nParts: nat) returns (perm: seq<nat>)
    requires 2 <= nParts < 0x10000 && |data| == PermutationBits(nParts)
    ensures Permutations.IsPermutation(perm, nParts)
    ensures DataInPermutation(perm) == Some(data)
  {
    PermutationBitsPositive(nParts);
    var idx := DataBitsToInt(data);
    BitsAreRanks(data, Fact(nParts));
    perm := Permutations.IntegerToPermutation(idx, nParts);
    PermutationRoundTrip(data, nParts);
  }

  /** DecodeDataInPermutation; None where the index does not fit the capacity. */
  function DataInPermutation(perm: seq<nat>): (r: Option<DataBits>) {
    if |perm| < 2 || |perm| >= 0x10000 then None
    else FittingBits(Permutations.Rank(perm), PermutationBits(|perm|))
  }

  method DecodeDataInPermutation(perm: seq<nat>) returns (data: DataBits)
    requires DataInPermutation(perm).Some?
    ensures DataInPermutation(perm) == Some(data)
  {
    var maxBits := EmbeddableBitsInPermutation(|perm|);
    var idx := Permutations.PermutationToInteger(perm);
    var bits := IntToDataBits(idx);
    PaddedToWidth(bits, maxBits);
    data := Zeros(maxBits - |bits|) + bits;
  }

  /** Data as the index of a permutation is read back from the order. */
  lemma PermutationRoundTrip(data: DataBits, nParts: nat)
    requires 2 <= nParts < 0x10000 && |data| == PermutationBits(nParts)
    ensures FromBits(data) < Fact(nParts)
    ensures Permutations.IsPermutation(Permutations.Unrank(FromBits(data), Permutations.Iota(nParts)), nParts)
    ensures DataInPermutation(Permutations.Unrank(FromBits(data), Permutations.Iota(nParts))) == Some(data)
  {
    BitsAreRanks(data, Fact(nParts));
    Permutations.Bijection(nParts);
    FromBitsBound(data);
    ToFromBits(data);
  }
}
