/** The five carriers of a transaction: sequence numbers, public keys, OP_RETURN data,
    output values and the order of claims (src/lib/bms/BlockchainInterface.cpp:96-325). */
module Carriers {
  import opened Bits
  import opened Options
  import opened Script
  import opened Transactions
  import opened DataInterface
  import Compositions
  import Permutations
  import Sequences

  // --------------------------------------------------- what a carrier takes away

  /** `slice` carries the beginning of `before` and `after` is still to be sent: together they are
      `before`, followed by zeros only when nothing is left. */
  ghost predicate Carries(before: DataBits, slice: DataBits, after: DataBits) {
    |before| <= |slice| + |after| &&
    slice + after == before + Zeros(|slice| + |after| - |before|) &&
    (|before| < |slice| + |after| ==> after == [])
  }

  lemma CarriesNothing(bits: DataBits)
    ensures Carries(bits, [], bits)
  {
    Sequences.NothingAround(bits);
    assert Zeros(0) == [];
  }

  lemma ZerosConcat(m: nat, n: nat)
    ensures Zeros(m) + Zeros(n) == Zeros(m + n)
  {
  }

  /** What carries on carries on. */
  lemma CarriesOn(a: DataBits, s: DataBits, b: DataBits, t: DataBits, c: DataBits)
    requires Carries(a, s, b) && Carries(b, t, c)
    ensures Carries(a, s + t, c)
  {
    var m, n := |s| + |b| - |a|, |t| + |c| - |b|;
    Sequences.Assoc(s, t, c);
    Sequences.Assoc(s, b, Zeros(n));
    Sequences.Assoc(a, Zeros(m), Zeros(n));
    ZerosConcat(m, n);
    if m > 0 && n == 0 {
      assert |c| == 0;
    }
  }

  /** What is left of `nBits` bits when up to `taken` are sent. */
  function Rest(nBits: nat, taken: nat): (r: nat) {
    if nBits <= taken then 0 else nBits - taken
  }

  /** The `n` bits from position `at` on, with zeros behind the end. */
  function Window(bits: DataBits, at: nat, n: nat): (r: DataBits)
    ensures |r| == n
  {
    seq(n, k requires 0 <= k < n => at + k < |bits| && bits[at + k])
  }

  /** What is still to be sent is an end of what was to be sent, so it is seen through the same windows. */
  lemma WindowMoves(before: DataBits, slice: DataBits, after: DataBits, at: nat, n: nat)
    requires Carries(before, slice, after)
    ensures |after| <= |before| && Window(after, at, n) == Window(before, |before| - |after| + at, n)
  {
    if |before| == |slice| + |after| {
      assert slice + after == before + Zeros(0) == before;
      forall k | 0 <= k < n
        ensures Window(after, at, n)[k] == Window(before, |before| - |after| + at, n)[k]
      {
        if at + k < |after| {
          assert (slice + after)[|slice| + (at + k)] == after[at + k];
        }
      }
    }
  }

  lemma LeftIsEnd(before: DataBits, slice: DataBits, after: DataBits)
    requires Carries(before, slice, after)
    ensures |after| <= |before| && after == before[|before| - |after|..]
  {
    if |before| == |slice| + |after| {
      assert slice + after == before + Zeros(0) == before;
      assert after == (slice + after)[|slice|..];
    }
  }

  /** In the end nothing has been lost. */
  lemma CarriedAll(data: DataBits, sent: DataBits)
    requires Carries(data, sent, [])
    ensures |data| <= |sent| && sent == data + Zeros(|sent| - |data|)
  {
    Sequences.NothingAround(sent);
  }

  /** PadBits and SliceBits as the fixed-size carriers use them: `n` bits, zeros added when fewer are left. */
  method CutOut(bits: BitQueue, n: nat) returns (slice: DataBits)
    modifies bits
    ensures slice == Window(old(bits.bits), 0, n) && Carries(old(bits.bits), slice, bits.bits)
    ensures |bits.bits| == Rest(|old(bits.bits)|, n)
  {
    var nBits := if |bits.bits| < n then |bits.bits| else n;
    bits.Pad(n - nBits);
    ghost var padded := bits.bits;
    slice := bits.Slice(n);
    assert slice == padded[..n] == Window(old(bits.bits), 0, n);
  }

  // ------------------------------------------------------------ sequence numbers

  method PackDataIntoSeqNr(bits: BitQueue, txIn: TxIn) returns (packed: TxIn)
    modifies bits
    ensures packed == txIn.(nSequence := packed.nSequence) && packed.nSequence < UINT32
    ensures Carries(old(bits.bits), ToBits(packed.nSequence, 32), bits.bits)
    ensures |bits.bits| == Rest(|old(bits.bits)|, 32)
  {
    var slice := CutOut(bits, 32);
    var seqnr := EncodeDataInSequenceNr(slice);
    packed := txIn.(nSequence := seqnr);
    ToFromBits(slice);
  }

  method UnpackDataFromSeqNr(txIn: TxIn) returns (bits: DataBits)
    requires txIn.nSequence < UINT32
    ensures bits == ToBits(txIn.nSequence, 32)
  {
    bits := DecodeDataInSequenceNr(txIn.nSequence);
  }

  // --------------------------------------------------------------- OP_RETURN data

  function DataInNulldata(txOut: TxOut): (r: Option<DataBits>) {
    if |txOut.scriptPubKey| < 2 then None else Some(BytesToBits(txOut.scriptPubKey[2..]))
  }

  method PackDataIntoNulldata(bits: BitQueue, txOut: TxOut) returns (packed: TxOut)
    modifies bits
    ensures packed.nValue == 0 && |packed.scriptPubKey| == 42 && packed.scriptPubKey[0] == OP_RETURN
    ensures var data := DataInNulldata(packed);
            data.Some? && |data.value| == 320 && Carries(old(bits.bits), data.value, bits.bits)
    ensures |bits.bits| == Rest(|old(bits.bits)|, 320)
  {
    var slice := CutOut(bits, 320);
    var data := BitsToData(slice);
    packed := TxOut(0, NullData(data));
    hide Carries, BytesToBits, Zeros;
    NulldataPayload(data);
  }

  lemma NulldataPayload(data: Bytes)
    requires |data| == 40
    ensures |NullData(data)| == 42 && NullData(data)[0] == OP_RETURN && NullData(data)[2..] == data
  {
  }

  method UnpackDataFromNulldata(txOut: TxOut) returns (bits: DataBits)
    requires DataInNulldata(txOut).Some?
    ensures DataInNulldata(txOut) == Some(bits)
  {
    var data := txOut.scriptPubKey;
    data := data[2..];
    bits := DataToBits(data);
  }

  // --------------------------------------------------------------- output values

  /** The smallest value an output gets when there are several. */
  const DUST := 546

  ghost predicate AllAbove(txOuts: seq<TxOut>, lbound: nat) {
    forall i :: 0 <= i < |txOuts| ==> txOuts[i].nValue >= lbound
  }

  ghost function ValuesAbove(txOuts: seq<TxOut>, lbound: nat): (r: seq<nat>)
    requires AllAbove(txOuts, lbound)
    ensures |r| == |txOuts| && forall i :: 0 <= i < |txOuts| ==> r[i] == txOuts[i].nValue - lbound
  {
    seq(|txOuts|, i requires 0 <= i < |txOuts| => txOuts[i].nValue - lbound)
  }

  /** None where a value is below the bound, a 64-bit sum wraps or the index is too large. */
  ghost function DataInBudgetSplit(txOuts: seq<TxOut>, lbound: nat): (r: Option<DataBits>) {
    if AllAbove(txOuts, lbound) then DataInValues(ValuesAbove(txOuts, lbound)) else None
  }

  function SumOfValues(txOuts: seq<TxOut>): (r: int) {
    if txOuts == [] then 0 else txOuts[0].nValue + SumOfValues(txOuts[1..])
  }

  lemma {:induction false} SumAbove(txOuts: seq<TxOut>, values: seq<nat>, lbound: nat)
    requires |txOuts| == |values| && forall i :: 0 <= i < |txOuts| ==> txOuts[i].nValue == values[i] + lbound
    ensures SumOfValues(txOuts) == Compositions.Sum(values) + |txOuts| * lbound
  {
    if txOuts != [] {
      SumAbove(txOuts[1..], values[1..], lbound);
      assert |txOuts| * lbound == lbound + (|txOuts| - 1) * lbound;
    }
  }

  method PackDataIntoBudgetSplit(bits: BitQueue, txOuts: seq<TxOut>, budget: nat, lbound: nat,
                                 estimate: (int, nat) -> nat) returns (packed: seq<TxOut>)
    requires 2 <= |txOuts| < 0x10000 && budget < INT64 && budget > |txOuts| * lbound
    modifies bits
    ensures |packed| == |txOuts| && AllAbove(packed, lbound) && SumOfValues(packed) == budget
    ensures forall i :: 0 <= i < |txOuts| ==> packed[i].scriptPubKey == txOuts[i].scriptPubKey
    ensures var data := DataInBudgetSplit(packed, lbound);
            data.Some? && Carries(old(bits.bits), data.value, bits.bits)
    ensures |bits.bits| == Rest(|old(bits.bits)|, ValueBits(budget - |txOuts| * lbound, |txOuts|))
  {
    var nOutputs := |txOuts|;
    var spread := budget - nOutputs * lbound;
    Bits.MulAtMost(nOutputs, 0, lbound);
    var maxBits := EmbeddableBitsInValues(spread, nOutputs);
    ValueBitsPositive(spread, nOutputs);
    var nBits := if |bits.bits| < maxBits then |bits.bits| else maxBits;
    var slice := bits.Slice(nBits);
    slice := slice + Zeros(maxBits - nBits);
    PaddedSlice(old(bits.bits), slice, bits.bits, nBits, maxBits);
    var values := EncodeDataInValues(slice, spread, nOutputs, estimate);
    packed := txOuts;
    for i := 0 to nOutputs
      invariant |packed| == nOutputs
      invariant forall j :: 0 <= j < nOutputs ==>
                  packed[j].scriptPubKey == txOuts[j].scriptPubKey && (j < i ==> packed[j].nValue == values[j] + lbound)
    {
      packed := packed[i := packed[i].(nValue := values[i] + lbound)];
    }
    assert ValuesAbove(packed, lbound) == values;
    SumAbove(packed, values, lbound);
  }

  lemma PaddedSlice(before: DataBits, slice: DataBits, after: DataBits, nBits: nat, maxBits: nat)
    requires nBits <= |before| && nBits <= maxBits && (nBits < maxBits ==> nBits == |before|)
    requires slice == before[..nBits] + Zeros(maxBits - nBits) && after == before[nBits..]
    ensures Carries(before, slice, after)
  {
    if nBits < maxBits {
      assert before[..nBits] == before && after == [];
      Sequences.NothingAround(slice);
    } else {
      assert Zeros(0) == [];
      assert slice + after == before + [];
    }
  }

  method UnpackDataFromBudgetSplit(txOuts: seq<TxOut>, lbound: nat) returns (bits: DataBits)
    requires DataInBudgetSplit(txOuts, lbound).Some?
    ensures DataInBudgetSplit(txOuts, lbound) == Some(bits)
  {
    var outputs := |txOuts|;
    var values: seq<nat> := seq(outputs, i => 0);
    for i := 0 to outputs
      invariant |values| == outputs
      invariant forall j :: 0 <= j < i ==> values[j] == txOuts[j].nValue - lbound
    {
      values := values[i := txOuts[i].nValue - lbound];
    }
    assert values == ValuesAbove(txOuts, lbound);
    bits := DecodeDataInValues(values);
  }

  // ----------------------------------------------------------- the order of claims

  /** The claimed positions, cut to 16 bits. */
  ghost function Claimed(txIns: seq<TxIn>): (r: seq<nat>)
    ensures |r| == |txIns| && forall i :: 0 <= i < |txIns| ==> r[i] == txIns[i].prevout.n % 0x10000
  {
    seq(|txIns|, i requires 0 <= i < |txIns| => txIns[i].prevout.n % 0x10000)
  }

  ghost function DataInBudgetClaim(txIns: seq<TxIn>): (r: Option<DataBits>) {
    DataInPermutation(Claimed(txIns))
  }

  /** Every position below the number of inputs is claimed exactly once. */
  ghost predicate ClaimsEach(txIns: seq<TxIn>) {
    Permutations.IsPermutation(seq(|txIns|, i requires 0 <= i < |txIns| => txIns[i].prevout.n), |txIns|)
  }

  method PackDataIntoBudgetClaim(bits: BitQueue, txIns: seq<TxIn>) returns (packed: seq<TxIn>)
    requires 2 <= |txIns| < 0x10000
    modifies bits
    ensures |packed| == |txIns| && ClaimsEach(packed)
    ensures forall i :: 0 <= i < |txIns| ==>
              packed[i] == txIns[i].(prevout := txIns[i].prevout.(n := packed[i].prevout.n)) &&
              packed[i].prevout.n < |txIns|
    ensures var data := DataInBudgetClaim(packed);
            data.Some? && Carries(old(bits.bits), data.value, bits.bits)
    ensures |bits.bits| == Rest(|old(bits.bits)|, PermutationBits(|txIns|))
  {
    var nInputs := |txIns|;
    var maxBits := EmbeddableBitsInPermutation(nInputs);
    var nBits := if |bits.bits| < maxBits then |bits.bits| else maxBits;
    var slice := bits.Slice(nBits);
    slice := slice + Zeros(maxBits - nBits);
    PaddedSlice(old(bits.bits), slice, bits.bits, nBits, maxBits);
    var perm := EncodeDataInPermutation(slice, nInputs);
    packed := txIns;
    for i := 0 to nInputs
      invariant |packed| == nInputs
      invariant forall j :: 0 <= j < nInputs ==>
                  packed[j] == if j < i then WithClaim(txIns[j], perm[j]) else txIns[j]
    {
      packed := packed[i := WithClaim(packed[i], perm[i])];
    }
    hide Carries, DataInPermutation;
    ClaimsAre(packed, perm);
  }

  lemma ClaimsAre(packed: seq<TxIn>, perm: seq<nat>)
    requires Permutations.IsPermutation(perm, |packed|) && |packed| < 0x10000
    requires forall i :: 0 <= i < |packed| ==> packed[i].prevout.n == perm[i]
    ensures ClaimsEach(packed) && DataInBudgetClaim(packed) == DataInPermutation(perm)
    ensures forall i :: 0 <= i < |packed| ==> packed[i].prevout.n < |packed|
  {
    ElementsInRange(perm, |packed|);
    assert seq(|packed|, i requires 0 <= i < |packed| => packed[i].prevout.n) == perm;
    assert Claimed(packed) == perm;
  }

  function WithClaim(txIn: TxIn, n: nat): (r: TxIn) {
    txIn.(prevout := txIn.prevout.(n := n))
  }

  lemma ElementsInRange(perm: seq<nat>, k: nat)
    requires Permutations.IsPermutation(perm, k)
    ensures forall i :: 0 <= i < k ==> perm[i] < k
  {
    forall i | 0 <= i < k
      ensures perm[i] < k
    {
      assert perm[i] in Permutations.Elements(perm);
      assert perm[i] in Permutations.Iota(k);
    }
  }

  method UnpackDataFromBudgetClaim(txIns: seq<TxIn>) returns (bits: DataBits)
    requires DataInBudgetClaim(txIns).Some?
    ensures DataInBudgetClaim(txIns) == Some(bits)
  {
    var nInputs := |txIns|;
    var perm: seq<nat> := seq(nInputs, i => 0);
    for i := 0 to nInputs
      invariant |perm| == nInputs
      invariant forall j :: 0 <= j < i ==> perm[j] == txIns[j].prevout.n % 0x10000
    {
      perm := perm[i := txIns[i].prevout.n % 0x10000];
    }
    assert perm == Claimed(txIns);
    bits := DecodeDataInPermutation(perm);
  }
}
