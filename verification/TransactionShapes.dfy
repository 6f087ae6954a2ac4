/** The shape of the next transaction (src/lib/bms/BlockchainInterface.cpp:336-416,
    src/lib/bms/Utilities.cpp:328-334). */
module TransactionShapes {
  import opened Bits
  import opened Binomials
  import opened Script
  import opened Transactions
  import opened DataInterface
  import opened ScriptHashes

  datatype Parameters = Parameters(nScriptHash: nat, nNulldata: nat, nFees: nat)

  const MAX_SCRIPT_HASHES := 14
  const NULLDATA_BITS := 320
  const SEQUENCE_BITS := 32

  /** The rate is paid for every thousand bytes begun. */
  function Fee(feeRate: nat, size: nat): (r: nat) {
    feeRate * ((size + 999) / 1000)
  }

  function TransactionFee(feeRate: nat, tx: Tx): (r: nat) {
    Fee(feeRate, SizeOfTx(tx))
  }

  // ------------------------------------------------------ outputs of a given shape

  const ScriptHashDummy: Script := [OP_HASH160] + Push(ZeroBytes(20)) + [OP_EQUAL]
  const NulldataDummy: Script := [OP_RETURN] + Push(ZeroBytes(40))

  /** `n` script hash outputs, then the OP_RETURN output if there is one. */
  predicate Shaped(vout: seq<TxOut>, n: nat, nNulldata: nat) {
    nNulldata <= 1 && |vout| == n + nNulldata &&
    (forall i :: 0 <= i < n ==> |vout[i].scriptPubKey| == 23) &&
    (nNulldata == 1 ==> |vout[n].scriptPubKey| == 42)
  }

  lemma {:induction false} ShapeSize(vout: seq<TxOut>, n: nat, nNulldata: nat)
    requires Shaped(vout, n, nNulldata)
    ensures SizeOfOuts(vout) == 32 * n + 51 * nNulldata
  {
    if n > 0 {
      ShapeSize(vout[1..], n - 1, nNulldata);
    } else if nNulldata == 1 {
      assert vout[1..] == [];
    }
  }

  /** The fee depends on the inputs and the shape alone. */
  lemma FeeOfShape(feeRate: nat, t: Tx, u: Tx, n: nat, nNulldata: nat)
    requires t.vin == u.vin && Shaped(t.vout, n, nNulldata) && Shaped(u.vout, n, nNulldata)
    ensures TransactionFee(feeRate, t) == TransactionFee(feeRate, u)
  {
    ShapeSize(t.vout, n, nNulldata);
    ShapeSize(u.vout, n, nNulldata);
  }

  function DummyOutputs(n: nat, nNulldata: nat): (r: seq<TxOut>)
    requires nNulldata <= 1
    ensures Shaped(r, n, nNulldata)
  {
    seq(n, i => TxOut(-1, ScriptHashDummy)) + (if nNulldata == 1 then [TxOut(-1, NulldataDummy)] else [])
  }

  // -------------------------------------------------------------------- capacity

  /** What one script hash carries, its sequence number included. */
  function BitsPerScriptHash(setup: Setup): (r: int) {
    setup.suffixBits + 11 * (255 - setup.randomBits) + SEQUENCE_BITS
  }

  function NulldataFor(setup: Setup, nBits: nat, n: nat): (r: nat)
    ensures r <= 1
  {
    if n >= 2 || (n == 1 && nBits > n * BitsPerScriptHash(setup)) then 1 else 0
  }

  function FeesFor(setup: Setup, tx: Tx, nBits: nat, n: nat): (r: nat) {
    TransactionFee(setup.feeRate, tx.(vout := DummyOutputs(n, NulldataFor(setup, nBits, n))))
  }

  /** The estimate of the values' capacity: the lower bound of the outputs is not subtracted. */
  function SplitBits(nBudget: nat, nFees: nat, n: nat): (r: nat)
    requires n >= 1
  {
    if nBudget >= nFees then ValueBits(nBudget - nFees, n) else 0
  }

  function Capacity(setup: Setup, tx: Tx, nBits: nat, nBudget: nat, n: nat): (r: int)
    requires n >= 1
  {
    n * BitsPerScriptHash(setup) + NulldataFor(setup, nBits, n) * NULLDATA_BITS +
    (if n >= 2 then SplitBits(nBudget, FeesFor(setup, tx, nBits, n), n) + PermutationBits(n) else 0)
  }

  ghost predicate Suffices(setup: Setup, tx: Tx, nBits: nat, nBudget: nat, n: nat)
    requires n >= 1
  {
    Capacity(setup, tx, nBits, nBudget, n) >= nBits
  }

  function ParametersFor(setup: Setup, tx: Tx, nBits: nat, n: nat): (r: Parameters) {
    Parameters(n, NulldataFor(setup, nBits, n), FeesFor(setup, tx, nBits, n))
  }

  ghost predicate AllSuffice(setup: Setup, tx: Tx, nBits: nat, nBudget: nat, least: nat)
    requires least >= 1
  {
    forall n :: least <= n <= MAX_SCRIPT_HASHES ==> Suffices(setup, tx, nBits, nBudget, n)
  }

  lemma OneMoreSuffices(setup: Setup, tx: Tx, nBits: nat, nBudget: nat, n: nat)
    requires 1 <= n && Suffices(setup, tx, nBits, nBudget, n)
    requires n < MAX_SCRIPT_HASHES ==> AllSuffice(setup, tx, nBits, nBudget, n + 1)
    ensures AllSuffice(setup, tx, nBits, nBudget, n)
  {
    hide Suffices;
  }

  /** The choice: the chosen number of script hashes and all larger ones suffice while the next smaller
      one does not; 14 is also chosen when 14 do not suffice. */
  ghost predicate Chosen(setup: Setup, tx: Tx, nBits: nat, nBudget: nat, p: Parameters) {
    var k := p.nScriptHash;
    1 <= k <= MAX_SCRIPT_HASHES && p == ParametersFor(setup, tx, nBits, k) &&
    ((AllSuffice(setup, tx, nBits, nBudget, k) && (k > 1 ==> !Suffices(setup, tx, nBits, nBudget, k - 1))) ||
     (k == MAX_SCRIPT_HASHES && !Suffices(setup, tx, nBits, nBudget, k)))
  }

  method DummyTransaction(tx: Tx, n: nat, nNulldata: nat) returns (tmp: Tx)
    requires nNulldata <= 1
    ensures tmp == tx.(vout := DummyOutputs(n, nNulldata))
  {
    tmp := tx.(vout := []);
    for i := 0 to n
      invariant tmp == tx.(vout := seq(i, k => TxOut(-1, ScriptHashDummy)))
    {
      tmp := tmp.(vout := tmp.vout + [NewTxOut.(scriptPubKey := ScriptHashDummy)]);
    }
    if nNulldata == 1 {
      tmp := tmp.(vout := tmp.vout + [NewTxOut.(scriptPubKey := NulldataDummy)]);
    }
  }

  method OptimizeParams(setup: Setup, tx: Tx, bits: DataBits, nBudget: nat) returns (params: Parameters)
    requires setup.randomBits <= 255 && nBudget < INT64
    ensures |bits| == 0 ==> params == Parameters(0, 0, TransactionFee(setup.feeRate, tx))
    ensures |bits| > 0 ==> Chosen(setup, tx, |bits|, nBudget, params)
  {
    hide AllSuffice, Suffices, Capacity, TransactionFee, FeesFor, NulldataFor;
    if |bits| == 0 {
      return Parameters(0, 0, TransactionFee(setup.feeRate, tx));
    }
    var nScriptHash := MAX_SCRIPT_HASHES;
    params := Parameters(MAX_SCRIPT_HASHES, 1, 0);
    var more := true;
    while more
      invariant 0 <= nScriptHash <= MAX_SCRIPT_HASHES
      invariant more ==> nScriptHash >= 1
      invariant more && nScriptHash < MAX_SCRIPT_HASHES ==> params == ParametersFor(setup, tx, |bits|, nScriptHash + 1)
      invariant more && nScriptHash < MAX_SCRIPT_HASHES ==> AllSuffice(setup, tx, |bits|, nBudget, nScriptHash + 1)
      invariant !more ==> Chosen(setup, tx, |bits|, nBudget, params)
      decreases more, nScriptHash
    {
      var n := nScriptHash;
      var nTotal, candidate := EmbeddableBits(setup, tx, |bits|, nBudget, n);
      if nTotal >= |bits| || n == MAX_SCRIPT_HASHES {
        params := candidate;
        nScriptHash := n - 1;
      }
      more := nTotal >= |bits| && nScriptHash > 0;
      if nTotal >= |bits| {
        OneMoreSuffices(setup, tx, |bits|, nBudget, n);
      }
    }
  }

  /** The body of the loop: what `n` script hashes can carry, and at what fee. */
  method EmbeddableBits(setup: Setup, tx: Tx, nBits: nat, nBudget: nat, n: nat)
    returns (nTotal: int, candidate: Parameters)
    requires 1 <= n <= MAX_SCRIPT_HASHES && nBudget < INT64
    ensures nTotal >= nBits <==> Suffices(setup, tx, nBits, nBudget, n)
    ensures candidate == ParametersFor(setup, tx, nBits, n)
  {
    nTotal := n * (setup.suffixBits + 11 * (255 - setup.randomBits));
    nTotal := nTotal + n * SEQUENCE_BITS;
    PerScriptHash(setup, n);
    var nNulldata := 0;
    if (n == 1 && nBits > nTotal) || n >= 2 {
      nNulldata := 1;
      nTotal := nTotal + NULLDATA_BITS;
    }
    hide BitsPerScriptHash, DummyOutputs;
    assert nNulldata == NulldataFor(setup, nBits, n);
    var tmp := DummyTransaction(tx, n, nNulldata);
    var nFees := TransactionFee(setup.feeRate, tmp);
    if n >= 2 {
      var nBitsBudgetSplit := 0;
      if nBudget >= nFees {
        nBitsBudgetSplit := EmbeddableBitsInValues(nBudget - nFees, n);
      }
      var nBitsBudgetClaim := EmbeddableBitsInPermutation(n);
      nTotal := nTotal + nBitsBudgetSplit + nBitsBudgetClaim;
    }
    candidate := Parameters(n, nNulldata, nFees);
    assert nTotal == Capacity(setup, tx, nBits, nBudget, n);
  }

  lemma PerScriptHash(setup: Setup, n: nat)
    ensures n * (setup.suffixBits + 11 * (255 - setup.randomBits)) + n * SEQUENCE_BITS == n * BitsPerScriptHash(setup)
  {
  }

  // ------------------------------------------------- the fewest script hash outputs

  lemma WordIsPow2()
    ensures Pow2(64) == WORD
  {
    assert Pow2(8) == 0x100;
    Pow2Add(8, 8);
    Pow2Add(16, 16);
    Pow2Add(32, 32);
  }

  lemma {:induction false} ChooseAtMost(n: nat, k: nat)
    requires n < WORD
    ensures Choose(n, k) <= Pow2(64 * k)
  {
    if k > 0 && n > 0 {
      ChooseAtMost(n - 1, k - 1);
      ChooseAbsorb(n, k);
      WordIsPow2();
      Pow2Add(64, 64 * (k - 1));
      ProductAtMost(k, Choose(n, k), n, Choose(n - 1, k - 1), Pow2(64), Pow2(64 * (k - 1)));
    }
  }

  lemma ProductAtMost(k: int, c: int, n: int, d: int, p: int, q: int)
    requires k >= 1 && c >= 0 && k * c == n * d && 0 <= n <= p && 0 <= d <= q
    ensures c <= p * q
  {
    MulAtMost(c, 1, k);
    MulAtMost(n, d, q);
    MulAtMost(q, n, p);
  }

  lemma {:induction false} Log2AtMost(count: nat, m: nat)
    requires 1 <= count <= Pow2(m)
    ensures FloorLog2(count) <= m
  {
    if FloorLog2(count) > m {
      Pow2Monotone(m + 1, FloorLog2(count));
    }
  }

  lemma Log2Monotone(a: nat, b: nat)
    requires 1 <= a <= b
    ensures FloorLog2(a) <= FloorLog2(b)
  {
    if FloorLog2(a) > FloorLog2(b) {
      Pow2Monotone(FloorLog2(b) + 1, FloorLog2(a));
    }
  }

  lemma ValueBitsGrow(a: nat, b: nat, n: nat)
    requires a <= b && n >= 1
    ensures ValueBits(a, n) <= ValueBits(b, n)
  {
    NumCompsPositive(a, n);
    NumCompsMonotone(a, b, n);
    Log2Monotone(NumComps(a, n), NumComps(b, n));
  }

  /** 64 bits for every value but one are more than a split can carry. */
  lemma SplitBitsAtMost(nBudget: nat, nFees: nat, n: nat)
    requires n >= 1 && nBudget + n - 1 < WORD
    ensures SplitBits(nBudget, nFees, n) <= 64 * (n - 1)
  {
    if nBudget >= nFees {
      ChooseAtMost(nBudget - nFees + n - 1, n - 1);
      NumCompsPositive(nBudget - nFees, n);
      Log2AtMost(NumComps(nBudget - nFees, n), 64 * (n - 1));
    }
  }

  lemma CapacityGrows(setup: Setup, tx: Tx, nBits: nat, nBudget: nat, n: nat)
    requires 1 <= n < MAX_SCRIPT_HASHES && nBudget < INT64 && BitsPerScriptHash(setup) >= 768
    ensures Capacity(setup, tx, nBits, nBudget, n) <= Capacity(setup, tx, nBits, nBudget, n + 1)
  {
    hide BitsPerScriptHash, FeesFor, SplitBits, PermutationBits;
    SplitBitsAtMost(nBudget, FeesFor(setup, tx, nBits, n), n);
    PermutationBitsGrow(n);
    assert (n + 1) * BitsPerScriptHash(setup) == n * BitsPerScriptHash(setup) + BitsPerScriptHash(setup);
  }

  lemma PermutationBitsGrow(n: nat)
    ensures PermutationBits(n) <= PermutationBits(n + 1)
  {
    MulAtMost(Fact(n), 1, n + 1);
    Log2Monotone(Fact(n), Fact(n + 1));
  }

  lemma {:induction false} CapacityMonotone(setup: Setup, tx: Tx, nBits: nat, nBudget: nat, m: nat, n: nat)
    requires 1 <= m <= n <= MAX_SCRIPT_HASHES && nBudget < INT64 && BitsPerScriptHash(setup) >= 768
    ensures Capacity(setup, tx, nBits, nBudget, m) <= Capacity(setup, tx, nBits, nBudget, n)
    decreases n
  {
    if m < n {
      CapacityMonotone(setup, tx, nBits, nBudget, m, n - 1);
      CapacityGrows(setup, tx, nBits, nBudget, n - 1);
    }
  }

  /** The chosen number is the least that suffices; without any, it is the maximum. */
  lemma FewestScriptHashes(setup: Setup, tx: Tx, nBits: nat, nBudget: nat, p: Parameters)
    requires nBudget < INT64 && BitsPerScriptHash(setup) >= 768
    requires Chosen(setup, tx, nBits, nBudget, p)
    ensures forall m :: 1 <= m < p.nScriptHash ==> !Suffices(setup, tx, nBits, nBudget, m)
    ensures Suffices(setup, tx, nBits, nBudget, p.nScriptHash) ||
            (p.nScriptHash == MAX_SCRIPT_HASHES &&
             forall m :: 1 <= m <= MAX_SCRIPT_HASHES ==> !Suffices(setup, tx, nBits, nBudget, m))
  {
    hide Capacity, ParametersFor;
    forall m | 1 <= m <= MAX_SCRIPT_HASHES
      ensures m < p.nScriptHash ==> !Suffices(setup, tx, nBits, nBudget, m)
      ensures !Suffices(setup, tx, nBits, nBudget, MAX_SCRIPT_HASHES) ==> !Suffices(setup, tx, nBits, nBudget, m)
    {
      CapacityMonotone(setup, tx, nBits, nBudget, m, MAX_SCRIPT_HASHES);
      if m < p.nScriptHash {
        CapacityMonotone(setup, tx, nBits, nBudget, m, p.nScriptHash - 1);
      }
    }
  }

  // -------------------------------------------- a choice that is not the smallest

  /** The search from above finds the smallest number that suffices exactly when one more script hash never
      turns a sufficient number into one that is not. */
  lemma FewestExactly(setup: Setup, tx: Tx, nBits: nat, nBudget: nat, p: Parameters)
    requires Chosen(setup, tx, nBits, nBudget, p)
    ensures (forall m :: 1 <= m < p.nScriptHash ==> !Suffices(setup, tx, nBits, nBudget, m)) <==>
            forall m :: 1 <= m < MAX_SCRIPT_HASHES && Suffices(setup, tx, nBits, nBudget, m) ==>
              Suffices(setup, tx, nBits, nBudget, m + 1)
  {
    hide Suffices, ParametersFor;
    if forall m :: 1 <= m < MAX_SCRIPT_HASHES && Suffices(setup, tx, nBits, nBudget, m) ==>
         Suffices(setup, tx, nBits, nBudget, m + 1)
    {
      forall m | 1 <= m < p.nScriptHash
        ensures !Suffices(setup, tx, nBits, nBudget, m)
      {
        if Suffices(setup, tx, nBits, nBudget, m) {
          SufficesUpward(setup, tx, nBits, nBudget, m, MAX_SCRIPT_HASHES);
          SufficesUpward(setup, tx, nBits, nBudget, m, p.nScriptHash - 1);
        }
      }
    }
  }

  lemma {:induction false} SufficesUpward(setup: Setup, tx: Tx, nBits: nat, nBudget: nat, m: nat, n: nat)
    requires 1 <= m <= n <= MAX_SCRIPT_HASHES && Suffices(setup, tx, nBits, nBudget, m)
    requires forall m :: 1 <= m < MAX_SCRIPT_HASHES && Suffices(setup, tx, nBits, nBudget, m) ==>
               Suffices(setup, tx, nBits, nBudget, m + 1)
    ensures Suffices(setup, tx, nBits, nBudget, n)
    decreases n
  {
    hide Suffices;
    if m < n {
      SufficesUpward(setup, tx, nBits, nBudget, m, n - 1);
    }
  }

  lemma Log2Is(count: nat, r: nat)
    requires Pow2(r) <= count < Pow2(r + 1)
    ensures FloorLog2(count) == r
  {
    if FloorLog2(count) < r { Pow2Monotone(FloorLog2(count) + 1, r); }
    if FloorLog2(count) > r { Pow2Monotone(r + 1, FloorLog2(count)); }
  }

  /** A split into two parts has amount + 1 possibilities. */
  lemma {:induction false} TwoParts(amount: nat, r: nat)
    requires Pow2(r) <= amount + 1 < Pow2(r + 1)
    ensures ValueBits(amount, 2) == r
  {
    hide Pow2, FloorLog2, Choose;
    NumCompsPositive(amount, 2);
    ChooseOne(amount + 1);
    Log2Is(amount + 1, r);
  }

  lemma {:induction false} ChooseOne(n: nat)
    requires n >= 1
    ensures Choose(n, 1) == n
  {
    ChooseAbsorb(n, 1);
    assert Choose(n - 1, 0) == 1;
  }

  lemma TwoInOrder()
    ensures PermutationBits(2) == 1
  {
    Log2Is(2, 1);
  }

  lemma ThreeInOrder()
    ensures PermutationBits(3) == 2
  {
    assert Fact(3) == 6;
    Log2Is(6, 2);
  }

  /** The fee of 21 unsigned inputs and an OP_RETURN output jumps from two to three script hashes. */
  lemma FeeJumps(setup: Setup, tx: Tx, n: nat)
    requires |tx.vin| == 21 && SizeOfIns(tx.vin) == 861 && 2 <= n <= MAX_SCRIPT_HASHES
    ensures FeesFor(setup, tx, 419, n) == if n == 2 then setup.feeRate else 2 * setup.feeRate
  {
    hide DummyOutputs;
    ShapeSize(DummyOutputs(n, 1), n, 1);
  }

  /** With few bits for each script hash a fee that jumps takes the values' capacity away: 21 unsigned inputs,
      no bits in the keys and 419 bits to embed. Two script hashes carry them at the fee of 986 bytes, three
      do not at that of 1018, so the search stops and four are chosen. */
  lemma NotTheFewest(setup: Setup, tx: Tx)
    requires setup.suffixBits == 0 && setup.randomBits == 255 && setup.feeRate == 0x4_0000_0001
    requires |tx.vin| == 21 && SizeOfIns(tx.vin) == 861
    ensures var nBudget := 2 * setup.feeRate - 1;
            Chosen(setup, tx, 419, nBudget, ParametersFor(setup, tx, 419, 4)) && Suffices(setup, tx, 419, nBudget, 2)
  {
    hide ValueBits, PermutationBits, FeesFor;
    var nBudget := 2 * setup.feeRate - 1;
    forall n | 2 <= n <= MAX_SCRIPT_HASHES
      ensures FeesFor(setup, tx, 419, n) == if n == 2 then setup.feeRate else 2 * setup.feeRate
    {
      FeeJumps(setup, tx, n);
    }
    PowersOfTwo();
    TwoParts(0x4_0000_0000, 34);
    TwoInOrder();
    ThreeInOrder();
    assert Capacity(setup, tx, 419, nBudget, 2) == 419;
    assert Capacity(setup, tx, 419, nBudget, 3) == 418;
  }

  lemma PowersOfTwo()
    ensures Pow2(34) == 0x4_0000_0000 && Pow2(35) == 0x8_0000_0000
  {
    assert Pow2(8) == 0x100;
    Pow2Add(8, 8);
    Pow2Add(16, 16);
    Pow2Add(32, 2);
  }
}
