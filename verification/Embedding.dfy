/** Embedding data in one transaction and the inputs of the next
    (src/lib/bms/BlockchainInterface.cpp:441-492). */
module Embedding {
  import opened Bits
  import opened Options
  import opened Script
  import opened Transactions
  import opened SigningFacts
  import opened DataInterface
  import opened Carriers
  import opened ScriptHashes
  import opened TransactionShapes
  import opened Chains
  import Permutations
  import Sequences

  /** The outputs and inputs set up for `n` script hashes; the claim written into the input at the
      back is overwritten later. */
  method NewPairs(n: nat) returns (vout: seq<TxOut>, vin: seq<TxIn>)
    requires n <= MAX_SCRIPT_HASHES
    ensures |vout| == |vin| == n
    ensures forall i :: 0 <= i < n ==> vout[i] == NewTxOut
    ensures forall i :: 0 <= i < n ==> vin[i] == WithClaim(NewTxIn, if i < n - 1 then UINT32 - 1 else n - 1)
  {
    vout, vin := [], [];
    for i := 0 to n
      invariant |vout| == |vin| == i
      invariant forall k :: 0 <= k < i ==> vout[k] == NewTxOut
      invariant forall k :: 0 <= k < i ==> vin[k] == WithClaim(NewTxIn, if k < i - 1 then UINT32 - 1 else i - 1)
    {
      vout := [NewTxOut] + vout;
      vin := [NewTxIn] + vin;
      vin := vin[i := WithClaim(vin[i], i)];
    }
  }

  /** Enough is left after the fees: for several outputs, more than the lower bound of each. */
  predicate Affordable(nBudget: nat, nFees: nat, n: nat) {
    nBudget >= nFees && (n >= 2 ==> nBudget - nFees > n * DUST)
  }

  /** How many bits the values and the order of claims carry. */
  function ValuesRoom(n: nat, amount: nat): (r: nat)
    requires n >= 2 ==> amount > n * DUST
  {
    if n >= 2 then ValueBits(amount - n * DUST, n) + PermutationBits(n) else 0
  }

  /** Budget split and claim order, or the whole budget for a single output. */
  method PackValues(setup: Setup, bits: BitQueue, vout: seq<TxOut>, vin: seq<TxIn>, amount: nat)
    returns (spending: seq<TxOut>, claiming: seq<TxIn>)
    requires 1 <= |vout| == |vin| <= MAX_SCRIPT_HASHES && amount < INT64
    requires |vout| >= 2 ==> amount > |vout| * DUST
    modifies bits
    ensures |spending| == |claiming| == |vout|
    ensures SumOfValues(spending) == amount && (|vout| >= 2 ==> AllAbove(spending, DUST))
    ensures ClaimsEach(claiming)
    ensures forall i :: 0 <= i < |vin| ==>
              claiming[i] == WithClaim(vin[i], claiming[i].prevout.n) && claiming[i].prevout.n < |vin|
    ensures var data := DataInValuesAndClaims(spending, claiming);
            data.Some? && Carries(old(bits.bits), data.value, bits.bits)
    ensures |bits.bits| == Rest(|old(bits.bits)|, ValuesRoom(|vout|, amount))
  {
    hide Carries, DataInBudgetSplit, DataInBudgetClaim, ValueBits, PermutationBits;
    if |vout| == 1 {
      spending := vout[0 := vout[0].(nValue := amount)];
      claiming := vin[0 := WithClaim(vin[0], 0)];
      OnlyClaim(claiming);
      CarriesNothing(bits.bits);
      assert spending[1..] == [];
    } else {
      ghost var start := bits.bits;
      spending := PackDataIntoBudgetSplit(bits, vout, amount, DUST, setup.estimate);
      ghost var middle := bits.bits;
      claiming := PackDataIntoBudgetClaim(bits, vin);
      CarriesOn(start, DataInBudgetSplit(spending, DUST).value, middle, DataInBudgetClaim(claiming).value, bits.bits);
    }
  }

  lemma OnlyClaim(vin: seq<TxIn>)
    requires |vin| == 1 && vin[0].prevout.n == 0
    ensures ClaimsEach(vin)
  {
    assert seq(1, i requires 0 <= i < 1 => vin[i].prevout.n) == [0] == Permutations.Iota(1);
  }

  // ------------------------------------------------------ redeem scripts and sequence numbers

  /** What is settled once the first `i` inputs have been filled in. */
  ghost predicate Filled(setup: Setup, added: set<Script>, vout: seq<TxOut>, vin: seq<TxIn>, i: nat)
    requires i <= |vin|
  {
    forall j :: 0 <= j < i ==>
      vin[j].prevout.n < |vout| && RedeemedBy(setup, added, vin[j], vout[vin[j].prevout.n]) &&
      |vin[j].scriptSig| <= MAX_SIGNATURE_SCRIPT
  }

  ghost predicate SameClaims(a: seq<TxIn>, b: seq<TxIn>) {
    |a| == |b| && forall j :: 0 <= j < |a| ==> a[j].prevout == b[j].prevout
  }

  ghost predicate SameValues(a: seq<TxOut>, b: seq<TxOut>, n: nat) {
    |a| == |b| && (forall k :: 0 <= k < |a| ==> a[k].nValue == b[k].nValue) &&
    forall k :: n <= k < |a| ==> a[k] == b[k]
  }

  ghost predicate ClaimsDiffer(vin: seq<TxIn>) {
    forall j, k :: 0 <= j < k < |vin| ==> vin[j].prevout.n != vin[k].prevout.n
  }

  lemma ClaimsAreDistinct(vin: seq<TxIn>)
    requires ClaimsEach(vin)
    ensures ClaimsDiffer(vin)
  {
    var p := seq(|vin|, i requires 0 <= i < |vin| => vin[i].prevout.n);
    assert Sequences.Distinct(p);
    forall j, k | 0 <= j < k < |vin|
      ensures vin[j].prevout.n != vin[k].prevout.n
    {
      assert p[j] != p[k];
    }
  }

  /** Every output up to the number of inputs is claimed by one of them. */
  lemma EachIsClaimed(vin: seq<TxIn>, k: nat) returns (j: nat)
    requires ClaimsEach(vin) && k < |vin|
    ensures j < |vin| && vin[j].prevout.n == k
  {
    var p := seq(|vin|, i requires 0 <= i < |vin| => vin[i].prevout.n);
    assert Permutations.Iota(|vin|)[k] == k;
    assert k in Permutations.Elements(Permutations.Iota(|vin|));
    assert k in Permutations.Elements(p);
    j :| 0 <= j < |p| && p[j] == k;
  }

  lemma {:induction false} SameInputData(a: seq<TxIn>, b: seq<TxIn>, n: nat, suffixBits: nat)
    requires n <= |a| && |a| == |b| && a[..n] == b[..n]
    ensures DataInInputs(a, n, suffixBits) == DataInInputs(b, n, suffixBits)
  {
    if n > 0 {
      assert a[n - 1] == a[..n][n - 1] == b[n - 1];
      assert a[..n - 1] == a[..n][..n - 1] == b[..n - 1];
      SameInputData(a, b, n - 1, suffixBits);
    }
  }

  /** One more input and its output have been filled in. */
  lemma FillOne(setup: Setup, before: set<Script>, added: set<Script>, vout: seq<TxOut>, vin: seq<TxIn>,
                vout': seq<TxOut>, vin': seq<TxIn>, i: nat, keys: seq<Bytes>)
    requires i < |vin| == |vin'| && SameClaims(vin, vin') && vin'[..i] == vin[..i] && ClaimsDiffer(vin)
    requires vin[i].prevout.n < |vout| && |vout'| == |vout| && before <= added
    requires forall k :: 0 <= k < |vout| && k != vin[i].prevout.n ==> vout'[k] == vout[k]
    requires Filled(setup, before, vout, vin, i)
    requires Redeems(setup, vin'[i], vout'[vin[i].prevout.n].scriptPubKey, keys) && Multisig(1, keys) in added
    requires |vin'[i].scriptSig| <= MAX_SIGNATURE_SCRIPT
    ensures Filled(setup, added, vout', vin', i + 1)
  {
    hide Redeems, Redeemable;
    forall j | 0 <= j < i + 1
      ensures vin'[j].prevout.n < |vout'| && RedeemedBy(setup, added, vin'[j], vout'[vin'[j].prevout.n])
      ensures |vin'[j].scriptSig| <= MAX_SIGNATURE_SCRIPT
    {
      if j < i {
        assert vin'[j] == vin'[..i][j] == vin[j];
        assert RedeemedBy(setup, before, vin[j], vout[vin[j].prevout.n]);
      } else {
        assert RedeemedBy(setup, added, vin'[i], vout'[vin[i].prevout.n]);
      }
    }
  }

  /** How many bits the keys and the sequence number of one input carry. */
  function HashRoom(setup: Setup): (r: nat) {
    setup.suffixBits + EXTRA_KEYS * KEY_BITS + SEQUENCE_BITS
  }

  function HashesRoom(setup: Setup, n: nat): (r: nat) {
    n * HashRoom(setup)
  }

  /** One round of the last loop: redeem script, temporary signature and sequence number of input `i`. */
  method PackInput(session: Session, bits: BitQueue, vout: seq<TxOut>, next: Tx, i: nat)
    returns (ok: bool, vout': seq<TxOut>, next': Tx)
    requires session.Ready() && i < |next.vin| && next.vin[i].prevout.n < |vout|
    requires ClaimsDiffer(next.vin) && Filled(session.setup, session.added, vout, next.vin, i)
    modifies bits, session
    ensures session.Ready() && old(session.added) <= session.added && session.store.keys == old(session.store.keys)
    ensures ok <==> KeysCanCarry(session.setup.onCurve, old(bits.bits), session.setup.suffixBits)
    ensures ok ==> SameValues(vout, vout', |vout|)
    ensures ok ==> forall k :: 0 <= k < |vout| && k != next.vin[i].prevout.n ==> vout'[k] == vout[k]
    ensures ok ==> next' == next.(vin := next'.vin) && SameClaims(next.vin, next'.vin) && next'.vin[..i] == next.vin[..i]
    ensures ok ==> Filled(session.setup, session.added, vout', next'.vin, i + 1)
    ensures ok ==>
      var data := Then(DataInP2SH(next'.vin[i], session.setup.suffixBits), Some(ToBits(next'.vin[i].nSequence, 32)));
      next'.vin[i].nSequence < UINT32 && data.Some? && Carries(old(bits.bits), data.value, bits.bits)
    ensures ok ==> |bits.bits| == Rest(|old(bits.bits)|, HashRoom(session.setup))
  {
    hide Carries, DataInP2SH, ToBits, Redeems, Filled, KeysCanCarry;
    ghost var before, start := session.added, bits.bits;
    vout', next' := vout, next;
    var n := next.vin[i].prevout.n;
    var txOut, signed;
    ghost var keys;
    ok, txOut, signed, keys := PackDataIntoP2SH(session, bits, vout[n], next, i);
    if !ok {
      return;
    }
    ghost var middle := bits.bits;
    var txIn := PackDataIntoSeqNr(bits, signed.vin[i]);
    vout' := vout[n := txOut];
    next' := signed.(vin := signed.vin[i := txIn]);
    SequenceKeepsKeys(session.setup, signed.vin[i], txIn, txOut.scriptPubKey, keys);
    FillOne(session.setup, before, session.added, vout, next.vin, vout', next'.vin, i, keys);
    CarriesOn(start, DataInP2SH(txIn, session.setup.suffixBits).value, middle, ToBits(txIn.nSequence, 32), bits.bits);
  }

  lemma SequenceKeepsKeys(setup: Setup, a: TxIn, b: TxIn, scriptPubKey: Script, keys: seq<Bytes>)
    requires a.scriptSig == b.scriptSig
    ensures DataInP2SH(a, setup.suffixBits) == DataInP2SH(b, setup.suffixBits)
    ensures Redeems(setup, a, scriptPubKey, keys) == Redeems(setup, b, scriptPubKey, keys)
  {
    hide KeysIn, LastData, DataInKeys, PushKeys;
  }

  /** All payloads of the first `n` inputs, whose keys begin at position `at` of the data, have a draw on the curve. */
  predicate InputsCanCarry(setup: Setup, bits: DataBits, at: nat, n: nat) {
    forall i :: 0 <= i < n ==> KeysCanCarry(setup.onCurve, bits, at + HashesRoom(setup, i) + setup.suffixBits)
  }

  lemma InputsCanCarryMoves(setup: Setup, before: DataBits, slice: DataBits, after: DataBits, taken: nat, n: nat)
    requires Carries(before, slice, after) && |after| == Rest(|before|, taken)
    ensures InputsCanCarry(setup, after, 0, n) <==> InputsCanCarry(setup, before, taken, n)
  {
    hide Carries, KeysCanCarry, HashesRoom;
    forall i: nat | i < n
      ensures KeysCanCarry(setup.onCurve, after, HashesRoom(setup, i) + setup.suffixBits) <==>
              KeysCanCarry(setup.onCurve, before, taken + HashesRoom(setup, i) + setup.suffixBits)
    {
      CanCarryMoves(setup.onCurve, before, slice, after, taken, HashesRoom(setup, i) + setup.suffixBits);
    }
  }

  /** The next input's keys. */
  lemma NextCanCarry(setup: Setup, start: DataBits, sent: DataBits, bits: DataBits, i: nat, n: nat)
    requires Carries(start, sent, bits) && |bits| == Rest(|start|, HashesRoom(setup, i)) && i < n
    requires InputsCanCarry(setup, start, 0, i)
    ensures KeysCanCarry(setup.onCurve, bits, setup.suffixBits) <==> InputsCanCarry(setup, start, 0, i + 1)
    ensures !InputsCanCarry(setup, start, 0, i + 1) ==> !InputsCanCarry(setup, start, 0, n)
  {
    hide Carries, KeysCanCarry, HashesRoom;
    CanCarryMoves(setup.onCurve, start, sent, bits, HashesRoom(setup, i), setup.suffixBits);
  }

  lemma RestOfRest(setup: Setup, nBits: nat, i: nat)
    ensures Rest(Rest(nBits, HashesRoom(setup, i)), HashRoom(setup)) == Rest(nBits, HashesRoom(setup, i + 1))
  {
  }

  method PackInputs(session: Session, bits: BitQueue, vout: seq<TxOut>, next: Tx, n: nat)
    returns (ok: bool, vout': seq<TxOut>, next': Tx)
    requires session.Ready() && 1 <= n == |next.vin| <= |vout| && ClaimsEach(next.vin)
    requires forall j :: 0 <= j < n ==> next.vin[j].prevout.n < n
    modifies bits, session
    ensures session.Ready() && old(session.added) <= session.added && session.store.keys == old(session.store.keys)
    ensures ok <==> InputsCanCarry(session.setup, old(bits.bits), 0, n)
    ensures ok ==> SameValues(vout, vout', n)
    ensures ok ==> next' == next.(vin := next'.vin) && SameClaims(next.vin, next'.vin)
    ensures ok ==> Filled(session.setup, session.added, vout', next'.vin, n)
    ensures ok ==> var data := DataInInputs(next'.vin, n, session.setup.suffixBits);
                   data.Some? && Carries(old(bits.bits), data.value, bits.bits)
    ensures ok ==> |bits.bits| == Rest(|old(bits.bits)|, HashesRoom(session.setup, n))
  {
    hide Carries, DataInP2SH, ToBits, Filled, KeysCanCarry, InputsCanCarry, HashesRoom;
    ghost var setup, suffixBits, start := session.setup, session.setup.suffixBits, bits.bits;
    vout', next' := vout, next;
    ok := true;
    ClaimsAreDistinct(next.vin);
    CarriesNothing(bits.bits);
    NothingFilled(session.setup, session.added, vout, next.vin);
    NoInputs(setup, start);
    for i := 0 to n
      invariant session.Ready() && old(session.added) <= session.added && session.store.keys == old(session.store.keys)
      invariant SameValues(vout, vout', n)
      invariant next' == next.(vin := next'.vin) && SameClaims(next.vin, next'.vin) && ClaimsDiffer(next'.vin)
      invariant Filled(session.setup, session.added, vout', next'.vin, i)
      invariant DataInInputs(next'.vin, i, suffixBits).Some?
      invariant Carries(start, DataInInputs(next'.vin, i, suffixBits).value, bits.bits)
      invariant |bits.bits| == Rest(|start|, HashesRoom(setup, i))
      invariant ok && InputsCanCarry(setup, start, 0, i)
    {
      ghost var vin, middle := next'.vin, bits.bits;
      NextCanCarry(setup, start, DataInInputs(vin, i, suffixBits).value, middle, i, n);
      ok, vout', next' := PackInput(session, bits, vout', next', i);
      if !ok {
        return;
      }
      RestOfRest(setup, |start|, i);
      SameInputData(vin, next'.vin, i, suffixBits);
      ghost var data := Then(DataInP2SH(next'.vin[i], suffixBits), Some(ToBits(next'.vin[i].nSequence, 32))).value;
      CarriesOn(start, DataInInputs(vin, i, suffixBits).value, middle, data, bits.bits);
      InputDataGrows(next'.vin, i, suffixBits);
    }
  }

  lemma NoInputs(setup: Setup, bits: DataBits)
    ensures InputsCanCarry(setup, bits, 0, 0) && HashesRoom(setup, 0) == 0
  {
  }

  lemma NothingFilled(setup: Setup, added: set<Script>, vout: seq<TxOut>, vin: seq<TxIn>)
    ensures Filled(setup, added, vout, vin, 0)
  {
  }

  lemma InputDataGrows(vin: seq<TxIn>, i: nat, suffixBits: nat)
    requires i < |vin| && vin[i].nSequence < UINT32 && DataInInputs(vin, i, suffixBits).Some?
    requires DataInP2SH(vin[i], suffixBits).Some?
    ensures var data := Then(DataInP2SH(vin[i], suffixBits), Some(ToBits(vin[i].nSequence, 32)));
            DataInInputs(vin, i + 1, suffixBits) == Some(DataInInputs(vin, i, suffixBits).value + data.value)
  {
    hide DataInP2SH, ToBits;
    Sequences.Assoc(DataInInputs(vin, i, suffixBits).value, DataInP2SH(vin[i], suffixBits).value,
                    ToBits(vin[i].nSequence, 32));
  }

  // ---------------------------------------------------------------- one transaction

  /** The size of the largest transaction with the given inputs. */
  function LargestSize(vin: seq<TxIn>): (r: nat) {
    SizeOfIns(vin) + 4 + SizeOfCompactSize(|vin|) + 1 + 32 * MAX_SCRIPT_HASHES + 51 + 4
  }

  lemma FeeMonotone(feeRate: nat, a: nat, b: nat)
    requires a <= b
    ensures Fee(feeRate, a) <= Fee(feeRate, b)
  {
    MulAtMost(feeRate, (a + 999) / 1000, (b + 999) / 1000);
  }

  lemma FeeOfShapeAtMost(feeRate: nat, t: Tx, n: nat, nNulldata: nat)
    requires Shaped(t.vout, n, nNulldata) && n <= MAX_SCRIPT_HASHES
    ensures TransactionFee(feeRate, t) <= Fee(feeRate, LargestSize(t.vin))
  {
    ShapeSize(t.vout, n, nNulldata);
    FeeMonotone(feeRate, SizeOfTx(t), LargestSize(t.vin));
  }

  /** What embedding in one transaction achieves: `vout` are its outputs, `vin` the inputs of the next one. */
  ghost predicate Embedded(setup: Setup, added: set<Script>, vout: seq<TxOut>, vin: seq<TxIn>, amount: int) {
    Linked(setup, added, vout, vin) && Spends(vout, |vin|, amount) && SmallInputs(vin)
  }

  /** All claimed outputs pay to script hashes, so the dummies had their sizes. */
  lemma FilledIsShaped(setup: Setup, added: set<Script>, vout: seq<TxOut>, vin: seq<TxIn>, nNulldata: nat)
    requires ClaimsEach(vin) && Filled(setup, added, vout, vin, |vin|)
    requires nNulldata <= 1 && |vout| == |vin| + nNulldata && (nNulldata == 1 ==> |vout[|vin|].scriptPubKey| == 42)
    ensures Shaped(vout, |vin|, nNulldata)
  {
    forall k | 0 <= k < |vin|
      ensures |vout[k].scriptPubKey| == 23
    {
      var j := EachIsClaimed(vin, k);
      RedeemedSize(setup, added, vin[j], vout[k]);
    }
  }

  lemma RedeemedSize(setup: Setup, added: set<Script>, txIn: TxIn, txOut: TxOut)
    requires RedeemedBy(setup, added, txIn, txOut)
    ensures |txOut.scriptPubKey| == 23
  {
  }

  lemma {:induction false} SumSameValues(a: seq<TxOut>, b: seq<TxOut>)
    requires |a| == |b| && forall k :: 0 <= k < |a| ==> a[k].nValue == b[k].nValue
    ensures SumOfValues(a) == SumOfValues(b)
  {
    if a != [] {
      SumSameValues(a[1..], b[1..]);
    }
  }

  lemma {:induction false} SumAppend(a: seq<TxOut>, o: TxOut)
    ensures SumOfValues(a + [o]) == SumOfValues(a) + o.nValue
  {
    if a == [] {
      assert [] + [o] == [o];
    } else {
      SumAppend(a[1..], o);
      assert (a + [o])[1..] == a[1..] + [o];
    }
  }

  lemma SameSplit(a: seq<TxOut>, b: seq<TxOut>, vin: seq<TxIn>, vin': seq<TxIn>)
    requires |a| == |b| && (forall k :: 0 <= k < |a| ==> a[k].nValue == b[k].nValue) && SameClaims(vin, vin')
    ensures DataInValuesAndClaims(a, vin) == DataInValuesAndClaims(b, vin')
    ensures AllAbove(a, DUST) == AllAbove(b, DUST) && ClaimsEach(vin) == ClaimsEach(vin')
  {
    if AllAbove(a, DUST) && AllAbove(b, DUST) {
      assert ValuesAbove(a, DUST) == ValuesAbove(b, DUST);
    }
    assert Claimed(vin) == Claimed(vin');
    assert seq(|vin|, i requires 0 <= i < |vin| => vin[i].prevout.n) ==
           seq(|vin'|, i requires 0 <= i < |vin'| => vin'[i].prevout.n);
  }

  /** The OP_RETURN output, when there is one. */
  method PackNulldata(bits: BitQueue, vout: seq<TxOut>, nNulldata: nat) returns (vout': seq<TxOut>)
    requires nNulldata <= 1
    modifies bits
    ensures |vout'| == |vout| + nNulldata && vout'[..|vout|] == vout && SumOfValues(vout') == SumOfValues(vout)
    ensures nNulldata == 1 ==> |vout'[|vout|].scriptPubKey| == 42 && vout'[|vout|].scriptPubKey[0] == OP_RETURN
    ensures nNulldata == 1 ==> vout'[|vout|].nValue == 0
    ensures var data := if nNulldata == 1 then DataInNulldata(vout'[|vout|]) else Some([]);
            data.Some? && Carries(old(bits.bits), data.value, bits.bits)
    ensures |bits.bits| == Rest(|old(bits.bits)|, nNulldata * NULLDATA_BITS)
  {
    hide Carries, DataInNulldata;
    vout' := vout;
    CarriesNothing(bits.bits);
    if nNulldata == 1 {
      var txOut := PackDataIntoNulldata(bits, NewTxOut);
      SumAppend(vout, txOut);
      vout' := vout + [txOut];
    }
  }

  /** The parts are found again where ExtractData looks for them. */
  lemma AssembleData(spending: seq<TxOut>, claiming: seq<TxIn>, middle: seq<TxOut>, vout: seq<TxOut>, vin: seq<TxIn>,
                     nNulldata: nat, suffixBits: nat)
    requires 1 <= |spending| == |claiming| && nNulldata <= 1 && |middle| == |spending| + nNulldata
    requires |spending| >= 2 ==> nNulldata == 1
    requires middle[..|spending|] == spending && SameValues(middle, vout, |spending|) && SameClaims(claiming, vin)
    ensures var n := |spending|;
            DataInTransaction(vout, vin, suffixBits) ==
              Then(Then(DataInValuesAndClaims(spending, claiming),
                        if nNulldata == 1 then DataInNulldata(middle[n]) else Some([])),
                   DataInInputs(vin, n, suffixBits))
  {
    hide DataInValuesAndClaims, DataInInputs, DataInNulldata;
    var n := |spending|;
    forall k | 0 <= k < n
      ensures vout[..n][k].nValue == spending[k].nValue
    {
      assert middle[..n][k] == middle[k];
    }
    SameSplit(vout[..n], spending, vin, claiming);
  }

  /** Everything that one transaction carries, in the order of embedding. */
  lemma CarriesThrough(b0: DataBits, d1: DataBits, b1: DataBits, d2: DataBits, b2: DataBits, d3: DataBits, b3: DataBits)
    requires Carries(b0, d1, b1) && Carries(b1, d2, b2) && Carries(b2, d3, b3)
    ensures Carries(b0, d1 + d2 + d3, b3)
  {
    CarriesOn(b0, d1, b1, d2, b2);
    CarriesOn(b0, d1 + d2, b2, d3, b3);
  }

  lemma StepIsEmbedded(setup: Setup, added: set<Script>, spending: seq<TxOut>, claiming: seq<TxIn>,
                       middle: seq<TxOut>, vout: seq<TxOut>, vin: seq<TxIn>, nNulldata: nat, amount: int)
    requires 1 <= |spending| == |claiming| <= MAX_SCRIPT_HASHES && nNulldata <= 1 && |middle| == |spending| + nNulldata
    requires middle[..|spending|] == spending && SameValues(middle, vout, |spending|) && SameClaims(claiming, vin)
    requires ClaimsEach(claiming) && (forall j :: 0 <= j < |claiming| ==> claiming[j].prevout.n < |claiming|)
    requires SumOfValues(spending) == amount == SumOfValues(middle) && (|spending| >= 2 ==> AllAbove(spending, DUST))
    requires nNulldata == 1 ==> middle[|spending|].nValue == 0 && |middle[|spending|].scriptPubKey| == 42
    requires nNulldata == 1 ==> middle[|spending|].scriptPubKey[0] == OP_RETURN
    requires Filled(setup, added, vout, vin, |vin|)
    ensures Embedded(setup, added, vout, vin, amount) && Shaped(vout, |vin|, nNulldata)
  {
    var n := |spending|;
    forall k | 0 <= k < n
      ensures vout[..n][k].nValue == spending[k].nValue
    {
      assert middle[..n][k] == middle[k];
    }
    SameSplit(vout[..n], spending, vin, claiming);
    SumSameValues(vout, middle);
    FilledIsShaped(setup, added, vout, vin, nNulldata);
  }

  // ------------------------------------------------------------ what a step carries

  /** Where the keys of the first input begin: behind values, claims and OP_RETURN data. */
  function KeysAt(n: nat, nNulldata: nat, amount: nat): (r: nat)
    requires n >= 2 ==> amount > n * DUST
  {
    ValuesRoom(n, amount) + nNulldata * NULLDATA_BITS
  }

  /** How many bits a transaction carries with `n` script hashes and the amount to split. */
  function StepRoom(setup: Setup, n: nat, nNulldata: nat, amount: nat): (r: nat)
    requires n >= 2 ==> amount > n * DUST
  {
    KeysAt(n, nNulldata, amount) + HashesRoom(setup, n)
  }

  /** Outputs for `n` script hashes with data in all five carriers, and the inputs that claim them. */
  method FillTransaction(session: Session, bits: BitQueue, n: nat, nNulldata: nat, amount: nat)
    returns (ok: bool, vout: seq<TxOut>, next: Tx)
    requires session.Ready() && 1 <= n <= MAX_SCRIPT_HASHES && nNulldata <= 1 && (n >= 2 ==> nNulldata == 1)
    requires amount < INT64 && (n >= 2 ==> amount > n * DUST)
    modifies bits, session
    ensures session.Ready() && old(session.added) <= session.added && session.store.keys == old(session.store.keys)
    ensures ok <==> InputsCanCarry(session.setup, old(bits.bits), KeysAt(n, nNulldata, amount), n)
    ensures ok ==> next == NewTx.(vin := next.vin) && |next.vin| == n
    ensures ok ==> Embedded(session.setup, session.added, vout, next.vin, amount) && Shaped(vout, n, nNulldata)
    ensures ok ==> |bits.bits| == Rest(|old(bits.bits)|, StepRoom(session.setup, n, nNulldata, amount))
    ensures ok ==> var data := DataInTransaction(vout, next.vin, session.setup.suffixBits);
                   data.Some? && Carries(old(bits.bits), data.value, bits.bits)
  {
    hide Carries, DataInInputs, DataInNulldata, DataInValuesAndClaims, Filled, Embedded, Shaped, InputsCanCarry,
         HashesRoom, ValuesRoom;
    ghost var setup, b0 := session.setup, bits.bits;
    var outs, ins := NewPairs(n);
    var spending, claiming := PackValues(session.setup, bits, outs, ins, amount);
    ghost var b1 := bits.bits;
    var middle := PackNulldata(bits, spending, nNulldata);
    ghost var b2 := bits.bits;
    ghost var d1 := DataInValuesAndClaims(spending, claiming).value;
    ghost var d2 := (if nNulldata == 1 then DataInNulldata(middle[n]) else Some([])).value;
    CarriesOn(b0, d1, b1, d2, b2);
    InputsCanCarryMoves(setup, b0, d1 + d2, b2, KeysAt(n, nNulldata, amount), n);
    ok, vout, next := PackInputs(session, bits, middle, NewTx.(vin := claiming), n);
    if !ok {
      return;
    }
    AssembleData(spending, claiming, middle, vout, next.vin, nNulldata, setup.suffixBits);
    StepIsEmbedded(setup, session.added, spending, claiming, middle, vout, next.vin, nNulldata, amount);
    CarriesThrough(b0, d1, b1, d2, b2, DataInInputs(next.vin, n, setup.suffixBits).value, bits.bits);
  }

  /** A step with these parameters goes through: the budget is large enough, and the payloads that it
      puts into keys have a draw on the curve. */
  predicate StepCan(setup: Setup, bits: DataBits, nBudget: nat, params: Parameters) {
    var n := params.nScriptHash;
    Affordable(nBudget, params.nFees, n) &&
    InputsCanCarry(setup, bits, KeysAt(n, params.nNulldata, nBudget - params.nFees), n)
  }

  lemma ChosenShape(setup: Setup, tx: Tx, nBits: nat, nBudget: nat, params: Parameters)
    requires Chosen(setup, tx, nBits, nBudget, params)
    ensures 1 <= params.nScriptHash <= MAX_SCRIPT_HASHES && params.nNulldata <= 1
    ensures params.nScriptHash >= 2 ==> params.nNulldata == 1
    ensures params.nFees ==
            TransactionFee(setup.feeRate, tx.(vout := DummyOutputs(params.nScriptHash, params.nNulldata)))
  {
    hide TransactionFee, DummyOutputs, AllSuffice, Suffices, BitsPerScriptHash;
  }

  /** The body of EmbedData's loop for data that is not empty. It goes on only if the budget is large
      enough, since otherwise the source's subtractions wrap, its assertion fails or it reads an empty
      vector, and if no payload is without a key, since otherwise it draws forever. */
  method EmbedStep(session: Session, bits: BitQueue, tx: Tx, nBudget: nat)
    returns (ok: bool, done: Tx, next: Tx, params: Parameters)
    requires session.Ready() && session.setup.randomBits <= 255 && nBudget < INT64
    requires tx.vout == [] && bits.bits != []
    modifies bits, session
    ensures session.Ready() && old(session.added) <= session.added && session.store.keys == old(session.store.keys)
    ensures Chosen(session.setup, tx, |old(bits.bits)|, nBudget, params) && params.nScriptHash >= 1
    ensures ok <==> StepCan(session.setup, old(bits.bits), nBudget, params)
    ensures ok ==> done == tx.(vout := done.vout) && params.nFees == TransactionFee(session.setup.feeRate, done)
    ensures ok ==> next == NewTx.(vin := next.vin) && |next.vin| == params.nScriptHash
    ensures ok ==> Embedded(session.setup, session.added, done.vout, next.vin, nBudget - params.nFees)
    ensures ok ==> |bits.bits| == Rest(|old(bits.bits)|,
                     StepRoom(session.setup, params.nScriptHash, params.nNulldata, nBudget - params.nFees))
    ensures ok ==> var data := DataInTransaction(done.vout, next.vin, session.setup.suffixBits);
                   data.Some? && Carries(old(bits.bits), data.value, bits.bits)
  {
    hide Carries, DataInTransaction, Embedded, Shaped, TransactionFee, DummyOutputs, InputsCanCarry, StepRoom, KeysAt,
         Chosen;
    var setup := session.setup;
    params := OptimizeParams(setup, tx, bits.bits, nBudget);
    ChosenShape(setup, tx, |bits.bits|, nBudget, params);
    var n, nNulldata := params.nScriptHash, params.nNulldata;
    ghost var tmp := tx.(vout := DummyOutputs(n, nNulldata));
    done, next := tx, NewTx;
    ok := Affordable(nBudget, params.nFees, n);
    if !ok {
      return;
    }
    var vout;
    ok, vout, next := FillTransaction(session, bits, n, nNulldata, nBudget - params.nFees);
    if !ok {
      return;
    }
    done := tx.(vout := vout);
    FeeOfShape(setup.feeRate, done, tmp, n, nNulldata);
  }

  // ------------------------------------------------------- the estimate and the step

  /** By how much the estimate of the values' capacity is too large: 546 for each output are not split. */
  function Excess(n: nat, amount: nat): (r: int)
    requires n >= 2 ==> amount > n * DUST
  {
    if n >= 2 then ValueBits(amount, n) - ValueBits(amount - n * DUST, n) else 0
  }

  /** By how much the estimate of the keys' capacity is too large: it reckons with the configured number of
      random bits, while the keys are made with five. */
  function KeyExcess(setup: Setup, n: nat): (r: int) {
    n * (EXTRA_KEYS * (KEY_RANDOM_BITS - setup.randomBits))
  }

  /** The estimate for the chosen parameters is the room of the step and what is reckoned in excess. */
  lemma EstimateIsRoom(setup: Setup, tx: Tx, nBits: nat, nBudget: nat, params: Parameters)
    requires Chosen(setup, tx, nBits, nBudget, params) && Affordable(nBudget, params.nFees, params.nScriptHash)
    ensures var n, amount := params.nScriptHash, nBudget - params.nFees;
            Capacity(setup, tx, nBits, nBudget, n) ==
              StepRoom(setup, n, params.nNulldata, amount) + Excess(n, amount) + KeyExcess(setup, n) &&
            Excess(n, amount) >= 0
  {
    hide AllSuffice, Suffices, FeesFor, ValueBits, PermutationBits;
    var n, amount := params.nScriptHash, nBudget - params.nFees;
    assert BitsPerScriptHash(setup) == HashRoom(setup) + EXTRA_KEYS * (KEY_RANDOM_BITS - setup.randomBits);
    if n >= 2 {
      ValueBitsGrow(amount - n * DUST, amount, n);
    }
  }

  /** The chosen number was thought to suffice and yet a further transaction is needed, exactly when the
      data lies between the room and the estimate. */
  lemma EstimateMisses(setup: Setup, tx: Tx, nBits: nat, nBudget: nat, params: Parameters)
    requires Chosen(setup, tx, nBits, nBudget, params) && Affordable(nBudget, params.nFees, params.nScriptHash)
    ensures var n, amount := params.nScriptHash, nBudget - params.nFees;
            var room := StepRoom(setup, n, params.nNulldata, amount);
            Suffices(setup, tx, nBits, nBudget, n) && Rest(nBits, room) > 0 <==>
            room < nBits <= room + Excess(n, amount) + KeyExcess(setup, n)
  {
    hide Chosen, Capacity, StepRoom, Excess, KeyExcess;
    ChosenShape(setup, tx, nBits, nBudget, params);
    EstimateIsRoom(setup, tx, nBits, nBudget, params);
  }

  /** No random bits configured and 2791 bits: one script hash is thought to carry them all, but one is left over. */
  lemma KeysTooLarge(setup: Setup, tx: Tx, nBudget: nat)
    requires setup.suffixBits == 8 && setup.randomBits == 0
    requires nBudget >= FeesFor(setup, tx, 2791, 1)
    ensures var params := ParametersFor(setup, tx, 2791, 1);
            Chosen(setup, tx, 2791, nBudget, params) && Suffices(setup, tx, 2791, nBudget, 1) &&
            Affordable(nBudget, params.nFees, 1) &&
            Rest(2791, StepRoom(setup, 1, params.nNulldata, nBudget - params.nFees)) == 1
  {
    hide FeesFor, SplitBits, PermutationBits;
    assert BitsPerScriptHash(setup) == 2845;
  }

  /** 1093 to split and 5911 bits: two script hashes are thought to carry them all, but nine are left over. */
  lemma EstimateTooLarge(setup: Setup, tx: Tx, nBudget: nat)
    requires setup.suffixBits == 8 && setup.randomBits == KEY_RANDOM_BITS
    requires nBudget == FeesFor(setup, tx, 5911, 2) + 1093 < INT64
    ensures var params := ParametersFor(setup, tx, 5911, 2);
            Chosen(setup, tx, 5911, nBudget, params) && Suffices(setup, tx, 5911, nBudget, 2) &&
            Affordable(nBudget, params.nFees, 2) && Rest(5911, StepRoom(setup, 2, params.nNulldata, 1093)) == 9
  {
    hide FeesFor, ValueBits, PermutationBits;
    TwoParts(1093, 10);
    TwoParts(1, 1);
    TwoInOrder();
    assert Capacity(setup, tx, 5911, nBudget, 2) == 5911;
    assert Capacity(setup, tx, 5911, nBudget, 1) < 5911;
    forall n | 2 <= n <= MAX_SCRIPT_HASHES
      ensures Suffices(setup, tx, 5911, nBudget, n)
    {
      CapacityMonotone(setup, tx, 5911, nBudget, 2, n);
    }
  }
}
