/** Chains of transactions and the data in them (src/lib/bms/BlockchainInterface.cpp:426-565). */
module Chains {
  import opened Bits
  import opened Options
  import opened Script
  import opened Transactions
  import opened Interpreter
  import opened DataInterface
  import opened Carriers
  import opened CarrierWindows
  import opened ScriptHashes
  import opened TransactionShapes
  import Compositions
  import Permutations
  import Sequences

  // ------------------------------------------------------------------ extraction

  /** The data in the first `n` inputs: public keys and sequence number of each. */
  ghost function DataInInputs(vin: seq<TxIn>, n: nat, suffixBits: nat): (r: Option<DataBits>) {
    if n == 0 then Some([])
    else if n > |vin| || vin[n - 1].nSequence >= UINT32 then None
    else Then(Then(DataInInputs(vin, n - 1, suffixBits), DataInP2SH(vin[n - 1], suffixBits)),
              Some(ToBits(vin[n - 1].nSequence, 32)))
  }

  function Nulldatas(vout: seq<TxOut>): (r: nat)
    ensures r <= |vout|
  {
    if |vout| >= 2 then 1 else 0
  }

  ghost function DataInValuesAndClaims(vout: seq<TxOut>, vin: seq<TxIn>): (r: Option<DataBits>) {
    if |vout| >= 2 then Then(DataInBudgetSplit(vout, DUST), DataInBudgetClaim(vin)) else Some([])
  }

  /** The data in a transaction's outputs and in the inputs of its successor. */
  ghost function DataInTransaction(vout: seq<TxOut>, vin: seq<TxIn>, suffixBits: nat): (r: Option<DataBits>) {
    var n := |vout| - Nulldatas(vout);
    Then(Then(DataInValuesAndClaims(vout[..n], vin),
              if n < |vout| then DataInNulldata(vout[n]) else Some([])),
         DataInInputs(vin, n, suffixBits))
  }

  ghost function DataUpTo(txs: seq<Tx>, k: nat, suffixBits: nat): (r: Option<DataBits>)
    requires k < |txs|
  {
    if k == 0 then Some([])
    else Then(DataUpTo(txs, k - 1, suffixBits), DataInTransaction(txs[k - 1].vout, txs[k].vin, suffixBits))
  }

  /** What ExtractData returns; None on chains where it reads outside a vector or its sums wrap. */
  ghost function DataInChain(txs: seq<Tx>, suffixBits: nat): (r: Option<DataBits>)
    requires txs != []
  {
    DataUpTo(txs, |txs| - 1, suffixBits)
  }

  method UnpackInputs(vin: seq<TxIn>, n: nat, suffixBits: nat) returns (bits: DataBits)
    requires DataInInputs(vin, n, suffixBits).Some?
    ensures DataInInputs(vin, n, suffixBits) == Some(bits)
  {
    hide DataInP2SH, ToBits;
    bits := [];
    for j := 0 to n
      invariant DataInInputs(vin, j, suffixBits) == Some(bits)
    {
      FewerInputs(vin, j + 1, n, suffixBits);
      OneMoreInput(vin, j, suffixBits);
      hide DataInInputs;
      var slice := UnpackDataFromP2SH(vin[j], suffixBits);
      bits := bits + slice;
      slice := UnpackDataFromSeqNr(vin[j]);
      bits := bits + slice;
    }
  }

  lemma OneMoreInput(vin: seq<TxIn>, j: nat, suffixBits: nat)
    requires DataInInputs(vin, j + 1, suffixBits).Some?
    ensures j < |vin| && vin[j].nSequence < UINT32
    ensures DataInInputs(vin, j, suffixBits).Some? && DataInP2SH(vin[j], suffixBits).Some?
    ensures DataInInputs(vin, j + 1, suffixBits).value ==
      DataInInputs(vin, j, suffixBits).value + DataInP2SH(vin[j], suffixBits).value + ToBits(vin[j].nSequence, 32)
  {
    hide DataInP2SH, ToBits;
  }

  lemma {:induction false} FewerInputs(vin: seq<TxIn>, m: nat, n: nat, suffixBits: nat)
    requires m <= n && DataInInputs(vin, n, suffixBits).Some?
    ensures DataInInputs(vin, m, suffixBits).Some? && m <= |vin|
  {
    hide DataInP2SH, ToBits;
    if m < n {
      FewerInputs(vin, m, n - 1, suffixBits);
    }
  }

  lemma {:induction false} FewerTransactions(txs: seq<Tx>, m: nat, n: nat, suffixBits: nat)
    requires m <= n < |txs| && DataUpTo(txs, n, suffixBits).Some?
    ensures DataUpTo(txs, m, suffixBits).Some?
  {
    hide DataInTransaction;
    if m < n {
      FewerTransactions(txs, m, n - 1, suffixBits);
    }
  }

  /** The body of ExtractData's loop. */
  method UnpackTransaction(vout: seq<TxOut>, vin: seq<TxIn>, suffixBits: nat) returns (bits: DataBits)
    requires DataInTransaction(vout, vin, suffixBits).Some?
    ensures DataInTransaction(vout, vin, suffixBits) == Some(bits)
  {
    hide DataInBudgetSplit, DataInBudgetClaim, DataInInputs, DataInNulldata;
    var nNulldata := if |vout| >= 2 then 1 else 0;
    var nScriptHash := |vout| - nNulldata;
    var spendable := vout;
    if nNulldata == 1 {
      spendable := vout[..|vout| - 1];
    }
    assert spendable == vout[..nScriptHash];
    var slice := [];
    bits := [];
    if nScriptHash >= 2 {
      slice := UnpackDataFromBudgetSplit(spendable, DUST);
      bits := bits + slice;
      Sequences.NothingAround(slice);
      slice := UnpackDataFromBudgetClaim(vin);
      bits := bits + slice;
    }
    assert DataInValuesAndClaims(spendable, vin) == Some(bits);
    Sequences.NothingAround(bits);
    if nNulldata == 1 {
      slice := UnpackDataFromNulldata(vout[|vout| - 1]);
      bits := bits + slice;
    }
    slice := UnpackInputs(vin, nScriptHash, suffixBits);
    bits := bits + slice;
  }

  method ExtractData(txs: seq<Tx>, suffixBits: nat) returns (bits: DataBits)
    requires txs != [] && DataInChain(txs, suffixBits).Some?
    ensures DataInChain(txs, suffixBits) == Some(bits)
    ensures |bits| == ChainWidth(txs, |txs| - 1, suffixBits) && ChainHolds(bits, txs, suffixBits)
  {
    hide DataInTransaction, ChainHolds, ChainWidth;
    ChainInPlace(txs, suffixBits);
    bits := [];
    for idx := 0 to |txs| - 1
      invariant DataUpTo(txs, idx, suffixBits) == Some(bits)
    {
      FewerTransactions(txs, idx + 1, |txs| - 1, suffixBits);
      var slice := UnpackTransaction(txs[idx].vout, txs[idx + 1].vin, suffixBits);
      bits := bits + slice;
    }
  }

  // ------------------------------------------------------------ each carrier in place

  lemma {:induction false} KeysAreCompressed(s: Script)
    ensures forall m :: 0 <= m < |KeysIn(s)| ==> |KeysIn(s)[m]| == 33
    decreases |s|
  {
    if s != [] && GetOp(s).Fetched? {
      KeysAreCompressed(GetOp(s).rest);
    }
  }

  lemma {:induction false} KeysHold(data: DataBits, at: nat, keys: seq<Bytes>)
    requires DataInKeys(keys).Some? && Reads(data, at, DataInKeys(keys).value)
    requires forall m :: 0 <= m < |keys| ==> |keys[m]| == 33
    ensures |DataInKeys(keys).value| == 250 * |keys|
    ensures forall m :: 0 <= m < |keys| ==> Reads(data, at + 250 * m, BytesToBits(keys[m])[9..259])
  {
    hide BytesToBits, Reads;
    if keys != [] {
      var init, last := keys[..|keys| - 1], keys[|keys| - 1];
      var u, v := DataInKeys(init).value, DataInPubkey(PubKey(last), KEY_RANDOM_BITS).value;
      ReadsParts(data, at, u, v);
      KeysHold(data, at, init);
      forall m | 0 <= m < |keys|
        ensures Reads(data, at + 250 * m, BytesToBits(keys[m])[9..259])
      {
        if m < |init| {
          assert init[m] == keys[m];
        }
      }
    }
  }

  lemma InputInPlace(data: DataBits, at: nat, txIn: TxIn, suffixBits: nat, w: DataBits)
    requires DataInP2SH(txIn, suffixBits) == Some(w) && txIn.nSequence < UINT32
    requires Reads(data, at, w + ToBits(txIn.nSequence, 32))
    ensures |w| + 32 == InputWidth(txIn, suffixBits)
    ensures InputHolds(data, at, txIn, suffixBits)
  {
    hide BytesToBits, Reads, LastData, KeysIn, ToBits;
    var keys := RedeemKeys(txIn);
    KeysAreCompressed(LastData(txIn.scriptSig, []));
    var u, v := Suffix(keys[0], suffixBits).value, DataInKeys(keys[1..]).value;
    ReadsParts(data, at, w, ToBits(txIn.nSequence, 32));
    ReadsParts(data, at, u, v);
    KeysHold(data, at + |u|, keys[1..]);
    FirstKeyWidth(keys[0], suffixBits);
    forall m | 1 <= m < |keys|
      ensures Reads(data, at + suffixBits + 250 * (m - 1), BytesToBits(keys[m])[9..259])
    {
      assert keys[1..][m - 1] == keys[m];
    }
    ReadsSequenceNr(data, at + |w|, txIn.nSequence);
  }

  lemma FirstKeyWidth(key: Bytes, suffixBits: nat)
    requires |key| == 33 && Suffix(key, suffixBits).Some?
    ensures suffixBits <= 264 && |Suffix(key, suffixBits).value| == suffixBits
    ensures Suffix(key, suffixBits).value == BytesToBits(key)[264 - suffixBits..]
  {
  }

  lemma {:induction false} InputsInPlace(data: DataBits, at: nat, vin: seq<TxIn>, n: nat, suffixBits: nat)
    requires DataInInputs(vin, n, suffixBits).Some? && Reads(data, at, DataInInputs(vin, n, suffixBits).value)
    ensures n <= |vin| && |DataInInputs(vin, n, suffixBits).value| == InputsWidth(vin, n, suffixBits)
    ensures forall j :: 0 <= j < n ==> InputHolds(data, at + InputsWidth(vin, j, suffixBits), vin[j], suffixBits)
  {
    hide InputHolds, DataInP2SH, Reads, InputWidth, ToBits, RedeemKeys;
    if n > 0 {
      OneMoreInput(vin, n - 1, suffixBits);
      var u, v, w := DataInInputs(vin, n - 1, suffixBits).value, DataInP2SH(vin[n - 1], suffixBits).value,
                     ToBits(vin[n - 1].nSequence, 32);
      Sequences.Assoc(u, v, w);
      ReadsParts(data, at, u, v + w);
      InputsInPlace(data, at, vin, n - 1, suffixBits);
      InputInPlace(data, at + |u|, vin[n - 1], suffixBits, v);
    }
  }

  lemma ValuesInPlace(data: DataBits, at: nat, vout: seq<TxOut>, n: nat, w: DataBits)
    requires 2 <= n == Claimable(vout) && DataInBudgetSplit(vout[..n], DUST) == Some(w) && Reads(data, at, w)
    ensures |w| == ValuesWidth(vout) && ReadsNumber(data, at, |w|, Compositions.Rank(Shares(vout, n)))
    ensures forall i :: 0 <= i < n ==> vout[i].nValue >= 546
  {
    hide ValueBits, Reads, ReadsNumber;
    var values := ValuesAbove(vout[..n], DUST);
    forall i | 0 <= i < n
      ensures vout[i].nValue >= 546 && values[i] == vout[i].nValue - 546
    {
      assert vout[..n][i] == vout[i];
    }
    assert values == Shares(vout, n);
    ReadsIndex(data, at, Compositions.Rank(values), ValueBits(Compositions.Sum(values), n));
  }

  lemma ClaimsInPlace(data: DataBits, at: nat, vout: seq<TxOut>, vin: seq<TxIn>, w: DataBits)
    requires 2 <= Claimable(vout) && DataInBudgetClaim(vin) == Some(w) && Reads(data, at, w)
    ensures |w| == ClaimsWidth(vout, vin) && ReadsNumber(data, at, |w|, Permutations.Rank(ClaimedPositions(vin)))
  {
    hide PermutationBits, Reads, ReadsNumber;
    assert Claimed(vin) == ClaimedPositions(vin);
    ReadsIndex(data, at, Permutations.Rank(ClaimedPositions(vin)), PermutationBits(|vin|));
  }

  /** The data in a transaction, wherever it stands, is held by these carriers in this order. */
  lemma TransactionInPlace(data: DataBits, at: nat, vout: seq<TxOut>, vin: seq<TxIn>, suffixBits: nat)
    requires DataInTransaction(vout, vin, suffixBits).Some?
    requires Reads(data, at, DataInTransaction(vout, vin, suffixBits).value)
    ensures TransactionHolds(data, at, vout, vin, suffixBits)
    ensures |DataInTransaction(vout, vin, suffixBits).value| == TransactionWidth(vout, vin, suffixBits)
  {
    hide Reads, ReadsNumber, InputHolds, DataInBudgetSplit, DataInBudgetClaim, DataInInputs, ValueBits, PermutationBits,
         Compositions.Rank, Permutations.Rank, InputsWidth, BytesToBits;
    var n := Claimable(vout);
    var values, bytes, inputs := DataInValuesAndClaims(vout[..n], vin).value,
                                 (if n < |vout| then DataInNulldata(vout[n]) else Some([])).value,
                                 DataInInputs(vin, n, suffixBits).value;
    ReadsParts(data, at, values + bytes, inputs);
    ReadsParts(data, at, values, bytes);
    InputsInPlace(data, at + |values + bytes|, vin, n, suffixBits);
    if n >= 2 {
      var split, claims := DataInBudgetSplit(vout[..n], DUST).value, DataInBudgetClaim(vin).value;
      ReadsParts(data, at, split, claims);
      ValuesInPlace(data, at, vout, n, split);
      ClaimsInPlace(data, at + |split|, vout, vin, claims);
    }
  }

  lemma {:induction false} UpToInPlace(data: DataBits, txs: seq<Tx>, k: nat, suffixBits: nat)
    requires k < |txs| && DataUpTo(txs, k, suffixBits).Some? && Reads(data, 0, DataUpTo(txs, k, suffixBits).value)
    ensures |DataUpTo(txs, k, suffixBits).value| == ChainWidth(txs, k, suffixBits)
    ensures forall i :: 0 <= i < k ==>
      TransactionHolds(data, ChainWidth(txs, i, suffixBits), txs[i].vout, txs[i + 1].vin, suffixBits)
  {
    hide Reads, TransactionHolds, DataInTransaction, TransactionWidth;
    if k > 0 {
      var vout, vin := txs[k - 1].vout, txs[k].vin;
      var u, v := DataUpTo(txs, k - 1, suffixBits).value, DataInTransaction(vout, vin, suffixBits).value;
      ReadsParts(data, 0, u, v);
      UpToInPlace(data, txs, k - 1, suffixBits);
      TransactionInPlace(data, |u|, vout, vin, suffixBits);
    }
  }

  /** What is found in a chain is what its carriers hold, from the first bit to the last. */
  lemma ChainInPlace(txs: seq<Tx>, suffixBits: nat)
    requires txs != [] && DataInChain(txs, suffixBits).Some?
    ensures |DataInChain(txs, suffixBits).value| == ChainWidth(txs, |txs| - 1, suffixBits)
    ensures ChainHolds(DataInChain(txs, suffixBits).value, txs, suffixBits)
  {
    hide TransactionHolds, Reads;
    ReadsWhole(DataInChain(txs, suffixBits).value);
    UpToInPlace(DataInChain(txs, suffixBits).value, txs, |txs| - 1, suffixBits);
  }

  /** Data that is followed by zeros in a chain is what its carriers hold. */
  lemma PaddedInPlace(data: DataBits, n: nat, txs: seq<Tx>, suffixBits: nat)
    requires txs != [] && DataInChain(txs, suffixBits) == Some(data + Zeros(n))
    ensures ChainHolds(data, txs, suffixBits)
  {
    hide TransactionHolds, Reads;
    var found := data + Zeros(n);
    ReadsWhole(found);
    PaddedReads(data, n, found);
    UpToInPlace(data, txs, |txs| - 1, suffixBits);
  }

  // ------------------------------------------------------- what holds along a chain

  ghost predicate RedeemedBy(setup: Setup, added: set<Script>, txIn: TxIn, txOut: TxOut) {
    exists keys: seq<Bytes> :: Redeems(setup, txIn, txOut.scriptPubKey, keys) && Multisig(1, keys) in added
  }

  /** The inputs claim every spendable output of the previous transaction exactly once, and nothing else. */
  ghost predicate Linked(setup: Setup, added: set<Script>, vout: seq<TxOut>, vin: seq<TxIn>) {
    |vin| <= |vout| <= |vin| + 1 && (vin == [] ==> vout == []) && |vin| <= MAX_SCRIPT_HASHES && ClaimsEach(vin) &&
    forall j :: 0 <= j < |vin| ==>
      vin[j].prevout.n < |vin| && RedeemedBy(setup, added, vin[j], vout[vin[j].prevout.n])
  }

  /** The outputs spend the amount; several spendable ones get at least 546 each, and an OP_RETURN output nothing. */
  ghost predicate Spends(vout: seq<TxOut>, n: nat, amount: int) {
    n <= |vout| <= n + 1 && SumOfValues(vout) == amount &&
    (n >= 2 ==> AllAbove(vout[..n], DUST)) &&
    (|vout| > n ==> vout[n].nValue == 0 && vout[n].scriptPubKey != [] && vout[n].scriptPubKey[0] == OP_RETURN)
  }

  ghost predicate SmallInputs(vin: seq<TxIn>) {
    forall j :: 0 <= j < |vin| ==> |vin[j].scriptSig| <= MAX_SIGNATURE_SCRIPT
  }
}
