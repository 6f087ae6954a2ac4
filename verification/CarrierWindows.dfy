/** Which bits of the data each carrier of a chain holds (src/lib/bms/BlockchainInterface.cpp:441-492, 512-565). */
module CarrierWindows {
  import opened Bits
  import opened Script
  import opened Transactions
  import opened DataInterface
  import opened Carriers
  import Compositions
  import Permutations
  import Sequences

  // ---------------------------------------------------------------- places in the data

  /** From position `at` on the data reads `w`; behind its end it reads zeros. */
  ghost predicate Reads(data: DataBits, at: nat, w: DataBits) {
    Window(data, at, |w|) == w
  }

  /** The `width` bits from position `at` on write the number, most significant bit first. */
  ghost predicate ReadsNumber(data: DataBits, at: nat, width: nat, number: int) {
    FromBits(Window(data, at, width)) == number
  }

  lemma WindowParts(data: DataBits, at: nat, m: nat, n: nat)
    ensures Window(data, at, m + n) == Window(data, at, m) + Window(data, at + m, n)
  {
  }

  lemma ReadsParts(data: DataBits, at: nat, u: DataBits, v: DataBits)
    ensures Reads(data, at, u + v) <==> Reads(data, at, u) && Reads(data, at + |u|, v)
  {
    hide Window;
    WindowParts(data, at, |u|, |v|);
    SamePart(Window(data, at, |u|), u, Window(data, at + |u|, |v|), v);
  }

  lemma SamePart(a: DataBits, u: DataBits, b: DataBits, v: DataBits)
    requires |a| == |u|
    ensures a + b == u + v <==> a == u && b == v
  {
    Sequences.TakeDrop(a, b);
    Sequences.TakeDrop(u, v);
  }

  lemma ReadsWhole(data: DataBits)
    ensures Reads(data, 0, data)
  {
  }

  /** Zeros behind the data change no window. */
  lemma PaddedReads(data: DataBits, n: nat, w: DataBits)
    requires Reads(data + Zeros(n), 0, w)
    ensures Reads(data, 0, w)
  {
    assert Window(data + Zeros(n), 0, |w|) == Window(data, 0, |w|);
  }

  lemma ReadsIndex(data: DataBits, at: nat, idx: int, width: nat)
    requires FittingBits(idx, width).Some? && Reads(data, at, FittingBits(idx, width).value)
    ensures ReadsNumber(data, at, width, idx)
  {
    FromToBits(idx, width);
  }

  lemma ReadsSequenceNr(data: DataBits, at: nat, seqnr: nat)
    requires seqnr < UINT32 && Reads(data, at, ToBits(seqnr, 32))
    ensures ReadsNumber(data, at, 32, seqnr)
  {
    SequenceNrRoundTrip(ToBits(seqnr, 32), seqnr);
  }

  // ------------------------------------------------------------- one transaction

  /** The outputs that are claimed: with two or more, the last one is an OP_RETURN output. */
  function Claimable(vout: seq<TxOut>): (r: nat)
    ensures r <= |vout|
  {
    if |vout| >= 2 then |vout| - 1 else |vout|
  }

  /** The values of the first `n` outputs, less the 546 that each of them has at least. */
  function Shares(vout: seq<TxOut>, n: nat): (r: seq<nat>)
    requires n <= |vout|
    ensures |r| == n
  {
    seq(n, i requires 0 <= i < n => if vout[i].nValue < 546 then 0 else vout[i].nValue - 546)
  }

  /** The positions that the inputs claim, in 16 bits. */
  function ClaimedPositions(vin: seq<TxIn>): (r: seq<nat>)
    ensures |r| == |vin|
  {
    seq(|vin|, i requires 0 <= i < |vin| => vin[i].prevout.n % 0x10000)
  }

  /** Widths of the five carriers. */
  function ValuesWidth(vout: seq<TxOut>): (r: nat) {
    var n := Claimable(vout);
    if n < 2 then 0 else ValueBits(Compositions.Sum(Shares(vout, n)), n)
  }

  function ClaimsWidth(vout: seq<TxOut>, vin: seq<TxIn>): (r: nat) {
    if Claimable(vout) < 2 then 0 else PermutationBits(|vin|)
  }

  function NulldataWidth(vout: seq<TxOut>): (r: nat) {
    if |vout| < 2 || |vout[|vout| - 1].scriptPubKey| < 2 then 0 else 8 * (|vout[|vout| - 1].scriptPubKey| - 2)
  }

  /** The keys of the redeem script that the input pushes last. */
  function RedeemKeys(txIn: TxIn): (r: seq<Bytes>) {
    KeysIn(LastData(txIn.scriptSig, []))
  }

  function InputWidth(txIn: TxIn, suffixBits: nat): (r: nat) {
    suffixBits + (if RedeemKeys(txIn) == [] then 0 else 250 * (|RedeemKeys(txIn)| - 1)) + 32
  }

  /** The first `n` inputs. */
  function InputsWidth(vin: seq<TxIn>, n: nat, suffixBits: nat): (r: nat) {
    if n == 0 || n > |vin| then 0 else InputsWidth(vin, n - 1, suffixBits) + InputWidth(vin[n - 1], suffixBits)
  }

  /** Where the inputs begin. */
  function InputsAt(vout: seq<TxOut>, vin: seq<TxIn>): (r: nat) {
    ValuesWidth(vout) + ClaimsWidth(vout, vin) + NulldataWidth(vout)
  }

  function TransactionWidth(vout: seq<TxOut>, vin: seq<TxIn>, suffixBits: nat): (r: nat) {
    InputsAt(vout, vin) + InputsWidth(vin, Claimable(vout), suffixBits)
  }

  /** An input holds a suffix in its first key, 250 bits in each further key behind nine bits, and 32 bits in its
      sequence number. */
  ghost predicate InputHolds(data: DataBits, at: nat, txIn: TxIn, suffixBits: nat) {
    var keys := RedeemKeys(txIn);
    keys != [] && suffixBits <= 264 &&
    (forall m :: 0 <= m < |keys| ==> |keys[m]| == 33) &&
    Reads(data, at, BytesToBits(keys[0])[264 - suffixBits..]) &&
    (forall m :: 1 <= m < |keys| ==> Reads(data, at + suffixBits + 250 * (m - 1), BytesToBits(keys[m])[9..259])) &&
    ReadsNumber(data, at + suffixBits + 250 * (|keys| - 1), 32, txIn.nSequence)
  }

  /** From position `at` on the data is held, in this order, by the values of the outputs, the order of the claims,
      the bytes behind the first two of the OP_RETURN script, and the inputs. */
  ghost predicate TransactionHolds(data: DataBits, at: nat, vout: seq<TxOut>, vin: seq<TxIn>, suffixBits: nat) {
    var n := Claimable(vout);
    n <= |vin| &&
    (n >= 2 ==>
      (forall i :: 0 <= i < n ==> vout[i].nValue >= 546) &&
      ReadsNumber(data, at, ValuesWidth(vout), Compositions.Rank(Shares(vout, n))) &&
      ReadsNumber(data, at + ValuesWidth(vout), ClaimsWidth(vout, vin), Permutations.Rank(ClaimedPositions(vin)))) &&
    (|vout| >= 2 ==>
      |vout[n].scriptPubKey| >= 2 &&
      Reads(data, at + ValuesWidth(vout) + ClaimsWidth(vout, vin), BytesToBits(vout[n].scriptPubKey[2..]))) &&
    forall j :: 0 <= j < n ==>
      InputHolds(data, at + InputsAt(vout, vin) + InputsWidth(vin, j, suffixBits), vin[j], suffixBits)
  }

  // ------------------------------------------------------------------------ the chain

  /** Outputs of the first `k` transactions and the inputs that claim them. */
  function ChainWidth(txs: seq<Tx>, k: nat, suffixBits: nat): (r: nat)
    requires k < |txs| || k == 0
  {
    if k == 0 then 0 else ChainWidth(txs, k - 1, suffixBits) + TransactionWidth(txs[k - 1].vout, txs[k].vin, suffixBits)
  }

  /** The carriers of each transaction and its successor, one pair after the other, hold the data. */
  ghost predicate ChainHolds(data: DataBits, txs: seq<Tx>, suffixBits: nat) {
    forall i :: 0 <= i < |txs| - 1 ==>
      TransactionHolds(data, ChainWidth(txs, i, suffixBits), txs[i].vout, txs[i + 1].vin, suffixBits)
  }
}
