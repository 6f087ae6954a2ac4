/** Data in the public keys of pay-to-script-hash redeem scripts
    (src/lib/bms/BlockchainInterface.cpp:124-214, src/lib/bms/Utilities.cpp:31-33). */
module ScriptHashes {
  import opened Bits
  import opened Options
  import opened Script
  import opened Transactions
  import opened Signatures
  import opened Interpreter
  import opened Signing
  import opened SigningFacts
  import opened DataInterface
  import opened Carriers
  import Sequences

  /** The configuration, and what lies outside this model: hashes, the signature scheme, the curve
      and the floating-point root. */
  datatype Setup = Setup(
    crypto: Crypto,
    signer: Signer,
    onCurve: Bytes -> bool,
    estimate: (int, nat) -> nat,
    keyMap: map<DataBits, Key>,
    suffixBits: nat,
    randomBits: nat,
    feeRate: nat)

  const KEY_BITS := 250
  const KEY_RANDOM_BITS := 5
  const EXTRA_KEYS := 11

  // ------------------------------------------------------------- reading the keys

  /** The data in keys after the first, whose suffixes are random. */
  ghost function DataInKeys(keys: seq<Bytes>): (r: Option<DataBits>) {
    if keys == [] then Some([])
    else Then(DataInKeys(keys[..|keys| - 1]), DataInPubkey(PubKey(keys[|keys| - 1]), KEY_RANDOM_BITS))
  }

  /** Both parts one after the other. */
  function Then(a: Option<DataBits>, b: Option<DataBits>): (r: Option<DataBits>) {
    if a.Some? && b.Some? then Some(a.value + b.value) else None
  }

  /** The last `n` bits of a key. */
  function Suffix(key: Bytes, n: nat): (r: Option<DataBits>) {
    var buf := BytesToBits(PubKey(key));
    if |buf| < n then None else Some(buf[|buf| - n..])
  }

  ghost function DataInRedeem(keys: seq<Bytes>, suffixBits: nat): (r: Option<DataBits>) {
    if keys == [] then None else Then(Suffix(keys[0], suffixBits), DataInKeys(keys[1..]))
  }

  /** UnpackDataFromP2SH: the keys of the script that is pushed last. */
  ghost function DataInP2SH(txIn: TxIn, suffixBits: nat): (r: Option<DataBits>) {
    DataInRedeem(KeysIn(LastData(txIn.scriptSig, [])), suffixBits)
  }

  /** The loop that ends with the data of the last instruction. */
  method LastPush(script: Script) returns (scriptData: Bytes)
    ensures scriptData == LastData(script, [])
  {
    var rest, more := script, true;
    scriptData := [];
    while rest != [] && more
      invariant LastData(script, []) == if more then LastData(rest, scriptData) else scriptData
      decreases more, |rest|
    {
      var f := GetOp(rest);
      more := f.Fetched?;
      rest := f.rest;
      scriptData := if more then f.op.data else [];
    }
  }

  method UnpackDataFromP2SH(txIn: TxIn, suffixBits: nat) returns (bits: DataBits)
    requires DataInP2SH(txIn, suffixBits).Some?
    ensures DataInP2SH(txIn, suffixBits) == Some(bits)
  {
    var scriptData := LastPush(txIn.scriptSig);
    var pubkeys := FindKeys(scriptData);
    assert DataInRedeem(pubkeys, suffixBits).Some?;
    hide LastData, KeysIn, BytesToBits, DataInKeys;
    var buf := DataToBits(PubKey(pubkeys[0]));
    bits := buf[|buf| - suffixBits..];
    var rest := UnpackKeys(pubkeys[1..]);
    bits := bits + rest;
  }

  method UnpackKeys(pubkeys: seq<Bytes>) returns (bits: DataBits)
    requires DataInKeys(pubkeys).Some?
    ensures DataInKeys(pubkeys) == Some(bits)
  {
    bits := [];
    for i := 0 to |pubkeys|
      invariant DataInKeys(pubkeys[..i]) == Some(bits)
    {
      assert pubkeys[..i + 1][..i] == pubkeys[..i];
      PrefixIsReadable(pubkeys, i + 1);
      var slice := DecodeDataInPubkey(PubKey(pubkeys[i]), KEY_RANDOM_BITS);
      bits := bits + slice;
    }
    assert pubkeys[..|pubkeys|] == pubkeys;
  }

  lemma {:induction false} PrefixIsReadable(keys: seq<Bytes>, n: nat)
    requires n <= |keys| && DataInKeys(keys).Some?
    ensures DataInKeys(keys[..n]).Some?
    decreases |keys|
  {
    if n == |keys| {
      assert keys[..n] == keys;
    } else {
      PrefixIsReadable(keys[..|keys| - 1], n);
      assert keys[..|keys| - 1][..n] == keys[..n];
    }
  }

  /** The loop that collects the 33-byte operands. */
  method FindKeys(script: Script) returns (keys: seq<Bytes>)
    ensures keys == KeysIn(script)
  {
    keys := [];
    var rest, more := script, true;
    while rest != [] && more
      invariant KeysIn(script) == if more then keys + KeysIn(rest) else keys
      decreases more, |rest|
    {
      var f := GetOp(rest);
      more := f.Fetched?;
      if more && |f.op.data| == 33 {
        Sequences.Assoc(keys, [f.op.data], KeysIn(f.rest));
        keys := keys + [f.op.data];
      }
      rest := f.rest;
    }
  }

  // ------------------------------------------------------------- the global state

  /** The key for a suffix: compressed, ending in the suffix, in the key store and able to sign. */
  ghost predicate KeyFor(setup: Setup, store: KeyStore, suffix: DataBits) {
    suffix in setup.keyMap &&
    var key := setup.keyMap[suffix].pub;
    CompressedKeys([key]) && Suffix(key, setup.suffixBits) == Some(suffix) &&
    CanSign(setup.crypto, setup.signer, store, key)
  }

  /** What embedding relies on: a key for every suffix, and 20-byte script hashes. */
  ghost predicate Provided(setup: Setup, store: KeyStore) {
    (forall suffix: DataBits :: |suffix| == setup.suffixBits ==> KeyFor(setup, store, suffix)) && HashSizes(setup.crypto)
  }

  ghost predicate HashSizes(crypto: Crypto) {
    forall b: Bytes :: |crypto.hash160(b)| == 20
  }

  /** No other script in the set has the same hash. */
  ghost predicate NoCollision(crypto: Crypto, script: Script, scripts: set<Script>) {
    forall s :: s in scripts && crypto.hash160(s) == crypto.hash160(script) ==> s == script
  }

  ghost predicate StoresAll(crypto: Crypto, store: KeyStore, added: set<Script>) {
    forall s :: s in added && NoCollision(crypto, s, added) ==> Stored(crypto, store, s)
  }

  /** Utilities::Store and the configuration it goes with. */
  class Session {
    const setup: Setup
    var store: KeyStore
    /** The redeem scripts added so far. */
    ghost var added: set<Script>

    ghost predicate Valid()
      reads this
    {
      HashSizes(setup.crypto) && StoresAll(setup.crypto, store, added)
    }

    ghost predicate Ready()
      reads this
    {
      Valid() && Provided(setup, store)
    }

    constructor (setup: Setup, store: KeyStore)
      requires HashSizes(setup.crypto)
      ensures Valid() && this.setup == setup && this.store == store && added == {}
      ensures Ready() <==> Provided(setup, store)
    {
      this.setup := setup;
      this.store := store;
      added := {};
    }

    /** AddCScript: a script with the same hash is replaced. */
    method AddCScript(redeemScript: Script)
      requires Valid()
      modifies this
      ensures Valid() && (old(Ready()) ==> Ready()) && added == old(added) + {redeemScript}
      ensures Stored(setup.crypto, store, redeemScript) && store.keys == old(store.keys)
    {
      hide KeyFor;
      ghost var before, scripts := store, added;
      store := store.(scripts := store.scripts[setup.crypto.hash160(redeemScript) := redeemScript]);
      added := added + {redeemScript};
      if Provided(setup, before) {
        KeysStay(setup, before, store);
      }
      forall s | s in added && NoCollision(setup.crypto, s, added)
        ensures Stored(setup.crypto, store, s)
      {
        if s != redeemScript {
          assert NoCollision(setup.crypto, s, scripts);
          assert redeemScript in added;
        }
      }
    }
  }

  lemma KeysStay(setup: Setup, before: KeyStore, store: KeyStore)
    requires Provided(setup, before) && store.keys == before.keys
    ensures Provided(setup, store)
  {
    forall suffix: DataBits | |suffix| == setup.suffixBits
      ensures KeyFor(setup, store, suffix)
    {
      assert KeyFor(setup, before, suffix);
    }
  }

  // ---------------------------------------------------------------------- packing

  /** One of the keys of the key map. */
  ghost predicate OwnKey(setup: Setup, key: Bytes) {
    exists suffix: DataBits :: |suffix| == setup.suffixBits && suffix in setup.keyMap && setup.keyMap[suffix].pub == key
  }

  lemma OwnKeyCanSign(setup: Setup, store: KeyStore, key: Bytes)
    requires Provided(setup, store) && OwnKey(setup, key)
    ensures CanSign(setup.crypto, setup.signer, store, key)
  {
    var suffix: DataBits :| |suffix| == setup.suffixBits && suffix in setup.keyMap && setup.keyMap[suffix].pub == key;
    assert KeyFor(setup, store, suffix);
  }

  /** An input that can claim an output: the redeem script is pushed last, the output pays to its
      hash, and the first of its keys is an own one. */
  ghost predicate Redeems(setup: Setup, txIn: TxIn, scriptPubKey: Script, keys: seq<Bytes>) {
    Redeemable(keys) && OwnKey(setup, keys[0]) &&
    LastData(txIn.scriptSig, []) == Multisig(1, keys) &&
    |setup.crypto.hash160(Multisig(1, keys))| == 20 &&
    scriptPubKey == PayToScriptHash(setup.crypto.hash160(Multisig(1, keys)))
  }

  /** A signature, a dummy and a redeem script of at most 411 bytes. */
  const MAX_SIGNATURE_SCRIPT := 489

  /** The first key carries the suffix. */
  method FirstKey(session: Session, bits: BitQueue) returns (key: Bytes)
    requires session.Ready()
    modifies bits
    ensures CompressedKeys([key]) && OwnKey(session.setup, key)
    ensures var data := Suffix(key, session.setup.suffixBits);
            data.Some? && Carries(old(bits.bits), data.value, bits.bits)
    ensures |bits.bits| == Rest(|old(bits.bits)|, session.setup.suffixBits)
  {
    var slice := CutOut(bits, session.setup.suffixBits);
    assert KeyFor(session.setup, session.store, slice);
    key := session.setup.keyMap[slice].pub;
  }

  /** Of the payloads of one script that begin at position `at` of the data, each has a draw on the curve. */
  predicate KeysCanCarry(onCurve: Bytes -> bool, bits: DataBits, at: nat) {
    forall j :: 0 <= j < EXTRA_KEYS && at + j * KEY_BITS < |bits| ==>
      SomeDrawIsValid(onCurve, Window(bits, at + j * KEY_BITS, KEY_BITS), KEY_RANDOM_BITS)
  }

  /** The condition on what is left says the same of the data from which it is left. */
  lemma CanCarryMoves(onCurve: Bytes -> bool, before: DataBits, slice: DataBits, after: DataBits, taken: nat, at: nat)
    requires Carries(before, slice, after) && |after| == Rest(|before|, taken)
    ensures KeysCanCarry(onCurve, after, at) <==> KeysCanCarry(onCurve, before, taken + at)
  {
    hide Carries, SomeDrawIsValid, Window;
    forall j | 0 <= j < EXTRA_KEYS
      ensures at + j * KEY_BITS < |after| <==> taken + at + j * KEY_BITS < |before|
      ensures at + j * KEY_BITS < |after| ==>
        Window(after, at + j * KEY_BITS, KEY_BITS) == Window(before, taken + at + j * KEY_BITS, KEY_BITS)
    {
      WindowMoves(before, slice, after, at + j * KEY_BITS, KEY_BITS);
    }
  }

  /** The first `n` payloads have a draw on the curve. */
  ghost predicate PayloadsCarry(onCurve: Bytes -> bool, bits: DataBits, n: nat) {
    forall j :: 0 <= j < n ==> SomeDrawIsValid(onCurve, Window(bits, j * KEY_BITS, KEY_BITS), KEY_RANDOM_BITS)
  }

  lemma PayloadsOfKeys(onCurve: Bytes -> bool, bits: DataBits, n: nat)
    requires n <= EXTRA_KEYS && |bits| <= n * KEY_BITS + (if n < EXTRA_KEYS then 0 else |bits|)
    requires n > 0 ==> (n - 1) * KEY_BITS < |bits|
    ensures PayloadsCarry(onCurve, bits, 0)
    ensures PayloadsCarry(onCurve, bits, n) <==> KeysCanCarry(onCurve, bits, 0)
    ensures forall i :: 0 < i <= n && !PayloadsCarry(onCurve, bits, i) ==> !KeysCanCarry(onCurve, bits, 0)
  {
    hide SomeDrawIsValid, Window;
  }

  /** The payload cut out next. */
  lemma NextPayload(onCurve: Bytes -> bool, start: DataBits, sent: DataBits, bits: DataBits, slice: DataBits, i: nat)
    requires Carries(start, sent, bits) && |bits| == Rest(|start|, i * KEY_BITS) && i * KEY_BITS < |start|
    requires slice == Window(bits, 0, KEY_BITS) && PayloadsCarry(onCurve, start, i)
    ensures PayloadsCarry(onCurve, start, i + 1) <==> SomeDrawIsValid(onCurve, slice, KEY_RANDOM_BITS)
  {
    hide SomeDrawIsValid, Window, Carries;
    WindowMoves(start, sent, bits, 0, KEY_BITS);
  }

  /** The other keys carry 250 bits each, as far as there is data; None where a payload has no key. */
  method ExtraKeys(session: Session, bits: BitQueue) returns (result: Option<seq<Bytes>>)
    modifies bits
    ensures result.Some? <==> KeysCanCarry(session.setup.onCurve, old(bits.bits), 0)
    ensures result.Some? ==> CompressedKeys(result.value) && |result.value| <= EXTRA_KEYS
    ensures result.Some? ==>
      var data := DataInKeys(result.value);
      data.Some? && Carries(old(bits.bits), data.value, bits.bits)
    ensures result.Some? ==> |bits.bits| == Rest(|old(bits.bits)|, EXTRA_KEYS * KEY_BITS)
  {
    ghost var start := bits.bits;
    var onCurve := session.setup.onCurve;
    var groups := (|bits.bits| + KEY_BITS - 1) / KEY_BITS;
    var nExtraKeys := if groups < EXTRA_KEYS then groups else EXTRA_KEYS;
    var keys: seq<Bytes> := [];
    CarriesNothing(bits.bits);
    assert DataInKeys([]) == Some([]) && CompressedKeys([]);
    PayloadsOfKeys(onCurve, start, nExtraKeys);
    hide Carries, BytesToBits, SomeDrawIsValid, DataInKeys, CompressedKeys, Zeros, Window, KeysCanCarry, PayloadsCarry;
    for i := 0 to nExtraKeys
      invariant |keys| == i && CompressedKeys(keys)
      invariant DataInKeys(keys).Some? && Carries(start, DataInKeys(keys).value, bits.bits)
      invariant |bits.bits| == Rest(|start|, i * KEY_BITS)
      invariant PayloadsCarry(onCurve, start, i)
    {
      ghost var sent, before := DataInKeys(keys).value, bits.bits;
      var slice := CutOut(bits, KEY_BITS);
      var key := EncodeDataInPubkey(slice, KEY_RANDOM_BITS, onCurve);
      NextPayload(onCurve, start, sent, before, slice, i);
      if key.None? {
        return None;
      }
      CarriesOn(start, sent, before, slice, bits.bits);
      KeyAdded(keys, key.value, sent, slice);
      keys := keys + [key.value];
    }
    result := Some(keys);
  }

  lemma KeyAdded(keys: seq<Bytes>, key: Bytes, sent: DataBits, slice: DataBits)
    requires CompressedKeys(keys) && |key| == 33 && key[0] == 2
    requires DataInKeys(keys) == Some(sent) && DataInPubkey(key, KEY_RANDOM_BITS) == Some(slice)
    ensures CompressedKeys(keys + [key]) && DataInKeys(keys + [key]) == Some(sent + slice)
  {
    assert (keys + [key])[..|keys|] == keys;
    assert PubKey(key) == key;
  }

  /** It fails where a payload has no key. */
  method PackDataIntoP2SH(session: Session, bits: BitQueue, txOut: TxOut, tx: Tx, nInput: nat)
    returns (ok: bool, packed: TxOut, signed: Tx, ghost keys: seq<Bytes>)
    requires session.Ready() && nInput < |tx.vin|
    modifies bits, session
    ensures session.Ready() && old(session.added) <= session.added && session.store.keys == old(session.store.keys)
    ensures ok <==> KeysCanCarry(session.setup.onCurve, old(bits.bits), session.setup.suffixBits)
    ensures ok ==> packed == txOut.(scriptPubKey := packed.scriptPubKey)
    ensures ok ==> |signed.vin| == |tx.vin| && signed == WithSig(tx, nInput, signed.vin[nInput].scriptSig)
    ensures ok ==> |signed.vin[nInput].scriptSig| <= MAX_SIGNATURE_SCRIPT
    ensures ok ==> Redeems(session.setup, signed.vin[nInput], packed.scriptPubKey, keys) && Multisig(1, keys) in session.added
    ensures ok ==> var data := DataInP2SH(signed.vin[nInput], session.setup.suffixBits);
                   data.Some? && Carries(old(bits.bits), data.value, bits.bits)
    ensures ok ==> |bits.bits| == Rest(|old(bits.bits)|, session.setup.suffixBits + EXTRA_KEYS * KEY_BITS)
  {
    hide Carries, SignSignature, FirstSignature, SignatureHash, LastData, KeysIn, PushKeys, BytesToBits, KeysCanCarry;
    var setup := session.setup;
    ghost var start := bits.bits;
    packed, signed, keys := txOut, tx, [];
    var first := FirstKey(session, bits);
    ghost var middle := bits.bits;
    CanCarryMoves(setup.onCurve, start, Suffix(first, setup.suffixBits).value, middle, setup.suffixBits, 0);
    var rest := ExtraKeys(session, bits);
    ok := rest.Some?;
    if !ok {
      return;
    }
    var pubkeys := [first] + rest.value;
    keys := pubkeys;
    CarriesOn(start, Suffix(first, setup.suffixBits).value, middle, DataInKeys(rest.value).value, bits.bits);
    ConsRedeemable(first, rest.value);
    var multisigAddress := Multisig(1, pubkeys);
    session.AddCScript(multisigAddress);
    packed := txOut.(scriptPubKey := PayToScriptHash(setup.crypto.hash160(multisigAddress)));
    OwnKeyCanSign(setup, session.store, first);
    SignSucceeds(setup.crypto, setup.signer, session.store, pubkeys, tx, nInput);
    var result := SignSignature(setup.crypto, setup.signer, session.store, packed.scriptPubKey, tx, nInput, SIGHASH_ALL);
    signed := result.value;
    SignedCarries(setup, session.store, pubkeys, tx, nInput, signed);
  }

  lemma ConsRedeemable(first: Bytes, rest: seq<Bytes>)
    requires CompressedKeys([first]) && CompressedKeys(rest) && |rest| <= EXTRA_KEYS
    ensures Redeemable([first] + rest) && ([first] + rest)[1..] == rest && ([first] + rest)[0] == first
  {
    assert [first][0] == first;
  }

  /** What SignSignature leaves in the input gives the keys back. */
  lemma SignedCarries(setup: Setup, store: KeyStore, keys: seq<Bytes>, tx: Tx, nInput: nat, signed: Tx)
    requires nInput < |tx.vin| && |signed.vin| == |tx.vin|
    requires Redeemable(keys) && CanSign(setup.crypto, setup.signer, store, keys[0])
    requires Stored(setup.crypto, store, Multisig(1, keys))
    requires SignSignature(setup.crypto, setup.signer, store, PayToScriptHash(setup.crypto.hash160(Multisig(1, keys))),
                           tx, nInput, SIGHASH_ALL) == Some(signed)
    ensures signed == WithSig(tx, nInput, signed.vin[nInput].scriptSig)
    ensures LastData(signed.vin[nInput].scriptSig, []) == Multisig(1, keys)
    ensures KeysIn(Multisig(1, keys)) == keys
    ensures |signed.vin[nInput].scriptSig| <= MAX_SIGNATURE_SCRIPT
  {
    hide SignSignature, FirstSignature, SignatureHash, KeysIn, LastData, IsPushOnly, IsCanonicalSignature, PushKeys;
    SignSucceeds(setup.crypto, setup.signer, store, keys, tx, nInput);
    var redeem := Multisig(1, keys);
    var sig := FirstSignature(setup.crypto, setup.signer, store, keys[0],
                              SignatureHash(setup.crypto, redeem, tx, nInput, SIGHASH_ALL));
    RedeemLength(keys);
    SignatureScriptIsPushOnly(sig, redeem);
    LastDataPush([OP_0] + Push(sig), redeem, []);
    KeysInMultisig(1, keys);
    PushLength(sig);
    PushLength(redeem);
  }

  lemma PushLength(b: Bytes)
    requires |b| <= MAX_ELEMENT_SIZE
    ensures |Push(b)| <= |b| + 3 && (|b| < OP_PUSHDATA1 ==> |Push(b)| == |b| + 1)
  {
  }
}
