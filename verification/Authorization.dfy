/** Signing a chain of transactions (src/lib/bms/BlockchainInterface.cpp:572-610). */
module Authorization {
  import opened Bits
  import opened Options
  import opened Script
  import opened Transactions
  import opened Signatures
  import opened Interpreter
  import opened InterpreterRuns
  import opened Signing
  import opened SigningFacts
  import opened VerifySoundness
  import opened Carriers
  import opened ScriptHashes
  import opened Chains
  import opened Embedding

  /** CTransaction::GetHash. */
  function TxHash(crypto: Crypto, t: Tx): (r: Bytes) {
    crypto.hash256(WriteTx(t))
  }

  /** Every claimed position exists in the previous transaction. */
  predicate ClaimsExist(from: Tx, t: Tx) {
    forall j :: 0 <= j < |t.vin| ==> t.vin[j].prevout.n < |from.vout|
  }

  ghost predicate NamesHash(t: Tx, hash: Bytes) {
    forall j :: 0 <= j < |t.vin| ==> t.vin[j].prevout.hash == hash
  }

  /** Input `j` satisfies the output that it claims. */
  ghost predicate InputVerifies(crypto: Crypto, from: Tx, t: Tx, j: nat)
    requires j < |t.vin|
  {
    t.vin[j].prevout.n < |from.vout| &&
    Verify(SignContext(crypto, t, j), t.vin[j].scriptSig, from.vout[t.vin[j].prevout.n].scriptPubKey)
  }

  ghost predicate InputsVerify(crypto: Crypto, from: Tx, t: Tx, n: nat)
    requires n <= |t.vin|
  {
    forall j :: 0 <= j < n ==> InputVerifies(crypto, from, t, j)
  }

  /** Equal but for the signature scripts and the hashes that the inputs name. */
  ghost predicate SamePlan(a: Tx, b: Tx) {
    a.nVersion == b.nVersion && a.vout == b.vout && a.nLockTime == b.nLockTime && |a.vin| == |b.vin| &&
    forall j :: 0 <= j < |a.vin| ==>
      a.vin[j].prevout.n == b.vin[j].prevout.n && a.vin[j].nSequence == b.vin[j].nSequence
  }

  /** The first loop: all inputs name the previous transaction. */
  method NamePrevious(t: Tx, hash: Bytes) returns (r: Tx)
    ensures SamePlan(r, t) && NamesHash(r, hash)
    ensures forall j :: 0 <= j < |t.vin| ==> r.vin[j].scriptSig == t.vin[j].scriptSig
  {
    r := t;
    for j := 0 to |t.vin|
      invariant r == t.(vin := r.vin) && |r.vin| == |t.vin|
      invariant forall k :: 0 <= k < |t.vin| ==>
        r.vin[k] == if k < j then t.vin[k].(prevout := OutPoint(hash, t.vin[k].prevout.n)) else t.vin[k]
    {
      r := r.(vin := r.vin[j := r.vin[j].(prevout := OutPoint(hash, r.vin[j].prevout.n))]);
    }
  }

  /** Signing one input keeps all the others verified: no signature hash depends on a signature script. */
  lemma StillVerified(crypto: Crypto, from: Tx, before: Tx, n: nat, script: Script)
    requires n < |before.vin| && InputsVerify(crypto, from, before, n)
    requires before.vin[n].prevout.n < |from.vout|
    requires Verify(SignContext(crypto, WithSig(before, n, script), n), script,
                    from.vout[before.vin[n].prevout.n].scriptPubKey)
    ensures InputsVerify(crypto, from, WithSig(before, n, script), n + 1)
  {
    hide Verify, SameButSigs;
    var after := WithSig(before, n, script);
    OnlySigChanges(before, n, script);
    forall j | 0 <= j < n + 1
      ensures InputVerifies(crypto, from, after, j)
    {
      if j < n {
        assert InputVerifies(crypto, from, before, j);
        VerifyIgnoresSigs(SignContext(crypto, before, j), SignContext(crypto, after, j), before.vin[j].scriptSig,
                          from.vout[before.vin[j].prevout.n].scriptPubKey);
      }
    }
  }

  lemma OnlySigChanges(before: Tx, n: nat, script: Script)
    requires n < |before.vin|
    ensures SameButSigs(before, WithSig(before, n, script))
  {
  }

  lemma SignedVerifies(crypto: Crypto, signer: Signer, store: KeyStore, from: Script, t: Tx, n: nat, hashType: Byte)
    requires n < |t.vin|
    ensures match SignSignature(crypto, signer, store, from, t, n, hashType)
            case None => true
            case Some(signed) =>
              |signed.vin| == |t.vin| && signed == WithSig(t, n, signed.vin[n].scriptSig) &&
              Verify(SignContext(crypto, signed, n), signed.vin[n].scriptSig, from)
  {
    hide Verify, SignatureScript;
  }

  /** An input that can be signed, as EmbedData prepares it. */
  ghost predicate Signable(setup: Setup, store: KeyStore, from: Tx, txIn: TxIn) {
    txIn.prevout.n < |from.vout| &&
    exists keys: seq<Bytes> ::
      Redeems(setup, txIn, from.vout[txIn.prevout.n].scriptPubKey, keys) &&
      Stored(setup.crypto, store, Multisig(1, keys))
  }

  /** The second loop: sign all inputs in order; None where SignSignature fails and the source throws. */
  method SignAll(setup: Setup, store: KeyStore, from: Tx, t: Tx) returns (r: Option<Tx>)
    requires ClaimsExist(from, t)
    ensures r.Some? ==>
      |r.value.vin| == |t.vin| && SameButSigs(t, r.value) &&
      InputsVerify(setup.crypto, from, r.value, |t.vin|)
    ensures Provided(setup, store) && (forall j :: 0 <= j < |t.vin| ==> Signable(setup, store, from, t.vin[j])) ==>
      r.Some? && SameRedeems(t.vin, r.value.vin, |t.vin|) && SignWhole(r.value.vin, |t.vin|)
  {
    hide Verify, SignSignature, Signable, SameRedeems, SignWhole, Provided, Push, PushKeys;
    var signed := t;
    NoneChanged(t.vin);
    NoneSigned(t.vin);
    ghost var able := Provided(setup, store) && forall j :: 0 <= j < |t.vin| ==> Signable(setup, store, from, t.vin[j]);
    for j := 0 to |t.vin|
      invariant |signed.vin| == |t.vin| && SameButSigs(t, signed)
      invariant signed.vin[j..] == t.vin[j..]
      invariant InputsVerify(setup.crypto, from, signed, j)
      invariant able ==> SameRedeems(t.vin, signed.vin, j) && SignWhole(signed.vin, j)
    {
      var n := signed.vin[j].prevout.n;
      assert n == t.vin[j].prevout.n;
      SignedVerifies(setup.crypto, setup.signer, store, from.vout[n].scriptPubKey, signed, j, SIGHASH_ALL);
      var result := SignSignature(setup.crypto, setup.signer, store, from.vout[n].scriptPubKey, signed, j, SIGHASH_ALL);
      if able {
        assert signed.vin[j] == signed.vin[j..][0] == t.vin[j..][0] == t.vin[j];
        SignableIsSigned(setup, store, from, t, signed, j);
      }
      if result.None? {
        return None;
      }
      StillVerified(setup.crypto, from, signed, j, result.value.vin[j].scriptSig);
      ghost var before := signed;
      signed := result.value;
      assert signed.vin[j + 1..] == before.vin[j + 1..] == before.vin[j..][1..] == t.vin[j..][1..];
    }
    return Some(signed);
  }

  /** The first `n` inputs have kept the redeem scripts that they push last. */
  ghost predicate SameRedeems(a: seq<TxIn>, b: seq<TxIn>, n: nat) {
    |a| == |b| && n <= |a| && forall j :: 0 <= j < n ==> LastData(a[j].scriptSig, []) == LastData(b[j].scriptSig, [])
  }

  lemma NoneChanged(a: seq<TxIn>)
    ensures SameRedeems(a, a, 0)
  {
  }

  lemma SignableIsSigned(setup: Setup, store: KeyStore, from: Tx, t: Tx, before: Tx, j: nat)
    requires j < |t.vin| == |before.vin| && before.vin[j] == t.vin[j] && Provided(setup, store)
    requires Signable(setup, store, from, t.vin[j]) && SameRedeems(t.vin, before.vin, j) && SignWhole(before.vin, j)
    ensures var n := t.vin[j].prevout.n;
            n < |from.vout| &&
            var r := SignSignature(setup.crypto, setup.signer, store, from.vout[n].scriptPubKey, before, j, SIGHASH_ALL);
            r.Some? && SameRedeems(t.vin, r.value.vin, j + 1) && SignWhole(r.value.vin, j + 1)
  {
    hide SignSignature, FirstSignature, SignatureHash, KeysIn, LastData, PushKeys, Provided, OwnKey, SignsWhole;
    var n := t.vin[j].prevout.n;
    var keys: seq<Bytes> :| Redeems(setup, t.vin[j], from.vout[n].scriptPubKey, keys) &&
                            Stored(setup.crypto, store, Multisig(1, keys));
    OwnKeyCanSign(setup, store, keys[0]);
    SignSucceeds(setup.crypto, setup.signer, store, keys, before, j);
    var signed :=
      SignSignature(setup.crypto, setup.signer, store, from.vout[n].scriptPubKey, before, j, SIGHASH_ALL).value;
    SignedCarries(setup, store, keys, before, j, signed);
    SignatureCovers(setup.crypto, setup.signer, store, keys, before, j);
  }

  /** What SignSignature writes signs the whole transaction. */
  lemma SignatureCovers(crypto: Crypto, signer: Signer, store: KeyStore, keys: seq<Bytes>, t: Tx, nIn: nat)
    requires nIn < |t.vin|
    requires Redeemable(keys) && CanSign(crypto, signer, store, keys[0]) && Stored(crypto, store, Multisig(1, keys))
    ensures match SignSignature(crypto, signer, store, PayToScriptHash(crypto.hash160(Multisig(1, keys))), t, nIn, SIGHASH_ALL)
            case None => false
            case Some(signed) => |signed.vin| == |t.vin| && SignsWhole(signed.vin[nIn])
  {
    hide SignSignature, FirstSignature, SignatureHash, Pushes, PushesAlone, Multisig, Push, Eval, IsPushOnly;
    var redeem := Multisig(1, keys);
    var hash := SignatureHash(crypto, redeem, t, nIn, SIGHASH_ALL);
    var sig := FirstSignature(crypto, signer, store, keys[0], hash);
    SignSucceeds(crypto, signer, store, keys, t, nIn);
    SignatureType(crypto, signer, store, keys[0], hash);
    RedeemLength(keys);
    EvalSignatureScript(SignContext(crypto, t, nIn), sig, redeem);
    SignatureScriptIsPushOnly(sig, redeem);
    EvalOfPushes(SignContext(crypto, t, nIn), [OP_0] + Push(sig) + Push(redeem));
  }

  lemma SignatureType(crypto: Crypto, signer: Signer, store: KeyStore, key: Bytes, hash: Bytes)
    requires CanSign(crypto, signer, store, key)
    ensures var sig := FirstSignature(crypto, signer, store, key, hash); sig != [] && sig[|sig| - 1] == 1
  {
  }

  // ---------------------------------------------------------------------- the chain

  /** Every input of a later transaction names the finished transaction before it and verifies on the
      finished transaction it belongs to. */
  ghost predicate SignedChain(crypto: Crypto, txs: seq<Tx>) {
    forall i :: 1 <= i < |txs| ==> SignedLink(crypto, txs[i - 1], txs[i])
  }

  ghost predicate SignedLink(crypto: Crypto, from: Tx, t: Tx) {
    NamesHash(t, TxHash(crypto, from)) && InputsVerify(crypto, from, t, |t.vin|)
  }

  /** Every input names the hash of the bytes of the transaction before it, and wherever it claims an output that pays
      to a script hash, a key of the redeem script signed the transaction as it stands. */
  ghost predicate SpentByKeys(crypto: Crypto, txs: seq<Tx>) {
    forall i :: 1 <= i < |txs| ==> InputsSpentByKeys(crypto, txs[i - 1], txs[i])
  }

  ghost predicate InputsSpentByKeys(crypto: Crypto, from: Tx, t: Tx) {
    forall j :: 0 <= j < |t.vin| ==>
      t.vin[j].prevout.hash == crypto.hash256(WriteTx(from)) && SpentByKey(crypto, from, t, j)
  }

  lemma SignedIsSpent(crypto: Crypto, from: Tx, t: Tx)
    requires SignedLink(crypto, from, t)
    ensures InputsSpentByKeys(crypto, from, t)
  {
    hide Verify, SpentByKey, WriteTx;
    forall j | 0 <= j < |t.vin|
      ensures t.vin[j].prevout.hash == crypto.hash256(WriteTx(from)) && SpentByKey(crypto, from, t, j)
    {
      assert InputVerifies(crypto, from, t, j);
      VerifiedIsSpentByKey(crypto, from, t, j);
    }
  }

  /** Every input claims an output that pays to a redeem script, and one of its keys signed, with a type that covers
      all inputs and outputs. */
  ghost predicate AllKeysSpend(crypto: Crypto, txs: seq<Tx>) {
    forall i :: 1 <= i < |txs| ==> KeysSpend(crypto, txs[i - 1], txs[i])
  }

  ghost predicate KeysSpend(crypto: Crypto, from: Tx, t: Tx) {
    forall j :: 0 <= j < |t.vin| ==> SomeKeySpends(crypto, from, t, j)
  }

  ghost predicate SomeKeySpends(crypto: Crypto, from: Tx, t: Tx, j: nat)
    requires j < |t.vin|
  {
    SignsWhole(t.vin[j]) && exists keys :: KeySpends(crypto, from, t, j, keys)
  }

  /** The signature below the redeem script ends with the type 1. */
  ghost predicate SignsWhole(txIn: TxIn) {
    var pushed := Pushes(txIn.scriptSig);
    |pushed| >= 2 && var sig := pushed[|pushed| - 2]; sig != [] && sig[|sig| - 1] == 1
  }

  ghost predicate SignWhole(vin: seq<TxIn>, n: nat) {
    n <= |vin| && forall j :: 0 <= j < n ==> SignsWhole(vin[j])
  }

  lemma NoneSigned(vin: seq<TxIn>)
    ensures SignWhole(vin, 0)
  {
  }

  lemma SignableIsSpent(setup: Setup, store: KeyStore, plan: Tx, planned: TxIn, from: Tx, t: Tx, j: nat)
    requires j < |t.vin| && Signable(setup, store, plan, planned) && plan.vout == from.vout
    requires planned.prevout.n == t.vin[j].prevout.n
    requires LastData(planned.scriptSig, []) == LastData(t.vin[j].scriptSig, [])
    requires SpentByKey(setup.crypto, from, t, j) && SignsWhole(t.vin[j])
    ensures SomeKeySpends(setup.crypto, from, t, j)
  {
    hide Multisig, LastData, OwnKey, Pushes, PushesAlone, KeySpends, SignsWhole;
    var n, s := planned.prevout.n, t.vin[j].scriptSig;
    var keys: seq<Bytes> :| Redeems(setup, planned, plan.vout[n].scriptPubKey, keys) &&
                            Stored(setup.crypto, store, Multisig(1, keys));
    var redeem := Multisig(1, keys);
    RedeemLength(keys);
    assert PaysToHash(from.vout[n].scriptPubKey, setup.crypto.hash160(redeem));
    NothingLast();
    LastPushed(s, []);
  }

  lemma NothingLast()
    ensures LastData([], []) == []
  {
  }

  lemma SignableAreSpent(setup: Setup, store: KeyStore, plan: Tx, planned: Tx, from: Tx, t: Tx)
    requires AllSignable(setup, store, plan, planned) && plan.vout == from.vout && SameContent(planned, t)
    requires InputsSpentByKeys(setup.crypto, from, t) && SignWhole(t.vin, |t.vin|)
    ensures KeysSpend(setup.crypto, from, t)
  {
    hide Signable, LastData, SpentByKey, SomeKeySpends, SignsWhole, WriteTx;
    forall j | 0 <= j < |t.vin|
      ensures SomeKeySpends(setup.crypto, from, t, j)
    {
      SignableIsSpent(setup, store, plan, planned.vin[j], from, t, j);
    }
  }

  /** What authorization keeps of a transaction. */
  ghost predicate SameContent(a: Tx, b: Tx) {
    SamePlan(a, b) && SameRedeems(a.vin, b.vin, |a.vin|)
  }

  ghost predicate AllSignable(setup: Setup, store: KeyStore, from: Tx, t: Tx) {
    forall j :: 0 <= j < |t.vin| ==> Signable(setup, store, from, t.vin[j])
  }

  /** The body of the loop for one transaction. */
  method AuthorizeOne(setup: Setup, store: KeyStore, from: Tx, t: Tx) returns (r: Option<Tx>)
    requires ClaimsExist(from, t)
    ensures r.Some? ==> SignedLink(setup.crypto, from, r.value) && SamePlan(t, r.value)
    ensures Provided(setup, store) && AllSignable(setup, store, from, t) ==>
      r.Some? && SameContent(t, r.value) && SignWhole(r.value.vin, |r.value.vin|)
  {
    hide Verify, Provided, Redeems, InputVerifies, SignWhole;
    var named := NamePrevious(t, TxHash(setup.crypto, from));
    if AllSignable(setup, store, from, t) {
      NamingKeepsSignable(setup, store, from, t, named);
    }
    r := SignAll(setup, store, from, named);
    if r.Some? {
      SigsKeepPlan(t, named, r.value, TxHash(setup.crypto, from));
      if SameRedeems(named.vin, r.value.vin, |named.vin|) {
        RedeemsCompose(t.vin, named.vin, r.value.vin);
      }
    }
  }

  lemma SigsKeepPlan(t: Tx, named: Tx, signed: Tx, hash: Bytes)
    requires SamePlan(named, t) && NamesHash(named, hash) && SameButSigs(named, signed)
    ensures SamePlan(t, signed) && NamesHash(signed, hash)
  {
  }

  lemma RedeemsCompose(a: seq<TxIn>, b: seq<TxIn>, c: seq<TxIn>)
    requires |a| == |b| && (forall j :: 0 <= j < |a| ==> b[j].scriptSig == a[j].scriptSig)
    requires SameRedeems(b, c, |b|)
    ensures SameRedeems(a, c, |a|)
  {
    hide LastData;
  }

  lemma NamingKeepsSignable(setup: Setup, store: KeyStore, from: Tx, t: Tx, named: Tx)
    requires SamePlan(named, t) && AllSignable(setup, store, from, t)
    requires forall j :: 0 <= j < |t.vin| ==> named.vin[j].scriptSig == t.vin[j].scriptSig
    ensures AllSignable(setup, store, from, named)
  {
    hide OwnKey, Stored, LastData;
    forall j | 0 <= j < |named.vin|
      ensures Signable(setup, store, from, named.vin[j])
    {
      assert Signable(setup, store, from, t.vin[j]);
      var n := t.vin[j].prevout.n;
      var keys: seq<Bytes> :| Redeems(setup, t.vin[j], from.vout[n].scriptPubKey, keys) &&
                              Stored(setup.crypto, store, Multisig(1, keys));
      assert Redeems(setup, named.vin[j], from.vout[n].scriptPubKey, keys);
    }
  }

  /** AuthorizeTransactions; the wallet's answer for the first transaction is a parameter. */
  method AuthorizeTransactions(setup: Setup, store: KeyStore, txs: seq<Tx>, wallet: Option<Tx>)
    returns (result: Option<seq<Tx>>)
    requires txs != []
    requires wallet.Some? && |txs| >= 2 ==> ClaimsExist(wallet.value, txs[1])
    requires forall i :: 2 <= i < |txs| ==> ClaimsExist(txs[i - 1], txs[i])
    ensures result.Some? ==> |result.value| == |txs| && wallet == Some(result.value[0])
    ensures result.Some? ==> SignedChain(setup.crypto, result.value) && SpentByKeys(setup.crypto, result.value)
    ensures result.Some? ==> forall i :: 1 <= i < |txs| ==> SamePlan(txs[i], result.value[i])
    ensures wallet.Some? && Provided(setup, store) && ChainSignable(setup, store, wallet.value, txs) ==>
      result.Some? && AllKeysSpend(setup.crypto, result.value) &&
      forall i :: 1 <= i < |txs| ==> SameContent(txs[i], result.value[i])
  {
    hide Provided, AllSignable, LinkDone, LinkKept, ClaimsExist, ChainSignable;
    if wallet.None? {
      return None;
    }
    var signed := txs[0 := wallet.value];
    ghost var able := Provided(setup, store) && ChainSignable(setup, store, wallet.value, txs);
    for i := 1 to |txs|
      invariant |signed| == |txs| && signed[0] == wallet.value
      invariant forall k :: i <= k < |txs| ==> signed[k] == txs[k]
      invariant forall k :: 1 <= k < i ==> LinkDone(setup.crypto, signed[k - 1], txs[k], signed[k])
      invariant able ==> forall k :: 1 <= k < i ==> LinkKept(setup.crypto, signed[k - 1], txs[k], signed[k])
    {
      ghost var plan := if i == 1 then wallet.value else txs[i - 1];
      if i > 1 {
        OutputsPlanned(setup.crypto, signed[i - 2], txs[i - 1], signed[i - 1]);
      }
      if able {
        SignableAt(setup, store, wallet.value, txs, i);
      }
      var next := AuthorizeNext(setup, store, plan, signed[i - 1], signed[i]);
      if next.None? {
        return None;
      }
      signed := signed[i := next.value];
    }
    AllDone(setup.crypto, txs, signed);
    if able {
      AllKept(setup.crypto, txs, signed);
    }
    return Some(signed);
  }

  /** What is reached for every link of the chain. */
  ghost predicate LinkDone(crypto: Crypto, from: Tx, planned: Tx, t: Tx) {
    SignedLink(crypto, from, t) && InputsSpentByKeys(crypto, from, t) && SamePlan(planned, t)
  }

  /** What is reached besides when its inputs can be signed. */
  ghost predicate LinkKept(crypto: Crypto, from: Tx, planned: Tx, t: Tx) {
    SameContent(planned, t) && KeysSpend(crypto, from, t)
  }

  lemma OutputsPlanned(crypto: Crypto, from: Tx, planned: Tx, t: Tx)
    requires LinkDone(crypto, from, planned, t)
    ensures planned.vout == t.vout
  {
  }

  lemma SignableAt(setup: Setup, store: KeyStore, first: Tx, txs: seq<Tx>, i: nat)
    requires 1 <= i < |txs| && ChainSignable(setup, store, first, txs)
    ensures AllSignable(setup, store, if i == 1 then first else txs[i - 1], txs[i])
  {
  }

  lemma AllDone(crypto: Crypto, txs: seq<Tx>, signed: seq<Tx>)
    requires |txs| == |signed| && forall k :: 1 <= k < |txs| ==> LinkDone(crypto, signed[k - 1], txs[k], signed[k])
    ensures SignedChain(crypto, signed) && SpentByKeys(crypto, signed)
    ensures forall i :: 1 <= i < |txs| ==> SamePlan(txs[i], signed[i])
  {
    hide SignedLink, InputsSpentByKeys, SamePlan;
    forall i | 1 <= i < |txs|
      ensures SignedLink(crypto, signed[i - 1], signed[i]) && InputsSpentByKeys(crypto, signed[i - 1], signed[i])
      ensures SamePlan(txs[i], signed[i])
    {
      assert LinkDone(crypto, signed[i - 1], txs[i], signed[i]);
    }
  }

  lemma AllKept(crypto: Crypto, txs: seq<Tx>, signed: seq<Tx>)
    requires |txs| == |signed| && forall k :: 1 <= k < |txs| ==> LinkKept(crypto, signed[k - 1], txs[k], signed[k])
    ensures AllKeysSpend(crypto, signed) && forall i :: 1 <= i < |txs| ==> SameContent(txs[i], signed[i])
  {
    hide SameContent, KeysSpend;
    forall i | 1 <= i < |txs|
      ensures SameContent(txs[i], signed[i]) && KeysSpend(crypto, signed[i - 1], signed[i])
    {
      assert LinkKept(crypto, signed[i - 1], txs[i], signed[i]);
    }
  }

  /** The body of the loop of AuthorizeTransactions, `plan` being the transaction before as it was planned. */
  method AuthorizeNext(setup: Setup, store: KeyStore, ghost plan: Tx, from: Tx, t: Tx) returns (next: Option<Tx>)
    requires plan.vout == from.vout && ClaimsExist(plan, t)
    ensures next.Some? ==> LinkDone(setup.crypto, from, t, next.value)
    ensures Provided(setup, store) && AllSignable(setup, store, plan, t) ==>
      next.Some? && LinkKept(setup.crypto, from, t, next.value)
  {
    hide Provided, AllSignable, SignedLink, SamePlan, SameRedeems, ClaimsExist, InputsSpentByKeys, KeysSpend, SignWhole;
    SameOutputsSignable(setup, store, plan, from, t);
    next := AuthorizeOne(setup, store, from, t);
    if next.Some? {
      SignedIsSpent(setup.crypto, from, next.value);
      if Provided(setup, store) && AllSignable(setup, store, plan, t) {
        SignableAreSpent(setup, store, plan, t, from, next.value);
      }
    }
  }

  ghost predicate ChainSignable(setup: Setup, store: KeyStore, first: Tx, txs: seq<Tx>) {
    forall i :: 1 <= i < |txs| ==> AllSignable(setup, store, if i == 1 then first else txs[i - 1], txs[i])
  }

  lemma SameOutputsSignable(setup: Setup, store: KeyStore, plan: Tx, from: Tx, t: Tx)
    requires plan.vout == from.vout
    ensures ClaimsExist(plan, t) ==> ClaimsExist(from, t)
    ensures AllSignable(setup, store, plan, t) ==> AllSignable(setup, store, from, t)
  {
    hide Redeems;
    if AllSignable(setup, store, plan, t) {
      forall j | 0 <= j < |t.vin|
        ensures Signable(setup, store, from, t.vin[j])
      {
        assert Signable(setup, store, plan, t.vin[j]);
      }
    }
  }

  // ------------------------------------------------- the data survives authorization

  lemma {:induction false} ContentKeepsInputs(a: seq<TxIn>, b: seq<TxIn>, n: nat, suffixBits: nat)
    requires |a| == |b| && n <= |a| && SameRedeems(a, b, |a|)
    requires forall j :: 0 <= j < |a| ==> a[j].nSequence == b[j].nSequence
    ensures DataInInputs(a, n, suffixBits) == DataInInputs(b, n, suffixBits)
  {
    hide LastData, KeysIn, DataInRedeem, ToBits;
    if n > 0 {
      ContentKeepsInputs(a, b, n - 1, suffixBits);
    }
  }

  lemma ContentKeepsData(vout: seq<TxOut>, a: Tx, b: Tx, suffixBits: nat)
    requires SameContent(a, b) && |vout| - Nulldatas(vout) <= |a.vin|
    ensures DataInTransaction(vout, a.vin, suffixBits) == DataInTransaction(vout, b.vin, suffixBits)
  {
    hide DataInBudgetSplit, DataInNulldata, DataInP2SH;
    ContentKeepsInputs(a.vin, b.vin, |vout| - Nulldatas(vout), suffixBits);
    assert Claimed(a.vin) == Claimed(b.vin);
  }

  lemma {:induction false} ContentKeepsChain(a: seq<Tx>, b: seq<Tx>, k: nat, suffixBits: nat)
    requires |a| == |b| && k < |a| && a[0].vout == b[0].vout
    requires forall i :: 1 <= i < |a| ==> SameContent(a[i], b[i])
    requires forall i :: 0 <= i < k ==> |a[i].vout| - Nulldatas(a[i].vout) <= |a[i + 1].vin|
    ensures DataUpTo(a, k, suffixBits) == DataUpTo(b, k, suffixBits)
  {
    hide DataInTransaction, SameRedeems, Nulldatas;
    if k > 0 {
      ContentKeepsChain(a, b, k - 1, suffixBits);
      assert a[k - 1].vout == b[k - 1].vout;
      ContentKeepsData(a[k - 1].vout, a[k], b[k], suffixBits);
    }
  }

  /** What EmbedData makes can be signed, as long as no two of its redeem scripts share a hash. */
  lemma EmbeddedIsSignable(setup: Setup, store: KeyStore, added: set<Script>, from: Tx, t: Tx, amount: int)
    requires Embedded(setup, added, from.vout, t.vin, amount)
    requires StoresAll(setup.crypto, store, added) && forall s :: s in added ==> NoCollision(setup.crypto, s, added)
    ensures AllSignable(setup, store, from, t) && ClaimsExist(from, t)
    ensures |from.vout| - Nulldatas(from.vout) <= |t.vin|
  {
    hide Redeems, ClaimsEach, Spends, SmallInputs, NoCollision;
    forall j | 0 <= j < |t.vin|
      ensures Signable(setup, store, from, t.vin[j]) && t.vin[j].prevout.n < |from.vout|
    {
      RedeemedIsSignable(setup, store, added, from, t.vin[j]);
    }
  }

  lemma RedeemedIsSignable(setup: Setup, store: KeyStore, added: set<Script>, from: Tx, txIn: TxIn)
    requires txIn.prevout.n < |from.vout| && RedeemedBy(setup, added, txIn, from.vout[txIn.prevout.n])
    requires StoresAll(setup.crypto, store, added) && forall s :: s in added ==> NoCollision(setup.crypto, s, added)
    ensures Signable(setup, store, from, txIn)
  {
    var keys: seq<Bytes> :| Redeems(setup, txIn, from.vout[txIn.prevout.n].scriptPubKey, keys) &&
                            Multisig(1, keys) in added;
    assert Stored(setup.crypto, store, Multisig(1, keys));
  }
}
