/** Recognising standard scripts and signing for them
    (src/lib/core/script.cpp:1198-1394, 1644-1678). */
module Signing {
  import opened Bits
  import opened Script
  import opened Transactions
  import opened Signatures
  import opened Interpreter
  import opened Options

  // ------------------------------------------------------------------- templates

  datatype TxType = NonStandard | PayToPubKey | PayToPubKeyHash | ScriptHash | MultisigType | NullDataType

  const OP_SMALLDATA: Byte := 0xf9
  const OP_SMALLINTEGER: Byte := 0xfa
  const OP_PUBKEYS: Byte := 0xfb
  const OP_PUBKEYHASH: Byte := 0xfd
  const OP_PUBKEY: Byte := 0xfe
  const OP_INVALIDOPCODE: Byte := 0xff
  const MAX_OP_RETURN_RELAY := 40

  /** mTemplates in the order in which they are tried. */
  const Templates: seq<(TxType, seq<Byte>)> := [
    (PayToPubKey, [OP_PUBKEY, OP_CHECKSIG]),
    (PayToPubKeyHash, [OP_DUP, OP_HASH160, OP_PUBKEYHASH, OP_EQUALVERIFY, OP_CHECKSIG]),
    (MultisigType, [OP_SMALLINTEGER, OP_PUBKEYS, OP_SMALLINTEGER, OP_CHECKMULTISIG]),
    (NullDataType, [OP_RETURN, OP_SMALLDATA]),
    (NullDataType, [OP_RETURN])]

  /** The keys at the current place are collected; the instruction after them comes out. */
  datatype Collected = Collected(op: Op, rest: Script, keys: seq<Bytes>)

  function CollectKeys(op: Op, rest: Script): (r: Collected)
    ensures |r.rest| <= |rest|
    decreases |rest|
  {
    if 33 <= |op.data| <= 65 then
      match GetOp(rest)
      case Stop(t) => Collected(Op(OP_INVALIDOPCODE, []), t, [op.data])
      case Fetched(next, t) =>
        var c := CollectKeys(next, t);
        c.(keys := [op.data] + c.keys)
    else Collected(op, rest, [])
  }

  /** One template instruction other than OP_PUBKEYS: the solution it adds, or None on a mismatch. */
  function MatchOne(op: Op, expected: Byte): (r: Option<seq<Bytes>>) {
    if expected == OP_PUBKEY then if 33 <= |op.data| <= 65 then Some([op.data]) else None
    else if expected == OP_PUBKEYHASH then if |op.data| == 20 then Some([op.data]) else None
    else if expected == OP_SMALLINTEGER then
      if op.opcode == OP_0 || (OP_1 <= op.opcode && op.opcode <= OP_16)
      then Some([[SizeByte(DecodeOP_N(op.opcode))]]) else None
    else if expected == OP_SMALLDATA then if |op.data| <= MAX_OP_RETURN_RELAY then Some([]) else None
    else if op.opcode == expected && op.data == [] then Some([]) else None
  }

  /** The comparison of a script with a template. */
  function MatchTemplate(s: Script, template: seq<Byte>): (r: Option<seq<Bytes>>)
    decreases |s|, 0
  {
    if s == [] && template == [] then Some([])
    else match GetOp(s)
      case Stop(_) => None
      case Fetched(op, rest) =>
        if template == [] then None
        else if template[0] == OP_PUBKEYS then MatchRest(CollectKeys(op, rest), template[1..])
        else MatchRest(Collected(op, rest, []), template)
  }

  /** The comparison after the keys at the current place, if any, have been collected. */
  function MatchRest(c: Collected, template: seq<Byte>): (r: Option<seq<Bytes>>)
    decreases |c.rest|, 1
  {
    if template == [] then None
    else match MatchOne(c.op, template[0])
      case None => None
      case Some(found) =>
        match MatchTemplate(c.rest, template[1..])
        case None => None
        case Some(more) => Some(c.keys + found + more)
  }

  datatype Solved = Solved(ok: bool, kind: TxType, solutions: seq<Bytes>)

  /** The extra conditions on m-of-n scripts. */
  predicate MultisigCounts(solutions: seq<Bytes>) {
    |solutions| >= 2 && solutions[0] != [] && solutions[|solutions| - 1] != [] &&
    var m, n := solutions[0][0], solutions[|solutions| - 1][0];
    1 <= m <= n && |solutions| - 2 == n
  }

  function TryTemplates(s: Script, k: nat): (r: Solved)
    requires k <= |Templates|
    decreases |Templates| - k
  {
    if k == |Templates| then Solved(false, NonStandard, [])
    else match MatchTemplate(s, Templates[k].1)
      case None => TryTemplates(s, k + 1)
      case Some(solutions) =>
        Solved(Templates[k].0 == MultisigType ==> MultisigCounts(solutions), Templates[k].0, solutions)
  }

  /** Solver: the kind of a script and the keys or hashes in it. */
  function Solve(s: Script): (r: Solved) {
    if IsPayToScriptHash(s) then Solved(true, ScriptHash, [s[2..22]]) else TryTemplates(s, 0)
  }

  // --------------------------------------------------------------------- signing

  datatype Key = Key(secret: Bytes, pub: Bytes)

  datatype KeyStore = KeyStore(keys: map<Bytes, Key>, scripts: map<Bytes, Script>)

  /** key.Sign with the private part of the signature scheme. */
  type Signer = (Bytes, Bytes) -> Option<Bytes>

  /** Sign1: the signature with its hash type, pushed. */
  function Sign1(signer: Signer, store: KeyStore, id: Bytes, hash: Bytes, hashType: Byte): (r: Option<Script>) {
    if id !in store.keys then None
    else match signer(store.keys[id].secret, hash)
      case None => None
      case Some(sig) => Some(Push(sig + [hashType]))
  }

  /** The loop of SignN over the keys from i on, `missing` signatures still being wanted. */
  function SignKeys(crypto: Crypto, signer: Signer, store: KeyStore, keys: seq<Bytes>, missing: nat,
                    hash: Bytes, hashType: Byte): (r: Option<Script>)
    decreases |keys|
  {
    if missing == 0 then Some([])
    else if keys == [] then None
    else match Sign1(signer, store, crypto.hash160(PubKey(keys[0])), hash, hashType)
      case None => SignKeys(crypto, signer, store, keys[1..], missing, hash, hashType)
      case Some(push) =>
        match SignKeys(crypto, signer, store, keys[1..], missing - 1, hash, hashType)
        case None => None
        case Some(more) => Some(push + more)
  }

  /** The second Solver: what satisfies the script, or for a script hash the redeem script itself. */
  function Satisfy(crypto: Crypto, signer: Signer, store: KeyStore, s: Script, hash: Bytes, hashType: Byte)
    : (r: Option<Script>)
  {
    var solved := Solve(s);
    if !solved.ok then None
    else match solved.kind
      case PayToPubKey =>
        if solved.solutions == [] then None
        else Sign1(signer, store, crypto.hash160(PubKey(solved.solutions[0])), hash, hashType)
      case PayToPubKeyHash =>
        if solved.solutions == [] || solved.solutions[0] !in store.keys then None
        else
          var id := solved.solutions[0];
          (match Sign1(signer, store, id, hash, hashType)
           case None => None
           case Some(push) => Some(push + Push(store.keys[id].pub)))
      case ScriptHash =>
        if solved.solutions[0] in store.scripts then Some(store.scripts[solved.solutions[0]]) else None
      case MultisigType =>
        var n := |solved.solutions|;
        (match SignKeys(crypto, signer, store, solved.solutions[1..n - 1], solved.solutions[0][0], hash, hashType)
         case None => None
         case Some(sigs) => Some([OP_0] + sigs))
      case _ => None
  }

  function SignContext(crypto: Crypto, t: Tx, nIn: nat): Context {
    Context(crypto, t, nIn, Flags(true, true, false), 0)
  }

  function WithSig(t: Tx, nIn: nat, scriptSig: Script): (r: Tx)
    requires nIn < |t.vin|
  {
    t.(vin := t.vin[nIn := t.vin[nIn].(scriptSig := scriptSig)])
  }

  /** The signature script that SignSignature puts together, before it is verified. */
  function SignatureScript(crypto: Crypto, signer: Signer, store: KeyStore, from: Script, t: Tx, nIn: nat,
                           hashType: Byte): (r: Option<Script>)
  {
    match Satisfy(crypto, signer, store, from, SignatureHash(crypto, from, t, nIn, hashType), hashType)
    case None => None
    case Some(script) =>
      if Solve(from).kind != ScriptHash then Some(script)
      else
        var hash2 := SignatureHash(crypto, script, t, nIn, hashType);
        match Satisfy(crypto, signer, store, script, hash2, hashType)
        case None => None
        case Some(sub) => if Solve(script).kind == ScriptHash then None else Some(sub + Push(script))
  }

  /** SignSignature: the transaction with the input signed, provided the signature verifies. */
  function SignSignature(crypto: Crypto, signer: Signer, store: KeyStore, from: Script, t: Tx, nIn: nat,
                         hashType: Byte): (r: Option<Tx>)
    requires nIn < |t.vin|
  {
    match SignatureScript(crypto, signer, store, from, t, nIn, hashType)
    case None => None
    case Some(script) =>
      var signed := WithSig(t, nIn, script);
      if Verify(SignContext(crypto, signed, nIn), script, from) then Some(signed) else None
  }
}
