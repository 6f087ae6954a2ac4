/** What a signature signs (src/lib/core/script.cpp:979-1096). */
module Signatures {
  import opened Bits
  import opened Script
  import opened Transactions

  /** Hash functions and signature verification, about which nothing is assumed here. */
  datatype Crypto = Crypto(
    ripemd160: Bytes -> Bytes,
    sha1: Bytes -> Bytes,
    sha256: Bytes -> Bytes,
    hash160: Bytes -> Bytes,
    hash256: Bytes -> Bytes,
    verify: (Bytes, Bytes, Bytes) -> bool)

  const SIGHASH_ALL: Byte := 1
  const SIGHASH_NONE: Byte := 2
  const SIGHASH_SINGLE: Byte := 3
  const SIGHASH_ANYONECANPAY: Byte := 0x80

  predicate AnyoneCanPay(hashType: nat) { hashType / SIGHASH_ANYONECANPAY % 2 == 1 }
  predicate HashSingle(hashType: nat) { hashType % 32 == SIGHASH_SINGLE }
  predicate HashNone(hashType: nat) { hashType % 32 == SIGHASH_NONE }

  /** The script without its code separators, up to the place where reading stops. */
  function CodeBytes(s: Script): (r: Bytes)
    decreases |s|
  {
    match GetOp(s)
    case Stop(rest) => s[..|s| - |rest|]
    case Fetched(op, rest) =>
      if op.opcode == OP_CODESEPARATOR then CodeBytes(rest)
      else s[..|s| - |rest|] + CodeBytes(rest)
  }

  function Separators(s: Script): (r: nat)
    ensures r <= |s|
    decreases |s|
  {
    match GetOp(s)
    case Stop(_) => 0
    case Fetched(op, rest) => (if op.opcode == OP_CODESEPARATOR then 1 else 0) + Separators(rest)
  }

  function SerializeScriptCode(code: Script): Bytes {
    CompactSize(|code| - Separators(code)) + CodeBytes(code)
  }

  /** SerializeInput, for the input that is signed or for another one. */
  function SignedInput(t: Tx, n: nat, nIn: nat, code: Script, hashType: nat): Bytes
    requires n < |t.vin| && nIn < |t.vin|
  {
    var k := if AnyoneCanPay(hashType) then nIn else n;
    WriteOutPoint(t.vin[k].prevout) +
    (if k != nIn then WriteScript([]) else SerializeScriptCode(code)) +
    LE(if k != nIn && (HashSingle(hashType) || HashNone(hashType)) then 0 else t.vin[k].nSequence, 4)
  }

  function SignedInputs(t: Tx, count: nat, nIn: nat, code: Script, hashType: nat): Bytes
    requires count <= |t.vin| && nIn < |t.vin|
  {
    if count == 0 then []
    else SignedInputs(t, count - 1, nIn, code, hashType) + SignedInput(t, count - 1, nIn, code, hashType)
  }

  /** SerializeOutput: with SIGHASH_SINGLE only the output at the input's index counts. */
  function SignedOutputs(t: Tx, count: nat, nIn: nat, hashType: nat): Bytes
    requires count <= |t.vout|
  {
    if count == 0 then []
    else SignedOutputs(t, count - 1, nIn, hashType) +
         WriteOut(if HashSingle(hashType) && count - 1 != nIn then NewTxOut else t.vout[count - 1])
  }

  function SignatureMessage(code: Script, t: Tx, nIn: nat, hashType: nat): Bytes
    requires nIn < |t.vin| && (HashSingle(hashType) ==> nIn < |t.vout|)
  {
    var nInputs := if AnyoneCanPay(hashType) then 1 else |t.vin|;
    var nOutputs := if HashNone(hashType) then 0 else if HashSingle(hashType) then nIn + 1 else |t.vout|;
    LE(Unsigned(t.nVersion, UINT32), 4) +
    CompactSize(nInputs) + SignedInputs(t, nInputs, nIn, code, hashType) +
    CompactSize(nOutputs) + SignedOutputs(t, nOutputs, nIn, hashType) +
    LE(t.nLockTime, 4) + LE(hashType, 4)
  }

  /** SignatureHash; the number 1 stands for a signature that signs nothing. */
  function SignatureHash(crypto: Crypto, code: Script, t: Tx, nIn: nat, hashType: nat): Bytes {
    if nIn >= |t.vin| || (HashSingle(hashType) && nIn >= |t.vout|) then [1] + ZeroBytes(31)
    else crypto.hash256(SignatureMessage(code, t, nIn, hashType))
  }

  /** Equal in everything but the signature scripts. */
  ghost predicate SameButSigs(t: Tx, u: Tx) {
    t.nVersion == u.nVersion && t.vout == u.vout && t.nLockTime == u.nLockTime && |t.vin| == |u.vin| &&
    forall i :: 0 <= i < |t.vin| ==>
      t.vin[i].prevout == u.vin[i].prevout && t.vin[i].nSequence == u.vin[i].nSequence
  }

  lemma {:induction false} SignedInputsIgnoreSigs(t: Tx, u: Tx, count: nat, nIn: nat, code: Script, hashType: nat)
    requires SameButSigs(t, u) && count <= |t.vin| && nIn < |t.vin|
    ensures SignedInputs(t, count, nIn, code, hashType) == SignedInputs(u, count, nIn, code, hashType)
  {
    hide SignedInput;
    if count > 0 {
      SignedInputsIgnoreSigs(t, u, count - 1, nIn, code, hashType);
      SignedInputIgnoresSigs(t, u, count - 1, nIn, code, hashType);
    }
  }

  lemma SignedInputIgnoresSigs(t: Tx, u: Tx, n: nat, nIn: nat, code: Script, hashType: nat)
    requires SameButSigs(t, u) && n < |t.vin| && nIn < |t.vin|
    ensures n < |u.vin| && nIn < |u.vin| && SignedInput(t, n, nIn, code, hashType) == SignedInput(u, n, nIn, code, hashType)
  {
    hide SerializeScriptCode, LE, WriteOutPoint, WriteScript, AnyoneCanPay, HashSingle, HashNone;
  }

  lemma {:induction false} SignedOutputsAgree(t: Tx, u: Tx, count: nat, nIn: nat, hashType: nat)
    requires t.vout == u.vout && count <= |t.vout|
    ensures SignedOutputs(t, count, nIn, hashType) == SignedOutputs(u, count, nIn, hashType)
  {
    if count > 0 {
      SignedOutputsAgree(t, u, count - 1, nIn, hashType);
    }
  }

  /** The signature hash depends on no signature script. */
  lemma SignatureHashIgnoresSigs(crypto: Crypto, code: Script, t: Tx, u: Tx, nIn: nat, hashType: nat)
    requires SameButSigs(t, u)
    ensures SignatureHash(crypto, code, t, nIn, hashType) == SignatureHash(crypto, code, u, nIn, hashType)
  {
    hide SignedInputs, SignedOutputs, LE, CompactSize, AnyoneCanPay, HashSingle, HashNone;
    if nIn < |t.vin| && !(HashSingle(hashType) && nIn >= |t.vout|) {
      var nInputs := if AnyoneCanPay(hashType) then 1 else |t.vin|;
      var nOutputs := if HashNone(hashType) then 0 else if HashSingle(hashType) then nIn + 1 else |t.vout|;
      SignedInputsIgnoreSigs(t, u, nInputs, nIn, code, hashType);
      SignedOutputsAgree(t, u, nOutputs, nIn, hashType);
    }
  }
}
