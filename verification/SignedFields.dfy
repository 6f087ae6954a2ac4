/** What a signature signs (src/lib/core/script.cpp:983-1096). */
module SignedFields {
  import opened Script
  import opened Transactions
  import opened Signatures
  import Sequences

  // ------------------------------------------------------------------ script codes

  /** All instructions can be read. */
  predicate Readable(s: Script)
    decreases |s|
  {
    s == [] || (GetOp(s).Fetched? && Readable(GetOp(s).rest))
  }

  /** The instructions of a script, up to the place where reading stops. */
  function Instructions(s: Script): (r: seq<Op>)
    decreases |s|
  {
    if GetOp(s).Stop? then [] else [GetOp(s).op] + Instructions(GetOp(s).rest)
  }

  function WithoutSeparators(ops: seq<Op>): (r: seq<Op>) {
    if ops == [] then []
    else (if ops[0].opcode == 0xab then [] else [ops[0]]) + WithoutSeparators(ops[1..])
  }

  /** The bytes of the first instruction. */
  lemma FirstInstruction(s: Script, t: Script)
    requires GetOp(s).Fetched?
    ensures var f := GetOp(s);
            s == s[..|s| - |f.rest|] + f.rest && GetOp(s[..|s| - |f.rest|] + t) == Fetched(f.op, t)
  {
    var f := GetOp(s);
    GetOpSuffix(s);
    var first := s[..|s| - |f.rest|];
    FetchedAlone(s, first);
    GetOpAppend(first, t);
    assert [] + t == t;
  }

  lemma FetchedAlone(s: Script, first: Script)
    requires GetOp(s).Fetched? && first == s[..|s| - |GetOp(s).rest|]
    ensures GetOp(first) == Fetched(GetOp(s).op, [])
  {
    hide FromLE;
    var opcode, t, u := s[0], s[1..], first[1..];
    if OP_PUSHDATA1 <= opcode <= OP_PUSHDATA4 {
      var width := if opcode == OP_PUSHDATA1 then 1 else if opcode == OP_PUSHDATA2 then 2 else 4;
      var size := FromLE(t[..width]);
      assert u == t[..width + size] && u[..width] == t[..width] && u[width..] == t[width..][..size];
    } else if opcode < OP_PUSHDATA1 {
      assert u == t[..opcode];
    }
  }

  /** What is signed of a script is the script without its code separators: as many bytes as announced, and
      the other instructions in order. */
  lemma {:induction false} CodeIsStripped(s: Script)
    requires Readable(s)
    ensures |CodeBytes(s)| == |s| - Separators(s)
    ensures Readable(CodeBytes(s)) && Instructions(CodeBytes(s)) == WithoutSeparators(Instructions(s))
    decreases |s|
  {
    if s != [] {
      var f := GetOp(s);
      CodeIsStripped(f.rest);
      FirstInstruction(s, CodeBytes(f.rest));
      if f.op.opcode == OP_CODESEPARATOR { OneByteCode(s); }
      Sequences.ConsTail(f.op, Instructions(f.rest));
    }
  }

  lemma OneByteCode(s: Script)
    requires GetOp(s).Fetched? && GetOp(s).op.opcode == OP_CODESEPARATOR
    ensures |GetOp(s).rest| == |s| - 1
  {
  }

  /** Nothing is stripped off a script without code separators. */
  lemma {:induction false} NothingStripped(s: Script)
    requires Readable(s) && forall i :: 0 <= i < |Instructions(s)| ==> Instructions(s)[i].opcode != 0xab
    ensures CodeBytes(s) == s
    decreases |s|
  {
    if s != [] {
      var f := GetOp(s);
      assert Instructions(s)[0] == f.op;
      forall i | 0 <= i < |Instructions(f.rest)|
        ensures Instructions(f.rest)[i].opcode != 0xab
      {
        assert Instructions(s)[i + 1] == Instructions(f.rest)[i];
      }
      NothingStripped(f.rest);
      GetOpSuffix(s);
      assert s == s[..|s| - |f.rest|] + f.rest;
    }
  }

  // ------------------------------------------------------------------ what is signed

  /** The transaction that a signature of the given type signs: no signature scripts but the code in the place
      of the one to be made. By the low five bits, 2 signs no outputs and 3 only the one at the input's index,
      both without the other inputs' sequence numbers; 128 signs no other input. */
  function SignedView(code: Script, t: Tx, nIn: nat, hashType: nat): (r: Tx)
    requires nIn < |t.vin| && (hashType % 32 == 3 ==> nIn < |t.vout|)
  {
    var own := t.vin[nIn].(scriptSig := code);
    var keepsSequences := hashType % 32 != 2 && hashType % 32 != 3;
    Tx(t.nVersion,
       if hashType / 128 % 2 == 1 then [own]
       else seq(|t.vin|, i requires 0 <= i < |t.vin| =>
              if i == nIn then own else TxIn(t.vin[i].prevout, [], if keepsSequences then t.vin[i].nSequence else 0)),
       if hashType % 32 == 2 then []
       else if hashType % 32 == 3 then seq(nIn, i => TxOut(-1, [])) + [t.vout[nIn]]
       else t.vout,
       t.nLockTime)
  }

  lemma {:induction false} InputsOfView(code: Script, t: Tx, nIn: nat, hashType: nat, k: nat)
    requires Readable(code) && nIn < |t.vin| && (hashType % 32 == 3 ==> nIn < |t.vout|)
    requires k <= |SignedView(CodeBytes(code), t, nIn, hashType).vin|
    ensures k <= |t.vin| && SignedInputs(t, k, nIn, code, hashType) ==
            WriteIns(SignedView(CodeBytes(code), t, nIn, hashType).vin[..k])
  {
    hide LE, WriteOutPoint, CompactSize, CodeBytes, Separators, Readable, WriteIn;
    var vin := SignedView(CodeBytes(code), t, nIn, hashType).vin;
    if k > 0 {
      InputsOfView(code, t, nIn, hashType, k - 1);
      InputOfView(code, t, nIn, hashType, k - 1);
      InsSnoc(vin, k - 1);
    }
  }

  lemma InputOfView(code: Script, t: Tx, nIn: nat, hashType: nat, k: nat)
    requires Readable(code) && nIn < |t.vin| && (hashType % 32 == 3 ==> nIn < |t.vout|)
    requires k < |SignedView(CodeBytes(code), t, nIn, hashType).vin|
    ensures k < |t.vin| && SignedInput(t, k, nIn, code, hashType) ==
            WriteIn(SignedView(CodeBytes(code), t, nIn, hashType).vin[k])
  {
    hide LE, WriteOutPoint, CompactSize, CodeBytes, Separators, Readable, Instructions, WithoutSeparators, GetOp;
    CodeIsStripped(code);
    var i := SignedView(CodeBytes(code), t, nIn, hashType).vin[k];
    Sequences.Assoc(WriteOutPoint(i.prevout), WriteScript(i.scriptSig), LE(i.nSequence, 4));
  }

  lemma {:induction false} OutputsOfView(code: Script, t: Tx, nIn: nat, hashType: nat, k: nat)
    requires nIn < |t.vin| && (hashType % 32 == 3 ==> nIn < |t.vout|)
    requires k <= |SignedView(code, t, nIn, hashType).vout|
    ensures k <= |t.vout| && SignedOutputs(t, k, nIn, hashType) == WriteOuts(SignedView(code, t, nIn, hashType).vout[..k])
  {
    hide WriteOut;
    if k > 0 {
      OutputsOfView(code, t, nIn, hashType, k - 1);
      OutsSnoc(SignedView(code, t, nIn, hashType).vout, k - 1);
    }
  }

  /** The message is that transaction, serialized, and the type. */
  lemma {:induction false} MessageIsView(code: Script, t: Tx, nIn: nat, hashType: nat)
    requires Readable(code) && nIn < |t.vin| && (hashType % 32 == 3 ==> nIn < |t.vout|)
    ensures SignatureMessage(code, t, nIn, hashType) ==
            WriteTx(SignedView(CodeBytes(code), t, nIn, hashType)) + LE(hashType, 4)
  {
    hide LE, CompactSize, WriteIns, WriteOuts, SignedInputs, SignedOutputs, CodeBytes, Readable;
    var v := SignedView(CodeBytes(code), t, nIn, hashType);
    InputsOfView(code, t, nIn, hashType, |v.vin|);
    OutputsOfView(CodeBytes(code), t, nIn, hashType, |v.vout|);
    assert v.vin[..|v.vin|] == v.vin && v.vout[..|v.vout|] == v.vout;
    SixParts(LE(Unsigned(t.nVersion, UINT32), 4), CompactSize(|v.vin|), WriteIns(v.vin), CompactSize(|v.vout|),
             WriteOuts(v.vout), LE(t.nLockTime, 4), LE(hashType, 4));
  }

  lemma SixParts(a: Bytes, b: Bytes, c: Bytes, d: Bytes, e: Bytes, f: Bytes, g: Bytes)
    ensures a + b + c + d + e + f + g == a + (b + (c + (d + (e + f)))) + g
  {
  }

  /** The hash that a signature of the given type signs for a code without separators. */
  ghost function ViewHash(crypto: Crypto, code: Script, t: Tx, nIn: nat, hashType: nat): Bytes {
    if nIn < |t.vin| && (hashType % 32 == 3 ==> nIn < |t.vout|)
    then crypto.hash256(WriteTx(SignedView(code, t, nIn, hashType)) + LE(hashType, 4))
    else [1] + seq(31, i => 0)
  }

  lemma HashIsOfView(crypto: Crypto, code: Script, t: Tx, nIn: nat, hashType: nat)
    requires Readable(code)
    ensures SignatureHash(crypto, code, t, nIn, hashType) == ViewHash(crypto, CodeBytes(code), t, nIn, hashType)
  {
    hide SignatureMessage, WriteTx, SignedView, CodeBytes, Readable, LE;
    if nIn < |t.vin| && (hashType % 32 == 3 ==> nIn < |t.vout|) {
      MessageIsView(code, t, nIn, hashType);
    }
  }

  /** Equal messages sign equal transactions with the same type, and conversely. */
  lemma SameMessage(code: Script, t: Tx, n: nat, hashType: nat, code': Script, t': Tx, n': nat, hashType': nat)
    requires Readable(code) && n < |t.vin| && (hashType % 32 == 3 ==> n < |t.vout|)
    requires Readable(code') && n' < |t'.vin| && (hashType' % 32 == 3 ==> n' < |t'.vout|)
    requires ValidTx(t) && ValidTx(t') && |code| <= MAX_SIZE && |code'| <= MAX_SIZE
    requires hashType < UINT32 && hashType' < UINT32
    ensures SignatureMessage(code, t, n, hashType) == SignatureMessage(code', t', n', hashType') <==>
            SignedView(CodeBytes(code), t, n, hashType) == SignedView(CodeBytes(code'), t', n', hashType') &&
            hashType == hashType'
  {
    hide SignatureMessage, WriteTx, CodeBytes, Readable, LE, SignedView, ValidTx;
    MessageIsView(code, t, n, hashType);
    MessageIsView(code', t', n', hashType');
    ViewIsValid(code, t, n, hashType);
    ViewIsValid(code', t', n', hashType');
    var v, v' := SignedView(CodeBytes(code), t, n, hashType), SignedView(CodeBytes(code'), t', n', hashType');
    SmallPowers();
    FromLEofLE(hashType, 4);
    FromLEofLE(hashType', 4);
    if WriteTx(v) + LE(hashType, 4) == WriteTx(v') + LE(hashType', 4) {
      TxBytesUnique(v, v', LE(hashType, 4), LE(hashType', 4));
    }
  }

  lemma ViewIsValid(code: Script, t: Tx, n: nat, hashType: nat)
    requires Readable(code) && n < |t.vin| && (hashType % 32 == 3 ==> n < |t.vout|)
    requires ValidTx(t) && |code| <= MAX_SIZE
    ensures ValidTx(SignedView(CodeBytes(code), t, n, hashType))
  {
    hide CodeBytes, Readable, ValidIns, ValidOuts;
    CodeIsStripped(code);
    ViewInsAreValid(CodeBytes(code), t, n, hashType);
    ViewOutsAreValid(CodeBytes(code), t, n, hashType);
  }

  lemma ViewInsAreValid(code: Script, t: Tx, n: nat, hashType: nat)
    requires n < |t.vin| && (hashType % 32 == 3 ==> n < |t.vout|) && ValidIns(t.vin) && |code| <= MAX_SIZE
    ensures ValidIns(SignedView(code, t, n, hashType).vin)
  {
    var vin := SignedView(code, t, n, hashType).vin;
    forall i | 0 <= i < |vin|
      ensures ValidIn(vin[i])
    {
      assert ValidIn(t.vin[n]) && ValidIn(t.vin[i]);
    }
  }

  lemma ViewOutsAreValid(code: Script, t: Tx, n: nat, hashType: nat)
    requires n < |t.vin| && (hashType % 32 == 3 ==> n < |t.vout|) && ValidOuts(t.vout)
    ensures ValidOuts(SignedView(code, t, n, hashType).vout)
  {
    hide SizeOfOut;
    var vout := SignedView(code, t, n, hashType).vout;
    forall i | 0 <= i < |vout|
      ensures ValidOut(vout[i])
    {
      if hashType % 32 == 3 && i < n {
        assert vout[i] == TxOut(-1, []);
      }
    }
  }

  // -------------------------------------------------------------- field by field

  /** The fields that two transactions with equal messages share, for the input at the same index. */
  ghost predicate SharedFields(t: Tx, u: Tx, n: nat, hashType: nat)
    requires n < |t.vin| && n < |u.vin| && (hashType % 32 == 3 ==> n < |t.vout| && n < |u.vout|)
  {
    t.nVersion == u.nVersion && t.nLockTime == u.nLockTime &&
    t.vin[n].prevout == u.vin[n].prevout && t.vin[n].nSequence == u.vin[n].nSequence &&
    (hashType / 128 % 2 == 0 ==>
      |t.vin| == |u.vin| && (forall i :: 0 <= i < |t.vin| ==> t.vin[i].prevout == u.vin[i].prevout) &&
      (hashType % 32 != 2 && hashType % 32 != 3 ==>
        forall i :: 0 <= i < |t.vin| ==> t.vin[i].nSequence == u.vin[i].nSequence)) &&
    (hashType % 32 == 3 ==> t.vout[n] == u.vout[n]) &&
    (hashType % 32 != 2 && hashType % 32 != 3 ==> t.vout == u.vout)
  }

  /** Equal messages mean the same code, without its separators, and exactly these fields. */
  lemma {:induction false} WhatIsSigned(code: Script, t: Tx, code': Script, u: Tx, n: nat, hashType: nat)
    requires n < |t.vin| && n < |u.vin| && (hashType % 32 == 3 ==> n < |t.vout| && n < |u.vout|)
    requires Readable(code) && Readable(code') && |code| <= MAX_SIZE && |code'| <= MAX_SIZE
    requires ValidTx(t) && ValidTx(u) && hashType < UINT32
    ensures SignatureMessage(code, t, n, hashType) == SignatureMessage(code', u, n, hashType) <==>
            CodeBytes(code) == CodeBytes(code') && SharedFields(t, u, n, hashType)
  {
    hide SignatureMessage, CodeBytes, Readable, ValidTx, SharedFields, SignedView;
    SameMessage(code, t, n, hashType, code', u, n, hashType);
    SameView(CodeBytes(code), t, CodeBytes(code'), u, n, hashType);
  }

  lemma SameView(code: Script, t: Tx, code': Script, u: Tx, n: nat, hashType: nat)
    requires n < |t.vin| && n < |u.vin| && (hashType % 32 == 3 ==> n < |t.vout| && n < |u.vout|)
    ensures SignedView(code, t, n, hashType) == SignedView(code', u, n, hashType) <==>
            code == code' && SharedFields(t, u, n, hashType)
  {
    var v, w := SignedView(code, t, n, hashType), SignedView(code', u, n, hashType);
    if v == w {
      SharedFromViews(code, t, code', u, n, hashType);
    }
    if code == code' && SharedFields(t, u, n, hashType) {
      assert v.vin == w.vin && v.vout == w.vout;
    }
  }

  lemma SharedFromViews(code: Script, t: Tx, code': Script, u: Tx, n: nat, hashType: nat)
    requires n < |t.vin| && n < |u.vin| && (hashType % 32 == 3 ==> n < |t.vout| && n < |u.vout|)
    requires SignedView(code, t, n, hashType) == SignedView(code', u, n, hashType)
    ensures code == code' && SharedFields(t, u, n, hashType)
  {
    var v, w := SignedView(code, t, n, hashType), SignedView(code', u, n, hashType);
    var k := if hashType / 128 % 2 == 1 then 0 else n;
    assert v.vin[k] == t.vin[n].(scriptSig := code) && w.vin[k] == u.vin[n].(scriptSig := code');
    if hashType / 128 % 2 == 0 {
      forall i | 0 <= i < |t.vin|
        ensures t.vin[i].prevout == u.vin[i].prevout
        ensures hashType % 32 != 2 && hashType % 32 != 3 ==> t.vin[i].nSequence == u.vin[i].nSequence
      {
        assert v.vin[i] == w.vin[i];
      }
    }
    if hashType % 32 == 3 {
      assert v.vout[n] == t.vout[n] && w.vout[n] == u.vout[n];
    }
  }
}
