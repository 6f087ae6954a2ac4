/** Scripts as the source handles them: appended to in place and read with an iterator
    (src/lib/core/script.h:325-521, src/lib/core/script.cpp:983-1096, 1198-1354, 1945-1953). */
module ScriptLoops {
  import opened Bits
  import opened Options
  import opened Script
  import opened Transactions
  import opened Signatures
  import opened Interpreter
  import opened Signing
  import Sequences

  // --------------------------------------------------------------------- appending

  /** A CScript that operator<< appends to. */
  class ScriptBuilder {
    var script: Script

    constructor ()
      ensures script == []
    {
      script := [];
    }

    method AppendOpcode(opcode: Byte)
      modifies this
      ensures script == old(script) + [opcode]
    {
      script := script + [opcode];
    }

    /** operator<< on a byte vector. */
    method AppendData(b: Bytes)
      modifies this
      ensures script == old(script) + Push(b)
    {
      ghost var before := script;
      if |b| < OP_PUSHDATA1 {
        script := script + [SizeByte(|b|)];
        Sequences.Assoc(before, [SizeByte(|b|)], b);
      } else if |b| <= 0xff {
        script := script + [OP_PUSHDATA1];
        script := script + [SizeByte(|b|)];
        assert [OP_PUSHDATA1] + [SizeByte(|b|)] == [OP_PUSHDATA1, SizeByte(|b|)];
        Sequences.Assoc(before, [OP_PUSHDATA1], [SizeByte(|b|)]);
        Sequences.Assoc(before, [OP_PUSHDATA1, SizeByte(|b|)], b);
      } else if |b| <= 0xffff {
        script := script + [OP_PUSHDATA2];
        script := script + LE(|b|, 2);
        Sequences.Assoc(before, [OP_PUSHDATA2], LE(|b|, 2));
        Sequences.Assoc(before, [OP_PUSHDATA2] + LE(|b|, 2), b);
      } else {
        var nSize := |b| % 0x1_0000_0000;
        script := script + [OP_PUSHDATA4];
        script := script + LE(nSize, 4);
        Sequences.Assoc(before, [OP_PUSHDATA4], LE(nSize, 4));
        Sequences.Assoc(before, [OP_PUSHDATA4] + LE(nSize, 4), b);
      }
      script := script + b;
    }

    /** operator<< on a public key. */
    method AppendKey(key: Bytes)
      requires |key| < OP_PUSHDATA1
      modifies this
      ensures script == old(script) + ([SizeByte(|key|)] + key)
    {
      Sequences.Assoc(script, [SizeByte(|key|)], key);
      script := script + [SizeByte(|key|)];
      script := script + key;
    }

    method SetMultisig(nRequired: nat, keys: seq<Bytes>)
      requires nRequired <= 16 && |keys| <= 16
      requires forall i :: 0 <= i < |keys| ==> |keys[i]| < OP_PUSHDATA1
      modifies this
      ensures script == Multisig(nRequired, keys)
    {
      hide PushKeys;
      script := [];
      AppendOpcode(EncodeOP_N(nRequired));
      Sequences.NothingAround([EncodeOP_N(nRequired)]);
      NoKeysPushed(keys);
      for k := 0 to |keys|
        invariant script == [EncodeOP_N(nRequired)] + PushKeys(keys[..k])
      {
        PushedKey(keys, k);
        Sequences.Assoc([EncodeOP_N(nRequired)], PushKeys(keys[..k]), [SizeByte(|keys[k]|)] + keys[k]);
        AppendKey(keys[k]);
      }
      assert keys[..|keys|] == keys;
      ghost var body := script;
      AppendOpcode(EncodeOP_N(|keys|));
      AppendOpcode(OP_CHECKMULTISIG);
      Sequences.Assoc(body, [EncodeOP_N(|keys|)], [OP_CHECKMULTISIG]);
      assert [EncodeOP_N(|keys|)] + [OP_CHECKMULTISIG] == [EncodeOP_N(|keys|), OP_CHECKMULTISIG];
    }
  }

  lemma NoKeysPushed(keys: seq<Bytes>)
    ensures keys[..0] == [] && PushKeys(keys[..0]) == []
    ensures forall b: Bytes :: b + PushKeys(keys[..0]) == b
  {
    assert keys[..0] == [];
  }

  lemma {:induction false} PushedKey(keys: seq<Bytes>, k: nat)
    requires (forall i :: 0 <= i < |keys| ==> |keys[i]| < OP_PUSHDATA1) && k < |keys|
    ensures PushKeys(keys[..k + 1]) == PushKeys(keys[..k]) + ([SizeByte(|keys[k]|)] + keys[k])
  {
    if k == 0 {
      assert keys[..1][1..] == [] && keys[..0] == [];
      Sequences.NothingAround([SizeByte(|keys[0]|)] + keys[0]);
    } else {
      PushedKey(keys[1..], k - 1);
      assert keys[..k + 1][1..] == keys[1..][..k] && keys[..k][1..] == keys[1..][..k - 1];
      Sequences.Assoc([SizeByte(|keys[0]|)] + keys[0], PushKeys(keys[1..][..k - 1]), [SizeByte(|keys[k]|)] + keys[k]);
    }
  }

  // ----------------------------------------------------------------------- reading

  /** A const_iterator into a script. */
  class ScriptCursor {
    const script: Script
    var pc: nat

    predicate Valid()
      reads this
    {
      pc <= |script|
    }

    function Left(): (r: Script)
      reads this
      requires Valid()
    {
      script[pc..]
    }

    constructor (script: Script)
      ensures Valid() && this.script == script && pc == 0
    {
      this.script := script;
      pc := 0;
    }

    /** GetOp2: the iterator also moves when the instruction turns out to be cut off. */
    method GetOp2() returns (ok: bool, op: Op)
      requires Valid()
      modifies this
      ensures Valid() && pc >= old(pc) && (ok ==> pc > old(pc))
      ensures GetOp(old(Left())) == if ok then Fetched(op, Left()) else Stop(Left())
    {
      hide GetOp, Immediate, FromLE;
      op := Op(OP_INVALIDOPCODE, []);
      if pc >= |script| {
        NoneLeft(script, pc);
        return false, op;
      }
      var opcode := script[pc];
      ghost var start := pc;
      pc := pc + 1;
      if opcode > OP_PUSHDATA4 {
        CodeAt(script, start);
        return true, Op(opcode, []);
      }
      var nSize: nat := 0;
      if opcode < OP_PUSHDATA1 {
        nSize := opcode;
        DirectPushAt(script, start);
      } else {
        var width := if opcode == OP_PUSHDATA1 then 1 else if opcode == OP_PUSHDATA2 then 2 else 4;
        SizedPushAt(script, start, width);
        if |script| - pc < width {
          return false, op;
        }
        nSize := FromLE(script[pc..pc + width]);
        pc := pc + width;
      }
      OperandAt(opcode, nSize, script, pc);
      if |script| - pc < nSize {
        return false, op;
      }
      op := Op(opcode, script[pc..pc + nSize]);
      pc := pc + nSize;
      ok := true;
    }
  }

  /** The instruction at `pc`, case by case. */
  lemma NoneLeft(script: Script, pc: nat)
    requires pc == |script|
    ensures GetOp(script[pc..]) == Stop(script[pc..])
  {
  }

  lemma CodeAt(script: Script, pc: nat)
    requires pc < |script| && script[pc] > OP_PUSHDATA4
    ensures GetOp(script[pc..]) == Fetched(Op(script[pc], []), script[pc + 1..])
  {
    Advance(script, pc, 1);
  }

  lemma DirectPushAt(script: Script, pc: nat)
    requires pc < |script| && script[pc] < OP_PUSHDATA1
    ensures GetOp(script[pc..]) == Immediate(script[pc], script[pc], script[pc + 1..])
  {
    hide Immediate;
    Advance(script, pc, 1);
  }

  lemma SizedPushAt(script: Script, pc: nat, width: nat)
    requires pc < |script| && OP_PUSHDATA1 <= script[pc] <= OP_PUSHDATA4
    requires width == if script[pc] == OP_PUSHDATA1 then 1 else if script[pc] == OP_PUSHDATA2 then 2 else 4
    ensures GetOp(script[pc..]) ==
            if |script| - (pc + 1) < width then Stop(script[pc + 1..])
            else Immediate(script[pc], FromLE(script[pc + 1..pc + 1 + width]), script[pc + 1 + width..])
  {
    hide Immediate, FromLE;
    Advance(script, pc, 1);
    if pc + 1 + width <= |script| {
      Advance(script, pc + 1, width);
    }
  }

  lemma OperandAt(opcode: Byte, size: nat, script: Script, pc: nat)
    requires pc <= |script|
    ensures Immediate(opcode, size, script[pc..]) ==
            if |script| - pc < size then Stop(script[pc..])
            else Fetched(Op(opcode, script[pc..pc + size]), script[pc + size..])
  {
    if pc + size <= |script| {
      Advance(script, pc, size);
    }
  }

  lemma Advance(script: Script, pc: nat, n: nat)
    requires pc + n <= |script|
    ensures script[pc..][..n] == script[pc..pc + n] && script[pc..][n..] == script[pc + n..]
  {
  }

  /** FindAndDelete, erasing in place while the iterator moves over the instructions. */
  method FindAndDeleteLoop(script: Script, b: Script) returns (r: Script)
    ensures r == FindAndDelete(script, b)
  {
    hide FindAndDelete, GetOp;
    r := script;
    if b == [] {
      NothingToDelete(script);
      return;
    }
    var pc := 0;
    StartDeleting(script, b);
    var more := true;
    while more
      invariant 0 <= pc <= |r|
      invariant more ==> Deleting(r, pc, b) == FindAndDelete(script, b)
      invariant !more ==> r == FindAndDelete(script, b)
      decreases more, |r| - pc
    {
      while |r| - pc >= |b| && r[pc..pc + |b|] == b
        invariant 0 <= pc <= |r|
        invariant Deleting(r, pc, b) == FindAndDelete(script, b)
        decreases |r|
      {
        EraseStep(r, pc, b);
        r := r[..pc] + r[pc + |b|..];
      }
      MoveStep(r, pc, b);
      var f := GetOp(r[pc..]);
      more := f.Fetched?;
      if more {
        pc := |r| - |f.rest|;
      }
    }
  }

  /** What FindAndDelete will make of the script when the iterator stands at `pc`. */
  function Deleting(r: Script, pc: nat, b: Script): (s: Script)
    requires pc <= |r|
  {
    r[..pc] + FindAndDelete(r[pc..], b)
  }

  lemma NothingToDelete(script: Script)
    ensures FindAndDelete(script, []) == script
  {
  }

  lemma StartDeleting(script: Script, b: Script)
    ensures Deleting(script, 0, b) == FindAndDelete(script, b)
  {
    assert script[..0] == [] && script[0..] == script;
    Sequences.NothingAround(FindAndDelete(script, b));
  }

  lemma EraseStep(r: Script, pc: nat, b: Script)
    requires b != [] && pc + |b| <= |r| && r[pc..pc + |b|] == b
    ensures Deleting(r[..pc] + r[pc + |b|..], pc, b) == Deleting(r, pc, b)
  {
    hide GetOp;
    assert r[pc..][..|b|] == b && r[pc..][|b|..] == r[pc + |b|..];
    Sequences.TakeDrop(r[..pc], r[pc + |b|..]);
  }

  lemma MoveStep(r: Script, pc: nat, b: Script)
    requires b != [] && pc <= |r| && !(|r| - pc >= |b| && r[pc..pc + |b|] == b)
    ensures var f := GetOp(r[pc..]);
            |f.rest| <= |r| - pc && (f.Fetched? ==> |f.rest| < |r| - pc) &&
            Deleting(r, pc, b) == if f.Fetched? then Deleting(r, |r| - |f.rest|, b) else r
  {
    hide GetOp;
    var s, f := r[pc..], GetOp(r[pc..]);
    FetchShrinks(s);
    GetOpSuffix(s);
    assert |b| <= |s| ==> s[..|b|] == r[pc..pc + |b|];
    if f.Fetched? {
      KeepStep(r, pc, f.rest, FindAndDelete(f.rest, b));
    } else {
      assert r == r[..pc] + s;
    }
  }

  /** An instruction that is kept moves in front of the iterator. */
  lemma KeepStep(r: Script, pc: nat, rest: Script, after: Script)
    requires pc <= |r| && |rest| <= |r| - pc && rest == r[pc..][|r| - pc - |rest|..]
    ensures var next := |r| - |rest|;
            r[next..] == rest && r[..pc] + (r[pc..][..next - pc] + after) == r[..next] + after
  {
    var next := |r| - |rest|;
    assert r[..next] == r[..pc] + r[pc..][..next - pc];
    Sequences.Assoc(r[..pc], r[pc..][..next - pc], after);
  }

  // ------------------------------------------------------------- the signature message

  /** SerializeScriptCode: one pass counts the separators, another writes what stands between them. */
  method SerializeScriptCodeLoop(scriptCode: Script) returns (s: Bytes)
    ensures s == SerializeScriptCode(scriptCode)
  {
    var nCodeSeparators := 0;
    var it := scriptCode;
    var more := true;
    while more
      invariant nCodeSeparators + (if more then Separators(it) else 0) == Separators(scriptCode)
      decreases more, |it|
    {
      var f := GetOp(it);
      more := f.Fetched?;
      if more && f.op.opcode == OP_CODESEPARATOR {
        nCodeSeparators := nCodeSeparators + 1;
      }
      it := f.rest;
    }
    s := CompactSize(|scriptCode| - nCodeSeparators);
    var bytes := WriteBetweenSeparators(scriptCode);
    s := s + bytes;
  }

  method WriteBetweenSeparators(scriptCode: Script) returns (s: Bytes)
    ensures s == CodeBytes(scriptCode)
  {
    hide GetOp, CodeBytes;
    s := [];
    var itBegin, it := 0, 0;
    var more := true;
    ghost var out: Bytes := [];
    assert scriptCode[0..] == scriptCode;
    Sequences.NothingAround(CodeBytes(scriptCode));
    while more
      invariant 0 <= itBegin <= it <= |scriptCode| && out == s + scriptCode[itBegin..it]
      invariant more ==> out + CodeBytes(scriptCode[it..]) == CodeBytes(scriptCode)
      invariant !more ==> out == CodeBytes(scriptCode)
      decreases more, |scriptCode| - it
    {
      var f := GetOp(scriptCode[it..]);
      var next := |scriptCode| - |f.rest|;
      RestOfScript(scriptCode, it);
      CodeBytesStep(scriptCode, it, out);
      more := f.Fetched?;
      if more && f.op.opcode == OP_CODESEPARATOR {
        SeparatorIsOneByte(scriptCode, it);
        s := s + scriptCode[itBegin..next - 1];
        itBegin := next;
        Sequences.NothingAround(s);
      } else {
        Sequences.Assoc(s, scriptCode[itBegin..it], scriptCode[it..next]);
        assert scriptCode[itBegin..next] == scriptCode[itBegin..it] + scriptCode[it..next];
        out := out + scriptCode[it..next];
      }
      it := next;
    }
    s := s + scriptCode[itBegin..it];
  }

  lemma RestOfScript(script: Script, it: nat)
    requires it <= |script|
    ensures var rest := GetOp(script[it..]).rest;
            |rest| <= |script| - it && script[|script| - |rest|..] == rest
    ensures GetOp(script[it..]).Fetched? ==> |GetOp(script[it..]).rest| < |script| - it
  {
    GetOpSuffix(script[it..]);
  }

  lemma CodeBytesStep(script: Script, it: nat, out: Bytes)
    requires it <= |script|
    ensures var f := GetOp(script[it..]);
            |f.rest| <= |script| - it &&
            var part := script[it..|script| - |f.rest|];
            out + CodeBytes(script[it..]) ==
              if f.Stop? then out + part
              else if f.op.opcode == OP_CODESEPARATOR then out + CodeBytes(f.rest)
              else out + part + CodeBytes(f.rest)
  {
    var s, rest := script[it..], GetOp(script[it..]).rest;
    FetchShrinks(s);
    hide GetOp;
    assert s[..|s| - |rest|] == script[it..|script| - |rest|];
    Sequences.Assoc(out, script[it..|script| - |rest|], CodeBytes(rest));
  }

  lemma SeparatorIsOneByte(script: Script, it: nat)
    requires it <= |script| && GetOp(script[it..]).Fetched? && GetOp(script[it..]).op.opcode == OP_CODESEPARATOR
    ensures |GetOp(script[it..]).rest| == |script| - it - 1
  {
  }

  /** Serialize of the signature serializer, followed by the hash type. */
  method SerializeForSignature(code: Script, t: Tx, nIn: nat, hashType: nat) returns (s: Bytes)
    requires nIn < |t.vin| && (HashSingle(hashType) ==> nIn < |t.vout|)
    ensures s == SignatureMessage(code, t, nIn, hashType)
  {
    hide SignedInput, WriteOut, LE, CompactSize;
    s := LE(Unsigned(t.nVersion, UINT32), 4);
    var nInputs := if AnyoneCanPay(hashType) then 1 else |t.vin|;
    s := s + CompactSize(nInputs);
    ghost var head := s;
    Sequences.NothingAround(head);
    for nInput := 0 to nInputs
      invariant s == head + SignedInputs(t, nInput, nIn, code, hashType)
    {
      Sequences.Assoc(head, SignedInputs(t, nInput, nIn, code, hashType), SignedInput(t, nInput, nIn, code, hashType));
      s := s + SignedInput(t, nInput, nIn, code, hashType);
    }
    var nOutputs := if HashNone(hashType) then 0 else if HashSingle(hashType) then nIn + 1 else |t.vout|;
    s := s + CompactSize(nOutputs);
    ghost var middle := s;
    Sequences.NothingAround(middle);
    for nOutput := 0 to nOutputs
      invariant s == middle + SignedOutputs(t, nOutput, nIn, hashType)
    {
      var out := if HashSingle(hashType) && nOutput != nIn then NewTxOut else t.vout[nOutput];
      Sequences.Assoc(middle, SignedOutputs(t, nOutput, nIn, hashType), WriteOut(out));
      s := s + WriteOut(out);
    }
    s := s + LE(t.nLockTime, 4);
    s := s + LE(hashType, 4);
  }

  // -------------------------------------------------------------------- SignN, Solver

  /** SignN: keys are tried in order until enough signatures have been made. */
  method SignN(crypto: Crypto, signer: Signer, store: KeyStore, keys: seq<Bytes>, nRequired: nat, hash: Bytes,
               hashType: Byte) returns (r: Option<Script>)
    ensures r == SignKeys(crypto, signer, store, keys, nRequired, hash, hashType)
  {
    hide Sign1;
    var scriptSig: Script, nSigned := [], 0;
    var i := 0;
    JoinedTwice([], [], SignKeys(crypto, signer, store, keys, nRequired, hash, hashType));
    while i < |keys| && nSigned < nRequired
      invariant 0 <= i <= |keys| && 0 <= nSigned <= nRequired
      invariant Joined(scriptSig, SignKeys(crypto, signer, store, keys[i..], nRequired - nSigned, hash, hashType))
             == SignKeys(crypto, signer, store, keys, nRequired, hash, hashType)
    {
      assert keys[i..][1..] == keys[i + 1..];
      var push := Sign1(signer, store, crypto.hash160(PubKey(keys[i])), hash, hashType);
      if push.Some? {
        JoinedTwice(scriptSig, push.value,
                    SignKeys(crypto, signer, store, keys[i + 1..], nRequired - nSigned - 1, hash, hashType));
        scriptSig := scriptSig + push.value;
        nSigned := nSigned + 1;
      }
      i := i + 1;
    }
    Sequences.NothingAround(scriptSig);
    r := if nSigned == nRequired then Some(scriptSig) else None;
  }

  /** A script in front of another, if there is one. */
  function Joined(a: Script, b: Option<Script>): (r: Option<Script>) {
    match b case None => None case Some(s) => Some(a + s)
  }

  lemma JoinedTwice(a: Script, b: Script, c: Option<Script>)
    ensures Joined(a, Joined(b, c)) == Joined(a + b, c) && Joined([], c) == c
  {
    if c.Some? {
      Sequences.Assoc(a, b, c.value);
      Sequences.NothingAround(c.value);
    }
  }

  /** Solutions found, and more to come. */
  function Found(a: seq<Bytes>, b: Option<seq<Bytes>>): (r: Option<seq<Bytes>>) {
    match b case None => None case Some(s) => Some(a + s)
  }

  lemma FoundTwice(a: seq<Bytes>, b: seq<Bytes>, c: Option<seq<Bytes>>)
    ensures Found(a, Found(b, c)) == Found(a + b, c) && Found([], c) == c
  {
    if c.Some? {
      Sequences.Assoc(a, b, c.value);
      Sequences.NothingAround(c.value);
    }
  }

  /** The comparison loop of Solver for one template. */
  method CompareWithTemplate(script: Script, template: seq<Byte>) returns (r: Option<seq<Bytes>>)
    ensures r == MatchTemplate(script, template)
  {
    hide GetOp, MatchOne;
    var s, t := script, template;
    var solutions: seq<Bytes> := [];
    FoundTwice([], [], MatchTemplate(s, t));
    while true
      invariant Found(solutions, MatchTemplate(s, t)) == MatchTemplate(script, template)
      decreases |s|
    {
      if s == [] && t == [] {
        Sequences.NothingAround(solutions);
        return Some(solutions);
      }
      var f := GetOp(s);
      FetchShrinks(s);
      if f.Stop? || t == [] {
        return None;
      }
      var c := Collected(f.op, f.rest, []);
      if t[0] == OP_PUBKEYS {
        c := CollectLoop(f.op, f.rest);
        t := t[1..];
        if t == [] {
          return None;
        }
      }
      var one := MatchOne(c.op, t[0]);
      if one.None? {
        return None;
      }
      FoundTwice(solutions, c.keys + one.value, MatchTemplate(c.rest, t[1..]));
      solutions := solutions + (c.keys + one.value);
      s, t := c.rest, t[1..];
    }
  }

  lemma FetchShrinks(s: Script)
    ensures |GetOp(s).rest| <= |s| && (GetOp(s).Fetched? ==> |GetOp(s).rest| < |s|)
  {
  }

  /** The inner loop over public keys. */
  method CollectLoop(op: Op, rest: Script) returns (c: Collected)
    ensures c == CollectKeys(op, rest) && |c.rest| <= |rest|
  {
    hide GetOp;
    c := Collected(op, rest, []);
    Sequences.NothingAround(CollectKeys(op, rest).keys);
    while 33 <= |c.op.data| <= 65
      invariant |c.rest| <= |rest|
      invariant CollectKeys(op, rest) == CollectKeys(c.op, c.rest).(keys := c.keys + CollectKeys(c.op, c.rest).keys)
      decreases |c.rest|
    {
      var f := GetOp(c.rest);
      FetchShrinks(c.rest);
      if f.Stop? {
        return Collected(Op(OP_INVALIDOPCODE, []), f.rest, c.keys + [c.op.data]);
      }
      Sequences.Assoc(c.keys, [c.op.data], CollectKeys(f.op, f.rest).keys);
      c := Collected(f.op, f.rest, c.keys + [c.op.data]);
    }
    Sequences.NothingAround(c.keys);
  }
}
