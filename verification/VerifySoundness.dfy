/** What a verified input proves (src/lib/core/script.cpp:225-303, 307-971, 1155-1185, 1602-1641). */
module VerifySoundness {
  import opened Bits
  import opened Script
  import opened ScriptNumbers
  import opened Transactions
  import opened Signatures
  import opened SignedFields
  import opened MultisigMatching
  import opened Interpreter
  import opened SigningFacts
  import opened Signing
  import opened Options
  import Sequences

  // ------------------------------------------------------------------ scripts of pushes

  /** What an instruction up to OP_16 (0x60) pushes. */
  function Pushed(op: Op): (r: Bytes) {
    if op.opcode <= 0x4e then op.data
    else if op.opcode == 0x4f then [0x81]
    else if 0x51 <= op.opcode <= 0x60 then [SizeByte(op.opcode - 0x50)]
    else []
  }

  /** What the instructions of a script push, in order. */
  function Pushes(s: Script): (r: seq<Bytes>)
    ensures |r| == |Instructions(s)|
  {
    seq(|Instructions(s)|, i requires 0 <= i < |Instructions(s)| => Pushed(Instructions(s)[i]))
  }

  /** Instructions that push and do not fail: operands of at most 520 bytes, and not OP_RESERVED (0x50). */
  predicate PushesAlone(s: Script) {
    Readable(s) && forall i :: 0 <= i < |Instructions(s)| ==> IsPush(Instructions(s)[i])
  }

  predicate IsPush(op: Op) {
    op.opcode <= 0x60 && op.opcode != 0x50 && |op.data| <= 520
  }

  lemma FirstOfInstructions(s: Script)
    requires GetOp(s).Fetched?
    ensures Instructions(s) == [GetOp(s).op] + Instructions(GetOp(s).rest)
    ensures Readable(s) <==> Readable(GetOp(s).rest)
  {
  }

  /** The first of the instructions and the others. */
  lemma FirstOperand(a: seq<Op>, op: Op, b: seq<Op>)
    requires a == [op] + b
    ensures (forall i :: 0 <= i < |a| ==> IsPush(a[i])) <==> IsPush(op) && forall i :: 0 <= i < |b| ==> IsPush(b[i])
    ensures seq(|a|, i requires 0 <= i < |a| => Pushed(a[i])) ==
            [Pushed(op)] + seq(|b|, i requires 0 <= i < |b| => Pushed(b[i]))
  {
    hide IsPush, Pushed;
    assert a[0] == op && forall i :: 0 <= i < |b| ==> b[i] == a[i + 1];
    if IsPush(op) && forall i :: 0 <= i < |b| ==> IsPush(b[i]) {
      assert forall i :: 1 <= i < |a| ==> a[i] == b[i - 1];
    }
  }

  lemma FirstPush(s: Script)
    requires GetOp(s).Fetched?
    ensures Pushes(s) == [Pushed(GetOp(s).op)] + Pushes(GetOp(s).rest)
    ensures PushesAlone(s) <==> IsPush(GetOp(s).op) && PushesAlone(GetOp(s).rest)
  {
    hide Instructions, GetOp, Readable, Pushed, IsPush;
    FirstOfInstructions(s);
    FirstOperand(Instructions(s), GetOp(s).op, Instructions(GetOp(s).rest));
  }

  lemma SmallNumbers(opcode: Byte)
    requires opcode == OP_1NEGATE || OP_1 <= opcode <= OP_16
    ensures EncodeNum(opcode - (OP_1 - 1)) == Pushed(Op(opcode, []))
  {
    var n: nat := if opcode == OP_1NEGATE then 1 else opcode - (OP_1 - 1);
    assert Magnitude(n / 256) == [];
    assert Magnitude(n) == [SizeByte(n)];
  }

  /** One instruction of a push-only script. */
  lemma PushStep(ctx: Context, st: State)
    requires Executing(st.exec) && GetOp(st.rest).Fetched? && GetOp(st.rest).op.opcode <= OP_16
    ensures var f := GetOp(st.rest);
            st.rest != [] && Step(ctx, st) ==
              if IsPush(f.op) && |st.stack| + |st.alt| < MAX_STACK
              then Some(st.(rest := f.rest, stack := st.stack + [Pushed(f.op)])) else None
  {
    hide EncodeNum, IsDisabled;
    var op := GetOp(st.rest).op;
    OnlySomeDisabled(op.opcode);
    if op.opcode == OP_1NEGATE || OP_1 <= op.opcode {
      SmallNumbers(op.opcode);
    }
  }

  lemma OnlySomeDisabled(opcode: Byte)
    requires opcode <= OP_16
    ensures !IsDisabled(opcode)
  {
  }

  /** A run through pushes: it fails, or puts exactly these on the stack. */
  lemma {:induction false} RunThrough(ctx: Context, p: Script, rest: Script, st: State)
    requires IsPushOnly(p) && Executing(st.exec) && st.rest == p + rest
    ensures Run(ctx, st) ==
              if p == [] || (PushesAlone(p) && |st.stack| + |st.alt| + |Pushes(p)| <= MAX_STACK)
              then Run(ctx, st.(rest := rest, stack := st.stack + Pushes(p))) else None
    decreases |p|
  {
    hide Step, PushesAlone, IsPush, Pushed;
    if p == [] {
      Sequences.NothingAround(rest);
      Sequences.NothingAround(st.stack);
      assert Pushes(p) == [];
    } else {
      var f := GetOp(p);
      GetOpAppend(p, rest);
      FirstPush(p);
      PushStep(ctx, st);
      if Step(ctx, st).Some? {
        var next := Step(ctx, st).value;
        RunThrough(ctx, f.rest, rest, next);
        Sequences.Assoc(st.stack, [Pushed(f.op)], Pushes(f.rest));
        NoPushes(f.rest);
      }
    }
  }

  lemma NoPushes(s: Script)
    ensures s == [] ==> PushesAlone(s) && Pushes(s) == []
  {
  }

  /** EvalScript on a push-only script leaves exactly what it pushes, and succeeds exactly when all operands, their
      number and the script are within their bounds. */
  lemma EvalOfPushes(ctx: Context, s: Script)
    requires IsPushOnly(s)
    ensures Eval(ctx, [], s) ==
              if |s| <= 10000 && PushesAlone(s) && |Pushes(s)| <= 1000 then Some(Pushes(s)) else None
  {
    hide PushesAlone, IsPush, Pushed;
    Sequences.NothingAround(s);
    RunThrough(ctx, s, [], Initial([], s));
    Sequences.NothingAround(Pushes(s));
    NoPushes(s);
  }

  // ---------------------------------------------------------------- signatures and keys

  /** The last byte of the signature is its hash type; the bytes before it verify under the key for what that
      type signs. */
  ghost predicate MadeBy(crypto: Crypto, t: Tx, nIn: nat, code: Script, sig: Bytes, key: Bytes) {
    sig != [] && crypto.verify(key, SignatureHash(crypto, code, t, nIn, sig[|sig| - 1]), sig[..|sig| - 1])
  }

  /** The shortest big-endian form of a number that is not negative. */
  predicate ShortestInteger(b: Bytes) {
    b != [] && b[0] < 0x80 && (|b| > 1 && b[0] == 0 ==> b[1] >= 0x80)
  }

  /** A DER sequence of two integers, and the hash type. */
  predicate IsDer(sig: Bytes, r: Bytes, s: Bytes, hashType: Byte) {
    ShortestInteger(r) && ShortestInteger(s) && |r| + |s| <= 66 &&
    sig == [0x30, SizeByte(|r| + |s| + 4)] + [0x02, SizeByte(|r|)] + r + [0x02, SizeByte(|s|)] + s + [hashType]
  }

  /** A DER signature with one of the three hash types, with or without 0x80; s is even where that is demanded. */
  ghost predicate StrictSignature(sig: Bytes, evenS: bool) {
    exists r, s, h :: IsDer(sig, r, s, h) && h in {1, 2, 3, 0x81, 0x82, 0x83} && (evenS ==> s[|s| - 1] % 2 == 0)
  }

  lemma DerPositions(sig: Bytes, r: Bytes, s: Bytes, h: Byte)
    requires IsDer(sig, r, s, h)
    ensures |sig| == |r| + |s| + 7 <= 73 && sig[0] == 0x30 && sig[1] == |sig| - 3 && sig[2] == 2 && sig[3] == |r|
    ensures sig[4 + |r|] == 2 && sig[5 + |r|] == |s| && sig[|sig| - 1] == h
    ensures sig[4..4 + |r|] == r && sig[6 + |r|..6 + |r| + |s|] == s
  {
  }

  /** The canonical signatures are the DER encodings. */
  lemma CanonicalIsDer(sig: Bytes, flags: Flags)
    ensures IsCanonicalSignature(sig, flags) <==> !flags.strictEnc || StrictSignature(sig, flags.evenS)
  {
    if flags.strictEnc && IsCanonicalSignature(sig, flags) {
      DerOfCanonical(sig, flags);
    }
    if StrictSignature(sig, flags.evenS) {
      var r, s, h :| IsDer(sig, r, s, h) && h in {1, 2, 3, 0x81, 0x82, 0x83} && (flags.evenS ==> s[|s| - 1] % 2 == 0);
      CanonicalOfDer(sig, flags, r, s, h);
    }
  }

  lemma CanonicalOfDer(sig: Bytes, flags: Flags, r: Bytes, s: Bytes, h: Byte)
    requires IsDer(sig, r, s, h) && h in {1, 2, 3, 0x81, 0x82, 0x83} && (flags.evenS ==> s[|s| - 1] % 2 == 0)
    ensures IsCanonicalSignature(sig, flags)
  {
    hide IsDer;
    DerPositions(sig, r, s, h);
    assert ShortestInteger(r) && ShortestInteger(s) by { DerIntegers(sig, r, s, h); }
    CanonicalAt(sig, 4, r);
    CanonicalAt(sig, 6 + |r|, s);
    assert s[|s| - 1] == sig[5 + |r| + |s|];
  }

  lemma DerIntegers(sig: Bytes, r: Bytes, s: Bytes, h: Byte)
    requires IsDer(sig, r, s, h)
    ensures ShortestInteger(r) && ShortestInteger(s)
  {
  }

  lemma CanonicalAt(sig: Bytes, from: nat, b: Bytes)
    requires 2 <= from && from + |b| <= |sig| && sig[from..from + |b|] == b
    ensures CanonicalInteger(sig, from, |b|) <==> sig[from - 2] == 2 && ShortestInteger(b)
  {
    assert forall i :: 0 <= i < |b| ==> b[i] == sig[from + i];
  }

  lemma DerOfCanonical(sig: Bytes, flags: Flags)
    requires flags.strictEnc && IsCanonicalSignature(sig, flags)
    ensures StrictSignature(sig, flags.evenS)
  {
    var lenR := sig[3];
    var lenS := sig[5 + lenR];
    var r, s, h := sig[4..4 + lenR], sig[6 + lenR..6 + lenR + lenS], sig[|sig| - 1];
    CanonicalAt(sig, 4, r);
    CanonicalAt(sig, 6 + lenR, s);
    DerParts(sig, r, s, h);
    assert s[|s| - 1] == sig[5 + lenR + lenS];
  }

  lemma DerParts(sig: Bytes, r: Bytes, s: Bytes, h: Byte)
    requires |sig| == |r| + |s| + 7 <= 73 && sig[0] == 0x30 && sig[1] == |sig| - 3 && sig[2] == 2 && sig[3] == |r|
    requires sig[4 + |r|] == 2 && sig[5 + |r|] == |s| && sig[|sig| - 1] == h
    requires sig[4..4 + |r|] == r && sig[6 + |r|..6 + |r| + |s|] == s && ShortestInteger(r) && ShortestInteger(s)
    ensures IsDer(sig, r, s, h)
  {
    var i, j := 4 + |r|, 6 + |r| + |s|;
    assert sig == sig[..2] + sig[2..4] + sig[4..i] + sig[i..i + 2] + sig[i + 2..j] + sig[j..];
    assert sig[..2] == [0x30, SizeByte(|r| + |s| + 4)] && sig[2..4] == [0x02, SizeByte(|r|)];
    assert sig[i..i + 2] == [0x02, SizeByte(|s|)] && sig[j..] == [h];
  }

  /** Compressed keys have 33 bytes and begin with 2 or 3, others 65 and begin with 4, or with 6 or 7 where the
      encoding is not strict. */
  predicate KeyForm(key: Bytes, strict: bool) {
    key != [] && ((key[0] in {2, 3} && |key| == 33) || (key[0] in {4, 6, 7} && |key| == 65)) &&
    (strict ==> key[0] in {2, 3, 4})
  }

  /** When a signature is accepted for a key. */
  ghost predicate Accepted(ctx: Context, sig: Bytes, key: Bytes, code: Script) {
    MadeBy(ctx.crypto, ctx.txTo, ctx.nIn, code, sig, key) && KeyForm(key, ctx.flags.strictEnc) &&
    (ctx.hashType == 0 || ctx.hashType == sig[|sig| - 1]) &&
    (ctx.flags.strictEnc ==> StrictSignature(sig, ctx.flags.evenS))
  }

  lemma FitsMeans(ctx: Context, sig: Bytes, key: Bytes, code: Script)
    ensures SignatureFits(ctx, sig, key, code) <==> Accepted(ctx, sig, key, code)
  {
    hide IsCanonicalSignature, StrictSignature, SignatureHash;
    CanonicalIsDer(sig, ctx.flags);
  }

  // ---------------------------------------------------------------- the script hash

  /** OP_HASH160 <id> OP_EQUAL says whether the element on top hashes to the identifier. */
  lemma ScriptHashDecides(ctx: Context, stack: Stack, x: Bytes, id: Bytes)
    requires |id| == 20 && |stack| < 1000
    ensures Eval(ctx, stack + [x], PayToScriptHash(id)) ==
              if |stack| + 2 <= 1000 then Some(stack + [Truth(ctx.crypto.hash160(x) == id)]) else None
  {
    hide Run;
    var s, end: Script, push := PayToScriptHash(id), [OP_EQUAL], [SizeByte(20)] + id;
    var hash := ctx.crypto.hash160(x);
    assert s == [OP_HASH160] + (push + end);
    GetOpCode(OP_HASH160, push + end);
    var st0, st1 := Initial(stack + [x], s), State(push + end, stack + [hash], [], [], 1, s);
    TopElement(stack, x);
    StepReaches(ctx, st0, st1);
    PushAlone(id);
    RunThrough(ctx, push, end, st1);
    assert stack + [hash] + [id] == stack + [hash, id];
    if |stack| + 2 <= 1000 {
      LastEqual(ctx, stack, hash, id, s);
      var st3 := State([], stack + [Truth(hash == id)], [], [], 2, s);
      assert Reaches(ctx, st0, st3);
      ReachesEnd(ctx, stack + [x], s, st3);
    }
  }

  lemma TopElement(stack: Stack, x: Bytes)
    ensures Pop(stack + [x], 1) == stack && Top(stack + [x], 1) == x
  {
  }

  lemma PushAlone(b: Bytes)
    requires |b| < OP_PUSHDATA1
    ensures var s := [SizeByte(|b|)] + b; IsPushOnly(s) && PushesAlone(s) && Pushes(s) == [b]
  {
    var s := [SizeByte(|b|)] + b;
    GetOpDirect(SizeByte(|b|), b, []);
    Sequences.NothingAround(s);
    FirstPush(s);
    NoPushes([]);
  }

  lemma LastEqual(ctx: Context, stack: Stack, a: Bytes, b: Bytes, code: Script)
    requires |stack| + 2 <= 1000
    ensures Reaches(ctx, State([OP_EQUAL], stack + [a, b], [], [], 1, code),
                    State([], stack + [Truth(a == b)], [], [], 2, code))
  {
    var st := State([OP_EQUAL], stack + [a, b], [], [], 1, code);
    Sequences.NothingAround([OP_EQUAL]);
    GetOpCode(OP_EQUAL, []);
    assert Pop(st.stack, 2) == stack && Top(st.stack, 2) == a && Top(st.stack, 1) == b;
    StepReaches(ctx, st, State([], stack + [Truth(a == b)], [], [], 2, code));
  }

  // ------------------------------------------------------------- one of many keys

  /** The signature is accepted for one of the keys. */
  ghost predicate SomeKeyFits(ctx: Context, sig: Bytes, keys: seq<Bytes>, code: Script) {
    exists k :: 0 <= k < |keys| && SignatureFits(ctx, sig, keys[k], code)
  }

  lemma FirstOfKeys(keys: seq<Bytes>)
    requires CompressedKeys(keys)
    ensures keys == [] ==> PushKeys(keys) == []
    ensures keys != [] ==> PushKeys(keys) != [] && keys == [keys[0]] + keys[1..]
  {
  }

  lemma {:induction false} PushesOfKeys(keys: seq<Bytes>)
    requires CompressedKeys(keys)
    ensures IsPushOnly(PushKeys(keys)) && PushesAlone(PushKeys(keys)) && Pushes(PushKeys(keys)) == keys
  {
    hide PushesAlone, Pushes, PushKeys, GetOp, Instructions;
    FirstOfKeys(keys);
    if keys == [] {
      NoPushes([]);
    } else {
      var s := PushKeys(keys);
      Sequences.NothingAround(s);
      NextKey(keys, []);
      Sequences.NothingAround(PushKeys(keys[1..]));
      PushesOfKeys(keys[1..]);
      FirstPush(s);
    }
  }

  /** The pushes that a redeem script begins with. */
  ghost function RedeemPushes(keys: seq<Bytes>): Script
    requires Redeemable(keys)
  {
    [OP_1] + (PushKeys(keys) + [EncodeOP_N(|keys|)])
  }

  lemma {:induction false} PushesAppend(p: Script, q: Script)
    requires IsPushOnly(p) && IsPushOnly(q) && PushesAlone(p) && PushesAlone(q)
    ensures IsPushOnly(p + q) && PushesAlone(p + q) && Pushes(p + q) == Pushes(p) + Pushes(q)
    decreases |p|
  {
    hide IsPush, Pushed;
    if p == [] {
      Sequences.NothingAround(q);
      NoPushes(p);
      Sequences.NothingAround(Pushes(q));
    } else {
      var f := GetOp(p);
      GetOpAppend(p, q);
      FirstPush(p);
      FirstPush(p + q);
      PushesAppend(f.rest, q);
      Sequences.Assoc([Pushed(f.op)], Pushes(f.rest), Pushes(q));
    }
  }

  lemma PushOfNumber(n: nat)
    requires 1 <= n <= 16
    ensures var s: Script := [EncodeOP_N(n)];
            IsPushOnly(s) && PushesAlone(s) && Pushes(s) == [EncodeNum(n)]
  {
    var s: Script := [EncodeOP_N(n)];
    Sequences.NothingAround(s);
    GetOpCode(EncodeOP_N(n), []);
    FirstPush(s);
    NoPushes([]);
    SmallNumbers(EncodeOP_N(n));
  }

  lemma PushesOfRedeem(keys: seq<Bytes>)
    requires Redeemable(keys)
    ensures Multisig(1, keys) == RedeemPushes(keys) + [OP_CHECKMULTISIG]
    ensures IsPushOnly(RedeemPushes(keys)) && PushesAlone(RedeemPushes(keys))
    ensures Pushes(RedeemPushes(keys)) == [EncodeNum(1)] + (keys + [EncodeNum(|keys|)])
  {
    hide PushKeys, PushesAlone, Pushes, IsPushOnly, EncodeNum;
    var n: Script := [EncodeOP_N(|keys|)];
    PushesOfKeys(keys);
    PushOfNumber(|keys|);
    PushOfNumber(1);
    PushesAppend(PushKeys(keys), n);
    PushesAppend([OP_1], PushKeys(keys) + n);
    assert Multisig(1, keys) == RedeemPushes(keys) + [OP_CHECKMULTISIG];
  }

  /** What OP_CHECKMULTISIG finds above a stack: the keys, one signature and the dummy. */
  lemma ArgumentsOfRedeem(stack: Stack, keys: seq<Bytes>)
    requires Redeemable(keys)
    ensures var args := MultisigArguments(stack + ([EncodeNum(1)] + (keys + [EncodeNum(|keys|)])), 1);
            if |stack| < 2 then args.None?
            else
              args.Some? && args.value.size == 4 + |keys| && args.value.sigs == [Top(stack, 1)] &&
              |args.value.keys| == |keys| && forall k :: 0 <= k < |keys| ==> args.value.keys[k] == keys[|keys| - 1 - k]
  {
    hide EncodeNum, CastToBigNum;
    var s, n := stack + ([EncodeNum(1)] + (keys + [EncodeNum(|keys|)])), |keys|;
    NumberOnStack(n);
    NumberOnStack(1);
    assert Top(s, 1) == EncodeNum(n) && Top(s, 2 + n) == EncodeNum(1);
    if |stack| >= 2 {
      assert Downward(s, 3 + n, 1) == [Top(stack, 1)];
    }
  }

  lemma OneMatches(ctx: Context, keys: seq<Bytes>, reversed: seq<Bytes>, sig: Bytes, code: Script)
    requires |keys| == |reversed| && forall k :: 0 <= k < |keys| ==> reversed[k] == keys[|keys| - 1 - k]
    ensures SignaturesMatch(ctx, [sig], reversed, code) <==> SomeKeyFits(ctx, sig, keys, code)
  {
    hide SignatureFits;
    var ok := (signature, key) => SignatureFits(ctx, signature, key, code);
    GreedyIsComplete([sig], reversed, ok);
    if SignaturesMatch(ctx, [sig], reversed, code) {
      var f :| Matching([sig], reversed, ok, f);
      assert ok([sig][0], reversed[f[0]]);
      assert SignatureFits(ctx, sig, keys[|keys| - 1 - f[0]], code);
    }
    if SomeKeyFits(ctx, sig, keys, code) {
      var k :| 0 <= k < |keys| && SignatureFits(ctx, sig, keys[k], code);
      OneFits(ctx, reversed, sig, |keys| - 1 - k, code);
    }
  }

  /** A redeem script on any stack: it takes the dummy and the signature and says whether the signature is accepted
      for one of its keys, over the script without that signature. */
  lemma RedeemDecides(ctx: Context, stack: Stack, keys: seq<Bytes>)
    requires Redeemable(keys)
    ensures var code := Multisig(1, keys);
            Eval(ctx, stack, code) ==
              if |stack| < 2 || |stack| + |keys| + 2 > 1000 then None
              else Some(Pop(stack, 2) + [Truth(SomeKeyFits(ctx, Top(stack, 1), keys, FindAndDelete(code, Push(Top(stack, 1)))))])
  {
    hide Run, Multisig, RedeemPushes, PushesAlone, Pushes, IsPushOnly, SomeKeyFits, EncodeNum;
    var s, p := Multisig(1, keys), RedeemPushes(keys);
    RedeemLength(keys);
    PushesOfRedeem(keys);
    RunThrough(ctx, p, [OP_CHECKMULTISIG], Initial(stack, s));
    if |stack| + |keys| + 2 <= 1000 {
      LastOfRedeem(ctx, stack, keys, s);
    }
  }

  lemma LastOfRedeem(ctx: Context, stack: Stack, keys: seq<Bytes>, code: Script)
    requires Redeemable(keys) && |stack| + |keys| + 2 <= 1000
    ensures var st := At([OP_CHECKMULTISIG], stack + ([EncodeNum(1)] + (keys + [EncodeNum(|keys|)])), code);
            Run(ctx, st) ==
              if |stack| < 2 then None
              else Some(State([], Pop(stack, 2) + [Truth(SomeKeyFits(ctx, Top(stack, 1), keys,
                              FindAndDelete(code, Push(Top(stack, 1)))))], [], [], 1 + |keys|, code))
  {
    hide SignaturesMatch, SomeKeyFits, EncodeNum, MultisigArguments, Push, FindAndDelete;
    var s := stack + ([EncodeNum(1)] + (keys + [EncodeNum(|keys|)]));
    var st := At([OP_CHECKMULTISIG], s, code);
    TailOps(1);
    ArgumentsOfRedeem(stack, keys);
    if |stack| >= 2 {
      var args := MultisigArguments(s, 1).value;
      var without := FindAndDelete(code, Push(Top(stack, 1)));
      assert [Top(stack, 1)][1..] == [];
      assert WithoutSigs(code, args.sigs) == without;
      OneMatches(ctx, keys, args.keys, Top(stack, 1), without);
      assert Pop(s, args.size) == Pop(stack, 2);
      StepReaches(ctx, st, State([], Pop(stack, 2) + [Truth(SomeKeyFits(ctx, Top(stack, 1), keys, without))], [], [],
                                 1 + |keys|, code));
    } else {
      assert Step(ctx, st).None?;
    }
  }

  // --------------------------------------------------------------------- verification

  lemma {:induction false} PushesArePushOnly(s: Script)
    requires PushesAlone(s)
    ensures IsPushOnly(s)
    decreases |s|
  {
    if s != [] {
      FirstPush(s);
      PushesArePushOnly(GetOp(s).rest);
    }
  }

  /** The elements that a signature script puts below the redeem script, and the redeem script. */
  ghost predicate Supplies(scriptSig: Script, below: seq<Bytes>, redeem: Bytes) {
    |scriptSig| <= 10000 && PushesAlone(scriptSig) && Pushes(scriptSig) == below + [redeem] && |below| < 999
  }

  /** The script runs and leaves a true element on top. */
  ghost predicate Satisfies(ctx: Context, stack: Stack, script: Script) {
    Eval(ctx, stack, script).Some? && Eval(ctx, stack, script).value != [] &&
    CastToBool(Top(Eval(ctx, stack, script).value, 1))
  }

  lemma TruthIsBool(b: bool)
    ensures CastToBool(Truth(b)) == b
  {
    assert b ==> Truth(b)[0] == 1;
  }

  /** Spending an output that pays to a script hash: exactly the scripts of pushes pass that push, last of all, a
      script with this hash which the elements pushed before it satisfy. */
  lemma VerifyScriptHash(ctx: Context, scriptSig: Script, id: Bytes)
    requires |id| == 20 && ctx.flags.p2sh
    ensures Verify(ctx, scriptSig, PayToScriptHash(id)) <==>
              exists below, redeem :: Supplies(scriptSig, below, redeem) && ctx.crypto.hash160(redeem) == id &&
                                      Satisfies(ctx, below, redeem)
  {
    hide PushesAlone, Pushes, Eval, CastToBool;
    if Verify(ctx, scriptSig, PayToScriptHash(id)) {
      EvalOfPushes(ctx, scriptSig);
      var copy := Eval(ctx, [], scriptSig).value;
      var below, redeem := Pop(copy, 1), Top(copy, 1);
      assert copy == below + [redeem];
      ScriptHashDecides(ctx, below, redeem, id);
      TopElement(below, Truth(ctx.crypto.hash160(redeem) == id));
      TruthIsBool(ctx.crypto.hash160(redeem) == id);
      assert Supplies(scriptSig, below, redeem);
    }
    if below, redeem :| Supplies(scriptSig, below, redeem) && ctx.crypto.hash160(redeem) == id &&
                        Satisfies(ctx, below, redeem) {
      SuppliedVerifies(ctx, scriptSig, below, redeem);
    }
  }

  lemma SuppliedVerifies(ctx: Context, scriptSig: Script, below: seq<Bytes>, redeem: Bytes)
    requires |ctx.crypto.hash160(redeem)| == 20 && Supplies(scriptSig, below, redeem) && Satisfies(ctx, below, redeem)
    ensures Verify(ctx, scriptSig, PayToScriptHash(ctx.crypto.hash160(redeem)))
  {
    hide PushesAlone, Pushes, Eval, CastToBool;
    PushesArePushOnly(scriptSig);
    EvalOfPushes(ctx, scriptSig);
    ScriptHashDecides(ctx, below, redeem, ctx.crypto.hash160(redeem));
    TopElement(below, True);
    TopElement(below, redeem);
    TruthIsBool(true);
  }

  /** The signature was made by one of the keys, for the script without that signature; a hash type that is fixed
      in advance and, with strict encodings, DER are demanded as well. */
  ghost predicate SignedByOne(ctx: Context, sig: Bytes, keys: seq<Bytes>)
    requires Redeemable(keys)
  {
    exists k :: 0 <= k < |keys| &&
      MadeBy(ctx.crypto, ctx.txTo, ctx.nIn, FindAndDelete(Multisig(1, keys), Push(sig)), sig, keys[k]) &&
      (ctx.hashType == 0 || ctx.hashType == sig[|sig| - 1]) &&
      (ctx.flags.strictEnc ==> StrictSignature(sig, ctx.flags.evenS))
  }

  lemma FitsOne(ctx: Context, sig: Bytes, keys: seq<Bytes>)
    requires Redeemable(keys)
    ensures SomeKeyFits(ctx, sig, keys, FindAndDelete(Multisig(1, keys), Push(sig))) <==> SignedByOne(ctx, sig, keys)
  {
    hide SignatureFits, StrictSignature, Multisig, Push, FindAndDelete, SignatureHash;
    var code := FindAndDelete(Multisig(1, keys), Push(sig));
    forall k | 0 <= k < |keys|
      ensures SignatureFits(ctx, sig, keys[k], code) <==>
                MadeBy(ctx.crypto, ctx.txTo, ctx.nIn, code, sig, keys[k]) &&
                (ctx.hashType == 0 || ctx.hashType == sig[|sig| - 1]) &&
                (ctx.flags.strictEnc ==> StrictSignature(sig, ctx.flags.evenS))
    {
      FitsMeans(ctx, sig, keys[k], code);
    }
  }

  lemma RedeemSatisfied(ctx: Context, stack: Stack, keys: seq<Bytes>)
    requires Redeemable(keys)
    ensures Satisfies(ctx, stack, Multisig(1, keys)) <==>
              2 <= |stack| && |stack| + |keys| + 2 <= 1000 && SignedByOne(ctx, stack[|stack| - 1], keys)
  {
    hide Eval, Multisig, SomeKeyFits, SignedByOne, CastToBool, Push, FindAndDelete;
    RedeemDecides(ctx, stack, keys);
    if 2 <= |stack| && |stack| + |keys| + 2 <= 1000 {
      var sig := Top(stack, 1);
      var ok := SomeKeyFits(ctx, sig, keys, FindAndDelete(Multisig(1, keys), Push(sig)));
      FitsOne(ctx, sig, keys);
      TopElement(Pop(stack, 2), Truth(ok));
      TruthIsBool(ok);
    }
  }

  /** Spending an output by a script that one of many keys must sign, whatever script is offered: it must push that
      script, with the hash that the output names, and below it a dummy and a signature by one of the keys. */
  lemma VerifyOneOfMany(ctx: Context, scriptSig: Script, id: Bytes, below: seq<Bytes>, keys: seq<Bytes>)
    requires |id| == 20 && ctx.flags.p2sh && Redeemable(keys)
    requires Pushes(scriptSig) == below + [Multisig(1, keys)]
    ensures Verify(ctx, scriptSig, PayToScriptHash(id)) <==>
              |scriptSig| <= 10000 && PushesAlone(scriptSig) && ctx.crypto.hash160(Multisig(1, keys)) == id &&
              2 <= |below| && |below| + |keys| + 2 <= 1000 && SignedByOne(ctx, below[|below| - 1], keys)
  {
    hide Verify, Eval, Multisig, SignedByOne, PushesAlone, Pushes, PayToScriptHash;
    VerifyScriptHash(ctx, scriptSig, id);
    RedeemSatisfied(ctx, below, keys);
    var redeem := Multisig(1, keys);
    SameEnd(below, redeem);
    if Verify(ctx, scriptSig, PayToScriptHash(id)) {
      var b, r :| Supplies(scriptSig, b, r) && ctx.crypto.hash160(r) == id && Satisfies(ctx, b, r);
      SameEnd(b, r);
    }
    if |below| < 999 {
      assert Supplies(scriptSig, below, redeem) == (|scriptSig| <= 10000 && PushesAlone(scriptSig));
    }
  }

  lemma SameEnd(s: seq<Bytes>, x: Bytes)
    ensures (s + [x])[..|s + [x]| - 1] == s && (s + [x])[|s + [x]| - 1] == x
  {
  }

  // ------------------------------------------------------------------ verified inputs

  lemma {:induction false} PushesHaveNoSeparator(p: Script, s: Script)
    requires PushesAlone(p) && IsPushOnly(p) && Readable(s)
    requires forall i :: 0 <= i < |Instructions(s)| ==> Instructions(s)[i].opcode != 0xab
    ensures Readable(p + s)
    ensures forall i :: 0 <= i < |Instructions(p + s)| ==> Instructions(p + s)[i].opcode != 0xab
    decreases |p|
  {
    if p == [] {
      Sequences.NothingAround(s);
    } else {
      GetOpAppend(p, s);
      FirstPush(p);
      PushesHaveNoSeparator(GetOp(p).rest, s);
      assert Instructions(p + s) == [GetOp(p).op] + Instructions(GetOp(p).rest + s);
    }
  }

  /** A redeem script is signed as it is. */
  lemma RedeemIsCode(keys: seq<Bytes>)
    requires Redeemable(keys)
    ensures Readable(Multisig(1, keys)) && CodeBytes(Multisig(1, keys)) == Multisig(1, keys)
  {
    hide Multisig, RedeemPushes, PushesAlone, IsPushOnly, Pushes, CodeBytes;
    PushesOfRedeem(keys);
    TailOps(1);
    var last: Script := [OP_CHECKMULTISIG];
    assert Instructions(last) == [Op(OP_CHECKMULTISIG, [])] + Instructions([]);
    assert Readable(last) && forall i :: 0 <= i < |Instructions(last)| ==> Instructions(last)[i].opcode != 0xab;
    PushesHaveNoSeparator(RedeemPushes(keys), last);
    NothingStripped(Multisig(1, keys));
  }

  /** <hash> between OP_HASH160 and OP_EQUAL. */
  ghost predicate PaysToHash(script: Script, id: Bytes) {
    |id| == 20 && script == [0xa9, 0x14] + id + [0x87]
  }

  /** One of the keys signed the transaction for this input: the output that it claims pays to the hash of their
      redeem script, which is pushed last, and the signature pushed before it verifies under a key for the hash of
      what its type signs. */
  ghost predicate KeySpends(crypto: Crypto, from: Tx, t: Tx, j: nat, keys: seq<Bytes>)
    requires j < |t.vin|
  {
    var n, pushed := t.vin[j].prevout.n, Pushes(t.vin[j].scriptSig);
    Redeemable(keys) && n < |from.vout| && |pushed| >= 3 && pushed[|pushed| - 1] == Multisig(1, keys) &&
    PaysToHash(from.vout[n].scriptPubKey, crypto.hash160(Multisig(1, keys))) &&
    exists k :: 0 <= k < |keys| && KeySigned(crypto, Multisig(1, keys), t, j, pushed[|pushed| - 2], keys[k])
  }

  ghost predicate KeySigned(crypto: Crypto, redeem: Script, t: Tx, j: nat, sig: Bytes, key: Bytes) {
    StrictSignature(sig, false) && sig != [] &&
    crypto.verify(key, ViewHash(crypto, redeem, t, j, sig[|sig| - 1]), sig[..|sig| - 1])
  }

  /** What a verified input proves: an output that pays to a script hash is spent with the script of that hash, and
      by one of its keys when the script asks for one of many. */
  ghost predicate SpentByKey(crypto: Crypto, from: Tx, t: Tx, j: nat)
    requires j < |t.vin|
  {
    var n, pushed := t.vin[j].prevout.n, Pushes(t.vin[j].scriptSig);
    n < |from.vout| &&
    forall id :: PaysToHash(from.vout[n].scriptPubKey, id) ==>
      PushesAlone(t.vin[j].scriptSig) && pushed != [] && crypto.hash160(pushed[|pushed| - 1]) == id &&
      forall keys :: Redeemable(keys) && pushed[|pushed| - 1] == Multisig(1, keys) ==> KeySpends(crypto, from, t, j, keys)
  }

  lemma SignedIsKeySigned(crypto: Crypto, t: Tx, j: nat, sig: Bytes, keys: seq<Bytes>)
    requires Redeemable(keys) && SignedByOne(SignContext(crypto, t, j), sig, keys)
    ensures exists k :: 0 <= k < |keys| && KeySigned(crypto, Multisig(1, keys), t, j, sig, keys[k])
  {
    hide Multisig, StrictSignature, SignatureHash, ViewHash, FindAndDelete, Push, CodeBytes, IsCanonicalSignature;
    var redeem := Multisig(1, keys);
    CanonicalIsDer(sig, StrictFlags);
    RedeemKeepsCode(keys, sig);
    assert WithoutSigs(redeem, [sig]) == FindAndDelete(redeem, Push(sig)) by { assert [sig][1..] == []; }
    RedeemIsCode(keys);
    var k :| 0 <= k < |keys| && MadeBy(crypto, t, j, redeem, sig, keys[k]);
    HashIsOfView(crypto, redeem, t, j, sig[|sig| - 1]);
    assert KeySigned(crypto, redeem, t, j, sig, keys[k]);
  }

  lemma VerifiedIsSpentByKey(crypto: Crypto, from: Tx, t: Tx, j: nat)
    requires j < |t.vin| && t.vin[j].prevout.n < |from.vout|
    requires Verify(SignContext(crypto, t, j), t.vin[j].scriptSig, from.vout[t.vin[j].prevout.n].scriptPubKey)
    ensures SpentByKey(crypto, from, t, j)
  {
    hide Verify, PushesAlone, Pushes, Multisig, Satisfies, KeySigned, SignedByOne;
    var n, s, ctx := t.vin[j].prevout.n, t.vin[j].scriptSig, SignContext(crypto, t, j);
    var pushed := Pushes(s);
    forall id | PaysToHash(from.vout[n].scriptPubKey, id)
      ensures PushesAlone(s) && pushed != [] && crypto.hash160(pushed[|pushed| - 1]) == id
      ensures forall keys :: Redeemable(keys) && pushed[|pushed| - 1] == Multisig(1, keys) ==>
                KeySpends(crypto, from, t, j, keys)
    {
      assert from.vout[n].scriptPubKey == PayToScriptHash(id);
      VerifyScriptHash(ctx, s, id);
      var below, redeem :| Supplies(s, below, redeem) && crypto.hash160(redeem) == id && Satisfies(ctx, below, redeem);
      SameEnd(below, redeem);
      forall keys | Redeemable(keys) && redeem == Multisig(1, keys)
        ensures KeySpends(crypto, from, t, j, keys)
      {
        RedeemSatisfied(ctx, below, keys);
        SignedIsKeySigned(crypto, t, j, below[|below| - 1], keys);
      }
    }
  }

  /** The redeem script that is found last in a script of pushes is the element that it pushes last. */
  lemma {:induction false} LastPushed(s: Script, last: Bytes)
    requires PushesAlone(s) && s != [] && LastData(s, last) != []
    ensures Pushes(s) != [] && Pushes(s)[|Pushes(s)| - 1] == LastData(s, last)
    decreases |s|
  {
    hide PushesAlone, Pushes;
    var f := GetOp(s);
    FirstPush(s);
    NoPushes(f.rest);
    if f.rest != [] {
      LastPushed(f.rest, f.op.data);
    }
  }
}
