/** The script interpreter (src/lib/core/script.cpp:225-971, 1155-1185, 1602-1641). */
module Interpreter {
  import opened Bits
  import opened Script
  import opened ScriptNumbers
  import opened Transactions
  import opened Signatures
  import opened MultisigMatching
  import opened Options

  type Stack = seq<Bytes>

  /** SCRIPT_VERIFY_* flags; the cache flag has no effect on results. */
  datatype Flags = Flags(p2sh: bool, strictEnc: bool, evenS: bool)

  /** What the evaluation of one input's scripts depends on. */
  datatype Context = Context(crypto: Crypto, txTo: Tx, nIn: nat, flags: Flags, hashType: nat)

  const MAX_SCRIPT_SIZE := 10000
  const MAX_ELEMENT_SIZE := 520
  const MAX_OPS := 201
  const MAX_STACK := 1000

  const True: Bytes := [1]
  const False: Bytes := []

  function Truth(b: bool): Bytes { if b then True else False }

  // ----------------------------------------------------------- signature checks

  predicate IsCanonicalPubKey(key: Bytes, flags: Flags) {
    !flags.strictEnc ||
    (|key| >= 33 && (if key[0] == 4 then |key| == 65 else (key[0] == 2 || key[0] == 3) && |key| == 33))
  }

  /** A DER integer at `from` of the given length: not negative and not padded needlessly. */
  predicate CanonicalInteger(sig: Bytes, from: nat, length: nat)
    requires 2 <= from && from + length <= |sig|
  {
    sig[from - 2] == 0x02 && length > 0 && sig[from] < 0x80 &&
    !(length > 1 && sig[from] == 0 && sig[from + 1] < 0x80)
  }

  predicate IsCanonicalSignature(sig: Bytes, flags: Flags) {
    !flags.strictEnc ||
    (9 <= |sig| <= 73 &&
     (var hashType := sig[|sig| - 1] % 128;
      SIGHASH_ALL <= hashType <= SIGHASH_SINGLE && sig[0] == 0x30 && sig[1] == |sig| - 3 &&
      var lenR := sig[3];
      5 + lenR < |sig| &&
      var lenS := sig[5 + lenR];
      lenR + lenS + 7 == |sig| &&
      CanonicalInteger(sig, 4, lenR) && CanonicalInteger(sig, 6 + lenR, lenS) &&
      (flags.evenS ==> sig[5 + lenR + lenS] % 2 == 0)))
  }

  /** CPubKey::GetLen: the size a key announces in its first byte. */
  function PubKeySize(header: Byte): nat {
    if header == 2 || header == 3 then 33 else if header == 4 || header == 6 || header == 7 then 65 else 0
  }

  /** The bytes a CPubKey keeps; none if the size does not fit the header. */
  function PubKey(b: Bytes): Bytes {
    if b != [] && PubKeySize(b[0]) == |b| then b else []
  }

  predicate CheckSig(ctx: Context, sig: Bytes, key: Bytes, code: Script) {
    PubKey(key) != [] && sig != [] &&
    var last := sig[|sig| - 1];
    (ctx.hashType == 0 || ctx.hashType == last) &&
    ctx.crypto.verify(PubKey(key), SignatureHash(ctx.crypto, code, ctx.txTo, ctx.nIn, last), sig[..|sig| - 1])
  }

  predicate SignatureFits(ctx: Context, sig: Bytes, key: Bytes, code: Script) {
    IsCanonicalSignature(sig, ctx.flags) && IsCanonicalPubKey(key, ctx.flags) && CheckSig(ctx, sig, key, code)
  }

  // ------------------------------------------------------------------ the state

  /** rest: unread script; code: the script from the last OP_CODESEPARATOR on. */
  datatype State = State(rest: Script, stack: Stack, alt: Stack, exec: seq<bool>, ops: nat, code: Script)

  /** stacktop(-k). */
  function Top(s: Stack, k: nat): Bytes
    requires 1 <= k <= |s|
  {
    s[|s| - k]
  }

  /** The stack without its k topmost elements. */
  function Pop(s: Stack, k: nat): (r: Stack)
    requires k <= |s|
    ensures |r| == |s| - k
  {
    s[..|s| - k]
  }

  predicate IsDisabled(opcode: Byte) {
    opcode in {0x7e, 0x7f, 0x80, 0x81, 0x83, 0x84, 0x85, 0x86, 0x8d, 0x8e, 0x95, 0x96, 0x97, 0x98, 0x99}
  }

  // ---------------------------------------------------- operations on the stack

  /** OP_2DROP .. OP_TUCK and OP_SIZE. */
  function Shuffle(opcode: Byte, s: Stack): (r: Option<Stack>)
    ensures r.Some? ==> |r.value| <= |s| + 3
  {
    var n := |s|;
    if opcode == 0x6d /* OP_2DROP */ then
      if n < 2 then None else Some(Pop(s, 2))
    else if opcode == 0x6e /* OP_2DUP */ then
      if n < 2 then None else Some(s + [Top(s, 2), Top(s, 1)])
    else if opcode == 0x6f /* OP_3DUP */ then
      if n < 3 then None else Some(s + [Top(s, 3), Top(s, 2), Top(s, 1)])
    else if opcode == 0x70 /* OP_2OVER */ then
      if n < 4 then None else Some(s + [Top(s, 4), Top(s, 3)])
    else if opcode == 0x71 /* OP_2ROT */ then
      if n < 6 then None else Some(Pop(s, 6) + s[n - 4..] + [Top(s, 6), Top(s, 5)])
    else if opcode == 0x72 /* OP_2SWAP */ then
      if n < 4 then None else Some(Pop(s, 4) + [Top(s, 2), Top(s, 1), Top(s, 4), Top(s, 3)])
    else if opcode == 0x73 /* OP_IFDUP */ then
      if n < 1 then None else Some(if CastToBool(Top(s, 1)) then s + [Top(s, 1)] else s)
    else if opcode == 0x74 /* OP_DEPTH */ then
      Some(s + [EncodeNum(n)])
    else if opcode == 0x75 /* OP_DROP */ then
      if n < 1 then None else Some(Pop(s, 1))
    else if opcode == 0x76 /* OP_DUP */ then
      if n < 1 then None else Some(s + [Top(s, 1)])
    else if opcode == 0x77 /* OP_NIP */ then
      if n < 2 then None else Some(Pop(s, 2) + [Top(s, 1)])
    else if opcode == 0x78 /* OP_OVER */ then
      if n < 2 then None else Some(s + [Top(s, 2)])
    else if opcode == 0x79 || opcode == 0x7a /* OP_PICK, OP_ROLL */ then
      if n < 2 || CastToBigNum(Top(s, 1)).None? then None
      else
        var k, t := CastToBigNum(Top(s, 1)).value, Pop(s, 1);
        if k < 0 || k >= |t| then None
        else Some((if opcode == 0x7a then t[..|t| - k - 1] + t[|t| - k..] else t) + [Top(t, k + 1)])
    else if opcode == 0x7b /* OP_ROT */ then
      if n < 3 then None else Some(Pop(s, 3) + [Top(s, 2), Top(s, 1), Top(s, 3)])
    else if opcode == 0x7c /* OP_SWAP */ then
      if n < 2 then None else Some(Pop(s, 2) + [Top(s, 1), Top(s, 2)])
    else if opcode == 0x7d /* OP_TUCK */ then
      if n < 2 then None else Some(Pop(s, 2) + [Top(s, 1), Top(s, 2), Top(s, 1)])
    else if opcode == 0x82 /* OP_SIZE */ then
      if n < 1 then None else Some(s + [EncodeNum(|Top(s, 1)|)])
    else None
  }

  function Bool(b: bool): int { if b then 1 else 0 }

  /** OP_1ADD .. OP_0NOTEQUAL on one number. */
  function Unary(opcode: Byte, a: int): (r: Option<int>) {
    if opcode == 0x8b then Some(a + 1)
    else if opcode == 0x8c then Some(a - 1)
    else if opcode == 0x8f then Some(-a)
    else if opcode == 0x90 then Some(if a < 0 then -a else a)
    else if opcode == 0x91 then Some(Bool(a == 0))
    else if opcode == 0x92 then Some(Bool(a != 0))
    else None
  }

  /** OP_ADD .. OP_MAX on two numbers. */
  function Binary(opcode: Byte, a: int, b: int): (r: Option<int>) {
    if opcode == 0x93 then Some(a + b)
    else if opcode == 0x94 then Some(a - b)
    else if opcode == 0x9a then Some(Bool(a != 0 && b != 0))
    else if opcode == 0x9b then Some(Bool(a != 0 || b != 0))
    else if opcode == 0x9c || opcode == 0x9d then Some(Bool(a == b))
    else if opcode == 0x9e then Some(Bool(a != b))
    else if opcode == 0x9f then Some(Bool(a < b))
    else if opcode == 0xa0 then Some(Bool(a > b))
    else if opcode == 0xa1 then Some(Bool(a <= b))
    else if opcode == 0xa2 then Some(Bool(a >= b))
    else if opcode == 0xa3 then Some(if a < b then a else b)
    else if opcode == 0xa4 then Some(if a > b then a else b)
    else None
  }

  /** The numeric instructions, OP_WITHIN included. */
  function Numeric(opcode: Byte, s: Stack): (r: Option<Stack>)
    ensures r.Some? ==> |r.value| <= |s|
  {
    if Unary(opcode, 0).Some? then
      if |s| < 1 || CastToBigNum(Top(s, 1)).None? then None
      else Some(Pop(s, 1) + [EncodeNum(Unary(opcode, CastToBigNum(Top(s, 1)).value).value)])
    else if Binary(opcode, 0, 0).Some? then
      if |s| < 2 || CastToBigNum(Top(s, 2)).None? || CastToBigNum(Top(s, 1)).None? then None
      else
        var v := Binary(opcode, CastToBigNum(Top(s, 2)).value, CastToBigNum(Top(s, 1)).value).value;
        if opcode != 0x9d /* OP_NUMEQUALVERIFY */ then Some(Pop(s, 2) + [EncodeNum(v)])
        else if CastToBool(EncodeNum(v)) then Some(Pop(s, 2))
        else None
    else if opcode == 0xa5 /* OP_WITHIN */ then
      if |s| < 3 || CastToBigNum(Top(s, 3)).None? || CastToBigNum(Top(s, 2)).None? ||
         CastToBigNum(Top(s, 1)).None? then None
      else
        var x, min, max :=
          CastToBigNum(Top(s, 3)).value, CastToBigNum(Top(s, 2)).value, CastToBigNum(Top(s, 1)).value;
        Some(Pop(s, 3) + [Truth(min <= x < max)])
    else None
  }

  /** OP_RIPEMD160 .. OP_HASH256. */
  function HashOf(crypto: Crypto, opcode: Byte, b: Bytes): (r: Option<Bytes>) {
    if opcode == 0xa6 then Some(crypto.ripemd160(b))
    else if opcode == 0xa7 then Some(crypto.sha1(b))
    else if opcode == 0xa8 then Some(crypto.sha256(b))
    else if opcode == OP_HASH160 then Some(crypto.hash160(b))
    else if opcode == 0xaa then Some(crypto.hash256(b))
    else None
  }

  /** A computed truth value, pushed or, by the VERIFY form of an instruction, demanded. */
  function PushOrVerify(verify: bool, ok: bool, s: Stack): (r: Option<Stack>)
    ensures r.Some? ==> |r.value| <= |s| + 1
  {
    if !verify then Some(s + [Truth(ok)]) else if ok then Some(s) else None
  }

  /** Instructions that only change the main stack. */
  function OnStack(crypto: Crypto, opcode: Byte, s: Stack): (r: Option<Stack>)
    ensures r.Some? ==> |r.value| <= |s| + 3
  {
    if opcode == OP_1NEGATE || (OP_1 <= opcode && opcode <= OP_16) then
      Some(s + [EncodeNum(opcode - (OP_1 - 1))])
    else if opcode == OP_NOP || (0xb0 <= opcode && opcode <= 0xb9) then Some(s)
    else if opcode == OP_VERIFY then
      if |s| < 1 || !CastToBool(Top(s, 1)) then None else Some(Pop(s, 1))
    else if opcode == OP_EQUAL || opcode == OP_EQUALVERIFY then
      if |s| < 2 then None
      else PushOrVerify(opcode == OP_EQUALVERIFY, Top(s, 2) == Top(s, 1), Pop(s, 2))
    else if HashOf(crypto, opcode, []).Some? then
      if |s| < 1 then None else Some(Pop(s, 1) + [HashOf(crypto, opcode, Top(s, 1)).value])
    else if 0x6d <= opcode && opcode <= 0x82 then Shuffle(opcode, s)
    else Numeric(opcode, s)
  }

  // ------------------------------------------------------- signature instructions

  /** The script code after all the signatures have been deleted from it. */
  function WithoutSigs(code: Script, sigs: seq<Bytes>): Script
    decreases |sigs|
  {
    if sigs == [] then code else WithoutSigs(FindAndDelete(code, Push(sigs[0])), sigs[1..])
  }

  function CheckSigOp(ctx: Context, opcode: Byte, st: State): (r: Option<State>) {
    var s := st.stack;
    if |s| < 2 then None
    else
      var code := WithoutSigs(st.code, [Top(s, 2)]);
      match PushOrVerify(opcode == OP_CHECKSIGVERIFY, SignatureFits(ctx, Top(s, 2), Top(s, 1), code), Pop(s, 2))
      case None => None
      case Some(t) => Some(st.(stack := t))
  }

  /** The `count` elements from stacktop(-from) downwards. */
  function Downward(s: Stack, from: nat, count: nat): (r: Stack)
    requires 1 <= from && from + count <= |s| + 1
    ensures |r| == count && forall j :: 0 <= j < count ==> r[j] == Top(s, from + j)
  {
    seq(count, j requires 0 <= j < count => Top(s, from + j))
  }

  /** The arguments of OP_CHECKMULTISIG, and how many elements they take up. */
  datatype MultisigArgs = MultisigArgs(keys: Stack, sigs: Stack, size: nat)

  /** dummy sig ... sig #sigs key ... key #keys */
  function MultisigArguments(s: Stack, ops: nat): (r: Option<MultisigArgs>)
    ensures r.Some? ==> |r.value.sigs| <= |r.value.keys| <= 20 && ops + |r.value.keys| <= MAX_OPS
    ensures r.Some? ==> r.value.size == 3 + |r.value.keys| + |r.value.sigs| <= |s|
  {
    if |s| < 1 || CastToBigNum(Top(s, 1)).None? then None
    else
      var nKeys := CastToBigNum(Top(s, 1)).value;
      if nKeys < 0 || nKeys > 20 || ops + nKeys > MAX_OPS || |s| < 2 + nKeys ||
         CastToBigNum(Top(s, 2 + nKeys)).None? then None
      else
        var nSigs := CastToBigNum(Top(s, 2 + nKeys)).value;
        if nSigs < 0 || nSigs > nKeys || |s| < 3 + nKeys + nSigs then None
        else Some(MultisigArgs(Downward(s, 2, nKeys), Downward(s, 3 + nKeys, nSigs), 3 + nKeys + nSigs))
  }

  predicate SignaturesMatch(ctx: Context, sigs: Stack, keys: Stack, code: Script) {
    Greedy(sigs, keys, (sig, key) => SignatureFits(ctx, sig, key, code))
  }

  function CheckMultisigOp(ctx: Context, opcode: Byte, st: State): (r: Option<State>) {
    match MultisigArguments(st.stack, st.ops)
    case None => None
    case Some(args) =>
      var fSuccess := SignaturesMatch(ctx, args.sigs, args.keys, WithoutSigs(st.code, args.sigs));
      match PushOrVerify(opcode == OP_CHECKMULTISIGVERIFY, fSuccess, Pop(st.stack, args.size))
      case None => None
      case Some(t) => Some(st.(stack := t, ops := st.ops + |args.keys|))
  }

  // --------------------------------------------------------------- one instruction

  predicate Executing(exec: seq<bool>) { false !in exec }

  /** OP_IF .. OP_ENDIF, which are looked at even in a branch not taken. */
  function Branch(opcode: Byte, st: State): (r: Option<State>) {
    if opcode == OP_IF || opcode == OP_NOTIF then
      if !Executing(st.exec) then Some(st.(exec := st.exec + [false]))
      else if |st.stack| < 1 then None
      else
        var value := CastToBool(Top(st.stack, 1));
        Some(st.(stack := Pop(st.stack, 1), exec := st.exec + [if opcode == OP_NOTIF then !value else value]))
    else if opcode == OP_ELSE then
      if st.exec == [] then None else Some(st.(exec := st.exec[|st.exec| - 1 := !st.exec[|st.exec| - 1]]))
    else if opcode == OP_ENDIF then
      if st.exec == [] then None else Some(st.(exec := st.exec[..|st.exec| - 1]))
    else None
  }

  function Execute(ctx: Context, opcode: Byte, st: State): (r: Option<State>) {
    if OP_IF <= opcode && opcode <= OP_ENDIF then Branch(opcode, st)
    else if opcode == OP_TOALTSTACK then
      if |st.stack| < 1 then None
      else Some(st.(stack := Pop(st.stack, 1), alt := st.alt + [Top(st.stack, 1)]))
    else if opcode == OP_FROMALTSTACK then
      if |st.alt| < 1 then None
      else Some(st.(stack := st.stack + [Top(st.alt, 1)], alt := Pop(st.alt, 1)))
    else if opcode == OP_CODESEPARATOR then Some(st.(code := st.rest))
    else if opcode == OP_CHECKSIG || opcode == OP_CHECKSIGVERIFY then CheckSigOp(ctx, opcode, st)
    else if opcode == OP_CHECKMULTISIG || opcode == OP_CHECKMULTISIGVERIFY then CheckMultisigOp(ctx, opcode, st)
    else match OnStack(ctx.crypto, opcode, st.stack)
      case None => None
      case Some(t) => Some(st.(stack := t))
  }

  predicate WithinLimits(st: State) {
    |st.stack| + |st.alt| <= MAX_STACK
  }

  /** The instruction has been read and, above OP_16, counted. */
  function AfterFetch(st: State, op: Op, rest: Script): State {
    st.(rest := rest, ops := if op.opcode > OP_16 then st.ops + 1 else st.ops)
  }

  /** One round of EvalScript's loop; None is `return false`. */
  function Step(ctx: Context, st: State): (r: Option<State>)
    requires st.rest != []
  {
    match GetOp(st.rest)
    case Stop(_) => None
    case Fetched(op, rest) =>
      var next := AfterFetch(st, op, rest);
      if |op.data| > MAX_ELEMENT_SIZE || (op.opcode > OP_16 && next.ops > MAX_OPS) || IsDisabled(op.opcode) then None
      else
        var done :=
          if Executing(st.exec) && op.opcode <= OP_PUSHDATA4 then Some(next.(stack := st.stack + [op.data]))
          else if Executing(st.exec) || (OP_IF <= op.opcode && op.opcode <= OP_ENDIF)
          then Execute(ctx, op.opcode, next)
          else Some(next);
        if done.Some? && WithinLimits(done.value) then done else None
  }

  lemma StepAdvances(ctx: Context, st: State)
    requires st.rest != []
    ensures Step(ctx, st).Some? ==>
      GetOp(st.rest).Fetched? && Step(ctx, st).value.rest == GetOp(st.rest).rest
  {
  }

  /** The loop of EvalScript from a given state on. */
  function Run(ctx: Context, st: State): (r: Option<State>)
    decreases |st.rest|
  {
    if st.rest == [] then Some(st)
    else
      StepAdvances(ctx, st);
      match Step(ctx, st)
      case None => None
      case Some(next) => Run(ctx, next)
  }

  function Initial(stack: Stack, script: Script): State {
    State(script, stack, [], [], 0, script)
  }

  /** EvalScript: the stack it leaves, or None when it returns false. */
  function Eval(ctx: Context, stack: Stack, script: Script): (r: Option<Stack>) {
    if |script| > MAX_SCRIPT_SIZE then None
    else match Run(ctx, Initial(stack, script))
      case None => None
      case Some(st) => if st.exec == [] then Some(st.stack) else None
  }

  /** VerifyScript. */
  function Verify(ctx: Context, scriptSig: Script, scriptPubKey: Script): bool {
    match Eval(ctx, [], scriptSig)
    case None => false
    case Some(copy) =>
      match Eval(ctx, copy, scriptPubKey)
      case None => false
      case Some(stack) =>
        stack != [] && CastToBool(Top(stack, 1)) &&
        (ctx.flags.p2sh && IsPayToScriptHash(scriptPubKey) ==>
          IsPushOnly(scriptSig) && copy != [] &&
          match Eval(ctx, Pop(copy, 1), Top(copy, 1))
          case None => false
          case Some(final) => final != [] && CastToBool(Top(final, 1)))
  }
}
