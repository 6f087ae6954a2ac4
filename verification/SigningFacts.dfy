/** Signing for a pay-to-script-hash output with a 1-of-n redeem script always succeeds. */
module SigningFacts {
  import opened Bits
  import opened Script
  import opened ScriptNumbers
  import opened Transactions
  import opened Signatures
  import opened MultisigMatching
  import opened Interpreter
  import opened InterpreterRuns
  import opened Signing
  import opened Options
  import Sequences

  const StrictFlags := Flags(true, true, false)

  /** What is assumed of the signature scheme: a signature verifies under the key that made it
      and is canonically encoded. */
  ghost predicate SignerWorks(crypto: Crypto, signer: Signer, key: Key) {
    forall hash: Bytes :: signer(key.secret, hash).Some? &&
      crypto.verify(key.pub, hash, signer(key.secret, hash).value) &&
      IsCanonicalSignature(signer(key.secret, hash).value + [SIGHASH_ALL], StrictFlags)
  }

  /** Compressed public keys. */
  ghost predicate CompressedKeys(keys: seq<Bytes>) {
    forall i :: 0 <= i < |keys| ==> |keys[i]| == 33 && (keys[i][0] == 2 || keys[i][0] == 3)
  }

  /** The redeem scripts that PackDataIntoP2SH makes. */
  ghost predicate Redeemable(keys: seq<Bytes>) {
    1 <= |keys| <= 12 && CompressedKeys(keys)
  }

  lemma {:induction false} PushKeysLength(keys: seq<Bytes>)
    requires CompressedKeys(keys)
    ensures |PushKeys(keys)| == 34 * |keys|
  {
    if keys != [] {
      PushKeysLength(keys[1..]);
    }
  }

  lemma RedeemLength(keys: seq<Bytes>)
    requires Redeemable(keys)
    ensures |Multisig(1, keys)| == 34 * |keys| + 3 <= MAX_ELEMENT_SIZE
  {
    PushKeysLength(keys);
  }

  // ------------------------------------------------------ recognising the script

  /** The end of a multisig script. */
  function Tail(n: nat): Script
    requires 1 <= n <= 16
  {
    [EncodeOP_N(n), OP_CHECKMULTISIG]
  }

  lemma TailOps(n: nat)
    requires 1 <= n <= 16
    ensures GetOp(Tail(n)) == Fetched(Op(EncodeOP_N(n), []), [OP_CHECKMULTISIG])
    ensures GetOp([OP_CHECKMULTISIG]) == Fetched(Op(OP_CHECKMULTISIG, []), [])
  {
    Sequences.ConsTail(EncodeOP_N(n), [OP_CHECKMULTISIG]);
    assert Tail(n) == [EncodeOP_N(n)] + [OP_CHECKMULTISIG];
    GetOpCode(EncodeOP_N(n), [OP_CHECKMULTISIG]);
    assert [OP_CHECKMULTISIG] + [] == [OP_CHECKMULTISIG];
    GetOpCode(OP_CHECKMULTISIG, []);
  }

  lemma NextKey(keys: seq<Bytes>, rest: Script)
    requires CompressedKeys(keys) && keys != []
    ensures GetOp(PushKeys(keys) + rest) == Fetched(Op(SizeByte(33), keys[0]), PushKeys(keys[1..]) + rest)
  {
    Sequences.Assoc([SizeByte(33)] + keys[0], PushKeys(keys[1..]), rest);
    GetOpDirect(SizeByte(33), keys[0], PushKeys(keys[1..]) + rest);
  }

  lemma {:induction false} CollectAllKeys(keys: seq<Bytes>, n: nat)
    requires CompressedKeys(keys) && keys != [] && 1 <= n <= 16
    ensures CollectKeys(Op(SizeByte(33), keys[0]), PushKeys(keys[1..]) + Tail(n))
         == Collected(Op(EncodeOP_N(n), []), [OP_CHECKMULTISIG], keys)
  {
    TailOps(n);
    if |keys| == 1 {
      assert PushKeys(keys[1..]) + Tail(n) == Tail(n);
      assert keys == [keys[0]] + [];
    } else {
      NextKey(keys[1..], Tail(n));
      assert keys[1..][1..] == keys[2..];
      CollectAllKeys(keys[1..], n);
      assert keys == [keys[0]] + keys[1..];
    }
  }

  lemma RedeemStart(keys: seq<Bytes>)
    requires Redeemable(keys)
    ensures GetOp(Multisig(1, keys)) == Fetched(Op(OP_1, []), PushKeys(keys) + Tail(|keys|))
  {
    Sequences.Assoc([OP_1], PushKeys(keys), Tail(|keys|));
    GetOpCode(OP_1, PushKeys(keys) + Tail(|keys|));
  }

  ghost function RedeemSolutions(keys: seq<Bytes>): seq<Bytes>
    requires |keys| <= 12
  {
    [[1]] + (keys + [[SizeByte(|keys|)]])
  }

  lemma MatchStep(c: Collected, expected: Byte, template: seq<Byte>, found: seq<Bytes>, more: seq<Bytes>)
    requires MatchOne(c.op, expected) == Some(found) && MatchTemplate(c.rest, template) == Some(more)
    ensures MatchRest(c, [expected] + template) == Some(c.keys + found + more)
  {
    Sequences.ConsTail(expected, template);
  }

  lemma MatchPubKeys(s: Script, op: Op, rest: Script, template: seq<Byte>)
    requires GetOp(s) == Fetched(op, rest)
    ensures MatchTemplate(s, [OP_PUBKEYS] + template) == MatchRest(CollectKeys(op, rest), template)
  {
    Sequences.ConsTail(OP_PUBKEYS, template);
  }

  lemma LastInstruction()
    ensures MatchTemplate([OP_CHECKMULTISIG], [OP_CHECKMULTISIG]) == Some([])
  {
    TailOps(1);
    var c := Collected(Op(OP_CHECKMULTISIG, []), [], []);
    MatchStep(c, OP_CHECKMULTISIG, [], [], []);
    assert [OP_CHECKMULTISIG] + [] == [OP_CHECKMULTISIG];
    assert c.keys + [] + [] == [];
  }

  /** What follows the keys in a multisig script matches the end of its template. */
  lemma MatchAfterKeys(keys: seq<Bytes>, n: nat)
    requires 1 <= n <= 12
    ensures MatchRest(Collected(Op(EncodeOP_N(n), []), [OP_CHECKMULTISIG], keys), [OP_SMALLINTEGER, OP_CHECKMULTISIG])
         == Some(keys + [[SizeByte(n)]])
  {
    LastInstruction();
    var c := Collected(Op(EncodeOP_N(n), []), [OP_CHECKMULTISIG], keys);
    MatchStep(c, OP_SMALLINTEGER, [OP_CHECKMULTISIG], [[SizeByte(n)]], []);
    var short: seq<Byte> := [OP_SMALLINTEGER, OP_CHECKMULTISIG];
    assert [OP_SMALLINTEGER] + [OP_CHECKMULTISIG] == short;
    assert keys + [[SizeByte(n)]] + [] == keys + [[SizeByte(n)]];
  }

  lemma CollectKeysOfRedeem(keys: seq<Bytes>, n: nat, template: seq<Byte>)
    requires CompressedKeys(keys) && keys != [] && 1 <= n <= 12
    ensures MatchTemplate(PushKeys(keys) + Tail(n), [OP_PUBKEYS] + template)
         == MatchRest(Collected(Op(EncodeOP_N(n), []), [OP_CHECKMULTISIG], keys), template)
  {
    NextKey(keys, Tail(n));
    CollectAllKeys(keys, n);
    MatchPubKeys(PushKeys(keys) + Tail(n), Op(SizeByte(33), keys[0]), PushKeys(keys[1..]) + Tail(n), template);
  }

  lemma MatchKeys(keys: seq<Bytes>)
    requires Redeemable(keys)
    ensures MatchTemplate(PushKeys(keys) + Tail(|keys|), [OP_PUBKEYS] + [OP_SMALLINTEGER, OP_CHECKMULTISIG])
         == Some(keys + [[SizeByte(|keys|)]])
  {
    CollectKeysOfRedeem(keys, |keys|, [OP_SMALLINTEGER, OP_CHECKMULTISIG]);
    MatchAfterKeys(keys, |keys|);
  }

  lemma MatchRedeem(keys: seq<Bytes>)
    requires Redeemable(keys)
    ensures MatchTemplate(Multisig(1, keys), Templates[2].1) == Some(RedeemSolutions(keys))
  {
    RedeemStart(keys);
    MatchKeys(keys);
    var short: seq<Byte> := [OP_PUBKEYS] + [OP_SMALLINTEGER, OP_CHECKMULTISIG];
    var c := Collected(Op(OP_1, []), PushKeys(keys) + Tail(|keys|), []);
    var more := keys + [[SizeByte(|keys|)]];
    MatchStep(c, OP_SMALLINTEGER, short, [[SizeByte(1)]], more);
    assert [OP_SMALLINTEGER] + short == Templates[2].1;
    assert c.keys + [[SizeByte(1)]] + more == RedeemSolutions(keys);
  }

  /** Solver recognises the redeem script and finds its keys. */
  lemma SolveRedeem(keys: seq<Bytes>)
    requires Redeemable(keys)
    ensures Solve(Multisig(1, keys)) == Solved(true, MultisigType, RedeemSolutions(keys))
  {
    var s := Multisig(1, keys);
    RedeemStart(keys);
    MatchRedeem(keys);
    assert s[0] == OP_1;
    assert MatchTemplate(s, Templates[0].1) == None;
    assert MatchTemplate(s, Templates[1].1) == None;
    assert TryTemplates(s, 2) == Solved(true, MultisigType, RedeemSolutions(keys));
    assert TryTemplates(s, 1) == TryTemplates(s, 2);
  }

  lemma SolveScriptHash(id: Bytes)
    requires |id| == 20
    ensures Solve(PayToScriptHash(id)) == Solved(true, ScriptHash, [id])
  {
    var s := PayToScriptHash(id);
    assert s[2..22] == id;
  }

  // -------------------------------------------------------------- the signature

  /** The first key is in the store and its signatures work. */
  ghost predicate CanSign(crypto: Crypto, signer: Signer, store: KeyStore, key: Bytes) {
    var id := crypto.hash160(key);
    id in store.keys && store.keys[id].pub == key && SignerWorks(crypto, signer, store.keys[id])
  }

  ghost function FirstSignature(crypto: Crypto, signer: Signer, store: KeyStore, key: Bytes, hash: Bytes): Bytes
    requires CanSign(crypto, signer, store, key)
  {
    signer(store.keys[crypto.hash160(key)].secret, hash).value + [SIGHASH_ALL]
  }

  lemma SatisfyRedeem(crypto: Crypto, signer: Signer, store: KeyStore, keys: seq<Bytes>, hash: Bytes)
    requires Redeemable(keys) && CanSign(crypto, signer, store, keys[0])
    ensures Satisfy(crypto, signer, store, Multisig(1, keys), hash, SIGHASH_ALL)
         == Some([OP_0] + Push(FirstSignature(crypto, signer, store, keys[0], hash)))
  {
    SolveRedeem(keys);
    var solutions := RedeemSolutions(keys);
    assert solutions[1..|solutions| - 1] == keys;
    assert PubKey(keys[0]) == keys[0];
    assert SignKeys(crypto, signer, store, keys[1..], 0, hash, SIGHASH_ALL) == Some([]);
    var push := Push(FirstSignature(crypto, signer, store, keys[0], hash));
    assert push + [] == push;
  }

  ghost predicate Stored(crypto: Crypto, store: KeyStore, redeem: Script) {
    |crypto.hash160(redeem)| == 20 && crypto.hash160(redeem) in store.scripts &&
    store.scripts[crypto.hash160(redeem)] == redeem
  }

  /** Signing for a script hash means signing for the script it stands for. */
  lemma ScriptHashSignature(crypto: Crypto, signer: Signer, store: KeyStore, redeem: Script, t: Tx, nIn: nat, sub: Script)
    requires Stored(crypto, store, redeem) && Solve(redeem).kind != ScriptHash
    requires Satisfy(crypto, signer, store, redeem, SignatureHash(crypto, redeem, t, nIn, SIGHASH_ALL), SIGHASH_ALL)
          == Some(sub)
    ensures SignatureScript(crypto, signer, store, PayToScriptHash(crypto.hash160(redeem)), t, nIn, SIGHASH_ALL)
         == Some(sub + Push(redeem))
  {
    SolveScriptHash(crypto.hash160(redeem));
  }

  /** The signature script for a stored redeem script. */
  lemma ScriptForRedeem(crypto: Crypto, signer: Signer, store: KeyStore, keys: seq<Bytes>, t: Tx, nIn: nat)
    requires Redeemable(keys) && CanSign(crypto, signer, store, keys[0]) && Stored(crypto, store, Multisig(1, keys))
    ensures var redeem := Multisig(1, keys);
            var sig := FirstSignature(crypto, signer, store, keys[0], SignatureHash(crypto, redeem, t, nIn, SIGHASH_ALL));
            SignatureScript(crypto, signer, store, PayToScriptHash(crypto.hash160(redeem)), t, nIn, SIGHASH_ALL)
              == Some([OP_0] + Push(sig) + Push(redeem))
  {
    var redeem := Multisig(1, keys);
    var hash := SignatureHash(crypto, redeem, t, nIn, SIGHASH_ALL);
    SolveRedeem(keys);
    SatisfyRedeem(crypto, signer, store, keys, hash);
    ScriptHashSignature(crypto, signer, store, redeem, t, nIn,
                        [OP_0] + Push(FirstSignature(crypto, signer, store, keys[0], hash)));
  }

  // ------------------------------------------------------------- running pushes

  /** State while a script of pushes runs: nothing conditional, nothing counted. */
  ghost function At(rest: Script, stack: Stack, code: Script): State {
    State(rest, stack, [], [], 0, code)
  }

  /** Running from `a` comes to the same as running from `b`. */
  ghost predicate Reaches(ctx: Context, a: State, b: State) {
    Run(ctx, a) == Run(ctx, b)
  }

  lemma ReachesTransitive(ctx: Context, a: State, b: State, c: State)
    requires Reaches(ctx, a, b) && Reaches(ctx, b, c)
    ensures Reaches(ctx, a, c)
  {
    hide Run;
  }

  lemma StepReaches(ctx: Context, a: State, b: State)
    requires a.rest != [] && Step(ctx, a) == Some(b)
    ensures Reaches(ctx, a, b)
  {
    StepAdvances(ctx, a);
  }

  /** A run that reaches the end of the script with no branch open. */
  lemma ReachesEnd(ctx: Context, stack: Stack, script: Script, end: State)
    requires |script| <= MAX_SCRIPT_SIZE && end.rest == [] && end.exec == []
    requires Reaches(ctx, Initial(stack, script), end)
    ensures Eval(ctx, stack, script) == Some(end.stack)
  {
    assert Run(ctx, end) == Some(end);
  }

  lemma RunPush(ctx: Context, b: Bytes, rest: Script, stack: Stack, code: Script)
    requires |b| <= MAX_ELEMENT_SIZE && |stack| < MAX_STACK
    ensures Reaches(ctx, At(Push(b) + rest, stack, code), At(rest, stack + [b], code))
  {
    GetOpPush(b, rest);
    StepReaches(ctx, At(Push(b) + rest, stack, code), At(rest, stack + [b], code));
  }

  lemma RunNumber(ctx: Context, n: nat, rest: Script, stack: Stack, code: Script)
    requires 1 <= n <= 16 && |stack| < MAX_STACK
    ensures Reaches(ctx, At([EncodeOP_N(n)] + rest, stack, code), At(rest, stack + [EncodeNum(n)], code))
  {
    GetOpCode(EncodeOP_N(n), rest);
    StepReaches(ctx, At([EncodeOP_N(n)] + rest, stack, code), At(rest, stack + [EncodeNum(n)], code));
  }

  lemma RunKey(ctx: Context, key: Bytes, before: Script, after: Script, stack: Stack, code: Script)
    requires |key| == 33 && |stack| < MAX_STACK && GetOp(before) == Fetched(Op(SizeByte(33), key), after)
    ensures Reaches(ctx, At(before, stack, code), At(after, stack + [key], code))
  {
    StepReaches(ctx, At(before, stack, code), At(after, stack + [key], code));
  }

  lemma {:induction false} RunKeys(ctx: Context, keys: seq<Bytes>, rest: Script, stack: Stack, code: Script)
    requires CompressedKeys(keys) && |stack| + |keys| <= MAX_STACK
    ensures Reaches(ctx, At(PushKeys(keys) + rest, stack, code), At(rest, stack + keys, code))
  {
    hide Run;
    if keys == [] {
      Sequences.NothingAround(rest);
      Sequences.NothingAround(stack);
    } else {
      var before, after, middle := PushKeys(keys) + rest, PushKeys(keys[1..]) + rest, stack + [keys[0]];
      NextKey(keys, rest);
      RunKey(ctx, keys[0], before, after, stack, code);
      RunKeys(ctx, keys[1..], rest, middle, code);
      Sequences.MoveHead(stack, keys);
      ReachesTransitive(ctx, At(before, stack, code), At(after, middle, code), At(rest, stack + keys, code));
    }
  }

  /** The signature script pushes a dummy, the signature and the redeem script. */
  lemma EvalSignatureScript(ctx: Context, sig: Bytes, redeem: Bytes)
    requires |sig| <= MAX_ELEMENT_SIZE && |redeem| <= MAX_ELEMENT_SIZE
    ensures Eval(ctx, [], [OP_0] + Push(sig) + Push(redeem)) == Some([[], sig, redeem])
  {
    hide Run;
    var s := [OP_0] + Push(sig) + Push(redeem);
    var none: Stack := [];
    assert Push([]) == [OP_0];
    Sequences.Assoc([OP_0], Push(sig), Push(redeem));
    var st0, st1 := At(s, none, s), At(Push(sig) + Push(redeem), [[]], s);
    RunPush(ctx, [], Push(sig) + Push(redeem), none, s);
    assert none + [[]] == [[]];
    RunTwoPushes(ctx, sig, redeem, [[]], s);
    assert [[]] + [sig, redeem] == [[], sig, redeem];
    var st2 := At([], [[], sig, redeem], s);
    ReachesTransitive(ctx, st0, st1, st2);
    ReachesEnd(ctx, none, s, st2);
  }

  lemma RunTwoPushes(ctx: Context, a: Bytes, b: Bytes, stack: Stack, code: Script)
    requires |a| <= MAX_ELEMENT_SIZE && |b| <= MAX_ELEMENT_SIZE && |stack| < MAX_STACK - 1
    ensures Reaches(ctx, At(Push(a) + Push(b), stack, code), At([], stack + [a, b], code))
  {
    hide Run;
    RunPush(ctx, a, Push(b), stack, code);
    RunPush(ctx, b, [], stack + [a], code);
    assert Push(b) + [] == Push(b) && stack + [a] + [b] == stack + [a, b];
    ReachesTransitive(ctx, At(Push(a) + Push(b), stack, code), At(Push(b), stack + [a], code),
                      At([], stack + [a, b], code));
  }

  lemma SignatureScriptIsPushOnly(sig: Bytes, redeem: Bytes)
    requires |sig| <= MAX_ELEMENT_SIZE && |redeem| <= MAX_ELEMENT_SIZE
    ensures IsPushOnly([OP_0] + Push(sig) + Push(redeem)) && IsPushOnly([OP_0] + Push(sig))
  {
    PushIsPushOnly(redeem, []);
    assert Push(redeem) + [] == Push(redeem) && Push(sig) + [] == Push(sig) && Push([]) == [OP_0];
    PushIsPushOnly(sig, Push(redeem));
    PushIsPushOnly(sig, []);
    PushIsPushOnly([], Push(sig) + Push(redeem));
    PushIsPushOnly([], Push(sig));
    Sequences.Assoc([OP_0], Push(sig), Push(redeem));
  }

  lemma PushIsPushOnly(b: Bytes, rest: Script)
    requires |b| <= MAX_ELEMENT_SIZE && IsPushOnly(rest)
    ensures IsPushOnly(Push(b) + rest)
  {
    GetOpPush(b, rest);
  }

  /** OP_HASH160 <id> OP_EQUAL on the redeem script leaves true on top. */
  lemma EvalScriptHash(ctx: Context, stack: Stack, redeem: Bytes)
    requires |stack| <= 900 && |ctx.crypto.hash160(redeem)| == 20
    ensures Eval(ctx, stack + [redeem], PayToScriptHash(ctx.crypto.hash160(redeem))) == Some(stack + [True])
  {
    hide Run;
    var id := ctx.crypto.hash160(redeem);
    var s := PayToScriptHash(id);
    var end: Script := [OP_EQUAL];
    var middle := [SizeByte(20)] + id + end;
    assert s == [OP_HASH160] + middle;
    GetOpCode(OP_HASH160, middle);
    GetOpDirect(SizeByte(20), id, end);
    assert end + [] == end;
    GetOpCode(OP_EQUAL, []);
    var st0 := Initial(stack + [redeem], s);
    var st1 := State(middle, stack + [id], [], [], 1, s);
    var st2 := State(end, stack + [id, id], [], [], 1, s);
    var st3 := State([], stack + [True], [], [], 2, s);
    HashStep(ctx, st0, stack, redeem, middle);
    assert stack + [id] + [id] == stack + [id, id];
    StepReaches(ctx, st1, st2);
    EqualStep(ctx, st2, stack, id);
    ReachesTransitive(ctx, st0, st1, st2);
    ReachesTransitive(ctx, st0, st2, st3);
    ReachesEnd(ctx, stack + [redeem], s, st3);
  }

  lemma HashStep(ctx: Context, st: State, stack: Stack, b: Bytes, rest: Script)
    requires |stack| <= 900 && st.exec == [] && st.alt == [] && st.ops == 0
    requires st.rest != [] && GetOp(st.rest) == Fetched(Op(OP_HASH160, []), rest) && st.stack == stack + [b]
    ensures Reaches(ctx, st, State(rest, stack + [ctx.crypto.hash160(b)], [], [], 1, st.code))
  {
    assert Pop(st.stack, 1) == stack && Top(st.stack, 1) == b;
    StepReaches(ctx, st, State(rest, stack + [ctx.crypto.hash160(b)], [], [], 1, st.code));
  }

  lemma EqualStep(ctx: Context, st: State, stack: Stack, b: Bytes)
    requires |stack| <= 900 && st.exec == [] && st.alt == [] && st.ops == 1
    requires st.rest != [] && GetOp(st.rest) == Fetched(Op(OP_EQUAL, []), []) && st.stack == stack + [b, b]
    ensures Reaches(ctx, st, State([], stack + [True], [], [], 2, st.code))
  {
    assert Pop(st.stack, 2) == stack;
    StepReaches(ctx, st, State([], stack + [True], [], [], 2, st.code));
  }

  // ---------------------------------------------------- the signature is not deleted

  lemma {:induction false} NotInKeys(keys: seq<Bytes>, n: nat, sig: Bytes)
    requires CompressedKeys(keys) && 1 <= n <= 16 && 9 <= |sig| <= 73 && sig[0] == 0x30
    ensures FindAndDelete(PushKeys(keys) + Tail(n), Push(sig)) == PushKeys(keys) + Tail(n)
  {
    var b := Push(sig);
    assert b[0] == |sig| && b[1] == 0x30;
    if keys == [] {
      NotInTail(n, b);
      assert PushKeys(keys) + Tail(n) == Tail(n);
    } else {
      var s := PushKeys(keys) + Tail(n);
      var rest := PushKeys(keys[1..]) + Tail(n);
      NextKey(keys, Tail(n));
      assert s[0] == 33 && s[1] == keys[0][0];
      NotInKeys(keys[1..], n, sig);
      assert s == s[..34] + rest;
    }
  }

  lemma NotInTail(n: nat, b: Script)
    requires 1 <= n <= 16 && b != [] && 9 <= b[0] <= 73
    ensures FindAndDelete(Tail(n), b) == Tail(n)
  {
    TailOps(n);
    var last: Script := [OP_CHECKMULTISIG];
    assert FindAndDelete([], b) == [];
    assert FindAndDelete(last, b) == last[..1] + FindAndDelete([], b);
    assert Tail(n) == Tail(n)[..1] + last;
  }

  /** No instruction of the redeem script is the push of a canonical signature. */
  lemma SignatureStarts(sig: Bytes)
    requires IsCanonicalSignature(sig, StrictFlags)
    ensures 9 <= |sig| <= 73 && sig[0] == 0x30
  {
  }

  lemma {:induction false} RedeemKeepsCode(keys: seq<Bytes>, sig: Bytes)
    requires Redeemable(keys) && IsCanonicalSignature(sig, StrictFlags)
    ensures WithoutSigs(Multisig(1, keys), [sig]) == Multisig(1, keys)
  {
    hide PushKeys, IsCanonicalSignature, KeysIn;
    SignatureStarts(sig);
    var s, b := Multisig(1, keys), Push(sig);
    RedeemStart(keys);
    NotInKeys(keys, |keys|, sig);
    assert b[0] == |sig| && s[0] == OP_1;
    assert s == s[..1] + (PushKeys(keys) + Tail(|keys|));
    assert [sig][1..] == [];
    assert WithoutSigs(s, [sig]) == FindAndDelete(s, b);
  }

  // --------------------------------------------------------- running the redeem script

  lemma NumberOnStack(n: nat)
    requires 1 <= n <= 16
    ensures CastToBigNum(EncodeNum(n)) == Some(n)
  {
    NumRoundTrip(n);
    assert Magnitude(n / 256) == [];
    assert EncodeNum(n) == [SizeByte(n)];
  }

  /** The stack on which OP_CHECKMULTISIG finds one signature and the keys. */
  ghost function MultisigStack(keys: seq<Bytes>, sig: Bytes): Stack {
    [[], sig, EncodeNum(1)] + keys + [EncodeNum(|keys|)]
  }

  lemma MultisigLayout(keys: seq<Bytes>, sig: Bytes)
    requires 1 <= |keys| <= 12
    ensures var args := MultisigArguments(MultisigStack(keys, sig), 1);
            args.Some? && args.value.sigs == [sig] && |args.value.keys| == |keys| &&
            args.value.keys[|keys| - 1] == keys[0] && args.value.size == 4 + |keys| == |MultisigStack(keys, sig)|
  {
    var s, n := MultisigStack(keys, sig), |keys|;
    NumberOnStack(n);
    NumberOnStack(1);
    assert Top(s, 1) == EncodeNum(n) && Top(s, 2 + n) == EncodeNum(1);
    assert Downward(s, 3 + n, 1) == [sig];
    assert Downward(s, 2, n)[n - 1] == keys[0];
  }

  /** One signature that fits the first key satisfies OP_CHECKMULTISIG. */
  lemma OneOfMany(ctx: Context, keys: seq<Bytes>, sig: Bytes, code: Script)
    requires Redeemable(keys)
    requires WithoutSigs(code, [sig]) == code && SignatureFits(ctx, sig, keys[0], code)
    ensures CheckMultisigOp(ctx, OP_CHECKMULTISIG, State([], MultisigStack(keys, sig), [], [], 1, code))
              == Some(State([], [True], [], [], 1 + |keys|, code))
  {
    var s := MultisigStack(keys, sig);
    MultisigLayout(keys, sig);
    var args := MultisigArguments(s, 1).value;
    OneFits(ctx, args.keys, sig, |keys| - 1, code);
    assert Pop(s, args.size) == [];
    assert [] + [True] == [True];
  }

  lemma OneFits(ctx: Context, keys: Stack, sig: Bytes, k: nat, code: Script)
    requires k < |keys| && SignatureFits(ctx, sig, keys[k], code)
    ensures SignaturesMatch(ctx, [sig], keys, code)
  {
    var ok := (signature, key) => SignatureFits(ctx, signature, key, code);
    assert Matching([sig], keys, ok, [k]);
    GreedyIsComplete([sig], keys, ok);
  }

  lemma EvalRedeem(ctx: Context, keys: seq<Bytes>, sig: Bytes)
    requires Redeemable(keys) && WithoutSigs(Multisig(1, keys), [sig]) == Multisig(1, keys)
    requires SignatureFits(ctx, sig, keys[0], Multisig(1, keys))
    ensures Eval(ctx, [[], sig], Multisig(1, keys)) == Some([True])
  {
    hide Run, PushKeys, Step, Reaches, SignatureFits, WithoutSigs;
    var s, n := Multisig(1, keys), |keys|;
    RedeemLength(keys);
    var last: Script := [OP_CHECKMULTISIG];
    var one: Stack := [[], sig, EncodeNum(1)];
    Sequences.Assoc([OP_1], PushKeys(keys), Tail(n));
    var st0, st1 := At(s, [[], sig], s), At(PushKeys(keys) + Tail(n), one, s);
    var st2, st3 := At(Tail(n), one + keys, s), At(last, MultisigStack(keys, sig), s);
    var st4 := State([], [True], [], [], 1 + n, s);
    RunNumber(ctx, 1, PushKeys(keys) + Tail(n), [[], sig], s);
    assert [[], sig] + [EncodeNum(1)] == one;
    RunKeys(ctx, keys, Tail(n), one, s);
    assert Tail(n) == [EncodeOP_N(n)] + last;
    RunNumber(ctx, n, last, one + keys, s);
    OneOfMany(ctx, keys, sig, s);
    LastStep(ctx, MultisigStack(keys, sig), s, n);
    ReachesTransitive(ctx, st0, st1, st2);
    ReachesTransitive(ctx, st0, st2, st3);
    ReachesTransitive(ctx, st0, st3, st4);
    ReachesEnd(ctx, [[], sig], s, st4);
  }

  lemma LastStep(ctx: Context, stack: Stack, code: Script, n: nat)
    requires |stack| <= 900 && n <= 16
    requires CheckMultisigOp(ctx, OP_CHECKMULTISIG, State([], stack, [], [], 1, code))
          == Some(State([], [True], [], [], 1 + n, code))
    ensures Reaches(ctx, At([OP_CHECKMULTISIG], stack, code), State([], [True], [], [], 1 + n, code))
  {
    TailOps(1);
    StepReaches(ctx, At([OP_CHECKMULTISIG], stack, code), State([], [True], [], [], 1 + n, code));
  }

  // ------------------------------------------------------------------ the theorem

  lemma FirstSignatureFits(crypto: Crypto, signer: Signer, store: KeyStore, keys: seq<Bytes>, t: Tx, nIn: nat)
    requires Redeemable(keys) && CanSign(crypto, signer, store, keys[0])
    ensures var redeem := Multisig(1, keys);
            var sig := FirstSignature(crypto, signer, store, keys[0], SignatureHash(crypto, redeem, t, nIn, SIGHASH_ALL));
            IsCanonicalSignature(sig, StrictFlags) &&
            SignatureFits(SignContext(crypto, t, nIn), sig, keys[0], redeem)
  {
    var hash := SignatureHash(crypto, Multisig(1, keys), t, nIn, SIGHASH_ALL);
    var raw := signer(store.keys[crypto.hash160(keys[0])].secret, hash).value;
    assert (raw + [SIGHASH_ALL])[..|raw|] == raw;
    assert PubKey(keys[0]) == keys[0];
  }

  /** SignSignature succeeds on every output that pays to a stored 1-of-n redeem script whose first
      key can be signed for: the input then carries a dummy, the signature and the redeem script. */
  lemma SignSucceeds(crypto: Crypto, signer: Signer, store: KeyStore, keys: seq<Bytes>, t: Tx, nIn: nat)
    requires nIn < |t.vin|
    requires Redeemable(keys) && CanSign(crypto, signer, store, keys[0]) && Stored(crypto, store, Multisig(1, keys))
    ensures var redeem := Multisig(1, keys);
            var sig := FirstSignature(crypto, signer, store, keys[0], SignatureHash(crypto, redeem, t, nIn, SIGHASH_ALL));
            9 <= |sig| <= 73 &&
            SignSignature(crypto, signer, store, PayToScriptHash(crypto.hash160(redeem)), t, nIn, SIGHASH_ALL)
              == Some(WithSig(t, nIn, [OP_0] + Push(sig) + Push(redeem)))
  {
    hide FirstSignature, SignatureHash, Solve, Satisfy, Run, Eval;
    var redeem := Multisig(1, keys);
    var sig := FirstSignature(crypto, signer, store, keys[0], SignatureHash(crypto, redeem, t, nIn, SIGHASH_ALL));
    var script := [OP_0] + Push(sig) + Push(redeem);
    ScriptForRedeem(crypto, signer, store, keys, t, nIn);
    FirstSignatureFits(crypto, signer, store, keys, t, nIn);
    var signed := WithSig(t, nIn, script);
    var ctx, before := SignContext(crypto, signed, nIn), SignContext(crypto, t, nIn);
    assert SameContext(ctx, before);
    SameFit(ctx, before, sig, keys[0], redeem);
    RedeemLength(keys);
    RedeemKeepsCode(keys, sig);
    VerifyParts(ctx, keys, sig);
  }

  lemma VerifyParts(ctx: Context, keys: seq<Bytes>, sig: Bytes)
    requires Redeemable(keys) && |sig| <= 73 && |ctx.crypto.hash160(Multisig(1, keys))| == 20
    requires WithoutSigs(Multisig(1, keys), [sig]) == Multisig(1, keys)
    requires SignatureFits(ctx, sig, keys[0], Multisig(1, keys))
    ensures Verify(ctx, [OP_0] + Push(sig) + Push(Multisig(1, keys)),
                   PayToScriptHash(ctx.crypto.hash160(Multisig(1, keys))))
  {
    var redeem := Multisig(1, keys);
    RedeemLength(keys);
    EvalSignatureScript(ctx, sig, redeem);
    assert [[], sig] + [redeem] == [[], sig, redeem];
    EvalScriptHash(ctx, [[], sig], redeem);
    SignatureScriptIsPushOnly(sig, redeem);
    assert Pop([[], sig, redeem], 1) == [[], sig];
    EvalRedeem(ctx, keys, sig);
    assert CastToBool(True) by { assert True[0] != 0 && True[0] != 0x80; }
  }
}
