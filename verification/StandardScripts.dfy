/** Scripts as wholes: pay-to-pubkey-hash, m-of-n signatures and conditionals
    (src/lib/core/script.cpp:421-474, 840-950). */
module StandardScripts {
  import opened Bits
  import opened Script
  import opened ScriptNumbers
  import opened MultisigMatching
  import opened Interpreter
  import opened InterpreterRuns
  import opened SigningFacts
  import opened VerifySoundness
  import opened StackLaws
  import opened Options
  import Sequences

  // --------------------------------------------------------------- pay to pubkey hash

  /** OP_DUP OP_HASH160 <id> OP_EQUALVERIFY OP_CHECKSIG. */
  function PayToPubKeyHash(id: Bytes): (r: Script) {
    [0x76, 0xa9, 0x14] + id + [0x88, 0xac]
  }

  lemma DupStep(ctx: Context, stack: Stack, x: Bytes, rest: Script, code: Script)
    requires |stack| + 2 <= 1000
    ensures Reaches(ctx, State([0x76] + rest, stack + [x], [], [], 0, code), State(rest, stack + [x, x], [], [], 1, code))
  {
    var st := State([0x76] + rest, stack + [x], [], [], 0, code);
    GetOpCode(0x76, rest);
    TopElement(stack, x);
    assert stack + [x] + [x] == stack + [x, x];
    StepReaches(ctx, st, State(rest, stack + [x, x], [], [], 1, code));
  }

  lemma HashStepAt(ctx: Context, stack: Stack, x: Bytes, rest: Script, code: Script)
    requires |stack| + 1 <= 1000
    ensures Reaches(ctx, State([0xa9] + rest, stack + [x], [], [], 1, code),
                    State(rest, stack + [ctx.crypto.hash160(x)], [], [], 2, code))
  {
    var st := State([0xa9] + rest, stack + [x], [], [], 1, code);
    GetOpCode(0xa9, rest);
    TopElement(stack, x);
    StepReaches(ctx, st, State(rest, stack + [ctx.crypto.hash160(x)], [], [], 2, code));
  }

  lemma EqualVerifyStep(ctx: Context, stack: Stack, a: Bytes, b: Bytes, rest: Script, code: Script)
    requires |stack| + 2 <= 1000
    ensures Run(ctx, State([0x88] + rest, stack + [a, b], [], [], 2, code)) ==
              if a == b then Run(ctx, State(rest, stack, [], [], 3, code)) else None
  {
    var st := State([0x88] + rest, stack + [a, b], [], [], 2, code);
    GetOpCode(0x88, rest);
    PopOf(stack, [a, b]);
    TopOf(stack, [a, b], 1);
    TopOf(stack, [a, b], 2);
    if a == b {
      StepReaches(ctx, st, State(rest, stack, [], [], 3, code));
    } else {
      assert Step(ctx, st).None?;
    }
  }

  lemma CheckSigStep(ctx: Context, stack: Stack, sig: Bytes, key: Bytes, code: Script)
    requires |stack| + 2 <= 1000
    ensures Run(ctx, State([0xac], stack + [sig, key], [], [], 3, code)) ==
              Some(State([], stack + [Truth(SignatureFits(ctx, sig, key, FindAndDelete(code, Push(sig))))], [], [], 4, code))
  {
    hide SignatureFits, FindAndDelete, Push;
    var st := State([0xac], stack + [sig, key], [], [], 3, code);
    Sequences.NothingAround([0xac]);
    GetOpCode(0xac, []);
    PopOf(stack, [sig, key]);
    TopOf(stack, [sig, key], 1);
    TopOf(stack, [sig, key], 2);
    assert [sig][1..] == [];
    assert WithoutSigs(code, [sig]) == FindAndDelete(code, Push(sig));
    StepReaches(ctx, st,
      State([], stack + [Truth(SignatureFits(ctx, sig, key, FindAndDelete(code, Push(sig))))], [], [], 4, code));
  }

  /** It takes a signature and a key, demands the hash of the key and says whether the signature is accepted for it. */
  lemma PubKeyHashDecides(ctx: Context, stack: Stack, sig: Bytes, key: Bytes, id: Bytes)
    requires |id| == 20 && |stack| + 2 <= 1000
    ensures var code := PayToPubKeyHash(id);
            Eval(ctx, stack + [sig, key], code) ==
              if |stack| + 4 <= 1000 && ctx.crypto.hash160(key) == id
              then Some(stack + [Truth(SignatureFits(ctx, sig, key, FindAndDelete(code, Push(sig))))]) else None
  {
    hide Run, SignatureFits, FindAndDelete, Push;
    var code, hash := PayToPubKeyHash(id), ctx.crypto.hash160(key);
    var push, end: Script := [SizeByte(20)] + id, [0x88] + [0xac];
    var below := stack + [sig];
    assert code == [0x76] + ([0xa9] + (push + end));
    assert stack + [sig, key] == below + [key] && below + [key, key] == (below + [key]) + [key];
    assert Initial(stack + [sig, key], code) == State([0x76] + ([0xa9] + (push + end)), below + [key], [], [], 0, code);
    if |stack| + 3 <= 1000 {
      DupStep(ctx, below, key, [0xa9] + (push + end), code);
      HashStepAt(ctx, below + [key], key, push + end, code);
      PushAlone(id);
      RunThrough(ctx, push, end, State(push + end, below + [key] + [hash], [], [], 2, code));
      assert below + [key] + [hash] + [id] == stack + [sig, key] + [hash, id];
      if |stack| + 4 <= 1000 {
        EqualVerifyStep(ctx, stack + [sig, key], hash, id, [0xac], code);
        CheckSigStep(ctx, stack, sig, key, code);
      }
    } else {
      TooFullToDup(ctx, below, key, [0xa9] + (push + end), code);
    }
  }

  lemma TooFullToDup(ctx: Context, stack: Stack, x: Bytes, rest: Script, code: Script)
    requires |stack| + 2 == 1001
    ensures Run(ctx, State([0x76] + rest, stack + [x], [], [], 0, code)) == None
  {
    var st := State([0x76] + rest, stack + [x], [], [], 0, code);
    GetOpCode(0x76, rest);
    assert Step(ctx, st).None?;
  }

  /** Spending such an output: the signature script must leave, on top, a key with that hash above a signature that is
      accepted for it. */
  lemma VerifyPubKeyHash(ctx: Context, scriptSig: Script, stack: Stack, sig: Bytes, key: Bytes, id: Bytes)
    requires |id| == 20 && Eval(ctx, [], scriptSig) == Some(stack + [sig, key])
    ensures Verify(ctx, scriptSig, PayToPubKeyHash(id)) <==>
              |stack| + 4 <= 1000 && ctx.crypto.hash160(key) == id &&
              Accepted(ctx, sig, key, FindAndDelete(PayToPubKeyHash(id), Push(sig)))
  {
    hide Eval, SignatureFits, Accepted, CastToBool, FindAndDelete, Push;
    var code := PayToPubKeyHash(id);
    var ok := SignatureFits(ctx, sig, key, FindAndDelete(code, Push(sig)));
    EvalIsBounded(ctx, [], scriptSig);
    PubKeyHashDecides(ctx, stack, sig, key, id);
    FitsMeans(ctx, sig, key, FindAndDelete(code, Push(sig)));
    TopElement(stack, Truth(ok));
    TruthIsBool(ok);
    assert |code| == 25;
  }

  // -------------------------------------------------------------- signatures in order

  function Reversed<T>(s: seq<T>): (r: seq<T>)
    ensures |r| == |s|
  {
    seq(|s|, i requires 0 <= i < |s| => s[|s| - 1 - i])
  }

  lemma ReversedTwice<T>(s: seq<T>)
    ensures Reversed(Reversed(s)) == s
  {
  }

  /** A matching read from the back. */
  lemma MatchingReversed<S, K>(sigs: seq<S>, keys: seq<K>, ok: (S, K) -> bool, f: seq<nat>) returns (g: seq<nat>)
    requires Matching(sigs, keys, ok, f)
    ensures Matching(Reversed(sigs), Reversed(keys), ok, g)
  {
    var m, n := |sigs|, |keys|;
    g := seq(m, i requires 0 <= i < m => n - 1 - f[m - 1 - i]);
    forall i | 0 <= i < m
      ensures ok(Reversed(sigs)[i], Reversed(keys)[g[i]])
    {
      assert ok(sigs[m - 1 - i], keys[f[m - 1 - i]]);
    }
  }

  lemma MatchableReversed<S, K>(sigs: seq<S>, keys: seq<K>, ok: (S, K) -> bool)
    ensures Matchable(Reversed(sigs), Reversed(keys), ok) <==> Matchable(sigs, keys, ok)
  {
    hide Matching;
    if f: seq<nat> :| Matching(sigs, keys, ok, f) {
      var g := MatchingReversed(sigs, keys, ok, f);
    }
    if f: seq<nat> :| Matching(Reversed(sigs), Reversed(keys), ok, f) {
      ReversedTwice(sigs);
      ReversedTwice(keys);
      var g := MatchingReversed(Reversed(sigs), Reversed(keys), ok, f);
    }
  }

  /** The keys that accept the signatures stand in the order of these. */
  ghost predicate SignedInOrder(ctx: Context, sigs: Stack, keys: Stack, code: Script, f: seq<nat>) {
    |f| == |sigs| && (forall i, j :: 0 <= i < j < |f| ==> f[i] < f[j]) &&
    forall i :: 0 <= i < |f| ==> f[i] < |keys| && Accepted(ctx, sigs[i], keys[f[i]], code)
  }

  /** dummy sig ... sig #sigs key ... key #keys, as they stand on the stack. */
  function Layout(below: Stack, sigs: Stack, keys: Stack): (r: Stack) {
    below + [[]] + sigs + [EncodeNum(|sigs|)] + keys + [EncodeNum(|keys|)]
  }

  lemma ArgumentsOfLayout(below: Stack, sigs: Stack, keys: Stack, ops: nat)
    requires |sigs| <= |keys| <= 20 && ops + |keys| <= 201
    ensures var args := MultisigArguments(Layout(below, sigs, keys), ops);
            args.Some? && args.value.keys == Reversed(keys) && args.value.sigs == Reversed(sigs) &&
            args.value.size == 3 + |keys| + |sigs| &&
            Pop(Layout(below, sigs, keys), args.value.size) == below
  {
    hide EncodeNum, CastToBigNum;
    var s, m, n := Layout(below, sigs, keys), |sigs|, |keys|;
    NumberRead(m);
    NumberRead(n);
    assert Top(s, 1) == EncodeNum(n) && Top(s, 2 + n) == EncodeNum(m);
    assert Downward(s, 2, n) == Reversed(keys);
    assert Downward(s, 3 + n, m) == Reversed(sigs);
  }

  /** OP_CHECKMULTISIG leaves whether the signatures, in their order on the stack, are accepted for keys in theirs. */
  lemma MultisigDecides(ctx: Context, st: State, below: Stack, sigs: Stack, keys: Stack)
    requires |sigs| <= |keys| <= 20 && st.ops + |keys| <= 201 && st.stack == Layout(below, sigs, keys)
    ensures var ok := exists f :: SignedInOrder(ctx, sigs, keys, WithoutSigs(st.code, Reversed(sigs)), f);
            Execute(ctx, 0xae, st) == Some(st.(stack := below + [Truth(ok)], ops := st.ops + |keys|))
  {
    hide MultisigArguments, WithoutSigs, SignedInOrder, SignaturesMatch, SomeMatching, Layout, Reversed;
    var code := WithoutSigs(st.code, Reversed(sigs));
    ArgumentsOfLayout(below, sigs, keys, st.ops);
    MatchIsMatching(ctx, Reversed(sigs), Reversed(keys), code);
    InOrder(ctx, sigs, keys, code);
    var args := MultisigArguments(st.stack, st.ops).value;
    var ok := exists f :: SignedInOrder(ctx, sigs, keys, code, f);
    assert SignaturesMatch(ctx, args.sigs, args.keys, WithoutSigs(st.code, args.sigs)) == ok;
    assert CheckMultisigOp(ctx, 0xae, st) == Some(st.(stack := below + [Truth(ok)], ops := st.ops + |keys|));
  }

  /** More than 20 keys, more than 201 counted instructions or more signatures than keys make it fail. */
  lemma TooManyKeys(ctx: Context, st: State, below: Stack, sigs: Stack, keys: Stack)
    requires |keys| > 20 || st.ops + |keys| > 201 || |sigs| > |keys|
    requires st.stack == Layout(below, sigs, keys)
    ensures Execute(ctx, 0xae, st) == None
  {
    hide EncodeNum, CastToBigNum, SignaturesMatch, WithoutSigs;
    var m, n := |sigs|, |keys|;
    NumberRead(m);
    NumberRead(n);
    assert Top(st.stack, 1) == EncodeNum(n) && Top(st.stack, 2 + n) == EncodeNum(m);
    assert MultisigArguments(st.stack, st.ops) == None;
  }

  lemma NumberRead(n: nat)
    ensures CastToBigNum(EncodeNum(n)) == if n <= 0x7fff_ffff then Some(n) else None
  {
    NumFits(n);
    NumRoundTrip(n);
  }

  lemma InOrder(ctx: Context, sigs: Stack, keys: Stack, code: Script)
    ensures SomeMatching(ctx, Reversed(sigs), Reversed(keys), code) <==>
            exists f :: SignedInOrder(ctx, sigs, keys, code, f)
  {
    hide Accepted, SignatureFits, Reversed;
    var fits := (sig, key) => SignatureFits(ctx, sig, key, code);
    MatchableReversed(sigs, keys, fits);
    forall i, j | 0 <= i < |sigs| && 0 <= j < |keys|
      ensures fits(sigs[i], keys[j]) <==> Accepted(ctx, sigs[i], keys[j], code)
    {
      FitsMeans(ctx, sigs[i], keys[j], code);
    }
    if f: seq<nat> :| Matching(sigs, keys, fits, f) {
      assert SignedInOrder(ctx, sigs, keys, code, f);
    }
    if f :| SignedInOrder(ctx, sigs, keys, code, f) {
      assert Matching(sigs, keys, fits, f);
    }
  }

  // --------------------------------------------------------------------- conditionals

  /** In a branch that is not taken a push does nothing. */
  lemma SkippedStep(ctx: Context, st: State)
    requires !Executing(st.exec) && WithinLimits(st) && GetOp(st.rest).Fetched? && IsPush(GetOp(st.rest).op)
    ensures st.rest != [] && Step(ctx, st) == Some(st.(rest := GetOp(st.rest).rest))
  {
    OnlySomeDisabled(GetOp(st.rest).op.opcode);
  }

  lemma {:induction false} SkipThrough(ctx: Context, p: Script, rest: Script, st: State)
    requires PushesAlone(p) && !Executing(st.exec) && WithinLimits(st) && st.rest == p + rest
    ensures Run(ctx, st) == Run(ctx, st.(rest := rest))
    decreases |p|
  {
    hide Step, PushesAlone, IsPush, Executing;
    if p == [] {
      Sequences.NothingAround(rest);
    } else {
      NotEmpty(p);
      GetOpAppend(p, rest);
      FirstPush(p);
      SkippedStep(ctx, st);
      SkipThrough(ctx, GetOp(p).rest, rest, Step(ctx, st).value);
    }
  }

  lemma NotEmpty(p: Script)
    requires PushesAlone(p) && p != []
    ensures GetOp(p).Fetched?
  {
  }

  /** OP_IF or OP_NOTIF, one branch, OP_ELSE, the other, OP_ENDIF. */
  function Conditional(opcode: Byte, p: Script, q: Script): (r: Script) {
    [opcode] + (p + ([0x67] + (q + [0x68])))
  }

  lemma IfStep(ctx: Context, opcode: Byte, st: State, stack: Stack, c: Bytes, rest: Script)
    requires opcode in {0x63, 0x64} && st.rest == [opcode] + rest && st.stack == stack + [c]
    requires Executing(st.exec) && WithinLimits(st) && st.ops < 201
    ensures Reaches(ctx, st, st.(rest := rest, stack := stack, ops := st.ops + 1,
                                 exec := st.exec + [CastToBool(c) == (opcode == 0x63)]))
  {
    hide CastToBool;
    GetOpCode(opcode, rest);
    TopElement(stack, c);
    StepReaches(ctx, st, st.(rest := rest, stack := stack, ops := st.ops + 1,
                             exec := st.exec + [CastToBool(c) == (opcode == 0x63)]));
  }

  lemma ElseStep(ctx: Context, st: State, exec: seq<bool>, b: bool, rest: Script)
    requires st.rest == [0x67] + rest && st.exec == exec + [b] && WithinLimits(st) && st.ops < 201
    ensures Reaches(ctx, st, st.(rest := rest, ops := st.ops + 1, exec := exec + [!b]))
  {
    GetOpCode(0x67, rest);
    assert st.exec[|st.exec| - 1 := !b] == exec + [!b];
    StepReaches(ctx, st, st.(rest := rest, ops := st.ops + 1, exec := exec + [!b]));
  }

  lemma EndIfStep(ctx: Context, st: State, exec: seq<bool>, b: bool, rest: Script)
    requires st.rest == [0x68] + rest && st.exec == exec + [b] && WithinLimits(st) && st.ops < 201
    ensures Reaches(ctx, st, st.(rest := rest, ops := st.ops + 1, exec := exec))
  {
    GetOpCode(0x68, rest);
    assert st.exec[..|st.exec| - 1] == exec;
    StepReaches(ctx, st, st.(rest := rest, ops := st.ops + 1, exec := exec));
  }

  /** One branch, taken or not. */
  lemma RunBranch(ctx: Context, p: Script, rest: Script, st: State, exec: seq<bool>, taken: bool)
    requires PushesAlone(p) && Executing(exec) && st.exec == exec + [taken] && st.rest == p + rest
    requires |st.stack| + |st.alt| + |Pushes(p)| <= 1000
    ensures Reaches(ctx, st, st.(rest := rest, stack := st.stack + (if taken then Pushes(p) else [])))
  {
    hide PushesAlone, Pushes;
    if taken {
      PushesArePushOnly(p);
      NoPushes(p);
      RunThrough(ctx, p, rest, st);
    } else {
      assert st.exec[|exec|] == false;
      SkipThrough(ctx, p, rest, st);
      Sequences.NothingAround(st.stack);
    }
  }

  /** Exactly one of the branches is run: with OP_IF the first if the element on top is true, with OP_NOTIF the
      first if it is false. */
  lemma ConditionalRuns(ctx: Context, opcode: Byte, p: Script, q: Script, rest: Script, st: State, stack: Stack, c: Bytes)
    requires opcode in {0x63, 0x64} && PushesAlone(p) && PushesAlone(q)
    requires st.rest == Conditional(opcode, p, q) + rest && st.stack == stack + [c] && Executing(st.exec)
    requires st.ops + 3 <= 201 && |stack| + 1 + |st.alt| + |Pushes(p)| + |Pushes(q)| <= 1000
    ensures Run(ctx, st) == Run(ctx, st.(rest := rest, ops := st.ops + 3, stack := stack +
              if CastToBool(c) == (opcode == 0x63) then Pushes(p) else Pushes(q)))
  {
    hide Run, Step, PushesAlone, Pushes, CastToBool, Executing;
    var first := CastToBool(c) == (opcode == 0x63);
    var end := [0x68] + rest;
    var middle := [0x67] + (q + end);
    assert st.rest == [opcode] + (p + middle);
    var x, y := stack + (if first then Pushes(p) else []), stack + (if first then Pushes(p) else Pushes(q));
    var s1 := st.(rest := p + middle, stack := stack, ops := st.ops + 1, exec := st.exec + [first]);
    var s2 := s1.(rest := middle, stack := x);
    var s3 := s2.(rest := q + end, ops := st.ops + 2, exec := st.exec + [!first]);
    var s4 := s3.(rest := end, stack := y);
    IfStep(ctx, opcode, st, stack, c, p + middle);
    RunBranch(ctx, p, middle, s1, st.exec, first);
    ElseStep(ctx, s2, st.exec, first, q + end);
    RunBranch(ctx, q, end, s3, st.exec, !first);
    Sequences.NothingAround(stack);
    Sequences.NothingAround(x);
    EndIfStep(ctx, s4, st.exec, !first, rest);
  }

  // --------------------------------------------------- verifying, setting aside, separating

  /** The instructions that leave a truth value, and the forms that demand it: OP_EQUAL, OP_NUMEQUAL, OP_CHECKSIG and
      OP_CHECKMULTISIG. */
  predicate DemandedBy(opcode: Byte, verifying: Byte) {
    (opcode, verifying) in {(0x87, 0x88), (0x9c, 0x9d), (0xac, 0xad), (0xae, 0xaf)}
  }

  lemma DemandedTrue(ctx: Context, st: State, stack: Stack, x: Bytes)
    ensures Execute(ctx, 0x69, st.(stack := stack + [x])) == if CastToBool(x) then Some(st.(stack := stack)) else None
  {
    hide CastToBool, Shuffle, Numeric;
    TopElement(stack, x);
  }

  lemma EqualVerifies(ctx: Context, st: State)
    ensures Execute(ctx, 0x88, st) ==
              match Execute(ctx, 0x87, st) case None => None case Some(t) => Execute(ctx, 0x69, t)
  {
    if |st.stack| >= 2 {
      var ok := Top(st.stack, 2) == Top(st.stack, 1);
      DemandedTrue(ctx, st, Pop(st.stack, 2), Truth(ok));
      TruthIsBool(ok);
    }
  }

  lemma NumEqualVerifies(ctx: Context, st: State)
    ensures Execute(ctx, 0x9d, st) ==
              match Execute(ctx, 0x9c, st) case None => None case Some(t) => Execute(ctx, 0x69, t)
  {
    hide EncodeNum, CastToBigNum, CastToBool, Shuffle;
    if |st.stack| >= 2 && CastToBigNum(Top(st.stack, 2)).Some? && CastToBigNum(Top(st.stack, 1)).Some? {
      var v := Bool(CastToBigNum(Top(st.stack, 2)).value == CastToBigNum(Top(st.stack, 1)).value);
      DemandedTrue(ctx, st, Pop(st.stack, 2), EncodeNum(v));
    }
  }

  lemma CheckSigVerifies(ctx: Context, st: State)
    ensures Execute(ctx, 0xad, st) ==
              match Execute(ctx, 0xac, st) case None => None case Some(t) => Execute(ctx, 0x69, t)
  {
    hide SignatureFits, WithoutSigs, OnStack;
    if |st.stack| >= 2 {
      var ok := SignatureFits(ctx, Top(st.stack, 2), Top(st.stack, 1), WithoutSigs(st.code, [Top(st.stack, 2)]));
      DemandedTrue(ctx, st, Pop(st.stack, 2), Truth(ok));
      TruthIsBool(ok);
    }
  }

  lemma MultisigVerifies(ctx: Context, st: State)
    ensures Execute(ctx, 0xaf, st) ==
              match Execute(ctx, 0xae, st) case None => None case Some(t) => Execute(ctx, 0x69, t)
  {
    hide SignaturesMatch, WithoutSigs, MultisigArguments, OnStack;
    match MultisigArguments(st.stack, st.ops)
    case None =>
    case Some(args) =>
      var ok := SignaturesMatch(ctx, args.sigs, args.keys, WithoutSigs(st.code, args.sigs));
      DemandedTrue(ctx, st.(ops := st.ops + |args.keys|), Pop(st.stack, args.size), Truth(ok));
      TruthIsBool(ok);
  }

  /** The verifying form is the instruction and then OP_VERIFY. */
  lemma VerifyingForms(ctx: Context, opcode: Byte, verifying: Byte, st: State)
    requires DemandedBy(opcode, verifying)
    ensures Execute(ctx, verifying, st) ==
              match Execute(ctx, opcode, st) case None => None case Some(t) => Execute(ctx, 0x69, t)
  {
    hide Execute;
    if opcode == 0x87 {
      EqualVerifies(ctx, st);
    } else if opcode == 0x9c {
      NumEqualVerifies(ctx, st);
    } else if opcode == 0xac {
      CheckSigVerifies(ctx, st);
    } else {
      MultisigVerifies(ctx, st);
    }
  }

  /** Behind a separator a script runs as if it began there, but for the operation that is counted. */
  lemma SeparatorStarts(ctx: Context, stack: Stack, s: Script)
    requires |stack| <= 1000
    ensures Reaches(ctx, Initial(stack, [0xab] + s), Initial(stack, s).(ops := 1))
  {
    GetOpCode(0xab, s);
    StepReaches(ctx, Initial(stack, [0xab] + s), Initial(stack, s).(ops := 1));
  }

  /** OP_TOALTSTACK sets an element aside, and OP_FROMALTSTACK puts it above whatever has been pushed since. */
  lemma SetAside(ctx: Context, st: State, stack: Stack, x: Bytes, p: Script, rest: Script)
    requires st.rest == [0x6b] + (p + ([0x6c] + rest)) && st.stack == stack + [x] && Executing(st.exec)
    requires PushesAlone(p) && st.ops + 2 <= 201 && |stack| + 1 + |st.alt| + |Pushes(p)| <= 1000
    ensures Reaches(ctx, st, st.(rest := rest, stack := stack + Pushes(p) + [x], ops := st.ops + 2))
  {
    hide Step, PushesAlone, Pushes, Executing;
    var s1 := st.(rest := p + ([0x6c] + rest), stack := stack, alt := st.alt + [x], ops := st.ops + 1);
    var s2 := s1.(rest := [0x6c] + rest, stack := stack + Pushes(p));
    AsideStep(ctx, st, stack, x, s1.rest);
    PushesArePushOnly(p);
    Sequences.NothingAround(stack);
    NoPushes(p);
    RunThrough(ctx, p, [0x6c] + rest, s1);
    BackStep(ctx, s2, st.alt, x, rest);
  }

  lemma AsideStep(ctx: Context, st: State, stack: Stack, x: Bytes, rest: Script)
    requires st.rest == [0x6b] + rest && st.stack == stack + [x] && Executing(st.exec)
    requires WithinLimits(st) && st.ops < 201
    ensures Reaches(ctx, st, st.(rest := rest, stack := stack, alt := st.alt + [x], ops := st.ops + 1))
  {
    GetOpCode(0x6b, rest);
    TopElement(stack, x);
    StepReaches(ctx, st, st.(rest := rest, stack := stack, alt := st.alt + [x], ops := st.ops + 1));
  }

  lemma BackStep(ctx: Context, st: State, alt: Stack, x: Bytes, rest: Script)
    requires st.rest == [0x6c] + rest && st.alt == alt + [x] && Executing(st.exec)
    requires WithinLimits(st) && st.ops < 201
    ensures Reaches(ctx, st, st.(rest := rest, stack := st.stack + [x], alt := alt, ops := st.ops + 1))
  {
    GetOpCode(0x6c, rest);
    TopElement(alt, x);
    StepReaches(ctx, st, st.(rest := rest, stack := st.stack + [x], alt := alt, ops := st.ops + 1));
  }

  // ------------------------------------------------------------------------- counting

  lemma NopStep(ctx: Context, st: State, rest: Script)
    requires st.rest == [0x61] + rest && st.exec == [] && WithinLimits(st)
    ensures Step(ctx, st) == if st.ops < 201 then Some(st.(rest := rest, ops := st.ops + 1)) else None
  {
    hide IsDisabled, Shuffle, Numeric;
    GetOpCode(0x61, rest);
    NopIsEnabled();
  }

  lemma NopIsEnabled()
    ensures !IsDisabled(0x61)
  {
  }

  lemma {:induction false} RunNops(ctx: Context, n: nat, st: State)
    requires st.rest == seq(n, i => 0x61) && st.exec == [] && WithinLimits(st) && st.ops <= 201
    ensures Run(ctx, st) == if st.ops + n <= 201 then Some(st.(rest := [], ops := st.ops + n)) else None
  {
    hide Step;
    if n > 0 {
      var rest: Script := seq(n - 1, i => 0x61);
      assert st.rest == [0x61] + rest;
      NopStep(ctx, st, rest);
      if st.ops < 201 {
        RunNops(ctx, n - 1, st.(rest := rest, ops := st.ops + 1));
      }
    }
  }

  /** 201 instructions above OP_16 can be run, and no more. */
  lemma NopsCounted(ctx: Context, n: nat, stack: Stack)
    requires |stack| <= 1000
    ensures Eval(ctx, stack, seq(n, i => 0x61)) == if n <= 201 then Some(stack) else None
  {
    RunNops(ctx, n, Initial(stack, seq(n, i => 0x61)));
  }

  /** OP_CAT to OP_RIGHT, OP_INVERT to OP_XOR, OP_2MUL, OP_2DIV and OP_MUL to OP_RSHIFT fail, executed or not. */
  lemma DisabledFails(ctx: Context, st: State)
    requires st.rest != []
    requires 0x7e <= st.rest[0] <= 0x81 || 0x83 <= st.rest[0] <= 0x86 || st.rest[0] in {0x8d, 0x8e} ||
             0x95 <= st.rest[0] <= 0x99
    ensures Step(ctx, st) == None
  {
  }
}
