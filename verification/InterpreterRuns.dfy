/** What holds of every run of the script interpreter. */
module InterpreterRuns {
  import opened Bits
  import opened Script
  import opened ScriptNumbers
  import opened Signatures
  import opened MultisigMatching
  import opened Interpreter
  import opened Options

  /** EvalScript with its loop. */
  method EvalScript(ctx: Context, stack: Stack, script: Script) returns (result: Option<Stack>)
    ensures result == Eval(ctx, stack, script)
  {
    if |script| > MAX_SCRIPT_SIZE {
      return None;
    }
    var st := Initial(stack, script);
    while st.rest != []
      invariant Run(ctx, st) == Run(ctx, Initial(stack, script))
      decreases |st.rest|
    {
      StepAdvances(ctx, st);
      var next := Step(ctx, st);
      if next.None? {
        return None;
      }
      st := next.value;
    }
    if st.exec != [] {
      return None;
    }
    return Some(st.stack);
  }

  // -------------------------------------------------------- bounds along a run

  ghost predicate Suffix(s: Script, t: Script) {
    |s| <= |t| && s == t[|t| - |s|..]
  }

  /** What holds between any two instructions of a run over `script`. */
  ghost predicate Bounded(st: State, script: Script) {
    |st.stack| + |st.alt| <= MAX_STACK && st.ops <= MAX_OPS && Suffix(st.rest, script) && Suffix(st.code, script)
  }

  lemma SuffixTransitive(s: Script, t: Script, u: Script)
    requires Suffix(s, t) && Suffix(t, u)
    ensures Suffix(s, u)
  {
  }

  lemma ExecuteKeeps(ctx: Context, opcode: Byte, st: State)
    requires st.ops <= MAX_OPS
    ensures match Execute(ctx, opcode, st)
            case None => true
            case Some(t) => t.rest == st.rest && t.ops <= MAX_OPS && (t.code == st.code || t.code == st.rest)
  {
  }

  /** Each instruction moves the program counter forward and keeps the bounds. */
  lemma StepKeepsBounds(ctx: Context, st: State, script: Script)
    requires st.rest != [] && Bounded(st, script)
    ensures match Step(ctx, st)
            case None => true
            case Some(next) => Bounded(next, script) && |next.rest| < |st.rest|
  {
    match GetOp(st.rest)
    case Stop(_) =>
    case Fetched(op, rest) =>
      GetOpSuffix(st.rest);
      SuffixTransitive(rest, st.rest, script);
      var next := AfterFetch(st, op, rest);
      if next.ops <= MAX_OPS {
        ExecuteKeeps(ctx, op.opcode, next);
      }
  }

  /** A run: states that follow each other by one instruction. */
  ghost predicate IsRun(ctx: Context, stack: Stack, script: Script, states: seq<State>) {
    states != [] && states[0] == Initial(stack, script) &&
    forall i :: 0 <= i < |states| - 1 ==> states[i].rest != [] && Step(ctx, states[i]) == Some(states[i + 1])
  }

  /** At most 1000 stack elements, at most 201 counted operations, one byte read per instruction at least. */
  lemma {:induction false} RunsAreBounded(ctx: Context, stack: Stack, script: Script, states: seq<State>, i: nat)
    requires |stack| <= MAX_STACK && IsRun(ctx, stack, script, states) && i < |states|
    ensures Bounded(states[i], script) && i + |states[i].rest| <= |script|
  {
    if i > 0 {
      RunsAreBounded(ctx, stack, script, states, i - 1);
      StepKeepsBounds(ctx, states[i - 1], script);
    }
  }

  lemma {:induction false} RunKeepsBounds(ctx: Context, st: State, script: Script)
    requires Bounded(st, script)
    ensures Run(ctx, st).Some? ==> Bounded(Run(ctx, st).value, script)
    decreases |st.rest|
  {
    if st.rest != [] {
      StepAdvances(ctx, st);
      StepKeepsBounds(ctx, st, script);
      if Step(ctx, st).Some? {
        RunKeepsBounds(ctx, Step(ctx, st).value, script);
      }
    }
  }

  /** A successful evaluation leaves at most 1000 elements. */
  lemma EvalIsBounded(ctx: Context, stack: Stack, script: Script)
    requires |stack| <= MAX_STACK
    ensures Eval(ctx, stack, script).Some? ==> |Eval(ctx, stack, script).value| <= MAX_STACK
  {
    RunKeepsBounds(ctx, Initial(stack, script), script);
  }

  // ----------------------------------------------------------- balanced branches

  /** Every OP_ELSE and OP_ENDIF belongs to an open OP_IF or OP_NOTIF, and none is left open;
      executed or not, instructions count alike. */
  ghost predicate Balanced(s: Script, depth: nat)
    decreases |s|
  {
    if s == [] then depth == 0
    else match GetOp(s)
      case Stop(_) => false
      case Fetched(op, rest) =>
        if op.opcode == OP_IF || op.opcode == OP_NOTIF then Balanced(rest, depth + 1)
        else if op.opcode == OP_ELSE then depth > 0 && Balanced(rest, depth)
        else if op.opcode == OP_ENDIF then depth > 0 && Balanced(rest, depth - 1)
        else Balanced(rest, depth)
  }

  lemma StepDepth(ctx: Context, st: State)
    requires st.rest != [] && Step(ctx, st).Some?
    ensures var opcode, n, m := GetOp(st.rest).op.opcode, |st.exec|, |Step(ctx, st).value.exec|;
            if opcode == OP_IF || opcode == OP_NOTIF then m == n + 1
            else if opcode == OP_ELSE then m == n > 0
            else if opcode == OP_ENDIF then m == n - 1
            else m == n
  {
  }

  lemma {:induction false} RunIsBalanced(ctx: Context, st: State)
    requires Run(ctx, st).Some? && Run(ctx, st).value.exec == []
    ensures Balanced(st.rest, |st.exec|)
    decreases |st.rest|
  {
    if st.rest != [] {
      StepAdvances(ctx, st);
      StepDepth(ctx, st);
      RunIsBalanced(ctx, Step(ctx, st).value);
    }
  }

  /** EvalScript succeeds only on scripts with balanced branches. */
  lemma SuccessIsBalanced(ctx: Context, stack: Stack, script: Script)
    requires Eval(ctx, stack, script).Some?
    ensures Balanced(script, 0)
  {
    RunIsBalanced(ctx, Initial(stack, script));
  }

  // ---------------------------------------------------------------- P2SH scripts

  /** A pay-to-script-hash script fails on the empty stack: OP_HASH160 finds nothing. */
  lemma ScriptHashNeedsInput(ctx: Context, script: Script)
    requires IsPayToScriptHash(script)
    ensures Eval(ctx, [], script).None?
  {
    var st := Initial([], script);
    assert GetOp(script) == Fetched(Op(OP_HASH160, []), script[1..]);
    assert Step(ctx, st).None?;
  }

  /** VerifyScript; its assertion that the copied stack is not empty always holds. */
  method VerifyScript(ctx: Context, scriptSig: Script, scriptPubKey: Script) returns (ok: bool)
    ensures ok == Verify(ctx, scriptSig, scriptPubKey)
  {
    var first := EvalScript(ctx, [], scriptSig);
    if first.None? {
      return false;
    }
    var stackCopy := first.value;
    var second := EvalScript(ctx, first.value, scriptPubKey);
    if second.None? {
      return false;
    }
    var stack := second.value;
    if stack == [] || !CastToBool(Top(stack, 1)) {
      return false;
    }
    if ctx.flags.p2sh && IsPayToScriptHash(scriptPubKey) {
      if !IsPushOnly(scriptSig) {
        return false;
      }
      if stackCopy == [] {
        ScriptHashNeedsInput(ctx, scriptPubKey);
        assert false;
      }
      var pubKeySerialized := Top(stackCopy, 1);
      var third := EvalScript(ctx, Pop(stackCopy, 1), pubKeySerialized);
      if third.None? || third.value == [] {
        return false;
      }
      return CastToBool(Top(third.value, 1));
    }
    return true;
  }

  // --------------------------------------------------------------- CHECKMULTISIG

  /** The signatures can be matched, in order, to the keys. */
  ghost predicate SomeMatching(ctx: Context, sigs: Stack, keys: Stack, code: Script) {
    Matchable(sigs, keys, (sig, key) => SignatureFits(ctx, sig, key, code))
  }

  /** What OP_CHECKMULTISIG pushes: whether the signatures, taken out of the script code, can be
      matched in order to strictly increasing key positions. */
  lemma CheckMultisigMeaning(ctx: Context, st: State)
    ensures match MultisigArguments(st.stack, st.ops)
            case None => CheckMultisigOp(ctx, OP_CHECKMULTISIG, st) == None
            case Some(args) =>
              var ok := SomeMatching(ctx, args.sigs, args.keys, WithoutSigs(st.code, args.sigs));
              CheckMultisigOp(ctx, OP_CHECKMULTISIG, st) ==
                Some(st.(ops := st.ops + |args.keys|, stack := Pop(st.stack, args.size) + [Truth(ok)]))
  {
    hide MultisigArguments, SignaturesMatch, SomeMatching, WithoutSigs;
    match MultisigArguments(st.stack, st.ops)
    case None =>
    case Some(args) => MatchIsMatching(ctx, args.sigs, args.keys, WithoutSigs(st.code, args.sigs));
  }

  lemma MatchIsMatching(ctx: Context, sigs: Stack, keys: Stack, code: Script)
    ensures SignaturesMatch(ctx, sigs, keys, code) == SomeMatching(ctx, sigs, keys, code)
  {
    GreedyIsComplete(sigs, keys, (sig, key) => SignatureFits(ctx, sig, key, code));
  }

  // ------------------------------------------- independence of signature scripts

  /** Two contexts that differ only in the signature scripts of the transaction. */
  ghost predicate SameContext(c: Context, d: Context) {
    c.crypto == d.crypto && c.nIn == d.nIn && c.flags == d.flags && c.hashType == d.hashType &&
    SameButSigs(c.txTo, d.txTo)
  }

  lemma SameFit(c: Context, d: Context, sig: Bytes, key: Bytes, code: Script)
    requires SameContext(c, d)
    ensures SignatureFits(c, sig, key, code) == SignatureFits(d, sig, key, code)
  {
    if sig != [] {
      SignatureHashIgnoresSigs(c.crypto, code, c.txTo, d.txTo, c.nIn, sig[|sig| - 1]);
    }
  }

  lemma {:induction false} GreedyAgrees<S, K>(sigs: seq<S>, keys: seq<K>, p: (S, K) -> bool, q: (S, K) -> bool)
    requires forall i, j :: 0 <= i < |sigs| && 0 <= j < |keys| ==> p(sigs[i], keys[j]) == q(sigs[i], keys[j])
    ensures Greedy(sigs, keys, p) == Greedy(sigs, keys, q)
  {
    if sigs != [] && |sigs| <= |keys| {
      GreedyAgrees(if p(sigs[0], keys[0]) then sigs[1..] else sigs, keys[1..], p, q);
    }
  }

  lemma SameMatch(c: Context, d: Context, sigs: Stack, keys: Stack, code: Script)
    requires SameContext(c, d)
    ensures SignaturesMatch(c, sigs, keys, code) == SignaturesMatch(d, sigs, keys, code)
  {
    var p := (sig, key) => SignatureFits(c, sig, key, code);
    var q := (sig, key) => SignatureFits(d, sig, key, code);
    forall i, j | 0 <= i < |sigs| && 0 <= j < |keys|
      ensures p(sigs[i], keys[j]) == q(sigs[i], keys[j])
    {
      SameFit(c, d, sigs[i], keys[j], code);
    }
    GreedyAgrees(sigs, keys, p, q);
  }

  lemma SameMultisig(c: Context, d: Context, opcode: Byte, st: State)
    requires SameContext(c, d)
    ensures CheckMultisigOp(c, opcode, st) == CheckMultisigOp(d, opcode, st)
  {
    match MultisigArguments(st.stack, st.ops)
    case None =>
    case Some(args) => SameMatch(c, d, args.sigs, args.keys, WithoutSigs(st.code, args.sigs));
  }

  lemma SameCheckSig(c: Context, d: Context, opcode: Byte, st: State)
    requires SameContext(c, d)
    ensures CheckSigOp(c, opcode, st) == CheckSigOp(d, opcode, st)
  {
    var s := st.stack;
    if |s| >= 2 {
      SameFit(c, d, Top(s, 2), Top(s, 1), WithoutSigs(st.code, [Top(s, 2)]));
    }
  }

  lemma SameExecute(c: Context, d: Context, opcode: Byte, st: State)
    requires SameContext(c, d)
    ensures Execute(c, opcode, st) == Execute(d, opcode, st)
  {
    hide CheckSigOp, CheckMultisigOp, OnStack, Branch, SameButSigs;
    SameCheckSig(c, d, opcode, st);
    SameMultisig(c, d, opcode, st);
  }

  lemma SameStep(c: Context, d: Context, st: State)
    requires SameContext(c, d) && st.rest != []
    ensures Step(c, st) == Step(d, st)
  {
    match GetOp(st.rest)
    case Stop(_) =>
    case Fetched(op, rest) =>
      SameExecute(c, d, op.opcode, AfterFetch(st, op, rest));
  }

  lemma {:induction false} SameRun(c: Context, d: Context, st: State)
    requires SameContext(c, d)
    ensures Run(c, st) == Run(d, st)
    decreases |st.rest|
  {
    if st.rest != [] {
      StepAdvances(c, st);
      SameStep(c, d, st);
      if Step(c, st).Some? {
        SameRun(c, d, Step(c, st).value);
      }
    }
  }

  lemma SameEval(c: Context, d: Context, stack: Stack, script: Script)
    requires SameContext(c, d)
    ensures Eval(c, stack, script) == Eval(d, stack, script)
  {
    SameRun(c, d, Initial(stack, script));
  }

  /** Whether an input verifies does not depend on any signature script stored in the transaction. */
  lemma VerifyIgnoresSigs(c: Context, d: Context, scriptSig: Script, scriptPubKey: Script)
    requires SameContext(c, d)
    ensures Verify(c, scriptSig, scriptPubKey) == Verify(d, scriptSig, scriptPubKey)
  {
    SameEval(c, d, [], scriptSig);
    if Eval(c, [], scriptSig).Some? {
      var copy := Eval(c, [], scriptSig).value;
      SameEval(c, d, copy, scriptPubKey);
      if copy != [] {
        SameEval(c, d, Pop(copy, 1), Top(copy, 1));
      }
    }
  }
}
