/** The steps that EmbedData's loop takes, and when it gets to its end
    (src/lib/bms/BlockchainInterface.cpp:441-501). */
module Runs {
  import opened Bits
  import opened Options
  import opened Script
  import opened Transactions
  import opened DataInterface
  import opened Carriers
  import opened ScriptHashes
  import opened TransactionShapes
  import opened Chains
  import opened Embedding

  // ---------------------------------------------------------------------- the run

  /** A turn of the loop: the inputs of the transaction, the bits and the budget that are left, and the
      parameters chosen for them. */
  datatype Step = Step(vin: seq<TxIn>, bits: DataBits, budget: nat, params: Parameters)

  /** The turns taken, and the inputs of the transaction behind the last one. */
  datatype Run = Run(steps: seq<Step>, vin: seq<TxIn>)

  ghost predicate IsStep(setup: Setup, s: Step) {
    s.bits != [] && s.params.nScriptHash >= 1 && Chosen(setup, NewTx.(vin := s.vin), |s.bits|, s.budget, s.params)
  }

  predicate Goes(setup: Setup, s: Step) {
    StepCan(setup, s.bits, s.budget, s.params)
  }

  /** How many bits the step takes. */
  function Room(setup: Setup, s: Step): (r: nat)
    requires Affordable(s.budget, s.params.nFees, s.params.nScriptHash)
  {
    StepRoom(setup, s.params.nScriptHash, s.params.nNulldata, s.budget - s.params.nFees)
  }

  /** The step goes through and leaves the inputs, bits and budget. */
  ghost predicate LeadsTo(setup: Setup, s: Step, vin: seq<TxIn>, bits: DataBits, budget: nat) {
    Goes(setup, s) && budget == s.budget - s.params.nFees &&
    |bits| == Rest(|s.bits|, Room(setup, s)) && bits == s.bits[|s.bits| - |bits|..] &&
    |vin| == s.params.nScriptHash && SmallInputs(vin)
  }

  ghost predicate Follows(setup: Setup, s: Step, t: Step) {
    LeadsTo(setup, s, t.vin, t.bits, t.budget)
  }

  ghost predicate Begins(steps: seq<Step>, vin: seq<TxIn>, data: DataBits, nBudget: nat) {
    steps != [] && steps[0].vin == vin && steps[0].bits == data && steps[0].budget == nBudget
  }

  ghost predicate AreSteps(setup: Setup, steps: seq<Step>) {
    (forall i :: 0 <= i < |steps| ==> IsStep(setup, steps[i])) &&
    forall i :: 0 <= i < |steps| - 1 ==> Follows(setup, steps[i], steps[i + 1])
  }

  function Last(steps: seq<Step>): (r: Step)
    requires steps != []
  {
    steps[|steps| - 1]
  }

  /** A run of the loop from the given state until a step does not go through or no bits are left. */
  ghost predicate IsRun(setup: Setup, vin: seq<TxIn>, data: DataBits, nBudget: nat, run: Run) {
    Begins(run.steps, vin, data, nBudget) && AreSteps(setup, run.steps) &&
    (Goes(setup, Last(run.steps)) ==>
      LeadsTo(setup, Last(run.steps), run.vin, [], Last(run.steps).budget - Last(run.steps).params.nFees))
  }

  /** The run gets to its end, and what is left covers the fee of the last transaction. */
  ghost predicate Completes(setup: Setup, run: Run)
    requires run.steps != []
  {
    var s := Last(run.steps);
    Goes(setup, s) && s.budget - s.params.nFees >= TransactionFee(setup.feeRate, NewTx.(vin := run.vin))
  }

  /** Every payload that the step puts into a key has a draw on the curve. */
  ghost predicate Drawn(setup: Setup, s: Step) {
    Affordable(s.budget, s.params.nFees, s.params.nScriptHash) ==>
      InputsCanCarry(setup, s.bits, KeysAt(s.params.nScriptHash, s.params.nNulldata, s.budget - s.params.nFees),
                     s.params.nScriptHash)
  }

  /** Every payload that the run puts into a key has a draw on the curve. */
  ghost predicate AllDrawn(setup: Setup, run: Run) {
    forall i :: 0 <= i < |run.steps| ==> Drawn(setup, run.steps[i])
  }

  // ------------------------------------------------------- what the embedding needs

  /** The fee of a transaction with up to 14 signed inputs is at most that of 8000 bytes. */
  function StepFee(feeRate: nat): (r: nat) { 8 * feeRate }

  /** A step for every 2782 bits begun, and 546 for each of 14 outputs. */
  function Reserve(feeRate: nat, nBits: nat): (r: nat) {
    (nBits / 2782 + 1) * StepFee(feeRate) + MAX_SCRIPT_HASHES * DUST + 1
  }

  /** The budget covers the next transaction, whose inputs are given, and all that follow it,
      however the data is split. */
  predicate Covers(feeRate: nat, nBudget: nat, vin: seq<TxIn>, nBits: nat) {
    nBudget >= Fee(feeRate, LargestSize(vin)) + Reserve(feeRate, nBits)
  }

  lemma ReserveForStep(feeRate: nat, before: nat, after: nat)
    requires after + 2782 <= before
    ensures Reserve(feeRate, after) + StepFee(feeRate) <= Reserve(feeRate, before)
  {
    var f := StepFee(feeRate);
    assert after / 2782 + 1 <= before / 2782;
    MulAtMost(f, after / 2782 + 2, before / 2782 + 1);
    assert (after / 2782 + 2) * f == (after / 2782 + 1) * f + f;
  }

  lemma ReserveAtLeast(feeRate: nat, nBits: nat)
    ensures Reserve(feeRate, nBits) >= StepFee(feeRate) + MAX_SCRIPT_HASHES * DUST + 1
  {
    MulAtMost(StepFee(feeRate), 1, nBits / 2782 + 1);
  }

  lemma {:induction false} SmallInputsSize(vin: seq<TxIn>)
    requires SmallInputs(vin)
    ensures SizeOfIns(vin) <= 532 * |vin|
  {
    if vin != [] {
      SmallInputsSize(vin[1..]);
    }
  }

  lemma StepFeeCovers(feeRate: nat, vin: seq<TxIn>)
    requires SmallInputs(vin) && |vin| <= MAX_SCRIPT_HASHES
    ensures Fee(feeRate, LargestSize(vin)) <= StepFee(feeRate)
  {
    SmallInputsSize(vin);
    FeeMonotone(feeRate, LargestSize(vin), 8000);
  }

  lemma FinalFeeCovers(feeRate: nat, tx: Tx)
    requires SmallInputs(tx.vin) && |tx.vin| <= MAX_SCRIPT_HASHES && tx.vout == []
    ensures TransactionFee(feeRate, tx) <= StepFee(feeRate)
  {
    FeeOfShapeAtMost(feeRate, tx, 0, 0);
    StepFeeCovers(feeRate, tx.vin);
  }

  /** Every payload that can be cut out of the data, zeros behind its end included, has a draw on the curve. */
  predicate Drawable(onCurve: Bytes -> bool, data: DataBits) {
    forall at :: 0 <= at < |data| ==> SomeDrawIsValid(onCurve, Window(data, at, KEY_BITS), KEY_RANDOM_BITS)
  }

  /** A step takes at least what the keys and the sequence number of one input carry. */
  lemma StepTakes(setup: Setup, params: Parameters, amount: nat)
    requires params.nScriptHash >= 1 && (params.nScriptHash >= 2 ==> amount > params.nScriptHash * DUST)
    ensures StepRoom(setup, params.nScriptHash, params.nNulldata, amount) >= 2782
  {
    hide KeysAt;
    MulAtMost(HashRoom(setup), 1, params.nScriptHash);
  }

  // ------------------------------------------------------ when the run completes

  /** Parameters that are chosen cost at most what the reserve sets aside for them. */
  lemma ChosenFee(setup: Setup, s: Step)
    requires IsStep(setup, s)
    ensures 1 <= s.params.nScriptHash <= MAX_SCRIPT_HASHES
    ensures s.params.nFees <= Fee(setup.feeRate, LargestSize(s.vin))
  {
    hide Chosen, Fee, LargestSize, TransactionFee, Shaped, DummyOutputs;
    var n, tx := s.params.nScriptHash, NewTx.(vin := s.vin);
    ChosenShape(setup, tx, |s.bits|, s.budget, s.params);
    FeeOfShapeAtMost(setup.feeRate, tx.(vout := DummyOutputs(n, s.params.nNulldata)), n, s.params.nNulldata);
  }

  /** With the reserve a step goes through exactly if its payloads have draws. */
  lemma CoveredStep(setup: Setup, s: Step)
    requires IsStep(setup, s) && Covers(setup.feeRate, s.budget, s.vin, |s.bits|)
    ensures Goes(setup, s) <==> Drawn(setup, s)
  {
    hide Chosen, InputsCanCarry, KeysAt, Fee, LargestSize;
    ChosenFee(setup, s);
    ReserveAtLeast(setup.feeRate, |s.bits|);
  }

  /** The reserve for the rest is left, and the fee of the last transaction in any case. */
  lemma CoveredNext(setup: Setup, s: Step, vin: seq<TxIn>, bits: DataBits, budget: nat)
    requires IsStep(setup, s) && Covers(setup.feeRate, s.budget, s.vin, |s.bits|) && LeadsTo(setup, s, vin, bits, budget)
    ensures bits != [] ==> Covers(setup.feeRate, budget, vin, |bits|)
    ensures budget >= TransactionFee(setup.feeRate, NewTx.(vin := vin))
  {
    hide Chosen, InputsCanCarry, StepRoom, Fee, LargestSize, SmallInputs, TransactionFee;
    ChosenFee(setup, s);
    StepTakes(setup, s.params, s.budget - s.params.nFees);
    StepFeeCovers(setup.feeRate, vin);
    ReserveAtLeast(setup.feeRate, |s.bits|);
    FinalFeeCovers(setup.feeRate, NewTx.(vin := vin));
    if bits != [] {
      ReserveForStep(setup.feeRate, |s.bits|, |bits|);
    }
  }

  lemma {:induction false} CoveredUpTo(setup: Setup, steps: seq<Step>, i: nat)
    requires AreSteps(setup, steps) && i < |steps|
    requires Covers(setup.feeRate, steps[0].budget, steps[0].vin, |steps[0].bits|)
    ensures Covers(setup.feeRate, steps[i].budget, steps[i].vin, |steps[i].bits|)
  {
    hide LeadsTo, Covers, IsStep;
    if i > 0 {
      CoveredUpTo(setup, steps, i - 1);
      assert Follows(setup, steps[i - 1], steps[i]) && IsStep(setup, steps[i - 1]) && IsStep(setup, steps[i]);
      CoveredNext(setup, steps[i - 1], steps[i].vin, steps[i].bits, steps[i].budget);
      BitsLeft(setup, steps[i]);
    }
  }

  lemma BitsLeft(setup: Setup, s: Step)
    requires IsStep(setup, s)
    ensures s.bits != []
  {
  }

  /** With the reserve a run completes exactly if every payload that it cuts out has a draw. */
  lemma {:induction false} CompletesExactly(setup: Setup, vin: seq<TxIn>, data: DataBits, nBudget: nat, run: Run)
    requires IsRun(setup, vin, data, nBudget, run) && Covers(setup.feeRate, nBudget, vin, |data|)
    ensures Completes(setup, run) <==> AllDrawn(setup, run)
  {
    hide LeadsTo, Covers, IsStep, Goes, Drawn, TransactionFee;
    var k := |run.steps| - 1;
    CoveredUpTo(setup, run.steps, k);
    forall i | 0 <= i < |run.steps|
      ensures i < k ==> Goes(setup, run.steps[i])
      ensures Goes(setup, run.steps[i]) <==> Drawn(setup, run.steps[i])
    {
      CoveredUpTo(setup, run.steps, i);
      assert IsStep(setup, run.steps[i]);
      CoveredStep(setup, run.steps[i]);
      if i < k {
        assert Follows(setup, run.steps[i], run.steps[i + 1]);
        LeadingGoes(setup, run.steps[i], run.steps[i + 1].vin, run.steps[i + 1].bits, run.steps[i + 1].budget);
      }
    }
    if Goes(setup, run.steps[k]) {
      var s := run.steps[k];
      GoesIsAffordable(setup, s);
      CoveredNext(setup, s, run.vin, [], s.budget - s.params.nFees);
    }
  }

  lemma LeadingGoes(setup: Setup, s: Step, vin: seq<TxIn>, bits: DataBits, budget: nat)
    requires LeadsTo(setup, s, vin, bits, budget)
    ensures Goes(setup, s)
  {
  }

  lemma GoesIsAffordable(setup: Setup, s: Step)
    requires Goes(setup, s)
    ensures s.params.nFees <= s.budget
  {
  }

  /** Each step's bits are an end of the data. */
  lemma {:induction false} BitsAreEnds(setup: Setup, steps: seq<Step>, i: nat)
    requires AreSteps(setup, steps) && i < |steps|
    ensures |steps[i].bits| <= |steps[0].bits| && steps[i].bits == steps[0].bits[|steps[0].bits| - |steps[i].bits|..]
  {
    hide Goes, IsStep, StepRoom, SmallInputs;
    if i > 0 {
      BitsAreEnds(setup, steps, i - 1);
      assert Follows(setup, steps[i - 1], steps[i]);
    }
  }

  /** Data all of whose windows have draws completes every run that has the reserve. */
  lemma DrawableCompletes(setup: Setup, vin: seq<TxIn>, data: DataBits, nBudget: nat, run: Run)
    requires IsRun(setup, vin, data, nBudget, run) && Covers(setup.feeRate, nBudget, vin, |data|)
    requires Drawable(setup.onCurve, data)
    ensures Completes(setup, run)
  {
    hide LeadsTo, Covers, IsStep, Goes, InputsCanCarry, Completes, KeysAt, Drawable;
    forall i | 0 <= i < |run.steps|
      ensures Drawn(setup, run.steps[i])
    {
      var s := run.steps[i];
      BitsAreEnds(setup, run.steps, i);
      DrawableEnd(setup.onCurve, data, |data| - |s.bits|);
      if Affordable(s.budget, s.params.nFees, s.params.nScriptHash) {
        DrawableInputs(setup, s.bits, KeysAt(s.params.nScriptHash, s.params.nNulldata, s.budget - s.params.nFees),
                       s.params.nScriptHash);
      }
    }
    CompletesExactly(setup, vin, data, nBudget, run);
  }

  lemma DrawableEnd(onCurve: Bytes -> bool, data: DataBits, k: nat)
    requires Drawable(onCurve, data) && k <= |data|
    ensures Drawable(onCurve, data[k..])
  {
    hide SomeDrawIsValid;
    forall at | 0 <= at < |data[k..]|
      ensures SomeDrawIsValid(onCurve, Window(data[k..], at, KEY_BITS), KEY_RANDOM_BITS)
    {
      assert Window(data[k..], at, KEY_BITS) == Window(data, k + at, KEY_BITS);
    }
  }

  lemma DrawableInputs(setup: Setup, bits: DataBits, at: nat, n: nat)
    requires Drawable(setup.onCurve, bits)
    ensures InputsCanCarry(setup, bits, at, n)
  {
    hide SomeDrawIsValid, Window, HashesRoom;
  }

  // ------------------------------------------------- data that cannot be embedded

  /** Data that fills the suffix of the first key and one payload without a point cannot be embedded,
      whatever the budget. */
  lemma NoPointNoChain(setup: Setup, vin: seq<TxIn>, suffix: DataBits, payload: DataBits, nBudget: nat, run: Run)
    requires |suffix| == setup.suffixBits && |payload| == KEY_BITS && setup.randomBits <= 235
    requires !SomeDrawIsValid(setup.onCurve, payload, KEY_RANDOM_BITS)
    requires IsRun(setup, vin, suffix + payload, nBudget, run)
    ensures !Completes(setup, run)
  {
    hide LeadsTo, IsStep, TransactionFee, SomeDrawIsValid;
    var s := run.steps[0];
    assert IsStep(setup, s);
    NoPointNoStep(setup, s, suffix, payload);
    if |run.steps| > 1 {
      assert Follows(setup, s, run.steps[1]);
      LeadingGoes(setup, s, run.steps[1].vin, run.steps[1].bits, run.steps[1].budget);
    }
  }

  lemma NoPointNoStep(setup: Setup, s: Step, suffix: DataBits, payload: DataBits)
    requires |suffix| == setup.suffixBits && |payload| == KEY_BITS && setup.randomBits <= 235
    requires !SomeDrawIsValid(setup.onCurve, payload, KEY_RANDOM_BITS) && IsStep(setup, s) && s.bits == suffix + payload
    ensures !Goes(setup, s)
  {
    hide FeesFor, TransactionFee, SomeDrawIsValid, SplitBits, PermutationBits, Chosen;
    assert Window(s.bits, setup.suffixBits, KEY_BITS) == payload;
    OneIsChosen(setup, NewTx.(vin := s.vin), |s.bits|, s.budget, s.params);
    assert !KeysCanCarry(setup.onCurve, s.bits, setup.suffixBits) by {
      assert setup.suffixBits + 0 * KEY_BITS < |s.bits|;
    }
    assert HashesRoom(setup, 0) == 0;
  }

  /** One script hash is chosen where one suffices. */
  lemma OneIsChosen(setup: Setup, tx: Tx, nBits: nat, nBudget: nat, params: Parameters)
    requires 0 < nBits <= BitsPerScriptHash(setup) && Chosen(setup, tx, nBits, nBudget, params)
    ensures params.nScriptHash == 1 && params.nNulldata == 0
  {
    hide FeesFor, SplitBits, PermutationBits, BitsPerScriptHash;
    forall m | m >= 1
      ensures Suffices(setup, tx, nBits, nBudget, m)
    {
      MulAtMost(BitsPerScriptHash(setup), 1, m);
    }
  }

  /** A curve that misses one block of 32 keys is enough: every other payload has a draw, this one has none. */
  lemma OneBlockMissing(payload: DataBits, other: DataBits)
    requires |payload| == |other| == KEY_BITS
    ensures var onCurve := (pk: Bytes) => DataInPubkey(pk, KEY_RANDOM_BITS) != Some(payload);
            SomeDrawIsValid(onCurve, other, KEY_RANDOM_BITS) <==> other != payload
  {
    forall draw: nat
      ensures DataInPubkey(DrawnKey(other, KEY_RANDOM_BITS, draw), KEY_RANDOM_BITS) == Some(other)
    {
      PubkeyPayload(other, ToBits(draw, KEY_RANDOM_BITS));
    }
    var onCurve := (pk: Bytes) => DataInPubkey(pk, KEY_RANDOM_BITS) != Some(payload);
    assert 0 < Pow2(KEY_RANDOM_BITS) && (other != payload ==> onCurve(DrawnKey(other, KEY_RANDOM_BITS, 0)));
  }

  /** The choice is unique, so only the lengths of signatures leave a run open. */
  lemma ChosenOnce(setup: Setup, tx: Tx, nBits: nat, nBudget: nat, p: Parameters, q: Parameters)
    requires Chosen(setup, tx, nBits, nBudget, p) && Chosen(setup, tx, nBits, nBudget, q)
    ensures p == q
  {
    hide Suffices, ParametersFor;
  }
}
