/** EmbedData: a chain of transactions for data of any length
    (src/lib/bms/BlockchainInterface.cpp:426-504). */
module ChainBuilding {
  import opened Bits
  import opened Options
  import opened Script
  import opened Transactions
  import opened Carriers
  import opened CarrierWindows
  import opened ScriptHashes
  import opened TransactionShapes
  import opened Chains
  import opened Embedding
  import opened Runs
  import Permutations
  import Sequences

  // ---------------------------------------------------------------------- the money

  /** The budget that enters transaction `i`: what its predecessor's outputs hold. */
  function Entering(txs: seq<Tx>, nBudget: int, i: nat): (r: int)
    requires i < |txs|
  {
    if i == 0 then nBudget else SumOfValues(txs[i - 1].vout)
  }

  /** The fee set aside for transaction `i`; that of the last one is found before it has an output. */
  function FeeOf(feeRate: nat, txs: seq<Tx>, i: nat): (r: nat)
    requires i < |txs|
  {
    TransactionFee(feeRate, if i == |txs| - 1 then txs[i].(vout := []) else txs[i])
  }

  ghost predicate ConservesAt(feeRate: nat, txs: seq<Tx>, nBudget: int, i: nat)
    requires i < |txs|
  {
    SumOfValues(txs[i].vout) + FeeOf(feeRate, txs, i) == Entering(txs, nBudget, i)
  }

  /** Outputs and fee of every transaction add up to the budget that enters it. */
  ghost predicate Conserves(feeRate: nat, txs: seq<Tx>, nBudget: int) {
    forall i :: 0 <= i < |txs| ==> ConservesAt(feeRate, txs, nBudget, i)
  }

  // ---------------------------------------------------------------------- the chain

  ghost predicate EmbeddedAt(setup: Setup, added: set<Script>, txs: seq<Tx>, i: nat)
    requires i < |txs| - 1
  {
    Embedded(setup, added, txs[i].vout, txs[i + 1].vin, SumOfValues(txs[i].vout))
  }

  ghost predicate EmbeddedUpTo(setup: Setup, added: set<Script>, txs: seq<Tx>, k: nat)
    requires k < |txs|
  {
    forall i :: 0 <= i < k ==> EmbeddedAt(setup, added, txs, i)
  }

  ghost predicate ConservesUpTo(feeRate: nat, txs: seq<Tx>, nBudget: int, k: nat)
    requires k < |txs|
  {
    forall i :: 0 <= i < k ==> ConservesAt(feeRate, txs, nBudget, i)
  }

  /** What ExtractData finds is the data, followed by zeros only. */
  ghost predicate GivesBack(txs: seq<Tx>, suffixBits: nat, data: DataBits) {
    txs != [] &&
    var found := DataInChain(txs, suffixBits);
    found.Some? && |data| <= |found.value| && found.value == data + Zeros(|found.value| - |data|)
  }

  /** Then each carrier holds its part of the data. */
  lemma GivenBackIsHeld(txs: seq<Tx>, suffixBits: nat, data: DataBits)
    requires GivesBack(txs, suffixBits, data)
    ensures ChainHolds(data, txs, suffixBits)
  {
    hide DataInChain, ChainHolds;
    PaddedInPlace(data, |DataInChain(txs, suffixBits).value| - |data|, txs, suffixBits);
  }

  /** The unsigned inputs that claim the given outputs. */
  function InputsFor(prevOut: seq<OutPoint>): (r: seq<TxIn>)
    ensures |r| == |prevOut| && forall i :: 0 <= i < |prevOut| ==> r[i] == NewTxIn.(prevout := prevOut[i])
  {
    seq(|prevOut|, i requires 0 <= i < |prevOut| => NewTxIn.(prevout := prevOut[i]))
  }

  method FirstTransaction(prevOut: seq<OutPoint>) returns (tx: Tx)
    ensures tx == NewTx.(vin := InputsFor(prevOut))
  {
    tx := NewTx;
    for i := 0 to |prevOut|
      invariant tx == NewTx.(vin := InputsFor(prevOut)[..i])
    {
      tx := tx.(vin := tx.vin + [NewTxIn.(prevout := prevOut[i])]);
    }
    assert InputsFor(prevOut)[..|prevOut|] == InputsFor(prevOut);
  }

  // --------------------------------------------------------- adding to the chain

  lemma LinkedMore(setup: Setup, before: set<Script>, added: set<Script>, vout: seq<TxOut>, vin: seq<TxIn>)
    requires before <= added && Linked(setup, before, vout, vin)
    ensures Linked(setup, added, vout, vin)
  {
    hide Redeems, ClaimsEach;
    forall j {:trigger vin[j]} | 0 <= j < |vin|
      ensures RedeemedBy(setup, added, vin[j], vout[vin[j].prevout.n])
    {
      assert RedeemedBy(setup, before, vin[j], vout[vin[j].prevout.n]);
    }
  }

  lemma MoreAdded(setup: Setup, before: set<Script>, added: set<Script>, txs: seq<Tx>, k: nat)
    requires k < |txs| && before <= added && EmbeddedUpTo(setup, before, txs, k)
    ensures EmbeddedUpTo(setup, added, txs, k)
  {
    hide Linked;
    forall i | 0 <= i < k
      ensures EmbeddedAt(setup, added, txs, i)
    {
      assert EmbeddedAt(setup, before, txs, i);
      LinkedMore(setup, before, added, txs[i].vout, txs[i + 1].vin);
    }
  }

  /** Only outputs of the first k transactions and inputs of the first k + 1 matter. */
  ghost predicate AgreeUpTo(a: seq<Tx>, b: seq<Tx>, k: nat) {
    k < |a| && k < |b| && (forall i :: 0 <= i < k ==> a[i] == b[i]) && a[k].vin == b[k].vin
  }

  lemma {:induction false} SameDataUpTo(a: seq<Tx>, b: seq<Tx>, k: nat, suffixBits: nat)
    requires AgreeUpTo(a, b, k)
    ensures DataUpTo(a, k, suffixBits) == DataUpTo(b, k, suffixBits)
  {
    hide DataInTransaction;
    if k > 0 {
      SameDataUpTo(a, b, k - 1, suffixBits);
    }
  }

  lemma SameUpTo(setup: Setup, added: set<Script>, a: seq<Tx>, b: seq<Tx>, k: nat, nBudget: int)
    requires AgreeUpTo(a, b, k)
    requires EmbeddedUpTo(setup, added, a, k) && ConservesUpTo(setup.feeRate, a, nBudget, k)
    ensures EmbeddedUpTo(setup, added, b, k) && ConservesUpTo(setup.feeRate, b, nBudget, k)
    ensures Entering(b, nBudget, k) == Entering(a, nBudget, k)
  {
    hide Embedded, TransactionFee;
    forall i | 0 <= i < k
      ensures EmbeddedAt(setup, added, b, i) && ConservesAt(setup.feeRate, b, nBudget, i)
    {
      assert EmbeddedAt(setup, added, a, i) && ConservesAt(setup.feeRate, a, nBudget, i);
    }
  }

  /** The first k transactions are finished and the k + 1st has its inputs. */
  ghost predicate Progress(setup: Setup, added: set<Script>, txs: seq<Tx>, k: nat, nBudget: nat, left: nat,
                           data: DataBits, bits: DataBits)
  {
    k < |txs| && txs[k].vout == [] &&
    EmbeddedUpTo(setup, added, txs, k) && ConservesUpTo(setup.feeRate, txs, nBudget, k) &&
    Entering(txs, nBudget, k) == left &&
    var found := DataUpTo(txs, k, setup.suffixBits);
    found.Some? && Carries(data, found.value, bits)
  }

  lemma ProgressAgrees(setup: Setup, added: set<Script>, a: seq<Tx>, b: seq<Tx>, k: nat, nBudget: nat, left: nat,
                       data: DataBits, bits: DataBits)
    requires Progress(setup, added, a, k, nBudget, left, data, bits) && AgreeUpTo(a, b, k) && b[k].vout == []
    ensures Progress(setup, added, b, k, nBudget, left, data, bits)
  {
    SameUpTo(setup, added, a, b, k, nBudget);
    SameDataUpTo(a, b, k, setup.suffixBits);
  }

  lemma ProgressStep(setup: Setup, before: set<Script>, added: set<Script>, txs: seq<Tx>, done: Tx, next: Tx, k: nat,
                     nBudget: nat, left: nat, nFees: nat, data: DataBits, b0: DataBits, b1: DataBits) returns (r: seq<Tx>)
    requires |txs| == k + 2 && before <= added && nFees <= left
    requires Progress(setup, before, txs, k, nBudget, left, data, b0)
    requires done == txs[k].(vout := done.vout) && next.vout == [] && nFees == TransactionFee(setup.feeRate, done)
    requires Embedded(setup, added, done.vout, next.vin, left - nFees)
    requires var data := DataInTransaction(done.vout, next.vin, setup.suffixBits);
             data.Some? && Carries(b0, data.value, b1)
    ensures r == txs[k := done][k + 1 := next]
    ensures Progress(setup, added, r, k + 1, nBudget, left - nFees, data, b1)
  {
    hide DataInTransaction, Carries, Embedded, EmbeddedUpTo, ConservesUpTo, TransactionFee;
    r := txs[k := done][k + 1 := next];
    MoreAdded(setup, before, added, txs, k);
    SameUpTo(setup, added, txs, r, k, nBudget);
    SameDataUpTo(txs, r, k, setup.suffixBits);
    CarriesOn(data, DataUpTo(txs, k, setup.suffixBits).value, b0,
              DataInTransaction(done.vout, next.vin, setup.suffixBits).value, b1);
    LastStep(setup, added, r, k, nBudget, left, nFees);
  }

  lemma LastStep(setup: Setup, added: set<Script>, r: seq<Tx>, k: nat, nBudget: nat, left: nat, nFees: nat)
    requires |r| == k + 2 && EmbeddedUpTo(setup, added, r, k) && ConservesUpTo(setup.feeRate, r, nBudget, k)
    requires Embedded(setup, added, r[k].vout, r[k + 1].vin, left - nFees)
    requires Entering(r, nBudget, k) == left && nFees == TransactionFee(setup.feeRate, r[k])
    ensures EmbeddedUpTo(setup, added, r, k + 1) && ConservesUpTo(setup.feeRate, r, nBudget, k + 1)
    ensures Entering(r, nBudget, k + 1) == left - nFees
  {
    hide Linked, SmallInputs, TransactionFee;
    assert EmbeddedAt(setup, added, r, k) && ConservesAt(setup.feeRate, r, nBudget, k);
  }

  // -------------------------------------------------------------------- the theorem

  ghost predicate Embeds(setup: Setup, added: set<Script>, txs: seq<Tx>, data: DataBits, prevOut: seq<OutPoint>,
                         destination: Script)
  {
    |txs| >= 2 && txs[0].vin == InputsFor(prevOut) &&
    GivesBack(txs, setup.suffixBits, data) &&
    EmbeddedUpTo(setup, added, txs, |txs| - 1) &&
    |txs[|txs| - 1].vout| == 1 && txs[|txs| - 1].vout[0].scriptPubKey == destination
  }

  /** The loop for data that is not empty: the chain up to the inputs of its last transaction, and the run. */
  method EmbedAll(session: Session, data: DataBits, nBudget: nat, prevOut: seq<OutPoint>)
    returns (txs: seq<Tx>, left: nat, ok: bool, ghost run: Run)
    requires session.Ready() && session.setup.randomBits <= 255 && nBudget < INT64 && data != []
    modifies session
    ensures session.Ready() && old(session.added) <= session.added && session.store.keys == old(session.store.keys)
    ensures IsRun(session.setup, InputsFor(prevOut), data, nBudget, run) && ok == Goes(session.setup, Last(run.steps))
    ensures ok ==> |txs| >= 2 && txs[0].vin == InputsFor(prevOut) && txs[|txs| - 1] == NewTx.(vin := run.vin)
    ensures ok ==> left == Last(run.steps).budget - Last(run.steps).params.nFees && left <= nBudget
    ensures ok ==> Progress(session.setup, session.added, txs, |txs| - 1, nBudget, left, data, [])
  {
    hide Progress, Embedded, Carries, DataInTransaction, DataInChain, TransactionFee, Provided, StoresAll, InputsFor,
         BytesToBits, Zeros, Goes, LeadsTo, IsStep, StepRoom;
    var setup := session.setup;
    var bits := new BitQueue(data);
    var first := FirstTransaction(prevOut);
    txs := [first, NewTx];
    left := nBudget;
    Started(setup, session.added, first, nBudget, data);
    var idx := 0;
    ghost var steps: seq<Step> := [];
    while true
      invariant session.Ready() && old(session.added) <= session.added && session.store.keys == old(session.store.keys)
      invariant |txs| == idx + 2 && txs[0].vin == InputsFor(prevOut) && txs[idx + 1] == NewTx
      invariant txs[idx] == NewTx.(vin := txs[idx].vin)
      invariant left <= nBudget && bits.bits != []
      invariant Progress(setup, session.added, txs, idx, nBudget, left, data, bits.bits)
      invariant Heads(setup, InputsFor(prevOut), data, nBudget, steps, txs[idx].vin, bits.bits, left)
      decreases |bits.bits|
    {
      ghost var before, b0, vin := session.added, bits.bits, txs[idx].vin;
      var done, next, params;
      ok, done, next, params := EmbedStep(session, bits, txs[idx], left);
      ghost var s := Step(vin, b0, left, params);
      StepTaken(setup, s);
      OneMoreStep(setup, InputsFor(prevOut), data, nBudget, steps, s);
      steps := steps + [s];
      if !ok {
        run := Run(steps, []);
        return;
      }
      StepLeads(setup, session.added, s, bits.bits, done, next);
      ghost var r := ProgressStep(setup, before, session.added, txs, done, next, idx, nBudget, left, params.nFees,
                                  data, b0, bits.bits);
      txs := txs[idx := done];
      txs := txs[idx + 1 := next];
      left := left - params.nFees;
      if bits.bits == [] {
        run := Run(steps, next.vin);
        return;
      }
      txs := txs + [NewTx];
      idx := idx + 1;
      ProgressAgrees(setup, session.added, r, txs, idx, nBudget, left, data, bits.bits);
    }
  }

  /** The steps so far lead to the state at the head of the loop. */
  ghost predicate Heads(setup: Setup, vin: seq<TxIn>, data: DataBits, nBudget: nat, steps: seq<Step>,
                        now: seq<TxIn>, bits: DataBits, left: nat)
  {
    if steps == [] then now == vin && bits == data && left == nBudget
    else Begins(steps, vin, data, nBudget) && AreSteps(setup, steps) && LeadsTo(setup, Last(steps), now, bits, left)
  }

  lemma OneMoreStep(setup: Setup, vin: seq<TxIn>, data: DataBits, nBudget: nat, steps: seq<Step>, s: Step)
    requires Heads(setup, vin, data, nBudget, steps, s.vin, s.bits, s.budget) && IsStep(setup, s)
    ensures Begins(steps + [s], vin, data, nBudget) && AreSteps(setup, steps + [s]) && Last(steps + [s]) == s
  {
    hide LeadsTo, IsStep;
  }

  lemma StepTaken(setup: Setup, s: Step)
    requires s.bits != [] && s.params.nScriptHash >= 1
    requires Chosen(setup, NewTx.(vin := s.vin), |s.bits|, s.budget, s.params)
    ensures IsStep(setup, s) && Goes(setup, s) == StepCan(setup, s.bits, s.budget, s.params)
  {
    hide Chosen, StepCan;
  }

  lemma EmbeddedSmall(setup: Setup, added: set<Script>, vout: seq<TxOut>, vin: seq<TxIn>, amount: int)
    requires Embedded(setup, added, vout, vin, amount)
    ensures SmallInputs(vin)
  {
    hide Linked, Spends, SmallInputs;
  }

  lemma StepLeads(setup: Setup, added: set<Script>, s: Step, bits: DataBits, done: Tx, next: Tx)
    requires IsStep(setup, s) && StepCan(setup, s.bits, s.budget, s.params)
    requires |bits| == Rest(|s.bits|, StepRoom(setup, s.params.nScriptHash, s.params.nNulldata, s.budget - s.params.nFees))
    requires Embedded(setup, added, done.vout, next.vin, s.budget - s.params.nFees) && |next.vin| == s.params.nScriptHash
    requires var data := DataInTransaction(done.vout, next.vin, setup.suffixBits);
             data.Some? && Carries(s.bits, data.value, bits)
    ensures s.params.nFees <= s.budget && LeadsTo(setup, s, next.vin, bits, s.budget - s.params.nFees)
    ensures |bits| < |s.bits|
  {
    hide Embedded, DataInTransaction, Carries, InputsCanCarry, StepRoom, Chosen, SmallInputs, KeysAt;
    EmbeddedSmall(setup, added, done.vout, next.vin, s.budget - s.params.nFees);
    StepTakes(setup, s.params, s.budget - s.params.nFees);
    LeftIsEnd(s.bits, DataInTransaction(done.vout, next.vin, setup.suffixBits).value, bits);
  }

  lemma Started(setup: Setup, added: set<Script>, first: Tx, nBudget: nat, data: DataBits)
    requires first.vout == []
    ensures Progress(setup, added, [first, NewTx], 0, nBudget, nBudget, data, data)
  {
    CarriesNothing(data);
  }

  /** The loop for no data runs once and adds no outputs or inputs; only the fee is taken. */
  method EmbedNothing(setup: Setup, nBudget: nat, prevOut: seq<OutPoint>) returns (txs: seq<Tx>, left: int)
    requires setup.randomBits <= 255 && nBudget < INT64
    ensures txs == [NewTx.(vin := InputsFor(prevOut)), NewTx]
    ensures left == nBudget - TransactionFee(setup.feeRate, txs[0])
  {
    var first := FirstTransaction(prevOut);
    txs := [first, NewTx];
    var params := OptimizeParams(setup, first, [], nBudget);
    left := nBudget - params.nFees;
  }

  lemma NothingEmbedded(setup: Setup, added: set<Script>, vin: seq<TxIn>, last: Tx)
    requires last.vin == []
    ensures EmbeddedUpTo(setup, added, [NewTx.(vin := vin), last], 1)
    ensures GivesBack([NewTx.(vin := vin), last], setup.suffixBits, [])
  {
    var txs := [NewTx.(vin := vin), last];
    assert seq(|last.vin|, i requires 0 <= i < |last.vin| => last.vin[i].prevout.n) == [] == Permutations.Iota(0);
    assert ClaimsEach(last.vin);
    assert EmbeddedAt(setup, added, txs, 0);
    assert txs[0].vout[..0] == [];
    Sequences.NothingAround<bool>([]);
    assert DataInTransaction(txs[0].vout, txs[1].vin, setup.suffixBits) == Some([]);
    assert DataUpTo(txs, 1, setup.suffixBits) == Some([]);
    assert Zeros(0) == [];
  }

  /** Without data the first transaction has no outputs, so what is left of the budget is not handed on. */
  lemma NothingConserved(feeRate: nat, vin: seq<TxIn>, last: Tx, nBudget: nat)
    requires |last.vout| == 1 && last.vin == [] && last.nVersion == 1 && last.nLockTime == 0
    requires TransactionFee(feeRate, NewTx.(vin := vin)) + TransactionFee(feeRate, NewTx) <= nBudget
    requires last.vout[0].nValue ==
             nBudget - TransactionFee(feeRate, NewTx.(vin := vin)) - TransactionFee(feeRate, NewTx)
    ensures Conserves(feeRate, [NewTx.(vin := vin), last], nBudget) <==>
            nBudget == TransactionFee(feeRate, NewTx.(vin := vin))
  {
    hide TransactionFee;
    var txs := [NewTx.(vin := vin), last];
    assert last.(vout := []) == NewTx;
    assert last.vout[1..] == [] && SumOfValues(last.vout) == last.vout[0].nValue;
    assert ConservesAt(feeRate, txs, nBudget, 0) <==> nBudget == TransactionFee(feeRate, NewTx.(vin := vin));
    assert ConservesAt(feeRate, txs, nBudget, 1) <==> nBudget - TransactionFee(feeRate, NewTx.(vin := vin)) == 0;
  }

  /** No data, no inputs and a budget of three fees: the first fee is lost, the last transaction pays out one. */
  lemma MoneyLost(feeRate: nat, destination: Script)
    requires feeRate > 0
    ensures !Conserves(feeRate, [NewTx, NewTx.(vout := [TxOut(feeRate, destination)])], 3 * feeRate)
  {
    NothingConserved(feeRate, [], NewTx.(vout := [TxOut(feeRate, destination)]), 3 * feeRate);
    assert NewTx.(vin := []) == NewTx;
  }

  /** The last transaction gets its only output. */
  lemma Finish(setup: Setup, added: set<Script>, txs: seq<Tx>, nBudget: nat, left: nat, out: TxOut, data: DataBits)
    returns (r: seq<Tx>)
    requires |txs| >= 2 && Progress(setup, added, txs, |txs| - 1, nBudget, left, data, [])
    requires out.nValue == left - TransactionFee(setup.feeRate, txs[|txs| - 1])
    ensures r == txs[|txs| - 1 := txs[|txs| - 1].(vout := txs[|txs| - 1].vout + [out])]
    ensures r[|r| - 1].vout == [out] && r[0].vin == txs[0].vin
    ensures GivesBack(r, setup.suffixBits, data) && EmbeddedUpTo(setup, added, r, |r| - 1)
    ensures Conserves(setup.feeRate, r, nBudget)
  {
    hide TransactionFee, EmbeddedUpTo, ConservesUpTo, Carries, DataUpTo;
    var k := |txs| - 1;
    assert txs[k].vout + [out] == [out];
    r := txs[k := txs[k].(vout := txs[k].vout + [out])];
    SameUpTo(setup, added, txs, r, k, nBudget);
    SameDataUpTo(txs, r, k, setup.suffixBits);
    CarriedAll(data, DataUpTo(txs, k, setup.suffixBits).value);
    FinishMoney(setup.feeRate, txs[k], r, nBudget, left, out);
  }

  lemma FinishMoney(feeRate: nat, before: Tx, r: seq<Tx>, nBudget: nat, left: nat, out: TxOut)
    requires |r| >= 2 && ConservesUpTo(feeRate, r, nBudget, |r| - 1) && Entering(r, nBudget, |r| - 1) == left
    requires before.vout == [] && r[|r| - 1] == before.(vout := [out])
    requires out.nValue == left - TransactionFee(feeRate, before)
    ensures Conserves(feeRate, r, nBudget)
  {
    hide TransactionFee;
    var k := |r| - 1;
    assert r[k].(vout := []) == before;
    assert [out][1..] == [];
    assert SumOfValues([out]) == out.nValue;
    assert ConservesAt(feeRate, r, nBudget, k);
  }

  /** Embeds data of any length. The result is None where the run does not complete: the budget does not cover
      a step or the last fee, so that the source's unsigned arithmetic would wrap, or a payload has no key, so
      that the source draws forever. */
  method EmbedData(session: Session, data: DataBits, nBudget: nat, prevOut: seq<OutPoint>, destination: Script)
    returns (result: Option<seq<Tx>>, ghost run: Run)
    requires session.Ready() && session.setup.randomBits <= 255 && nBudget < INT64
    modifies session
    ensures session.Ready() && old(session.added) <= session.added && session.store.keys == old(session.store.keys)
    ensures result.Some? ==> Embeds(session.setup, session.added, result.value, data, prevOut, destination)
    ensures result.Some? ==> ChainHolds(data, result.value, session.setup.suffixBits)
    ensures result.Some? ==>
      (Conserves(session.setup.feeRate, result.value, nBudget) <==>
        data != [] || nBudget == TransactionFee(session.setup.feeRate, result.value[0]))
    ensures data != [] ==>
      IsRun(session.setup, InputsFor(prevOut), data, nBudget, run) && (result.Some? <==> Completes(session.setup, run))
    ensures data == [] ==>
      (result.Some? <==> nBudget >= TransactionFee(session.setup.feeRate, NewTx.(vin := InputsFor(prevOut))) +
                                    TransactionFee(session.setup.feeRate, NewTx))
  {
    hide Progress, Conserves, EmbeddedUpTo, GivesBack, TransactionFee, InputsFor, Provided, StoresAll, AreSteps, LeadsTo,
         Goes, ChainHolds;
    var setup := session.setup;
    var txs: seq<Tx>, left: int;
    run := Run([], []);
    if data == [] {
      txs, left := EmbedNothing(setup, nBudget, prevOut);
      if left < 0 {
        return None, run;
      }
    } else {
      var ok;
      txs, left, ok, run := EmbedAll(session, data, nBudget, prevOut);
      if !ok {
        return None, run;
      }
    }
    var last := |txs| - 1;
    var params := OptimizeParams(setup, txs[last], [], left);
    if left < params.nFees {
      return None, run;
    }
    var out := TxOut(left - params.nFees, destination);
    if data == [] {
      NothingEmbedded(setup, session.added, InputsFor(prevOut), NewTx.(vout := [out]));
      NothingConserved(setup.feeRate, InputsFor(prevOut), NewTx.(vout := [out]), nBudget);
      assert txs[last].vout + [out] == [out];
      assert txs[last := NewTx.(vout := [out])] == [NewTx.(vin := InputsFor(prevOut)), NewTx.(vout := [out])];
    } else {
      ghost var r := Finish(setup, session.added, txs, nBudget, left, out, data);
    }
    txs := txs[last := txs[last].(vout := txs[last].vout + [out])];
    GivenBackIsHeld(txs, setup.suffixBits, data);
    result := Some(txs);
  }

  // ------------------------------------------------------ the fee of the last transaction

  function WithOutput(t: Tx, out: TxOut): (r: Tx) {
    t.(vout := t.vout + [out])
  }

  /** A multiple of 1000 bytes lies between the sizes without and with the output. */
  predicate Crosses(t: Tx, out: TxOut) {
    exists k :: 0 <= k <= SizeOfTx(t) + 1 && SizeOfTx(t) <= 1000 * k < SizeOfTx(WithOutput(t, out))
  }

  /** The fee found before the output is added is too small exactly when there is a fee and the output
      carries the size over a multiple of 1000. */
  lemma FeeBeforeOutput(feeRate: nat, t: Tx, out: TxOut)
    ensures TransactionFee(feeRate, t) < TransactionFee(feeRate, WithOutput(t, out)) <==> feeRate > 0 && Crosses(t, out)
  {
    var a, b := SizeOfTx(t), SizeOfTx(WithOutput(t, out));
    OutputAddsSize(t.vout, out);
    var k := (a + 999) / 1000;
    assert a <= 1000 * k < a + 1000;
    assert Crosses(t, out) <==> 1000 * k < b;
    assert 1000 * k < b <==> k < (b + 999) / 1000;
    FeeStrict(feeRate, k, (b + 999) / 1000);
  }

  lemma FeeStrict(feeRate: nat, k: nat, m: nat)
    requires k <= m
    ensures feeRate * k < feeRate * m <==> feeRate > 0 && k < m
  {
    if k < m { MulAtMost(feeRate, k + 1, m); }
  }

  lemma {:induction false} OutputAddsSize(vout: seq<TxOut>, out: TxOut)
    ensures SizeOfOuts(vout + [out]) > SizeOfOuts(vout)
  {
    if vout == [] {
      assert [out][1..] == [];
    } else {
      assert (vout + [out])[1..] == vout[1..] + [out];
      OutputAddsSize(vout[1..], out);
    }
  }

  /** What the last transaction pays in fees is less than its own fee exactly in that case. */
  lemma LastPaysLess(feeRate: nat, txs: seq<Tx>, nBudget: int)
    requires txs != [] && Conserves(feeRate, txs, nBudget) && |txs[|txs| - 1].vout| == 1
    ensures var last := |txs| - 1;
            var paid := Entering(txs, nBudget, last) - SumOfValues(txs[last].vout);
            paid < TransactionFee(feeRate, txs[last]) <==>
              feeRate > 0 && Crosses(txs[last].(vout := []), txs[last].vout[0])
  {
    hide TransactionFee, Crosses;
    var last := |txs| - 1;
    assert ConservesAt(feeRate, txs, nBudget, last);
    assert WithOutput(txs[last].(vout := []), txs[last].vout[0]) == txs[last];
    FeeBeforeOutput(feeRate, txs[last].(vout := []), txs[last].vout[0]);
  }

  /** Two inputs with signature scripts of 452 bytes: 1000 bytes without the output, 1032 with it. */
  lemma FeeTooSmall(feeRate: nat, destination: Script)
    requires feeRate > 0 && |destination| == 23
    ensures var i := NewTxIn.(scriptSig := ZeroBytes(452));
            var t, out := NewTx.(vin := [i, i]), TxOut(0, destination);
            TransactionFee(feeRate, t) == feeRate && TransactionFee(feeRate, WithOutput(t, out)) == 2 * feeRate
  {
    var i := NewTxIn.(scriptSig := ZeroBytes(452));
    var out := TxOut(0, destination);
    assert [i, i][1..] == [i] && [i][1..] == [] && [out][1..] == [] && [] + [out] == [out];
    assert SizeOfIns([i, i]) == 2 * SizeOfIns([i]);
  }
}
