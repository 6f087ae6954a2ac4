/** The money that a transaction claims is the money that its predecessor spends. */
module Claims {
  import opened Transactions
  import Script
  import opened Carriers
  import opened ScriptHashes
  import opened Chains
  import opened Embedding
  import Permutations
  import Sequences

  /** The sum of the values at the given positions. */
  function Gathered(vout: seq<TxOut>, p: seq<nat>): (r: int)
    requires forall j :: 0 <= j < |p| ==> p[j] < |vout|
  {
    if p == [] then 0 else vout[p[0]].nValue + Gathered(vout, p[1..])
  }

  lemma {:induction false} GatheredWithout(vout: seq<TxOut>, p: seq<nat>, i: nat)
    requires (forall j :: 0 <= j < |p| ==> p[j] < |vout|) && i < |p|
    ensures Gathered(vout, p) == vout[p[i]].nValue + Gathered(vout, Sequences.RemoveAt(p, i))
  {
    if i == 0 {
      assert Sequences.RemoveAt(p, 0) == p[1..];
    } else {
      GatheredWithout(vout, p[1..], i - 1);
      assert Sequences.RemoveAt(p, i) == [p[0]] + Sequences.RemoveAt(p[1..], i - 1);
    }
  }

  lemma {:induction false} GatheredPrefix(vout: seq<TxOut>, n: nat, p: seq<nat>)
    requires n <= |vout| && forall j :: 0 <= j < |p| ==> p[j] < n
    ensures Gathered(vout[..n], p) == Gathered(vout, p)
  {
    if p != [] {
      GatheredPrefix(vout, n, p[1..]);
    }
  }

  lemma SumPrefix(vout: seq<TxOut>)
    requires vout != []
    ensures SumOfValues(vout) == SumOfValues(vout[..|vout| - 1]) + vout[|vout| - 1].nValue
  {
    SumAppend(vout[..|vout| - 1], vout[|vout| - 1]);
    assert vout == vout[..|vout| - 1] + [vout[|vout| - 1]];
  }

  /** The position of the largest element, and what is left without it. */
  lemma RemoveLargest(p: seq<nat>, k: nat) returns (i: nat)
    requires Permutations.IsPermutation(p, k) && k > 0
    ensures i < |p| && p[i] == k - 1 && Permutations.IsPermutation(Sequences.RemoveAt(p, i), k - 1)
  {
    assert Permutations.Iota(k)[k - 1] == k - 1;
    assert k - 1 in Permutations.Elements(p);
    i :| 0 <= i < |p| && p[i] == k - 1;
    Permutations.RemoveAtElements(p, i);
    forall v
      ensures v in Permutations.Elements(Permutations.Iota(k - 1)) <==>
              v in Permutations.Elements(Permutations.Iota(k)) && v != k - 1
    {
      assert v in Permutations.Iota(k) <==> 0 <= v < k by {
        if 0 <= v < k { assert Permutations.Iota(k)[v] == v; }
      }
      assert v in Permutations.Iota(k - 1) <==> 0 <= v < k - 1 by {
        if 0 <= v < k - 1 { assert Permutations.Iota(k - 1)[v] == v; }
      }
    }
  }

  lemma {:induction false} GatheredByPermutation(vout: seq<TxOut>, p: seq<nat>)
    requires Permutations.IsPermutation(p, |vout|)
    ensures forall j :: 0 <= j < |p| ==> p[j] < |vout|
    ensures Gathered(vout, p) == SumOfValues(vout)
  {
    ElementsInRange(p, |vout|);
    if vout != [] {
      var k := |vout| - 1;
      var i := RemoveLargest(p, |vout|);
      GatheredWithout(vout, p, i);
      ElementsInRange(Sequences.RemoveAt(p, i), k);
      GatheredPrefix(vout, k, Sequences.RemoveAt(p, i));
      GatheredByPermutation(vout[..k], Sequences.RemoveAt(p, i));
      SumPrefix(vout);
    }
  }

  /** The positions that the inputs claim. */
  ghost function Positions(vin: seq<TxIn>): (r: seq<nat>)
    ensures |r| == |vin| && forall i :: 0 <= i < |vin| ==> r[i] == vin[i].prevout.n
  {
    seq(|vin|, i requires 0 <= i < |vin| => vin[i].prevout.n)
  }

  /** Each spendable output is claimed exactly once and the OP_RETURN output never, so the inputs of a
      transaction claim exactly what the outputs before it hold. */
  lemma {:induction false} ClaimsEverything(setup: Setup, added: set<Script.Script>, vout: seq<TxOut>, vin: seq<TxIn>, amount: int)
    requires Embedded(setup, added, vout, vin, amount)
    ensures Permutations.IsPermutation(Positions(vin), |vin|)
    ensures forall j :: 0 <= j < |vin| ==> vin[j].prevout.n < |vin| <= |vout|
    ensures Gathered(vout, Positions(vin)) == amount == SumOfValues(vout)
  {
    hide RedeemedBy, AllAbove, SmallInputs;
    var n, p := |vin|, Positions(vin);
    assert p == seq(|vin|, i requires 0 <= i < |vin| => vin[i].prevout.n);
    GatheredByPermutation(vout[..n], p);
    GatheredPrefix(vout, n, p);
    if |vout| > n {
      SumPrefix(vout);
    } else {
      assert vout[..n] == vout;
    }
  }
}
