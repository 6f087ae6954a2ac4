/** The loop of OP_CHECKMULTISIG that matches signatures to public keys
    (src/lib/core/script.cpp:915-936). */
module MultisigMatching {

  /** The signatures can be matched, in order, to strictly increasing key positions. */
  ghost predicate Matching<S, K>(sigs: seq<S>, keys: seq<K>, ok: (S, K) -> bool, f: seq<nat>) {
    |f| == |sigs| &&
    (forall i :: 0 <= i < |f| ==> f[i] < |keys| && ok(sigs[i], keys[f[i]])) &&
    (forall i, j :: 0 <= i < j < |f| ==> f[i] < f[j])
  }

  ghost predicate Matchable<S, K>(sigs: seq<S>, keys: seq<K>, ok: (S, K) -> bool) {
    exists f: seq<nat> :: Matching(sigs, keys, ok, f)
  }

  /** Each key is tried once, against the first signature not yet matched. */
  function Greedy<S, K>(sigs: seq<S>, keys: seq<K>, ok: (S, K) -> bool): (r: bool) {
    if sigs == [] then true
    else if |sigs| > |keys| then false
    else Greedy(if ok(sigs[0], keys[0]) then sigs[1..] else sigs, keys[1..], ok)
  }

  function Lowered(f: seq<nat>): (r: seq<nat>)
    requires forall i :: 0 <= i < |f| ==> f[i] >= 1
    ensures |r| == |f| && forall i :: 0 <= i < |f| ==> r[i] == f[i] - 1
  {
    seq(|f|, i requires 0 <= i < |f| => f[i] - 1)
  }

  function Raised(f: seq<nat>): (r: seq<nat>)
    ensures |r| == |f| && forall i :: 0 <= i < |f| ==> r[i] == f[i] + 1
  {
    seq(|f|, i requires 0 <= i < |f| => f[i] + 1)
  }

  /** A strictly increasing matching needs at least as many keys as signatures. */
  lemma {:induction false} EnoughKeys<S, K>(sigs: seq<S>, keys: seq<K>, ok: (S, K) -> bool, f: seq<nat>, i: nat)
    requires Matching(sigs, keys, ok, f) && i < |f|
    ensures f[i] >= i
  {
    if i > 0 {
      EnoughKeys(sigs, keys, ok, f, i - 1);
    }
  }

  /** Using the first key for the first signature whenever they fit loses no solution. */
  lemma TakeFirst<S, K>(sigs: seq<S>, keys: seq<K>, ok: (S, K) -> bool)
    requires sigs != [] && keys != [] && ok(sigs[0], keys[0])
    ensures Matchable(sigs, keys, ok) <==> Matchable(sigs[1..], keys[1..], ok)
  {
    hide Matching;
    if Matchable(sigs, keys, ok) {
      var f :| Matching(sigs, keys, ok, f);
      var g := WithoutFirst(sigs, keys, ok, f);
    }
    if Matchable(sigs[1..], keys[1..], ok) {
      var f :| Matching(sigs[1..], keys[1..], ok, f);
      WithFirst(sigs, keys, ok, f);
    }
  }

  lemma WithoutFirst<S, K>(sigs: seq<S>, keys: seq<K>, ok: (S, K) -> bool, f: seq<nat>) returns (g: seq<nat>)
    requires sigs != [] && keys != [] && Matching(sigs, keys, ok, f)
    ensures Matching(sigs[1..], keys[1..], ok, g)
  {
    assert forall i :: 0 <= i < |f[1..]| ==> f[1..][i] == f[i + 1] > f[0];
    g := Lowered(f[1..]);
  }

  lemma WithFirst<S, K>(sigs: seq<S>, keys: seq<K>, ok: (S, K) -> bool, f: seq<nat>)
    requires sigs != [] && keys != [] && ok(sigs[0], keys[0]) && Matching(sigs[1..], keys[1..], ok, f)
    ensures Matching(sigs, keys, ok, [0] + Raised(f))
  {
    var g := [0] + Raised(f);
    forall i | 0 <= i < |g|
      ensures g[i] < |keys| && ok(sigs[i], keys[g[i]])
    {
      if i > 0 {
        assert ok(sigs[1..][i - 1], keys[1..][f[i - 1]]);
      }
    }
  }

  /** A key that does not fit the first signature fits none that could still use it. */
  lemma SkipFirst<S, K>(sigs: seq<S>, keys: seq<K>, ok: (S, K) -> bool)
    requires sigs != [] && keys != [] && !ok(sigs[0], keys[0])
    ensures Matchable(sigs, keys, ok) <==> Matchable(sigs, keys[1..], ok)
  {
    if Matchable(sigs, keys, ok) {
      var f :| Matching(sigs, keys, ok, f);
      assert f[0] >= 1;
      assert Matching(sigs, keys[1..], ok, Lowered(f));
    }
    if Matchable(sigs, keys[1..], ok) {
      var f :| Matching(sigs, keys[1..], ok, f);
      assert Matching(sigs, keys, ok, Raised(f));
    }
  }

  lemma {:induction false} GreedyIsComplete<S, K>(sigs: seq<S>, keys: seq<K>, ok: (S, K) -> bool)
    ensures Greedy(sigs, keys, ok) <==> Matchable(sigs, keys, ok)
  {
    if sigs == [] {
      assert Matching(sigs, keys, ok, []);
    } else if |sigs| > |keys| {
      if Matchable(sigs, keys, ok) {
        var f :| Matching(sigs, keys, ok, f);
        EnoughKeys(sigs, keys, ok, f, |sigs| - 1);
      }
    } else if ok(sigs[0], keys[0]) {
      TakeFirst(sigs, keys, ok);
      GreedyIsComplete(sigs[1..], keys[1..], ok);
    } else {
      SkipFirst(sigs, keys, ok);
      GreedyIsComplete(sigs, keys[1..], ok);
    }
  }

  /** The loop, with its early exit: it succeeds exactly when a matching exists. */
  method MatchSignatures<S, K>(sigs: seq<S>, keys: seq<K>, ok: (S, K) -> bool) returns (fSuccess: bool)
    requires |sigs| <= |keys|
    ensures fSuccess <==> Matchable(sigs, keys, ok)
  {
    GreedyIsComplete(sigs, keys, ok);
    var isig, ikey := 0, 0;
    var nSigsCount, nKeysCount := |sigs|, |keys|;
    fSuccess := true;
    while fSuccess && nSigsCount > 0
      invariant 0 <= isig && 0 <= ikey && 0 <= nSigsCount
      invariant isig + nSigsCount == |sigs| && ikey + nKeysCount == |keys|
      invariant fSuccess ==> nSigsCount <= nKeysCount
      invariant if fSuccess then Greedy(sigs[isig..], keys[ikey..], ok) == Greedy(sigs, keys, ok)
                else !Greedy(sigs, keys, ok)
      decreases fSuccess, nKeysCount
    {
      assert sigs[isig..][1..] == sigs[isig + 1..] && keys[ikey..][1..] == keys[ikey + 1..];
      var fOk := ok(sigs[isig], keys[ikey]);
      if fOk {
        isig := isig + 1;
        nSigsCount := nSigsCount - 1;
      }
      ikey := ikey + 1;
      nKeysCount := nKeysCount - 1;
      if nSigsCount > nKeysCount {
        fSuccess := false;
      }
    }
  }
}
