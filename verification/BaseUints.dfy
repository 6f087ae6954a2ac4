/** Unsigned integers of any number of 32-bit limbs (src/lib/core/uint256.h:22-303). */
module BaseUints {
  import opened Bits

  const BASE := 0x1_0000_0000
  type Limb = x: int | 0 <= x < 0x1_0000_0000
  type Limbs = seq<Limb>

  /** The number that the limbs stand for, least significant first. */
  function Value(s: Limbs): (r: nat) {
    if s == [] then 0 else s[0] + BASE * Value(s[1..])
  }

  /** 2^(32 * n). */
  function Power(n: nat): (r: nat)
    ensures r >= 1
  {
    if n == 0 then 1 else BASE * Power(n - 1)
  }

  lemma {:induction false} ValueBound(s: Limbs)
    ensures Value(s) < Power(|s|)
  {
    if s != [] {
      ValueBound(s[1..]);
    }
  }

  /** Arithmetic on BITS bits is arithmetic modulo 2^BITS. */
  function Mod(v: int, p: nat): (r: nat)
    requires p > 0
  {
    v % p
  }

  /** The remainder is known when it is off by at most one modulus. */
  lemma Reduced(v: int, p: nat, r: nat)
    requires p > 0 && r < p && (r == v || r + p == v || r == v + p)
    ensures r == Mod(v, p)
  {
    var q := if r == v then 0 else if r + p == v then 1 else -1;
    QuotientUnique(v, p, q, r);
  }

  // -------------------------------------------------------------------- addition

  function AddLimbs(a: Limbs, b: Limbs, carry: nat): (r: Limbs)
    requires |a| == |b| && carry <= 1
    ensures |r| == |a|
  {
    if a == [] then []
    else
      var n := carry + a[0] + b[0];
      [LowLimb(n)] + AddLimbs(a[1..], b[1..], n / BASE)
  }

  /** n & 0xffffffff. */
  function LowLimb(n: nat): (r: Limb) { n % BASE }

  lemma {:induction false} NothingAdded(x: Limbs, y: Limbs)
    requires |x| == |y|
    ensures AddLimbs(x, y, 0) == [] + AddLimbs(x[0..], y[0..], 0)
  {
    assert x[0..] == x && y[0..] == y;
  }

  lemma {:induction false} AddStep(x: Limbs, y: Limbs, i: nat, carry: nat, done: Limbs)
    requires |x| == |y| && i < |x| && carry <= 1
    ensures var n := carry + x[i] + y[i];
            n / BASE <= 1 && done + AddLimbs(x[i..], y[i..], carry) ==
              done + [LowLimb(n)] + AddLimbs(x[i + 1..], y[i + 1..], n / BASE)
  {
    hide LowLimb;
    assert x[i..][1..] == x[i + 1..] && y[i..][1..] == y[i + 1..];
  }

  /** The limbs written so far, and the next one. */
  ghost predicate Written(now: Limbs, before: Limbs, done: Limbs, i: nat) {
    i <= |now| == |before| && now[..i] == done && now[i..] == before[i..]
  }

  lemma WriteLimb(now: Limbs, before: Limbs, done: Limbs, i: nat, d: Limb)
    requires Written(now, before, done, i) && i < |now|
    ensures now[i] == before[i] && Written(now[i := d], before, done + [d], i + 1)
  {
    assert now[i] == now[i..][0] == before[i..][0];
    assert now[i..][1..] == now[i + 1..] && before[i..][1..] == before[i + 1..];
    assert now[i := d][..i + 1] == now[..i] + [d];
  }

  lemma {:induction false} AddedAll(x: Limbs, y: Limbs, carry: nat, done: Limbs)
    requires |x| == |y| && carry <= 1 && AddLimbs(x, y, 0) == done + AddLimbs(x[|x|..], y[|x|..], carry)
    ensures AddLimbs(x, y, 0) == done
  {
    assert done + [] == done;
  }

  lemma {:induction false} AddValue(a: Limbs, b: Limbs, carry: nat)
    requires |a| == |b| && carry <= 1
    ensures Value(AddLimbs(a, b, carry)) == Value(a) + Value(b) + carry ||
            Value(AddLimbs(a, b, carry)) + Power(|a|) == Value(a) + Value(b) + carry
  {
    if a != [] {
      var n := carry + a[0] + b[0];
      AddValue(a[1..], b[1..], n / BASE);
      assert AddLimbs(a, b, carry)[1..] == AddLimbs(a[1..], b[1..], n / BASE);
    }
  }

  /** Limb-wise addition with carries is addition modulo 2^BITS. */
  lemma {:induction false} AddIsSum(a: Limbs, b: Limbs)
    requires |a| == |b|
    ensures Value(AddLimbs(a, b, 0)) == Mod(Value(a) + Value(b), Power(|a|))
  {
    hide Value, Power, Mod, IncLimbs, DecLimbs, NotLimbs, AddLimbs;
    AddValue(a, b, 0);
    ValueBound(AddLimbs(a, b, 0));
    Reduced(Value(a) + Value(b), Power(|a|), Value(AddLimbs(a, b, 0)));
  }

  // -------------------------------------------------- increment, decrement, complement

  function IncLimbs(a: Limbs): (r: Limbs)
    ensures |r| == |a|
  {
    if a == [] then []
    else if a[0] == BASE - 1 then [0] + IncLimbs(a[1..])
    else [a[0] + 1] + a[1..]
  }

  function DecLimbs(a: Limbs): (r: Limbs)
    ensures |r| == |a|
  {
    if a == [] then []
    else if a[0] == 0 then [BASE - 1] + DecLimbs(a[1..])
    else [a[0] - 1] + a[1..]
  }

  function NotLimbs(a: Limbs): (r: Limbs)
    ensures |r| == |a| && forall i :: 0 <= i < |a| ==> r[i] == BASE - 1 - a[i]
  {
    seq(|a|, i requires 0 <= i < |a| => BASE - 1 - a[i])
  }

  lemma {:induction false} IncValue(a: Limbs)
    ensures Value(IncLimbs(a)) == Value(a) + 1 || Value(IncLimbs(a)) + Power(|a|) == Value(a) + 1
  {
    if a != [] {
      if a[0] == BASE - 1 {
        IncValue(a[1..]);
        assert IncLimbs(a)[1..] == IncLimbs(a[1..]);
      } else {
        assert IncLimbs(a)[1..] == a[1..];
      }
    }
  }

  lemma {:induction false} DecValue(a: Limbs)
    ensures Value(DecLimbs(a)) == Value(a) - 1 || Value(DecLimbs(a)) == Value(a) - 1 + Power(|a|)
  {
    if a != [] {
      if a[0] == 0 {
        DecValue(a[1..]);
        assert DecLimbs(a)[1..] == DecLimbs(a[1..]);
      } else {
        assert DecLimbs(a)[1..] == a[1..];
      }
    }
  }

  lemma {:induction false} IncIsPlusOne(a: Limbs)
    ensures Value(IncLimbs(a)) == Mod(Value(a) + 1, Power(|a|))
  {
    hide Value, Power, Mod, IncLimbs, DecLimbs, NotLimbs, AddLimbs;
    IncValue(a);
    ValueBound(IncLimbs(a));
    Reduced(Value(a) + 1, Power(|a|), Value(IncLimbs(a)));
  }

  lemma {:induction false} DecIsMinusOne(a: Limbs)
    ensures Value(DecLimbs(a)) == Mod(Value(a) - 1, Power(|a|))
  {
    hide Value, Power, Mod, IncLimbs, DecLimbs, NotLimbs, AddLimbs;
    DecValue(a);
    ValueBound(DecLimbs(a));
    Reduced(Value(a) - 1, Power(|a|), Value(DecLimbs(a)));
  }

  lemma {:induction false} NotValue(a: Limbs)
    ensures Value(NotLimbs(a)) == Power(|a|) - 1 - Value(a)
  {
    if a != [] {
      NotValue(a[1..]);
      assert NotLimbs(a)[1..] == NotLimbs(a[1..]);
    }
  }

  /** Complement and increment negate modulo 2^BITS. */
  lemma {:induction false} NegIsMinus(a: Limbs)
    ensures Value(IncLimbs(NotLimbs(a))) == Mod(-(Value(a) as int), Power(|a|))
  {
    hide Value, Power, Mod;
    var n := NotLimbs(a);
    NotValue(a);
    IncValue(n);
    ValueBound(IncLimbs(n));
    NegReduced(Value(a), Power(|a|), Value(n), Value(IncLimbs(n)));
  }

  lemma NegReduced(v: nat, p: nat, n: nat, r: nat)
    requires p > 0 && n == p - 1 - v && r < p && (r == n + 1 || r + p == n + 1)
    ensures r == Mod(-(v as int), p)
  {
    hide Mod;
    Reduced(-(v as int), p, r);
  }

  /** Adding the negative subtracts modulo 2^BITS. */
  lemma {:induction false} SubIsDifference(a: Limbs, b: Limbs)
    requires |a| == |b|
    ensures Value(AddLimbs(a, IncLimbs(NotLimbs(b)), 0)) == Mod(Value(a) - Value(b), Power(|a|))
  {
    hide Value, Power, Mod, IncLimbs, DecLimbs, NotLimbs, AddLimbs;
    var minus := IncLimbs(NotLimbs(b));
    NotValue(b);
    IncValue(NotLimbs(b));
    AddValue(a, minus, 0);
    ValueBound(AddLimbs(a, minus, 0));
    ValueBound(a);
    ValueBound(b);
    Reduced(Value(a) - Value(b), Power(|a|), Value(AddLimbs(a, minus, 0)));
  }

  // ------------------------------------------------------------------- comparison

  ghost predicate SameAbove(a: Limbs, b: Limbs, i: nat) {
    |a| == |b| && forall k :: i <= k < |a| ==> a[k] == b[k]
  }

  /** The highest limb that differs decides. */
  lemma {:induction false} LessAt(a: Limbs, b: Limbs, i: nat)
    requires |a| == |b| && i < |a| && a[i] < b[i] && SameAbove(a, b, i + 1)
    ensures Value(a) < Value(b)
  {
    if i == 0 {
      assert a[1..] == b[1..];
    } else {
      LessAt(a[1..], b[1..], i - 1);
    }
  }

  /** The limbs below `i` were `full` and are `empty` now, those above it are unchanged. */
  ghost predicate Carried(a: Limbs, r: Limbs, i: nat, full: Limb, empty: Limb) {
    |a| == |r| && i < |a| && (forall k :: 0 <= k < i ==> a[k] == full && r[k] == empty) &&
    forall k :: i < k < |a| ==> r[k] == a[k]
  }

  lemma {:induction false} IncAt(a: Limbs, r: Limbs, i: nat)
    requires Carried(a, r, i, BASE - 1, 0) && r[i] == if a[i] == BASE - 1 then 0 else a[i] + 1
    requires r[i] != 0 || i == |a| - 1
    ensures r == IncLimbs(a)
  {
    assert r == [r[0]] + r[1..];
    if i > 0 {
      IncAt(a[1..], r[1..], i - 1);
    } else if a[0] == BASE - 1 {
      assert a[1..] == [] && r[1..] == [];
    } else {
      assert r[1..] == a[1..];
    }
  }

  lemma {:induction false} DecAt(a: Limbs, r: Limbs, i: nat)
    requires Carried(a, r, i, 0, BASE - 1) && r[i] == if a[i] == 0 then BASE - 1 else a[i] - 1
    requires r[i] != BASE - 1 || i == |a| - 1
    ensures r == DecLimbs(a)
  {
    assert r == [r[0]] + r[1..];
    if i > 0 {
      DecAt(a[1..], r[1..], i - 1);
    } else if a[0] == 0 {
      assert a[1..] == [] && r[1..] == [];
    } else {
      assert r[1..] == a[1..];
    }
  }

  // ----------------------------------------------------------------------- shifts

  lemma {:induction false} ValueConcat(s: Limbs, t: Limbs)
    ensures Value(s + t) == Value(s) + Power(|s|) * Value(t)
  {
    if s == [] {
      assert [] + t == t;
    } else {
      ValueConcat(s[1..], t);
      assert (s + t)[1..] == s[1..] + t;
      TimesBase(Power(|s| - 1), Value(t));
    }
  }

  lemma TimesBase(p: nat, v: nat)
    ensures BASE * (p * v) == BASE * p * v
  {
  }

  /** The first n limbs are the remainder, the others the quotient. */
  lemma SplitValue(s: Limbs, n: nat)
    requires n <= |s|
    ensures Value(s[..n]) == Mod(Value(s), Power(n))
    ensures Value(s[n..]) == Value(s) / Power(n)
  {
    assert s == s[..n] + s[n..];
    ValueConcat(s[..n], s[n..]);
    ValueBound(s[..n]);
    QuotientUnique(Value(s), Power(n), Value(s[n..]), Value(s[..n]));
  }

  /** `n` zero limbs. */
  function NoLimbs(n: nat): (r: Limbs)
    ensures |r| == n && forall i :: 0 <= i < n ==> r[i] == 0
  {
    seq(n, i => 0)
  }

  lemma {:induction false} NoValue(n: nat)
    ensures Value(NoLimbs(n)) == 0
  {
    if n > 0 {
      NoValue(n - 1);
      assert NoLimbs(n)[1..] == NoLimbs(n - 1);
    }
  }

  lemma Pow2Of32()
    ensures Pow2(32) == BASE
  {
    assert Pow2(8) == 0x100 && Pow2(16) == 0x1_0000 && Pow2(24) == 0x100_0000;
  }

  lemma PowersOfBase(s: nat)
    requires s <= 32
    ensures Pow2(s) * Pow2(32 - s) == BASE
  {
    hide Pow2;
    Pow2Add(s, 32 - s);
    Pow2Of32();
  }

  /** x << s, cut to 32 bits, and the bits shifted out. */
  function ShiftedUp(x: Limb, s: nat): (r: Limb)
  {
    x * Pow2(s) % BASE
  }

  function ShiftedOut(x: Limb, s: nat): (r: Limb)
    requires s < 32
  {
    DivAtMost(x, Pow2(32 - s));
    x / Pow2(32 - s)
  }

  lemma DivAtMost(x: nat, d: nat)
    requires d >= 1
    ensures 0 <= x / d <= x
  {
    DivMod(x, d);
    if x / d > x {
      MulAtMost(d, x + 1, x / d);
      MulAtMost(x + 1, 1, d);
    } else if x / d < 0 {
      MulAtMost(d, x / d, -1);
    }
  }

  /** A multiple of 2^s below 2^32. */
  ghost predicate UpperBits(b: int, s: nat)
    requires s < 32
  {
    exists m: nat :: b == Pow2(s) * m && m < Pow2(32 - s)
  }

  /** The two parts of a shifted limb share no bit: the lower one is small, the upper one a multiple. */
  lemma ShiftParts(x: Limb, s: nat)
    requires s < 32
    ensures x * Pow2(s) == ShiftedUp(x, s) + BASE * ShiftedOut(x, s)
    ensures ShiftedOut(x, s) < Pow2(s)
    ensures UpperBits(ShiftedUp(x, s), s)
  {
    hide Pow2;
    var p, q := Pow2(s), Pow2(32 - s);
    PowersOfBase(s);
    DivMod(x, q);
    var hi, lo := x / q, x % q;
    ShiftedProduct(x, p, q, hi, lo);
    MulAtMost(p, lo + 1, q);
    QuotientUnique(x * p, BASE, hi, p * lo);
    assert ShiftedUp(x, s) == p * lo;
    if hi >= p {
      MulAtMost(q, p, hi);
    }
  }

  lemma ShiftedProduct(x: int, p: int, q: int, hi: int, lo: int)
    requires x == q * hi + lo
    ensures x * p == p * q * hi + p * lo
  {
    assert q * hi * p == p * q * hi;
  }

  /** a | b for operands without a common bit. */
  function Or(a: Limb, b: Limb, s: nat): (r: Limb)
    requires s < 32 && a < Pow2(s) && UpperBits(b, s)
    ensures r == a + b
  {
    OrFits(a, b, s);
    a + b
  }

  lemma OrFits(a: Limb, b: Limb, s: nat)
    requires s < 32 && a < Pow2(s) && UpperBits(b, s)
    ensures a + b < BASE
  {
    hide Pow2;
    var m: nat :| b == Pow2(s) * m && m < Pow2(32 - s);
    PowersOfBase(s);
    MulAtMost(Pow2(s), m + 1, Pow2(32 - s));
    assert Pow2(s) * (m + 1) == b + Pow2(s);
  }

  lemma NothingOr(s: nat)
    requires s < 32
    ensures 0 < Pow2(s) && UpperBits(0, s)
  {
    assert Pow2(s) * 0 == 0;
  }

  /** x << 0 and x >> 32. */
  lemma NoShift(x: Limb)
    ensures ShiftedUp(x, 0) == x && ShiftedOut(x, 0) == 0
  {
    PowersOfBase(0);
    QuotientUnique(x, BASE, 0, x);
  }

  // ---------------------------------------------------------------- the left shift

  /** All limbs of a << s with the carry coming in from below, one limb more than `a` has. */
  function UpLimbs(a: Limbs, s: nat, carry: Limb): (r: Limbs)
    requires s < 32 && carry < Pow2(s)
    ensures |r| == |a| + 1
  {
    if a == [] then [carry]
    else
      ShiftParts(a[0], s);
      [Or(carry, ShiftedUp(a[0], s), s)] + UpLimbs(a[1..], s, ShiftedOut(a[0], s))
  }

  lemma Distribute(x: int, v: int, p: int)
    ensures (x + BASE * v) * p == x * p + BASE * (v * p)
  {
  }

  lemma {:induction false} UpValue(a: Limbs, s: nat, carry: Limb)
    requires s < 32 && carry < Pow2(s)
    ensures Value(UpLimbs(a, s, carry)) == Value(a) * Pow2(s) + carry
  {
    hide Pow2, ShiftedUp, ShiftedOut, UpperBits;
    if a == [] {
      assert [carry][1..] == [];
    } else {
      ShiftParts(a[0], s);
      UpValue(a[1..], s, ShiftedOut(a[0], s));
      assert UpLimbs(a, s, carry)[1..] == UpLimbs(a[1..], s, ShiftedOut(a[0], s));
      Distribute(a[0], Value(a[1..]), Pow2(s));
    }
  }

  /** Limb `j` of a << s. */
  function UpAt(a: Limbs, s: nat, j: nat): (r: int)
    requires s < 32 && j < |a|
  {
    ShiftedUp(a[j], s) + if j > 0 then ShiftedOut(a[j - 1], s) else 0
  }

  lemma {:induction false} UpLimbAt(a: Limbs, s: nat, carry: Limb, j: nat)
    requires s < 32 && carry < Pow2(s) && j < |a|
    ensures UpLimbs(a, s, carry)[j] == ShiftedUp(a[j], s) + if j > 0 then ShiftedOut(a[j - 1], s) else carry
  {
    hide Pow2, ShiftedUp, ShiftedOut, UpperBits;
    ShiftParts(a[0], s);
    if j > 0 {
      UpLimbAt(a[1..], s, ShiftedOut(a[0], s), j - 1);
    }
  }

  lemma {:induction false} PowerIsPow2(k: nat)
    ensures Power(k) == Pow2(32 * k)
  {
    hide Pow2;
    if k > 0 {
      PowerIsPow2(k - 1);
      Pow2Add(32, 32 * (k - 1));
      Pow2Of32();
    } else {
      Pow2OfZero();
    }
  }

  lemma Pow2OfZero()
    ensures Pow2(0) == 1
  {
  }

  /** Shifting up by whole limbs and by `s` bits, cut to the width, multiplies modulo 2^BITS. */
  lemma ShiftUpIsProduct(a: Limbs, k: nat, s: nat, r: Limbs)
    requires s < 32 && |r| == |a| && k <= |a|
    requires forall j :: 0 <= j < |a| ==> r[j] == if j < k then 0 else UpAt(a, s, j - k)
    ensures Value(r) == Mod(Value(a) * Pow2(32 * k + s), Power(|a|))
  {
    hide Value, Pow2, Power, Mod, ShiftedUp, ShiftedOut, UpperBits;
    NothingOr(s);
    var full := NoLimbs(k) + UpLimbs(a, s, 0);
    forall j | 0 <= j < |a|
      ensures full[j] == r[j]
    {
      if j >= k { UpLimbAt(a, s, 0, j - k); }
    }
    assert full[..|a|] == r;
    SplitValue(full, |a|);
    ValueConcat(NoLimbs(k), UpLimbs(a, s, 0));
    NoValue(k);
    UpValue(a, s, 0);
    PowerIsPow2(k);
    Pow2Add(32 * k, s);
    Regroup(Pow2(32 * k), Value(a), Pow2(s));
  }

  lemma Regroup(p: int, v: int, q: int)
    ensures p * (v * q) == v * (p * q)
  {
    assert p * (v * q) == p * v * q;
  }

  lemma ShiftedAway(a: Limbs, k: nat, s: nat)
    requires k >= |a|
    ensures Mod(Value(a) * Pow2(32 * k + s), Power(|a|)) == 0
  {
    PowerIsPow2(|a|);
    Pow2Add(32 * |a|, 32 * (k - |a|) + s);
    hide Pow2, Power, Value;
    var p, q, v := Power(|a|), Pow2(32 * (k - |a|) + s), Value(a);
    assert v * (p * q) == p * (v * q) by { Regroup(p, v, q); }
    QuotientUnique(v * (p * q), p, v * q, 0);
    assert 32 * |a| + (32 * (k - |a|) + s) == 32 * k + s;
  }

  // --------------------------------------------------------------- the right shift

  /** Limb `j` of a >> s: what stays of it, and what comes down from the next one. */
  function DownAt(a: Limbs, s: nat, j: nat): (r: int)
    requires 0 < s < 32 && j < |a|
  {
    ShiftedOut(a[j], 32 - s) + if j + 1 < |a| then ShiftedUp(a[j + 1], 32 - s) else 0
  }

  function DownLimbs(a: Limbs, s: nat): (r: Limbs)
    requires 0 < s < 32
    ensures |r| == |a| && forall j :: 0 <= j < |a| ==> r[j] == DownAt(a, s, j)
  {
    if a == [] then []
    else
      ShiftParts(a[0], 32 - s);
      NothingOr(32 - s);
      if |a| > 1 then
        ShiftParts(a[1], 32 - s);
        [Or(ShiftedOut(a[0], 32 - s), ShiftedUp(a[1], 32 - s), 32 - s)] + DownLimbs(a[1..], s)
      else [ShiftedOut(a[0], 32 - s)]
  }

  /** The bits of a limb that leave it downwards. */
  function Leaving(x: Limb, s: nat): (r: nat) { x % Pow2(s) }

  lemma LeavingRest(x: Limb, s: nat)
    requires 0 < s < 32
    ensures x == Pow2(s) * ShiftedOut(x, 32 - s) + Leaving(x, s)
  {
    assert 32 - (32 - s) == s;
    hide Pow2;
    DivMod(x, Pow2(s));
  }

  /** They are what the limb below receives. */
  lemma LeavingBits(x: Limb, s: nat)
    requires 0 < s < 32
    ensures Pow2(s) * ShiftedUp(x, 32 - s) == BASE * Leaving(x, s)
  {
    hide Pow2, ShiftedUp, ShiftedOut, Leaving;
    var p, q := Pow2(s), Pow2(32 - s);
    LeavingRest(x, s);
    ShiftParts(x, 32 - s);
    PowersOfBase(s);
    ShiftedProduct(x, q, p, ShiftedOut(x, 32 - s), Leaving(x, s));
    assert q * p == p * q;
    assert p * (q * Leaving(x, s)) == p * q * Leaving(x, s);
  }

  lemma DownRest(a: Limbs, s: nat)
    requires 0 < s < 32 && a != []
    ensures DownLimbs(a, s)[1..] == DownLimbs(a[1..], s)
  {
    hide Pow2, ShiftedUp, ShiftedOut;
  }

  lemma {:induction false} DownValue(a: Limbs, s: nat)
    requires 0 < s < 32
    ensures Value(a) == Pow2(s) * Value(DownLimbs(a, s)) + if a == [] then 0 else Leaving(a[0], s)
  {
    hide Pow2, ShiftedUp, ShiftedOut, Leaving, DownLimbs;
    if a != [] {
      var r := DownLimbs(a, s);
      DownValue(a[1..], s);
      LeavingRest(a[0], s);
      DownRest(a, s);
      if |a| > 1 {
        LeavingBits(a[1], s);
        DownArithmetic(Pow2(s), ShiftedOut(a[0], 32 - s), ShiftedUp(a[1], 32 - s), Value(r[1..]), Leaving(a[1], s));
      } else {
        assert r[1..] == [] && a[1..] == [];
      }
    }
  }

  lemma DownArithmetic(p: int, stays: int, comes: int, v: int, leaving: int)
    requires p * comes == BASE * leaving
    ensures p * (stays + comes + BASE * v) == p * stays + BASE * (p * v + leaving)
  {
    DownSum(p, stays + comes, BASE * v);
    DownSum(p, stays, comes);
    assert p * (BASE * v) == BASE * (p * v);
  }

  lemma DownSum(p: int, x: int, y: int)
    ensures p * (x + y) == p * x + p * y
  {
  }

  lemma DivDiv(v: nat, p: nat, q: nat)
    requires p > 0 && q > 0
    ensures p * q > 0 && v / p / q == v / (p * q)
  {
    MulAtMost(p, 1, q);
    DivMod(v, p);
    var m := v / p;
    DivMod(m, q);
    var r := p * (m % q) + v % p;
    MulAtMost(p, m % q + 1, q);
    assert p * m == p * q * (m / q) + p * (m % q) by {
      assert p * (q * (m / q)) == p * q * (m / q);
    }
    QuotientUnique(v, p * q, m / q, r);
  }

  /** Shifting down by whole limbs and by `s` bits divides. */
  lemma ShiftDownIsQuotient(a: Limbs, k: nat, s: nat, r: Limbs)
    requires s < 32 && |r| == |a| && k <= |a|
    requires forall j :: 0 <= j < |a| ==> r[j] == if j + k >= |a| then 0 else if s == 0 then a[j + k] else DownAt(a, s, j + k)
    ensures Value(r) == Value(a) / Pow2(32 * k + s)
  {
    hide Value, Pow2, Power, Mod, ShiftedUp, ShiftedOut;
    SplitValue(a, k);
    PowerIsPow2(k);
    var top := a[k..];
    NoValue(k);
    if s == 0 {
      assert r == top + NoLimbs(k);
      ValueConcat(top, NoLimbs(k));
    } else {
      var d := DownLimbs(top, s);
      forall j | 0 <= j < |a|
        ensures r[j] == (d + NoLimbs(k))[j]
      {
        if j + k < |a| { assert DownAt(a, s, j + k) == DownAt(top, s, j); }
      }
      assert r == d + NoLimbs(k);
      ValueConcat(d, NoLimbs(k));
      DownValue(top, s);
      LeavingBound(top, s);
      QuotientUnique(Value(top), Pow2(s), Value(d), if top == [] then 0 else Leaving(top[0], s));
      DivDiv(Value(a), Power(k), Pow2(s));
      Pow2Add(32 * k, s);
    }
  }

  lemma LeavingBound(a: Limbs, s: nat)
    ensures a != [] ==> 0 <= Leaving(a[0], s) < Pow2(s)
  {
    if a != [] { DivMod(a[0], Pow2(s)); }
  }

  // --------------------------------------------------------------------- the class

  class BaseUint {
    /** WIDTH limbs, least significant first. */
    const pn: array<Limb>

    constructor (width: nat)
      requires width > 0
      ensures fresh(pn) && pn.Length == width && pn[..] == NoLimbs(width)
    {
      pn := new Limb[width](i => 0);
    }

    /** operator~, on a copy. */
    method Complement() returns (ret: BaseUint)
      requires pn.Length > 0
      ensures fresh(ret) && fresh(ret.pn) && ret.pn[..] == NotLimbs(pn[..])
    {
      ret := new BaseUint(pn.Length);
      for i := 0 to pn.Length
        invariant forall k :: 0 <= k < i ==> ret.pn[k] == BASE - 1 - pn[k]
        invariant fresh(ret) && fresh(ret.pn) && ret.pn.Length == pn.Length && pn[..] == old(pn[..])
      {
        ret.pn[i] := BASE - 1 - pn[i];
      }
    }

    /** operator++. */
    method Increment()
      requires pn.Length > 0
      modifies pn
      ensures pn[..] == IncLimbs(old(pn[..]))
      ensures Value(pn[..]) == Mod(Value(old(pn[..])) + 1, Power(pn.Length))
    {
      hide Value, Mod, Power, IncLimbs;
      ghost var a := pn[..];
      var i := 0;
      pn[0] := if pn[0] == BASE - 1 then 0 else pn[0] + 1;
      while pn[i] == 0 && i < pn.Length - 1
        invariant 0 <= i < pn.Length && Carried(a, pn[..], i, BASE - 1, 0)
        invariant pn[i] == if a[i] == BASE - 1 then 0 else a[i] + 1
      {
        i := i + 1;
        pn[i] := if pn[i] == BASE - 1 then 0 else pn[i] + 1;
      }
      IncAt(a, pn[..], i);
      IncIsPlusOne(a);
    }

    /** operator--. */
    method Decrement()
      requires pn.Length > 0
      modifies pn
      ensures pn[..] == DecLimbs(old(pn[..]))
      ensures Value(pn[..]) == Mod(Value(old(pn[..])) - 1, Power(pn.Length))
    {
      hide Value, Mod, Power, DecLimbs;
      ghost var a := pn[..];
      var i := 0;
      pn[0] := if pn[0] == 0 then BASE - 1 else pn[0] - 1;
      while pn[i] == BASE - 1 && i < pn.Length - 1
        invariant 0 <= i < pn.Length && Carried(a, pn[..], i, 0, BASE - 1)
        invariant pn[i] == if a[i] == 0 then BASE - 1 else a[i] - 1
      {
        i := i + 1;
        pn[i] := if pn[i] == 0 then BASE - 1 else pn[i] - 1;
      }
      DecAt(a, pn[..], i);
      DecIsMinusOne(a);
    }

    /** Unary operator-: the complement, incremented. */
    method Negated() returns (ret: BaseUint)
      requires pn.Length > 0
      ensures fresh(ret) && fresh(ret.pn) && ret.pn.Length == pn.Length
      ensures Value(ret.pn[..]) == Mod(-(Value(pn[..]) as int), Power(pn.Length))
    {
      ret := Complement();
      ret.Increment();
      NegIsMinus(pn[..]);
    }

    /** operator+=; the operand may be the same object. */
    method Add(b: BaseUint)
      requires b.pn.Length == pn.Length
      modifies pn
      ensures Value(pn[..]) == Mod(Value(old(pn[..])) + Value(old(b.pn[..])), Power(pn.Length))
    {
      hide Value, Mod, Power, AddLimbs, LowLimb;
      ghost var x, y := pn[..], b.pn[..];
      ghost var done: Limbs := [];
      var carry := 0;
      NothingAdded(x, y);
      ghost var size := pn.Length;
      for i := 0 to pn.Length
        invariant 0 <= carry <= 1 && size == pn.Length == |x| == |y|
        invariant Written(pn[..], x, done, i) && b.pn[i..] == y[i..]
        invariant AddLimbs(x, y, 0) == done + AddLimbs(x[i..], y[i..], carry)
      {
        ghost var now := pn[..];
        assert b.pn[i] == b.pn[i..][0] == y[i..][0] == y[i];
        var n := carry + pn[i] + b.pn[i];
        AddStep(x, y, i, carry, done);
        WriteLimb(now, x, done, i, LowLimb(n));
        assert b.pn[i + 1..] == b.pn[i..][1..] == y[i..][1..] == y[i + 1..];
        done := done + [LowLimb(n)];
        pn[i] := LowLimb(n);
        assert pn[..] == now[i := LowLimb(n)];
        carry := n / BASE;
      }
      AddedAll(x, y, carry, done);
      assert pn[..] == pn[..][..size];
      AddIsSum(x, y);
    }

    /** operator-=: the negative is added. */
    method Subtract(b: BaseUint)
      requires b.pn.Length == pn.Length > 0
      modifies pn
      ensures Value(pn[..]) == Mod(Value(old(pn[..])) - Value(old(b.pn[..])), Power(pn.Length))
    {
      hide Value, Mod, Power;
      ghost var x, y := pn[..], b.pn[..];
      var minus := b.Negated();
      Add(minus);
      DifferenceFromSum(x, y, minus.pn[..], Value(pn[..]));
    }

    /** operator<. */
    method Less(b: BaseUint) returns (less: bool)
      requires b.pn.Length == pn.Length
      ensures less == (Value(pn[..]) < Value(b.pn[..]))
    {
      hide Value;
      ghost var x, y := pn[..], b.pn[..];
      var i := pn.Length - 1;
      while i >= 0
        invariant -1 <= i < pn.Length && SameAbove(x, y, i + 1)
      {
        if pn[i] < b.pn[i] {
          LessAt(x, y, i);
          return true;
        } else if pn[i] > b.pn[i] {
          LessAt(y, x, i);
          return false;
        }
        i := i - 1;
      }
      assert x == y;
      return false;
    }

    /** operator<=. */
    method LessOrEqual(b: BaseUint) returns (atMost: bool)
      requires b.pn.Length == pn.Length
      ensures atMost == (Value(pn[..]) <= Value(b.pn[..]))
    {
      hide Value;
      ghost var x, y := pn[..], b.pn[..];
      var i := pn.Length - 1;
      while i >= 0
        invariant -1 <= i < pn.Length && SameAbove(x, y, i + 1)
      {
        if pn[i] < b.pn[i] {
          LessAt(x, y, i);
          return true;
        } else if pn[i] > b.pn[i] {
          LessAt(y, x, i);
          return false;
        }
        i := i - 1;
      }
      assert x == y;
      return true;
    }

    /** operator==. */
    method Equals(b: BaseUint) returns (same: bool)
      requires b.pn.Length == pn.Length
      ensures same == (Value(pn[..]) == Value(b.pn[..]))
    {
      hide Value;
      for i := 0 to pn.Length
        invariant forall k :: 0 <= k < i ==> pn[k] == b.pn[k]
      {
        if pn[i] != b.pn[i] {
          DifferentValues(pn[..], b.pn[..]);
          return false;
        }
      }
      assert pn[..] == b.pn[..];
      return true;
    }

    /** operator<<=: for shifts of any size. */
    method ShiftLeft(shift: nat)
      modifies pn
      ensures Value(pn[..]) == Mod(Value(old(pn[..])) * Pow2(shift), Power(pn.Length))
    {
      hide Value, Mod, Power, Pow2, ShiftedUp, ShiftedOut, UpperBits;
      var a := pn[..];
      Clear();
      var k, s := shift / 32, shift % 32;
      for i := 0 to pn.Length
        invariant forall j :: 0 <= j < pn.Length ==> pn[j] == UpPartial(a, k, s, i, j)
      {
        ShiftParts(a[i], s);
        if s == 0 { NoShift(a[i]); }
        NothingOr(s);
        if i + k + 1 < pn.Length && s != 0 {
          pn[i + k + 1] := ShiftedOut(a[i], s);
        }
        if i + k < pn.Length {
          if i > 0 { ShiftParts(a[i - 1], s); }
          pn[i + k] := Or(pn[i + k], ShiftedUp(a[i], s), s);
        }
      }
      assert 32 * k + s == shift;
      if k <= pn.Length {
        ShiftUpIsProduct(a, k, s, pn[..]);
      } else {
        ShiftedAway(a, k, s);
        assert pn[..] == NoLimbs(pn.Length);
        NoValue(pn.Length);
      }
    }

    /** operator>>=: for shifts of any size. */
    method ShiftRight(shift: nat)
      modifies pn
      ensures Value(pn[..]) == Value(old(pn[..])) / Pow2(shift)
    {
      hide Value, Mod, Power, Pow2, ShiftedUp, ShiftedOut, UpperBits;
      var a := pn[..];
      Clear();
      var k, s := shift / 32, shift % 32;
      for i := 0 to pn.Length
        invariant forall j :: 0 <= j < pn.Length ==> pn[j] == DownPartial(a, k, s, i, j)
      {
        if s != 0 {
          ShiftParts(a[i], 32 - s);
          if i > 0 { ShiftParts(a[i - 1], 32 - s); }
        }
        if i - k - 1 >= 0 && s != 0 {
          pn[i - k - 1] := Or(pn[i - k - 1], ShiftedUp(a[i], 32 - s), 32 - s);
        }
        if i - k >= 0 {
          pn[i - k] := if s == 0 then a[i] else ShiftedOut(a[i], 32 - s);
        }
      }
      assert 32 * k + s == shift;
      if k <= pn.Length {
        ShiftDownIsQuotient(a, k, s, pn[..]);
      } else {
        NothingLeft(a, k, s);
        assert pn[..] == NoLimbs(pn.Length);
        NoValue(pn.Length);
      }
    }

    method Clear()
      modifies pn
      ensures pn[..] == NoLimbs(pn.Length)
    {
      for i := 0 to pn.Length
        invariant forall k :: 0 <= k < i ==> pn[k] == 0
      {
        pn[i] := 0;
      }
    }
  }

  /** Limb `j` when the first `i` limbs have been shifted up. */
  function UpPartial(a: Limbs, k: nat, s: nat, i: nat, j: nat): (r: int)
    requires s < 32 && i <= |a| && j < |a|
  {
    if j < k || j - k > i then 0
    else if j - k < i then UpAt(a, s, j - k)
    else if i > 0 then ShiftedOut(a[i - 1], s)
    else 0
  }

  /** Limb `j` when the first `i` limbs have been shifted down. */
  function DownPartial(a: Limbs, k: nat, s: nat, i: nat, j: nat): (r: int)
    requires s < 32 && i <= |a| && j < |a|
  {
    if j + k >= i then 0
    else if s == 0 then a[j + k]
    else if j + k + 1 < i then DownAt(a, s, j + k)
    else ShiftedOut(a[j + k], 32 - s)
  }

  lemma NothingLeft(a: Limbs, k: nat, s: nat)
    requires k >= |a|
    ensures Value(a) / Pow2(32 * k + s) == 0
  {
    ValueBound(a);
    PowerIsPow2(|a|);
    Pow2Monotone(32 * |a|, 32 * k + s);
    QuotientUnique(Value(a), Pow2(32 * k + s), 0, Value(a));
  }

  lemma {:induction false} DifferentValues(a: Limbs, b: Limbs)
    requires |a| == |b| && a != b
    ensures Value(a) != Value(b)
  {
    if a[0] == b[0] {
      assert a == [a[0]] + a[1..] && b == [b[0]] + b[1..];
      DifferentValues(a[1..], b[1..]);
    }
  }

  lemma DifferenceFromSum(x: Limbs, y: Limbs, minus: Limbs, v: nat)
    requires |x| == |y| == |minus|
    requires Value(minus) == Mod(-(Value(y) as int), Power(|x|))
    requires v == Mod(Value(x) + Value(minus), Power(|x|))
    ensures v == Mod(Value(x) - Value(y), Power(|x|))
  {
    hide Value, Power, Mod;
    NegIsMinus(y);
    SubIsDifference(x, y);
    SameValueSame(minus, IncLimbs(NotLimbs(y)));
    AddIsSum(x, minus);
  }

  lemma SameValueSame(a: Limbs, b: Limbs)
    requires |a| == |b| && Value(a) == Value(b)
    ensures a == b
  {
    if a != b {
      DifferentValues(a, b);
    }
  }
}
