/** Factorials, binomial coefficients and composition counts (src/lib/bms/Maths.cpp). */
module Binomials {
  import Bits
  import opened Options

  /** uint64_t arithmetic wraps at this modulus. */
  const WORD := 0x1_0000_0000_0000_0000

  function Wrap(x: int): (r: nat)
    ensures r < WORD
    ensures 0 <= x < WORD ==> r == x
    ensures -WORD <= x < 0 ==> r == x + WORD
    ensures WORD <= x < 2 * WORD ==> r == x - WORD
  {
    x % WORD
  }

  function Fact(n: nat): (r: nat)
    ensures r >= 1
  {
    if n == 0 then 1 else n * Fact(n - 1)
  }

  method Factorial(n: nat) returns (fac: nat)
    ensures fac == Fact(n)
  {
    fac := 1;
    var i := 2;
    while i <= n
      invariant 2 <= i && (i <= n + 1 || n < 2)
      invariant n < 2 ==> i == 2
      invariant fac == Fact(i - 1)
    {
      fac := fac * i;
      i := i + 1;
    }
    if n == 1 { assert Fact(1) == 1; }
  }

  /** Pascal's triangle. */
  function Choose(n: nat, k: nat): (r: nat)
  {
    if k == 0 then 1 else if n == 0 then 0 else Choose(n - 1, k - 1) + Choose(n - 1, k)
  }

  lemma {:induction false} ChooseTooMany(n: nat, k: nat)
    requires k > n
    ensures Choose(n, k) == 0
  {
    if n > 0 {
      ChooseTooMany(n - 1, k - 1);
      ChooseTooMany(n - 1, k);
    }
  }

  lemma {:induction false} ChooseAll(n: nat)
    ensures Choose(n, n) == 1
  {
    if n > 0 {
      ChooseAll(n - 1);
      ChooseTooMany(n - 1, n);
    }
  }

  lemma {:induction false} ChooseSymmetric(n: nat, k: nat)
    requires k <= n
    ensures Choose(n, k) == Choose(n, n - k)
  {
    if k == 0 || k == n {
      ChooseAll(n);
    } else {
      ChooseSymmetric(n - 1, k - 1);
      ChooseSymmetric(n - 1, k);
    }
  }

  /** The step of the multiplicative formula: k * C(n, k) = n * C(n - 1, k - 1). */
  lemma {:induction false} ChooseAbsorb(n: nat, k: nat)
    requires n >= 1 && k >= 1
    ensures k * Choose(n, k) == n * Choose(n - 1, k - 1)
  {
    var a, b := Choose(n - 1, k - 1), Choose(n - 1, k);
    if n == 1 {
      if k > 1 { ChooseTooMany(0, k - 1); }
    } else {
      ChooseAbsorb(n - 1, k);
      if k >= 2 {
        ChooseAbsorb(n - 1, k - 1);
        var c, d := Choose(n - 2, k - 2), Choose(n - 2, k - 1);
        assert a == c + d;
        AbsorbArithmetic(n, k, a, b, c, d);
      } else {
        assert a == 1;
      }
    }
  }

  lemma AbsorbArithmetic(n: int, k: int, a: int, b: int, c: int, d: int)
    requires a == c + d && k * b == (n - 1) * d && (k - 1) * a == (n - 1) * c
    ensures k * (a + b) == n * a
  {
    assert k * (a + b) == a + (k - 1) * a + k * b;
    assert (n - 1) * c + (n - 1) * d == (n - 1) * a;
  }

  /** The closed form that the product in BinomialCoefficient comes from. */
  lemma {:induction false} ChooseClosedForm(n: nat, k: nat)
    requires k <= n
    ensures Choose(n, k) * Fact(k) * Fact(n - k) == Fact(n)
  {
    if k == 0 {
      assert Choose(n, 0) * Fact(0) * Fact(n) == Fact(n);
    } else {
      ChooseClosedForm(n - 1, k - 1);
      ChooseAbsorb(n, k);
      var c, d, e, f := Choose(n, k), Choose(n - 1, k - 1), Fact(k - 1), Fact(n - k);
      assert Fact(n - 1 - (k - 1)) == f;
      calc {
        c * Fact(k) * f;
        c * (k * e) * f;
        { MulRearrange(c, k, e, f); }
        (k * c) * (e * f);
        (n * d) * (e * f);
        { MulRearrange2(n, d, e, f); }
        n * (d * e * f);
        n * Fact(n - 1);
      }
    }
  }

  lemma MulRearrange(c: int, k: int, e: int, f: int)
    ensures c * (k * e) * f == (k * c) * (e * f)
  {
    assert c * (k * e) == (k * c) * e;
  }

  lemma MulRearrange2(n: int, d: int, e: int, f: int)
    ensures (n * d) * (e * f) == n * (d * e * f)
  {
    assert (n * d) * (e * f) == n * (d * (e * f));
  }

  lemma {:induction false} ChoosePositive(n: nat, k: nat)
    requires k <= n
    ensures Choose(n, k) >= 1
  {
    if k > 0 {
      ChoosePositive(n - 1, k - 1);
    }
  }

  /** The loop index of BinomialCoefficient has 32 bits. */
  const INDICES := 0x1_0000_0000

  /** The loop runs to its end: the index does not wrap before. */
  predicate Countable(n: nat, k: nat) {
    k > n || k + 1 < INDICES || n - k + 1 < INDICES
  }

  /** The division of one step is exact. */
  lemma {:induction false} NextFactor(n: nat, i: nat)
    requires n >= 1 && i >= 1
    ensures Choose(n - 1, i - 1) * n / i == Choose(n, i)
  {
    hide Choose;
    ChooseAbsorb(n, i);
    Bits.QuotientUnique(Choose(n - 1, i - 1) * n, i, Choose(n, i), 0);
  }

  lemma ChooseNone(n: nat)
    ensures Choose(n, 0) == 1
  {
  }

  lemma IndexWraps()
    ensures !Countable(2 * INDICES, INDICES)
  {
  }

  /** BinomialCoefficient: every division in the loop is exact. None where the index wraps to zero and the
      division by it throws. */
  method BinomialCoefficient(n: nat, k: nat) returns (r: Option<nat>)
    ensures r == if Countable(n, k) then Some(Choose(n, k)) else None
  {
    hide Choose;
    if k > n {
      ChooseTooMany(n, k);
      return Some(0);
    }
    var result := 1;
    ChooseNone(if k <= n - k then n - k else k);
    var j := if k <= n - k then k else n - k;
    ChooseSymmetric(n, k);
    var i := 1;
    while i < j + 1
      invariant i < INDICES && (i > 0 ==> i <= j + 1 && result == Choose(n - j + i - 1, i - 1))
      invariant i == 0 ==> j + 1 >= INDICES
      decreases if i == 0 then 0 else INDICES - i
    {
      if i == 0 {
        return None;
      }
      NextFactor(n - j + i, i);
      result := result * (n - j + i);
      result := result / i;
      i := (i + 1) % INDICES;
    }
    r := Some(result);
  }

  /** The number of weak compositions of `n` into `k` parts. */
  function NumComps(n: nat, k: nat): (r: nat)
    requires k >= 1
  {
    Choose(n + k - 1, k - 1)
  }

  /** NumberCompositions on uint64_t arguments: the sum n + k - 1 wraps. */
  method NumberCompositions(n: nat, k: nat) returns (r: nat)
    requires n < WORD && 1 <= k < 0x10000
    ensures r == NumComps64(n, k)
  {
    var coefficient := BinomialCoefficient(Wrap(n + k - 1), k - 1);
    r := coefficient.value;
  }

  function NumComps64(n: nat, k: nat): (r: nat)
    requires n < WORD && 1 <= k < 0x10000
    ensures n + k - 1 < WORD ==> r == NumComps(n, k)
    ensures n + k - 1 >= WORD ==> r == 0
  {
    assert n + k - 1 >= WORD ==> Choose(Wrap(n + k - 1), k - 1) == 0 by {
      if n + k - 1 >= WORD { ChooseTooMany(Wrap(n + k - 1), k - 1); }
    }
    Choose(Wrap(n + k - 1), k - 1)
  }

  /** Splitting off the first part: it is zero, or it can be lowered by one. */
  lemma NumCompsStep(n: nat, k: nat)
    requires n >= 1 && k >= 2
    ensures NumComps(n, k) == NumComps(n, k - 1) + NumComps(n - 1, k)
  {
  }

  lemma NumCompsNothing(k: nat)
    requires k >= 1
    ensures NumComps(0, k) == 1
  {
    ChooseAll(k - 1);
  }

  lemma NumCompsPositive(n: nat, k: nat)
    requires k >= 1
    ensures NumComps(n, k) >= 1
  {
    ChoosePositive(n + k - 1, k - 1);
  }

  lemma {:induction false} NumCompsMonotone(a: nat, b: nat, k: nat)
    requires a <= b && k >= 1
    ensures NumComps(a, k) <= NumComps(b, k)
    ensures a < b && k >= 2 ==> NumComps(a, k) < NumComps(b, k)
    decreases b
  {
    if k == 1 {
    } else if a < b {
      NumCompsMonotone(a, b - 1, k);
      NumCompsStep(b, k);
      NumCompsPositive(b, k - 1);
    }
  }

  lemma NumCompsFewerParts(n: nat, k: nat)
    requires k >= 2
    ensures NumComps(n, k - 1) <= NumComps(n, k)
  {
    if n == 0 {
      NumCompsNothing(k);
      NumCompsNothing(k - 1);
    } else {
      NumCompsStep(n, k);
    }
  }
}
