/** Variable-length integers and compressed amounts
    (src/lib/core/serialize.h:242-321, src/lib/core/core.cpp:160-213). */
module VarInts {
  import opened Bits
  import opened Binomials
  import opened Script
  import opened Transactions
  import Sequences

  // ---------------------------------------------------------------- the encoding

  /** A base-128 digit; all but the last byte of a number carry a mark. */
  function Digit(d: nat, more: bool): (r: Byte)
    requires d < 128
  {
    if more then d + 128 else d
  }

  /** Most significant digit first, one subtracted from all but the last. */
  function VarInt(n: nat, more: bool): (r: Bytes)
    ensures r != []
  {
    if n <= 0x7f then [Digit(n, more)] else VarInt(n / 128 - 1, true) + [Digit(n % 128, more)]
  }

  /** ReadVarInt on numbers of any size, `acc` being what has been read. */
  function ReadDigits(acc: nat, b: Bytes): (r: Parsed<nat>)
    decreases |b|
  {
    if b == [] then Failed
    else
      var v := acc * 128 + b[0] % 128;
      if b[0] >= 128 then ReadDigits(v + 1, b[1..]) else Read(v, b[1..])
  }

  lemma {:induction false} ReadMarked(n: nat, tail: Bytes)
    ensures ReadDigits(0, VarInt(n, true) + tail) == ReadDigits(n + 1, tail)
  {
    if n <= 0x7f {
      Sequences.ConsTail(Digit(n, true), tail);
    } else {
      var last := [Digit(n % 128, true)];
      Sequences.Assoc(VarInt(n / 128 - 1, true), last, tail);
      ReadMarked(n / 128 - 1, last + tail);
      Sequences.ConsTail(last[0], tail);
    }
  }

  /** Every number is read back, and reading stops right behind it. */
  lemma VarIntRoundTrip(n: nat, rest: Bytes)
    ensures ReadDigits(0, VarInt(n, false) + rest) == Read(n, rest)
  {
    hide VarInt;
    Digits(n, false);
    if n <= 0x7f {
      Sequences.ConsTail(Digit(n, false), rest);
    } else {
      var last := [Digit(n % 128, false)];
      Sequences.Assoc(VarInt(n / 128 - 1, true), last, rest);
      ReadMarked(n / 128 - 1, last + rest);
      Sequences.ConsTail(last[0], rest);
    }
  }

  /** The bytes that an accumulated value came from. */
  function BytesRead(acc: nat): (r: Bytes) {
    if acc == 0 then [] else VarInt(acc - 1, true)
  }

  lemma VarIntStep(acc: nat, d: nat, more: bool)
    requires acc >= 1 && d < 128
    ensures VarInt(acc * 128 + d, more) == VarInt(acc - 1, true) + [Digit(d, more)]
  {
    assert (acc * 128 + d) / 128 == acc && (acc * 128 + d) % 128 == d;
  }

  lemma OneMoreDigit(acc: nat, ch: Byte)
    ensures BytesRead(acc) + [ch] == VarInt(acc * 128 + ch % 128, ch >= 128)
  {
    hide VarInt;
    Digits(ch % 128, ch >= 128);
    if acc == 0 {
      Sequences.NothingAround([ch]);
    } else {
      VarIntStep(acc, ch % 128, ch >= 128);
    }
  }

  /** Every terminated byte string is the encoding of the number that it reads as. */
  lemma {:induction false} VarIntUnique(acc: nat, b: Bytes)
    ensures match ReadDigits(acc, b)
            case Failed => true
            case Read(n, rest) => BytesRead(acc) + b == VarInt(n, false) + rest
    decreases |b|
  {
    hide VarInt;
    if b != [] {
      var v := acc * 128 + b[0] % 128;
      OneMoreDigit(acc, b[0]);
      assert b == [b[0]] + b[1..];
      Sequences.Assoc(BytesRead(acc), [b[0]], b[1..]);
      if b[0] >= 128 {
        VarIntUnique(v + 1, b[1..]);
      }
    }
  }

  /** Numbers and terminated byte strings correspond one to one. */
  lemma VarIntBijection(b: Bytes, n: nat, rest: Bytes)
    ensures ReadDigits(0, b) == Read(n, rest) <==> b == VarInt(n, false) + rest
  {
    VarIntUnique(0, b);
    VarIntRoundTrip(n, rest);
    assert BytesRead(0) + b == b;
  }

  // ------------------------------------------------------------------- the methods

  method GetSizeOfVarInt(number: nat) returns (nRet: nat)
    ensures nRet == |VarInt(number, false)|
  {
    nRet := 0;
    var n := number;
    while true
      invariant 0 <= n && nRet + |VarInt(n, nRet > 0)| == |VarInt(number, false)|
      decreases n
    {
      nRet := nRet + 1;
      if n <= 0x7f {
        break;
      }
      n := n / 128 - 1;
    }
  }

  lemma Pow2Seven()
    ensures Pow2(7) == 128
  {
  }

  /** A number of `width` bits loses seven with each digit. */
  lemma NextDigitFits(n: nat, width: nat, len: nat)
    requires 7 * len <= width && n < Pow2(width - 7 * len) && n > 0x7f
    ensures 7 * (len + 1) < width && n / 128 - 1 < Pow2(width - 7 * (len + 1))
  {
    Pow2Seven();
    if width - 7 * len <= 7 {
      Pow2Monotone(width - 7 * len, 7);
    }
    Pow2Add(7, width - 7 * (len + 1));
  }

  /** WriteVarInt for a type of `width` bits: the buffer of (width + 6) / 7 bytes is never exceeded. */
  method WriteVarInt(number: nat, width: nat) returns (out: Bytes)
    requires 1 <= width && number < Pow2(width)
    ensures out == VarInt(number, false) && |out| <= (width + 6) / 7
  {
    hide VarInt, Pow2;
    var tmp := new Byte[(width + 6) / 7](i => 0);
    var len, n := 0, number;
    ghost var written: Bytes := [];
    Sequences.NothingAround(VarInt(number, false));
    while true
      invariant 0 <= len && 7 * len <= width && len < tmp.Length
      invariant 0 <= n < Pow2(width - 7 * len)
      invariant |written| == len && forall k :: 0 <= k < len ==> tmp[k] == written[len - 1 - k]
      invariant VarInt(n, len > 0) + written == VarInt(number, false)
      decreases n
    {
      Digits(n, len > 0);
      tmp[len] := Digit(n % 128, len > 0);
      if n <= 0x7f {
        break;
      }
      NextDigitFits(n, width, len);
      Sequences.Assoc(VarInt(n / 128 - 1, true), [Digit(n % 128, len > 0)], written);
      written := [tmp[len]] + written;
      n := n / 128 - 1;
      len := len + 1;
    }
    written := [tmp[len]] + written;
    out := Backwards(tmp, len, written);
  }

  /** The loop that writes the digits out, the last one found first. */
  method Backwards(tmp: array<Byte>, len: nat, ghost written: Bytes) returns (out: Bytes)
    requires len < tmp.Length && |written| == len + 1
    requires forall k :: 0 <= k <= len ==> tmp[k] == written[len - k]
    ensures out == written
  {
    out := [];
    var k := len;
    while k >= 0
      invariant -1 <= k <= len && out == written[..len - k]
      decreases k
    {
      out := out + [tmp[k]];
      k := k - 1;
    }
    assert written[..len + 1] == written;
  }

  lemma Digits(n: nat, more: bool)
    ensures n <= 0x7f ==> VarInt(n, more) == [Digit(n % 128, more)]
    ensures n > 0x7f ==> VarInt(n, more) == VarInt(n / 128 - 1, true) + [Digit(n % 128, more)]
  {
  }

  /** ReadVarInt into 64 bits: longer numbers are cut. */
  method ReadVarInt(stream: Bytes) returns (result: Parsed<nat>)
    ensures match ReadDigits(0, stream)
            case Failed => result == Failed
            case Read(n, rest) => result == Read(Wrap(n), rest)
  {
    var n: nat, rest := 0, stream;
    ghost var exact: nat := 0;
    while true
      invariant 0 <= exact && n == Wrap(exact) && ReadDigits(exact, rest) == ReadDigits(0, stream)
      decreases |rest|
    {
      if rest == [] {
        return Failed;
      }
      var chData := rest[0];
      rest := rest[1..];
      WrapTimesPlus(exact, 128, chData % 128);
      n := Wrap(n * 128 + chData % 128);
      exact := 128 * exact + (chData as int) % 128;
      if chData < 128 {
        return Read(n, rest);
      }
      WrapTimesPlus(exact, 1, 1);
      n := Wrap(n + 1);
      exact := exact + 1;
    }
  }

  /** Multiplying and adding on cut numbers gives the cut result. */
  lemma WrapTimesPlus(a: nat, b: nat, c: nat)
    ensures Wrap(Wrap(a) * b + c) == Wrap(a * b + c)
  {
    var q, r := a / WORD, Wrap(a);
    DivMod(a, WORD);
    DivMod(r * b + c, WORD);
    var q2, r2 := (r * b + c) / WORD, Wrap(r * b + c);
    assert a * b == WORD * (q * b) + r * b by {
      assert (WORD * q + r) * b == WORD * q * b + r * b;
      assert WORD * q * b == WORD * (q * b);
    }
    assert a * b + c == WORD * (q * b + q2) + r2;
    QuotientUnique(a * b + c, WORD, q * b + q2, r2);
  }

  // ----------------------------------------------------------------------- amounts

  const MAX_MONEY := 2_100_000_000_000_000

  /** An amount (10 * q + d) * 10^e whose last digit other than zero is d. */
  function Short(q: nat, d: nat, e: nat): (r: nat)
    requires 1 <= d <= 9 && e < 9
  {
    1 + (q * 9 + d - 1) * 10 + e
  }

  /** An amount m * 10^9. */
  function Long(m: nat): (r: nat)
    requires m > 0
  {
    1 + (m - 1) * 10 + 9
  }

  /** The compressed form of n * 10^e when e zeros have been split off. */
  function CompressedFrom(n: nat, e: nat): (r: nat)
    requires n > 0 && e <= 9
    decreases 9 - e
  {
    if n % 10 == 0 && e < 9 then CompressedFrom(n / 10, e + 1)
    else if e < 9 then Short(n / 10, n % 10, e)
    else Long(n)
  }

  function Compressed(n: nat): (r: nat) {
    if n == 0 then 0 else CompressedFrom(n, 0)
  }

  function Decompressed(x: nat): (r: nat) {
    if x == 0 then 0
    else
      var e, y := (x - 1) % 10, (x - 1) / 10;
      (if e < 9 then y / 9 * 10 + y % 9 + 1 else y + 1) * Pow10(e)
  }

  lemma DecompressShort(q: nat, d: nat, e: nat)
    requires 1 <= d <= 9 && e < 9
    ensures Decompressed(Short(q, d, e)) == (q * 10 + d) * Pow10(e)
  {
    hide Pow10, Short;
    SplitShort(q, d, e);
  }

  lemma SplitShort(q: nat, d: nat, e: nat)
    requires 1 <= d <= 9 && e < 9
    ensures var x := Short(q, d, e);
            x > 0 && (x - 1) % 10 == e && (x - 1) / 10 / 9 == q && (x - 1) / 10 % 9 == d - 1
  {
    var y := q * 9 + d - 1;
    QuotientUnique(y * 10 + e, 10, y, e);
    QuotientUnique(y, 9, q, d - 1);
  }

  lemma DecompressLong(m: nat)
    requires m > 0
    ensures Decompressed(Long(m)) == m * Pow10(9)
  {
    assert ((m - 1) * 10 + 9) % 10 == 9 && ((m - 1) * 10 + 9) / 10 == m - 1;
  }

  lemma TenTimes(n: nat, p: nat)
    requires n % 10 == 0
    ensures n / 10 * (10 * p) == n * p
  {
    assert n == 10 * (n / 10);
  }

  lemma {:induction false} DecompressFrom(n: nat, e: nat)
    requires n > 0 && e <= 9
    ensures Decompressed(CompressedFrom(n, e)) == n * Pow10(e)
    decreases 9 - e
  {
    hide Decompressed, Short, Long;
    if n % 10 == 0 && e < 9 {
      DecompressFrom(n / 10, e + 1);
      TenTimes(n, Pow10(e));
    } else if e < 9 {
      DecompressShort(n / 10, n % 10, e);
    } else {
      DecompressLong(n);
    }
  }

  lemma TimesTen(m: nat)
    ensures (10 * m) % 10 == 0 && (10 * m) / 10 == m
  {
  }

  lemma TimesPower(n: nat, p: nat)
    requires n > 0 && p > 0
    ensures n * (10 * p) == 10 * (n * p) && n * p > 0
  {
    MulAtMost(n, 1, p);
  }

  /** Zeros at the end of an amount are split off again. */
  lemma {:induction false} CompressPower(n: nat, k: nat, e: nat)
    requires n > 0 && k + e <= 9
    ensures n * Pow10(k) > 0 && CompressedFrom(n * Pow10(k), e) == CompressedFrom(n, e + k)
    decreases k
  {
    hide Short, Long;
    if k > 0 {
      CompressPower(n, k - 1, e + 1);
      TimesPower(n, Pow10(k - 1));
      TimesTen(n * Pow10(k - 1));
    }
  }

  lemma CompressShort(x: nat)
    requires x > 0 && (x - 1) % 10 < 9
    ensures Compressed(Decompressed(x)) == x
  {
    hide Pow10, CompressedFrom;
    var e, y := (x - 1) % 10, (x - 1) / 10;
    var q, d := y / 9, y % 9 + 1;
    var m := q * 10 + d;
    NoZeros(q, d, e);
    assert Decompressed(x) == m * Pow10(e);
    CompressPower(m, e, 0);
    assert x == Short(q, d, e);
  }

  lemma NoZeros(q: nat, d: nat, e: nat)
    requires 1 <= d <= 9 && e < 9
    ensures CompressedFrom(q * 10 + d, e) == Short(q, d, e)
  {
    assert (q * 10 + d) % 10 == d % 10 && d != 10;
  }

  lemma CompressLong(x: nat)
    requires x > 0 && (x - 1) % 10 == 9
    ensures Compressed(Decompressed(x)) == x
  {
    var m := (x - 1) / 10 + 1;
    assert Decompressed(x) == m * Pow10(9);
    CompressPower(m, 9, 0);
    assert x == Long(m);
  }

  /** Compressed amounts are read back, and every number is the compressed form of one amount. */
  lemma AmountBijection(n: nat, x: nat)
    ensures Decompressed(Compressed(n)) == n
    ensures Compressed(Decompressed(x)) == x
  {
    if n > 0 {
      DecompressFrom(n, 0);
      assert Pow10(0) == 1;
    }
    if x > 0 {
      if (x - 1) % 10 == 9 { CompressLong(x); } else { CompressShort(x); }
    }
  }

  lemma {:induction false} CompressedAtMost(n: nat, e: nat)
    requires n > 0 && e <= 9
    ensures CompressedFrom(n, e) <= 10 * n + 10
    decreases 9 - e
  {
    if n % 10 == 0 && e < 9 {
      CompressedAtMost(n / 10, e + 1);
    }
  }

  /** Valid amounts of money fit into 64 bits when compressed. */
  lemma MoneyFits(n: nat)
    requires n <= MAX_MONEY
    ensures Compressed(n) < WORD
  {
    if n > 0 {
      CompressedAtMost(n, 0);
    }
  }

  /** CompressAmount on uint64_t: exact on valid amounts, cut to 64 bits otherwise. */
  method CompressAmount(amount: nat) returns (x: nat)
    requires amount < WORD
    ensures x == Wrap(Compressed(amount))
    ensures amount <= MAX_MONEY ==> x == Compressed(amount)
  {
    hide Short, Long, Wrap;
    if amount <= MAX_MONEY {
      MoneyFits(amount);
      WrapSmall(Compressed(amount));
    }
    if amount == 0 {
      WrapSmall(0);
      return 0;
    }
    var n, e := amount, 0;
    while n % 10 == 0 && e < 9
      invariant n > 0 && 0 <= e <= 9 && CompressedFrom(n, e) == CompressedFrom(amount, 0)
      decreases 9 - e
    {
      n := n / 10;
      e := e + 1;
    }
    if e < 9 {
      var d := n % 10;
      n := n / 10;
      x := Wrap(1 + Wrap(Wrap(Wrap(n * 9 + d) - 1) * 10) + e);
      WrapShort(n, d, e);
    } else {
      x := Wrap(1 + Wrap((n - 1) * 10) + 9);
      WrapLong(n);
    }
  }

  lemma WrapSmall(n: nat)
    requires n < WORD
    ensures Wrap(n) == n
  {
  }

  lemma WrapShort(q: nat, d: nat, e: nat)
    requires 1 <= d <= 9 && e < 9
    ensures Wrap(1 + Wrap(Wrap(Wrap(q * 9 + d) - 1) * 10) + e) == Wrap(Short(q, d, e))
  {
    hide Wrap;
    var y := q * 9 + d - 1;
    WrapMinusOne(y + 1);
    WrapTimesPlus(y, 10, 0);
    WrapTimesPlus(y * 10, 1, 1 + e);
  }

  lemma WrapLong(m: nat)
    requires m > 0
    ensures Wrap(1 + Wrap((m - 1) * 10) + 9) == Wrap(Long(m))
  {
    hide Wrap;
    WrapTimesPlus((m - 1) * 10, 1, 10);
  }

  lemma WrapMinusOne(a: nat)
    requires a > 0
    ensures Wrap(Wrap(a) - 1) == Wrap(a - 1)
  {
    DivMod(a, WORD);
    DivMod(a - 1, WORD);
    if Wrap(a) > 0 {
      QuotientUnique(a - 1, WORD, a / WORD, Wrap(a) - 1);
    } else {
      assert WORD * (a / WORD - 1) == WORD * (a / WORD) - WORD;
      QuotientUnique(a - 1, WORD, a / WORD - 1, WORD - 1);
    }
  }

  method DecompressAmount(compressed: nat) returns (n: nat)
    requires compressed < WORD
    ensures n == Wrap(Decompressed(compressed))
    ensures Decompressed(compressed) < WORD ==> n == Decompressed(compressed)
  {
    hide Wrap;
    if Decompressed(compressed) < WORD { WrapSmall(Decompressed(compressed)); }
    if compressed == 0 {
      return 0;
    }
    var x := compressed - 1;
    var e := x % 10;
    x := x / 10;
    n := 0;
    if e < 9 {
      var d := x % 9 + 1;
      x := x / 9;
      n := x * 10 + d;
    } else {
      n := x + 1;
    }
    WrapSmall(n);
    ghost var exact: nat := n;
    while e != 0
      invariant 0 <= e && n == Wrap(exact) && exact * Pow10(e) == Decompressed(compressed)
      decreases e
    {
      WrapTimesPlus(exact, 10, 0);
      TimesPower2(exact, Pow10(e - 1));
      n := Wrap(n * 10);
      exact := exact * 10;
      e := e - 1;
    }
    assert Pow10(0) == 1;
  }

  lemma TimesPower2(n: nat, p: nat)
    ensures n * (10 * p) == n * 10 * p
  {
  }
}
