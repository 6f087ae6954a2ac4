/** Binary vectors and their numeric readings (src/lib/bms/Types.cpp). */
module Bits {

  type DataBits = seq<bool>
  type Byte = x: int | 0 <= x < 256

  function Pow2(n: nat): (r: nat)
    ensures r >= 1
  {
    if n == 0 then 1 else 2 * Pow2(n - 1)
  }

  lemma {:induction false} Pow2Add(a: nat, b: nat)
    ensures Pow2(a + b) == Pow2(a) * Pow2(b)
  {
    if a == 0 {
    } else {
      Pow2Add(a - 1, b);
      assert a + b - 1 == (a - 1) + b;
    }
  }

  lemma {:induction false} Pow2Monotone(a: nat, b: nat)
    requires a <= b
    ensures Pow2(a) <= Pow2(b)
  {
    if a < b {
      Pow2Monotone(a, b - 1);
    }
  }

  function Pow10(e: nat): (r: nat)
    ensures r >= 1
  {
    if e == 0 then 1 else 10 * Pow10(e - 1)
  }

  function Bit(b: bool): (r: nat) { if b then 1 else 0 }

  /** `n` zero bits. */
  function Zeros(n: nat): (r: DataBits)
    ensures |r| == n && forall i :: 0 <= i < n ==> !r[i]
  {
    seq(n, i => false)
  }

  /** The number a binary vector stands for, most significant bit first. */
  function FromBits(bits: DataBits): (r: nat) {
    if bits == [] then 0 else 2 * FromBits(bits[..|bits| - 1]) + Bit(bits[|bits| - 1])
  }

  /** The `n` low bits of `v`, most significant bit first. */
  function ToBits(v: nat, n: nat): (r: DataBits)
    ensures |r| == n
  {
    if n == 0 then [] else ToBits(v / 2, n - 1) + [v % 2 == 1]
  }

  lemma {:induction false} FromBitsBound(bits: DataBits)
    ensures FromBits(bits) < Pow2(|bits|)
  {
    if bits != [] {
      FromBitsBound(bits[..|bits| - 1]);
    }
  }

  lemma {:induction false} ToFromBits(bits: DataBits)
    ensures ToBits(FromBits(bits), |bits|) == bits
  {
    if bits != [] {
      var init := bits[..|bits| - 1];
      ToFromBits(init);
      assert FromBits(bits) / 2 == FromBits(init);
      assert bits == init + [bits[|bits| - 1]];
    }
  }

  lemma {:induction false} FromToBits(v: nat, n: nat)
    requires v < Pow2(n)
    ensures FromBits(ToBits(v, n)) == v
  {
    if n > 0 {
      FromToBits(v / 2, n - 1);
      assert ToBits(v, n)[..n - 1] == ToBits(v / 2, n - 1);
    }
  }

  lemma {:induction false} FromBitsConcat(a: DataBits, b: DataBits)
    ensures FromBits(a + b) == FromBits(a) * Pow2(|b|) + FromBits(b)
  {
    if b == [] {
      assert a + b == a;
    } else {
      var c := b[..|b| - 1];
      FromBitsConcat(a, c);
      assert (a + b)[..|a + b| - 1] == a + c;
      assert Pow2(|b|) == 2 * Pow2(|c|);
      assert FromBits(a) * Pow2(|b|) == 2 * (FromBits(a) * Pow2(|c|));
    }
  }

  /** Leading zeros do not change the number. */
  lemma {:induction false} LeadingZeros(n: nat, bits: DataBits)
    ensures FromBits(Zeros(n) + bits) == FromBits(bits)
  {
    FromBitsConcat(Zeros(n), bits);
    ZerosAreZero(n);
  }

  lemma {:induction false} ZerosAreZero(n: nat)
    ensures FromBits(Zeros(n)) == 0
  {
    if n > 0 {
      ZerosAreZero(n - 1);
      assert Zeros(n)[..n - 1] == Zeros(n - 1);
    }
  }

  lemma DivMod(v: int, d: int)
    requires d > 0
    ensures v == d * (v / d) + v % d && 0 <= v % d < d
  {
  }

  lemma MulAtMost(a: int, x: int, y: int)
    requires a >= 0 && x <= y
    ensures a * x <= a * y
  {
  }

  lemma QuotientUnique(v: int, d: int, q: int, r: int)
    requires d > 0 && v == d * q + r && 0 <= r < d
    ensures v / d == q && v % d == r
  {
    DivMod(v, d);
    SmallMultiple(d, q - v / d, v % d - r);
  }

  lemma SmallMultiple(d: int, k: int, x: int)
    requires d > 0 && d * k == x && -d < x < d
    ensures k == 0
  {
    if k >= 1 {
      MulAtMost(d, 1, k);
    } else if k <= -1 {
      MulAtMost(d, k, -1);
    }
  }

  // ---------------------------------------------------------------- operations

  /** PadBits/SliceBits on a vector passed by reference: the queue is that vector. */
  class BitQueue {
    var bits: DataBits

    constructor (data: DataBits)
      ensures bits == data
    {
      bits := data;
    }

    method Pad(n: nat)
      modifies this
      ensures bits == old(bits) + Zeros(n)
    {
      bits := bits + Zeros(n);
    }

    method Slice(n: nat) returns (slice: DataBits)
      requires n <= |bits|
      modifies this
      ensures slice + bits == old(bits) && |slice| == n
    {
      slice := bits[..n];
      bits := bits[n..];
    }
  }

  /** v << n. */
  function Shl(v: nat, n: nat): (r: nat) {
    if n == 0 then v else 2 * Shl(v, n - 1)
  }

  /** v >> n. */
  function Shr(v: nat, n: nat): (r: nat) {
    if n == 0 then v else Shr(v, n - 1) / 2
  }

  lemma {:induction false} ShlSum(a: nat, b: nat, n: nat)
    ensures Shl(a + b, n) == Shl(a, n) + Shl(b, n)
  {
    if n > 0 {
      ShlSum(a, b, n - 1);
    }
  }

  lemma {:induction false} ShlDouble(a: nat, n: nat)
    ensures Shl(2 * a, n) == Shl(a, n + 1)
  {
    if n > 0 {
      ShlDouble(a, n - 1);
    }
  }

  /** BoolVecToChar: eight bits become a character. */
  method BoolVecToChar(vec: DataBits) returns (c: Byte)
    requires |vec| == 8
    ensures c == FromBits(vec)
  {
    hide Pow2;
    var acc := 0;
    for i := 0 to 8
      invariant acc == Shl(FromBits(vec[..i]), 8 - i)
    {
      FromBitsSnoc(vec, i);
      ShlSum(2 * FromBits(vec[..i]), Bit(vec[i]), 7 - i);
      ShlDouble(FromBits(vec[..i]), 7 - i);
      acc := acc + Shl(Bit(vec[i]), 7 - i);
    }
    assert vec[..8] == vec;
    FromBitsBound(vec);
    Pow2OfEight();
    c := acc;
  }

  lemma Pow2OfEight()
    ensures Pow2(8) == 256
  {
  }

  lemma FromBitsSnoc(vec: DataBits, i: nat)
    requires i < |vec|
    ensures FromBits(vec[..i + 1]) == 2 * FromBits(vec[..i]) + Bit(vec[i])
  {
    assert vec[..i + 1][..i] == vec[..i];
  }

  /** CharToBoolVec: the eight bits of a character. */
  method CharToBoolVec(ch: Byte) returns (vec: DataBits)
    ensures vec == ToBits(ch, 8)
  {
    vec := [];
    for i := 0 to 8
      invariant |vec| == i && vec == ToBits(Shr(ch, 8 - i), i)
    {
      vec := vec + [Shr(ch, 7 - i) % 2 == 1];
    }
  }

  /** The bit string of a byte string. */
  function BytesToBits(data: seq<Byte>): (r: DataBits)
    ensures |r| == 8 * |data|
  {
    if data == [] then [] else BytesToBits(data[..|data| - 1]) + ToBits(data[|data| - 1], 8)
  }

  /** DataToBits. */
  method DataToBits(data: seq<Byte>) returns (vec: DataBits)
    ensures vec == BytesToBits(data)
  {
    vec := [];
    for i := 0 to |data|
      invariant vec == BytesToBits(data[..i])
    {
      var tmp := CharToBoolVec(data[i]);
      assert data[..i + 1][..i] == data[..i];
      vec := vec + tmp;
    }
    assert data[..|data|] == data;
  }

  /** BitsToData: the unique byte string with the given bits. */
  method BitsToData(data: DataBits) returns (buf: seq<Byte>)
    requires |data| % 8 == 0
    ensures BytesToBits(buf) == data && |buf| == |data| / 8
  {
    hide BytesToBits, ToBits, FromBits;
    buf := [];
    NoBytes();
    var i := 0;
    while i < |data|
      invariant 0 <= i <= |data| && i % 8 == 0 && |buf| == i / 8
      invariant BytesToBits(buf) == data[..i]
    {
      var slice := data[i..i + 8];
      var tmp := BoolVecToChar(slice);
      ToFromBits(slice);
      BytesToBitsSnoc(buf, tmp);
      assert data[..i + 8] == data[..i] + slice;
      buf := buf + [tmp];
      i := i + 8;
    }
    assert data[..|data|] == data;
  }

  lemma NoBytes()
    ensures BytesToBits([]) == []
  {
  }

  lemma BytesToBitsSnoc(buf: seq<Byte>, b: Byte)
    ensures BytesToBits(buf + [b]) == BytesToBits(buf) + ToBits(b, 8)
  {
    assert (buf + [b])[..|buf|] == buf;
  }

  lemma AppendedAlike(u: DataBits, x: DataBits, v: DataBits, y: DataBits)
    requires |x| == |y| && u + x == v + y
    ensures u == v && x == y
  {
    assert u == (u + x)[..|u|] && v == (v + y)[..|v|];
    assert x == (u + x)[|u|..] && y == (v + y)[|v|..];
  }

  /** Two byte strings with the same bits are the same. */
  lemma {:induction false} BytesToBitsInjective(a: seq<Byte>, b: seq<Byte>)
    requires BytesToBits(a) == BytesToBits(b)
    ensures a == b
  {
    if a != [] {
      var n := |a| - 1;
      AppendedAlike(BytesToBits(a[..n]), ToBits(a[n], 8), BytesToBits(b[..n]), ToBits(b[n], 8));
      BytesToBitsInjective(a[..n], b[..n]);
      ByteFromBits(a[n]);
      ByteFromBits(b[n]);
      assert a == a[..n] + [a[n]] && b == b[..n] + [b[n]];
    }
  }

  function ToByte(bits: DataBits): (r: Byte)
    requires |bits| == 8
    ensures ToBits(r, 8) == bits
  {
    FromBitsBound(bits);
    assert Pow2(8) == 256;
    ToFromBits(bits);
    FromBits(bits)
  }

  lemma AppendByte(init: seq<Byte>, front: DataBits, back: DataBits)
    requires |back| == 8 && BytesToBits(init) == front
    ensures BytesToBits(init + [ToByte(back)]) == front + back
  {
    BytesToBitsSnoc(init, ToByte(back));
  }

  /** The byte string with the given bits. */
  function ToBytes(bits: DataBits): (r: seq<Byte>)
    requires |bits| % 8 == 0
    ensures BytesToBits(r) == bits
  {
    if bits == [] then []
    else
      var n := |bits| - 8;
      var init := ToBytes(bits[..n]);
      AppendByte(init, bits[..n], bits[n..]);
      assert bits == bits[..n] + bits[n..];
      init + [ToByte(bits[n..])]
  }

  lemma ByteFromBits(x: Byte)
    ensures FromBits(ToBits(x, 8)) == x
  {
    assert Pow2(8) == 256;
    FromToBits(x, 8);
  }

  lemma {:induction false} BytesToBitsConcat(a: seq<Byte>, b: seq<Byte>)
    ensures BytesToBits(a + b) == BytesToBits(a) + BytesToBits(b)
  {
    if b == [] {
      assert a + b == a;
    } else {
      var n := |b| - 1;
      BytesToBitsConcat(a, b[..n]);
      assert (a + b)[..|a + b| - 1] == a + b[..n];
    }
  }

  /** DataBitsToInt; the source reads data[size() - 1], so the vector must not be empty. */
  method DataBitsToInt(data: DataBits) returns (num: nat)
    requires data != []
    ensures num == FromBits(data)
  {
    num := 0;
    for i := 0 to |data| - 1
      invariant num == 2 * FromBits(data[..i])
    {
      assert data[..i + 1][..i] == data[..i];
      num := num + Bit(data[i]);
      num := num * 2;
    }
    num := num + Bit(data[|data| - 1]);
  }

  /** IntToDataBits: the shortest vector that reads as `num`. */
  method IntToDataBits(num: nat) returns (dataBits: DataBits)
    ensures FromBits(dataBits) == num
    ensures dataBits == [] || dataBits[0]
    ensures forall m: nat :: num < Pow2(m) ==> |dataBits| <= m
  {
    dataBits := [];
    var rest: nat := num;
    while rest != 0
      invariant num == rest * Pow2(|dataBits|) + FromBits(dataBits)
      invariant rest == 0 ==> dataBits == [] || dataBits[0]
      decreases rest
    {
      var b := rest % 2 == 1;
      FromBitsConcat([b], dataBits);
      assert FromBits([b]) == Bit(b) by { assert [b][..0] == []; }
      ShiftOut(rest, Pow2(|dataBits|));
      dataBits := [b] + dataBits;
      rest := rest / 2;
    }
    forall m: nat | num < Pow2(m)
      ensures |dataBits| <= m
    {
      LeadingOne(dataBits, m);
    }
  }

  lemma ShiftOut(rest: nat, p: nat)
    ensures rest * p == rest / 2 * (2 * p) + rest % 2 * p
  {
    assert rest == 2 * (rest / 2) + rest % 2;
  }

  lemma LeadingOne(bits: DataBits, m: nat)
    requires bits == [] || bits[0]
    requires FromBits(bits) < Pow2(m)
    ensures |bits| <= m
  {
    if |bits| > m {
      Pow2Monotone(m, |bits| - 1);
      LeadingOneBound(bits);
    }
  }

  lemma {:induction false} LeadingOneBound(bits: DataBits)
    requires bits != [] && bits[0]
    ensures Pow2(|bits| - 1) <= FromBits(bits)
  {
    if |bits| > 1 {
      LeadingOneBound(bits[..|bits| - 1]);
    }
  }

  /** Left-padding the shortest vector to `n` bits gives the n-bit reading. */
  lemma PaddedToWidth(bits: DataBits, n: nat)
    requires |bits| <= n
    ensures Zeros(n - |bits|) + bits == ToBits(FromBits(bits), n)
  {
    LeadingZeros(n - |bits|, bits);
    ToFromBits(Zeros(n - |bits|) + bits);
  }

  // ------------------------------------------------------------- floor of log2

  /** The capacity in bits of a set of `count` values: floor(log2(count)). */
  function FloorLog2(count: nat): (r: nat)
    requires count >= 1
    ensures Pow2(r) <= count < Pow2(r + 1)
    ensures count >= 2 ==> r >= 1
  {
    if count == 1 then 0 else 1 + FloorLog2(count / 2)
  }
}
