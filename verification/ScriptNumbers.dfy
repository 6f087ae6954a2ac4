/** Numbers and truth values on the script stack
    (src/lib/core/bignum.h, src/lib/core/script.cpp:36-57). */
module ScriptNumbers {
  import opened Script
  import opened Options

  /** The shortest little-endian form of a magnitude. */
  function Magnitude(v: nat): (r: Bytes)
    ensures r != [] ==> r[|r| - 1] != 0
    ensures r == [] <==> v == 0
  {
    if v == 0 then [] else [SizeByte(v % 256)] + Magnitude(v / 256)
  }

  /** CBigNum::getvch: the sign is the top bit, an extra byte makes room for it when needed. */
  function EncodeNum(v: int): (r: Bytes) {
    var m := Magnitude(if v < 0 then -v else v);
    if m == [] then []
    else
      var top := m[|m| - 1];
      if top >= 0x80 then m + [if v < 0 then 0x80 else 0]
      else if v < 0 then m[..|m| - 1] + [SizeByte(top + 0x80)]
      else m
  }

  /** CBigNum::setvch. */
  function DecodeNum(b: Bytes): (r: int) {
    if b == [] then 0
    else
      var init, top := b[..|b| - 1], b[|b| - 1];
      if top >= 0x80 then -(FromLE(init + [SizeByte(top - 0x80)]) as int) else FromLE(b)
  }

  /** CastToBigNum: at most four bytes, or it throws. */
  function CastToBigNum(b: Bytes): (r: Option<int>) {
    if |b| > 4 then None else Some(DecodeNum(b))
  }

  /** CastToBool: anything but zero and negative zero. */
  function CastToBool(b: Bytes): (r: bool) {
    exists i :: 0 <= i < |b| && b[i] != 0 && !(i == |b| - 1 && b[i] == 0x80)
  }

  lemma {:induction false} FromLEofMagnitude(v: nat)
    ensures FromLE(Magnitude(v)) == v
  {
    if v != 0 {
      FromLEofMagnitude(v / 256);
      assert Magnitude(v)[1..] == Magnitude(v / 256);
    }
  }

  lemma {:induction false} TrailingZero(b: Bytes)
    ensures FromLE(b + [0]) == FromLE(b)
  {
    if b == [] {
      assert FromLE([0][1..]) == 0;
    } else {
      TrailingZero(b[1..]);
      assert (b + [0])[1..] == b[1..] + [0];
    }
  }

  /** Every number is read back from its stack form. */
  lemma NumRoundTrip(v: int)
    ensures DecodeNum(EncodeNum(v)) == v
  {
    var m := Magnitude(if v < 0 then -v else v);
    FromLEofMagnitude(if v < 0 then -v else v);
    if m != [] {
      var top, e := m[|m| - 1], EncodeNum(v);
      if top >= 0x80 {
        assert e[..|e| - 1] == m;
        TrailingZero(m);
      } else if v < 0 {
        assert e[..|e| - 1] + [SizeByte(e[|e| - 1] - 0x80)] == m;
      }
    }
  }

  /** The truth value of a number's stack form says whether it is zero. */
  lemma NumTruth(v: int)
    ensures CastToBool(EncodeNum(v)) <==> v != 0
  {
    var m := Magnitude(if v < 0 then -v else v);
    if m != [] {
      var e := EncodeNum(v);
      var k := |m| - 1;
      if m[k] >= 0x80 || v >= 0 {
        assert e[k] == m[k] != 0;
        assert !(k == |e| - 1 && e[k] == 0x80);
      } else {
        assert e[k] == m[k] + 0x80;
        assert e[k] != 0 && e[k] != 0x80;
      }
    }
  }
}
