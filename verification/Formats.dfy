/** The remaining formats, by the values of their bytes and digits (src/lib/core/bignum.h:245-270,
    src/lib/core/script.h:372-397, src/lib/core/serialize.h:242-262, src/lib/core/core.cpp:160-213,
    src/lib/core/util.h:275-291, src/lib/bms/Types.cpp:86-138). */
module Formats {
  import opened Bits
  import opened Script
  import opened ScriptNumbers
  import opened SigningFacts
  import opened VarInts
  import Streams

  // ----------------------------------------------------------------- script numbers

  lemma {:induction false} LastDigit(init: Bytes, d: Byte)
    ensures FromLE(init + [d]) == FromLE(init) + d * Pow256(|init|)
  {
    if init == [] {
      assert FromLE([d][1..]) == 0;
      assert [] + [d] == [d];
    } else {
      LastDigit(init[1..], d);
      assert (init + [d])[1..] == init[1..] + [d];
      var p := Pow256(|init| - 1);
      assert d * (256 * p) == 256 * (d * p);
    }
  }

  /** The magnitude with the least byte first, its sign in the top bit of the last byte, and no byte more than that
      takes. */
  lemma NumBytes(v: int)
    ensures var b := EncodeNum(v);
            (b == [] <==> v == 0) &&
            (b != [] ==>
              var k := |b| - 1;
              FromLE(b[..k] + [SizeByte(b[k] % 128)]) == (if v < 0 then -v else v) && (b[k] >= 128 <==> v < 0) &&
              (b[k] % 128 != 0 || (k > 0 && b[k - 1] >= 128)))
  {
    hide Magnitude;
    var a: nat := if v < 0 then -v else v;
    var m, b := Magnitude(a), EncodeNum(v);
    FromLEofMagnitude(a);
    if m != [] {
      var k := |b| - 1;
      if m[|m| - 1] >= 0x80 {
        assert b[..k] == m;
        LastDigit(m, 0);
      } else {
        assert b[..k] + [SizeByte(b[k] % 128)] == m;
      }
    }
  }

  // --------------------------------------------------------------------- script forms

  lemma FirstByte(v: nat, n: nat)
    requires n >= 1
    ensures LE(v, n) == [SizeByte(v % 256)] + LE(v / 256, n - 1)
  {
  }

  lemma TwoBytes(v: nat)
    ensures LE(v, 2) == [SizeByte(v % 0x100), SizeByte(v / 0x100 % 0x100)]
  {
    hide LE;
    FirstByte(v, 2);
    FirstByte(v / 0x100, 1);
    assert LE(v / 0x100 / 0x100, 0) == [];
  }

  lemma FourBytes(v: nat)
    ensures LE(v, 4) == [SizeByte(v % 0x100), SizeByte(v / 0x100 % 0x100), SizeByte(v / 0x1_0000 % 0x100),
                         SizeByte(v / 0x100_0000 % 0x100)]
  {
    hide LE;
    FirstByte(v, 4);
    FirstByte(v / 0x100, 3);
    assert v / 0x100 / 0x100 == v / 0x1_0000 && v / 0x1_0000 / 0x100 == v / 0x100_0000;
    TwoBytes(v / 0x1_0000);
  }

  /** The four forms of a push. */
  lemma PushForms(b: Bytes)
    requires |b| < 0x1_0000_0000
    ensures var n := |b|;
            Push(b) ==
              if n < 0x4c then [SizeByte(n)] + b
              else if n <= 0xff then [0x4c, SizeByte(n)] + b
              else if n <= 0xffff then [0x4d, SizeByte(n % 0x100), SizeByte(n / 0x100)] + b
              else [0x4e, SizeByte(n % 0x100), SizeByte(n / 0x100 % 0x100), SizeByte(n / 0x1_0000 % 0x100),
                    SizeByte(n / 0x100_0000)] + b
  {
    hide LE;
    TwoBytes(|b|);
    FourBytes(|b|);
  }

  lemma {:induction false} KeyBytes(keys: seq<Bytes>, i: nat)
    requires CompressedKeys(keys) && i < |keys|
    ensures |PushKeys(keys)| == 34 * |keys|
    ensures PushKeys(keys)[34 * i] == 0x21 && PushKeys(keys)[34 * i + 1..34 * i + 34] == keys[i]
  {
    var s := PushKeys(keys);
    PushKeysLength(keys);
    PushKeysLength(keys[1..]);
    var tail := PushKeys(keys[1..]);
    assert s == [0x21] + keys[0] + tail;
    if i > 0 {
      KeyBytes(keys[1..], i - 1);
      assert s[34..] == tail;
      assert s[34 * i + 1..34 * i + 34] == tail[34 * (i - 1) + 1..34 * (i - 1) + 34];
    }
  }

  /** A script that asks for `required` of the keys, byte by byte. */
  lemma MultisigBytes(required: nat, keys: seq<Bytes>, i: nat)
    requires 1 <= required <= 16 && |keys| <= 16 && CompressedKeys(keys) && i < |keys|
    ensures var s, n := Multisig(required, keys), |keys|;
            |s| == 34 * n + 3 && s[0] == 0x50 + required && s[34 * n + 1] == 0x50 + n && s[34 * n + 2] == 0xae &&
            s[1 + 34 * i] == 0x21 && s[2 + 34 * i..35 + 34 * i] == keys[i]
  {
    KeyBytes(keys, i);
    var s, p := Multisig(required, keys), PushKeys(keys);
    assert s[1..34 * |keys| + 1] == p;
    assert s[2 + 34 * i..35 + 34 * i] == p[34 * i + 1..34 * i + 34];
  }

  /** 40 bytes behind OP_RETURN. */
  lemma NullDataBytes(data: Bytes)
    requires |data| == 40
    ensures NullData(data) == [0x6a, 0x28] + data
  {
  }

  // ----------------------------------------------------------------- numbers in base 128

  function Pow128(n: nat): (r: nat) {
    if n == 0 then 1 else 128 * Pow128(n - 1)
  }

  /** Every byte but the last counts one more than its low seven bits. */
  function Value128(b: Bytes): (r: nat) {
    if b == [] then 0
    else (b[0] % 128 + (if |b| > 1 then 1 else 0)) * Pow128(|b| - 1) + Value128(b[1..])
  }

  lemma {:induction false} OneDigitMore(b: Bytes, d: Byte)
    requires b != []
    ensures Value128(b + [d]) == 128 * (Value128(b) + 1) + d % 128
  {
    var c := b + [d];
    assert c[1..] == b[1..] + [d] && c[0] == b[0];
    var p := Pow128(|b| - 1);
    assert Pow128(|b|) == 128 * p;
    if |b| == 1 {
      assert c[1..] == [d] && b[1..] == [] && [d][1..] == [];
    } else {
      OneDigitMore(b[1..], d);
      assert (b[0] % 128 + 1) * (128 * p) == 128 * ((b[0] % 128 + 1) * p);
    }
  }

  /** All bytes but the last carry a mark, and their digits have this value. */
  lemma {:induction false} VarIntDigits(n: nat, more: bool)
    ensures var b := VarInt(n, more);
            Value128(b) == n && (b[|b| - 1] >= 128 <==> more) && forall i :: 0 <= i < |b| - 1 ==> b[i] >= 128
  {
    if n <= 0x7f {
      assert [Digit(n, more)][1..] == [];
    } else {
      VarIntDigits(n / 128 - 1, true);
      OneDigitMore(VarInt(n / 128 - 1, true), Digit(n % 128, more));
    }
  }

  /** Two entries of the table in the comment are wrong: 16511 takes two bytes, and 65535 has the bytes 82 fe 7f. */
  lemma TableDiffers()
    ensures VarInt(16511, false) == [0xff, 0x7f] && VarInt(65535, false) == [0x82, 0xfe, 0x7f]
  {
    assert VarInt(127, true) == [0xff];
    assert VarInt(2, true) == [0x82];
    assert VarInt(510, true) == [0x82, 0xfe];
  }

  // -------------------------------------------------------------------------- amounts

  lemma {:induction false} AmountWithZeros(n: nat, k: nat)
    requires n > 0 && k <= 9 && (k == 9 || n % 10 != 0)
    ensures n * Pow10(k) > 0
    ensures Compressed(n * Pow10(k)) == if k < 9 then 1 + 10 * (9 * (n / 10) + n % 10 - 1) + k else 10 * n
  {
    CompressPower(n, k, 0);
  }

  // ----------------------------------------------------------------------- hexadecimal

  const LowerDigits := "0123456789abcdef"
  const UpperDigits := "0123456789ABCDEF"

  /** Every byte is written as its high digit and its low digit. */
  lemma {:induction false} HexDigits(b: Bytes, i: nat)
    requires i < |b|
    ensures Streams.HexOf(b)[2 * i] == LowerDigits[b[i] / 16] && Streams.HexOf(b)[2 * i + 1] == LowerDigits[b[i] % 16]
  {
    if i > 0 {
      HexDigits(b[1..], i - 1);
    }
  }

  /** Digits of either case are read as their values, and no other character is a digit. */
  lemma HexValues(c: char, d: nat)
    requires d < 16
    ensures Streams.HexDigit(c) == d <==> c == LowerDigits[d] || c == UpperDigits[d]
    ensures Streams.HexDigit(c) >= 0 ==> exists k :: 0 <= k < 16 && (c == LowerDigits[k] || c == UpperDigits[k])
  {
    if Streams.HexDigit(c) >= 0 {
      var k := Streams.HexDigit(c);
      assert c == LowerDigits[k] || c == UpperDigits[k];
    }
  }

  // ----------------------------------------------------------------------------- bits

  /** The first bit counts most. */
  lemma FirstBitCounts(b: bool, rest: DataBits)
    ensures FromBits([b] + rest) == (if b then Pow2(|rest|) else 0) + FromBits(rest)
  {
    hide FromBits, Pow2;
    FromBitsConcat([b], rest);
    OneBit(b);
  }

  lemma OneBit(b: bool)
    ensures FromBits([b]) == if b then 1 else 0
  {
    assert [b][..0] == [];
  }

  /** Byte `i` is written in the eight bits from 8 * i on. */
  lemma {:induction false} ByteInBits(data: Bytes, i: nat)
    requires i < |data|
    ensures FromBits(BytesToBits(data)[8 * i..8 * i + 8]) == data[i]
  {
    var init, last := data[..|data| - 1], data[|data| - 1];
    var bits := BytesToBits(data);
    assert bits == BytesToBits(init) + ToBits(last, 8);
    if i == |init| {
      assert Pow2(8) == 256;
      FromToBits(last, 8);
      assert bits[8 * i..8 * i + 8] == ToBits(last, 8);
    } else {
      ByteInBits(init, i);
      assert bits[8 * i..8 * i + 8] == BytesToBits(init)[8 * i..8 * i + 8];
    }
  }
}
