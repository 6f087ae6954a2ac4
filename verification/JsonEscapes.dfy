/** Escapes in JSON strings, by numbers (section 7 of RFC 8259; src/lib/api/jsonrpc/json/json_writer.cpp:111-172,
    src/lib/api/jsonrpc/json/json_reader.cpp:657-756). */
module JsonEscapes {
  import opened JsonValues
  import opened JsonReader
  import opened Options
  import Sequences

  // ---------------------------------------------------------------- letters and codes

  /** A letter behind the backslash, and the character that it stands for. */
  datatype Escape = Escape(letter: int, code: int)

  /** Quotation mark, backslash, solidus, backspace, form feed, line feed, carriage return and tab. */
  const Escapes: seq<Escape> := [
    Escape(0x22, 0x22), Escape(0x5c, 0x5c), Escape(0x2f, 0x2f), Escape(0x62, 0x08),
    Escape(0x66, 0x0c), Escape(0x6e, 0x0a), Escape(0x72, 0x0d), Escape(0x74, 0x09)]

  const SOLIDUS := 2

  predicate IsLetter(c: char) {
    exists k :: 0 <= k < 8 && c as int == Escapes[k].letter
  }

  predicate IsCode(c: char) {
    exists k :: 0 <= k < 8 && k != SOLIDUS && c as int == Escapes[k].code
  }

  /** Each letter is read as its code. */
  lemma LetterRead(k: nat, tail: string)
    requires k < 8
    ensures Decode([0x5c as char, Escapes[k].letter as char] + tail) ==
            Prepend([Escapes[k].code as char], Decode(tail))
  {
    var s := [0x5c as char, Escapes[k].letter as char] + tail;
    assert s[2..] == tail;
  }

  /** No other letter but the u is. */
  lemma OtherLetter(c: char, tail: string)
    requires c as int != 0x75 && !IsLetter(c)
    ensures Decode([0x5c as char, c] + tail) == None
  {
    var s := [0x5c as char, c] + tail;
    assert forall k :: 0 <= k < 8 ==> c as int != Escapes[k].letter;
    assert c as int != Escapes[0].letter && c as int != Escapes[1].letter && c as int != Escapes[2].letter &&
           c as int != Escapes[3].letter && c as int != Escapes[4].letter && c as int != Escapes[5].letter &&
           c as int != Escapes[6].letter && c as int != Escapes[7].letter;
  }

  lemma {:induction false} TextOfParts(before: string, after: string)
    ensures EscapedText(before + after) == EscapedText(before) + EscapedText(after)
  {
    hide Escaped;
    if before == "" {
      Sequences.NothingAround(after);
      Sequences.NothingAround(EscapedText(after));
    } else {
      assert (before + after)[0] == before[0] && (before + after)[1..] == before[1..] + after;
      TextOfParts(before[1..], after);
      Sequences.Assoc(Escaped(before[0]), EscapedText(before[1..]), EscapedText(after));
    }
  }

  lemma Surrounded(before: string, c: char, after: string)
    ensures EscapedText(before + [c] + after) == EscapedText(before) + Escaped(c) + EscapedText(after)
  {
    hide Escaped;
    assert [c][1..] == "";
    Sequences.NothingAround(Escaped(c));
    TextOfParts(before + [c], after);
    TextOfParts(before, [c]);
  }

  lemma EscapedCode(k: nat)
    requires k < 8 && k != SOLIDUS
    ensures Escaped(Escapes[k].code as char) == [0x5c as char, Escapes[k].letter as char]
  {
  }

  lemma EscapedOther(c: char)
    requires !IsCode(c)
    ensures Escaped(c) ==
            if 0 < c as int < 0x20
            then [0x5c as char, 0x75 as char, '0', '0', UpperDigits[c as int / 16], UpperDigits[c as int % 16]]
            else [c]
  {
    assert c as int != Escapes[0].code && c as int != Escapes[1].code && c as int != Escapes[3].code &&
           c as int != Escapes[4].code && c as int != Escapes[5].code && c as int != Escapes[6].code &&
           c as int != Escapes[7].code;
  }

  /** Each code but that of the solidus is written as its letter, wherever it stands. */
  lemma LetterWritten(k: nat, before: string, after: string)
    requires k < 8 && k != SOLIDUS
    ensures EscapedText(before + [Escapes[k].code as char] + after) ==
            EscapedText(before) + [0x5c as char, Escapes[k].letter as char] + EscapedText(after)
  {
    hide Escaped, EscapedText;
    EscapedCode(k);
    Surrounded(before, Escapes[k].code as char, after);
  }

  const UpperDigits: string := "0123456789ABCDEF"
  const LowerDigits: string := "0123456789abcdef"

  /** Every other control character is written by its number, and everything else as it is. */
  lemma OthersWritten(c: char, before: string, after: string)
    requires !IsCode(c)
    ensures EscapedText(before + [c] + after) ==
            EscapedText(before) +
            (if 0 < c as int < 0x20
             then [0x5c as char, 0x75 as char, '0', '0', UpperDigits[c as int / 16], UpperDigits[c as int % 16]]
             else [c]) +
            EscapedText(after)
  {
    hide Escaped, EscapedText, IsCode;
    EscapedOther(c);
    Surrounded(before, c, after);
  }

  // --------------------------------------------------------------------- code points

  /** A digit of a number in hexadecimal, in either case. */
  predicate IsDigitOf(c: char, d: nat) {
    d < 16 && (c == UpperDigits[d] || c == LowerDigits[d])
  }

  lemma DigitValue(c: char, d: nat)
    requires IsDigitOf(c, d)
    ensures HexValue(c) == d
  {
  }

  /** The code point that one to four bytes of UTF-8 spell: the leading byte tells their number, and every
      further one has six bits. */
  function Spelled(w: string): (r: Option<int>) {
    if |w| == 1 && Below(w, 0, 0x80) then Some(w[0] as int)
    else if |w| == 2 && Between(w, 0, 0xc0, 0xe0) && Continues(w, 1) then
      Some((w[0] as int - 0xc0) * 0x40 + (w[1] as int - 0x80))
    else if |w| == 3 && Between(w, 0, 0xe0, 0xf0) && Continues(w, 1) && Continues(w, 2) then
      Some((w[0] as int - 0xe0) * 0x1000 + (w[1] as int - 0x80) * 0x40 + (w[2] as int - 0x80))
    else if |w| == 4 && Between(w, 0, 0xf0, 0xf8) && Continues(w, 1) && Continues(w, 2) && Continues(w, 3) then
      Some((w[0] as int - 0xf0) * 0x4_0000 + (w[1] as int - 0x80) * 0x1000 + (w[2] as int - 0x80) * 0x40 +
           (w[3] as int - 0x80))
    else None
  }

  predicate Below(w: string, k: nat, n: int)
    requires k < |w|
  {
    w[k] as int < n
  }

  predicate Between(w: string, k: nat, m: int, n: int)
    requires k < |w|
  {
    m <= w[k] as int < n
  }

  predicate Continues(w: string, k: nat)
    requires k < |w|
  {
    Between(w, k, 0x80, 0xc0)
  }

  /** The bytes that are decoded spell the code point, with no byte more than needed. */
  lemma SpelledByBytes(cp: nat)
    requires cp <= 0x10_ffff
    ensures var w := CodePointToUTF8(cp);
            Spelled(w) == Some(cp) &&
            |w| == if cp < 0x80 then 1 else if cp < 0x800 then 2 else if cp < 0x1_0000 then 3 else 4
  {
    if cp >= 0x1_0000 {
      FourBytes(cp);
    } else if cp >= 0x800 {
      ThreeBytes(cp);
    } else if cp >= 0x80 {
      TwoBytes(cp);
    }
  }

  lemma TwoBytes(cp: nat)
    requires 0x80 <= cp < 0x800
    ensures Spelled(CodePointToUTF8(cp)) == Some(cp) && |CodePointToUTF8(cp)| == 2
  {
    var a, b := cp / 0x40, cp % 0x40;
    assert a % 32 == a && cp == a * 0x40 + b;
  }

  lemma ThreeBytes(cp: nat)
    requires 0x800 <= cp < 0x1_0000
    ensures Spelled(CodePointToUTF8(cp)) == Some(cp) && |CodePointToUTF8(cp)| == 3
  {
    hide CodePointToUTF8;
    var a, b, c := cp / 0x1000, cp / 0x40 % 0x40, cp % 0x40;
    ThreeParts(cp, a, b, c);
    BytesOfThree(cp, a, b, c);
  }

  lemma ThreeParts(cp: nat, a: nat, b: nat, c: nat)
    requires cp < 0x1_0000 && a == cp / 0x1000 && b == cp / 0x40 % 0x40 && c == cp % 0x40
    ensures a < 16 && cp == a * 0x1000 + b * 0x40 + c
  {
  }

  lemma BytesOfThree(cp: nat, a: nat, b: nat, c: nat)
    requires 0x800 <= cp < 0x1_0000 && a < 16 && a == cp / 0x1000 && b == cp / 0x40 % 0x40 && c == cp % 0x40
    ensures CodePointToUTF8(cp) == [(0xe0 + a) as char, (0x80 + b) as char, (0x80 + c) as char]
  {
  }

  lemma FourBytes(cp: nat)
    requires 0x1_0000 <= cp <= 0x10_ffff
    ensures Spelled(CodePointToUTF8(cp)) == Some(cp) && |CodePointToUTF8(cp)| == 4
  {
    hide CodePointToUTF8;
    var a, b, c, d := cp / 0x4_0000, cp / 0x1000 % 0x40, cp / 0x40 % 0x40, cp % 0x40;
    FourParts(cp, a, b, c, d);
    BytesOfFour(cp, a, b, c, d);
  }

  lemma FourParts(cp: nat, a: nat, b: nat, c: nat, d: nat)
    requires cp <= 0x10_ffff && a == cp / 0x4_0000 && b == cp / 0x1000 % 0x40 && c == cp / 0x40 % 0x40 && d == cp % 0x40
    ensures a <= 4 && cp == a * 0x4_0000 + b * 0x1000 + c * 0x40 + d
  {
  }

  lemma BytesOfFour(cp: nat, a: nat, b: nat, c: nat, d: nat)
    requires 0x1_0000 <= cp <= 0x10_ffff && a <= 4
    requires a == cp / 0x4_0000 && b == cp / 0x1000 % 0x40 && c == cp / 0x40 % 0x40 && d == cp % 0x40
    ensures CodePointToUTF8(cp) == [(0xf0 + a) as char, (0x80 + b) as char, (0x80 + c) as char, (0x80 + d) as char]
  {
  }

  /** Four hexadecimal digits and the number that they write. */
  predicate Writes(h: string, u: nat) {
    |h| == 4 && u <= 0xffff && IsDigitOf(h[0], u / 0x1000) && IsDigitOf(h[1], u / 0x100 % 16) &&
    IsDigitOf(h[2], u / 0x10 % 16) && IsDigitOf(h[3], u % 16)
  }

  lemma NumberRead(h: string, u: nat, tail: string)
    requires Writes(h, u)
    ensures Hex4(h + tail) == Some(u)
  {
    hide HexValue, IsDigitOf;
    DigitValue(h[0], u / 0x1000);
    DigitValue(h[1], u / 0x100 % 16);
    DigitValue(h[2], u / 0x10 % 16);
    DigitValue(h[3], u % 16);
    FourHexDigits(u);
  }

  lemma FourHexDigits(u: nat)
    requires u <= 0xffff
    ensures ((u / 0x1000 * 16 + u / 0x100 % 16) * 16 + u / 0x10 % 16) * 16 + u % 16 == u
  {
  }

  /** A number that is no high surrogate is decoded to the bytes that spell it. */
  lemma CodePointRead(h: string, u: nat, tail: string)
    requires Writes(h, u) && !(0xd800 <= u <= 0xdbff)
    ensures exists w :: Spelled(w) == Some(u) && Decode([0x5c as char, 0x75 as char] + h + tail) == Prepend(w, Decode(tail))
  {
    hide HexValue, Writes, Hex4, Spelled, CodePointToUTF8;
    NumberRead(h, u, tail);
    SpelledByBytes(u);
    HexLength(h, u);
    var s := [0x5c as char, 0x75 as char] + h + tail;
    assert s[2..] == h + tail && (h + tail)[4..] == tail;
  }

  lemma HexLength(h: string, u: nat)
    requires Writes(h, u)
    ensures |h| == 4
  {
  }

  /** A high surrogate and a low one behind it are decoded to the bytes that spell the pair. */
  lemma {:induction false} PairRead(h: string, high: nat, l: string, low: nat, tail: string)
    requires Writes(h, high) && 0xd800 <= high <= 0xdbff && Writes(l, low) && 0xdc00 <= low <= 0xdfff
    ensures exists w ::
      Spelled(w) == Some(0x1_0000 + (high - 0xd800) * 0x400 + (low - 0xdc00)) &&
      Decode([0x5c as char, 0x75 as char] + h + ([0x5c as char, 0x75 as char] + l + tail)) == Prepend(w, Decode(tail))
  {
    hide HexValue, Writes, Hex4, Spelled, CodePointToUTF8;
    var second := [0x5c as char, 0x75 as char] + l + tail;
    NumberRead(h, high, second);
    NumberRead(l, low, tail);
    HexLength(h, high);
    HexLength(l, low);
    var cp := 0x1_0000 + (high - 0xd800) * 0x400 + (low - 0xdc00);
    SpelledByBytes(cp);
    var s := [0x5c as char, 0x75 as char] + h + second;
    assert s[2..] == h + second && (h + second)[4..] == second;
    assert second[2..] == l + tail && second[6..] == tail;
    assert high % 0x400 == high - 0xd800 && low % 0x400 == low - 0xdc00;
    assert ReadCodePoint(s[2..]) == Some(CodePoint(cp, tail));
  }

  /** A high surrogate with anything else than an escape behind it is refused. */
  lemma LoneHighSurrogate(h: string, high: nat, tail: string)
    requires Writes(h, high) && 0xd800 <= high <= 0xdbff
    requires |tail| < 6 || tail[0] as int != 0x5c || tail[1] as int != 0x75
    ensures Decode([0x5c as char, 0x75 as char] + h + tail) == None
  {
    hide HexValue, Writes, Hex4;
    NumberRead(h, high, tail);
    HexLength(h, high);
    var s := [0x5c as char, 0x75 as char] + h + tail;
    assert s[2..] == h + tail && (h + tail)[4..] == tail;
  }
}
