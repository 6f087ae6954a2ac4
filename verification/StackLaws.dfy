/** What the stack, number and hash instructions do, by the pictures beside them
    (src/lib/core/script.cpp:36-42, 490-830). */
module StackLaws {
  import opened Bits
  import opened Script
  import opened Signatures
  import opened ScriptNumbers
  import opened Interpreter
  import opened Options

  const OP_PICK: Byte := 0x79
  const OP_ROLL: Byte := 0x7a

  /** Tops and rests of a stack with known elements on top. */
  lemma TopOf(s: Stack, t: Stack, k: nat)
    requires 1 <= k <= |t|
    ensures Top(s + t, k) == t[|t| - k]
  {
  }

  lemma PopOf(s: Stack, t: Stack)
    ensures Pop(s + t, |t|) == s
  {
  }

  /** xn ... x1 x0 n: OP_PICK copies xn to the top, OP_ROLL moves it there. */
  lemma PickAndRoll(s: Stack, x: Bytes, t: Stack)
    requires |t| <= 0x7fff_ffff
    ensures Shuffle(OP_PICK, s + [x] + t + [EncodeNum(|t|)]) == Some(s + [x] + t + [x])
    ensures Shuffle(OP_ROLL, s + [x] + t + [EncodeNum(|t|)]) == Some(s + t + [x])
  {
    var u := s + [x] + t;
    NumRoundTrip(|t|);
    NumFits(|t|);
    PopOf(u, [EncodeNum(|t|)]);
    TopOf(u, [EncodeNum(|t|)], 1);
    assert Top(u, |t| + 1) == x;
    assert u[..|u| - |t| - 1] == s && u[|u| - |t|..] == t;
  }

  // --------------------------------------------------------------------- numbers

  lemma {:induction false} MagnitudeSize(v: nat, n: nat)
    ensures |Magnitude(v)| <= n <==> v < Pow256(n)
  {
    if v != 0 && n > 0 {
      MagnitudeSize(v / 256, n - 1);
    }
  }

  lemma {:induction false} TopByte(v: nat, n: nat)
    requires |Magnitude(v)| == n > 0
    ensures Magnitude(v)[n - 1] < 0x80 <==> v < 0x80 * Pow256(n - 1)
  {
    if n == 1 {
      assert Magnitude(v / 256) == [];
    } else {
      TopByte(v / 256, n - 1);
    }
  }

  /** Exactly the numbers of 31 bits and a sign are operands; results may be larger. */
  lemma NumFits(v: int)
    ensures |EncodeNum(v)| <= 4 <==> -0x7fff_ffff <= v <= 0x7fff_ffff
  {
    var a := if v < 0 then -v else v;
    var m := Magnitude(a);
    assert Pow256(3) == 0x100_0000 && Pow256(4) == 0x1_0000_0000;
    MagnitudeSize(a, 4);
    MagnitudeSize(a, 3);
    if |m| == 4 {
      TopByte(a, 4);
    }
  }

  /** False are zeros of any length, and zeros before a sign bit. */
  lemma FalseElements(b: Bytes)
    ensures !CastToBool(b) <==> forall i :: 0 <= i < |b| ==> b[i] == 0 || (i == |b| - 1 && b[i] == 0x80)
  {
  }

  // -------------------------------------------------------------------- pictures

  /** A picture (x1 ... xn -- y1 ... ym): how many elements are taken, and which of them are put back. */
  datatype Picture = Picture(taken: nat, put: seq<nat>)

  const Pictures: map<int, Picture> := map[
    0x6d := Picture(2, []),
    0x6e := Picture(2, [1, 2, 1, 2]),
    0x6f := Picture(3, [1, 2, 3, 1, 2, 3]),
    0x70 := Picture(4, [1, 2, 3, 4, 1, 2]),
    0x71 := Picture(6, [3, 4, 5, 6, 1, 2]),
    0x72 := Picture(4, [3, 4, 1, 2]),
    0x75 := Picture(1, []),
    0x76 := Picture(1, [1, 1]),
    0x77 := Picture(2, [2]),
    0x78 := Picture(2, [1, 2, 1]),
    0x7b := Picture(3, [2, 3, 1]),
    0x7c := Picture(2, [2, 1]),
    0x7d := Picture(2, [2, 1, 2])]

  /** `after` is drawn from `before` by the picture. */
  ghost predicate Drawn(p: Picture, before: Stack, after: Option<Stack>) {
    if |before| < p.taken then after.None?
    else
      after.Some? && |after.value| == |before| - p.taken + |p.put| &&
      (forall i :: 0 <= i < |before| - p.taken ==> after.value[i] == before[i]) &&
      forall i :: 0 <= i < |p.put| ==>
        1 <= p.put[i] <= p.taken && after.value[|before| - p.taken + i] == before[|before| - p.taken + p.put[i] - 1]
  }

  lemma PairPictures(crypto: Crypto, opcode: Byte, s: Stack)
    requires opcode in {0x6d, 0x6e, 0x72}
    ensures Drawn(Pictures[opcode], s, OnStack(crypto, opcode, s))
  {
    hide Numeric, EncodeNum, CastToBigNum, CastToBool;
  }

  lemma LongPictures(crypto: Crypto, opcode: Byte, s: Stack)
    requires opcode in {0x6f, 0x70}
    ensures Drawn(Pictures[opcode], s, OnStack(crypto, opcode, s))
  {
    hide Numeric, EncodeNum, CastToBigNum, CastToBool;
  }

  lemma TurnPicture(crypto: Crypto, opcode: Byte, s: Stack)
    requires opcode == 0x71
    ensures Drawn(Pictures[opcode], s, OnStack(crypto, opcode, s))
  {
    hide Numeric, EncodeNum, CastToBigNum, CastToBool;
  }

  lemma SinglePictures(crypto: Crypto, opcode: Byte, s: Stack)
    requires opcode in Pictures && opcode > 0x72
    ensures Drawn(Pictures[opcode], s, OnStack(crypto, opcode, s))
  {
    hide Numeric, EncodeNum, CastToBigNum, CastToBool;
  }

  /** The instructions with pictures do what these show. */
  lemma StackPictures(crypto: Crypto, opcode: Byte, s: Stack)
    requires opcode in Pictures
    ensures Drawn(Pictures[opcode], s, OnStack(crypto, opcode, s))
  {
    hide OnStack, Drawn;
    if opcode in {0x6d, 0x6e, 0x72} {
      PairPictures(crypto, opcode, s);
    } else if opcode in {0x6f, 0x70} {
      LongPictures(crypto, opcode, s);
    } else if opcode == 0x71 {
      TurnPicture(crypto, opcode, s);
    } else {
      SinglePictures(crypto, opcode, s);
    }
  }

  /** Elements are counted, measured, doubled when true, and hashed. */
  lemma OnTop(crypto: Crypto, s: Stack, x: Bytes)
    ensures OnStack(crypto, 0x74, s) == Some(s + [EncodeNum(|s|)])
    ensures OnStack(crypto, 0x82, s + [x]) == Some(s + [x, EncodeNum(|x|)])
    ensures OnStack(crypto, 0x73, s + [x]) == Some(s + (if CastToBool(x) then [x, x] else [x]))
    ensures OnStack(crypto, 0x69, s + [x]) == if CastToBool(x) then Some(s) else None
    ensures OnStack(crypto, 0xa6, s + [x]) == Some(s + [crypto.ripemd160(x)])
    ensures OnStack(crypto, 0xa7, s + [x]) == Some(s + [crypto.sha1(x)])
    ensures OnStack(crypto, 0xa8, s + [x]) == Some(s + [crypto.sha256(x)])
    ensures OnStack(crypto, 0xa9, s + [x]) == Some(s + [crypto.hash160(x)])
    ensures OnStack(crypto, 0xaa, s + [x]) == Some(s + [crypto.hash256(x)])
  {
    hide EncodeNum, CastToBool;
    PopOf(s, [x]);
    TopOf(s, [x], 1);
    assert s + [x] + [x] == s + [x, x] && s + [x] + [EncodeNum(|x|)] == s + [x, EncodeNum(|x|)];
  }

  // ---------------------------------------------------------------- two numbers on top

  predicate Operand(v: int) { -0x7fff_ffff <= v <= 0x7fff_ffff }

  lemma OperandsOnTop(s: Stack, a: int, b: int)
    ensures var t := s + [EncodeNum(a), EncodeNum(b)];
            CastToBigNum(Top(t, 2)) == (if Operand(a) then Some(a) else None) &&
            CastToBigNum(Top(t, 1)) == (if Operand(b) then Some(b) else None) && Pop(t, 2) == s
  {
    NumFits(a);
    NumFits(b);
    NumRoundTrip(a);
    NumRoundTrip(b);
    TopOf(s, [EncodeNum(a), EncodeNum(b)], 1);
    TopOf(s, [EncodeNum(a), EncodeNum(b)], 2);
    PopOf(s, [EncodeNum(a), EncodeNum(b)]);
  }

  lemma BinaryOnTop(crypto: Crypto, opcode: Byte, s: Stack, a: int, b: int)
    requires 0x93 <= opcode <= 0xa4 && opcode != 0x9d && Binary(opcode, 0, 0).Some?
    ensures OnStack(crypto, opcode, s + [EncodeNum(a), EncodeNum(b)]) ==
              if !Operand(a) || !Operand(b) then None else Some(s + [EncodeNum(Binary(opcode, a, b).value)])
  {
    hide EncodeNum, CastToBigNum, Shuffle, Operand;
    OperandsOnTop(s, a, b);
  }

  /** The number that an instruction leaves for two operands. */
  ghost predicate Leaves(opcode: Byte, a: int, b: int, r: int) {
    (opcode == 0x93 ==> r == a + b) &&
    (opcode == 0x94 ==> r + b == a) &&
    (opcode == 0xa3 ==> r <= a && r <= b && r in {a, b}) &&
    (opcode == 0xa4 ==> r >= a && r >= b && r in {a, b}) &&
    (0x9a <= opcode <= 0xa2 ==> r in {0, 1}) &&
    (opcode == 0x9a ==> (r == 1 <==> a != 0 && b != 0)) &&
    (opcode == 0x9b ==> (r == 0 <==> a == 0 && b == 0)) &&
    (opcode == 0x9c ==> (r == 1 <==> a == b)) &&
    (opcode == 0x9e ==> (r == 0 <==> a == b)) &&
    (opcode == 0x9f ==> (r == 1 <==> a < b)) &&
    (opcode == 0xa0 ==> (r == 1 <==> b < a)) &&
    (opcode == 0xa1 ==> (r == 0 <==> b < a)) &&
    (opcode == 0xa2 ==> (r == 0 <==> a < b))
  }

  /** Arithmetic and comparisons on numbers of any size: operands of more than 31 bits and a sign fail, results of
      more are left on the stack. */
  lemma Arithmetic(crypto: Crypto, opcode: Byte, s: Stack, a: int, b: int)
    requires opcode in {0x93, 0x94, 0x9a, 0x9b, 0x9c, 0x9e, 0x9f, 0xa0, 0xa1, 0xa2, 0xa3, 0xa4}
    ensures if !Operand(a) || !Operand(b) then OnStack(crypto, opcode, s + [EncodeNum(a), EncodeNum(b)]) == None
            else exists r :: Leaves(opcode, a, b, r) &&
                   OnStack(crypto, opcode, s + [EncodeNum(a), EncodeNum(b)]) == Some(s + [EncodeNum(r)])
  {
    hide OnStack, Operand;
    assert Leaves(opcode, a, b, Binary(opcode, a, b).value);
    BinaryOnTop(crypto, opcode, s, a, b);
  }

  /** The number that an instruction leaves for one operand. */
  ghost predicate LeavesFor(opcode: Byte, a: int, r: int) {
    (opcode == 0x8b ==> r == a + 1) &&
    (opcode == 0x8c ==> a == r + 1) &&
    (opcode == 0x8f ==> r + a == 0) &&
    (opcode == 0x90 ==> r >= 0 && r in {a, -a}) &&
    (opcode == 0x91 ==> r in {0, 1} && (r == 1 <==> a == 0)) &&
    (opcode == 0x92 ==> r in {0, 1} && (r == 0 <==> a == 0))
  }

  /** One more, one less, negation, magnitude and the two tests for zero. */
  lemma OneOperand(crypto: Crypto, opcode: Byte, s: Stack, a: int)
    requires opcode in {0x8b, 0x8c, 0x8f, 0x90, 0x91, 0x92}
    ensures if !Operand(a) then OnStack(crypto, opcode, s + [EncodeNum(a)]) == None
            else exists r :: LeavesFor(opcode, a, r) &&
                   OnStack(crypto, opcode, s + [EncodeNum(a)]) == Some(s + [EncodeNum(r)])
  {
    hide EncodeNum, CastToBigNum, Shuffle, Operand;
    NumFits(a);
    OperandAlone(s, a);
    assert LeavesFor(opcode, a, Unary(opcode, a).value);
  }

  lemma OperandAlone(s: Stack, a: int)
    ensures var t := s + [EncodeNum(a)];
            CastToBigNum(Top(t, 1)) == (if Operand(a) then Some(a) else None) && Pop(t, 1) == s
  {
    NumFits(a);
    NumRoundTrip(a);
    TopOf(s, [EncodeNum(a)], 1);
    PopOf(s, [EncodeNum(a)]);
  }

  /** OP_WITHIN: from the lower bound on and below the upper one. */
  lemma Within(crypto: Crypto, s: Stack, x: int, min: int, max: int)
    requires Operand(x) && Operand(min) && Operand(max)
    ensures OnStack(crypto, 0xa5, s + [EncodeNum(x), EncodeNum(min), EncodeNum(max)]) ==
              Some(s + [if x >= min && x < max then [1] else []])
  {
    hide EncodeNum, CastToBigNum, Shuffle, Operand;
    var t, u := s + [EncodeNum(x), EncodeNum(min), EncodeNum(max)], s + [EncodeNum(x)];
    assert t == u + [EncodeNum(min), EncodeNum(max)];
    OperandsOnTop(u, min, max);
    OperandAlone(s, x);
    assert Top(t, 3) == EncodeNum(x) && Pop(t, 3) == s;
  }
}
