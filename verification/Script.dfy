/** Serialized scripts: pushes, instruction fetching and the standard forms
    (src/lib/core/script.h, src/lib/core/script.cpp). */
module Script {
  import opened Bits
  import Sequences

  type Bytes = seq<Byte>
  type Script = Bytes

  const OP_0: Byte := 0x00
  const OP_PUSHDATA1: Byte := 0x4c
  const OP_PUSHDATA2: Byte := 0x4d
  const OP_PUSHDATA4: Byte := 0x4e
  const OP_1NEGATE: Byte := 0x4f
  const OP_1: Byte := 0x51
  const OP_16: Byte := 0x60
  const OP_NOP: Byte := 0x61
  const OP_IF: Byte := 0x63
  const OP_NOTIF: Byte := 0x64
  const OP_ELSE: Byte := 0x67
  const OP_ENDIF: Byte := 0x68
  const OP_VERIFY: Byte := 0x69
  const OP_RETURN: Byte := 0x6a
  const OP_TOALTSTACK: Byte := 0x6b
  const OP_FROMALTSTACK: Byte := 0x6c
  const OP_DUP: Byte := 0x76
  const OP_EQUAL: Byte := 0x87
  const OP_EQUALVERIFY: Byte := 0x88
  const OP_HASH160: Byte := 0xa9
  const OP_CODESEPARATOR: Byte := 0xab
  const OP_CHECKSIG: Byte := 0xac
  const OP_CHECKSIGVERIFY: Byte := 0xad
  const OP_CHECKMULTISIG: Byte := 0xae
  const OP_CHECKMULTISIGVERIFY: Byte := 0xaf

  // ------------------------------------------------------- little-endian numbers

  /** The `n` low bytes of `v`, least significant first. */
  function LE(v: nat, n: nat): (r: Bytes)
    ensures |r| == n
  {
    if n == 0 then [] else [SizeByte(v % 256)] + LE(v / 256, n - 1)
  }

  function FromLE(b: Bytes): (r: nat) {
    if b == [] then 0 else b[0] + 256 * FromLE(b[1..])
  }

  function Pow256(n: nat): (r: nat)
    ensures r >= 1
  {
    if n == 0 then 1 else 256 * Pow256(n - 1)
  }

  lemma {:induction false} FromLEofLE(v: nat, n: nat)
    requires v < Pow256(n)
    ensures FromLE(LE(v, n)) == v
  {
    if n > 0 {
      FromLEofLE(v / 256, n - 1);
      assert LE(v, n)[1..] == LE(v / 256, n - 1);
    }
  }

  lemma {:induction false} LEofFromLE(b: Bytes)
    ensures LE(FromLE(b), |b|) == b && FromLE(b) < Pow256(|b|)
  {
    if b != [] {
      var rest := FromLE(b[1..]);
      LEofFromLE(b[1..]);
      assert FromLE(b) % 256 == b[0] && FromLE(b) / 256 == rest;
      assert LE(FromLE(b), |b|) == [b[0]] + LE(rest, |b| - 1);
      assert b == [b[0]] + b[1..];
    }
  }

  lemma SmallPowers()
    ensures Pow256(1) == 0x100 && Pow256(2) == 0x1_0000 && Pow256(4) == 0x1_0000_0000
    ensures Pow256(8) == 0x1_0000_0000_0000_0000
  {
    assert Pow256(3) == 0x100_0000;
    assert Pow256(5) == 0x100_0000_0000;
    assert Pow256(6) == 0x1_0000_0000_0000;
    assert Pow256(7) == 0x100_0000_0000_0000;
  }

  // ---------------------------------------------------------------------- pushes

  function SizeByte(n: nat): (r: Byte)
    requires n <= 0xff
  {
    n
  }

  /** operator<< on a byte vector; sizes are cut to 32 bits. */
  function Push(b: Bytes): (r: Script) {
    if |b| < OP_PUSHDATA1 then [SizeByte(|b|)] + b
    else if |b| <= 0xff then [OP_PUSHDATA1, SizeByte(|b|)] + b
    else if |b| <= 0xffff then [OP_PUSHDATA2] + LE(|b|, 2) + b
    else [OP_PUSHDATA4] + LE(|b| % 0x1_0000_0000, 4) + b
  }

  datatype Op = Op(opcode: Byte, data: Bytes)

  /** The outcome of GetOp2: an instruction and what follows it, or the place where reading stopped. */
  datatype Fetch = Stop(rest: Script) | Fetched(op: Op, rest: Script)

  function GetOp(s: Script): (r: Fetch)
    ensures |r.rest| <= |s| && (r.Fetched? ==> |r.rest| < |s|)
  {
    if s == [] then Stop([])
    else
      var opcode, t := s[0], s[1..];
      if opcode > OP_PUSHDATA4 then Fetched(Op(opcode, []), t)
      else if opcode < OP_PUSHDATA1 then Immediate(opcode, opcode, t)
      else
        var width := if opcode == OP_PUSHDATA1 then 1 else if opcode == OP_PUSHDATA2 then 2 else 4;
        if |t| < width then Stop(t) else Immediate(opcode, FromLE(t[..width]), t[width..])
  }

  /** What is left to read is always an end of the script. */
  lemma GetOpSuffix(s: Script)
    ensures GetOp(s).rest == s[|s| - |GetOp(s).rest|..]
  {
  }

  function Immediate(opcode: Byte, size: nat, t: Script): (r: Fetch)
    ensures |r.rest| <= |t|
  {
    if |t| < size then Stop(t) else Fetched(Op(opcode, t[..size]), t[size..])
  }

  /** The opcode that Push chooses. */
  function PushOpcode(b: Bytes): (r: Byte)
    ensures r <= OP_PUSHDATA4
  {
    if |b| < OP_PUSHDATA1 then SizeByte(|b|)
    else if |b| <= 0xff then OP_PUSHDATA1
    else if |b| <= 0xffff then OP_PUSHDATA2
    else OP_PUSHDATA4
  }

  /** A pushed byte vector is read back, and reading continues behind it. */
  lemma GetOpPush(b: Bytes, rest: Script)
    requires |b| < 0x1_0000_0000
    ensures GetOp(Push(b) + rest) == Fetched(Op(PushOpcode(b), b), rest)
  {
    if |b| < OP_PUSHDATA1 {
      GetOpDirect(SizeByte(|b|), b, rest);
    } else if |b| <= 0xff {
      GetOpPush1(b, rest);
    } else {
      SmallPowers();
      if |b| <= 0xffff {
        GetOpSized(OP_PUSHDATA2, 2, b, rest);
      } else {
        GetOpSized(OP_PUSHDATA4, 4, b, rest);
      }
    }
  }

  lemma GetOpPush1(b: Bytes, rest: Script)
    requires OP_PUSHDATA1 <= |b| <= 0xff
    ensures GetOp([OP_PUSHDATA1, SizeByte(|b|)] + b + rest) == Fetched(Op(OP_PUSHDATA1, b), rest)
  {
    SmallPowers();
    OneByteSize(|b|);
    GetOpSized(OP_PUSHDATA1, 1, b, rest);
    assert [OP_PUSHDATA1, SizeByte(|b|)] == [OP_PUSHDATA1] + LE(|b|, 1);
  }

  lemma OneByteSize(n: nat)
    requires n <= 0xff
    ensures LE(n, 1) == [SizeByte(n)]
  {
    assert LE(n / 256, 0) == [];
  }

  lemma GetOpDirect(size: Byte, b: Bytes, rest: Script)
    requires size == |b| < OP_PUSHDATA1
    ensures GetOp([size] + b + rest) == Fetched(Op(size, b), rest)
  {
    assert ([size] + b + rest)[1..] == b + rest;
    ImmediateExact(size, b, rest);
  }

  lemma GetOpSized(opcode: Byte, width: nat, b: Bytes, rest: Script)
    requires (opcode == OP_PUSHDATA1 && width == 1) || (opcode == OP_PUSHDATA2 && width == 2) ||
             (opcode == OP_PUSHDATA4 && width == 4)
    requires |b| < Pow256(width)
    ensures GetOp([opcode] + LE(|b|, width) + b + rest) == Fetched(Op(opcode, b), rest)
  {
    var size := LE(|b|, width);
    FromLEofLE(|b|, width);
    ImmediateExact(opcode, b, rest);
    GetOpWidth(opcode, width, size, b + rest);
    assert [opcode] + size + (b + rest) == [opcode] + size + b + rest;
  }

  lemma GetOpWidth(opcode: Byte, width: nat, size: Bytes, t: Script)
    requires (opcode == OP_PUSHDATA1 && width == 1) || (opcode == OP_PUSHDATA2 && width == 2) ||
             (opcode == OP_PUSHDATA4 && width == 4)
    requires |size| == width
    ensures GetOp([opcode] + size + t) == Immediate(opcode, FromLE(size), t)
  {
    Sequences.Assoc([opcode], size, t);
    Sequences.ConsTail(opcode, size + t);
    Sequences.TakeDrop(size, t);
  }

  lemma ImmediateExact(opcode: Byte, b: Bytes, rest: Script)
    ensures Immediate(opcode, |b|, b + rest) == Fetched(Op(opcode, b), rest)
  {
    assert (b + rest)[..|b|] == b && (b + rest)[|b|..] == rest;
  }

  lemma GetOpCode(opcode: Byte, rest: Script)
    requires opcode > OP_PUSHDATA4
    ensures GetOp([opcode] + rest) == Fetched(Op(opcode, []), rest)
  {
    assert ([opcode] + rest)[1..] == rest;
  }

  function EncodeOP_N(n: nat): (r: Byte)
    requires n <= 16
  {
    if n == 0 then OP_0 else OP_1 + n - 1
  }

  function DecodeOP_N(opcode: Byte): (r: nat)
    requires opcode == OP_0 || OP_1 <= opcode <= OP_16
  {
    if opcode == OP_0 then 0 else opcode - (OP_1 - 1)
  }

  lemma DecodeEncodeOP_N(n: nat)
    requires n <= 16
    ensures DecodeOP_N(EncodeOP_N(n)) == n
  {
  }

  // -------------------------------------------------------------- standard forms

  /** Public keys one after the other, each pushed by its size (operator<< on CPubKey). */
  function PushKeys(keys: seq<Bytes>): (r: Script)
    requires forall i :: 0 <= i < |keys| ==> |keys[i]| < OP_PUSHDATA1
  {
    if keys == [] then [] else [SizeByte(|keys[0]|)] + keys[0] + PushKeys(keys[1..])
  }

  /** SetMultisig. */
  function Multisig(required: nat, keys: seq<Bytes>): (r: Script)
    requires required <= 16 && |keys| <= 16
    requires forall i :: 0 <= i < |keys| ==> |keys[i]| < OP_PUSHDATA1
  {
    [EncodeOP_N(required)] + PushKeys(keys) + [EncodeOP_N(|keys|), OP_CHECKMULTISIG]
  }

  /** SetDestination for a script hash. */
  function PayToScriptHash(id: Bytes): (r: Script)
    requires |id| == 20
  {
    [OP_HASH160, 0x14] + id + [OP_EQUAL]
  }

  predicate IsPayToScriptHash(s: Script) {
    |s| == 23 && s[0] == OP_HASH160 && s[1] == 0x14 && s[22] == OP_EQUAL
  }

  /** OP_RETURN followed by pushed data. */
  function NullData(data: Bytes): (r: Script) {
    [OP_RETURN] + Push(data)
  }

  predicate IsPushOnly(s: Script)
    decreases |s|
  {
    s == [] || (var f := GetOp(s); f.Fetched? && f.op.opcode <= OP_16 && IsPushOnly(f.rest))
  }

  /** FindAndDelete: occurrences of `b` at instruction boundaries are erased. */
  function FindAndDelete(s: Script, b: Script): (r: Script)
    decreases |s|
  {
    if b == [] then s
    else if |b| <= |s| && s[..|b|] == b then FindAndDelete(s[|b|..], b)
    else
      var f := GetOp(s);
      if f.Stop? then s else s[..|s| - |f.rest|] + FindAndDelete(f.rest, b)
  }

  // ------------------------------------------------------- reading data back out

  /** The data of the last instruction, as the loop `while (GetOp(...));` leaves it. */
  function LastData(s: Script, last: Bytes): (r: Bytes)
    decreases |s|
  {
    if s == [] then last
    else var f := GetOp(s); if f.Stop? then [] else LastData(f.rest, f.op.data)
  }

  /** The 33-byte operands of a script, in order. */
  function KeysIn(s: Script): (r: seq<Bytes>)
    decreases |s|
  {
    if s == [] then []
    else
      var f := GetOp(s);
      if f.Stop? then []
      else if |f.op.data| == 33 then [f.op.data] + KeysIn(f.rest)
      else KeysIn(f.rest)
  }

  lemma {:induction false} KeysInPushKeys(keys: seq<Bytes>, rest: Script)
    requires forall i :: 0 <= i < |keys| ==> |keys[i]| == 33
    ensures KeysIn(PushKeys(keys) + rest) == keys + KeysIn(rest)
  {
    if keys == [] {
      assert PushKeys(keys) + rest == rest;
    } else {
      var key, tail := keys[0], PushKeys(keys[1..]) + rest;
      Sequences.Assoc([SizeByte(33)] + key, PushKeys(keys[1..]), rest);
      KeysInStep(key, tail);
      KeysInPushKeys(keys[1..], rest);
      assert keys == [key] + keys[1..];
      Sequences.Assoc([key], keys[1..], KeysIn(rest));
    }
  }

  lemma KeysInStep(key: Bytes, tail: Script)
    requires |key| == 33
    ensures KeysIn([SizeByte(33)] + key + tail) == [key] + KeysIn(tail)
  {
    GetOpDirect(SizeByte(33), key, tail);
  }

  /** The keys of a multisig script are read back exactly. */
  lemma KeysInMultisig(required: nat, keys: seq<Bytes>)
    requires 1 <= required <= 16 && 1 <= |keys| <= 16 && forall i :: 0 <= i < |keys| ==> |keys[i]| == 33
    ensures KeysIn(Multisig(required, keys)) == keys
  {
    var end: Script := [EncodeOP_N(|keys|), OP_CHECKMULTISIG];
    var tail := PushKeys(keys) + end;
    assert Multisig(required, keys) == [EncodeOP_N(required)] + tail;
    GetOpCode(EncodeOP_N(required), tail);
    KeysInPushKeys(keys, end);
    NoKeysInCodes(EncodeOP_N(|keys|));
  }

  lemma NoKeysInCodes(opcode: Byte)
    requires opcode > OP_PUSHDATA4
    ensures KeysIn([opcode, OP_CHECKMULTISIG]) == []
  {
    var last: Script := [OP_CHECKMULTISIG];
    assert [opcode] + last == [opcode, OP_CHECKMULTISIG];
    GetOpCode(opcode, last);
    assert last + [] == last;
    GetOpCode(OP_CHECKMULTISIG, []);
    assert KeysIn(last) == [];
  }

  /** The redeem script pushed last is found again, whatever pushes come before. */
  lemma LastDataPush(s: Script, redeem: Bytes, last: Bytes)
    requires IsPushOnly(s) && |redeem| < 0x1_0000_0000
    ensures LastData(s + Push(redeem), last) == redeem
    decreases |s|
  {
    if s == [] {
      assert s + Push(redeem) == Push(redeem) + [];
      GetOpPush(redeem, []);
    } else {
      GetOpAppend(s, Push(redeem));
      LastDataPush(GetOp(s).rest, redeem, GetOp(s).op.data);
    }
  }

  /** A successful fetch does not depend on what is appended to the script. */
  lemma GetOpAppend(s: Script, t: Script)
    requires GetOp(s).Fetched?
    ensures GetOp(s + t) == Fetched(GetOp(s).op, GetOp(s).rest + t)
  {
    var u := s[1..];
    assert (s + t)[1..] == u + t;
    if s[0] <= OP_PUSHDATA4 {
      if s[0] < OP_PUSHDATA1 {
        ImmediateAppend(s[0], s[0], u, t);
      } else {
        var width := if s[0] == OP_PUSHDATA1 then 1 else if s[0] == OP_PUSHDATA2 then 2 else 4;
        assert (u + t)[..width] == u[..width] && (u + t)[width..] == u[width..] + t;
        ImmediateAppend(s[0], FromLE(u[..width]), u[width..], t);
      }
    }
  }

  lemma ImmediateAppend(opcode: Byte, size: nat, u: Script, t: Script)
    requires size <= |u|
    ensures Immediate(opcode, size, u + t) == Fetched(Op(opcode, u[..size]), u[size..] + t)
  {
    assert (u + t)[..size] == u[..size] && (u + t)[size..] == u[size..] + t;
  }
}
