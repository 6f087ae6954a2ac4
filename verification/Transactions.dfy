/** Transactions, their byte format and its size
    (src/lib/core/core.h, src/lib/core/serialize.h). */
module Transactions {
  import opened Script
  import Sequences

  datatype OutPoint = OutPoint(hash: Bytes, n: nat)
  datatype TxIn = TxIn(prevout: OutPoint, scriptSig: Script, nSequence: nat)
  datatype TxOut = TxOut(nValue: int, scriptPubKey: Script)
  datatype Tx = Tx(nVersion: int, vin: seq<TxIn>, vout: seq<TxOut>, nLockTime: nat)

  const UINT32: nat := 0x1_0000_0000
  const UINT64: nat := 0x1_0000_0000_0000_0000
  const INT32: int := 0x8000_0000
  const INT64: int := 0x8000_0000_0000_0000
  const MAX_SIZE: nat := 0x0200_0000

  function ZeroBytes(n: nat): (r: Bytes)
    ensures |r| == n
  {
    seq(n, i => 0)
  }

  /** The default-constructed input, output and transaction. */
  const NewTxIn := TxIn(OutPoint(ZeroBytes(32), UINT32 - 1), [], UINT32 - 1)
  const NewTxOut := TxOut(-1, [])
  const NewTx := Tx(1, [], [], 0)

  /** The ranges of the C++ field types, and the lengths that ReadCompactSize accepts. */
  predicate ValidIn(i: TxIn) {
    |i.prevout.hash| == 32 && i.prevout.n < UINT32 && |i.scriptSig| <= MAX_SIZE && i.nSequence < UINT32
  }

  predicate ValidOut(o: TxOut) {
    -INT64 <= o.nValue < INT64 && |o.scriptPubKey| <= MAX_SIZE
  }

  predicate ValidTx(t: Tx) {
    -INT32 <= t.nVersion < INT32 && t.nLockTime < UINT32 &&
    |t.vin| <= MAX_SIZE && |t.vout| <= MAX_SIZE &&
    ValidIns(t.vin) && ValidOuts(t.vout)
  }

  predicate ValidIns(ins: seq<TxIn>) {
    forall i :: 0 <= i < |ins| ==> ValidIn(ins[i])
  }

  predicate ValidOuts(outs: seq<TxOut>) {
    forall i :: 0 <= i < |outs| ==> ValidOut(outs[i])
  }

  // -------------------------------------------------------------------- writing

  function Unsigned(v: int, modulus: nat): (r: nat)
    requires modulus > 0
  {
    v % modulus
  }

  function Signed(v: nat, modulus: nat): (r: int) {
    if v < modulus / 2 then v else v - modulus
  }

  /** WriteCompactSize on a 64-bit size. */
  function CompactSize(n: nat): (r: Bytes)
  {
    if n < 253 then [SizeByte(n)]
    else if n <= 0xffff then [253] + LE(n, 2)
    else if n <= 0xffff_ffff then [254] + LE(n, 4)
    else [255] + LE(n, 8)
  }

  /** GetSizeOfCompactSize. */
  function SizeOfCompactSize(n: nat): (r: nat) {
    if n < 253 then 1 else if n <= 0xffff then 3 else if n <= 0xffff_ffff then 5 else 9
  }

  function WriteScript(s: Script): (r: Bytes)
  {
    CompactSize(|s|) + s
  }

  function WriteOutPoint(p: OutPoint): Bytes { p.hash + LE(p.n, 4) }

  function WriteIn(i: TxIn): Bytes
  {
    WriteOutPoint(i.prevout) + (WriteScript(i.scriptSig) + LE(i.nSequence, 4))
  }

  function WriteOut(o: TxOut): Bytes
  {
    LE(Unsigned(o.nValue, UINT64), 8) + WriteScript(o.scriptPubKey)
  }

  function WriteIns(ins: seq<TxIn>): Bytes
  {
    if ins == [] then [] else WriteIn(ins[0]) + WriteIns(ins[1..])
  }

  function WriteOuts(outs: seq<TxOut>): Bytes
  {
    if outs == [] then [] else WriteOut(outs[0]) + WriteOuts(outs[1..])
  }

  /** CTransaction::Serialize. */
  function WriteTx(t: Tx): Bytes
  {
    LE(Unsigned(t.nVersion, UINT32), 4) +
    (CompactSize(|t.vin|) + (WriteIns(t.vin) +
    (CompactSize(|t.vout|) + (WriteOuts(t.vout) + LE(t.nLockTime, 4)))))
  }

  // -------------------------------------------------------------------- the size

  function SizeOfIn(i: TxIn): nat { 36 + SizeOfCompactSize(|i.scriptSig|) + |i.scriptSig| + 4 }

  function SizeOfOut(o: TxOut): nat { 8 + SizeOfCompactSize(|o.scriptPubKey|) + |o.scriptPubKey| }

  function SizeOfIns(ins: seq<TxIn>): nat {
    if ins == [] then 0 else SizeOfIn(ins[0]) + SizeOfIns(ins[1..])
  }

  function SizeOfOuts(outs: seq<TxOut>): nat {
    if outs == [] then 0 else SizeOfOut(outs[0]) + SizeOfOuts(outs[1..])
  }

  /** CTransaction::GetSerializeSize, the basis of the fee. */
  function SizeOfTx(t: Tx): nat {
    4 + SizeOfCompactSize(|t.vin|) + SizeOfIns(t.vin) + SizeOfCompactSize(|t.vout|) + SizeOfOuts(t.vout) + 4
  }

  lemma {:induction false} InsSize(ins: seq<TxIn>)
    requires ValidIns(ins)
    ensures |WriteIns(ins)| == SizeOfIns(ins)
  {
    if ins != [] {
      InsSize(ins[1..]);
    }
  }

  lemma {:induction false} OutsSize(outs: seq<TxOut>)
    requires ValidOuts(outs)
    ensures |WriteOuts(outs)| == SizeOfOuts(outs)
  {
    if outs != [] {
      OutsSize(outs[1..]);
    }
  }

  /** GetSerializeSize is the number of bytes written. */
  lemma SizeIsLength(t: Tx)
    requires ValidTx(t)
    ensures |WriteTx(t)| == SizeOfTx(t)
  {
    InsSize(t.vin);
    OutsSize(t.vout);
  }

  lemma {:induction false} InsSnoc(ins: seq<TxIn>, k: nat)
    requires k < |ins|
    ensures WriteIns(ins[..k + 1]) == WriteIns(ins[..k]) + WriteIn(ins[k])
  {
    hide WriteIn;
    if k == 0 {
      assert ins[..1][1..] == [] && ins[..0] == [];
      Sequences.NothingAround(WriteIn(ins[0]));
    } else {
      InsSnoc(ins[1..], k - 1);
      assert ins[..k + 1][1..] == ins[1..][..k] && ins[..k][1..] == ins[1..][..k - 1];
      Sequences.Assoc(WriteIn(ins[0]), WriteIns(ins[1..][..k - 1]), WriteIn(ins[k]));
    }
  }

  lemma {:induction false} OutsSnoc(outs: seq<TxOut>, k: nat)
    requires k < |outs|
    ensures WriteOuts(outs[..k + 1]) == WriteOuts(outs[..k]) + WriteOut(outs[k])
  {
    hide WriteOut;
    if k == 0 {
      assert outs[..1][1..] == [] && outs[..0] == [];
      Sequences.NothingAround(WriteOut(outs[0]));
    } else {
      OutsSnoc(outs[1..], k - 1);
      assert outs[..k + 1][1..] == outs[1..][..k] && outs[..k][1..] == outs[1..][..k - 1];
      Sequences.Assoc(WriteOut(outs[0]), WriteOuts(outs[1..][..k - 1]), WriteOut(outs[k]));
    }
  }

  // -------------------------------------------------------------------- reading

  datatype Parsed<T> = Failed | Read(value: T, rest: Bytes)

  /** READDATA of `n` bytes; the stream throws when they are not there. */
  function ReadBytes(b: Bytes, n: nat): (r: Parsed<Bytes>) {
    if n <= |b| then Read(b[..n], b[n..]) else Failed
  }

  function ReadUint(b: Bytes, n: nat): (r: Parsed<nat>) {
    if n <= |b| then Read(FromLE(b[..n]), b[n..]) else Failed
  }

  /** ReadCompactSize: only the shortest form, and nothing above MAX_SIZE. */
  function ReadCompactSize(b: Bytes): (r: Parsed<nat>) {
    match ReadUint(b, 1)
    case Failed => Failed
    case Read(ch, t) =>
      if ch < 253 then Read(ch, t)
      else
        var width, least := if ch == 253 then 2 else if ch == 254 then 4 else 8,
                            if ch == 253 then 253 else if ch == 254 then 0x1_0000 else 0x1_0000_0000;
        match ReadUint(t, width)
        case Failed => Failed
        case Read(n, u) => if n < least || n > MAX_SIZE then Failed else Read(n, u)
  }

  function ReadScript(b: Bytes): (r: Parsed<Script>) {
    match ReadCompactSize(b)
    case Failed => Failed
    case Read(n, t) => ReadBytes(t, n)
  }

  function ReadIn(b: Bytes): (r: Parsed<TxIn>) {
    match ReadBytes(b, 32)
    case Failed => Failed
    case Read(hash, b1) =>
    match ReadUint(b1, 4)
    case Failed => Failed
    case Read(n, b2) =>
    match ReadScript(b2)
    case Failed => Failed
    case Read(sig, b3) =>
    match ReadUint(b3, 4)
    case Failed => Failed
    case Read(s, b4) => Read(TxIn(OutPoint(hash, n), sig, s), b4)
  }

  function ReadOut(b: Bytes): (r: Parsed<TxOut>) {
    match ReadUint(b, 8)
    case Failed => Failed
    case Read(v, b1) =>
    match ReadScript(b1)
    case Failed => Failed
    case Read(spk, b2) => Read(TxOut(Signed(v, UINT64), spk), b2)
  }

  function ReadIns(b: Bytes, n: nat): (r: Parsed<seq<TxIn>>) {
    if n == 0 then Read([], b)
    else match ReadIn(b)
      case Failed => Failed
      case Read(i, t) =>
      match ReadIns(t, n - 1)
      case Failed => Failed
      case Read(ins, u) => Read([i] + ins, u)
  }

  function ReadOuts(b: Bytes, n: nat): (r: Parsed<seq<TxOut>>) {
    if n == 0 then Read([], b)
    else match ReadOut(b)
      case Failed => Failed
      case Read(o, t) =>
      match ReadOuts(t, n - 1)
      case Failed => Failed
      case Read(outs, u) => Read([o] + outs, u)
  }

  /** CTransaction::Unserialize. */
  function ReadTx(b: Bytes): (r: Parsed<Tx>) {
    match ReadUint(b, 4)
    case Failed => Failed
    case Read(version, b1) =>
    match ReadCompactSize(b1)
    case Failed => Failed
    case Read(nIn, b2) =>
    match ReadIns(b2, nIn)
    case Failed => Failed
    case Read(vin, b3) =>
    match ReadCompactSize(b3)
    case Failed => Failed
    case Read(nOut, b4) =>
    match ReadOuts(b4, nOut)
    case Failed => Failed
    case Read(vout, b5) =>
    match ReadUint(b5, 4)
    case Failed => Failed
    case Read(lockTime, b6) => Read(Tx(Signed(version, UINT32), vin, vout, lockTime), b6)
  }

  // ------------------------------------------------------------------ round trips

  lemma ReadWritten(u: Bytes, rest: Bytes)
    ensures ReadBytes(u + rest, |u|) == Read(u, rest)
  {
    Sequences.TakeDrop(u, rest);
  }

  lemma ReadWrittenUint(v: nat, n: nat, rest: Bytes)
    requires v < Pow256(n)
    ensures ReadUint(LE(v, n) + rest, n) == Read(v, rest)
  {
    Sequences.TakeDrop(LE(v, n), rest);
    FromLEofLE(v, n);
  }

  lemma CompactSizeRoundTrip(n: nat, rest: Bytes)
    requires n <= MAX_SIZE
    ensures ReadCompactSize(CompactSize(n) + rest) == Read(n, rest)
  {
    SmallPowers();
    if n < 253 {
      OneByteSize(n);
      ReadWrittenUint(n, 1, rest);
    } else {
      var tag, width := if n <= 0xffff then 253 else 254, if n <= 0xffff then 2 else 4;
      OneByteSize(tag);
      Sequences.Assoc([SizeByte(tag)], LE(n, width), rest);
      ReadWrittenUint(tag, 1, LE(n, width) + rest);
      ReadWrittenUint(n, width, rest);
    }
  }

  lemma ScriptRoundTrip(s: Script, rest: Bytes)
    requires |s| <= MAX_SIZE
    ensures ReadScript(WriteScript(s) + rest) == Read(s, rest)
  {
    Sequences.Assoc(CompactSize(|s|), s, rest);
    CompactSizeRoundTrip(|s|, s + rest);
    ReadWritten(s, rest);
  }

  lemma InRoundTrip(i: TxIn, rest: Bytes)
    requires ValidIn(i)
    ensures ReadIn(WriteIn(i) + rest) == Read(i, rest)
  {
    SmallPowers();
    var s := LE(i.nSequence, 4) + rest;
    var t := WriteScript(i.scriptSig) + s;
    Sequences.Assoc(WriteOutPoint(i.prevout), WriteScript(i.scriptSig) + LE(i.nSequence, 4), rest);
    Sequences.Assoc(WriteScript(i.scriptSig), LE(i.nSequence, 4), rest);
    Sequences.Assoc(i.prevout.hash, LE(i.prevout.n, 4), t);
    ReadWritten(i.prevout.hash, LE(i.prevout.n, 4) + t);
    ReadWrittenUint(i.prevout.n, 4, t);
    ScriptRoundTrip(i.scriptSig, s);
    ReadWrittenUint(i.nSequence, 4, rest);
  }

  lemma SignedUnsigned(v: int, modulus: nat)
    requires modulus == UINT32 || modulus == UINT64
    requires -(modulus as int / 2) <= v < modulus as int / 2
    ensures Unsigned(v, modulus) < modulus && Signed(Unsigned(v, modulus), modulus) == v
  {
  }

  lemma OutRoundTrip(o: TxOut, rest: Bytes)
    requires ValidOut(o)
    ensures ReadOut(WriteOut(o) + rest) == Read(o, rest)
  {
    SmallPowers();
    var v := Unsigned(o.nValue, UINT64);
    SignedUnsigned(o.nValue, UINT64);
    Sequences.Assoc(LE(v, 8), WriteScript(o.scriptPubKey), rest);
    ReadWrittenUint(v, 8, WriteScript(o.scriptPubKey) + rest);
    ScriptRoundTrip(o.scriptPubKey, rest);
  }

  lemma {:induction false} InsRoundTrip(ins: seq<TxIn>, rest: Bytes)
    requires ValidIns(ins)
    ensures ReadIns(WriteIns(ins) + rest, |ins|) == Read(ins, rest)
  {
    hide ReadIn, WriteIn;
    if ins == [] {
      assert WriteIns(ins) + rest == rest;
    } else {
      Sequences.Assoc(WriteIn(ins[0]), WriteIns(ins[1..]), rest);
      InRoundTrip(ins[0], WriteIns(ins[1..]) + rest);
      InsRoundTrip(ins[1..], rest);
      assert ins == [ins[0]] + ins[1..];
    }
  }

  lemma {:induction false} OutsRoundTrip(outs: seq<TxOut>, rest: Bytes)
    requires ValidOuts(outs)
    ensures ReadOuts(WriteOuts(outs) + rest, |outs|) == Read(outs, rest)
  {
    hide ReadOut, WriteOut;
    if outs == [] {
      assert WriteOuts(outs) + rest == rest;
    } else {
      Sequences.Assoc(WriteOut(outs[0]), WriteOuts(outs[1..]), rest);
      OutRoundTrip(outs[0], WriteOuts(outs[1..]) + rest);
      OutsRoundTrip(outs[1..], rest);
      assert outs == [outs[0]] + outs[1..];
    }
  }

  /** Unserialize undoes Serialize and leaves the bytes that follow untouched. */
  lemma TxRoundTrip(t: Tx, rest: Bytes)
    requires ValidTx(t)
    ensures ReadTx(WriteTx(t) + rest) == Read(t, rest)
  {
    SmallPowers();
    var e := LE(t.nLockTime, 4);
    var d := WriteOuts(t.vout) + e;
    var c := CompactSize(|t.vout|) + d;
    var b := WriteIns(t.vin) + c;
    var a := CompactSize(|t.vin|) + b;
    var version := Unsigned(t.nVersion, UINT32);
    SignedUnsigned(t.nVersion, UINT32);
    Sequences.Assoc(LE(version, 4), a, rest);
    Sequences.Assoc(CompactSize(|t.vin|), b, rest);
    Sequences.Assoc(WriteIns(t.vin), c, rest);
    Sequences.Assoc(CompactSize(|t.vout|), d, rest);
    Sequences.Assoc(WriteOuts(t.vout), e, rest);
    ReadWrittenUint(version, 4, a + rest);
    CompactSizeRoundTrip(|t.vin|, b + rest);
    InsRoundTrip(t.vin, c + rest);
    CompactSizeRoundTrip(|t.vout|, d + rest);
    OutsRoundTrip(t.vout, e + rest);
    ReadWrittenUint(t.nLockTime, 4, rest);
  }

  /** No two transactions share their bytes, not even as a beginning of a longer string. */
  lemma TxBytesUnique(t: Tx, u: Tx, x: Bytes, y: Bytes)
    requires ValidTx(t) && ValidTx(u) && WriteTx(t) + x == WriteTx(u) + y
    ensures t == u && x == y
  {
    TxRoundTrip(t, x);
    TxRoundTrip(u, y);
  }
}
