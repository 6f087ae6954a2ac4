/** Where the fields of a transaction stand in its bytes
    (src/lib/core/core.h:66-136, 199-206, src/lib/core/serialize.h:163-203, 506-560). */
module TransactionLayout {
  import opened Bits
  import opened Script
  import opened Transactions
  import Sequences

  // ------------------------------------------------------- little-endian numbers

  function At(w: Bytes, k: nat): (r: nat)
    requires k < |w|
  {
    w[k]
  }

  function Le2(w: Bytes, k: nat): (r: nat)
    requires k + 2 <= |w|
  {
    At(w, k) + 0x100 * At(w, k + 1)
  }

  function Le4(w: Bytes, k: nat): (r: nat)
    requires k + 4 <= |w|
  {
    At(w, k) + 0x100 * At(w, k + 1) + 0x1_0000 * At(w, k + 2) + 0x100_0000 * At(w, k + 3)
  }

  function Le8(w: Bytes, k: nat): (r: nat)
    requires k + 8 <= |w|
  {
    Le4(w, k) + 0x1_0000_0000 * Le4(w, k + 4)
  }

  // ------------------------------------------------------------------ the format

  /** The four forms of a size: one byte, or a mark and two, four or eight bytes. */
  predicate SizeAt(w: Bytes, k: nat, n: nat) {
    k + SizeOfCompactSize(n) <= |w| &&
    if n < 253 then w[k] == n
    else if n <= 0xffff then w[k] == 253 && Le2(w, k + 1) == n
    else if n <= 0xffff_ffff then w[k] == 254 && Le4(w, k + 1) == n
    else w[k] == 255 && Le8(w, k + 1) == n
  }

  predicate ScriptAt(w: Bytes, k: nat, s: Script) {
    SizeAt(w, k, |s|) && k + SizeOfCompactSize(|s|) + |s| <= |w| &&
    w[k + SizeOfCompactSize(|s|)..][..|s|] == s
  }

  /** Hash, position, signature script and sequence number. */
  predicate InAt(w: Bytes, k: nat, i: TxIn) {
    k + SizeOfIn(i) <= |w| &&
    w[k..k + 32] == i.prevout.hash && Le4(w, k + 32) == i.prevout.n && ScriptAt(w, k + 36, i.scriptSig) &&
    Le4(w, k + SizeOfIn(i) - 4) == i.nSequence
  }

  /** The value in two's complement, and the script. */
  predicate OutAt(w: Bytes, k: nat, o: TxOut) {
    k + SizeOfOut(o) <= |w| &&
    Le8(w, k) == (if o.nValue >= 0 then o.nValue else o.nValue + 0x1_0000_0000_0000_0000) &&
    ScriptAt(w, k + 8, o.scriptPubKey)
  }

  /** The inputs begin behind the version and their number. */
  function InOffset(t: Tx, i: nat): (r: nat)
    requires i <= |t.vin|
  {
    4 + SizeOfCompactSize(|t.vin|) + SizeOfIns(t.vin[..i])
  }

  /** The outputs begin behind the inputs and their own number. */
  function OutOffset(t: Tx, i: nat): (r: nat)
    requires i <= |t.vout|
  {
    InOffset(t, |t.vin|) + SizeOfCompactSize(|t.vout|) + SizeOfOuts(t.vout[..i])
  }

  predicate HasLayout(w: Bytes, t: Tx) {
    |w| == SizeOfTx(t) &&
    Le4(w, 0) == (if t.nVersion >= 0 then t.nVersion else t.nVersion + 0x1_0000_0000) &&
    SizeAt(w, 4, |t.vin|) && (forall i :: 0 <= i < |t.vin| ==> InAt(w, InOffset(t, i), t.vin[i])) &&
    SizeAt(w, InOffset(t, |t.vin|), |t.vout|) &&
    (forall i :: 0 <= i < |t.vout| ==> OutAt(w, OutOffset(t, i), t.vout[i])) &&
    Le4(w, |w| - 4) == t.nLockTime
  }

  // -------------------------------------------------------------- parts of strings

  /** The bytes `part` stand at `k`. */
  ghost predicate Has(w: Bytes, k: nat, part: Bytes) {
    k + |part| <= |w| && w[k..k + |part|] == part
  }

  /** A part of a part. */
  lemma HasPart(w: Bytes, k: nat, part: Bytes, a: Bytes, b: Bytes, c: Bytes)
    requires Has(w, k, part) && part == a + (b + c)
    ensures Has(w, k, a) && Has(w, k + |a|, b) && Has(w, k + |a| + |b|, c)
  {
    HasFront(w, k, part, a, b + c);
    HasFront(w, k + |a|, b + c, b, c);
  }

  lemma HasFront(w: Bytes, k: nat, part: Bytes, a: Bytes, b: Bytes)
    requires Has(w, k, part) && part == a + b
    ensures Has(w, k, a) && Has(w, k + |a|, b)
  {
    Sequences.TakeDrop(a, b);
    var p := w[k..k + |part|];
    assert p[..|a|] == w[k..k + |a|] && p[|a|..] == w[k + |a|..k + |a| + |b|];
  }

  lemma HasSelf(w: Bytes)
    ensures Has(w, 0, w)
  {
  }

  lemma HasByte(w: Bytes, k: nat, b: Byte)
    requires Has(w, k, [b])
    ensures k < |w| && w[k] == b
  {
    assert w[k] == w[k..k + 1][0];
  }

  // ------------------------------------------------------------------ the numbers

  lemma {:induction false} Tail(b: Bytes)
    requires b != []
    ensures FromLE(b) == b[0] + 256 * FromLE(b[1..])
  {
  }

  lemma {:induction false} Le2Is(b: Bytes)
    requires |b| == 2
    ensures FromLE(b) == Le2(b, 0)
  {
    hide FromLE;
    Tail(b);
    Tail(b[1..]);
    NoBytes(b[1..][1..]);
  }

  lemma NoBytes(b: Bytes)
    requires b == []
    ensures FromLE(b) == 0
  {
  }

  lemma {:induction false} Le4Is(b: Bytes)
    requires |b| == 4
    ensures FromLE(b) == Le4(b, 0)
  {
    hide FromLE;
    Tail(b);
    Tail(b[1..]);
    assert b[1..][1..] == b[2..];
    Le2Is(b[2..]);
  }

  lemma {:induction false} Le8Is(b: Bytes)
    requires |b| == 8
    ensures FromLE(b) == Le8(b, 0)
  {
    hide FromLE;
    Tail(b);
    Tail(b[1..]);
    Tail(b[2..]);
    Tail(b[3..]);
    assert b[1..][1..] == b[2..] && b[2..][1..] == b[3..] && b[3..][1..] == b[4..];
    Le4Is(b[4..]);
  }

  /** A number stands where its bytes do. */
  lemma NumberAt2(w: Bytes, k: nat, v: nat)
    requires Has(w, k, LE(v, 2)) && v < 0x1_0000
    ensures Le2(w, k) == v
  {
    SmallPowers();
    FromLEofLE(v, 2);
    hide LE, FromLE;
    Le2Is(w[k..k + 2]);
  }

  lemma NumberAt4(w: Bytes, k: nat, v: nat)
    requires Has(w, k, LE(v, 4)) && v < 0x1_0000_0000
    ensures Le4(w, k) == v
  {
    SmallPowers();
    FromLEofLE(v, 4);
    hide LE, FromLE;
    Le4Is(w[k..k + 4]);
  }

  lemma NumberAt8(w: Bytes, k: nat, v: nat)
    requires Has(w, k, LE(v, 8)) && v < 0x1_0000_0000_0000_0000
    ensures Le8(w, k) == v
  {
    SmallPowers();
    FromLEofLE(v, 8);
    hide LE, FromLE;
    Le8Is(w[k..k + 8]);
  }

  // -------------------------------------------------------------------- the parts

  /** The exact bytes of each of the four forms, for every 64-bit size. */
  lemma SizeLayout(w: Bytes, k: nat, n: nat)
    requires Has(w, k, CompactSize(n)) && n < 0x1_0000_0000_0000_0000
    ensures SizeAt(w, k, n) && |CompactSize(n)| == SizeOfCompactSize(n)
  {
    hide LE;
    if n < 253 {
      HasByte(w, k, SizeByte(n));
    } else {
      var mark: Bytes, number := [if n <= 0xffff then 253 else if n <= 0xffff_ffff then 254 else 255],
                                 LE(n, if n <= 0xffff then 2 else if n <= 0xffff_ffff then 4 else 8);
      Sequences.NothingAround(number);
      HasPart(w, k, CompactSize(n), mark, number, []);
      HasByte(w, k, mark[0]);
      if n <= 0xffff {
        NumberAt2(w, k + 1, n);
      } else if n <= 0xffff_ffff {
        NumberAt4(w, k + 1, n);
      } else {
        NumberAt8(w, k + 1, n);
      }
    }
  }

  lemma ScriptLayout(w: Bytes, k: nat, s: Script)
    requires Has(w, k, WriteScript(s)) && |s| <= MAX_SIZE
    ensures ScriptAt(w, k, s) && |WriteScript(s)| == SizeOfCompactSize(|s|) + |s|
  {
    hide CompactSize, SizeAt;
    Sequences.NothingAround(s);
    HasPart(w, k, WriteScript(s), CompactSize(|s|), s, []);
    SizeLayout(w, k, |s|);
    var p := k + SizeOfCompactSize(|s|);
    assert w[p..][..|s|] == w[p..p + |s|];
  }

  lemma InLayout(w: Bytes, k: nat, i: TxIn)
    requires Has(w, k, WriteIn(i)) && ValidIn(i)
    ensures InAt(w, k, i) && |WriteIn(i)| == SizeOfIn(i)
  {
    hide LE, WriteScript, ScriptAt;
    HasPart(w, k, WriteIn(i), WriteOutPoint(i.prevout), WriteScript(i.scriptSig), LE(i.nSequence, 4));
    Sequences.NothingAround(LE(i.prevout.n, 4));
    HasPart(w, k, WriteOutPoint(i.prevout), i.prevout.hash, LE(i.prevout.n, 4), []);
    NumberAt4(w, k + 32, i.prevout.n);
    ScriptLayout(w, k + 36, i.scriptSig);
    NumberAt4(w, k + SizeOfIn(i) - 4, i.nSequence);
  }

  lemma OutLayout(w: Bytes, k: nat, o: TxOut)
    requires Has(w, k, WriteOut(o)) && ValidOut(o)
    ensures OutAt(w, k, o) && |WriteOut(o)| == SizeOfOut(o)
  {
    hide LE, WriteScript, ScriptAt;
    var value := LE(Unsigned(o.nValue, UINT64), 8);
    Sequences.NothingAround(WriteScript(o.scriptPubKey));
    HasPart(w, k, WriteOut(o), value, WriteScript(o.scriptPubKey), []);
    NumberAt8(w, k, Unsigned(o.nValue, UINT64));
    ScriptLayout(w, k + 8, o.scriptPubKey);
  }

  /** Each input stands behind those before it. */
  lemma {:induction false} InsLayout(w: Bytes, k: nat, ins: seq<TxIn>, i: nat)
    requires Has(w, k, WriteIns(ins)) && ValidIns(ins) && i < |ins|
    ensures InAt(w, k + SizeOfIns(ins[..i]), ins[i])
    decreases i
  {
    hide WriteIn, InAt;
    Sequences.NothingAround(WriteIns(ins[1..]));
    HasPart(w, k, WriteIns(ins), WriteIn(ins[0]), WriteIns(ins[1..]), []);
    InLayout(w, k, ins[0]);
    if i > 0 {
      InsLayout(w, k + SizeOfIn(ins[0]), ins[1..], i - 1);
      assert ins[..i][0] == ins[0] && ins[..i][1..] == ins[1..][..i - 1];
    }
  }

  lemma {:induction false} OutsLayout(w: Bytes, k: nat, outs: seq<TxOut>, i: nat)
    requires Has(w, k, WriteOuts(outs)) && ValidOuts(outs) && i < |outs|
    ensures OutAt(w, k + SizeOfOuts(outs[..i]), outs[i])
    decreases i
  {
    hide WriteOut, OutAt;
    Sequences.NothingAround(WriteOuts(outs[1..]));
    HasPart(w, k, WriteOuts(outs), WriteOut(outs[0]), WriteOuts(outs[1..]), []);
    OutLayout(w, k, outs[0]);
    if i > 0 {
      OutsLayout(w, k + SizeOfOut(outs[0]), outs[1..], i - 1);
      assert outs[..i][0] == outs[0] && outs[..i][1..] == outs[1..][..i - 1];
    }
  }

  /** Where the six parts of a transaction stand. */
  lemma {:induction false} PartsOfTx(t: Tx)
    requires ValidTx(t)
    ensures var w, m := WriteTx(t), InOffset(t, |t.vin|);
            |w| == SizeOfTx(t) >= 4 &&
            Has(w, 0, LE(Unsigned(t.nVersion, UINT32), 4)) && Has(w, 4, CompactSize(|t.vin|)) &&
            Has(w, 4 + SizeOfCompactSize(|t.vin|), WriteIns(t.vin)) && Has(w, m, CompactSize(|t.vout|)) &&
            Has(w, m + SizeOfCompactSize(|t.vout|), WriteOuts(t.vout)) && Has(w, |w| - 4, LE(t.nLockTime, 4))
  {
    hide LE, CompactSize, WriteIns, WriteOuts, Has, SizeOfIns, SizeOfOuts;
    var w := WriteTx(t);
    var version, nIn, ins := LE(Unsigned(t.nVersion, UINT32), 4), CompactSize(|t.vin|), WriteIns(t.vin);
    var nOut, outs, lock := CompactSize(|t.vout|), WriteOuts(t.vout), LE(t.nLockTime, 4);
    SizeIsLength(t);
    InsSize(t.vin);
    OutsSize(t.vout);
    LengthOfSize(|t.vin|);
    LengthOfSize(|t.vout|);
    assert t.vin[..|t.vin|] == t.vin;
    HasSelf(w);
    HasPart(w, 0, w, version, nIn, ins + (nOut + (outs + lock)));
    var k := 4 + SizeOfCompactSize(|t.vin|);
    HasPart(w, k, ins + (nOut + (outs + lock)), ins, nOut, outs + lock);
    HasFront(w, k + |ins| + |nOut|, outs + lock, outs, lock);
  }

  lemma LengthOfSize(n: nat)
    ensures |CompactSize(n)| == SizeOfCompactSize(n)
  {
  }

  /** Every field stands at its place, and the places leave no byte between them. */
  lemma {:induction false} TxLayout(t: Tx)
    requires ValidTx(t)
    ensures HasLayout(WriteTx(t), t)
  {
    hide LE, CompactSize, WriteTx, WriteIns, WriteOuts, SizeAt, InAt, OutAt, Has, SizeOfTx;
    var w, k := WriteTx(t), 4 + SizeOfCompactSize(|t.vin|);
    PartsOfTx(t);
    NumberAt4(w, 0, Unsigned(t.nVersion, UINT32));
    SizeLayout(w, 4, |t.vin|);
    forall i | 0 <= i < |t.vin|
      ensures InAt(w, InOffset(t, i), t.vin[i])
    {
      InsLayout(w, k, t.vin, i);
    }
    var m := InOffset(t, |t.vin|);
    SizeLayout(w, m, |t.vout|);
    forall i | 0 <= i < |t.vout|
      ensures OutAt(w, OutOffset(t, i), t.vout[i])
    {
      OutsLayout(w, m + SizeOfCompactSize(|t.vout|), t.vout, i);
    }
    NumberAt4(w, |w| - 4, t.nLockTime);
  }
}
