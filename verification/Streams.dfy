/** The byte stream, transactions written to it and read from it, and their hex form
    (src/lib/core/serialize.h:153-240, 483-560, 804-1040, src/lib/bms/Utilities.cpp:374-399). */
module Streams {
  import opened Bits
  import opened Options
  import opened Script
  import opened Transactions
  import Sequences

  const CHUNK := 5_000_000

  /** CDataStream: bytes are appended at the end and read from nReadPos on. */
  class DataStream {
    var vch: Bytes
    var nReadPos: nat

    predicate Valid()
      reads this
    {
      nReadPos <= |vch| < 0x8000_0000
    }

    /** What is still to be read. */
    function Contents(): (r: Bytes)
      reads this
      requires Valid()
    {
      vch[nReadPos..]
    }

    constructor (data: Bytes)
      requires |data| < 0x8000_0000
      ensures Valid() && Contents() == data && vch == data
    {
      vch, nReadPos := data, 0;
    }

    /** read: once everything has been read the buffer is cleared; nothing changes when it throws. */
    method Read(nSize: nat) returns (r: Option<Bytes>)
      requires Valid() && nSize < 0x8000_0000
      modifies this
      ensures Valid() && |vch| <= |old(vch)|
      ensures r.None? <==> nSize > |old(Contents())|
      ensures r.None? ==> Contents() == old(Contents())
      ensures r.Some? ==> |r.value| == nSize && old(Contents()) == r.value + Contents()
    {
      var nReadPosNext := nReadPos + nSize;
      if nReadPosNext >= |vch| {
        if nReadPosNext > |vch| {
          return None;
        }
        r := Some(vch[nReadPos..nReadPosNext]);
        Sequences.NothingAround(r.value);
        nReadPos := 0;
        vch := [];
        return;
      }
      r := Some(vch[nReadPos..nReadPosNext]);
      assert vch[nReadPos..] == r.value + vch[nReadPosNext..];
      nReadPos := nReadPosNext;
    }

    method Write(data: Bytes)
      requires Valid() && |vch| + |data| < 0x8000_0000
      modifies this
      ensures Valid() && Contents() == old(Contents()) + data && |vch| == |old(vch)| + |data|
    {
      vch := vch + data;
    }

    method ReadUint(n: nat) returns (r: Option<nat>)
      requires Valid() && n <= 8
      modifies this
      ensures Valid() && |vch| <= |old(vch)|
      ensures Reads(Transactions.ReadUint(old(Contents()), n), r, Contents())
    {
      var bytes := Read(n);
      if bytes.None? {
        return None;
      }
      Sequences.TakeDrop(bytes.value, Contents());
      r := Some(FromLE(bytes.value));
    }

    method WriteCompactSize(nSize: nat)
      requires Valid() && nSize < UINT64 && |vch| + |CompactSize(nSize)| < 0x8000_0000
      modifies this
      ensures Valid() && Contents() == old(Contents()) + CompactSize(nSize)
      ensures |vch| == |old(vch)| + |CompactSize(nSize)|
    {
      if nSize < 253 {
        Write([nSize]);
      } else if nSize <= 0xffff {
        Write([253]);
        Write(LE(nSize, 2));
        Sequences.Assoc(old(Contents()), [253], LE(nSize, 2));
      } else if nSize <= 0xffff_ffff {
        Write([254]);
        Write(LE(nSize, 4));
        Sequences.Assoc(old(Contents()), [254], LE(nSize, 4));
      } else {
        Write([255]);
        Write(LE(nSize, 8));
        Sequences.Assoc(old(Contents()), [255], LE(nSize, 8));
      }
    }

    method ReadCompactSize() returns (r: Option<nat>)
      requires Valid()
      modifies this
      ensures Valid() && |vch| <= |old(vch)|
      ensures Reads(Transactions.ReadCompactSize(old(Contents())), r, Contents())
      ensures r.Some? ==> r.value <= MAX_SIZE
    {
      var chSize := ReadUint(1);
      if chSize.None? {
        return None;
      }
      if chSize.value < 253 {
        return chSize;
      }
      var xSize;
      var least := 253;
      if chSize.value == 253 {
        xSize := ReadUint(2);
      } else if chSize.value == 254 {
        xSize := ReadUint(4);
        least := 0x1_0000;
      } else {
        xSize := ReadUint(8);
        least := 0x1_0000_0000;
      }
      if xSize.None? || xSize.value < least || xSize.value > MAX_SIZE {
        return None;
      }
      return xSize;
    }

    /** A byte vector, read in chunks so that a bogus size does not claim memory at once. */
    method ReadBytesVector() returns (r: Option<Bytes>)
      requires Valid()
      modifies this
      ensures Valid() && |vch| <= |old(vch)|
      ensures Reads(ReadScript(old(Contents())), r, Contents())
    {
      var nSize := ReadCompactSize();
      if nSize.None? {
        return None;
      }
      var v: Bytes := [];
      ghost var start := Contents();
      Sequences.NothingAround(start);
      while |v| < nSize.value
        invariant Valid() && |vch| <= |old(vch)| && |v| <= nSize.value && start == v + Contents()
        decreases nSize.value - |v|
      {
        var blk := if nSize.value - |v| < CHUNK then nSize.value - |v| else CHUNK;
        var chunk := Read(blk);
        if chunk.None? {
          return None;
        }
        Sequences.Assoc(v, chunk.value, Contents());
        v := v + chunk.value;
      }
      Sequences.TakeDrop(v, Contents());
      return Some(v);
    }

    method WriteBytesVector(v: Bytes)
      requires Valid() && |v| < UINT32 && |vch| + |WriteScript(v)| < 0x8000_0000
      modifies this
      ensures Valid() && Contents() == old(Contents()) + WriteScript(v)
      ensures |vch| == |old(vch)| + |WriteScript(v)|
    {
      WriteCompactSize(|v|);
      Write(v);
      Sequences.Assoc(old(Contents()), CompactSize(|v|), v);
    }
  }

  /** A parse and its imperative counterpart: both fail, or they agree on value and rest. */
  ghost predicate Reads<T>(parsed: Parsed<T>, r: Option<T>, rest: Bytes) {
    match parsed
    case Failed => r.None?
    case Read(v, t) => r == Some(v) && rest == t
  }

  // ------------------------------------------------------------------ transactions

  method SerializeIn(s: DataStream, i: TxIn)
    requires s.Valid() && ValidIn(i) && |s.vch| + |WriteIn(i)| < 0x8000_0000
    modifies s
    ensures s.Valid() && s.Contents() == old(s.Contents()) + WriteIn(i) && |s.vch| == |old(s.vch)| + |WriteIn(i)|
  {
    var c := s.Contents();
    s.Write(i.prevout.hash);
    s.Write(LE(i.prevout.n, 4));
    Sequences.Assoc(c, i.prevout.hash, LE(i.prevout.n, 4));
    s.WriteBytesVector(i.scriptSig);
    Sequences.Assoc(c, WriteOutPoint(i.prevout), WriteScript(i.scriptSig));
    s.Write(LE(i.nSequence, 4));
    Sequences.Assoc(WriteOutPoint(i.prevout), WriteScript(i.scriptSig), LE(i.nSequence, 4));
    Sequences.Assoc(c, WriteOutPoint(i.prevout) + WriteScript(i.scriptSig), LE(i.nSequence, 4));
  }

  method SerializeOut(s: DataStream, o: TxOut)
    requires s.Valid() && ValidOut(o) && |s.vch| + |WriteOut(o)| < 0x8000_0000
    modifies s
    ensures s.Valid() && s.Contents() == old(s.Contents()) + WriteOut(o) && |s.vch| == |old(s.vch)| + |WriteOut(o)|
  {
    var c := s.Contents();
    var v := LE(Unsigned(o.nValue, UINT64), 8);
    s.Write(v);
    s.WriteBytesVector(o.scriptPubKey);
    Sequences.Assoc(c, v, WriteScript(o.scriptPubKey));
  }

  method UnserializeIn(s: DataStream) returns (r: Option<TxIn>)
    requires s.Valid()
    modifies s
    ensures s.Valid() && |s.vch| <= |old(s.vch)| && Reads(ReadIn(old(s.Contents())), r, s.Contents())
  {
    hide Transactions.ReadScript, Transactions.ReadUint, FromLE;
    ghost var c := s.Contents();
    var hash := s.Read(32);
    if hash.None? {
      return None;
    }
    Sequences.TakeDrop(hash.value, s.Contents());
    assert ReadBytes(c, 32) == Read(hash.value, s.Contents());
    var n := s.ReadUint(4);
    if n.None? {
      return None;
    }
    var scriptSig := s.ReadBytesVector();
    if scriptSig.None? {
      return None;
    }
    var nSequence := s.ReadUint(4);
    if nSequence.None? {
      return None;
    }
    return Some(TxIn(OutPoint(hash.value, n.value), scriptSig.value, nSequence.value));
  }

  method UnserializeOut(s: DataStream) returns (r: Option<TxOut>)
    requires s.Valid()
    modifies s
    ensures s.Valid() && |s.vch| <= |old(s.vch)| && Reads(ReadOut(old(s.Contents())), r, s.Contents())
  {
    hide Transactions.ReadScript, Transactions.ReadUint, FromLE;
    var nValue := s.ReadUint(8);
    if nValue.None? {
      return None;
    }
    var scriptPubKey := s.ReadBytesVector();
    if scriptPubKey.None? {
      return None;
    }
    return Some(TxOut(Signed(nValue.value, UINT64), scriptPubKey.value));
  }

  lemma {:induction false} InsPrefixSize(ins: seq<TxIn>, k: nat)
    requires k <= |ins|
    ensures |WriteIns(ins[..k])| <= |WriteIns(ins)|
    decreases |ins| - k
  {
    if k < |ins| {
      InsSnoc(ins, k);
      InsPrefixSize(ins, k + 1);
    } else {
      assert ins[..k] == ins;
    }
  }

  lemma {:induction false} OutsPrefixSize(outs: seq<TxOut>, k: nat)
    requires k <= |outs|
    ensures |WriteOuts(outs[..k])| <= |WriteOuts(outs)|
    decreases |outs| - k
  {
    if k < |outs| {
      OutsSnoc(outs, k);
      OutsPrefixSize(outs, k + 1);
    } else {
      assert outs[..k] == outs;
    }
  }

  method SerializeIns(s: DataStream, ins: seq<TxIn>)
    requires s.Valid() && ValidIns(ins) && |s.vch| + |WriteIns(ins)| < 0x8000_0000
    modifies s
    ensures s.Valid() && s.Contents() == old(s.Contents()) + WriteIns(ins) && |s.vch| == |old(s.vch)| + |WriteIns(ins)|
  {
    hide WriteIn, WriteIns;
    ghost var c, n := s.Contents(), |s.vch|;
    NoIns(ins, c);
    for k := 0 to |ins|
      invariant s.Valid() && s.Contents() == c + WriteIns(ins[..k]) && |s.vch| == n + |WriteIns(ins[..k])|
    {
      InsSnoc(ins, k);
      InsPrefixSize(ins, k + 1);
      Sequences.Assoc(c, WriteIns(ins[..k]), WriteIn(ins[k]));
      SerializeIn(s, ins[k]);
    }
    assert ins[..|ins|] == ins;
  }

  lemma NoIns(ins: seq<TxIn>, c: Bytes)
    ensures WriteIns(ins[..0]) == [] && c == c + WriteIns(ins[..0])
  {
    assert ins[..0] == [];
  }

  lemma NoOuts(outs: seq<TxOut>, c: Bytes)
    ensures WriteOuts(outs[..0]) == [] && c == c + WriteOuts(outs[..0])
  {
    assert outs[..0] == [];
  }

  method SerializeOuts(s: DataStream, outs: seq<TxOut>)
    requires s.Valid() && ValidOuts(outs) && |s.vch| + |WriteOuts(outs)| < 0x8000_0000
    modifies s
    ensures s.Valid() && s.Contents() == old(s.Contents()) + WriteOuts(outs)
    ensures |s.vch| == |old(s.vch)| + |WriteOuts(outs)|
  {
    hide WriteOut, WriteOuts;
    ghost var c, n := s.Contents(), |s.vch|;
    NoOuts(outs, c);
    for k := 0 to |outs|
      invariant s.Valid() && s.Contents() == c + WriteOuts(outs[..k]) && |s.vch| == n + |WriteOuts(outs[..k])|
    {
      OutsSnoc(outs, k);
      OutsPrefixSize(outs, k + 1);
      Sequences.Assoc(c, WriteOuts(outs[..k]), WriteOut(outs[k]));
      SerializeOut(s, outs[k]);
    }
    assert outs[..|outs|] == outs;
  }

  /** Serialize writes exactly WriteTx. */
  method Serialize(s: DataStream, t: Tx)
    requires s.Valid() && ValidTx(t) && |s.vch| + SizeOfTx(t) < 0x8000_0000
    modifies s
    ensures s.Valid() && s.Contents() == old(s.Contents()) + WriteTx(t)
  {
    hide WriteIns, WriteOuts, SizeOfIns, SizeOfOuts;
    InsSize(t.vin);
    OutsSize(t.vout);
    ghost var c := s.Contents();
    ghost var parts: seq<Bytes> := [LE(Unsigned(t.nVersion, UINT32), 4), CompactSize(|t.vin|), WriteIns(t.vin),
                                    CompactSize(|t.vout|), WriteOuts(t.vout), LE(t.nLockTime, 4)];
    s.Write(LE(Unsigned(t.nVersion, UINT32), 4));
    s.WriteCompactSize(|t.vin|);
    SerializeIns(s, t.vin);
    s.WriteCompactSize(|t.vout|);
    SerializeOuts(s, t.vout);
    s.Write(LE(t.nLockTime, 4));
    JoinParts(c, parts[0], parts[1], parts[2], parts[3], parts[4], parts[5]);
  }

  lemma JoinParts(c: Bytes, p: Bytes, q: Bytes, r: Bytes, u: Bytes, v: Bytes, w: Bytes)
    ensures c + p + q + r + u + v + w == c + (p + (q + (r + (u + (v + w)))))
  {
    Sequences.Assoc(c + p + q + r + u, v, w);
    Sequences.Assoc(c + p + q + r, u, v + w);
    Sequences.Assoc(c + p + q, r, u + (v + w));
    Sequences.Assoc(c + p, q, r + (u + (v + w)));
    Sequences.Assoc(c, p, q + (r + (u + (v + w))));
  }

  /** What reading `n` more elements makes of those that have been read. */
  ghost function PrependIns(ins: seq<TxIn>, more: Parsed<seq<TxIn>>): (r: Parsed<seq<TxIn>>) {
    match more
    case Failed => Failed
    case Read(v, rest) => Read(ins + v, rest)
  }

  ghost function PrependOuts(outs: seq<TxOut>, more: Parsed<seq<TxOut>>): (r: Parsed<seq<TxOut>>) {
    match more
    case Failed => Failed
    case Read(v, rest) => Read(outs + v, rest)
  }

  lemma OneMoreIn(ins: seq<TxIn>, b: Bytes, n: nat)
    requires n > 0
    ensures match ReadIn(b)
            case Failed => PrependIns(ins, ReadIns(b, n)) == Failed
            case Read(i, rest) => PrependIns(ins, ReadIns(b, n)) == PrependIns(ins + [i], ReadIns(rest, n - 1))
  {
    hide ReadIn;
    match ReadIn(b)
    case Failed =>
    case Read(i, rest) =>
      match ReadIns(rest, n - 1)
      case Failed =>
      case Read(v, t) => Sequences.Assoc(ins, [i], v);
  }

  lemma OneMoreOut(outs: seq<TxOut>, b: Bytes, n: nat)
    requires n > 0
    ensures match ReadOut(b)
            case Failed => PrependOuts(outs, ReadOuts(b, n)) == Failed
            case Read(o, rest) => PrependOuts(outs, ReadOuts(b, n)) == PrependOuts(outs + [o], ReadOuts(rest, n - 1))
  {
    hide ReadOut;
    match ReadOut(b)
    case Failed =>
    case Read(o, rest) =>
      match ReadOuts(rest, n - 1)
      case Failed =>
      case Read(v, t) => Sequences.Assoc(outs, [o], v);
  }

  lemma NothingRead(b: Bytes, n: nat)
    ensures PrependIns([], ReadIns(b, n)) == ReadIns(b, n) && PrependOuts([], ReadOuts(b, n)) == ReadOuts(b, n)
    ensures ReadIns(b, 0) == Read([], b) && ReadOuts(b, 0) == Read([], b)
  {
    hide ReadIn, ReadOut;
    match ReadIns(b, n) {
      case Failed =>
      case Read(v, _) => Sequences.NothingAround(v);
    }
    match ReadOuts(b, n) {
      case Failed =>
      case Read(v, _) => Sequences.NothingAround(v);
    }
  }

  method UnserializeIns(s: DataStream, count: nat) returns (r: Option<seq<TxIn>>)
    requires s.Valid()
    modifies s
    ensures s.Valid() && |s.vch| <= |old(s.vch)| && Reads(ReadIns(old(s.Contents()), count), r, s.Contents())
  {
    hide ReadIn, ReadIns;
    ghost var start := s.Contents();
    var ins: seq<TxIn> := [];
    NothingRead(start, count);
    for k := 0 to count
      invariant s.Valid() && |s.vch| <= |old(s.vch)|
      invariant PrependIns(ins, ReadIns(s.Contents(), count - k)) == ReadIns(start, count)
    {
      OneMoreIn(ins, s.Contents(), count - k);
      var i := UnserializeIn(s);
      if i.None? {
        return None;
      }
      ins := ins + [i.value];
    }
    NothingRead(s.Contents(), 0);
    Sequences.NothingAround(ins);
    return Some(ins);
  }

  method UnserializeOuts(s: DataStream, count: nat) returns (r: Option<seq<TxOut>>)
    requires s.Valid()
    modifies s
    ensures s.Valid() && |s.vch| <= |old(s.vch)| && Reads(ReadOuts(old(s.Contents()), count), r, s.Contents())
  {
    hide ReadOut, ReadOuts;
    ghost var start := s.Contents();
    var outs: seq<TxOut> := [];
    NothingRead(start, count);
    for k := 0 to count
      invariant s.Valid() && |s.vch| <= |old(s.vch)|
      invariant PrependOuts(outs, ReadOuts(s.Contents(), count - k)) == ReadOuts(start, count)
    {
      OneMoreOut(outs, s.Contents(), count - k);
      var o := UnserializeOut(s);
      if o.None? {
        return None;
      }
      outs := outs + [o.value];
    }
    NothingRead(s.Contents(), 0);
    Sequences.NothingAround(outs);
    return Some(outs);
  }

  /** Unserialize reads exactly what ReadTx reads, and throws where ReadTx fails. */
  method Unserialize(s: DataStream) returns (r: Option<Tx>)
    requires s.Valid()
    modifies s
    ensures s.Valid() && Reads(ReadTx(old(s.Contents())), r, s.Contents())
  {
    hide Transactions.ReadUint, Transactions.ReadCompactSize, ReadIns, ReadOuts;
    var version := s.ReadUint(4);
    if version.None? {
      return None;
    }
    var nIn := s.ReadCompactSize();
    if nIn.None? {
      return None;
    }
    var vin := UnserializeIns(s, nIn.value);
    if vin.None? {
      return None;
    }
    var nOut := s.ReadCompactSize();
    if nOut.None? {
      return None;
    }
    var vout := UnserializeOuts(s, nOut.value);
    if vout.None? {
      return None;
    }
    var lockTime := s.ReadUint(4);
    if lockTime.None? {
      return None;
    }
    return Some(Tx(Signed(version.value, UINT32), vin.value, vout.value, lockTime.value));
  }

  // ---------------------------------------------------------------- hexadecimal form

  const HexMap := "0123456789abcdef"

  /** HexDigit: the value of a digit, -1 for any other character. */
  function HexDigit(c: char): (r: int)
    ensures -1 <= r <= 15
  {
    if '0' <= c <= '9' then c as int - '0' as int
    else if 'a' <= c <= 'f' then c as int - 'a' as int + 10
    else if 'A' <= c <= 'F' then c as int - 'A' as int + 10
    else -1
  }

  /** isspace in the C locale. */
  predicate IsSpace(c: char) {
    c in {' ', '\t', '\n', '\r'} || c as int == 0x0b || c as int == 0x0c
  }

  function HexOf(b: Bytes): (r: string)
    ensures |r| == 2 * |b|
  {
    if b == [] then "" else [HexMap[b[0] / 16], HexMap[b[0] % 16]] + HexOf(b[1..])
  }

  method HexStr(b: Bytes) returns (rv: string)
    ensures rv == HexOf(b)
  {
    rv := "";
    for k := 0 to |b|
      invariant rv + HexOf(b[k..]) == HexOf(b)
    {
      var val := b[k];
      var high, low := HexMap[val / 16], HexMap[val % 16];
      assert b[k..][1..] == b[k + 1..];
      Sequences.Assoc(rv, [high, low], HexOf(b[k + 1..]));
      Sequences.Assoc(rv, [high], [low]);
      rv := rv + [high];
      rv := rv + [low];
    }
    Sequences.NothingAround(rv);
  }

  /** ParseHex: pairs of digits, spaces before a pair allowed, up to the first other character. */
  function BytesOf(s: string): (r: Bytes)
    decreases |s|
  {
    if s == "" then []
    else if IsSpace(s[0]) then BytesOf(s[1..])
    else if HexDigit(s[0]) == -1 || |s| == 1 || HexDigit(s[1]) == -1 then []
    else [ByteOf(s[0], s[1])] + BytesOf(s[2..])
  }

  method ParseHex(s: string) returns (vch: Bytes)
    ensures vch == BytesOf(s)
  {
    hide HexDigit, IsSpace, BytesOf;
    vch := [];
    var i := 0;
    Sequences.NothingAround(BytesOf(s));
    assert s[0..] == s;
    while true
      invariant 0 <= i <= |s| && vch + BytesOf(s[i..]) == BytesOf(s)
      decreases |s| - i
    {
      i := PastSpaces(s, i);
      NextByte(s, i);
      Sequences.NothingAround(vch);
      if i == |s| || HexDigit(s[i]) == -1 {
        break;
      }
      if i + 1 == |s| || HexDigit(s[i + 1]) == -1 {
        break;
      }
      var n := ByteOf(s[i], s[i + 1]);
      Sequences.Assoc(vch, [n], BytesOf(s[i + 2..]));
      vch := vch + [n];
      i := i + 2;
    }
  }

  /** The two digits of a byte. */
  function ByteOf(high: char, low: char): (r: Byte)
    requires HexDigit(high) >= 0 && HexDigit(low) >= 0
  {
    SizeByte(16 * HexDigit(high) + HexDigit(low))
  }

  method PastSpaces(s: string, from: nat) returns (i: nat)
    requires from <= |s|
    ensures from <= i <= |s| && BytesOf(s[i..]) == BytesOf(s[from..]) && (i < |s| ==> !IsSpace(s[i]))
  {
    hide HexDigit, IsSpace;
    i := from;
    while i < |s| && IsSpace(s[i])
      invariant from <= i <= |s| && BytesOf(s[i..]) == BytesOf(s[from..])
    {
      assert s[i..][1..] == s[i + 1..];
      i := i + 1;
    }
  }

  lemma NextByte(s: string, i: nat)
    requires i <= |s| && (i < |s| ==> !IsSpace(s[i]))
    ensures i == |s| || HexDigit(s[i]) == -1 || i + 1 == |s| || HexDigit(s[i + 1]) == -1 ==> BytesOf(s[i..]) == []
    ensures i + 1 < |s| && HexDigit(s[i]) >= 0 && HexDigit(s[i + 1]) >= 0 ==>
              BytesOf(s[i..]) == [ByteOf(s[i], s[i + 1])] + BytesOf(s[i + 2..])
  {
    hide HexDigit, IsSpace;
    if i + 1 < |s| {
      assert s[i..][0] == s[i] && s[i..][1] == s[i + 1] && s[i..][2..] == s[i + 2..];
    }
  }

  lemma DigitOf(d: nat)
    requires d < 16
    ensures HexDigit(HexMap[d]) == d && !IsSpace(HexMap[d])
  {
    if d == 0 {} else if d == 1 {} else if d == 2 {} else if d == 3 {} else if d == 4 {} else if d == 5 {}
    else if d == 6 {} else if d == 7 {} else if d == 8 {} else if d == 9 {} else if d == 10 {}
    else if d == 11 {} else if d == 12 {} else if d == 13 {} else if d == 14 {}
  }

  /** Bytes are read back from their hex form. */
  lemma {:induction false} HexRoundTrip(b: Bytes)
    ensures BytesOf(HexOf(b)) == b
  {
    hide HexDigit, IsSpace, BytesOf;
    if b == [] {
      NoPairs();
    } else {
      HexRoundTrip(b[1..]);
      FirstPair(b[0], HexOf(b[1..]));
      assert b == [b[0]] + b[1..];
    }
  }

  lemma NoPairs()
    ensures BytesOf("") == []
  {
  }

  lemma {:induction false} FirstPair(b: Byte, rest: string)
    ensures BytesOf([HexMap[b / 16], HexMap[b % 16]] + rest) == [b] + BytesOf(rest)
  {
    hide HexDigit, IsSpace;
    DigitOf(b / 16);
    DigitOf(b % 16);
    assert ([HexMap[b / 16], HexMap[b % 16]] + rest)[2..] == rest;
  }

  method TransactionToHexString(t: Tx) returns (ret: string)
    requires ValidTx(t) && SizeOfTx(t) < 0x8000_0000
    ensures ret == HexOf(WriteTx(t))
  {
    var ss := new DataStream([]);
    Serialize(ss, t);
    Sequences.NothingAround(WriteTx(t));
    ret := HexStr(ss.Contents());
  }

  /** The transaction in a hex string; None where the source throws. */
  method HexStringToTransaction(hex: string) returns (t: Option<Tx>)
    requires |hex| < 0x8000_0000
    ensures match ReadTx(BytesOf(hex)) case Failed => t == None case Read(u, _) => t == Some(u)
  {
    var txData := ParseHex(hex);
    BytesFewer(hex);
    var ssData := new DataStream(txData);
    t := Unserialize(ssData);
  }

  lemma {:induction false} BytesFewer(s: string)
    ensures |BytesOf(s)| <= |s|
    decreases |s|
  {
    hide HexDigit, IsSpace;
    if s != "" {
      BytesFewer(s[1..]);
      if |s| > 1 { BytesFewer(s[2..]); }
    }
  }

  /** A transaction survives its hex form. */
  lemma HexTransactionRoundTrip(t: Tx)
    requires ValidTx(t)
    ensures ReadTx(BytesOf(HexOf(WriteTx(t)))) == Read(t, [])
  {
    hide ReadTx, WriteTx;
    HexRoundTrip(WriteTx(t));
    TxRoundTrip(t, []);
    Sequences.NothingAround(WriteTx(t));
  }
}
