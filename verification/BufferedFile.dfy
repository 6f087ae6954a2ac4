/** The ring buffer over a file (src/lib/core/serialize.h:1222-1364). */
module BufferedFile {
  import opened Bits
  import opened Binomials

  lemma ModForward(a: nat, o: nat, size: nat)
    requires size > 0 && a % size + o < size
    ensures (a + o) % size == a % size + o
  {
    DivMod(a, size);
    QuotientUnique(a + o, size, a / size, a % size + o);
  }

  lemma ModBack(a: nat, d: nat, size: nat)
    requires size > 0 && d <= a && d <= size
    ensures (a - d) % size == if d <= a % size then a % size - d else a % size - d + size
  {
    DivMod(a, size);
    if d <= a % size {
      QuotientUnique(a - d, size, a / size, a % size - d);
    } else {
      assert size * (a / size - 1) == size * (a / size) - size;
      QuotientUnique(a - d, size, a / size - 1, a % size - d + size);
    }
  }

  /** The position that SetPos moves to; sums are 64 bits wide. */
  function PosAfter(nPos: nat, nSrcPos: nat, nRewind: nat): (r: nat)
  {
    if Wrap(nPos + nRewind) < nSrcPos then Wrap(nSrcPos - nRewind)
    else if nPos > nSrcPos then nSrcPos
    else nPos
  }

  /** Within the rewindable part of what has been read from the file. */
  predicate Rewindable(pos: nat, nSrcPos: nat, nRewind: nat) {
    pos <= nSrcPos <= pos + nRewind
  }

  /** SetPos stays within the rewindable part exactly when no 64-bit sum wraps below it. */
  lemma SetPosStaysInside(nPos: nat, nSrcPos: nat, nRewind: nat)
    requires nPos < WORD && nSrcPos < WORD && nRewind < WORD
    ensures Rewindable(PosAfter(nPos, nSrcPos, nRewind), nSrcPos, nRewind) <==>
            nPos + nRewind < WORD || nRewind <= nSrcPos || nSrcPos <= nPos + nRewind - WORD
  {
  }

  /** A position near 2^64 with little read so far: SetPos leaves the file far beyond its end. */
  lemma SetPosCanEscape()
    ensures PosAfter(WORD - 8, 5, 10) == WORD - 5
  {
  }

  class BufferedFile {
    /** The contents of the file; reads of a reliable file deliver at least one byte before its end. */
    const source: seq<Byte>
    const reliable: bool
    const nRewind: nat
    const vchBuf: array<Byte>
    var nSrcPos: nat
    var nReadPos: nat
    var nReadLimit: nat

    /** The buffer holds the last bytes that were read from the file. */
    ghost predicate Holds()
      reads this, vchBuf
    {
      vchBuf.Length > 0 && nSrcPos <= |source| &&
      forall p :: 0 <= p < nSrcPos && nSrcPos <= p + vchBuf.Length ==> vchBuf[p % vchBuf.Length] == source[p]
    }

    /** The reading position lies in what the buffer holds. */
    ghost predicate Valid()
      reads this, vchBuf
    {
      Holds() && nReadPos <= nSrcPos <= nReadPos + vchBuf.Length &&
      vchBuf.Length < 0x1_0000_0000 && nRewind <= vchBuf.Length && |source| < WORD / 2 && nReadLimit < WORD &&
      (nRewind == vchBuf.Length ==> Unused())
    }

    /** With all of the buffer kept for rewinding nothing is ever read into it. */
    ghost predicate Unused()
      reads this, vchBuf
    {
      nSrcPos == 0 && forall k :: 0 <= k < vchBuf.Length ==> vchBuf[k] == 0
    }

    constructor (file: seq<Byte>, reliable: bool, nBufSize: nat, nRewindIn: nat)
      requires 0 < nBufSize < 0x1_0000_0000 && nRewindIn <= nBufSize && |file| < WORD / 2
      ensures Valid() && fresh(vchBuf) && nReadPos == 0 && nReadLimit == WORD - 1
      ensures source == file && this.reliable == reliable && nRewind == nRewindIn && vchBuf.Length == nBufSize
    {
      source := file;
      this.reliable := reliable;
      nRewind := nRewindIn;
      vchBuf := new Byte[nBufSize](i => 0);
      nSrcPos, nReadPos, nReadLimit := 0, 0, WORD - 1;
    }

    /** fread: any number of bytes up to `n`, none only at the end of the file or on an error. */
    method Fread(pos: nat, n: nat) returns (count: nat)
      requires Holds() && pos == nSrcPos % vchBuf.Length && 0 < n && pos + n <= vchBuf.Length
      modifies vchBuf
      ensures count <= n && nSrcPos + count <= |source|
      ensures reliable && nSrcPos < |source| ==> count > 0
      ensures forall k :: 0 <= k < vchBuf.Length ==>
                vchBuf[k] == if pos <= k < pos + count then source[nSrcPos + (k - pos)] else old(vchBuf[k])
    {
      var most := if n <= |source| - nSrcPos then n else |source| - nSrcPos;
      count :| 0 <= count <= most && (reliable && most > 0 ==> count > 0);
      forall k | 0 <= k < count {
        vchBuf[pos + k] := source[nSrcPos + k];
      }
    }

    /** Reads into the free part of the ring; `more` is false when nothing fits, and `failed` when the
        source throws. With everything read consumed, the free space is what rewinding leaves over. */
    method Fill() returns (more: bool, failed: bool)
      requires Valid() && vchBuf.Length >= nSrcPos - nReadPos + nRewind
      modifies this`nSrcPos, vchBuf
      ensures Valid() && nSrcPos >= old(nSrcPos)
      ensures more ==> nSrcPos > old(nSrcPos) && !failed
      ensures !more ==> nSrcPos == old(nSrcPos)
      ensures !more && !failed <==> vchBuf.Length == old(nSrcPos) - nReadPos + nRewind
      ensures failed ==> !(reliable && nSrcPos < |source|)
    {
      var size := vchBuf.Length;
      var pos := nSrcPos % size;
      var readNow := size - pos;
      var nAvail := size - (nSrcPos - nReadPos) - nRewind;
      if nAvail < readNow {
        readNow := nAvail;
      }
      if readNow == 0 {
        return false, false;
      }
      var count := Fread(pos, readNow);
      if count == 0 {
        Unchanged(old(vchBuf[..]));
        return false, true;
      }
      Refilled(old(vchBuf[..]), pos, count);
      nSrcPos := nSrcPos + count;
      return true, false;
    }

    lemma Unchanged(before: seq<Byte>)
      requires vchBuf.Length > 0 && nSrcPos <= |source| && before == vchBuf[..]
      requires forall p :: 0 <= p < nSrcPos && nSrcPos <= p + |before| ==> before[p % |before|] == source[p]
      ensures Holds()
    {
    }

    /** The window moves on: new bytes are in place and no byte that it still covers was overwritten. */
    lemma Refilled(before: seq<Byte>, pos: nat, count: nat)
      requires |before| == vchBuf.Length > 0 && nSrcPos + count <= |source|
      requires pos == nSrcPos % vchBuf.Length && pos + count <= vchBuf.Length
      requires forall p :: 0 <= p < nSrcPos && nSrcPos <= p + |before| ==> before[p % |before|] == source[p]
      requires forall k :: 0 <= k < vchBuf.Length ==>
                 vchBuf[k] == if pos <= k < pos + count then source[nSrcPos + (k - pos)] else before[k]
      ensures forall p :: 0 <= p < nSrcPos + count && nSrcPos + count <= p + vchBuf.Length ==>
                vchBuf[p % vchBuf.Length] == source[p]
    {
      var size := vchBuf.Length;
      forall p | 0 <= p < nSrcPos + count && nSrcPos + count <= p + size
        ensures vchBuf[p % size] == source[p]
      {
        if p < nSrcPos {
          ModBack(nSrcPos, nSrcPos - p, size);
          assert before[p % size] == source[p];
        } else {
          ModForward(nSrcPos, p - nSrcPos, size);
        }
      }
    }

    /** Reads exactly the source bytes at the current position. It fails at the limit, on requests larger
        than the buffer without its rewindable part, and at the end of the file. */
    method Read(nSize: nat) returns (ok: bool, data: seq<Byte>)
      requires Valid() && nSize < WORD / 2
      modifies this`nSrcPos, this`nReadPos, vchBuf
      ensures Valid() && nSrcPos >= old(nSrcPos) && nReadPos >= old(nReadPos)
      ensures ok ==> nReadPos == old(nReadPos) + nSize <= |source| && data == source[old(nReadPos)..nReadPos]
      ensures ok ==> old(nReadPos) + nSize <= nReadLimit && nSize + nRewind <= vchBuf.Length
      ensures reliable && old(nReadPos) + nSize <= |source| ==>
              old(nReadPos) + nSize <= nReadLimit && nSize + nRewind <= vchBuf.Length ==> ok
    {
      data := [];
      if nSize + nReadPos > nReadLimit {
        return false, data;
      }
      if nSize + nRewind > vchBuf.Length {
        return false, data;
      }
      var rest := nSize;
      ghost var start := nReadPos;
      while rest > 0
        invariant Valid() && 0 <= rest <= nSize && nReadPos == start + (nSize - rest) && nSrcPos >= old(nSrcPos)
        invariant data == source[start..nReadPos]
        decreases rest
      {
        if nReadPos == nSrcPos {
          var more, failed := Fill();
          if failed {
            return false, data;
          }
        }
        var chunk := TakeChunk(rest);
        data := data + chunk;
        rest := rest - |chunk|;
      }
      return true, data;
    }

    /** One memcpy out of the ring. */
    method TakeChunk(rest: nat) returns (chunk: seq<Byte>)
      requires Valid() && rest > 0 && nReadPos < nSrcPos
      modifies this`nReadPos
      ensures Valid() && 0 < |chunk| <= rest && nReadPos == old(nReadPos) + |chunk| <= nSrcPos
      ensures chunk == source[old(nReadPos)..nReadPos]
    {
      var pos := nReadPos % vchBuf.Length;
      var nNow := rest;
      if nNow + pos > vchBuf.Length {
        nNow := vchBuf.Length - pos;
      }
      if nNow + nReadPos > nSrcPos {
        nNow := nSrcPos - nReadPos;
      }
      chunk := vchBuf[pos..pos + nNow];
      forall k | 0 <= k < nNow
        ensures chunk[k] == source[nReadPos + k]
      {
        ModForward(nReadPos, k, vchBuf.Length);
        assert vchBuf[(nReadPos + k) % vchBuf.Length] == source[nReadPos + k];
      }
      nReadPos := nReadPos + nNow;
    }

    /** SetPos, which adds in 64 bits. A rewind is guaranteed up to nRewind bytes behind what has been read
        from the file; the reading position stays in the buffer unless the sum wraps below the file position. */
    method SetPos(nPos: nat) returns (ok: bool)
      requires Valid() && nPos < WORD
      modifies this`nReadPos
      ensures ok == Rewindable(nPos, nSrcPos, nRewind) && (ok ==> nReadPos == nPos)
      ensures nReadPos == PosAfter(nPos, nSrcPos, nRewind)
      ensures nPos + nRewind < WORD || nRewind <= nSrcPos || nSrcPos <= nPos + nRewind - WORD ==> Valid()
    {
      SetPosStaysInside(nPos, nSrcPos, nRewind);
      nReadPos := nPos;
      if Wrap(nReadPos + nRewind) < nSrcPos {
        nReadPos := Wrap(nSrcPos - nRewind);
        return false;
      } else if nReadPos > nSrcPos {
        nReadPos := nSrcPos;
        return false;
      } else {
        return true;
      }
    }

    method SetLimit(nPos: nat) returns (ok: bool)
      requires Valid() && nPos < WORD
      modifies this`nReadLimit
      ensures Valid() && ok == (nPos >= nReadPos) && nReadLimit == if ok then nPos else old(nReadLimit)
    {
      if nPos < nReadPos {
        return false;
      }
      nReadLimit := nPos;
      return true;
    }

    /** The byte that FindByte looks at in round `n`, counted from position zero, while nothing is filled in. */
    function LookedAt(n: nat): (r: Byte)
      requires vchBuf.Length > 0
      reads vchBuf
    {
      vchBuf[Wrap(n) % vchBuf.Length]
    }

    /** With all of the buffer kept for rewinding every round looks at a zero: another byte is never found. */
    lemma OnlyZeros(n: nat)
      requires Valid() && nRewind == vchBuf.Length
      ensures nReadPos == 0 && LookedAt(n) == 0
    {
    }

    /** Some round looks at the byte. */
    ghost predicate LooksAt(ch: Byte)
      requires vchBuf.Length > 0
      reads vchBuf
    {
      exists n: nat :: LookedAt(n) == ch
    }

    /** Goes to the first occurrence of a byte from the current position on; fails at the end of the file.
        With all of the buffer kept for rewinding it looks at the zeros that the buffer began with: a zero is
        found whatever the file holds, and for another byte the source goes round the buffer forever. */
    method FindByte(ch: Byte) returns (ok: bool)
      requires Valid()
      modifies this`nSrcPos, this`nReadPos, vchBuf
      ensures Valid() && old(nReadPos) <= nReadPos <= |source|
      ensures nRewind < vchBuf.Length ==> ch !in source[old(nReadPos)..nReadPos]
      ensures nRewind < vchBuf.Length && ok ==> nReadPos < |source| && source[nReadPos] == ch
      ensures nRewind < vchBuf.Length && !ok && reliable ==> nReadPos == |source|
      ensures nRewind == vchBuf.Length ==> nReadPos == 0 && ok == LooksAt(ch)
    {
      if nRewind == vchBuf.Length {
        ok := FindUnused(ch);
      } else {
        ok := FindRead(ch);
      }
    }

    /** The search in a buffer that is never filled. */
    method FindUnused(ch: Byte) returns (ok: bool)
      requires Valid() && nRewind == vchBuf.Length
      modifies this`nSrcPos, vchBuf
      ensures Valid() && nReadPos == old(nReadPos) == 0 && ok == LooksAt(ch)
    {
      var more, failed := Fill();
      forall n: nat
        ensures LookedAt(n) == 0
      {
        OnlyZeros(n);
      }
      assert LookedAt(0) == 0;
      return vchBuf[nReadPos % vchBuf.Length] == ch;
    }

    method FindRead(ch: Byte) returns (ok: bool)
      requires Valid() && nRewind < vchBuf.Length
      modifies this`nSrcPos, this`nReadPos, vchBuf
      ensures Valid() && old(nReadPos) <= nReadPos <= |source|
      ensures ch !in source[old(nReadPos)..nReadPos]
      ensures ok ==> nReadPos < |source| && source[nReadPos] == ch
      ensures !ok && reliable ==> nReadPos == |source|
    {
      ghost var start := nReadPos;
      while true
        invariant Valid() && start <= nReadPos
        invariant ch !in source[start..nReadPos]
        decreases |source| - nReadPos
      {
        if nReadPos == nSrcPos {
          var more, failed := Fill();
          if failed {
            return false;
          }
        }
        var c := CurrentByte();
        if c == ch {
          return true;
        }
        assert source[start..nReadPos + 1] == source[start..nReadPos] + [c];
        nReadPos := nReadPos + 1;
      }
    }

    /** vchBuf[nReadPos % vchBuf.size()]. */
    method CurrentByte() returns (c: Byte)
      requires Valid() && nReadPos < nSrcPos
      ensures c == source[nReadPos]
    {
      assert nSrcPos <= nReadPos + vchBuf.Length;
      c := vchBuf[nReadPos % vchBuf.Length];
    }
  }
}
