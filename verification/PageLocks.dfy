/** Counted page locks (src/lib/core/allocators.h:27-103). */
module PageLocks {
  import Bits
  import Sequences

  /** A range of memory: its address and its size. */
  datatype Range = Range(p: nat, size: nat)

  const ADDRESSES := 0x1_0000_0000_0000_0000

  /** address & page_mask for a page size that is a power of two. */
  function PageOf(address: nat, pageSize: nat): (r: nat)
    requires pageSize > 0
    ensures r <= address < r + pageSize
  {
    address - address % pageSize
  }

  predicate IsPage(page: nat, pageSize: nat)
    requires pageSize > 0
  {
    page % pageSize == 0
  }

  /** The range and the page have a byte in common. */
  ghost predicate Touches(range: Range, page: nat, pageSize: nat)
    requires pageSize > 0
  {
    IsPage(page, pageSize) && range.size > 0 && range.p < page + pageSize && page < range.p + range.size
  }

  lemma PagesApart(a: nat, b: nat, pageSize: nat)
    requires pageSize > 0 && IsPage(a, pageSize) && IsPage(b, pageSize) && a < b
    ensures a + pageSize <= b
  {
    Bits.DivMod(a, pageSize);
    Bits.DivMod(b, pageSize);
    if a / pageSize >= b / pageSize {
      Bits.MulAtMost(pageSize, b / pageSize, a / pageSize);
    } else {
      Bits.MulAtMost(pageSize, a / pageSize + 1, b / pageSize);
    }
  }

  lemma NextPage(page: nat, pageSize: nat)
    requires pageSize > 0 && IsPage(page, pageSize)
    ensures IsPage(page + pageSize, pageSize)
  {
    Bits.DivMod(page, pageSize);
    Bits.QuotientUnique(page + pageSize, pageSize, page / pageSize + 1, 0);
  }

  lemma PageOfIsPage(address: nat, pageSize: nat)
    requires pageSize > 0
    ensures IsPage(PageOf(address, pageSize), pageSize)
  {
    Bits.DivMod(address, pageSize);
    Bits.QuotientUnique(address - address % pageSize, pageSize, address / pageSize, 0);
  }

  /** page += page_size in 64 bits. */
  function NextAddress(page: nat, pageSize: nat): (r: nat) {
    (page + pageSize) % ADDRESSES
  }

  /** The page address after `n` rounds of the loop. */
  function PageAfter(start: nat, pageSize: nat, n: nat): (r: nat)
    decreases n
  {
    if n == 0 then start else PageAfter(NextAddress(start, pageSize), pageSize, n - 1)
  }

  /** Behind the last page of the address space comes page zero. */
  lemma {:induction false} LastPageIsNotPassed(page: nat, pageSize: nat)
    requires pageSize > 0 && ADDRESSES % pageSize == 0 && IsPage(page, pageSize) && page <= ADDRESSES - pageSize
    ensures NextAddress(page, pageSize) <= ADDRESSES - pageSize && IsPage(NextAddress(page, pageSize), pageSize)
  {
    hide IsPage;
    NextPage(page, pageSize);
    assert IsPage(ADDRESSES, pageSize) && IsPage(0, pageSize) by { Bits.QuotientUnique(0, pageSize, 0, 0); PageZero(pageSize); }
    if page < ADDRESSES - pageSize {
      PagesApart(page + pageSize, ADDRESSES, pageSize);
    } else {
      assert NextAddress(page, pageSize) == 0;
    }
  }

  lemma PageZero(pageSize: nat)
    requires pageSize > 0 && ADDRESSES % pageSize == 0
    ensures IsPage(0, pageSize) && IsPage(ADDRESSES, pageSize)
  {
  }

  /** The pages from that of the first byte to that of the last are the ones that the range touches. */
  lemma TouchedPages(range: Range, page: nat, pageSize: nat)
    requires pageSize > 0 && range.size > 0 && IsPage(page, pageSize)
    ensures Touches(range, page, pageSize) <==>
            PageOf(range.p, pageSize) <= page <= PageOf(range.p + range.size - 1, pageSize)
  {
    var first, last := PageOf(range.p, pageSize), PageOf(range.p + range.size - 1, pageSize);
    PageOfIsPage(range.p, pageSize);
    PageOfIsPage(range.p + range.size - 1, pageSize);
    if page < first { PagesApart(page, first, pageSize); }
    if last < page { PagesApart(last, page, pageSize); }
    if first < page { PagesApart(first, page, pageSize); }
  }

  /** The number of ranges that touch a page. */
  ghost function Count(ranges: seq<Range>, page: nat, pageSize: nat): (r: nat)
    requires pageSize > 0
    ensures r <= |ranges|
  {
    if ranges == [] then 0
    else (if Touches(ranges[0], page, pageSize) then 1 else 0) + Count(ranges[1..], page, pageSize)
  }

  lemma {:induction false} CountAppend(ranges: seq<Range>, range: Range, page: nat, pageSize: nat)
    requires pageSize > 0
    ensures Count(ranges + [range], page, pageSize) ==
            Count(ranges, page, pageSize) + if Touches(range, page, pageSize) then 1 else 0
  {
    hide Touches;
    if ranges == [] {
      assert [] + [range] == [range];
    } else {
      CountAppend(ranges[1..], range, page, pageSize);
      assert (ranges + [range])[1..] == ranges[1..] + [range];
    }
  }

  lemma {:induction false} CountWithout(ranges: seq<Range>, i: nat, page: nat, pageSize: nat)
    requires pageSize > 0 && i < |ranges|
    ensures Count(ranges, page, pageSize) ==
            Count(Sequences.RemoveAt(ranges, i), page, pageSize) + if Touches(ranges[i], page, pageSize) then 1 else 0
  {
    hide Touches;
    if i == 0 {
      assert Sequences.RemoveAt(ranges, 0) == ranges[1..];
    } else {
      CountWithout(ranges[1..], i - 1, page, pageSize);
      assert Sequences.RemoveAt(ranges, i)[0] == ranges[0] && Sequences.RemoveAt(ranges, i)[1..] == Sequences.RemoveAt(ranges[1..], i - 1);
    }
  }

  /** Every page's entry is its number of ranges; pages without any have no entry. */
  ghost predicate Counts(histogram: map<nat, int>, ranges: seq<Range>, pageSize: nat)
    requires pageSize > 0
  {
    (forall page :: page in histogram ==> histogram[page] == Count(ranges, page, pageSize) > 0) &&
    forall page: nat :: Count(ranges, page, pageSize) > 0 ==> page in histogram
  }

  /** The table while the pages of `range` below `next` have been counted up (delta = 1) or down (delta = -1). */
  ghost predicate Halfway(histogram: map<nat, int>, ranges: seq<Range>, range: Range, next: nat, delta: int, pageSize: nat)
    requires pageSize > 0
  {
    (forall page: nat :: page in histogram <==> Expected(ranges, range, next, delta, page, pageSize) > 0) &&
    forall page: nat :: page in histogram ==>
      histogram[page] == Expected(ranges, range, next, delta, page, pageSize)
  }

  ghost function Expected(ranges: seq<Range>, range: Range, next: nat, delta: int, page: nat, pageSize: nat): (r: int)
    requires pageSize > 0
  {
    Count(ranges, page, pageSize) + if page < next && Touches(range, page, pageSize) then delta else 0
  }

  /** The loop over the pages of the range ends: the last of them is not the last one there is, behind which
      the address wraps to zero. */
  predicate Ends(range: Range, pageSize: nat)
    requires pageSize > 0
  {
    range.size == 0 || PageOf(range.p + range.size - 1, pageSize) + pageSize < ADDRESSES
  }

  /** Some round brings the address past the last page of the range, so that the loop ends. */
  ghost predicate Leaves(range: Range, pageSize: nat)
    requires pageSize > 0
  {
    range.size == 0 ||
    exists n: nat :: PageAfter(PageOf(range.p, pageSize), pageSize, n) > PageOf(range.p + range.size - 1, pageSize)
  }

  /** The loop ends exactly for ranges that stay out of the last page. */
  lemma LoopEnds(range: Range, pageSize: nat)
    requires pageSize > 0 && ADDRESSES % pageSize == 0 && range.p + range.size <= ADDRESSES
    ensures Ends(range, pageSize) <==> Leaves(range, pageSize)
  {
    hide PageAfter, PageOf, IsPage;
    if range.size > 0 {
      var first, last := PageOf(range.p, pageSize), PageOf(range.p + range.size - 1, pageSize);
      PageOfIsPage(range.p, pageSize);
      PageOfIsPage(range.p + range.size - 1, pageSize);
      PageZero(pageSize);
      if Ends(range, pageSize) {
        var n := PassesLast(first, last, pageSize);
      } else {
        PagesApart(first, ADDRESSES, pageSize);
        forall n: nat
          ensures PageAfter(first, pageSize, n) <= last
        {
          StaysBelow(first, pageSize, n);
        }
      }
    }
  }

  lemma {:induction false} PassesLast(page: nat, last: nat, pageSize: nat) returns (n: nat)
    requires pageSize > 0 && last + pageSize < ADDRESSES
    ensures PageAfter(page, pageSize, n) > last
    decreases last - page
  {
    if page > last {
      n := 0;
    } else {
      n := PassesLast(page + pageSize, last, pageSize);
      n := n + 1;
    }
  }

  lemma {:induction false} StaysBelow(page: nat, pageSize: nat, n: nat)
    requires pageSize > 0 && ADDRESSES % pageSize == 0 && IsPage(page, pageSize) && page <= ADDRESSES - pageSize
    ensures PageAfter(page, pageSize, n) <= ADDRESSES - pageSize
    decreases n
  {
    hide IsPage;
    if n > 0 {
      LastPageIsNotPassed(page, pageSize);
      StaysBelow(NextAddress(page, pageSize), pageSize, n - 1);
    }
  }

  /** For the last byte of the address space no number of rounds is enough. */
  lemma LastByteNeverEnds(pageSize: nat, n: nat)
    requires pageSize > 0 && ADDRESSES % pageSize == 0
    ensures PageAfter(PageOf(ADDRESSES - 1, pageSize), pageSize, n) <= PageOf(ADDRESSES - 1, pageSize)
  {
    var range := Range(ADDRESSES - 1, 1);
    LoopEnds(range, pageSize);
    hide PageAfter;
    assert !Leaves(range, pageSize);
  }

  ghost predicate AllEnd(ranges: seq<Range>, pageSize: nat)
    requires pageSize > 0
  {
    forall i :: 0 <= i < |ranges| ==> Ends(ranges[i], pageSize)
  }

  lemma AllEndWithout(ranges: seq<Range>, i: nat, pageSize: nat)
    requires pageSize > 0 && i < |ranges| && AllEnd(ranges, pageSize)
    ensures AllEnd(Sequences.RemoveAt(ranges, i), pageSize) && Ends(ranges[i], pageSize)
  {
  }

  lemma AllEndWith(ranges: seq<Range>, range: Range, pageSize: nat)
    requires pageSize > 0 && AllEnd(ranges, pageSize) && Ends(range, pageSize)
    ensures AllEnd(ranges + [range], pageSize)
  {
  }

  class LockedPageManager {
    const pageSize: nat
    var histogram: map<nat, int>
    /** The pages that the operating system holds locked. */
    var locked: set<nat>
    /** The ranges that have been locked and not yet unlocked. */
    ghost var outstanding: seq<Range>

    ghost predicate Valid()
      reads this
    {
      pageSize > 0 && ADDRESSES % pageSize == 0 && Counts(histogram, outstanding, pageSize) && locked == histogram.Keys &&
      AllEnd(outstanding, pageSize)
    }

    constructor (pageSize: nat)
      requires pageSize > 0 && ADDRESSES % pageSize == 0
      ensures Valid() && outstanding == [] && this.pageSize == pageSize
    {
      this.pageSize := pageSize;
      histogram, locked, outstanding := map[], {}, [];
    }

    method Lock(page: nat)
      requires page !in locked
      modifies this`locked
      ensures locked == old(locked) + {page}
    {
      locked := locked + {page};
    }

    method Unlock(page: nat)
      requires page in locked
      modifies this`locked
      ensures locked == old(locked) - {page}
    {
      locked := locked - {page};
    }

    /** Counts a range of the address space. Where `ends` is false the source counts pages up forever. */
    method LockRange(p: nat, size: nat) returns (ends: bool)
      requires Valid() && p + size <= ADDRESSES
      modifies this
      ensures Valid() && ends == Leaves(Range(p, size), pageSize)
      ensures outstanding == if ends then old(outstanding) + [Range(p, size)] else old(outstanding)
    {
      hide Halfway, Counts, AllEnd, Leaves;
      LoopEnds(Range(p, size), pageSize);
      ends := Ends(Range(p, size), pageSize);
      if !ends {
        return;
      }
      ghost var ranges, range := outstanding, Range(p, size);
      outstanding := outstanding + [range];
      AllEndWith(ranges, range, pageSize);
      if size == 0 {
        AddedNothing(histogram, ranges, range, pageSize);
        return;
      }
      var startPage := PageOf(p, pageSize);
      var endPage := PageOf(p + size - 1, pageSize);
      var page := startPage;
      PageOfIsPage(p, pageSize);
      BeforeFirst(histogram, ranges, range, 1, pageSize);
      while page <= endPage
        invariant startPage <= page && IsPage(page, pageSize)
        invariant Halfway(histogram, ranges, range, page, 1, pageSize) && locked == histogram.Keys
        invariant outstanding == ranges + [range]
        decreases endPage + pageSize - page
      {
        ghost var before := histogram;
        TouchedPages(range, page, pageSize);
        if page !in histogram {
          Lock(page);
          histogram := histogram[page := 1];
        } else {
          histogram := histogram[page := histogram[page] + 1];
        }
        CountedUp(before, histogram, ranges, range, page, pageSize);
        NextPage(page, pageSize);
        page := NextAddress(page, pageSize);
      }
      AfterLast(histogram, ranges, range, page, 1, pageSize);
      Added(histogram, ranges, range, page, pageSize);
    }

    /** Unlocks a range that is outstanding; the page entries that the source asserts exist do exist. */
    method UnlockRange(p: nat, size: nat, ghost i: nat)
      requires Valid() && i < |outstanding| && outstanding[i] == Range(p, size)
      modifies this
      ensures Valid() && outstanding == Sequences.RemoveAt(old(outstanding), i)
    {
      hide Counts, AllEnd, Sequences.RemoveAt, Halfway, PageOf, IsPage, Touches;
      ghost var ranges, range := outstanding, Range(p, size);
      outstanding := Sequences.RemoveAt(outstanding, i);
      AllEndWithout(ranges, i, pageSize);
      if size == 0 {
        RemovedNothing(histogram, ranges, i, pageSize);
        return;
      }
      var startPage := PageOf(p, pageSize);
      var endPage := PageOf(p + size - 1, pageSize);
      var page := startPage;
      PageOfIsPage(p, pageSize);
      BeforeFirst(histogram, ranges, range, -1, pageSize);
      while page <= endPage
        invariant startPage <= page && IsPage(page, pageSize)
        invariant Halfway(histogram, ranges, range, page, -1, pageSize) && locked == histogram.Keys
        invariant outstanding == Sequences.RemoveAt(ranges, i)
        decreases endPage + pageSize - page
      {
        ghost var before := histogram;
        TouchedPages(range, page, pageSize);
        PageIsCounted(histogram, ranges, i, page, pageSize);
        histogram := histogram[page := histogram[page] - 1];
        if histogram[page] == 0 {
          Unlock(page);
          histogram := histogram - {page};
        }
        CountedDown(before, histogram, ranges, range, page, pageSize);
        NextPage(page, pageSize);
        page := NextAddress(page, pageSize);
      }
      AfterLast(histogram, ranges, range, page, -1, pageSize);
      Removed(histogram, ranges, i, page, pageSize);
    }

    method GetLockedPageCount() returns (n: nat)
      requires Valid()
      ensures n == |locked| && (outstanding == [] ==> n == 0 && histogram == map[])
    {
      n := |histogram|;
      assert |histogram| == |histogram.Keys|;
      if outstanding == [] {
        assert histogram.Keys == {};
      }
    }
  }

  // ------------------------------------------------------------- steps of the loops

  lemma BeforeFirst(histogram: map<nat, int>, ranges: seq<Range>, range: Range, delta: int, pageSize: nat)
    requires pageSize > 0 && range.size > 0 && Counts(histogram, ranges, pageSize)
    ensures Halfway(histogram, ranges, range, PageOf(range.p, pageSize), delta, pageSize)
  {
    hide Touches, Count;
    forall page: nat
      ensures Expected(ranges, range, PageOf(range.p, pageSize), delta, page, pageSize) == Count(ranges, page, pageSize)
    {
      if IsPage(page, pageSize) { TouchedPages(range, page, pageSize); } else { NoPage(range, page, pageSize); }
    }
  }

  lemma NoPage(range: Range, page: nat, pageSize: nat)
    requires pageSize > 0 && !IsPage(page, pageSize)
    ensures !Touches(range, page, pageSize)
  {
  }

  /** Between a page and the next one there is no other. */
  lemma NextStep(ranges: seq<Range>, range: Range, at: nat, delta: int, page: nat, pageSize: nat)
    requires pageSize > 0 && IsPage(at, pageSize) && page != at
    ensures Expected(ranges, range, at + pageSize, delta, page, pageSize) == Expected(ranges, range, at, delta, page, pageSize)
  {
    hide Touches, Count;
    if IsPage(page, pageSize) {
      if at < page { PagesApart(at, page, pageSize); }
    } else {
      NoPage(range, page, pageSize);
    }
  }

  lemma CountedUp(before: map<nat, int>, after: map<nat, int>, ranges: seq<Range>, range: Range, at: nat, pageSize: nat)
    requires pageSize > 0 && IsPage(at, pageSize) && Touches(range, at, pageSize)
    requires Halfway(before, ranges, range, at, 1, pageSize)
    requires after == before[at := if at in before then before[at] + 1 else 1]
    ensures Halfway(after, ranges, range, at + pageSize, 1, pageSize)
  {
    hide Touches, Count;
    forall page: nat
      ensures page in after <==> Expected(ranges, range, at + pageSize, 1, page, pageSize) > 0
      ensures page in after ==> after[page] == Expected(ranges, range, at + pageSize, 1, page, pageSize)
    {
      if page != at {
        NextStep(ranges, range, at, 1, page, pageSize);
      } else {
        assert Expected(ranges, range, at, 1, page, pageSize) == Count(ranges, page, pageSize);
      }
    }
  }

  lemma PageIsCounted(histogram: map<nat, int>, ranges: seq<Range>, i: nat, at: nat, pageSize: nat)
    requires pageSize > 0 && i < |ranges| && Touches(ranges[i], at, pageSize)
    requires Halfway(histogram, ranges, ranges[i], at, -1, pageSize)
    ensures at in histogram
  {
    hide Touches, Count;
    CountWithout(ranges, i, at, pageSize);
  }

  lemma CountedDown(before: map<nat, int>, after: map<nat, int>, ranges: seq<Range>, range: Range, at: nat, pageSize: nat)
    requires pageSize > 0 && IsPage(at, pageSize) && Touches(range, at, pageSize)
    requires Halfway(before, ranges, range, at, -1, pageSize) && at in before
    requires after == if before[at] == 1 then before[at := 0] - {at} else before[at := before[at] - 1]
    ensures Halfway(after, ranges, range, at + pageSize, -1, pageSize)
  {
    hide Touches, Count;
    forall page: nat
      ensures page in after <==> Expected(ranges, range, at + pageSize, -1, page, pageSize) > 0
      ensures page in after ==> after[page] == Expected(ranges, range, at + pageSize, -1, page, pageSize)
    {
      if page != at {
        NextStep(ranges, range, at, -1, page, pageSize);
      } else {
        assert Expected(ranges, range, at, -1, page, pageSize) == Count(ranges, page, pageSize);
      }
    }
  }

  /** Behind the last page nothing is left to count. */
  lemma AfterLast(histogram: map<nat, int>, ranges: seq<Range>, range: Range, next: nat, delta: int, pageSize: nat)
    requires pageSize > 0 && range.size > 0 && next > PageOf(range.p + range.size - 1, pageSize)
    requires Halfway(histogram, ranges, range, next, delta, pageSize)
    ensures forall page: nat :: Expected(ranges, range, next, delta, page, pageSize) ==
              Count(ranges, page, pageSize) + if Touches(range, page, pageSize) then delta else 0
  {
    hide Touches, Count;
    forall page: nat
      ensures Expected(ranges, range, next, delta, page, pageSize) ==
              Count(ranges, page, pageSize) + if Touches(range, page, pageSize) then delta else 0
    {
      if IsPage(page, pageSize) { TouchedPages(range, page, pageSize); } else { NoPage(range, page, pageSize); }
    }
  }

  lemma Added(histogram: map<nat, int>, ranges: seq<Range>, range: Range, next: nat, pageSize: nat)
    requires pageSize > 0 && Halfway(histogram, ranges, range, next, 1, pageSize)
    requires forall page: nat :: Expected(ranges, range, next, 1, page, pageSize) ==
               Count(ranges, page, pageSize) + if Touches(range, page, pageSize) then 1 else 0
    ensures Counts(histogram, ranges + [range], pageSize)
  {
    hide Touches, Count, Expected;
    forall page: nat
      ensures Count(ranges + [range], page, pageSize) == Expected(ranges, range, next, 1, page, pageSize)
    {
      CountAppend(ranges, range, page, pageSize);
    }
  }

  lemma Removed(histogram: map<nat, int>, ranges: seq<Range>, i: nat, next: nat, pageSize: nat)
    requires pageSize > 0 && i < |ranges| && Halfway(histogram, ranges, ranges[i], next, -1, pageSize)
    requires forall page: nat :: Expected(ranges, ranges[i], next, -1, page, pageSize) ==
               Count(ranges, page, pageSize) + if Touches(ranges[i], page, pageSize) then -1 else 0
    ensures Counts(histogram, Sequences.RemoveAt(ranges, i), pageSize)
  {
    hide Touches, Count, Expected, Sequences.RemoveAt;
    forall page: nat
      ensures Count(Sequences.RemoveAt(ranges, i), page, pageSize) == Expected(ranges, ranges[i], next, -1, page, pageSize)
    {
      CountWithout(ranges, i, page, pageSize);
    }
  }

  lemma AddedNothing(histogram: map<nat, int>, ranges: seq<Range>, range: Range, pageSize: nat)
    requires pageSize > 0 && Counts(histogram, ranges, pageSize) && range.size == 0
    ensures Counts(histogram, ranges + [range], pageSize)
  {
    forall page: nat
      ensures Count(ranges + [range], page, pageSize) == Count(ranges, page, pageSize)
    {
      CountAppend(ranges, range, page, pageSize);
    }
  }

  lemma RemovedNothing(histogram: map<nat, int>, ranges: seq<Range>, i: nat, pageSize: nat)
    requires pageSize > 0 && Counts(histogram, ranges, pageSize) && i < |ranges| && ranges[i].size == 0
    ensures Counts(histogram, Sequences.RemoveAt(ranges, i), pageSize)
  {
    forall page: nat
      ensures Count(Sequences.RemoveAt(ranges, i), page, pageSize) == Count(ranges, page, pageSize)
    {
      CountWithout(ranges, i, page, pageSize);
    }
  }
}
