/** The physical frame allocator of kernel/pmm.c: one bit per 4 KiB frame. */
module Pmm {
  import opened Bits

  const PAGE_SIZE: nat := 4096
  const MAX_PAGES: nat := 32768  // 128 MiB of frames

  predicate Within(lo: nat, i: nat, hi: nat) {
    lo <= i < hi
  }

  // The frame numbers in [lo, hi).
  ghost function Range(lo: nat, hi: nat): set<nat> {
    set i: nat | lo <= i < hi && Within(lo, i, hi)
  }

  lemma {:induction false} RangeCounts(lo: nat, hi: nat)
    requires lo <= hi
    ensures |Range(lo, hi)| == hi - lo
    decreases hi
  {
    if lo < hi {
      RangeCounts(lo, hi - 1);
      assert Range(lo, hi) == Range(lo, hi - 1) + {hi - 1};
    }
  }

  ghost function AllFrames(): set<nat> {
    Range(0, MAX_PAGES)
  }

  lemma {:induction false} SubsetCounts<T>(a: set<T>, b: set<T>)
    requires a <= b
    ensures |a| <= |b| && (|a| == |b| ==> a == b)
  {
    if a != {} {
      var x :| x in a;
      SubsetCounts(a - {x}, b - {x});
    }
  }

  // A set of frames leaves none free exactly when it counts MAX_PAGES.
  lemma FullMeansAll(used: set<nat>)
    requires used <= AllFrames()
    ensures |used| <= MAX_PAGES
    ensures |used| == MAX_PAGES <==> used == AllFrames()
  {
    RangeCounts(0, MAX_PAGES);
    SubsetCounts(used, AllFrames());
  }

  lemma AllTaken(used: set<nat>)
    requires used <= AllFrames() && forall j: nat :: j < MAX_PAGES ==> j in used
    ensures used == AllFrames()
  {
  }

  lemma FreeFrame(used: set<nat>, i: nat)
    requires used <= AllFrames() && i < MAX_PAGES && i !in used
    ensures used != AllFrames()
  {
    assert Within(0, i, MAX_PAGES);
  }

  // What one allocation does to the set of used frames: the lowest free frame is taken.
  ghost predicate TakesLowest(before: set<nat>, frame: nat, after: set<nat>) {
    && frame < MAX_PAGES && frame !in before
    && after == before + {frame}
    && (forall j: nat :: j < frame ==> j in before)
  }

  class FrameAllocator {
    const bitmap: array<byte>
    ghost var used: set<nat>  // the frames whose bit is set

    ghost predicate Valid()
      reads this, bitmap
    {
      && bitmap.Length == MAX_PAGES / 8
      && used <= AllFrames()
      && (forall i: nat :: i < MAX_PAGES ==> (i in used <==> Bit(bitmap[i / 8], i % 8)))
    }

    lemma InRange()
      requires Valid()
      ensures forall f :: f in used ==> f < MAX_PAGES
    {
    }

    ghost function FreeCount(): (n: nat)
      requires Valid()
      reads this, bitmap
      ensures n == 0 <==> used == AllFrames()
    {
      FullMeansAll(used);
      MAX_PAGES - |used|
    }

    constructor ()
      ensures Valid() && used == {} && fresh(bitmap)
    {
      bitmap := new byte[MAX_PAGES / 8](_ => 0);
      used := {};
      new;
      forall i: nat | i < MAX_PAGES
        ensures !Bit(bitmap[i / 8], i % 8)
      {
        ZeroHasNoBits(i % 8);
      }
    }

    method BitmapSet(pageIndex: nat)
      requires Valid()
      modifies this, bitmap
      ensures Valid()
      ensures used == if pageIndex >= MAX_PAGES then old(used) else old(used) + {pageIndex}
    {
      if pageIndex >= MAX_PAGES {
        return;
      }
      bitmap[pageIndex / 8] := SetInByte(bitmap[pageIndex / 8], pageIndex % 8);
      used := used + {pageIndex};
      forall i: nat | i < MAX_PAGES && i / 8 == pageIndex / 8
        ensures i in used <==> Bit(bitmap[i / 8], i % 8)
      {
        SetOneBit(old(bitmap[pageIndex / 8]), pageIndex % 8, i % 8);
        assert old(i in used <==> Bit(bitmap[i / 8], i % 8));
      }
    }

    method BitmapClear(pageIndex: nat)
      requires Valid()
      modifies this, bitmap
      ensures Valid() && used == old(used) - {pageIndex}
    {
      if pageIndex >= MAX_PAGES {
        return;
      }
      bitmap[pageIndex / 8] := ClearInByte(bitmap[pageIndex / 8], pageIndex % 8);
      used := used - {pageIndex};
      forall i: nat | i < MAX_PAGES && i / 8 == pageIndex / 8
        ensures i in used <==> Bit(bitmap[i / 8], i % 8)
      {
        ClearOneBit(old(bitmap[pageIndex / 8]), pageIndex % 8, i % 8);
        assert old(i in used <==> Bit(bitmap[i / 8], i % 8));
      }
    }

    // An index outside the bitmap counts as taken.
    method BitmapTest(pageIndex: nat) returns (set_: bool)
      requires Valid()
      ensures set_ <==> pageIndex >= MAX_PAGES || pageIndex in used
    {
      if pageIndex >= MAX_PAGES {
        return true;
      }
      return Bit(bitmap[pageIndex / 8], pageIndex % 8);
    }

    method Init(reservedPages: nat)
      requires Valid()
      modifies this, bitmap
      ensures Valid()
      ensures used == Range(0, if reservedPages > MAX_PAGES then MAX_PAGES else reservedPages)
    {
      var k := 0;
      while k < bitmap.Length
        invariant 0 <= k <= bitmap.Length
        invariant bitmap.Length == MAX_PAGES / 8
        invariant forall b :: 0 <= b < k ==> bitmap[b] == 0
      {
        bitmap[k] := 0;
        k := k + 1;
      }
      used := {};
      forall i: nat | i < MAX_PAGES
        ensures !Bit(bitmap[i / 8], i % 8)
      {
        ZeroHasNoBits(i % 8);
      }
      var reserved := if reservedPages > MAX_PAGES then MAX_PAGES else reservedPages;
      var i := 0;
      while i < reserved
        invariant 0 <= i <= reserved && Valid()
        invariant used == Range(0, i)
      {
        BitmapSet(i);
        i := i + 1;
      }
    }

    // [start, end) in bytes; every frame it touches becomes used.
    method ReserveRegion(physStart: nat, physEnd: nat)
      requires Valid()
      modifies this, bitmap
      ensures Valid()
      ensures forall i: nat :: i in used <==>
                               i in old(used) ||
                               (i < MAX_PAGES && physStart < physEnd &&
                                i * PAGE_SIZE < physEnd && physStart < (i + 1) * PAGE_SIZE)
    {
      if physEnd <= physStart {
        return;
      }
      var startPage := physStart / PAGE_SIZE;
      var endPage := (physEnd + PAGE_SIZE - 1) / PAGE_SIZE;
      if startPage >= MAX_PAGES {
        return;
      }
      if endPage > MAX_PAGES {
        endPage := MAX_PAGES;
      }
      var i := startPage;
      while i < endPage
        invariant startPage <= i <= endPage && Valid()
        invariant used == old(used) + Range(startPage, i)
      {
        BitmapSet(i);
        i := i + 1;
      }
    }

    /** The byte address of the lowest free frame, which becomes used; 0 when there is none.
        A free frame 0 is also handed out as address 0, which callers take for failure. */
    method AllocPage() returns (addr: nat)
      requires Valid()
      modifies this, bitmap
      ensures Valid()
      ensures old(used) == AllFrames() ==> addr == 0 && used == old(used)
      ensures old(used) != AllFrames() ==>
                addr % PAGE_SIZE == 0 && TakesLowest(old(used), addr / PAGE_SIZE, used)
      ensures old(used) != AllFrames() ==> FreeCount() == old(FreeCount()) - 1
      ensures 0 in old(used) ==> (addr == 0 <==> old(used) == AllFrames())
    {
      hide Bit, Range;
      var i := 0;
      while i < MAX_PAGES
        invariant 0 <= i <= MAX_PAGES && Valid() && used == old(used)
        invariant forall j: nat :: j < i ==> j in used
      {
        var taken := BitmapTest(i);
        if !taken {
          FreeFrame(used, i);
          BitmapSet(i);
          return i * PAGE_SIZE;
        }
        i := i + 1;
      }
      AllTaken(used);
      return 0;
    }

    // Null, unaligned and out-of-range addresses are ignored.
    method FreePage(addr: nat)
      requires Valid()
      modifies this, bitmap
      ensures Valid()
      ensures used == if addr == 0 || addr % PAGE_SIZE != 0 then old(used)
                      else old(used) - {addr / PAGE_SIZE}
    {
      if addr == 0 || addr % PAGE_SIZE != 0 {
        return;
      }
      var pageIndex := addr / PAGE_SIZE;
      if pageIndex >= MAX_PAGES {
        return;
      }
      BitmapClear(pageIndex);
    }
  }
}
