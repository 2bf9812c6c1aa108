/** sys_brk of kernel/syscall.c: the process heap grows and shrinks by whole pages. */
module Heap {
  import opened Wrappers
  import opened PageTables
  import opened Pmm
  import opened Vmm
  import opened FrameNeeds

  const HEAP_BASE: nat := 0x7000_0000_0000
  const HEAP_LIMIT: nat := 0x8000_0000_0000  // 2^47, the break values considered
  const VMM_USER_FLAGS: nat := 7

  function PageUp(x: nat): nat { (x + 4095) / 4096 }

  // The address-space fields of process_t.
  class Process {
    var pml4: nat
    var heapStart: nat
    var heapEnd: nat
    ghost var own: Labels             // the tables of this address space
    ghost var frames: map<nat, nat>   // heap page to frame

    constructor (pml4: nat, ghost own: Labels)
      ensures this.pml4 == pml4 && this.own == own && heapStart == 0 && heapEnd == 0 && frames == map[]
    {
      this.pml4, this.own := pml4, own;
      heapStart, heapEnd, frames := 0, 0, map[];
    }
  }

  predicate InHeap(va: nat) { HEAP_BASE <= va < HEAP_LIMIT }

  ghost predicate PageAt(mem: Memory, root: nat, page: nat, frame: nat) {
    forall va: nat :: InHeap(va) && va / 4096 == page ==>
      Walk(mem, root, 4, va) == Some(Leaf(frame * 4096 + va % 4096, true, true))
  }

  // In the heap region exactly the pages of frames are mapped, each to a frame of its own and
  // by a page table.
  ghost predicate HeapPages(mem: Memory, root: nat, own: Labels, used: set<nat>, frames: map<nat, nat>) {
    && (forall p :: p in frames ==>
                      && InHeap(p * 4096) && PageAt(mem, root, p, frames[p])
                      && frames[p] in used && frames[p] !in own && frames[p] < MAX_PAGES
                      && Path(p * 4096, 3) in own.Values)
    && (forall p, q :: p in frames && q in frames && p != q ==> frames[p] != frames[q])
    && (forall va: nat :: InHeap(va) && va / 4096 !in frames ==> Walk(mem, root, 4, va) == None)
  }

  ghost predicate SameElsewhere(mem: Memory, mem': Memory, root: nat) {
    forall va: nat :: va < ADDRESS_SPACE && !InHeap(va) ==>
      Walk(mem', root, 4, va) == Walk(mem, root, 4, va)
  }

  // A page is where it was, or on a frame that was free and is no table.
  ghost predicate KeptOrFresh(frames: map<nat, nat>, used: set<nat>, frames': map<nat, nat>,
                              own': Labels, used': set<nat>)
  {
    forall q :: q in frames' ==>
      || (q in frames && frames'[q] == frames[q])
      || (frames'[q] !in used && frames'[q] in used' && frames'[q] !in own')
  }

  lemma AsIs(frames: map<nat, nat>, used: set<nat>, own: Labels)
    ensures KeptOrFresh(frames, used, frames, own, used)
  {
  }

  lemma KeptOrFreshTwice(frames: map<nat, nat>, used: set<nat>, frames1: map<nat, nat>, mem1: Memory, own1: Labels,
                         used1: set<nat>, frames2: map<nat, nat>, mem2: Memory, own2: Labels, used2: set<nat>)
    requires KeptOrFresh(frames, used, frames1, own1, used1) && used <= used1
    requires KeptOrFresh(frames1, used1, frames2, own2, used2)
    requires Confined(mem1, own1, used1, mem2, own2, used2)
    ensures KeptOrFresh(frames, used, frames2, own2, used2)
  {
  }

  lemma HeapPage(p: nat)
    requires HEAP_BASE / 4096 <= p < HEAP_LIMIT / 4096
    ensures forall va: nat :: va / 4096 == p ==> InHeap(va) && va < ADDRESS_SPACE
    ensures InHeap(p * 4096)
  {
  }

  lemma UserLeaf(f: nat)
    requires f < MAX_PAGES
    ensures forall va: nat :: EntryLeaf(LeafEntry(f * 4096, VMM_USER_FLAGS), va) ==
                              Some(Leaf(f * 4096 + va % 4096, true, true))
  {
    hide LeafEntry, Present, Writable, User;
    var e := LeafEntry(f * 4096, VMM_USER_FLAGS);
    assert e / 4096 == f && e - e % 4096 == f * 4096;
    assert Writable(VMM_USER_FLAGS) && User(VMM_USER_FLAGS) by { UserFlags(); }
  }

  lemma UserFlags()
    ensures Writable(VMM_USER_FLAGS) && User(VMM_USER_FLAGS)
  {
  }

  // Frames in use that are no tables stay so.
  lemma FramesStay(mem: Memory, own: Labels, used: set<nat>, mem': Memory, own': Labels, used': set<nat>)
    requires Confined(mem, own, used, mem', own', used')
    ensures forall f :: f in used && f !in own ==> f in used' && f !in own'
    ensures own.Values <= own'.Values
  {
    LabelsKept(mem, own, used, mem', own', used');
  }

  lemma LabelsKept(mem: Memory, own: Labels, used: set<nat>, mem': Memory, own': Labels, used': set<nat>)
    requires Confined(mem, own, used, mem', own', used')
    ensures own.Values <= own'.Values
  {
    forall p | p in own.Values
      ensures p in own'.Values
    {
      var t :| t in own && own[t] == p;
      assert own'[t] == p;
    }
  }

  // The edit of page p, seen at any page of the region.
  lemma EditedPage(mem: Memory, mem': Memory, root: nat, p: nat, e: u64)
    requires OnlyPage(mem, mem', root, p * 4096, e)
    ensures forall va: nat :: InHeap(va) && va / 4096 == p ==> Walk(mem', root, 4, va) == EntryLeaf(e, va)
    ensures forall va: nat :: va < ADDRESS_SPACE && va / 4096 != p ==> Walk(mem', root, 4, va) == Walk(mem, root, 4, va)
  {
    hide Walk, EntryLeaf;
    assert p * 4096 / 4096 == p;
  }

  lemma PageStays(mem: Memory, mem': Memory, root: nat, p: nat, e: u64, q: nat, f: nat)
    requires OnlyPage(mem, mem', root, p * 4096, e) && q != p && PageAt(mem, root, q, f)
    ensures PageAt(mem', root, q, f)
  {
    hide Walk, EntryLeaf, OnlyPage;
    EditedPage(mem, mem', root, p, e);
  }

  lemma PageAdded(mem: Memory, mem': Memory, root: nat, own: Labels, own': Labels,
                  used: set<nat>, used': set<nat>, frames: map<nat, nat>, p: nat, f: nat)
    requires HeapPages(mem, root, own, used, frames) && HEAP_BASE / 4096 <= p < HEAP_LIMIT / 4096
    requires f !in used && f in used' && f !in own' && f < MAX_PAGES && Path(p * 4096, 3) in own'.Values
    requires Confined(mem, own, used, mem', own', used')
    requires OnlyPage(mem, mem', root, p * 4096, LeafEntry(f * 4096, VMM_USER_FLAGS))
    ensures HeapPages(mem', root, own', used', frames[p := f])
    ensures SameElsewhere(mem, mem', root)
  {
    hide LeafEntry, EntryLeaf, Walk, Confined, Path, OnlyPage, PageAt;
    var e := LeafEntry(f * 4096, VMM_USER_FLAGS);
    FramesStay(mem, own, used, mem', own', used');
    EditedPage(mem, mem', root, p, e);
    HeapPage(p);
    NewPageAt(mem, mem', root, p, f);
    forall q | q in frames && q != p
      ensures PageAt(mem', root, q, frames[q])
    {
      PageStays(mem, mem', root, p, e, q, frames[q]);
    }
  }

  lemma NewPageAt(mem: Memory, mem': Memory, root: nat, p: nat, f: nat)
    requires f < MAX_PAGES && OnlyPage(mem, mem', root, p * 4096, LeafEntry(f * 4096, VMM_USER_FLAGS))
    ensures PageAt(mem', root, p, f)
  {
    hide LeafEntry, EntryLeaf, Walk, OnlyPage;
    UserLeaf(f);
    EditedPage(mem, mem', root, p, LeafEntry(f * 4096, VMM_USER_FLAGS));
  }

  lemma PageRemoved(mem: Memory, mem': Memory, root: nat, own: Labels, own': Labels,
                    used: set<nat>, used': set<nat>, frames: map<nat, nat>, p: nat)
    requires HeapPages(mem, root, own, used, frames) && HEAP_BASE / 4096 <= p < HEAP_LIMIT / 4096
    requires OnlyPage(mem, mem', root, p * 4096, 0)
    requires Confined(mem, own, used, mem', own', used')
    ensures HeapPages(mem', root, own', used', frames - {p})
    ensures SameElsewhere(mem, mem', root)
  {
    hide EntryLeaf, Walk, Confined, Path, OnlyPage, PageAt;
    FramesStay(mem, own, used, mem', own', used');
    EditedPage(mem, mem', root, p, 0);
    NoLeaf();
    HeapPage(p);
    forall q | q in frames && q != p
      ensures PageAt(mem', root, q, frames[q])
    {
      PageStays(mem, mem', root, p, 0, q, frames[q]);
    }
  }

  lemma NoLeaf()
    ensures forall va: nat :: EntryLeaf(0, va) == None
  {
  }

  lemma PagesKept(mem: Memory, mem': Memory, root: nat, own: Labels, own': Labels,
                  used: set<nat>, used': set<nat>, frames: map<nat, nat>)
    requires HeapPages(mem, root, own, used, frames)
    requires SameTranslation(mem, mem', root) && Confined(mem, own, used, mem', own', used')
    ensures HeapPages(mem', root, own', used', frames)
  {
    hide Walk, Confined, Path;
    FramesStay(mem, own, used, mem', own', used');
    forall q | q in frames
      ensures PageAt(mem', root, q, frames[q])
    {
      assert PageAt(mem, root, q, frames[q]);
    }
  }

  lemma SameElsewhereTwice(mem: Memory, mem1: Memory, mem2: Memory, root: nat)
    requires SameElsewhere(mem, mem1, root) && SameElsewhere(mem1, mem2, root)
    ensures SameElsewhere(mem, mem2, root)
  {
    hide Walk;
  }

  lemma SameEverywhere(mem: Memory, mem': Memory, root: nat)
    requires SameTranslation(mem, mem', root)
    ensures SameElsewhere(mem, mem', root)
  {
    hide Walk;
  }

  /** What holds of one process whatever frames there were: the pages recorded are exactly the
      mapped ones of the heap region. */
  ghost predicate HeapSound(vm: AddressSpaces, p: Process)
    reads vm, vm.pmm, vm.pmm.bitmap, p
  {
    && vm.Valid() && vm.Owns(p.pml4, p.own)
    && (p.heapStart == 0 ==> p.heapEnd == 0)
    && (p.heapStart != 0 ==> p.heapStart == HEAP_BASE <= p.heapEnd < HEAP_LIMIT)
    && HeapPages(vm.mem, p.pml4, p.own, vm.pmm.used, p.frames)
  }

  /** The invariant of one process: its heap region maps exactly the pages from HEAP_BASE up to
      the break, rounded up to a page. */
  ghost predicate HeapOk(vm: AddressSpaces, p: Process)
    reads vm, vm.pmm, vm.pmm.bitmap, p
  {
    HeapSound(vm, p) && forall q :: q in p.frames <==> HEAP_BASE / 4096 <= q < PageUp(Break(p))
  }

  /** Under the invariant an address of the heap region is mapped exactly when its page starts below
      the break, and then to be read and written from user mode. */
  lemma HeapAddress(vm: AddressSpaces, p: Process, va: nat)
    requires HeapOk(vm, p) && InHeap(va)
    ensures Walk(vm.mem, p.pml4, 4, va).Some? <==>
            va - va % 4096 < if p.heapStart == 0 then 0x7000_0000_0000 else p.heapEnd
    ensures match Walk(vm.mem, p.pml4, 4, va) case None => true case Some(leaf) => leaf.writable && leaf.user
  {
    hide Walk, Tree, FrameAllocator.Valid;
    var page := va / 4096;
    assert va - va % 4096 == 4096 * page;
    if page in p.frames {
      assert PageAt(vm.mem, p.pml4, page, p.frames[page]);
    }
  }

  ghost function Break(p: Process): nat
    reads p
  {
    if p.heapStart == 0 then HEAP_BASE else p.heapEnd
  }

  // The frames a call takes: those of the pages and tables a growing heap lacks.
  ghost function BrkFrames(p: Process, newBrk: nat): nat
    reads p
  {
    FramesFor(p.own.Values, PageUp(Break(p)), PageUp(newBrk))
  }

  // The frames without which a call refuses to move the break.
  ghost function BrkNoticed(p: Process, newBrk: nat): nat
    reads p
  {
    FramesNoticed(p.own.Values, PageUp(Break(p)), PageUp(newBrk))
  }

  // The pages [first, m) came to those there were.
  ghost predicate Grown(frames: map<nat, nat>, frames': map<nat, nat>, first: nat, m: nat) {
    forall q :: q in frames' <==> q in frames || first <= q < m
  }

  /** The pages outside [lo, hi) keep their frames. */
  ghost predicate KeptOutside(frames: map<nat, nat>, frames': map<nat, nat>, lo: nat, hi: nat) {
    forall q :: q in frames && !(lo <= q < hi) ==> q in frames' && frames'[q] == frames[q]
  }

  // The frames of the pages below m, and what is in them, are as they were.
  ghost predicate HeapKept(mem: Memory, mem': Memory, frames: map<nat, nat>, frames': map<nat, nat>, m: nat) {
    && |mem'| == |mem|
    && forall q :: q in frames && q < m ==>
         q in frames' && frames'[q] == frames[q] && (frames[q] < |mem| ==> mem'[frames[q]] == mem[frames[q]])
  }

  lemma PagesUnwritten(mem: Memory, own: Labels, used: set<nat>, mem': Memory, own': Labels, used': set<nat>,
                       root: nat, frames: map<nat, nat>, frames': map<nat, nat>, lo: nat, hi: nat, m: nat)
    requires HeapPages(mem, root, own, used, frames) && Confined(mem, own, used, mem', own', used')
    requires KeptOutside(frames, frames', lo, hi) && (m <= lo || hi <= lo)
    ensures HeapKept(mem, mem', frames, frames', m)
  {
    hide PageAt, Walk;
  }

  lemma AfterMap(mem: Memory, mem': Memory, root: nat, own: Labels, own': Labels, used: set<nat>,
                 used1: set<nat>, used': set<nat>, frames: map<nat, nat>, p: nat, f: nat, mapped: bool)
    requires own.Keys <= used && f !in used && used1 == used + {f} && f < MAX_PAGES && f < |mem|
    requires HEAP_BASE / 4096 <= p < HEAP_LIMIT / 4096
    requires Edited(mem, own, used1, mem', own', used', p * 4096)
    requires if mapped
             then own'.Values == own.Values + PageSteps(p * 4096) &&
                  OnlyPage(mem, mem', root, p * 4096, LeafEntry(f * 4096, VMM_USER_FLAGS))
             else SameTranslation(mem, mem', root)
    ensures Confined(mem, own, used, mem', own', used') && SameElsewhere(mem, mem', root)
    ensures HeapPages(mem, root, own, used, frames) ==>
              HeapPages(mem', root, own', used', if mapped then frames[p := f] else frames)
    ensures KeptOrFresh(frames, used, if mapped then frames[p := f] else frames, own', used')
  {
    hide HeapPages, SameElsewhere, Edited, Confined, LeafEntry, OnlyPage, SameTranslation;
    EditIsConfined(mem, own, used1, mem', own', used', p * 4096);
    ConfinedFrame(mem, own, used1, mem', own', used', f);
    ConfinedLater(mem, own, used, used1, mem', own', used');
    if mapped {
      if HeapPages(mem, root, own, used, frames) {
        PageAdded(mem, mem', root, own, own', used, used', frames, p, f);
      }
      OutsidePage(mem, mem', root, p, LeafEntry(f * 4096, VMM_USER_FLAGS));
    } else {
      SameEverywhere(mem, mem', root);
      if HeapPages(mem, root, own, used, frames) {
        PagesKept(mem, mem', root, own, own', used, used', frames);
      }
    }
  }

  // One page of the growing loop: a frame, then its mapping, which goes unnoticed when it fails.
  method GrowPage(vm: AddressSpaces, p: Process, page: nat) returns (ok: bool, ghost mapped: bool)
    requires vm.Valid() && vm.Owns(p.pml4, p.own)
    requires HEAP_BASE / 4096 <= page < HEAP_LIMIT / 4096
    modifies p`own, p`frames, vm`mem, vm.pmm, vm.pmm.bitmap
    ensures vm.Valid() && vm.Owns(p.pml4, p.own)
    ensures SameElsewhere(old(vm.mem), vm.mem, p.pml4)
    ensures Confined(old(vm.mem), old(p.own), old(vm.pmm.used), vm.mem, p.own, vm.pmm.used)
    ensures Turn(old(p.own).Values, old(vm.pmm.FreeCount()), page, p.own.Values, vm.pmm.FreeCount(), ok, mapped)
    ensures mapped ==> page in p.frames && p.frames == old(p.frames)[page := p.frames[page]]
    ensures !mapped ==> p.frames == old(p.frames)
    ensures old(HeapPages(vm.mem, p.pml4, p.own, vm.pmm.used, p.frames)) ==>
              HeapPages(vm.mem, p.pml4, p.own, vm.pmm.used, p.frames)
    ensures KeptOrFresh(old(p.frames), old(vm.pmm.used), p.frames, p.own, vm.pmm.used)
  {
    hide HeapPages, SameElsewhere, Walk, Tree, Edited, Confined, LeafEntry, Needed, OnlyPage, SameTranslation;
    hide KeptOrFresh, PageSteps, FrameAllocator.Valid;
    ghost var mem0, own0, used0 := vm.mem, p.own, vm.pmm.used;
    vm.pmm.InRange();
    SameAsItself(mem0, p.pml4);
    SameEverywhere(mem0, mem0, p.pml4);
    RootOf(mem0, p.pml4, own0);
    NeededIsMissing(mem0, p.pml4, own0, page * 4096);
    AsIs(p.frames, used0, own0);
    ConfinedAsIs(mem0, own0, used0);
    var phys := vm.pmm.AllocPage();
    if phys == 0 {
      return false, false;
    }
    vm.pmm.InRange();
    ghost var used1, f := vm.pmm.used, phys / PAGE_SIZE;
    assert used1 == used0 + {f} && phys == f * 4096;
    HeapPage(page);
    ghost var own';
    own', mapped := vm.MapPage(p.pml4, page * 4096, phys, VMM_USER_FLAGS, p.own);
    p.own := own';
    AfterMap(mem0, vm.mem, p.pml4, own0, own', used0, used1, vm.pmm.used, p.frames, page, f, mapped);
    if mapped {
      p.frames := p.frames[page := f];
    }
    ok := true;
  }

  /** The growing loop. It gives every page its frame exactly when there are frames for all the
      pages and all the tables missing on the way to them; it reports success as soon as each
      page found a frame, the last page's tables or not. */
  method Grow(vm: AddressSpaces, p: Process, first: nat, end: nat) returns (ok: bool)
    requires vm.Valid() && vm.Owns(p.pml4, p.own)
    requires HEAP_BASE / 4096 <= first <= end <= HEAP_LIMIT / 4096
    requires HeapPages(vm.mem, p.pml4, p.own, vm.pmm.used, p.frames)
    modifies p`own, p`frames, vm`mem, vm.pmm, vm.pmm.bitmap
    ensures vm.Valid() && vm.Owns(p.pml4, p.own)
    ensures SameElsewhere(old(vm.mem), vm.mem, p.pml4)
    ensures Confined(old(vm.mem), old(p.own), old(vm.pmm.used), vm.mem, p.own, vm.pmm.used)
    ensures HeapPages(vm.mem, p.pml4, p.own, vm.pmm.used, p.frames)
    ensures ok <==> old(vm.pmm.FreeCount()) >= FramesNoticed(old(p.own).Values, first, end)
    ensures ok ==> Grown(old(p.frames), p.frames, first,
                         if old(vm.pmm.FreeCount()) >= FramesFor(old(p.own).Values, first, end)
                         then end else end - 1)
    ensures KeptOrFresh(old(p.frames), old(vm.pmm.used), p.frames, p.own, vm.pmm.used)
    ensures KeptOutside(old(p.frames), p.frames, first, end)
  {
    hide HeapPages, SameElsewhere, Walk, Tree, Confined, Spent, Turn, FramesFor, FramesNoticed;
    hide FrameAllocator.Valid, KeptOrFresh;
    ghost var mem0, own0, used0, frames0 := vm.mem, p.own, vm.pmm.used, p.frames;
    ghost var have, free0 := own0.Values, vm.pmm.FreeCount();
    SameAsItself(mem0, p.pml4);
    SameEverywhere(mem0, mem0, p.pml4);
    ConfinedAsIs(mem0, own0, used0);
    AsIs(frames0, used0, own0);
    SpentStart(have, free0, first);
    ghost var all := true;
    var page := first;
    while page < end
      invariant first <= page <= end
      invariant vm.Valid() && vm.Owns(p.pml4, p.own)
      invariant SameElsewhere(mem0, vm.mem, p.pml4)
      invariant Confined(mem0, own0, used0, vm.mem, p.own, vm.pmm.used) && used0 <= vm.pmm.used
      invariant KeptOrFresh(frames0, used0, p.frames, p.own, vm.pmm.used)
      invariant KeptOutside(frames0, p.frames, first, end)
      invariant HeapPages(vm.mem, p.pml4, p.own, vm.pmm.used, p.frames)
      invariant Spent(have, free0, first, page, p.own.Values, vm.pmm.FreeCount(), all)
      invariant Grown(frames0, p.frames, first, if all then page else page - 1)
    {
      ghost var mem1, own1, used1, frames1, free1 := vm.mem, p.own, vm.pmm.used, p.frames, vm.pmm.FreeCount();
      ghost var mapped;
      ok, mapped := GrowPage(vm, p, page);
      SpentTurn(have, free0, first, page, end, own1.Values, free1, all,
                p.own.Values, vm.pmm.FreeCount(), ok, mapped);
      ConfinedTwice(mem0, own0, used0, mem1, own1, used1, vm.mem, p.own, vm.pmm.used);
      KeptOrFreshTwice(frames0, used0, frames1, mem1, own1, used1, p.frames, vm.mem, p.own, vm.pmm.used);
      SameElsewhereTwice(mem0, mem1, vm.mem, p.pml4);
      if !ok {
        return;
      }
      all := mapped;
      page := page + 1;
    }
    SpentAll(have, free0, first, end, p.own.Values, vm.pmm.FreeCount(), all);
    ok := true;
  }

  lemma OutsidePage(mem: Memory, mem': Memory, root: nat, p: nat, e: u64)
    requires HEAP_BASE / 4096 <= p < HEAP_LIMIT / 4096 && OnlyPage(mem, mem', root, p * 4096, e)
    ensures SameElsewhere(mem, mem', root)
  {
    hide Walk, EntryLeaf;
    HeapPage(p);
  }

  lemma ConfinedLater(mem: Memory, own: Labels, used: set<nat>, used1: set<nat>,
                      mem': Memory, own': Labels, used': set<nat>)
    requires used <= used1 && Confined(mem, own, used1, mem', own', used')
    ensures Confined(mem, own, used, mem', own', used')
  {
  }

  // One page of the shrinking loop.
  method ShrinkPage(vm: AddressSpaces, p: Process, page: nat)
    requires vm.Valid() && vm.Owns(p.pml4, p.own)
    requires HEAP_BASE / 4096 <= page < HEAP_LIMIT / 4096
    requires HeapPages(vm.mem, p.pml4, p.own, vm.pmm.used, p.frames)
    modifies p`own, p`frames, vm`mem, vm.pmm, vm.pmm.bitmap
    ensures vm.Valid() && vm.Owns(p.pml4, p.own)
    ensures SameElsewhere(old(vm.mem), vm.mem, p.pml4)
    ensures Confined(old(vm.mem), old(p.own), old(vm.pmm.used), vm.mem, p.own, vm.pmm.used)
    ensures p.frames == old(p.frames) - {page}
    ensures HeapPages(vm.mem, p.pml4, p.own, vm.pmm.used, p.frames)
  {
    hide HeapPages, SameElsewhere, Walk, Tree, Edited, Confined, InHugePage, OnlyPage, SameTranslation;
    hide FrameAllocator.Valid;
    HeapPage(page);
    ghost var mem1, own1, used1 := vm.mem, p.own, vm.pmm.used;
    RootOf(mem1, p.pml4, own1);
    NotInHugePage(mem1, p.pml4, own1, used1, p.frames, page);
    ghost var own', done := vm.UnmapPage(p.pml4, page * 4096, p.own);
    EditIsConfined(mem1, own1, used1, vm.mem, own', vm.pmm.used, page * 4096);
    p.own := own';
    PageRemoved(mem1, vm.mem, p.pml4, own1, own', used1, vm.pmm.used, p.frames, page);
    OutsidePage(mem1, vm.mem, p.pml4, page, 0);
    p.frames := p.frames - {page};
  }

  /** The shrinking loop: it needs no frame, since no heap page lies in a 2 MiB page. */
  method Shrink(vm: AddressSpaces, p: Process, first: nat, end: nat)
    requires vm.Valid() && vm.Owns(p.pml4, p.own)
    requires HEAP_BASE / 4096 <= first <= end <= HEAP_LIMIT / 4096
    requires HeapPages(vm.mem, p.pml4, p.own, vm.pmm.used, p.frames)
    modifies p`own, p`frames, vm`mem, vm.pmm, vm.pmm.bitmap
    ensures vm.Valid() && vm.Owns(p.pml4, p.own)
    ensures SameElsewhere(old(vm.mem), vm.mem, p.pml4)
    ensures Confined(old(vm.mem), old(p.own), old(vm.pmm.used), vm.mem, p.own, vm.pmm.used)
    ensures HeapPages(vm.mem, p.pml4, p.own, vm.pmm.used, p.frames)
    ensures forall q :: q in p.frames <==> q in old(p.frames) && !(first <= q < end)
    ensures KeptOrFresh(old(p.frames), old(vm.pmm.used), p.frames, p.own, vm.pmm.used)
    ensures KeptOutside(old(p.frames), p.frames, first, end)
  {
    hide HeapPages, SameElsewhere, Walk, Tree, Confined, FrameAllocator.Valid;
    ghost var mem0, own0, used0 := vm.mem, p.own, vm.pmm.used;
    SameAsItself(mem0, p.pml4);
    SameEverywhere(mem0, mem0, p.pml4);
    ConfinedAsIs(mem0, own0, used0);
    var page := first;
    while page < end
      invariant first <= page <= end
      invariant vm.Valid() && vm.Owns(p.pml4, p.own)
      invariant SameElsewhere(mem0, vm.mem, p.pml4)
      invariant Confined(mem0, own0, used0, vm.mem, p.own, vm.pmm.used)
      invariant HeapPages(vm.mem, p.pml4, p.own, vm.pmm.used, p.frames)
      invariant forall q :: q in p.frames ==> q in old(p.frames) && p.frames[q] == old(p.frames)[q]
      invariant forall q :: q in p.frames <==> q in old(p.frames) && !(first <= q < page)
    {
      ghost var mem1, own1, used1 := vm.mem, p.own, vm.pmm.used;
      ShrinkPage(vm, p, page);
      ConfinedTwice(mem0, own0, used0, mem1, own1, used1, vm.mem, p.own, vm.pmm.used);
      SameElsewhereTwice(mem0, mem1, vm.mem, p.pml4);
      page := page + 1;
    }
  }

  // A mapped heap page has a page table; elsewhere in the region nothing is mapped.
  lemma NotInHugePage(mem: Memory, root: nat, own: Labels, used: set<nat>, frames: map<nat, nat>, page: nat)
    requires HeapPages(mem, root, own, used, frames) && Tree(mem, root, own)
    requires HEAP_BASE / 4096 <= page < HEAP_LIMIT / 4096
    ensures !InHugePage(mem, root, 4, page * 4096)
  {
    hide Walk, InHugePage, Tree;
    HeapPage(page);
    if page in frames {
      UnderPageTable(mem, root, own, page * 4096);
    } else {
      NothingHuge(mem, root, own, page * 4096);
    }
  }

  lemma NothingHuge(mem: Memory, root: nat, own: Labels, va: nat)
    requires Tree(mem, root, own) && Walk(mem, root, 4, va) == None
    ensures !InHugePage(mem, root, 4, va)
  {
    hide Rooted;
    var i4, i3 := Index(4, va), Index(3, va);
    assert LinkOk(mem, own, root, i4);
    if Present(mem[root][i4]) {
      var pdp := FrameOf(mem[root][i4]);
      assert Walk(mem, pdp, 3, va) == None;
      assert LinkOk(mem, own, pdp, i3);
    }
  }

  /** One call, whatever frames are left. It moves the break to the value asked for unless the
      value lies below the heap or the growing loop finds no frame; the heap invariant survives
      the move exactly when there are frames for the pages and all their tables; the pages below
      both breaks keep their frames and bytes; and in no case does a translation outside the heap
      region change. */
  method SysBrk(vm: AddressSpaces, p: Process, newBrk: nat) returns (r: nat)
    requires HeapSound(vm, p) && newBrk < HEAP_LIMIT
    modifies p`own, p`frames, p`heapStart, p`heapEnd, vm`mem, vm.pmm, vm.pmm.bitmap
    ensures r == p.heapEnd == Break(p) && HeapSound(vm, p)
    ensures SameElsewhere(old(vm.mem), vm.mem, p.pml4)
    ensures Confined(old(vm.mem), old(p.own), old(vm.pmm.used), vm.mem, p.own, vm.pmm.used)
    ensures p.heapEnd == if newBrk >= HEAP_BASE && old(vm.pmm.FreeCount()) >= old(BrkNoticed(p, newBrk))
                         then newBrk else old(Break(p))
    ensures newBrk < HEAP_BASE ==> p.frames == old(p.frames)
    ensures newBrk >= HEAP_BASE && old(vm.pmm.FreeCount()) >= old(BrkNoticed(p, newBrk)) ==>
              BrkPages(old(p.frames), p.frames, old(PageUp(Break(p))), PageUp(newBrk),
                       old(vm.pmm.FreeCount()) >= old(BrkFrames(p, newBrk)))
    ensures old(HeapOk(vm, p)) ==>
              (HeapOk(vm, p) && p.heapEnd == newBrk <==>
               newBrk >= HEAP_BASE && old(vm.pmm.FreeCount()) >= old(BrkFrames(p, newBrk)))
    ensures KeptOrFresh(old(p.frames), old(vm.pmm.used), p.frames, p.own, vm.pmm.used)
    ensures HeapKept(old(vm.mem), vm.mem, old(p.frames), p.frames, Smaller(old(PageUp(Break(p))), PageUp(p.heapEnd)))
  {
    hide HeapPages, SameElsewhere, Walk, Tree, Confined, SameTranslation, FrameAllocator.Valid, KeptOrFresh;
    hide FramesFor, FramesNoticed, HeapKept;
    ghost var mem0, own0, used0 := vm.mem, p.own, vm.pmm.used;
    SameAsItself(vm.mem, p.pml4);
    SameEverywhere(vm.mem, vm.mem, p.pml4);
    ConfinedAsIs(vm.mem, p.own, vm.pmm.used);
    AsIs(p.frames, vm.pmm.used, p.own);
    PagesUnwritten(mem0, own0, used0, mem0, own0, used0, p.pml4, p.frames, p.frames, 0, 0, PageUp(Break(p)));
    if p.heapStart == 0 {
      p.heapStart := HEAP_BASE;
      p.heapEnd := p.heapStart;
    }
    ghost var have, first, end := p.own.Values, PageUp(p.heapEnd), PageUp(newBrk);
    ghost var frames0, enough := p.frames, vm.pmm.FreeCount() >= FramesFor(have, first, end);
    FewerFrames(have, first, end);
    if newBrk == 0 || newBrk == p.heapEnd {
      return p.heapEnd;
    }
    if newBrk < p.heapStart {
      return p.heapEnd;
    }
    var currentPageEnd := PageUp(p.heapEnd);
    var newPageEnd := PageUp(newBrk);
    if newPageEnd > currentPageEnd {
      var ok := Grow(vm, p, currentPageEnd, newPageEnd);
      PagesUnwritten(mem0, own0, used0, vm.mem, p.own, vm.pmm.used, p.pml4, frames0, p.frames, first, end, first);
      if !ok {
        return p.heapEnd;
      }
      assert !enough && newPageEnd - 1 !in frames0 ==> newPageEnd - 1 !in p.frames;
    } else if newPageEnd < currentPageEnd {
      Shrink(vm, p, newPageEnd, currentPageEnd);
      PagesUnwritten(mem0, own0, used0, vm.mem, p.own, vm.pmm.used, p.pml4, frames0, p.frames, end, first, end);
    }
    p.heapEnd := newBrk;
    return p.heapEnd;
  }

  function Smaller(a: nat, b: nat): nat { if a < b then a else b }

  // From a break in page first to one in page end, every page found its tables or all but the last.
  ghost predicate BrkPages(frames: map<nat, nat>, frames': map<nat, nat>, first: nat, end: nat, all: bool) {
    if first <= end then Grown(frames, frames', first, if all || first == end then end else end - 1)
    else forall q :: q in frames' <==> q in frames && !(end <= q < first)
  }

  // The first page of a heap without tables takes four frames; one is enough to go unnoticed.
  lemma FirstHeapPage(mem: Memory, root: nat, own: Labels)
    requires Tree(mem, root, own) && Path(HEAP_BASE, 1) !in own.Values
    ensures FramesFor(own.Values, HEAP_BASE / 4096, HEAP_BASE / 4096 + 1) == 4
    ensures FramesNoticed(own.Values, HEAP_BASE / 4096, HEAP_BASE / 4096 + 1) == 1
  {
    hide Tree, PageSteps, Index;
    var page := HEAP_BASE / 4096;
    RootOf(mem, root, own);
    LinkStep(mem, root, own, root, HEAP_BASE, 0);
    OnePage(mem, root, own, page);
    NeededStep(mem, root, 4, HEAP_BASE);
    NextPage(own.Values, page, page);
    NoPages(own.Values, page);
  }

  /** With one to three frames left, a process without a heap that asks for its first byte is
      told that it has it; the page is not mapped. */
  method FirstByteUnmapped(vm: AddressSpaces, p: Process) returns (r: nat)
    requires HeapOk(vm, p) && p.heapStart == 0 && Path(HEAP_BASE, 1) !in p.own.Values
    requires 1 <= vm.pmm.FreeCount() <= 3
    modifies p`own, p`frames, p`heapStart, p`heapEnd, vm`mem, vm.pmm, vm.pmm.bitmap
    ensures r == p.heapEnd == HEAP_BASE + 1
    ensures Walk(vm.mem, p.pml4, 4, HEAP_BASE) == None && !HeapOk(vm, p)
  {
    hide Tree, Walk, Confined, SameElsewhere, Path, FramesFor, FramesNoticed;
    FirstHeapPage(vm.mem, p.pml4, p.own);
    HeapPage(HEAP_BASE / 4096);
    r := SysBrk(vm, p, HEAP_BASE + 1);
  }
}
