/** The program loader, load_elf_into_process of kernel/onion.c: every PT_LOAD segment of a
    64-bit ELF file goes, page by page, into fresh frames of an address space
    (System V ABI, chapter 5, "Program Header"). */
module Elf {
  import opened Wrappers
  import opened Bits
  import opened Codec
  import opened PageTables
  import opened Pmm
  import opened Vmm
  import opened FrameNeeds
  import opened FrameBytes

  const EHDR_SIZE: nat := 64
  const PHDR_SIZE: nat := 56
  const PT_LOAD: nat := 1

  datatype Segment = Segment(kind: nat, flags: nat, offset: nat, vaddr: nat, filesz: nat, memsz: nat)

  function PhNum(file: seq<byte>): nat
    requires |file| >= EHDR_SIZE
  {
    Field(file, 56, 2)
  }

  function PhOff(file: seq<byte>): nat
    requires |file| >= EHDR_SIZE
  {
    Field(file, 32, 8)
  }

  // The checks made before the program headers are read.
  predicate HeaderOk(file: seq<byte>) {
    && |file| >= EHDR_SIZE
    && file[0] == 0x7F && file[1] == 0x45 && file[2] == 0x4C && file[3] == 0x46
    && file[4] == 2 && file[5] == 1
    && Field(file, 18, 2) == 62
    && (Field(file, 16, 2) == 2 || Field(file, 16, 2) == 3)
    && PhNum(file) != 0
    && Field(file, 54, 2) == PHDR_SIZE
    && PhOff(file) <= |file|
    && PhNum(file) * PHDR_SIZE <= |file| - PhOff(file)
  }

  function SegmentAt(file: seq<byte>, i: nat): Segment
    requires HeaderOk(file) && i < PhNum(file)
  {
    var o := PhOff(file) + i * PHDR_SIZE;
    Segment(Field(file, o, 4), Field(file, o + 4, 4), Field(file, o + 8, 8),
            Field(file, o + 16, 8), Field(file, o + 32, 8), Field(file, o + 40, 8))
  }

  /** Where the fields of the i-th program header are: Elf64_Phdr, 56 bytes each from e_phoff on. */
  lemma SegmentLayout(file: seq<byte>, i: nat)
    requires HeaderOk(file) && i < PhNum(file)
    ensures PhNum(file) == Number2(file[56..58]) && PhOff(file) == Number8(file[32..40])
    ensures var o, s := Number8(file[32..40]) + 56 * i, SegmentAt(file, i);
            && o + 56 <= |file|
            && s.kind == Number4(file[o..o + 4]) && s.flags == Number4(file[o + 4..o + 8])
            && s.offset == Number8(file[o + 8..o + 16]) && s.vaddr == Number8(file[o + 16..o + 24])
            && s.filesz == Number8(file[o + 32..o + 40]) && s.memsz == Number8(file[o + 40..o + 48])
  {
    hide Field, Number2, Number4, Number8;
    FieldNumber(file, 32);
    FieldNumber(file, 56);
    var o := PhOff(file) + 56 * i;
    assert o + 56 <= |file|;
    FieldNumber(file, o);
    FieldNumber(file, o + 4);
    FieldNumber(file, o + 8);
    FieldNumber(file, o + 16);
    FieldNumber(file, o + 32);
    FieldNumber(file, o + 40);
  }

  // The checks made on one PT_LOAD header; sums are 64-bit, so an overflow shows as a wrap.
  predicate SegmentOk(s: Segment, fileSize: nat) {
    && s.filesz <= s.memsz
    && s.offset <= fileSize
    && s.filesz <= fileSize - s.offset
    && s.vaddr + s.memsz < 0x1_0000_0000_0000_0000
    && (s.memsz == 0 || s.vaddr + s.memsz <= 0xFFFF_FFFF_FFFF_F000)
  }

  function FirstPage(s: Segment): nat { s.vaddr / 4096 }

  // One past the last page; an empty segment has no pages.
  function EndPage(s: Segment): nat {
    if s.memsz == 0 then s.vaddr / 4096 else (s.vaddr + s.memsz + 4095) / 4096
  }

  lemma ShortField(file: seq<byte>, o: nat, v: byte)
    requires o + 2 <= |file|
    ensures Field(file, o, 2) == v <==> file[o] == v && file[o + 1] == 0
  {
    FieldNumber(file, o);
  }

  /** The checks byte by byte: a 64-bit little-endian x86-64 file, executable or shared, whose
      program headers of 56 bytes lie within it. */
  lemma HeaderBytes(file: seq<byte>)
    requires |file| >= 64
    ensures HeaderOk(file) <==>
            && file[0] == 0x7F && file[1] == 0x45 && file[2] == 0x4C && file[3] == 0x46 && file[4] == 2 && file[5] == 1
            && (file[16] == 2 || file[16] == 3) && file[17] == 0 && file[18] == 62 && file[19] == 0
            && file[54] == 56 && file[55] == 0
            && Number2(file[56..58]) > 0 && Number8(file[32..40]) + 56 * Number2(file[56..58]) <= |file|
  {
    hide Number8, Number2, Field;
    ShortField(file, 16, 2);
    ShortField(file, 16, 3);
    ShortField(file, 18, 62);
    ShortField(file, 54, 56);
    FieldNumber(file, 32);
    FieldNumber(file, 56);
  }

  // A segment passes when its bytes lie within the file and within its memory, and its end does not
  // wrap: a page with an address in it ends in the address space too.
  lemma SegmentPasses(s: Segment, fileSize: nat)
    ensures SegmentOk(s, fileSize) <==>
            && s.filesz <= s.memsz && s.offset + s.filesz <= fileSize
            && s.vaddr + s.memsz <= if s.memsz == 0 then 0xFFFF_FFFF_FFFF_FFFF else 0xFFFF_FFFF_FFFF_F000
  {
  }

  /** The pages of a segment are those that hold one of its addresses. */
  lemma PagesOfSegment(s: Segment, page: nat)
    ensures FirstPage(s) <= page < EndPage(s) <==> exists a: nat :: s.vaddr <= a < s.vaddr + s.memsz && a / 4096 == page
  {
    if FirstPage(s) <= page < EndPage(s) {
      var a := if s.vaddr / 4096 == page then s.vaddr else page * 4096;
      assert s.vaddr <= a < s.vaddr + s.memsz && a / 4096 == page;
    }
    if a: nat :| s.vaddr <= a < s.vaddr + s.memsz && a / 4096 == page {
      var end := s.vaddr + s.memsz;
      assert a <= end - 1 && (end + 4095) / 4096 == (end - 1) / 4096 + 1;
    }
  }

  function PageFlags(s: Segment): (f: nat)
    ensures f < 4096
  {
    if s.flags / 2 % 2 == 1 then 6 else 4  // PAGE_USER, with PAGE_WRITE for PF_W
  }

  // What the segment puts at address a of one of its pages.
  function SegmentByte(file: seq<byte>, s: Segment, a: nat): byte
    requires SegmentOk(s, |file|)
  {
    if s.vaddr <= a < s.vaddr + s.filesz then file[s.offset + (a - s.vaddr)] else 0
  }

  function PageImage(file: seq<byte>, s: Segment, page: nat): (b: seq<byte>)
    requires SegmentOk(s, |file|)
    ensures |b| == 4096
  {
    seq<byte>(4096, k requires 0 <= k < 4096 => SegmentByte(file, s, page * 4096 + k))
  }

  function IsLoad(file: seq<byte>, i: nat): bool
    requires HeaderOk(file) && i < PhNum(file)
  {
    SegmentAt(file, i).kind == PT_LOAD
  }

  // All PT_LOAD headers among the first n pass, and fit the 48-bit address space.
  ghost predicate SegmentsOk(file: seq<byte>, n: nat)
    requires HeaderOk(file) && n <= PhNum(file)
  {
    forall i :: 0 <= i < n && IsLoad(file, i) ==> SegmentOk(SegmentAt(file, i), |file|)
  }

  // A page of the address space and what the loader has put there.
  datatype Placed = Placed(frame: nat, bytes: seq<byte>, flags: nat)

  ghost predicate PlacedOk(mem: Memory, root: nat, own: Labels, used: set<nat>, page: nat, p: Placed) {
    && |p.bytes| == 4096 && p.flags < 4096
    && p.frame in used && p.frame !in own && p.frame < |mem| && p.frame < MAX_PAGES
    && Holds(mem[p.frame], p.bytes)
    && (forall va: nat :: va < ADDRESS_SPACE && va / 4096 == page ==>
          Walk(mem, root, 4, va) == Some(Leaf(p.frame * 4096 + va % 4096, Writable(p.flags), User(p.flags))))
  }

  // Exactly the pages of placed changed; all others translate as in mem0.
  ghost predicate Image(mem0: Memory, mem: Memory, root: nat, own: Labels, used: set<nat>,
                        placed: map<nat, Placed>)
  {
    && (forall page :: page in placed ==> PlacedOk(mem, root, own, used, page, placed[page]))
    && (forall va: nat :: va < ADDRESS_SPACE && va / 4096 !in placed ==>
                            Walk(mem, root, 4, va) == Walk(mem0, root, 4, va))
  }

  // Every page placed has a frame to itself, one that was free before the load.
  ghost predicate OwnFrames(placed: map<nat, Placed>, used0: set<nat>) {
    && (forall p :: p in placed ==> placed[p].frame !in used0)
    && (forall p, q :: p in placed && q in placed && p != q ==> placed[p].frame != placed[q].frame)
  }

  lemma OneMoreFrame(mem0: Memory, mem: Memory, root: nat, own: Labels, used0: set<nat>, used: set<nat>,
                     placed: map<nat, Placed>, page: nat, p: Placed)
    requires Image(mem0, mem, root, own, used, placed) && OwnFrames(placed, used0)
    requires p.frame !in used && used0 <= used
    ensures OwnFrames(placed[page := p], used0)
  {
    hide Walk, Holds;
    forall q | q in placed
      ensures placed[q].frame in used
    {
      assert PlacedOk(mem, root, own, used, q, placed[q]);
    }
  }

  // One more page, in a frame that was free, over whatever the page held before.
  lemma ImageGrows(mem0: Memory, mem: Memory, mem': Memory, root: nat, own: Labels, used: set<nat>,
                   own': Labels, used': set<nat>, placed: map<nat, Placed>, page: nat, p: Placed, e: u64)
    requires Image(mem0, mem, root, own, used, placed) && page * 4096 < ADDRESS_SPACE
    requires Confined(mem, own, used, mem', own', used')
    requires OnlyPage(mem, mem', root, page * 4096, e)
    requires |p.bytes| == 4096 && p.flags < 4096 && p.frame < MAX_PAGES
    requires p.frame in used' && p.frame !in own' && p.frame < |mem'|
    requires Holds(mem'[p.frame], p.bytes)
    requires e == LeafEntry(p.frame * 4096, p.flags)
    ensures Image(mem0, mem', root, own', used', placed[page := p])
  {
    hide Walk, Holds, LeafEntry;
    LeafOfPage(p.frame, p.flags);
    forall q | q in placed && q != page
      ensures PlacedOk(mem', root, own', used', q, placed[q])
    {
      assert PlacedOk(mem, root, own, used, q, placed[q]);
    }
  }

  lemma ImageKept(mem0: Memory, mem: Memory, mem': Memory, root: nat, own: Labels, used: set<nat>,
                  own': Labels, used': set<nat>, placed: map<nat, Placed>)
    requires Image(mem0, mem, root, own, used, placed)
    requires Confined(mem, own, used, mem', own', used') && SameTranslation(mem, mem', root)
    ensures Image(mem0, mem', root, own', used', placed)
  {
    hide Walk, Holds;
    forall q | q in placed
      ensures PlacedOk(mem', root, own', used', q, placed[q])
    {
      assert PlacedOk(mem, root, own, used, q, placed[q]);
    }
  }

  lemma LeafOfPage(f: nat, flags: nat)
    requires f < MAX_PAGES && flags < 4096
    ensures forall va: nat :: EntryLeaf(LeafEntry(f * 4096, flags), va) ==
                              Some(Leaf(f * 4096 + va % 4096, Writable(flags), User(flags)))
  {
    hide LeafEntry, Present, Writable, User;
    var e := LeafEntry(f * 4096, flags);
    assert e / 4096 == f && e - e % 4096 == f * 4096;
  }

  // The first half of the page loop's body: a fresh frame, cleared and mapped at the page.
  method MapFreshFrame(vm: AddressSpaces, pml4: nat, page: nat, flags: nat, ghost own: Labels)
    returns (f: nat, ghost own': Labels, ghost mapped: bool)
    requires vm.Valid() && vm.Owns(pml4, own) && page * 4096 < ADDRESS_SPACE && flags < 4096
    modifies vm`mem, vm.pmm, vm.pmm.bitmap
    ensures vm.Valid() && vm.Owns(pml4, own')
    ensures Confined(old(vm.mem), own, old(vm.pmm.used), vm.mem, own', vm.pmm.used)
    ensures Turn(own.Values, old(vm.pmm.FreeCount()), page, own'.Values, vm.pmm.FreeCount(), f != 0, mapped)
    ensures f != 0 ==> f in vm.pmm.used && f !in old(vm.pmm.used) && f !in own' && f < MAX_PAGES
    ensures f != 0 ==> forall k :: 0 <= k < 4096 ==> Load(vm.mem[f], k) == 0
    ensures mapped ==> f != 0 && OnlyPage(old(vm.mem), vm.mem, pml4, page * 4096, LeafEntry(f * 4096, flags))
    ensures !mapped ==> SameTranslation(old(vm.mem), vm.mem, pml4)
  {
    hide Walk, LeafEntry, Tree, Edited, Confined, OnlyPage, SameTranslation, Needed, Load, AllFrames;
    hide FrameAllocator.Valid, PageSteps;
    ghost var mem0, used0 := vm.mem, vm.pmm.used;
    RootOf(mem0, pml4, own);
    vm.pmm.InRange();
    own', mapped := own, false;
    ConfinedAsIs(mem0, own, used0);
    SameAsItself(mem0, pml4);
    var phys := vm.pmm.AllocPage();
    if phys == 0 {
      return 0, own, false;
    }
    f := phys / PAGE_SIZE;
    assert phys == f * 4096;
    vm.pmm.InRange();
    ClearFrame(vm, f);
    ghost var mem1, used1 := vm.mem, vm.pmm.used;
    FreshWrite(mem0, own, used0, mem1, used1, pml4, f);
    NeededIsMissing(mem1, pml4, own, page * 4096);
    own', mapped := vm.MapPage(pml4, page * 4096, phys, flags, own);
    EditIsConfined(mem1, own, used1, vm.mem, own', vm.pmm.used, page * 4096);
    ConfinedFrame(mem1, own, used1, vm.mem, own', vm.pmm.used, f);
    ConfinedTwice(mem0, own, used0, mem1, own, used1, vm.mem, own', vm.pmm.used);
    if mapped {
      SameThenPage(mem0, mem1, vm.mem, pml4, page * 4096, LeafEntry(phys, flags));
    } else {
      SameTwice(mem0, mem1, vm.mem, pml4);
    }
  }

  /** The body of the page loop: allocate, clear, map, copy the part of the file that falls in
      this page. A mapping that finds no frame for its tables goes unnoticed. */
  method LoadPage(vm: AddressSpaces, pml4: nat, file: seq<byte>, s: Segment, page: nat, ghost own: Labels)
    returns (ok: bool, ghost own': Labels, ghost mapped: bool, ghost frame: nat)
    requires vm.Valid() && vm.Owns(pml4, own)
    requires SegmentOk(s, |file|) && FirstPage(s) <= page < EndPage(s) && page * 4096 < ADDRESS_SPACE
    modifies vm`mem, vm.pmm, vm.pmm.bitmap
    ensures vm.Valid() && vm.Owns(pml4, own')
    ensures Confined(old(vm.mem), own, old(vm.pmm.used), vm.mem, own', vm.pmm.used)
    ensures Turn(own.Values, old(vm.pmm.FreeCount()), page, own'.Values, vm.pmm.FreeCount(), ok, mapped)
    ensures ok ==> frame in vm.pmm.used && frame !in old(vm.pmm.used) && frame !in own' && frame < MAX_PAGES
    ensures ok ==> Holds(vm.mem[frame], PageImage(file, s, page))
    ensures mapped ==> ok && OnlyPage(old(vm.mem), vm.mem, pml4, page * 4096,
                                      LeafEntry(frame * 4096, PageFlags(s)))
    ensures !mapped ==> SameTranslation(old(vm.mem), vm.mem, pml4)
  {
    hide Walk, LeafEntry, Tree, Confined, OnlyPage, SameTranslation, Holds, PageImage, Load, Turn;
    hide FrameAllocator.Valid;
    var f;
    f, own', mapped := MapFreshFrame(vm, pml4, page, PageFlags(s), own);
    frame := f;
    if f == 0 {
      return false, own', mapped, frame;
    }
    ghost var mem1 := vm.mem;
    CopyPart(vm, file, s, page, f);
    FreshAgain(old(vm.mem), own, old(vm.pmm.used), mem1, vm.mem, own', vm.pmm.used, pml4, f);
    if mapped {
      PageThenSame(old(vm.mem), mem1, vm.mem, pml4, page * 4096, LeafEntry(f * 4096, PageFlags(s)));
    } else {
      SameTwice(old(vm.mem), mem1, vm.mem, pml4);
    }
    ok := true;
  }

  // Writing a frame outside the tree and outside the frames used at the start.
  lemma FreshWrite(mem: Memory, own: Labels, used: set<nat>, mem': Memory, used': set<nat>,
                   root: nat, f: nat)
    requires Tree(mem, root, own) && own.Keys <= used && f !in used && used <= used'
    requires |mem'| == |mem| && forall u :: 0 <= u < |mem| && u != f ==> mem'[u] == mem[u]
    ensures Tree(mem', root, own) && SameTranslation(mem, mem', root)
    ensures Confined(mem, own, used, mem', own, used')
  {
    hide Rooted;
    TreeUntouched(mem, mem', root, own);
    forall va: nat | va < ADDRESS_SPACE
      ensures Walk(mem', root, 4, va) == Walk(mem, root, 4, va)
    {
      WalkUntouched(mem, mem', root, own, root, 4, va);
    }
  }

  lemma FreshAgain(mem0: Memory, own: Labels, used: set<nat>, mem: Memory, mem': Memory,
                   own': Labels, used': set<nat>, root: nat, f: nat)
    requires Confined(mem0, own, used, mem, own', used') && Tree(mem, root, own')
    requires f !in used && f !in own'
    requires |mem'| == |mem| && forall u :: 0 <= u < |mem| && u != f ==> mem'[u] == mem[u]
    ensures Tree(mem', root, own') && SameTranslation(mem, mem', root)
    ensures Confined(mem0, own, used, mem', own', used')
  {
    hide Rooted;
    FreshWrite(mem, own', own'.Keys, mem', own'.Keys, root, f);
  }

  lemma PageThenSame(mem: Memory, mem1: Memory, mem2: Memory, root: nat, virt: nat, e: u64)
    requires OnlyPage(mem, mem1, root, virt, e) && SameTranslation(mem1, mem2, root)
    ensures OnlyPage(mem, mem2, root, virt, e)
  {
  }

  // The frame cleared byte by byte.
  method ClearFrame(vm: AddressSpaces, f: nat)
    requires f < |vm.mem|
    modifies vm`mem
    ensures |vm.mem| == |old(vm.mem)| && vm.mem == old(vm.mem)[f := vm.mem[f]]
    ensures forall k :: 0 <= k < 4096 ==> Load(vm.mem[f], k) == 0
  {
    hide Load, Store;
    var i := 0;
    while i < 4096
      invariant 0 <= i <= 4096
      invariant |vm.mem| == |old(vm.mem)| && vm.mem == old(vm.mem)[f := vm.mem[f]]
      invariant forall k :: 0 <= k < i ==> Load(vm.mem[f], k) == 0
    {
      forall k | 0 <= k < i + 1
        ensures Load(Store(vm.mem[f], i, 0), k) == 0
      {
        LoadAfterStore(vm.mem[f], i, 0, k);
      }
      vm.mem := vm.mem[f := Store(vm.mem[f], i, 0)];
      i := i + 1;
    }
  }

  // After j bytes of the copy: the file from srcOff on, at dst, over zeros.
  ghost predicate CopiedSoFar(t: Table, file: seq<byte>, srcOff: nat, dst: nat, j: nat)
    requires srcOff + j <= |file|
  {
    forall k :: 0 <= k < 4096 ==>
      Load(t, k) == if dst <= k < dst + j then file[srcOff + (k - dst)] else 0
  }

  lemma CopyOneByte(t: Table, file: seq<byte>, srcOff: nat, dst: nat, j: nat)
    requires srcOff + j < |file| && dst + j < 4096 && CopiedSoFar(t, file, srcOff, dst, j)
    ensures CopiedSoFar(Store(t, dst + j, file[srcOff + j]), file, srcOff, dst, j + 1)
  {
    hide Load, Store;
    var t' := Store(t, dst + j, file[srcOff + j]);
    forall k | 0 <= k < 4096
      ensures Load(t', k) == if dst <= k < dst + j + 1 then file[srcOff + (k - dst)] else 0
    {
      LoadAfterStore(t, dst + j, file[srcOff + j], k);
    }
  }

  lemma CopyMakesImage(t: Table, file: seq<byte>, s: Segment, page: nat, srcOff: nat, dst: nat, len: nat)
    requires SegmentOk(s, |file|) && srcOff + len <= |file| && CopiedSoFar(t, file, srcOff, dst, len)
    requires var start := page * 4096;
             var lo := if start < s.vaddr then s.vaddr else start;
             var hi := if start + 4096 > s.vaddr + s.filesz then s.vaddr + s.filesz else start + 4096;
             if lo >= hi then len == 0
             else len == hi - lo && dst == lo - start && srcOff == s.offset + (lo - s.vaddr)
    ensures Holds(t, PageImage(file, s, page))
  {
    hide Load;
    var bytes := PageImage(file, s, page);
    forall k | 0 <= k < 4096
      ensures Load(t, k) == bytes[k]
    {
      assert bytes[k] == SegmentByte(file, s, page * 4096 + k);
    }
  }

  // The copy of the file's bytes that fall in this page; the two late range checks of the
  // source always pass.
  method CopyPart(vm: AddressSpaces, file: seq<byte>, s: Segment, page: nat, f: nat)
    requires f < |vm.mem| && SegmentOk(s, |file|)
    requires forall k :: 0 <= k < 4096 ==> Load(vm.mem[f], k) == 0
    modifies vm`mem
    ensures |vm.mem| == |old(vm.mem)| && vm.mem == old(vm.mem)[f := vm.mem[f]]
    ensures Holds(vm.mem[f], PageImage(file, s, page))
  {
    hide Load, Store, PageImage, Holds;
    var start := page * 4096;
    var copyStart := if start < s.vaddr then s.vaddr else start;
    var fileEnd := s.vaddr + s.filesz;
    var copyEnd := if start + PAGE_SIZE > fileEnd then fileEnd else start + PAGE_SIZE;
    if copyStart >= copyEnd {
      CopyMakesImage(vm.mem[f], file, s, page, 0, 0, 0);
      return;
    }
    var len := copyEnd - copyStart;
    var srcOff := s.offset + (copyStart - s.vaddr);
    assert srcOff <= |file| && len <= |file| - srcOff;
    var dst := copyStart - start;
    var j := 0;
    while j < len
      invariant 0 <= j <= len
      invariant |vm.mem| == |old(vm.mem)| && vm.mem == old(vm.mem)[f := vm.mem[f]]
      invariant CopiedSoFar(vm.mem[f], file, srcOff, dst, j)
    {
      CopyOneByte(vm.mem[f], file, srcOff, dst, j);
      vm.mem := vm.mem[f := Store(vm.mem[f], dst + j, file[srcOff + j])];
      j := j + 1;
    }
    CopyMakesImage(vm.mem[f], file, s, page, srcOff, dst, len);
  }

  // The last of the first n headers that places the page, or None.
  ghost function LastCover(file: seq<byte>, n: nat, page: nat): Option<nat>
    requires HeaderOk(file) && n <= PhNum(file)
  {
    if n == 0 then None
    else if IsLoad(file, n - 1) && FirstPage(SegmentAt(file, n - 1)) <= page < EndPage(SegmentAt(file, n - 1))
    then Some(n - 1)
    else LastCover(file, n - 1, page)
  }

  // The page holds what the last of the first n headers covering it puts there.
  ghost predicate PlacedBy(file: seq<byte>, placed: map<nat, Placed>, page: nat, n: nat)
    requires HeaderOk(file) && n <= PhNum(file)
  {
    match LastCover(file, n, page)
    case None => page !in placed
    case Some(i) => PlacedFrom(file, placed, page, i)
  }

  ghost predicate AllPlaced(file: seq<byte>, placed: map<nat, Placed>, n: nat)
    requires HeaderOk(file) && n <= PhNum(file)
  {
    forall page: nat :: PlacedBy(file, placed, page, n)
  }

  ghost predicate PlacedFrom(file: seq<byte>, placed: map<nat, Placed>, page: nat, i: nat)
    requires HeaderOk(file)
  {
    && i < PhNum(file) && IsLoad(file, i) && SegmentOk(SegmentAt(file, i), |file|)
    && page in placed
    && placed[page].bytes == PageImage(file, SegmentAt(file, i), page)
    && placed[page].flags == PageFlags(SegmentAt(file, i))
  }

  // All pages as the first n + 1 headers place them, except the one still as the first n do.
  ghost predicate AllButPage(file: seq<byte>, placed: map<nat, Placed>, n: nat, page0: nat)
    requires HeaderOk(file) && n < PhNum(file)
  {
    var m := n + 1;
    PlacedBy(file, placed, page0, n) && forall page: nat :: page != page0 ==> PlacedBy(file, placed, page, m)
  }

  // The header places at least one page.
  predicate Places(file: seq<byte>, i: nat)
    requires HeaderOk(file) && i < PhNum(file)
  {
    IsLoad(file, i) && SegmentAt(file, i).memsz > 0
  }

  // All pages of the first n headers are placed but the last page of the last of them.
  ghost predicate AllButLast(file: seq<byte>, placed: map<nat, Placed>, n: nat)
    requires HeaderOk(file) && n <= PhNum(file)
  {
    n > 0 && if Places(file, n - 1) then AllButPage(file, placed, n - 1, EndPage(SegmentAt(file, n - 1)) - 1)
             else AllButLast(file, placed, n - 1)
  }

  ghost function PagesBelow(file: seq<byte>, n: nat): nat
    requires HeaderOk(file) && n <= PhNum(file)
  {
    if n == 0 then 0
    else PagesBelow(file, n - 1) +
         if IsLoad(file, n - 1) then EndPage(SegmentAt(file, n - 1)) - FirstPage(SegmentAt(file, n - 1)) else 0
  }

  // The positions of the tables on the way to the pages of the first n headers.
  ghost function FileSteps(file: seq<byte>, n: nat): set<Position>
    requires HeaderOk(file) && n <= PhNum(file)
  {
    if n == 0 then {}
    else FileSteps(file, n - 1) +
         if IsLoad(file, n - 1) then Steps(FirstPage(SegmentAt(file, n - 1)), EndPage(SegmentAt(file, n - 1))) else {}
  }

  /** The frames it takes to load the first n headers where there are tables at the positions of
      have: one for each page of each segment, and the tables missing on the way to them. */
  ghost function FileFrames(have: set<Position>, file: seq<byte>, n: nat): nat
    requires HeaderOk(file) && n <= PhNum(file)
  {
    PagesBelow(file, n) + |FileSteps(file, n) - have|
  }

  /** The frames without which the loader notices: all but the tables of the very last page. */
  ghost function FileNoticed(have: set<Position>, file: seq<byte>, n: nat): nat
    requires HeaderOk(file) && n <= PhNum(file)
  {
    if n == 0 then 0
    else if !Places(file, n - 1) then FileNoticed(have, file, n - 1)
    else
      var s := SegmentAt(file, n - 1);
      FileFrames(have, file, n - 1) + FramesNoticed(have + FileSteps(file, n - 1), FirstPage(s), EndPage(s))
  }

  // One header more.
  lemma NextHeader(have: set<Position>, file: seq<byte>, n: nat)
    requires HeaderOk(file) && n < PhNum(file)
    ensures var s := SegmentAt(file, n);
            if Places(file, n)
            then && FileSteps(file, n + 1) == FileSteps(file, n) + Steps(FirstPage(s), EndPage(s))
                 && FileFrames(have, file, n + 1) ==
                    FileFrames(have, file, n) +
                    FramesFor(have + FileSteps(file, n), FirstPage(s), EndPage(s))
            else && FileSteps(file, n + 1) == FileSteps(file, n)
                 && FileFrames(have, file, n + 1) == FileFrames(have, file, n)
  {
    hide Steps, HeaderOk, SegmentAt, PhNum;
    var s := SegmentAt(file, n);
    if IsLoad(file, n) {
      var a, b := FileSteps(file, n), Steps(FirstPage(s), EndPage(s));
      assert FileSteps(file, n + 1) == a + b;
      if s.memsz > 0 {
        assert FirstPage(s) < EndPage(s);
        SumMissing(have, a, b);
      } else {
        NoPages(have, FirstPage(s));
      }
    }
  }

  lemma {:induction false} MoreHeaders(have: set<Position>, file: seq<byte>, m: nat, n: nat)
    requires HeaderOk(file) && m <= n <= PhNum(file)
    ensures FileFrames(have, file, m) <= FileFrames(have, file, n)
    ensures FileNoticed(have, file, m) <= FileNoticed(have, file, n) <= FileFrames(have, file, n)
    decreases n
  {
    hide Steps, HeaderOk, SegmentAt, PhNum, FramesFor, FramesNoticed, FileSteps, FileFrames, IsLoad;
    if n > 0 {
      NextHeader(have, file, n - 1);
      var s := SegmentAt(file, n - 1);
      FewerFrames(have + FileSteps(file, n - 1), FirstPage(s), EndPage(s));
      if m < n {
        MoreHeaders(have, file, m, n - 1);
      } else {
        MoreHeaders(have, file, n - 1, n - 1);
      }
    } else {
      NothingPlaced(file);
    }
  }

  /** Between two headers: all pages are there, their frames spent and their tables made, or the
      very last mapping failed and nothing is left. */
  ghost predicate Loaded(file: seq<byte>, have: set<Position>, free0: nat, i: nat, placed: map<nat, Placed>,
                         now: set<Position>, free: nat, all: bool)
    requires HeaderOk(file) && i <= PhNum(file)
  {
    if all
    then && free == free0 - FileFrames(have, file, i) && now == have + FileSteps(file, i)
         && AllPlaced(file, placed, i)
    else && free == 0 && AllButLast(file, placed, i)
         && FileNoticed(have, file, i) <= free0 < FileFrames(have, file, i)
  }

  // What loading one header does, and what the loader knows of it.
  ghost predicate HeaderLoaded(file: seq<byte>, n: nat, placed: map<nat, Placed>, now: set<Position>, free: nat,
                               placed': map<nat, Placed>, now': set<Position>, free': nat, ok: bool)
    requires HeaderOk(file) && n < PhNum(file)
  {
    var first, end := FirstPage(SegmentAt(file, n)), EndPage(SegmentAt(file, n));
    && (ok <==> free >= FramesNoticed(now, first, end))
    && (ok ==>
          if free >= FramesFor(now, first, end)
          then && free' == free - FramesFor(now, first, end) && now' == now + Steps(first, end)
               && (AllPlaced(file, placed, n) ==> AllPlaced(file, placed', n + 1))
          else free' == 0 && (AllPlaced(file, placed, n) ==> AllButPage(file, placed', n, end - 1)))
  }

  lemma LoadedNext(file: seq<byte>, have: set<Position>, free0: nat, n: nat, placed: map<nat, Placed>,
                   now: set<Position>, free: nat, all: bool,
                   placed': map<nat, Placed>, now': set<Position>, free': nat, ok: bool)
    requires HeaderOk(file) && n < PhNum(file) && Places(file, n)
    requires Loaded(file, have, free0, n, placed, now, free, all)
    requires HeaderLoaded(file, n, placed, now, free, placed', now', free', ok)
    ensures ok ==> all && Loaded(file, have, free0, n + 1, placed', now', free',
                                 free0 >= FileFrames(have, file, n + 1))
    ensures !ok ==> free0 < FileNoticed(have, file, PhNum(file))
  {
    hide Steps, SegmentAt, IsLoad, PhNum, FramesFor, FramesNoticed, FileSteps, FileFrames;
    hide PagesBelow, AllPlaced, AllButPage;
    var s := SegmentAt(file, n);
    assert FirstPage(s) < EndPage(s);
    NextHeader(have, file, n);
    MoreHeaders(have, file, n + 1, PhNum(file));
    SomeFrames(now, FirstPage(s), EndPage(s));
    if ok && free >= FramesFor(now, FirstPage(s), EndPage(s)) {
      assert have + FileSteps(file, n) + Steps(FirstPage(s), EndPage(s)) == have + FileSteps(file, n + 1);
    }
  }

  lemma SomeFrames(have: set<Position>, first: nat, end: nat)
    requires first < end
    ensures FramesNoticed(have, first, end) > 0
  {
  }

  // A header that places nothing.
  lemma LoadedSkip(file: seq<byte>, have: set<Position>, free0: nat, n: nat, placed: map<nat, Placed>,
                   now: set<Position>, free: nat, all: bool)
    requires HeaderOk(file) && n < PhNum(file) && !Places(file, n)
    requires Loaded(file, have, free0, n, placed, now, free, all)
    ensures Loaded(file, have, free0, n + 1, placed, now, free, all)
  {
    hide Steps, HeaderOk, SegmentAt, IsLoad, PhNum, FramesFor, FramesNoticed, FileSteps, FileFrames;
    hide PagesBelow, AllPlaced, AllButPage;
    NextHeader(have, file, n);
    if all {
      SkippedHeader(file, placed, n);
    }
  }

  // The page loop of one header.
  method LoadSegment(vm: AddressSpaces, pml4: nat, file: seq<byte>, n: nat,
                     ghost mem0: Memory, ghost used0: set<nat>, ghost own: Labels, ghost placed: map<nat, Placed>)
    returns (ok: bool, ghost own': Labels, ghost placed': map<nat, Placed>)
    requires vm.Valid() && vm.Owns(pml4, own)
    requires HeaderOk(file) && n < PhNum(file) && IsLoad(file, n) && SegmentOk(SegmentAt(file, n), |file|)
    requires EndPage(SegmentAt(file, n)) * 4096 <= ADDRESS_SPACE && SegmentAt(file, n).memsz > 0
    requires Image(mem0, vm.mem, pml4, own, vm.pmm.used, placed)
    requires OwnFrames(placed, used0) && used0 <= vm.pmm.used
    modifies vm`mem, vm.pmm, vm.pmm.bitmap
    ensures vm.Valid() && vm.Owns(pml4, own')
    ensures Confined(old(vm.mem), own, old(vm.pmm.used), vm.mem, own', vm.pmm.used)
    ensures Image(mem0, vm.mem, pml4, own', vm.pmm.used, placed')
    ensures OwnFrames(placed', used0) && used0 <= vm.pmm.used
    ensures HeaderLoaded(file, n, placed, own.Values, old(vm.pmm.FreeCount()),
                         placed', own'.Values, vm.pmm.FreeCount(), ok)
  {
    hide Image, OwnFrames, PageImage, Confined, Walk, Tree, HeaderOk, LeafEntry, OnlyPage, SegmentAt, IsLoad;
    hide AllPlaced, Spent, Turn, FramesFor, FramesNoticed, FrameAllocator.Valid, AllButPage, PlacedUpTo;
    var s := SegmentAt(file, n);
    own', placed' := own, placed;
    ghost var have, free0, first, end := own.Values, vm.pmm.FreeCount(), FirstPage(s), EndPage(s);
    ConfinedAsIs(vm.mem, own, vm.pmm.used);
    SpentStart(have, free0, first);
    NonePlacedYet(file, s, placed);
    ghost var all := true;
    var page := FirstPage(s);
    while page < EndPage(s)
      invariant FirstPage(s) <= page <= EndPage(s)
      invariant vm.Valid() && vm.Owns(pml4, own')
      invariant Confined(old(vm.mem), own, old(vm.pmm.used), vm.mem, own', vm.pmm.used)
      invariant Image(mem0, vm.mem, pml4, own', vm.pmm.used, placed')
      invariant OwnFrames(placed', used0) && used0 <= vm.pmm.used
      invariant Spent(have, free0, first, page, own'.Values, vm.pmm.FreeCount(), all)
      invariant !all ==> first < page
      invariant PlacedUpTo(file, s, placed, placed', if all then page else page - 1)
    {
      ghost var mem1, own1, used1, free1 := vm.mem, own', vm.pmm.used, vm.pmm.FreeCount();
      ghost var mapped, frame;
      ok, own', mapped, frame := LoadPage(vm, pml4, file, s, page, own1);
      SpentTurn(have, free0, first, page, end, own1.Values, free1, all, own'.Values, vm.pmm.FreeCount(), ok, mapped);
      ConfinedTwice(old(vm.mem), own, old(vm.pmm.used), mem1, own1, used1, vm.mem, own', vm.pmm.used);
      if mapped {
        ghost var p := Placed(frame, PageImage(file, s, page), PageFlags(s));
        OneMoreFrame(mem0, mem1, pml4, own1, used0, used1, placed', page, p);
        ImageGrows(mem0, mem1, vm.mem, pml4, own1, used1, own', vm.pmm.used, placed', page, p,
                   LeafEntry(frame * 4096, PageFlags(s)));
        OnePlaced(file, s, placed, placed', page, p);
        placed' := placed'[page := p];
      } else {
        ImageKept(mem0, mem1, vm.mem, pml4, own1, used1, own', vm.pmm.used, placed');
      }
      if !ok {
        return;
      }
      all := mapped;
      page := page + 1;
    }
    ok := true;
    SpentAll(have, free0, first, end, own'.Values, vm.pmm.FreeCount(), all);
    SpentSo(have, free0, first, end, own'.Values, vm.pmm.FreeCount(), all);
    if AllPlaced(file, placed, n) {
      PlacedPages(file, n, placed, placed', all);
    }
  }

  // The pages of the segment below m are placed, others as before.
  ghost predicate PlacedUpTo(file: seq<byte>, s: Segment, placed: map<nat, Placed>, placed': map<nat, Placed>, m: nat)
    requires SegmentOk(s, |file|)
  {
    && placed'.Keys == placed.Keys + Range(FirstPage(s), m)
    && forall q :: q in placed' ==>
         if FirstPage(s) <= q < m
         then placed'[q].bytes == PageImage(file, s, q) && placed'[q].flags == PageFlags(s)
         else q in placed && placed'[q] == placed[q]
  }

  lemma NonePlacedYet(file: seq<byte>, s: Segment, placed: map<nat, Placed>)
    requires SegmentOk(s, |file|)
    ensures PlacedUpTo(file, s, placed, placed, FirstPage(s))
  {
  }

  lemma OnePlaced(file: seq<byte>, s: Segment, placed: map<nat, Placed>, placed': map<nat, Placed>,
                  page: nat, p: Placed)
    requires SegmentOk(s, |file|) && FirstPage(s) <= page && PlacedUpTo(file, s, placed, placed', page)
    requires p.bytes == PageImage(file, s, page) && p.flags == PageFlags(s)
    ensures PlacedUpTo(file, s, placed, placed'[page := p], page + 1)
  {
    hide PageImage, PageFlags, FirstPage;
    assert Range(FirstPage(s), page + 1) == Range(FirstPage(s), page) + {page};
  }

  lemma SpentSo(have: set<Position>, free0: nat, first: nat, end: nat, now: set<Position>, free: nat, all: bool)
    requires Spent(have, free0, first, end, now, free, all)
    ensures if all then free == free0 - FramesFor(have, first, end) && now == have + Steps(first, end) else free == 0
  {
  }

  lemma PlacedPages(file: seq<byte>, n: nat, placed: map<nat, Placed>, placed': map<nat, Placed>, all: bool)
    requires HeaderOk(file) && n < PhNum(file) && IsLoad(file, n) && SegmentOk(SegmentAt(file, n), |file|)
    requires FirstPage(SegmentAt(file, n)) < EndPage(SegmentAt(file, n)) && AllPlaced(file, placed, n)
    requires PlacedUpTo(file, SegmentAt(file, n), placed, placed',
                        if all then EndPage(SegmentAt(file, n)) else EndPage(SegmentAt(file, n)) - 1)
    ensures if all then AllPlaced(file, placed', n + 1)
            else AllButPage(file, placed', n, EndPage(SegmentAt(file, n)) - 1)
  {
    hide PageImage, HeaderOk, SegmentAt, IsLoad, PhNum;
    var end, m := EndPage(SegmentAt(file, n)), n + 1;
    assert PlacedBy(file, placed, end - 1, n);
    forall q: nat | all || q != end - 1
      ensures PlacedBy(file, placed', q, m)
    {
      assert PlacedBy(file, placed, q, n);
    }
  }

  // Segments that pass the checks lie in the 48-bit address space.
  ghost predicate Fits(file: seq<byte>) {
    HeaderOk(file) ==> forall i :: 0 <= i < PhNum(file) && IsLoad(file, i) ==>
      SegmentAt(file, i).memsz > 0 && SegmentOk(SegmentAt(file, i), |file|) ==>
        EndPage(SegmentAt(file, i)) * 4096 <= ADDRESS_SPACE
  }

  /** Loads every PT_LOAD segment. It returns 0 exactly for a file that passes the checks when
      there are frames for all pages and tables but the tables of the last page; the load is
      complete exactly when those are there too. A complete load has on every page what the last
      segment over the page says; otherwise the last page alone is as it was before. */
  method LoadElf(vm: AddressSpaces, pml4: nat, file: seq<byte>, ghost own: Labels)
    returns (ret: int, ghost own': Labels, ghost placed: map<nat, Placed>)
    requires vm.Valid() && (pml4 == 0 || vm.Owns(pml4, own))
    requires Fits(file)
    modifies vm`mem, vm.pmm, vm.pmm.bitmap
    ensures vm.Valid() && (pml4 == 0 || vm.Owns(pml4, own'))
    ensures Confined(old(vm.mem), own, old(vm.pmm.used), vm.mem, own', vm.pmm.used)
    ensures pml4 != 0 ==> Image(old(vm.mem), vm.mem, pml4, own', vm.pmm.used, placed)
    ensures OwnFrames(placed, old(vm.pmm.used))
    ensures ret == 0 || ret == -1
    ensures ret == 0 <==>
            pml4 != 0 && Loadable(file) &&
            old(vm.pmm.FreeCount()) >= FileNoticed(own.Values, file, PhNum(file))
    ensures ret == 0 ==>
              if old(vm.pmm.FreeCount()) >= FileFrames(own.Values, file, PhNum(file))
              then AllPlaced(file, placed, PhNum(file))
              else AllButLast(file, placed, PhNum(file))
  {
    hide Image, Confined, Walk, Tree, Field, SegmentAt, IsLoad, SegmentOk, AllPlaced, PagesBelow, FileSteps;
    hide Loaded, HeaderLoaded, FileFrames, FileNoticed, FrameAllocator.Valid, OwnFrames, AllButLast;
    own', placed := own, map[];
    ConfinedAsIs(vm.mem, own, vm.pmm.used);
    ImageOfNothing(vm.mem, pml4, own, vm.pmm.used);
    NoFrames(vm.pmm.used);
    if pml4 == 0 {
      return -1, own, map[];
    }
    if !HeaderOk(file) {
      return -1, own, map[];
    }
    NothingPlaced(file);
    ghost var have, free0 := own.Values, vm.pmm.FreeCount();
    LoadedStart(file, have, free0);
    var loadSegments := 0;
    ghost var all := true;
    var i := 0;
    while i < PhNum(file)
      invariant 0 <= i <= PhNum(file)
      invariant vm.Valid() && vm.Owns(pml4, own')
      invariant Confined(old(vm.mem), own, old(vm.pmm.used), vm.mem, own', vm.pmm.used)
      invariant Image(old(vm.mem), vm.mem, pml4, own', vm.pmm.used, placed)
      invariant OwnFrames(placed, old(vm.pmm.used)) && old(vm.pmm.used) <= vm.pmm.used
      invariant SegmentsOk(file, i)
      invariant loadSegments > 0 <==> exists j :: 0 <= j < i && IsLoad(file, j)
      invariant Loaded(file, have, free0, i, placed, own'.Values, vm.pmm.FreeCount(), all)
    {
      var s := SegmentAt(file, i);
      assert IsLoad(file, i) <==> s.kind == PT_LOAD by { LoadKind(file, i); }
      if s.kind == PT_LOAD {
        loadSegments := loadSegments + 1;
        if !SegmentOk(s, |file|) {
          return -1, own', placed;
        }
      }
      if s.kind == PT_LOAD && s.memsz > 0 {
        ghost var mem1, own1, used1, placed1, free1 := vm.mem, own', vm.pmm.used, placed, vm.pmm.FreeCount();
        var ok;
        ok, own', placed := LoadSegment(vm, pml4, file, i, old(vm.mem), old(vm.pmm.used), own1, placed1);
        LoadedNext(file, have, free0, i, placed1, own1.Values, free1, all,
                   placed, own'.Values, vm.pmm.FreeCount(), ok);
        ConfinedTwice(old(vm.mem), own, old(vm.pmm.used), mem1, own1, used1, vm.mem, own', vm.pmm.used);
        if !ok {
          return -1, own', placed;
        }
        all := free0 >= FileFrames(have, file, i + 1);
      } else {
        LoadedSkip(file, have, free0, i, placed, own'.Values, vm.pmm.FreeCount(), all);
      }
      i := i + 1;
    }
    LoadedAll(file, have, free0, placed, own'.Values, vm.pmm.FreeCount(), all);
    if loadSegments == 0 {
      return -1, own', placed;
    }
    ret := 0;
  }

  lemma NoFrames(used: set<nat>)
    ensures OwnFrames(map[], used)
  {
  }

  lemma LoadedStart(file: seq<byte>, have: set<Position>, free0: nat)
    requires HeaderOk(file)
    ensures Loaded(file, have, free0, 0, map[], have, free0, true)
  {
    NothingPlaced(file);
    assert have + {} == have;
  }

  lemma LoadedAll(file: seq<byte>, have: set<Position>, free0: nat, placed: map<nat, Placed>,
                  now: set<Position>, free: nat, all: bool)
    requires HeaderOk(file) && Loaded(file, have, free0, PhNum(file), placed, now, free, all)
    ensures free0 >= FileNoticed(have, file, PhNum(file))
    ensures if free0 >= FileFrames(have, file, PhNum(file)) then AllPlaced(file, placed, PhNum(file))
            else AllButLast(file, placed, PhNum(file))
  {
    hide FileFrames, FileNoticed, AllPlaced, AllButLast;
    MoreHeaders(have, file, PhNum(file), PhNum(file));
  }

  // The files the loader accepts, frames permitting.
  ghost predicate Loadable(file: seq<byte>) {
    HeaderOk(file) && SegmentsOk(file, PhNum(file)) && exists i :: 0 <= i < PhNum(file) && IsLoad(file, i)
  }

  lemma LoadKind(file: seq<byte>, i: nat)
    requires HeaderOk(file) && i < PhNum(file)
    ensures IsLoad(file, i) <==> SegmentAt(file, i).kind == PT_LOAD
  {
  }

  lemma ImageOfNothing(mem: Memory, root: nat, own: Labels, used: set<nat>)
    ensures Image(mem, mem, root, own, used, map[])
  {
  }

  lemma NothingPlaced(file: seq<byte>)
    requires HeaderOk(file)
    ensures AllPlaced(file, map[], 0) && SegmentsOk(file, 0)
    ensures PagesBelow(file, 0) == 0 && FileSteps(file, 0) == {}
  {
  }

  lemma SkippedHeader(file: seq<byte>, placed: map<nat, Placed>, i: nat)
    requires HeaderOk(file) && i < PhNum(file)
    requires !IsLoad(file, i) || SegmentAt(file, i).memsz == 0
    ensures AllPlaced(file, placed, i) ==> AllPlaced(file, placed, i + 1)
  {
    hide PlacedFrom, HeaderOk;
    if AllPlaced(file, placed, i) {
      var m := i + 1;
      forall q: nat
        ensures PlacedBy(file, placed, q, m)
      {
        assert PlacedBy(file, placed, q, i);
      }
    }
  }

  // No two PT_LOAD headers share a page.
  ghost predicate PagesDisjoint(file: seq<byte>)
    requires HeaderOk(file)
  {
    forall i, j :: 0 <= i < j < PhNum(file) && IsLoad(file, i) && IsLoad(file, j) ==>
      var s, t := SegmentAt(file, i), SegmentAt(file, j);
      s.memsz == 0 || t.memsz == 0 || EndPage(s) <= FirstPage(t) || EndPage(t) <= FirstPage(s)
  }

  lemma {:induction false} OnlyCover(file: seq<byte>, n: nat, i: nat, page: nat)
    requires HeaderOk(file) && n <= PhNum(file) && i < n && IsLoad(file, i)
    requires PagesDisjoint(file)
    requires FirstPage(SegmentAt(file, i)) <= page < EndPage(SegmentAt(file, i))
    ensures LastCover(file, n, page) == Some(i)
  {
    hide Field, SegmentAt, IsLoad;
    if i < n - 1 {
      OnlyCover(file, n - 1, i, page);
    }
  }

  /** What a complete load gives each address of a segment, when no two segments share a page:
      a user translation to a byte of memory that is the file's below p_filesz and 0 above,
      writable exactly for PF_W segments. */
  lemma LoadedByte(file: seq<byte>, mem0: Memory, mem: Memory, root: nat, own: Labels, used: set<nat>,
                   placed: map<nat, Placed>, i: nat, a: nat)
    requires Loadable(file) && PagesDisjoint(file)
    requires Image(mem0, mem, root, own, used, placed) && AllPlaced(file, placed, PhNum(file))
    requires i < PhNum(file) && IsLoad(file, i)
    requires var s := SegmentAt(file, i); s.vaddr <= a < s.vaddr + s.memsz && a < ADDRESS_SPACE
    ensures var s := SegmentAt(file, i);
            var w := Walk(mem, root, 4, a);
            && w.Some? && w.value.user && (w.value.writable <==> s.flags / 2 % 2 == 1)
            && w.value.phys / 4096 < |mem|
            && Load(mem[w.value.phys / 4096], w.value.phys % 4096) ==
               if a < s.vaddr + s.filesz then file[s.offset + (a - s.vaddr)] else 0
  {
    hide Field, Load, Walk, Huge;
    var s := SegmentAt(file, i);
    var page := a / 4096;
    assert SegmentOk(s, |file|);
    OnlyCover(file, PhNum(file), i, page);
    assert PlacedBy(file, placed, page, PhNum(file));
    var p := placed[page];
    assert PlacedOk(mem, root, own, used, page, p);
    assert p.bytes[a % 4096] == SegmentByte(file, s, page * 4096 + a % 4096);
  }

  /** ... and a page under no segment translates as before the load. */
  lemma UnloadedPage(file: seq<byte>, mem0: Memory, mem: Memory, root: nat, own: Labels, used: set<nat>,
                     placed: map<nat, Placed>, a: nat)
    requires HeaderOk(file) && a < ADDRESS_SPACE
    requires Image(mem0, mem, root, own, used, placed) && AllPlaced(file, placed, PhNum(file))
    requires forall i :: 0 <= i < PhNum(file) && IsLoad(file, i) ==>
               !(FirstPage(SegmentAt(file, i)) <= a / 4096 < EndPage(SegmentAt(file, i)))
    ensures Walk(mem, root, 4, a) == Walk(mem0, root, 4, a)
  {
    hide Field, SegmentAt, IsLoad;
    NoCover(file, PhNum(file), a / 4096);
    assert PlacedBy(file, placed, a / 4096, PhNum(file));
  }

  lemma {:induction false} NoCover(file: seq<byte>, n: nat, page: nat)
    requires HeaderOk(file) && n <= PhNum(file)
    requires forall i :: 0 <= i < n && IsLoad(file, i) ==>
               !(FirstPage(SegmentAt(file, i)) <= page < EndPage(SegmentAt(file, i)))
    ensures LastCover(file, n, page) == None
  {
    hide Field, SegmentAt, IsLoad;
    if n > 0 {
      NoCover(file, n - 1, page);
    }
  }

  lemma {:induction false} CoverFacts(file: seq<byte>, n: nat, page: nat)
    requires HeaderOk(file) && n <= PhNum(file) && LastCover(file, n, page).Some?
    ensures var i := LastCover(file, n, page).value;
            i < n && IsLoad(file, i) && FirstPage(SegmentAt(file, i)) <= page < EndPage(SegmentAt(file, i))
  {
    hide HeaderOk, SegmentAt, IsLoad, FirstPage, EndPage;
    if !(IsLoad(file, n - 1) && FirstPage(SegmentAt(file, n - 1)) <= page < EndPage(SegmentAt(file, n - 1))) {
      CoverFacts(file, n - 1, page);
    }
  }

  // What is placed is a page of some header, in an incomplete load too.
  lemma {:induction false} OnlySegments(file: seq<byte>, placed: map<nat, Placed>, n: nat, page: nat)
    requires HeaderOk(file) && n <= PhNum(file) && page in placed
    requires AllPlaced(file, placed, n) || AllButLast(file, placed, n)
    ensures exists i :: 0 <= i < n && IsLoad(file, i) &&
                        FirstPage(SegmentAt(file, i)) <= page < EndPage(SegmentAt(file, i))
  {
    hide HeaderOk, SegmentAt, IsLoad, FirstPage, EndPage, Places;
    if AllPlaced(file, placed, n) {
      assert PlacedBy(file, placed, page, n);
      CoverFacts(file, n, page);
    } else if Places(file, n - 1) {
      var end := EndPage(SegmentAt(file, n - 1)) - 1;
      if page == end {
        CoverFacts(file, n - 1, page);
      } else {
        assert PlacedBy(file, placed, page, n);
        CoverFacts(file, n, page);
      }
    } else {
      OnlySegments(file, placed, n - 1, page);
    }
  }

  /** When segments share no page, a load that was not complete has left a page of the file out. */
  lemma {:induction false} PageMissing(file: seq<byte>, placed: map<nat, Placed>, n: nat)
    requires HeaderOk(file) && n <= PhNum(file) && PagesDisjoint(file) && AllButLast(file, placed, n)
    ensures exists i :: 0 <= i < n && Places(file, i) && EndPage(SegmentAt(file, i)) - 1 !in placed
  {
    hide SegmentAt, IsLoad;
    if Places(file, n - 1) {
      var s := SegmentAt(file, n - 1);
      var page := EndPage(s) - 1;
      assert FirstPage(s) <= page;
      NoCover(file, n - 1, page);
      assert PlacedBy(file, placed, page, n - 1);
    } else {
      PageMissing(file, placed, n - 1);
    }
  }

  /** ... so for such files the complete loads are those with a frame for every page and table. */
  lemma CompleteOrNot(file: seq<byte>, placed: map<nat, Placed>)
    requires HeaderOk(file) && PagesDisjoint(file) && AllButLast(file, placed, PhNum(file))
    requires SegmentsOk(file, PhNum(file))
    ensures !AllPlaced(file, placed, PhNum(file))
  {
    hide SegmentAt, IsLoad;
    var n := PhNum(file);
    PageMissing(file, placed, n);
    var i :| 0 <= i < n && Places(file, i) && EndPage(SegmentAt(file, i)) - 1 !in placed;
    LastOf(file, i);
    var page := EndPage(SegmentAt(file, i)) - 1;
    OnlyCover(file, n, i, page);
    assert !PlacedBy(file, placed, page, n);
  }

  lemma LastOf(file: seq<byte>, i: nat)
    requires HeaderOk(file) && i < PhNum(file) && Places(file, i)
    ensures IsLoad(file, i) && FirstPage(SegmentAt(file, i)) < EndPage(SegmentAt(file, i))
  {
    hide SegmentAt;
  }
}
