/** From paging_init to a loaded process: the boot tables, a user tree copied from them and a
    program loaded into it, put together. */
module ProcessImage {
  import opened Wrappers
  import opened Bits
  import opened Codec
  import opened PageTables
  import opened Pmm
  import opened Vmm
  import opened Paging
  import opened FrameNeeds
  import opened FrameBytes
  import opened Elf
  import Heap

  // What the kernel sees: [0, 4 GiB) at itself.
  function Identity(va: nat): Option<Leaf> {
    if va < 4 * GIB then Some(Leaf(va, true, true)) else None
  }

  ghost predicate KernelMap(mem: Memory, b: BootTables) {
    forall va: nat :: va < ADDRESS_SPACE ==> Walk(mem, b.pml4, 4, va) == Identity(va)
  }

  // What the process sees at an address: its segments, and the kernel's map on every page that
  // no segment is on.
  ghost predicate AddressOk(file: seq<byte>, mem: Memory, root: nat, va: nat)
    requires HeaderOk(file)
  {
    var w := Walk(mem, root, 4, va);
    && (forall i :: 0 <= i < PhNum(file) && IsLoad(file, i) ==> HoldsByte(file, mem, SegmentAt(file, i), w, va))
    && (OnNoPage(file, va / 4096) ==> w == Identity(va))
  }

  predicate HoldsByte(file: seq<byte>, mem: Memory, s: Segment, w: Option<Leaf>, va: nat) {
    s.vaddr <= va < s.vaddr + s.memsz && s.offset + s.filesz <= |file| ==>
      && w.Some? && w.value.user && (w.value.writable <==> s.flags / 2 % 2 == 1) && w.value.phys / 4096 < |mem|
      && Load(mem[w.value.phys / 4096], w.value.phys % 4096) ==
         if va < s.vaddr + s.filesz then file[s.offset + (va - s.vaddr)] else 0
  }

  ghost predicate OnNoPage(file: seq<byte>, page: nat)
    requires HeaderOk(file)
  {
    forall i :: 0 <= i < PhNum(file) && IsLoad(file, i) ==>
      !(FirstPage(SegmentAt(file, i)) <= page < EndPage(SegmentAt(file, i)))
  }

  // No two segments share a page and all lie below the heap.
  ghost predicate Placeable(file: seq<byte>)
    requires HeaderOk(file)
  {
    && PagesDisjoint(file)
    && (forall i :: 0 <= i < PhNum(file) && IsLoad(file, i) && SegmentAt(file, i).memsz > 0 ==>
          EndPage(SegmentAt(file, i)) * 4096 <= Heap.HEAP_BASE)
  }

  // The kernel's tables are none of the user tree's, so what is done through that tree keeps them.
  lemma BootKept(mem: Memory, own: Labels, used: set<nat>, mem': Memory, own': Labels, used': set<nat>, b: BootTables)
    requires b.Distinct() && BootMapped(mem, b) && b.Frames() <= used && b.Frames() !! own.Keys
    requires Confined(mem, own, used, mem', own', used')
    ensures BootMapped(mem', b) && b.Frames() !! own'.Keys
  {
    assert b.pml4 in b.Frames() && b.pdp in b.Frames();
    forall i | 0 <= i < 4
      ensures b.pd[i] in b.Frames()
    {
    }
  }

  lemma BootSame(mem: Memory, mem': Memory, b: BootTables)
    requires b.Distinct() && BootMapped(mem, b) && |mem'| == |mem|
    requires forall f :: f in b.Frames() && f < |mem| ==> mem'[f] == mem[f]
    ensures BootMapped(mem', b)
  {
    assert b.pml4 in b.Frames() && b.pdp in b.Frames();
    forall i | 0 <= i < 4
      ensures b.pd[i] in b.Frames()
    {
    }
  }

  lemma KernelMapped(mem: Memory, b: BootTables)
    requires b.Distinct() && BootMapped(mem, b)
    ensures KernelMap(mem, b)
  {
    hide Walk, BootMapped;
    forall va: nat | va < ADDRESS_SPACE
      ensures Walk(mem, b.pml4, 4, va) == Identity(va)
    {
      BootIdentity(mem, b, va);
    }
  }

  // None of the boot tables is shared with a user tree.
  lemma NothingShared(b: BootTables, u: UserTables)
    requires b.Distinct()
    ensures u.Own(b.Labels()).Keys == u.Frames()
  {
    forall f | f in b.Labels()
      ensures !Shared(b.Labels()[f])
    {
    }
  }

  lemma SixFrames(mem: Memory, b: BootTables)
    requires b.Distinct() && BootMapped(mem, b)
    ensures Present(mem[b.pml4][0]) && FramesForUser(mem, b.pml4) == 6
  {
    LinkEntry(b.pdp, mem[b.pml4][0]);
    LinkEntry(b.pd[0], mem[b.pdp][0]);
    LinkEntry(b.pd[1], mem[b.pdp][1]);
    LinkEntry(b.pd[2], mem[b.pdp][2]);
    LinkEntry(b.pd[3], mem[b.pdp][3]);
    var t := mem[b.pdp];
    assert PresentBelow(t, 0) == 0 && PresentBelow(t, 1) == 1 && PresentBelow(t, 2) == 2;
    assert PresentBelow(t, 3) == 3 && PresentBelow(t, 4) == 4;
  }

  ghost predicate Booted(vm: AddressSpaces, b: BootTables)
    reads vm, vm.pmm, vm.pmm.bitmap
  {
    && vm.Valid() && b.Distinct() && b.Frames() <= vm.pmm.used
    && vm.kernelPml4 == b.pml4 && BootMapped(vm.mem, b)
  }

  // paging_init and vmm_init.
  method Boot(vm: AddressSpaces, b: BootTables)
    requires vm.Valid() && b.Distinct() && b.Frames() <= vm.pmm.used
    requires forall f :: f in b.Frames() ==> f < |vm.mem|
    modifies vm
    ensures Booted(vm, b) && KernelMap(vm.mem, b)
    ensures forall f :: 0 <= f < |vm.mem| && f !in b.Frames() ==> vm.mem[f] == old(vm.mem)[f]
  {
    hide KernelMap, BootMapped;
    PagingInit(vm, b);
    vm.kernelPml4 := b.pml4;
    KernelMapped(vm.mem, b);
  }

  /** create_user_pml4 on the boot tables: a tree of frames that were free, which sees what the
      kernel sees. It takes six frames. */
  method Fork(vm: AddressSpaces, b: BootTables) returns (root: nat, ghost own: Labels)
    requires Booted(vm, b)
    modifies vm`mem, vm.pmm, vm.pmm.bitmap
    ensures Booted(vm, b)
    ensures root != 0 <==> old(vm.pmm.FreeCount()) >= 6
    ensures Confined(old(vm.mem), map[], old(vm.pmm.used), vm.mem, own, vm.pmm.used)
    ensures old(vm.pmm.used) <= vm.pmm.used
    ensures root != 0 ==> vm.Owns(root, own)
    ensures root != 0 ==> forall va: nat :: va < ADDRESS_SPACE ==> Walk(vm.mem, root, 4, va) == Identity(va)
    ensures root != 0 ==> vm.pmm.FreeCount() == old(vm.pmm.FreeCount()) - 6
    ensures root == 0 ==> own == map[]
    ensures root != 0 ==> own.Values == BootSteps()
  {
    hide Walk, BootMapped, Tree, UserCopy, Index, Present, FrameOf, Confined, UserTables.Own, UserTables.Fresh;
    BootTree(vm.mem, b);
    SixFrames(vm.mem, b);
    ghost var mem0, used0 := vm.mem, vm.pmm.used;
    ghost var u;
    root, own, u := CreateUserPml4(vm, b.Labels());
    BootSame(mem0, vm.mem, b);
    if root == 0 {
      own := map[];
    } else {
      SixFrames(vm.mem, b);
      ForkedView(vm.mem, b, root);
      OwnTables(b, u, used0);
      ForkedTables(vm.mem, b, u, used0);
    }
    FreshLabels(mem0, used0, vm.mem, own, vm.pmm.used);
  }

  // Where a forked tree has its tables: six of them, as the kernel.
  ghost function BootSteps(): set<Position> {
    {[], [0], [0, 0], [0, 1], [0, 2], [0, 3]}
  }

  lemma FourCopied(mem: Memory, b: BootTables, u: UserTables)
    requires b.Distinct() && BootMapped(mem, b) && UserCopy(mem, b.pml4, u)
    ensures forall i: nat :: i in u.pd <==> i < 4
  {
    hide Huge, Writable, User, FrameOf;
    LinkEntry(b.pdp, mem[b.pml4][0]);
    forall i | 0 <= i < 4
      ensures Present(mem[b.pdp][i])
    {
      LinkEntry(b.pd[i], mem[b.pdp][i]);
    }
  }

  lemma ForkedTables(mem: Memory, b: BootTables, u: UserTables, used: set<nat>)
    requires b.Distinct() && BootMapped(mem, b) && UserCopy(mem, b.pml4, u) && u.Fresh(used)
    ensures u.Own(b.Labels()).Values == BootSteps()
  {
    hide BootMapped, UserCopy, BootTables.Labels, UserTables.Own, UserTables.Fresh;
    FourCopied(mem, b, u);
    NothingShared(b, u);
    OwnPositions(b.Labels(), u, used);
    var own := u.Own(b.Labels());
    forall i: nat | i < 4
      ensures u.pd[i] in u.pd.Values && own[u.pd[i]] == [0, i]
    {
    }
    forall p | p in BootSteps()
      ensures p in own.Values
    {
      assert p == [] || p == [0] || p == [0, 0] || p == [0, 1] || p == [0, 2] || p == [0, 3];
      assert p == own[u.pml4] || p == own[u.pdp] || p == own[u.pd[0]] || p == own[u.pd[1]] || p == own[u.pd[2]]
             || p == own[u.pd[3]];
    }
    forall f | f in own
      ensures own[f] in BootSteps()
    {
      if f in u.pd.Values {
        var i :| i in u.pd && u.pd[i] == f;
        assert i == 0 || i == 1 || i == 2 || i == 3;
      }
    }
  }

  lemma OwnPositions(kown: Labels, u: UserTables, used: set<nat>)
    requires u.Fresh(used)
    ensures var own := u.Own(kown);
            && u.Frames() <= own.Keys && own[u.pml4] == [] && own[u.pdp] == [0]
            && forall i :: i in u.pd ==> own[u.pd[i]] == [0, i]
  {
    forall i | i in u.pd
      ensures u.Own(kown)[u.pd[i]] == [0, i]
    {
      assert u.Find(u.pd[i]) == i;
    }
  }

  lemma ForkedView(mem: Memory, b: BootTables, root: nat)
    requires b.Distinct() && BootMapped(mem, b)
    requires forall va: nat :: va < ADDRESS_SPACE ==>
               Walk(mem, root, 4, va) ==
               if Index(4, va) == 0 && Index(3, va) >= 4 then None else Walk(mem, b.pml4, 4, va)
    ensures forall va: nat :: va < ADDRESS_SPACE ==> Walk(mem, root, 4, va) == Identity(va)
  {
    hide Walk, BootMapped;
    KernelMapped(mem, b);
    forall va: nat | va < ADDRESS_SPACE
      ensures Walk(mem, root, 4, va) == Identity(va)
    {
      IndicesOf(va);
    }
  }

  lemma OwnTables(b: BootTables, u: UserTables, used: set<nat>)
    requires b.Distinct() && u.Fresh(used)
    ensures u.Own(b.Labels()).Keys !! used
  {
    NothingShared(b, u);
  }

  lemma FreshLabels(mem: Memory, used: set<nat>, mem': Memory, own: Labels, used': set<nat>)
    requires |mem'| == |mem| && used <= used' && own.Keys !! used && own.Keys <= used'
    requires forall f :: f in used && f < |mem| ==> mem'[f] == mem[f]
    ensures Confined(mem, map[], used, mem', own, used')
  {
  }

  // What a finished load says about one address of the new tree.
  lemma LoadedAddress(file: seq<byte>, mem0: Memory, mem: Memory, root: nat, own: Labels, used: set<nat>,
                      placed: map<nat, Placed>, va: nat)
    requires Loadable(file) && PagesDisjoint(file) && va < ADDRESS_SPACE
    requires Image(mem0, mem, root, own, used, placed) && AllPlaced(file, placed, PhNum(file))
    requires Walk(mem0, root, 4, va) == Identity(va)
    ensures AddressOk(file, mem, root, va)
  {
    hide Image, AllPlaced, Walk, Load, Field, SegmentAt, IsLoad;
    forall i | 0 <= i < PhNum(file) && IsLoad(file, i)
      ensures HoldsByte(file, mem, SegmentAt(file, i), Walk(mem, root, 4, va), va)
    {
      var s := SegmentAt(file, i);
      if s.vaddr <= va < s.vaddr + s.memsz {
        LoadedByte(file, mem0, mem, root, own, used, placed, i, va);
      }
    }
    if OnNoPage(file, va / 4096) {
      UnloadedPage(file, mem0, mem, root, own, used, placed, va);
    }
  }

  // Below no segment and above 4 GiB, the heap region of a loaded process is empty.
  lemma NoHeapYet(file: seq<byte>, mem0: Memory, mem: Memory, root: nat, own: Labels, used: set<nat>,
                  placed: map<nat, Placed>)
    requires HeaderOk(file) && Placeable(file) && Image(mem0, mem, root, own, used, placed)
    requires AllPlaced(file, placed, PhNum(file)) || AllButLast(file, placed, PhNum(file))
    requires forall va: nat :: va < ADDRESS_SPACE ==> Walk(mem0, root, 4, va) == Identity(va)
    ensures Heap.HeapPages(mem, root, own, used, map[])
  {
    hide Walk, Load, SegmentAt, IsLoad, HoldsByte, AllPlaced, AllButLast, PlacedOk;
    forall va: nat | Heap.InHeap(va)
      ensures Walk(mem, root, 4, va) == None
    {
      if va / 4096 in placed {
        OnlySegments(file, placed, PhNum(file), va / 4096);
      }
    }
  }

  // The last page of some segment is seen as the kernel sees it, as if it had not been loaded.
  ghost predicate PageLeftOut(file: seq<byte>, mem: Memory, root: nat)
    requires HeaderOk(file)
  {
    exists i :: 0 <= i < PhNum(file) && Places(file, i) && SeenAsBefore(mem, root, EndPage(SegmentAt(file, i)) - 1)
  }

  ghost predicate SeenAsBefore(mem: Memory, root: nat, page: int) {
    forall va: nat :: va < ADDRESS_SPACE && va / 4096 == page ==> Walk(mem, root, 4, va) == Identity(va)
  }

  lemma LeftOut(file: seq<byte>, mem0: Memory, mem: Memory, root: nat, own: Labels, used: set<nat>,
                placed: map<nat, Placed>)
    requires HeaderOk(file) && PagesDisjoint(file) && Image(mem0, mem, root, own, used, placed)
    requires AllButLast(file, placed, PhNum(file))
    requires forall va: nat :: va < ADDRESS_SPACE ==> Walk(mem0, root, 4, va) == Identity(va)
    ensures PageLeftOut(file, mem, root)
  {
    hide Walk, AllButLast, PlacedOk, SegmentAt, IsLoad;
    PageMissing(file, placed, PhNum(file));
    var i :| 0 <= i < PhNum(file) && Places(file, i) && EndPage(SegmentAt(file, i)) - 1 !in placed;
    assert SeenAsBefore(mem, root, EndPage(SegmentAt(file, i)) - 1);
  }

  /** create_process and load_elf_into_process: a tree copied from the kernel's, the segments and
      an empty heap. It succeeds exactly for a file that passes the checks when there are six
      frames and those the loader notices. If the segments share no page and lie below the heap,
      the heap invariant of sys_brk then holds, and with all frames the file takes every 48-bit
      address has the value the file gives it or is seen as the kernel sees it; with fewer the
      last page of a segment is missing and nobody is told. In every case what was in use keeps
      its contents. */
  method StartProcess(vm: AddressSpaces, b: BootTables, file: seq<byte>)
    returns (ret: int, p: Heap.Process, ghost placed: map<nat, Placed>)
    requires Booted(vm, b)
    requires Fits(file)
    modifies vm`mem, vm.pmm, vm.pmm.bitmap
    ensures Booted(vm, b) && fresh(p)
    ensures ret == -1 || (ret == 0 && p.pml4 != 0)
    ensures ret == 0 <==> Loadable(file) &&
                          old(vm.pmm.FreeCount()) >= 6 + FileNoticed(BootSteps(), file, PhNum(file))
    ensures ret == 0 && Placeable(file) ==>
              && Heap.HeapOk(vm, p) && p.heapStart == 0
              && if old(vm.pmm.FreeCount()) >= 6 + FileFrames(BootSteps(), file, PhNum(file))
                 then forall va: nat :: va < ADDRESS_SPACE ==> AddressOk(file, vm.mem, p.pml4, va)
                 else PageLeftOut(file, vm.mem, p.pml4)
    ensures Confined(old(vm.mem), map[], old(vm.pmm.used), vm.mem, p.own, vm.pmm.used) && p.frames == map[]
    ensures if p.pml4 == 0 then p.own == map[] && placed == map[]
            else vm.Owns(p.pml4, p.own) && OwnFrames(placed, old(vm.pmm.used))
                 && (forall q :: q in placed ==> PlacedOk(vm.mem, p.pml4, p.own, vm.pmm.used, q, placed[q]))
  {
    hide Walk, BootMapped, Tree, Image, AllPlaced, AllButLast, SegmentAt, IsLoad, Confined, FrameAllocator.Valid;
    hide AddressOk, Heap.HeapPages, Placeable, SegmentOk, PlacedOk, FileFrames, FileNoticed, PageLeftOut;
    var root;
    ghost var own;
    ghost var memA, usedA := vm.mem, vm.pmm.used;
    root, own := Fork(vm, b);
    ghost var mem0, used0, free0 := vm.mem, vm.pmm.used, vm.pmm.FreeCount();
    if root == 0 {
      p := new Heap.Process(0, map[]);
      return -1, p, map[];
    }
    ghost var own';
    ret, own', placed := LoadElf(vm, root, file, own);
    p := new Heap.Process(root, own');
    ConfinedTwice(memA, map[], usedA, mem0, own, used0, vm.mem, own', vm.pmm.used);
    BootKept(memA, map[], usedA, vm.mem, own', vm.pmm.used, b);
    PlacedPages(usedA, mem0, vm.mem, root, own', used0, vm.pmm.used, placed);
    if ret == 0 && Placeable(file) {
      DisjointPages(file);
      NoHeapYet(file, mem0, vm.mem, root, own', vm.pmm.used, placed);
      if free0 >= FileFrames(BootSteps(), file, PhNum(file)) {
        forall va: nat | va < ADDRESS_SPACE
          ensures AddressOk(file, vm.mem, root, va)
        {
          LoadedAddress(file, mem0, vm.mem, root, own', vm.pmm.used, placed, va);
        }
      } else {
        LeftOut(file, mem0, vm.mem, root, own', vm.pmm.used, placed);
      }
    }
  }

  lemma PlacedPages(usedA: set<nat>, mem0: Memory, mem: Memory, root: nat, own: Labels,
                    used0: set<nat>, used: set<nat>, placed: map<nat, Placed>)
    requires Image(mem0, mem, root, own, used, placed) && OwnFrames(placed, used0) && usedA <= used0
    ensures OwnFrames(placed, usedA)
    ensures forall q :: q in placed ==> PlacedOk(mem, root, own, used, q, placed[q])
  {
    hide PlacedOk, Walk;
  }

  lemma DisjointPages(file: seq<byte>)
    requires HeaderOk(file) && Placeable(file)
    ensures PagesDisjoint(file)
  {
  }

  // A program of one page at 4 MiB, where the kernel has a 2 MiB page.
  ghost predicate OnePageProgram(file: seq<byte>) {
    && Loadable(file) && PhNum(file) == 1
    && SegmentAt(file, 0).vaddr == 0x40_0000 && 0 < SegmentAt(file, 0).memsz <= 4096
  }

  /** Such a program: the file header, one program header, and the two bytes of "jmp ." at the
      start of a segment of four bytes. */
  function SmallProgram(): (file: seq<byte>)
    ensures |file| == 122 && forall k :: 0 <= k < 122 ==> file[k] == SmallByte(k)
  {
    seq<byte>(122, k requires 0 <= k < 122 => SmallByte(k))
  }

  function SmallByte(k: nat): byte {
    match k
    case 0 => 0x7F case 1 => 0x45 case 2 => 0x4C case 3 => 0x46 case 4 => 2 case 5 => 1 case 6 => 1
    case 16 => 2 case 18 => 62 case 20 => 1 case 26 => 0x40 case 32 => 64 case 52 => 64 case 54 => 56 case 56 => 1
    case 64 => 1 case 68 => 7 case 72 => 120 case 82 => 0x40 case 96 => 2 case 104 => 4
    case 120 => 0xEB case 121 => 0xFE
    case _ => 0
  }

  lemma Word8(s: seq<byte>, o: nat, a: byte, b: byte, c: byte)
    requires o + 8 <= |s| && s[o] == a && s[o + 1] == b && s[o + 2] == c
    requires forall k :: o + 3 <= k < o + 8 ==> s[k] == 0
    ensures Field(s, o, 8) == a + 256 * b + 65536 * c
  {
    FieldNumber(s, o);
  }

  lemma Word4(s: seq<byte>, o: nat, a: byte)
    requires o + 4 <= |s| && s[o] == a && s[o + 1] == 0 && s[o + 2] == 0 && s[o + 3] == 0
    ensures Field(s, o, 4) == a
  {
    FieldNumber(s, o);
  }

  lemma Word2(s: seq<byte>, o: nat, a: byte)
    requires o + 2 <= |s| && s[o] == a && s[o + 1] == 0
    ensures Field(s, o, 2) == a
  {
    FieldNumber(s, o);
  }

  lemma SmallHeader(s: seq<byte>)
    requires s == SmallProgram()
    ensures HeaderOk(s) && PhNum(s) == 1 && PhOff(s) == 64
  {
    hide Field;
    Word2(s, 16, 2);
    Word2(s, 18, 62);
    Word8(s, 32, 64, 0, 0);
    Word2(s, 54, 56);
    Word2(s, 56, 1);
  }

  lemma SmallProgramLoads()
    ensures OnePageProgram(SmallProgram())
    ensures SegmentAt(SmallProgram(), 0) == Segment(1, 7, 120, 0x40_0000, 2, 4)
    ensures forall a: nat :: SegmentByte(SmallProgram(), SegmentAt(SmallProgram(), 0), a) ==
              if a == 0x40_0000 then 0xEB else if a == 0x40_0001 then 0xFE else 0
  {
    hide Field;
    var s := SmallProgram();
    SmallHeader(s);
    Word4(s, 64, 1);
    Word4(s, 68, 7);
    Word8(s, 72, 120, 0, 0);
    Word8(s, 80, 0, 0, 0x40);
    Word8(s, 96, 2, 0, 0);
    Word8(s, 104, 4, 0, 0);
    assert IsLoad(s, 0);
  }

  // It takes its page and the page table split out of the 2 MiB page; the loader notices one.
  lemma OnePageFrames(file: seq<byte>)
    requires OnePageProgram(file)
    ensures Placeable(file) && FileFrames(BootSteps(), file, 1) == 2 && FileNoticed(BootSteps(), file, 1) == 1
    ensures EndPage(SegmentAt(file, 0)) == 0x401
  {
    hide SegmentAt, Field, BootSteps, FramesFor, FramesNoticed, FileFrames, FileSteps, PagesBelow;
    var have, s := BootSteps(), SegmentAt(file, 0);
    assert IsLoad(file, 0) && Places(file, 0);
    assert FirstPage(s) == 0x400 && EndPage(s) == 0x401;
    OnePageSteps();
    NextHeader(have, file, 0);
    NoHeaders(have, file);
  }

  lemma NoHeaders(have: set<Position>, file: seq<byte>)
    requires HeaderOk(file)
    ensures FileFrames(have, file, 0) == 0 && have + FileSteps(file, 0) == have
  {
  }

  lemma OnePageSteps()
    ensures FramesFor(BootSteps(), 0x400, 0x401) == 2 && FramesNoticed(BootSteps(), 0x400, 0x401) == 1
  {
    var va, have := 0x40_0000, BootSteps();
    assert Path(va, 1) == [0] && Path(va, 2) == [0, 0] && Path(va, 3) == [0, 0, 2];
    assert PageSteps(va) - have == {[0, 0, 2]};
    hide PageSteps, BootSteps, Path;
    NoPages(have, 0x400);
    NextPage(have, 0x400, 0x400);
  }

  /** With seven frames left such a program is started, and told so, but the page is missing: the
      process sees at 4 MiB what the kernel sees there. */
  method SevenFrames(vm: AddressSpaces, b: BootTables, file: seq<byte>) returns (ret: int, p: Heap.Process)
    requires Booted(vm, b) && OnePageProgram(file) && vm.pmm.FreeCount() == 7
    modifies vm`mem, vm.pmm, vm.pmm.bitmap
    ensures ret == 0 && vm.Owns(p.pml4, p.own) && Walk(vm.mem, p.pml4, 4, 0x40_0000) == Identity(0x40_0000)
  {
    hide Walk, BootMapped, Tree, SegmentAt, Confined, FrameAllocator.Valid, Placeable, FileFrames, FileNoticed, Field;
    hide AddressOk, Heap.HeapPages, PlacedOk;
    OnePageFrames(file);
    ghost var placed;
    ret, p, placed := StartProcess(vm, b, file);
    ghost var i :| 0 <= i < PhNum(file) && Places(file, i) &&
                   SeenAsBefore(vm.mem, p.pml4, EndPage(SegmentAt(file, i)) - 1);
    assert i == 0;
  }
}
