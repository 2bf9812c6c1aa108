/** The virtual memory manager of kernel/vmm.c. Frames are addressed directly, as under the
    kernel's identity map; a pointer to a table is its frame number, 0 is the null pointer and
    a pointer to an entry is a frame number with an index. */
module Vmm {
  import opened Wrappers
  import opened PageTables
  import opened Pmm

  // How many frames vmm_map_page has to allocate before it can write the page's entry.
  function Needed(mem: Memory, t: nat, level: nat, va: nat): (n: nat)
    requires 1 <= level <= 4
    ensures n < level
    decreases level
  {
    if level == 1 || t >= |mem| then 0
    else
      var e := mem[t][Index(level, va)];
      if !Present(e) then level - 1
      else if Huge(e) then 1
      else Needed(mem, FrameOf(e), level - 1, va)
  }

  lemma NeededStep(mem: Memory, t: nat, level: nat, va: nat)
    requires 2 <= level <= 4 && t < |mem|
    ensures var e := mem[t][Index(level, va)];
            Needed(mem, t, level, va) ==
            if !Present(e) then level - 1 else if Huge(e) then 1
            else Needed(mem, FrameOf(e), level - 1, va)
  {
  }

  // An empty table below an entry that was absent needs one frame less.
  lemma NeededEmpty(mem: Memory, t: nat, level: nat, va: nat)
    requires 2 <= level <= 4 && t < |mem| && forall k :: 0 <= k < ENTRIES ==> mem[t][k] == 0
    ensures Needed(mem, t, level, va) == level - 1
  {
  }

  // The positions of the three tables below the root on the way to va.
  ghost function PageSteps(va: nat): set<Position> {
    {Path(va, 1), Path(va, 2), Path(va, 3)}
  }

  // Below a table without the next link there are no further labels on the way.
  lemma NoneBelow(mem: Memory, root: nat, own: Labels, t: nat, va: nat, n: nat)
    requires Tree(mem, root, own) && n < 3 && t in own && own[t] == Path(va, n)
    requires NextTable(mem, t, Index(4 - n, va)) == None
    ensures forall m :: n < m <= 3 ==> Path(va, m) !in own.Values
  {
    hide Tree, At, NextTable, Index;
    assert At(mem, root, Path(va, n)) == Some(t) by { LabelAt(mem, root, own, t); }
    AtStep(mem, root, va, n);
    LabelsExact(mem, root, own, Path(va, n + 1));
    if n < 2 {
      AtStep(mem, root, va, n + 1);
      LabelsExact(mem, root, own, Path(va, n + 2));
    }
    if n < 1 {
      AtStep(mem, root, va, n + 2);
      LabelsExact(mem, root, own, Path(va, n + 3));
    }
  }

  lemma AtStep(mem: Memory, root: nat, va: nat, n: nat)
    requires n < 4
    ensures At(mem, root, Path(va, n + 1)) ==
            match At(mem, root, Path(va, n))
            case None => None
            case Some(t) => NextTable(mem, t, Index(4 - n, va))
  {
    AtNext(mem, root, Path(va, n), Index(4 - n, va));
  }

  lemma LabelAt(mem: Memory, root: nat, own: Labels, t: nat)
    requires Tree(mem, root, own) && t in own
    ensures At(mem, root, own[t]) == Some(t)
  {
    hide At;
  }

  // Following the link of an entry.
  lemma LinkStep(mem: Memory, root: nat, own: Labels, t: nat, va: nat, n: nat)
    requires Tree(mem, root, own) && n < 3 && t in own && own[t] == Path(va, n)
    ensures t < |mem|
    ensures var e := mem[t][Index(4 - n, va)];
            if Present(e) && !Huge(e)
            then FrameOf(e) in own && own[FrameOf(e)] == Path(va, n + 1) && Path(va, n + 1) in own.Values
            else (Present(e) ==> n == 2) && forall m :: n < m <= 3 ==> Path(va, m) !in own.Values
  {
    hide Rooted;
    assert LinkOk(mem, own, t, Index(4 - n, va));
    if NextTable(mem, t, Index(4 - n, va)) == None {
      NoneBelow(mem, root, own, t, va, n);
    }
  }

  /** What vmm_map_page has to allocate is exactly the tables missing on the way. */
  lemma NeededIsMissing(mem: Memory, root: nat, own: Labels, va: nat)
    requires Tree(mem, root, own)
    ensures Needed(mem, root, 4, va) == |PageSteps(va) - own.Values|
  {
    hide Tree, Present, Huge, FrameOf, Index;
    RootOf(mem, root, own);
    LinkStep(mem, root, own, root, va, 0);
    var e := mem[root][Index(4, va)];
    if !Present(e) || Huge(e) {
      assert PageSteps(va) - own.Values == {Path(va, 1), Path(va, 2), Path(va, 3)};
      return;
    }
    var t := FrameOf(e);
    LinkStep(mem, root, own, t, va, 1);
    e := mem[t][Index(3, va)];
    if !Present(e) || Huge(e) {
      assert PageSteps(va) - own.Values == {Path(va, 2), Path(va, 3)};
      return;
    }
    t := FrameOf(e);
    LinkStep(mem, root, own, t, va, 2);
    if !Present(mem[t][Index(2, va)]) || Huge(mem[t][Index(2, va)]) {
      assert PageSteps(va) - own.Values == {Path(va, 3)};
    } else {
      assert PageSteps(va) - own.Values == {};
    }
  }

  // Under a page table there is no 2 MiB page to split.
  lemma UnderPageTable(mem: Memory, root: nat, own: Labels, va: nat)
    requires Tree(mem, root, own) && Path(va, 3) in own.Values
    ensures !InHugePage(mem, root, 4, va)
  {
    hide Tree, Present, Huge, FrameOf, Index;
    RootOf(mem, root, own);
    LinkStep(mem, root, own, root, va, 0);
    var t := FrameOf(mem[root][Index(4, va)]);
    LinkStep(mem, root, own, t, va, 1);
    LinkStep(mem, root, own, FrameOf(mem[t][Index(3, va)]), va, 2);
  }

  // Whether the walk of va ends at an entry that has to be split before one page can go.
  predicate InHugePage(mem: Memory, t: nat, level: nat, va: nat)
    requires 1 <= level <= 4
    decreases level
  {
    if level == 1 || t >= |mem| then false
    else
      var e := mem[t][Index(level, va)];
      Present(e) && (Huge(e) || InHugePage(mem, FrameOf(e), level - 1, va))
  }

  // Without a translation for virt there is none for any address of its page.
  lemma UnmappedPage(mem: Memory, root: nat, virt: nat)
    requires virt < ADDRESS_SPACE && Walk(mem, root, 4, virt) == None
    ensures OnlyPage(mem, mem, root, virt, 0)
  {
    forall va: nat | va < ADDRESS_SPACE && va / 4096 == virt / 4096
      ensures Walk(mem, root, 4, va) == None
    {
      SamePath(va, virt);
      SameFailure(mem, root, 4, va, virt);
    }
  }

  lemma {:induction false} SameFailure(mem: Memory, t: nat, level: nat, va: nat, vb: nat)
    requires 1 <= level <= 4 && Path(va, 4) == Path(vb, 4)
    ensures Walk(mem, t, level, va) == None <==> Walk(mem, t, level, vb) == None
    decreases level
  {
    assert Index(level, va) == Path(va, 4)[4 - level] == Index(level, vb);
    if level > 1 && t < |mem| {
      SameFailure(mem, FrameOf(mem[t][Index(level, va)]), level - 1, va, vb);
    }
  }

  lemma SameAsItself(mem: Memory, root: nat)
    ensures SameTranslation(mem, mem, root)
  {
  }

  // A leaf entry as vmm_map_page composes it: frame bits, the flags, and present.
  function LeafEntry(phys: u64, flags: nat): (e: u64)
    requires flags < 4096
    ensures Present(e) && e / 4096 == phys / 4096
    ensures Writable(e) == Writable(flags) && User(e) == User(flags)
  {
    hide Writable, User;
    var f := if Present(flags) then flags else flags + 1;
    PresentSet(flags);
    EntryDigits(phys / 4096, f);
    phys - phys % 4096 + f
  }

  lemma PresentSet(flags: nat)
    requires flags < 4096
    ensures !Present(flags) ==>
              && flags + 1 < 4096 && Present(flags + 1)
              && Writable(flags + 1) == Writable(flags) && User(flags + 1) == User(flags)
  {
    if !Present(flags) {
      var f := flags % 8;
      FlagsOf(flags, flags / 8, f);
      assert f % 2 == 0;
      FlagsOf(flags + 1, flags / 8, f + 1);
    }
  }

  lemma EntryDigits(p: nat, f: nat)
    requires f < 4096 && p * 4096 + f < 0x1_0000_0000_0000_0000
    ensures var e := p * 4096 + f; Present(e) == Present(f) && Writable(e) == Writable(f)
                                   && User(e) == User(f) && e / 4096 == p
  {
    Digits4096(p, f);
    FlagsOf(f, f / 8, f % 8);
    FlagsOf(p * 4096 + f, p * 512 + f / 8, f % 8);
  }

  // What an entry of a last-level table makes of an address.
  function EntryLeaf(e: u64, va: nat): Option<Leaf> {
    if Present(e) then Some(PageLeaf(e, va)) else None
  }

  // The page of virt now translates by entry e, every other address as before.
  ghost predicate OnlyPage(mem: Memory, mem': Memory, root: nat, virt: nat, e: u64) {
    forall va: nat :: va < ADDRESS_SPACE ==>
      Walk(mem', root, 4, va) ==
      if va / 4096 == virt / 4096 then EntryLeaf(e, va) else Walk(mem, root, 4, va)
  }

  lemma SameTwice(mem: Memory, mem1: Memory, mem2: Memory, root: nat)
    requires SameTranslation(mem, mem1, root) && SameTranslation(mem1, mem2, root)
    ensures SameTranslation(mem, mem2, root)
  {
  }

  lemma SameThenPage(mem: Memory, mem1: Memory, mem2: Memory, root: nat, virt: nat, e: u64)
    requires SameTranslation(mem, mem1, root) && OnlyPage(mem1, mem2, root, virt, e)
    ensures OnlyPage(mem, mem2, root, virt, e)
  {
  }

  /** What any number of page edits at virt may do to memory and to the labels of one tree:
      labels are only added, on frames that were free, and no frame in use changes except
      tables of this tree on the way to virt. */
  ghost predicate Edited(mem: Memory, own: Labels, used: set<nat>,
                         mem': Memory, own': Labels, used': set<nat>, virt: nat)
  {
    && |mem'| == |mem| && used <= used'
    && (forall t :: t in own ==> t in own' && own'[t] == own[t])
    && (forall t :: t in own' && t !in own ==> t in used' && t !in used)
    && (forall t :: t in used && t < |mem| && !(t in own && own[t] <= Path(virt, 3)) ==>
                      mem'[t] == mem[t])
  }

  lemma EditedTwice(mem: Memory, own: Labels, used: set<nat>,
                    mem1: Memory, own1: Labels, used1: set<nat>,
                    mem2: Memory, own2: Labels, used2: set<nat>, virt: nat)
    requires Edited(mem, own, used, mem1, own1, used1, virt)
    requires Edited(mem1, own1, used1, mem2, own2, used2, virt)
    ensures Edited(mem, own, used, mem2, own2, used2, virt)
  {
  }

  /** The same for one tree as a whole, whatever the addresses: labels grow by frames that were
      free, and frames in use outside the tree keep their contents. */
  ghost predicate Confined(mem: Memory, own: Labels, used: set<nat>,
                           mem': Memory, own': Labels, used': set<nat>)
  {
    && |mem'| == |mem| && used <= used'
    && (forall t :: t in own ==> t in own' && own'[t] == own[t])
    && (forall t :: t in own' && t !in own ==> t in used' && t !in used)
    && (forall t :: t in used && t < |mem| && t !in own ==> mem'[t] == mem[t])
  }

  lemma EditIsConfined(mem: Memory, own: Labels, used: set<nat>,
                       mem': Memory, own': Labels, used': set<nat>, virt: nat)
    requires Edited(mem, own, used, mem', own', used', virt)
    ensures Confined(mem, own, used, mem', own', used')
  {
  }

  lemma ConfinedTwice(mem: Memory, own: Labels, used: set<nat>,
                      mem1: Memory, own1: Labels, used1: set<nat>,
                      mem2: Memory, own2: Labels, used2: set<nat>)
    requires Confined(mem, own, used, mem1, own1, used1)
    requires Confined(mem1, own1, used1, mem2, own2, used2)
    ensures Confined(mem, own, used, mem2, own2, used2)
  {
  }

  lemma ConfinedAsIs(mem: Memory, own: Labels, used: set<nat>)
    ensures Confined(mem, own, used, mem, own, used)
  {
  }

  lemma ConfinedFrame(mem: Memory, own: Labels, used: set<nat>,
                      mem': Memory, own': Labels, used': set<nat>, f: nat)
    requires Confined(mem, own, used, mem', own', used') && f in used && f !in own && f < |mem|
    ensures f !in own' && mem'[f] == mem[f] && f in used'
  {
  }

  lemma EditedAsIs(mem: Memory, own: Labels, used: set<nat>, virt: nat)
    ensures Edited(mem, own, used, mem, own, used, virt)
  {
  }

  // Nothing, or one link from table t to a frame that was free.
  lemma EditedByLink(mem: Memory, own: Labels, used: set<nat>,
                     mem': Memory, own': Labels, used': set<nat>, virt: nat, t: nat, g: nat)
    requires t in own && t < |mem| && own[t] <= Path(virt, 3)
    requires |mem'| == |mem| && used <= used'
    requires forall u :: u in used && u < |mem| && u != t ==> mem'[u] == mem[u]
    requires own' == own || (g !in used && g in used' && g !in own && g in own' && own' == own[g := own'[g]])
    ensures Edited(mem, own, used, mem', own', used', virt)
  {
  }

  lemma LinkFrom(mem: Memory, root: nat, own: Labels, t: nat, i: nat)
    requires Tree(mem, root, own) && t in own && |own[t]| < 3 && i < ENTRIES
    ensures t < |mem| && LinkOk(mem, own, t, i)
  {
    hide Rooted;
  }

  // A change below the page directory leaves the way down to it alone.
  lemma DescendFurther(mem: Memory, mem': Memory, root: nat, own: Labels, virt: nat, pd: nat)
    requires Tree(mem, root, own) && |mem'| == |mem|
    requires Descend(mem, root, 4, virt, 2) == Some(pd) && pd in own && own[pd] == Path(virt, 2)
    requires forall u :: u in own && u != pd ==> mem'[u] == mem[u]
    ensures pd < |mem'|
    ensures var e := mem'[pd][Index(2, virt)];
            Present(e) && !Huge(e) ==> Descend(mem', root, 4, virt, 1) == Some(FrameOf(e))
  {
    hide Rooted;
    assert LinkOk(mem, own, root, Index(4, virt));
    var pdp := FrameOf(mem[root][Index(4, virt)]);
    assert LinkOk(mem, own, pdp, Index(3, virt));
    assert Descend(mem, pdp, 3, virt, 2) == Some(pd);
    assert Descend(mem', pdp, 3, virt, 1) == Descend(mem', pd, 2, virt, 1);
  }

  // What the page directory's entry says about the walk.
  lemma HugeBelowDirectory(mem: Memory, root: nat, own: Labels, virt: nat)
    requires Tree(mem, root, own)
    ensures match Descend(mem, root, 4, virt, 2)
            case None => Walk(mem, root, 4, virt) == None && !InHugePage(mem, root, 4, virt)
            case Some(pd) =>
              && pd in own && own[pd] == Path(virt, 2) && pd < |mem|
              && var e := mem[pd][Index(2, virt)];
              && (InHugePage(mem, root, 4, virt) <==> Present(e) && Huge(e))
              && (!Present(e) ==> Walk(mem, root, 4, virt) == None)
  {
    hide Rooted;
    assert LinkOk(mem, own, root, Index(4, virt));
    var e4 := mem[root][Index(4, virt)];
    if Present(e4) {
      var pdp := FrameOf(e4);
      assert own[pdp] == Path(virt, 1);
      assert LinkOk(mem, own, pdp, Index(3, virt));
      var e3 := mem[pdp][Index(3, virt)];
      assert Descend(mem, root, 4, virt, 2) == Descend(mem, pdp, 3, virt, 2);
      if Present(e3) {
        var pd := FrameOf(e3);
        assert own[pd] == Path(virt, 2);
        assert Descend(mem, pdp, 3, virt, 2) == Some(pd);
        var e := mem[pd][Index(2, virt)];
        assert LinkOk(mem, own, pd, Index(2, virt));
        assert InHugePage(mem, pd, 2, virt) == (Present(e) && Huge(e));
        assert InHugePage(mem, root, 4, virt) == InHugePage(mem, pdp, 3, virt);
      }
    }
  }

  // An empty table linked where there was none.
  lemma EmptyLinked(mem: Memory, mem': Memory, root: nat, own: Labels, t: nat, i: nat, g: nat)
    requires Tree(mem, root, own) && Linked(mem, mem', own, t, i, g) && !Present(mem[t][i])
    requires forall k :: 0 <= k < ENTRIES ==> mem'[g][k] == 0
    ensures Tree(mem', root, own[g := own[t] + [i]]) && SameTranslation(mem, mem', root)
    ensures Present(mem'[t][i]) && !Huge(mem'[t][i]) && FrameOf(mem'[t][i]) == g
  {
    hide Rooted;
    LinkKeepsTree(mem, mem', root, own, t, i, g);
    LinkEntry(g, mem'[t][i]);
    forall va: nat | va < ADDRESS_SPACE
      ensures Walk(mem', root, 4, va) == Walk(mem, root, 4, va)
    {
      WalkAcrossEmpty(mem, mem', root, own, t, i, g, root, 4, va);
    }
  }

  // The 512 pages of a 2 MiB entry linked in its place.
  lemma SplitLinked(mem: Memory, mem': Memory, root: nat, own: Labels, t: nat, i: nat, g: nat)
    requires Tree(mem, root, own) && Linked(mem, mem', own, t, i, g)
    requires Present(mem[t][i]) && Huge(mem[t][i])
    requires forall k :: 0 <= k < ENTRIES ==> mem'[g][k] == SplitEntry(mem[t][i], k)
    ensures Tree(mem', root, own[g := own[t] + [i]]) && SameTranslation(mem, mem', root)
    ensures Present(mem'[t][i]) && !Huge(mem'[t][i]) && FrameOf(mem'[t][i]) == g
  {
    hide SplitEntry, At;
    assert LinkOk(mem, own, t, i);
    LinkKeepsTree(mem, mem', root, own, t, i, g);
    LinkEntry(g, mem'[t][i]);
    forall va: nat | va < ADDRESS_SPACE
      ensures Walk(mem', root, 4, va) == Walk(mem, root, 4, va)
    {
      WalkAcrossSplit(mem, mem', root, own, t, i, g, root, 4, va);
    }
  }

  lemma RootOf(mem: Memory, root: nat, own: Labels)
    ensures Tree(mem, root, own) ==>
              root in own && own[root] == [] && 0 !in own && forall t :: t in own ==> t < |mem|
  {
    hide Rooted;
  }

  // A link added or followed makes its position a table's.
  lemma LinkLabel(own: Labels, own': Labels, g: nat)
    requires g in own' && (own' == own || (g !in own && own' == own[g := own'[g]]))
    ensures own'.Values == own.Values + {own'[g]}
  {
    forall p | p in own.Values + {own'[g]}
      ensures p in own'.Values
    {
      if p in own.Values {
        var t :| t in own && own[t] == p;
        assert own'[t] == p;
      }
    }
  }

  class AddressSpaces {
    const pmm: FrameAllocator
    var mem: Memory
    var kernelPml4: nat

    ghost predicate Valid()
      reads this, pmm, pmm.bitmap
    {
      && pmm.Valid()
      && |mem| == MAX_PAGES
      && 0 in pmm.used  // frame 0 is part of the reserved kernel image
    }

    ghost predicate Owns(root: nat, own: Labels)
      reads this, pmm
    {
      Tree(mem, root, own) && own.Keys <= pmm.used
    }

    constructor (pmm: FrameAllocator, mem: Memory)
      requires pmm.Valid() && 0 in pmm.used && |mem| == MAX_PAGES
      ensures Valid() && this.pmm == pmm && this.mem == mem && kernelPml4 == 0
    {
      this.pmm := pmm;
      this.mem := mem;
      kernelPml4 := 0;
    }

    method ZeroTable(t: nat)
      requires t < |mem|
      modifies this`mem
      ensures |mem| == |old(mem)| && mem == old(mem)[t := mem[t]]
      ensures forall k :: 0 <= k < ENTRIES ==> mem[t][k] == 0
    {
      var k := 0;
      while k < ENTRIES
        invariant 0 <= k <= ENTRIES && t < |mem|
        invariant mem == old(mem)[t := mem[t]]
        invariant forall j :: 0 <= j < k ==> mem[t][j] == 0
      {
        mem := mem[t := mem[t][k := 0]];
        k := k + 1;
      }
    }

    /** The table the entry (t, i) links to; with allocate, an empty one is linked in when the
        entry is absent. 0 means there is none. */
    method GetNextLevel(t: nat, i: nat, allocate: bool, ghost root: nat, ghost own: Labels)
      returns (next: nat, ghost own': Labels)
      requires Valid() && Owns(root, own)
      requires t in own && |own[t]| < 2 && i < ENTRIES
      modifies this`mem, pmm, pmm.bitmap
      ensures Valid() && Owns(root, own')
      ensures next == 0 <==> !old(Present(mem[t][i])) && (!allocate || old(pmm.FreeCount()) == 0)
      ensures next == 0 || old(Present(mem[t][i])) ==>
                mem == old(mem) && own' == own && pmm.used == old(pmm.used)
      ensures next != 0 ==>
                && next in own' && own'[next] == own[t] + [i]
                && Present(mem[t][i]) && !Huge(mem[t][i]) && FrameOf(mem[t][i]) == next
      ensures next != 0 && !old(Present(mem[t][i])) ==>
                && own' == own[next := own[t] + [i]]
                && (forall k :: 0 <= k < ENTRIES ==> mem[next][k] == 0)
                && next !in old(pmm.used) && pmm.used == old(pmm.used) + {next}
                && pmm.FreeCount() == old(pmm.FreeCount()) - 1
      ensures forall u :: u in old(pmm.used) && u < |mem| && u != t ==> mem[u] == old(mem)[u]
      ensures SameTranslation(old(mem), mem, root)
    {
      hide Walk, SplitEntry, At, SameTranslation, FrameOf, FrameAllocator.Valid;
      own' := own;
      SameAsItself(mem, root);
      assert LinkOk(mem, own, t, i);
      if Present(mem[t][i]) {
        return FrameOf(mem[t][i]), own;
      }
      if !allocate {
        return 0, own;
      }
      var addr := pmm.AllocPage();
      if addr == 0 {
        return 0, own;
      }
      next := addr / PAGE_SIZE;
      ZeroTable(next);
      LinkFits(next);
      mem := mem[t := mem[t][i := next * 4096 + LINK_FLAGS]];
      own' := own[next := own[t] + [i]];
      EmptyLinked(old(mem), mem, root, own, t, i, next);
    }
  
    // The 512 consecutive pages of the 2 MiB entry pde, with its present and access bits.
    method FillSplit(pt: nat, pde: u64)
      requires pt < |mem|
      modifies this`mem
      ensures |mem| == |old(mem)| && mem == old(mem)[pt := mem[pt]]
      ensures forall k :: 0 <= k < ENTRIES ==> mem[pt][k] == SplitEntry(pde, k)
    {
      hide SplitEntry;
      var k := 0;
      while k < ENTRIES
        invariant 0 <= k <= ENTRIES
        invariant |mem| == |old(mem)| && mem == old(mem)[pt := mem[pt]]
        invariant forall j :: 0 <= j < k ==> mem[pt][j] == SplitEntry(pde, j)
      {
        SplitFits(pde, k);
        mem := mem[pt := mem[pt][k := SplitEntry(pde, k)]];
        k := k + 1;
      }
    }

    /** The last-level table below the page-directory entry (t, i): split out of a 2 MiB entry,
        or the one already linked; 0 for an absent entry or when no frame is free. */
    method SplitHugePde(t: nat, i: nat, ghost root: nat, ghost own: Labels)
      returns (pt: nat, ghost own': Labels)
      requires Valid() && Owns(root, own)
      requires t in own && |own[t]| == 2 && i < ENTRIES
      modifies this`mem, pmm, pmm.bitmap
      ensures Valid() && Owns(root, own')
      ensures pt == 0 <==> !old(Present(mem[t][i])) || (old(Huge(mem[t][i])) && old(pmm.FreeCount()) == 0)
      ensures pt == 0 || !old(Huge(mem[t][i])) ==>
                mem == old(mem) && own' == own && pmm.used == old(pmm.used)
      ensures pt != 0 ==>
                && pt in own' && own'[pt] == own[t] + [i]
                && Present(mem[t][i]) && !Huge(mem[t][i]) && FrameOf(mem[t][i]) == pt
      ensures pt != 0 && old(Huge(mem[t][i])) ==>
                && own' == own[pt := own[t] + [i]]
                && pt !in old(pmm.used) && pmm.used == old(pmm.used) + {pt}
                && pmm.FreeCount() == old(pmm.FreeCount()) - 1
      ensures forall u :: u in old(pmm.used) && u < |mem| && u != t ==> mem[u] == old(mem)[u]
      ensures SameTranslation(old(mem), mem, root)
    {
      hide Walk, SplitEntry, At, SameTranslation, FrameOf, FrameAllocator.Valid;
      own' := own;
      SameAsItself(mem, root);
      assert LinkOk(mem, own, t, i);
      var pde := mem[t][i];
      if !Present(pde) {
        return 0, own;
      }
      if !Huge(pde) {
        return FrameOf(pde), own;
      }
      var addr := pmm.AllocPage();
      if addr == 0 {
        return 0, own;
      }
      pt := addr / PAGE_SIZE;
      FillSplit(pt, pde);
      LinkFits(pt);
      mem := mem[t := mem[t][i := pt * 4096 + LINK_FLAGS]];
      own' := own[pt := own[t] + [i]];
      SplitLinked(old(mem), mem, root, own, t, i, pt);
    }

    // An empty last-level table linked from the absent page-directory entry (t, i).
    method NewPageTable(t: nat, i: nat, ghost root: nat, ghost own: Labels)
      returns (pt: nat, ghost own': Labels)
      requires Valid() && Owns(root, own)
      requires t in own && |own[t]| == 2 && i < ENTRIES && !Present(mem[t][i])
      modifies this`mem, pmm, pmm.bitmap
      ensures Valid() && Owns(root, own')
      ensures pt == 0 <==> old(pmm.FreeCount()) == 0
      ensures pt == 0 ==> mem == old(mem) && own' == own && pmm.used == old(pmm.used)
      ensures pt != 0 ==>
                && own' == own[pt := own[t] + [i]]
                && Present(mem[t][i]) && !Huge(mem[t][i]) && FrameOf(mem[t][i]) == pt
                && pt !in old(pmm.used) && pmm.used == old(pmm.used) + {pt}
                && pmm.FreeCount() == old(pmm.FreeCount()) - 1
      ensures forall u :: u in old(pmm.used) && u < |mem| && u != t ==> mem[u] == old(mem)[u]
      ensures SameTranslation(old(mem), mem, root)
    {
      hide Walk, SplitEntry, At, SameTranslation, FrameOf, FrameAllocator.Valid;
      own' := own;
      SameAsItself(mem, root);
      var addr := pmm.AllocPage();
      if addr == 0 {
        return 0, own;
      }
      pt := addr / PAGE_SIZE;
      ZeroTable(pt);
      LinkFits(pt);
      mem := mem[t := mem[t][i := pt * 4096 + LINK_FLAGS]];
      own' := own[pt := own[t] + [i]];
      EmptyLinked(old(mem), mem, root, own, t, i, pt);
    }

    // vmm_map_page's three cases below the page-directory entry (t, i): split, follow, create.
    method EnsurePageTable(t: nat, i: nat, ghost root: nat, ghost own: Labels)
      returns (pt: nat, ghost own': Labels)
      requires Valid() && Owns(root, own)
      requires t in own && |own[t]| == 2 && i < ENTRIES
      modifies this`mem, pmm, pmm.bitmap
      ensures Valid() && Owns(root, own')
      ensures pt == 0 <==> old(!Present(mem[t][i]) || Huge(mem[t][i])) && old(pmm.FreeCount()) == 0
      ensures pt == 0 || old(Present(mem[t][i]) && !Huge(mem[t][i])) ==>
                mem == old(mem) && own' == own && pmm.used == old(pmm.used)
      ensures pt != 0 ==>
                && pt in own' && own'[pt] == own[t] + [i]
                && Present(mem[t][i]) && !Huge(mem[t][i]) && FrameOf(mem[t][i]) == pt
      ensures pt != 0 && old(!Present(mem[t][i]) || Huge(mem[t][i])) ==>
                && own' == own[pt := own[t] + [i]]
                && pt !in old(pmm.used) && pmm.used == old(pmm.used) + {pt}
                && pmm.FreeCount() == old(pmm.FreeCount()) - 1
      ensures forall u :: u in old(pmm.used) && u < |mem| && u != t ==> mem[u] == old(mem)[u]
      ensures SameTranslation(old(mem), mem, root)
    {
      hide Rooted;
      hide Walk, SameTranslation, FrameAllocator.Valid;
      own' := own;
      assert LinkOk(mem, own, t, i);
      var pde := mem[t][i];
      if Present(pde) {
        if Huge(pde) {
          pt, own' := SplitHugePde(t, i, root, own);
        } else {
          pt := FrameOf(pde);
          SameAsItself(mem, root);
        }
      } else {
        pt, own' := NewPageTable(t, i, root, own);
      }
    }

    // The entry write that ends both page operations.
    method WriteLeaf(pt: nat, virt: nat, e: u64, ghost root: nat, ghost own: Labels)
      requires Valid() && Owns(root, own) && virt < ADDRESS_SPACE
      requires pt in own && own[pt] == Path(virt, 3)
      requires Descend(mem, root, 4, virt, 1) == Some(pt)
      modifies this`mem
      ensures Valid() && Owns(root, own)
      ensures forall u :: 0 <= u < |mem| && u != pt ==> mem[u] == old(mem)[u]
      ensures OnlyPage(old(mem), mem, root, virt, e)
    {
      hide Rooted;
      var i := Index(1, virt);
      mem := mem[pt := mem[pt][i := e]];
      LeafWriteKeepsTree(old(mem), mem, root, own, pt, i);
      forall va: nat | va < ADDRESS_SPACE
        ensures Walk(mem, root, 4, va) ==
                if va / 4096 == virt / 4096 then EntryLeaf(e, va) else Walk(old(mem), root, 4, va)
      {
        SamePath(va, virt);
        assert Path(virt, 4) == own[pt] + [i];
        if va / 4096 == virt / 4096 {
          SameDescent(old(mem), root, 4, va, virt);
          WalkToWrittenLeaf(old(mem), mem, root, own, pt, i, root, 4, va);
        } else {
          WalkElsewhere(old(mem), mem, root, own, pt, i, root, 4, va);
        }
      }
    }

    // The first two steps of both page operations: down to the page directory of virt.
    method PageDirectory(pml4: nat, virt: nat, allocate: bool, ghost own: Labels)
      returns (pd: nat, ghost own': Labels)
      requires Valid() && Owns(pml4, own)
      modifies this`mem, pmm, pmm.bitmap
      ensures Valid() && Owns(pml4, own')
      ensures SameTranslation(old(mem), mem, pml4)
      ensures Edited(old(mem), own, old(pmm.used), mem, own', pmm.used, virt)
      ensures pd != 0 ==> pd in own' && own'[pd] == Path(virt, 2)
      ensures pd != 0 ==> pml4 != pd && Descend(mem, pml4, 4, virt, 2) == Some(pd)
      ensures pd != 0 ==> pmm.FreeCount() as int - Needed(mem, pd, 2, virt) ==
                          old(pmm.FreeCount() as int - Needed(mem, pml4, 4, virt))
      ensures pd == 0 && allocate ==> old(pmm.FreeCount() < Needed(mem, pml4, 4, virt)) && pmm.FreeCount() == 0
      ensures pd != 0 ==> own'.Values == own.Values + {Path(virt, 1), Path(virt, 2)}
      ensures !allocate ==> mem == old(mem) && own' == own && pmm.used == old(pmm.used)
      ensures !allocate ==> (pd == 0 <==> Descend(mem, pml4, 4, virt, 2) == None)
    {
      hide Walk, FrameOf, SameTranslation, Edited, LinkOk, Index, Tree, Needed, FrameAllocator.Valid;
      RootOf(mem, pml4, own);
      ghost var mem0, used0 := mem, pmm.used;
      ghost var surplus: int := pmm.FreeCount() - Needed(mem, pml4, 4, virt);
      NeededStep(mem, pml4, 4, virt);
      var pdp, own1 := GetNextLevel(pml4, Index(4, virt), allocate, pml4, own);
      EditedByLink(mem0, own, used0, mem, own1, pmm.used, virt, pml4, pdp);
      if pdp == 0 {
        return 0, own1;
      }
      assert own1[pdp] == Path(virt, 1);
      LinkLabel(own, own1, pdp);
      if !Present(mem0[pml4][Index(4, virt)]) {
        RootOf(mem, pml4, own1);
        NeededEmpty(mem, pdp, 3, virt);
      }
      assert own1[pdp] <= Path(virt, 3);
      ghost var mem1, used1 := mem, pmm.used;
      assert surplus == pmm.FreeCount() - Needed(mem1, pdp, 3, virt);
      NeededStep(mem, pdp, 3, virt);
      pd, own' := GetNextLevel(pdp, Index(3, virt), allocate, pml4, own1);
      if pd != 0 && !Present(mem1[pdp][Index(3, virt)]) {
        RootOf(mem, pml4, own');
        NeededEmpty(mem, pd, 2, virt);
      }
      EditedByLink(mem1, own1, used1, mem, own', pmm.used, virt, pdp, pd);
      if pd != 0 {
        assert own'[pd] == Path(virt, 2);
        LinkLabel(own1, own', pd);
        assert own'.Values == own.Values + {Path(virt, 1), Path(virt, 2)};
      }
      EditedTwice(mem0, own, used0, mem1, own1, used1, mem, own', pmm.used, virt);
      SameTwice(mem0, mem1, mem, pml4);
      assert mem[pml4] == mem1[pml4];
    }

    /** Makes the page of virt translate to the frame of phys; every other address of the
        space keeps its translation, the neighbours in a split 2 MiB page included. When the
        frames run out first, no translation changes at all. */
    method MapPage(pml4: nat, virt: nat, phys: u64, flags: nat, ghost own: Labels)
      returns (ghost own': Labels, ghost mapped: bool)
      requires Valid() && (pml4 == 0 || Owns(pml4, own)) && virt < ADDRESS_SPACE && flags < 4096
      modifies this`mem, pmm, pmm.bitmap
      ensures Valid() && (pml4 == 0 || Owns(pml4, own'))
      ensures mapped <==> pml4 != 0 && old(pmm.FreeCount()) >= old(Needed(mem, pml4, 4, virt))
      ensures mapped ==> OnlyPage(old(mem), mem, pml4, virt, LeafEntry(phys, flags))
      ensures !mapped ==> SameTranslation(old(mem), mem, pml4)
      ensures pml4 == 0 ==> mem == old(mem) && pmm.used == old(pmm.used)
      ensures mapped ==> pmm.FreeCount() == old(pmm.FreeCount()) - old(Needed(mem, pml4, 4, virt))
      ensures mapped ==> own'.Values == own.Values + PageSteps(virt)
      ensures pml4 != 0 && !mapped ==> pmm.FreeCount() == 0
      ensures Edited(old(mem), own, old(pmm.used), mem, own', pmm.used, virt)
    {
      hide Walk, LeafEntry, FrameOf, SameTranslation, OnlyPage, Edited, LinkOk, Index, Tree, FrameAllocator.Valid;
      ghost var mem0, used0 := mem, pmm.used;
      own', mapped := own, false;
      if pml4 == 0 {
        SameAsItself(mem, pml4);
        EditedAsIs(mem, own, pmm.used, virt);
        return;
      }
      var pd, own1 := PageDirectory(pml4, virt, true, own);
      own' := own1;
      if pd == 0 {
        return;
      }
      ghost var mem1, used1 := mem, pmm.used;
      RootOf(mem, pml4, own1);
      var pt, own2 := EnsurePageTable(pd, Index(2, virt), pml4, own1);
      RootOf(mem, pml4, own2);
      EditedByLink(mem1, own1, used1, mem, own2, pmm.used, virt, pd, pt);
      EditedTwice(mem0, own, used0, mem1, own1, used1, mem, own2, pmm.used, virt);
      SameTwice(mem0, mem1, mem, pml4);
      own' := own2;
      if pt == 0 {
        return;
      }
      LinkLabel(own1, own2, pt);
      assert own2[pt] == Path(virt, 3);
      DescendFurther(mem1, mem, pml4, own1, virt, pd);
      ghost var mem2 := mem;
      WriteLeaf(pt, virt, LeafEntry(phys, flags), pml4, own2);
      SameThenPage(mem0, mem2, mem, pml4, virt, LeafEntry(phys, flags));
      EditedByLink(mem2, own2, pmm.used, mem, own2, pmm.used, virt, pt, pt);
      EditedTwice(mem0, own, used0, mem2, own2, pmm.used, mem, own2, pmm.used, virt);
      mapped := true;
    }

    /** Removes the translation of virt's page and no other. It is not done when the page lies
        in a 2 MiB entry and no frame is free to split it. */
    method UnmapPage(pml4: nat, virt: nat, ghost own: Labels)
      returns (ghost own': Labels, ghost done: bool)
      requires Valid() && (pml4 == 0 || Owns(pml4, own)) && virt < ADDRESS_SPACE
      modifies this`mem, pmm, pmm.bitmap
      ensures Valid() && (pml4 == 0 || Owns(pml4, own'))
      ensures done <==> pml4 != 0 &&
                        (!old(InHugePage(mem, pml4, 4, virt)) || old(pmm.FreeCount()) > 0)
      ensures done ==> OnlyPage(old(mem), mem, pml4, virt, 0)
      ensures !done ==> SameTranslation(old(mem), mem, pml4)
      ensures pml4 == 0 ==> mem == old(mem)
      ensures pmm.FreeCount() ==
              old(pmm.FreeCount()) - (if done && old(InHugePage(mem, pml4, 4, virt)) then 1 else 0)
      ensures Edited(old(mem), own, old(pmm.used), mem, own', pmm.used, virt)
    {
      hide Walk, FrameOf, SameTranslation, OnlyPage, Edited, Index, Tree, FrameAllocator.Valid;
      ghost var mem0, used0 := mem, pmm.used;
      own', done := own, false;
      EditedAsIs(mem, own, pmm.used, virt);
      SameAsItself(mem, pml4);
      if pml4 == 0 {
        return;
      }
      var pd, own1 := PageDirectory(pml4, virt, false, own);
      HugeBelowDirectory(mem, pml4, own, virt);
      if pd == 0 {
        UnmappedPage(mem, pml4, virt);
        return own, true;
      }
      RootOf(mem, pml4, own);
      var i := Index(2, virt);
      var pde := mem[pd][i];
      var pt: nat;
      ghost var own2: Labels := own;
      if Huge(pde) {
        pt, own2 := SplitHugePde(pd, i, pml4, own);
      } else {
        if !Present(pde) {
          UnmappedPage(mem, pml4, virt);
          return own, true;
        }
        pt := FrameOf(pde);
        LinkFrom(mem, pml4, own, pd, i);
      }
      own' := own2;
      RootOf(mem, pml4, own2);
      EditedByLink(mem0, own, used0, mem, own2, pmm.used, virt, pd, pt);
      if pt == 0 {
        if !Present(pde) {
          UnmappedPage(mem, pml4, virt);
          done := true;
        }
        return;
      }
      DescendFurther(mem0, mem, pml4, own, virt, pd);
      ghost var mem1 := mem;
      WriteLeaf(pt, virt, 0, pml4, own2);
      SameThenPage(mem0, mem1, mem, pml4, virt, 0);
      EditedByLink(mem1, own2, pmm.used, mem, own2, pmm.used, virt, pt, pt);
      EditedTwice(mem0, own, used0, mem1, own2, pmm.used, mem, own2, pmm.used, virt);
      done := true;
    }

    /** The software walk: the physical address, or 0 when there is no translation. */
    method VirtToPhys(pml4: nat, virt: nat, ghost own: Labels) returns (phys: nat)
      requires Valid() && (pml4 == 0 || Owns(pml4, own))
      ensures phys == if pml4 == 0 || Walk(mem, pml4, 4, virt) == None then 0
                       else Walk(mem, pml4, 4, virt).value.phys
    {
      hide Rooted;
      if pml4 == 0 {
        return 0;
      }
      assert LinkOk(mem, own, pml4, Index(4, virt));
      var e4 := mem[pml4][Index(4, virt)];
      if !Present(e4) || Huge(e4) {
        return 0;
      }
      var pdp := FrameOf(e4);
      LinksGrantAll(mem, pml4, own, pml4, Index(4, virt), Walk(mem, pdp, 3, virt));
      assert LinkOk(mem, own, pdp, Index(3, virt));
      var e3 := mem[pdp][Index(3, virt)];
      if !Present(e3) || Huge(e3) {
        return 0;
      }
      var pd := FrameOf(e3);
      LinksGrantAll(mem, pml4, own, pdp, Index(3, virt), Walk(mem, pd, 2, virt));
      assert LinkOk(mem, own, pd, Index(2, virt));
      var pde := mem[pd][Index(2, virt)];
      if !Present(pde) {
        return 0;
      }
      if Huge(pde) {
        return pde - pde % HUGE_SIZE + virt % HUGE_SIZE;
      }
      var pt := FrameOf(pde);
      LinksGrantAll(mem, pml4, own, pd, Index(2, virt), Walk(mem, pt, 1, virt));
      var pte := mem[pt][Index(1, virt)];
      if !Present(pte) {
        return 0;
      }
      return pte - pte % 4096 + virt % 4096;
    }
  }

  lemma SplitFits(e: u64, k: nat)
    requires k < ENTRIES
    ensures 0 <= SplitEntry(e, k) < 0x1_0000_0000_0000_0000
  {
    var q := e / HUGE_SIZE;
    assert q < 0x800_0000_0000;
  }

  // The descent depends on the indices above the target only.
  lemma {:induction false} SameDescent(mem: Memory, t: nat, level: nat, va: nat, vb: nat)
    requires 1 <= level <= 4 && Path(va, 4) == Path(vb, 4)
    ensures Descend(mem, t, level, va, 1) == Descend(mem, t, level, vb, 1)
    decreases level
  {
    if level > 1 && t < |mem| {
      assert Index(level, va) == Path(va, 4)[4 - level] == Index(level, vb);
      SameDescent(mem, FrameOf(mem[t][Index(level, va)]), level - 1, va, vb);
    }
  }

  lemma LinkFits(g: nat)
    requires g < MAX_PAGES
    ensures g * 4096 + LINK_FLAGS < 0x1_0000_0000_0000_0000
  {
  }
}
