/** The boot identity map of kernel/paging.c and the address space of a new process,
    create_user_pml4 of kernel/vmm.c. */
module Paging {
  import opened Wrappers
  import opened PageTables
  import opened Pmm
  import opened Vmm

  const GIB: nat := 0x4000_0000
  const HUGE_ENTRY_FLAGS: nat := 0x87  // present, writable, user, 2 MiB page

  // The frames of the six static tables: pml4_table, pdp_table and pd_tables[0..4].
  datatype BootTables = BootTables(pml4: nat, pdp: nat, pd: seq<nat>) {
    ghost predicate Distinct() {
      && |pd| == 4 && pml4 != pdp && pml4 !in pd && pdp !in pd
      && (forall i, j :: 0 <= i < j < 4 ==> pd[i] != pd[j])
      && 0 !in Frames()
    }

    ghost function Frames(): set<nat> {
      {pml4, pdp} + set i | 0 <= i < |pd| :: pd[i]
    }

    ghost function Labels(): Labels {
      map f | f in Frames() :: if f == pml4 then [] else if f == pdp then [0] else [0, Find(f)]
    }

    ghost function Find(f: nat): (i: nat)
      requires f in pd
      ensures i < |pd| && pd[i] == f
    {
      var i :| 0 <= i < |pd| && pd[i] == f; i
    }
  }

  function BootEntry(i: nat, j: nat): (e: u64)
    requires i < 4 && j < ENTRIES
  {
    i * GIB + j * HUGE_SIZE + HUGE_ENTRY_FLAGS
  }

  ghost predicate BootMapped(mem: Memory, b: BootTables)
    requires b.Distinct()
  {
    && b.pml4 < |mem| && b.pdp < |mem| && (forall i :: 0 <= i < 4 ==> b.pd[i] < |mem|)
    && mem[b.pml4][0] == b.pdp * 4096 + LINK_FLAGS
    && (forall k :: 1 <= k < ENTRIES ==> mem[b.pml4][k] == 0)
    && (forall i :: 0 <= i < 4 ==> mem[b.pdp][i] == b.pd[i] * 4096 + LINK_FLAGS)
    && (forall k :: 4 <= k < ENTRIES ==> mem[b.pdp][k] == 0)
    && (forall i, j :: 0 <= i < 4 && 0 <= j < ENTRIES ==> mem[b.pd[i]][j] == BootEntry(i, j))
  }

  lemma HugeDigits(q: nat, e: u64)
    requires e == q * HUGE_SIZE + HUGE_ENTRY_FLAGS
    ensures Present(e) && Writable(e) && User(e) && Huge(e) && e - e % HUGE_SIZE == q * HUGE_SIZE
  {
    FlagsOf(e, q * 0x4_0000 + 16, 7);
    DigitsHuge(q, HUGE_ENTRY_FLAGS);
    DigitsOf128(q * 0x4000 + 1, 7);
    Digits2(q * 0x2000, 1);
  }

  lemma BootEntryFlags(i: nat, j: nat)
    requires i < 4 && j < ENTRIES
    ensures var e := BootEntry(i, j);
            Present(e) && Writable(e) && User(e) && Huge(e) && e - e % HUGE_SIZE == i * GIB + j * HUGE_SIZE
  {
    var e := BootEntry(i, j);
    var q := i * 512 + j;
    HugeDigits(q, e);
  }

  lemma BootRooted(mem: Memory, b: BootTables)
    requires b.Distinct() && BootMapped(mem, b)
    ensures Rooted(mem, b.pml4, b.Labels())
  {
    hide Present, Huge, FrameOf, At;
    assert At(mem, b.pml4, []) == Some(b.pml4) by { AtRoot(mem, b.pml4); }
    AtNext(mem, b.pml4, [], 0);
    assert [] + [0] == [0];
    LinkEntry(b.pdp, mem[b.pml4][0]);
    forall t | t in b.Labels()
      ensures At(mem, b.pml4, b.Labels()[t]) == Some(t)
    {
      if t != b.pml4 && t != b.pdp {
        var i := b.Find(t);
        assert [0] + [i] == [0, i];
        AtNext(mem, b.pml4, [0], i);
        LinkEntry(b.pd[i], mem[b.pdp][i]);
      }
    }
  }

  lemma BootLabels(b: BootTables)
    requires b.Distinct()
    ensures b.pml4 in b.Labels() && b.Labels()[b.pml4] == [] && b.pdp in b.Labels() && b.Labels()[b.pdp] == [0]
    ensures forall i :: 0 <= i < 4 ==> b.pd[i] in b.Labels() && b.Labels()[b.pd[i]] == [0, i]
    ensures forall t :: t in b.Labels() ==>
              t == b.pml4 || t == b.pdp || (|b.Labels()[t]| == 2 && exists i :: 0 <= i < 4 && t == b.pd[i])
  {
    forall i | 0 <= i < 4
      ensures b.pd[i] in b.Labels() && b.Labels()[b.pd[i]] == [0, i]
    {
      assert b.pd[i] in b.Frames();
    }
  }

  // The links of the six tables.
  lemma BootLinks(mem: Memory, b: BootTables, k: nat)
    requires b.Distinct() && BootMapped(mem, b) && k < ENTRIES
    ensures b.pml4 in b.Labels() && LinkOk(mem, b.Labels(), b.pml4, k)
    ensures b.pdp in b.Labels() && LinkOk(mem, b.Labels(), b.pdp, k)
    ensures forall i :: 0 <= i < 4 ==> b.pd[i] in b.Labels() && LinkOk(mem, b.Labels(), b.pd[i], k)
  {
    hide BootTables.Labels, BootEntry, Huge, Writable, User, FrameOf;
    BootLabels(b);
    LinkEntry(b.pdp, mem[b.pml4][0]);
    if k < 4 { LinkEntry(b.pd[k], mem[b.pdp][k]); }
    forall i | 0 <= i < 4
      ensures LinkOk(mem, b.Labels(), b.pd[i], k)
    {
      assert mem[b.pd[i]][k] == BootEntry(i, k);
      BootEntryFlags(i, k);
    }
  }

  lemma BootTree(mem: Memory, b: BootTables)
    requires b.Distinct() && BootMapped(mem, b)
    ensures Tree(mem, b.pml4, b.Labels())
  {
    hide BootTables.Labels, LinkOk, At, Rooted;
    BootRooted(mem, b);
    BootLabels(b);
    assert 0 !in b.Labels() by { NotFrameZero(b); }
    forall t, k: nat | t in b.Labels() && |b.Labels()[t]| < 3 && k < ENTRIES
      ensures LinkOk(mem, b.Labels(), t, k)
    {
      BootLinks(mem, b, k);
    }
  }

  lemma NotFrameZero(b: BootTables)
    requires b.Distinct()
    ensures 0 !in b.Labels()
  {
  }

  /** The boot tables translate [0, 4 GiB) to itself, writable and user, and nothing else. */
  lemma BootIdentity(mem: Memory, b: BootTables, va: nat)
    requires b.Distinct() && BootMapped(mem, b) && va < ADDRESS_SPACE
    ensures Walk(mem, b.pml4, 4, va) ==
            if va < 4 * GIB then Some(Leaf(va, true, true)) else None
  {
    var i4, i3, i2 := Index(4, va), Index(3, va), Index(2, va);
    IndicesOf(va);
    if i4 == 0 {
      LinkEntry(b.pdp, mem[b.pml4][0]);
      if i3 < 4 {
        LinkEntry(b.pd[i3], mem[b.pdp][i3]);
        BootEntryFlags(i3, i2);
        assert mem[b.pd[i3]][i2] == BootEntry(i3, i2);
        assert Walk(mem, b.pd[i3], 2, va) == Some(Leaf(va, true, true));
        assert Walk(mem, b.pdp, 3, va) == Some(Leaf(va, true, true));
      } else {
        assert Walk(mem, b.pdp, 3, va) == None;
      }
    }
  }

  lemma IndicesOf(va: nat)
    requires va < ADDRESS_SPACE
    ensures va == Index(4, va) * 0x80_0000_0000 + Index(3, va) * GIB + Index(2, va) * HUGE_SIZE + va % HUGE_SIZE
    ensures va < 4 * GIB <==> Index(4, va) == 0 && Index(3, va) < 4
  {
    var q := va / HUGE_SIZE;
    assert va / GIB == q / 512;
    assert va / 0x80_0000_0000 == q / 0x4_0000;
    assert q / 512 % 512 == q / 512 - q / 0x4_0000 * 512;
  }

  method PagingInit(vm: AddressSpaces, b: BootTables)
    requires vm.Valid() && b.Distinct()
    requires forall f :: f in b.Frames() ==> f < |vm.mem|
    modifies vm`mem
    ensures vm.Valid() && BootMapped(vm.mem, b) && Tree(vm.mem, b.pml4, b.Labels())
    ensures forall f :: 0 <= f < |vm.mem| && f !in b.Frames() ==> vm.mem[f] == old(vm.mem)[f]
  {
    hide FrameAllocator.Valid, BootEntry, Tree, BootTables.Labels;
    assert b.pml4 in b.Frames() && b.pdp in b.Frames();
    assert forall i :: 0 <= i < 4 ==> b.pd[i] in b.Frames();
    vm.ZeroTable(b.pml4);
    vm.ZeroTable(b.pdp);
    LinkFits(b.pdp);
    vm.mem := vm.mem[b.pml4 := vm.mem[b.pml4][0 := b.pdp * 4096 + LINK_FLAGS]];
    var i := 0;
    while i < 4
      invariant 0 <= i <= 4 && |vm.mem| == |old(vm.mem)|
      invariant vm.mem[b.pml4][0] == b.pdp * 4096 + LINK_FLAGS
      invariant forall k :: 1 <= k < ENTRIES ==> vm.mem[b.pml4][k] == 0
      invariant forall m :: 0 <= m < i ==> vm.mem[b.pdp][m] == b.pd[m] * 4096 + LINK_FLAGS
      invariant forall k :: i <= k < ENTRIES ==> vm.mem[b.pdp][k] == 0
      invariant forall m, j :: 0 <= m < i && 0 <= j < ENTRIES ==> vm.mem[b.pd[m]][j] == BootEntry(m, j)
      invariant forall f :: 0 <= f < |vm.mem| && f !in b.Frames() ==> vm.mem[f] == old(vm.mem)[f]
    {
      LinkFits(b.pd[i]);
      vm.mem := vm.mem[b.pdp := vm.mem[b.pdp][i := b.pd[i] * 4096 + LINK_FLAGS]];
      FillDirectory(vm, b.pd[i], i);
      i := i + 1;
    }
    BootTree(vm.mem, b);
  }

  method FillDirectory(vm: AddressSpaces, pd: nat, i: nat)
    requires pd < |vm.mem| && i < 4
    modifies vm`mem
    ensures |vm.mem| == |old(vm.mem)| && vm.mem == old(vm.mem)[pd := vm.mem[pd]]
    ensures forall j :: 0 <= j < ENTRIES ==> vm.mem[pd][j] == BootEntry(i, j)
  {
    hide BootEntry;
    var j := 0;
    while j < ENTRIES
      invariant 0 <= j <= ENTRIES
      invariant |vm.mem| == |old(vm.mem)| && vm.mem == old(vm.mem)[pd := vm.mem[pd]]
      invariant forall k :: 0 <= k < j ==> vm.mem[pd][k] == BootEntry(i, k)
    {
      vm.mem := vm.mem[pd := vm.mem[pd][j := BootEntry(i, j)]];
      j := j + 1;
    }
  }

  // How many frames create_user_pml4 takes.
  function FramesForUser(mem: Memory, kroot: nat): nat
    requires kroot < |mem|
  {
    if !Present(mem[kroot][0]) || FrameOf(mem[kroot][0]) >= |mem| then 1
    else 2 + PresentBelow(mem[FrameOf(mem[kroot][0])], 4)
  }

  function PresentBelow(t: Table, n: nat): nat
    requires n <= 4
  {
    if n == 0 then 0 else PresentBelow(t, n - 1) + if Present(t[n - 1]) then 1 else 0
  }

  // The kernel tables a user tree may share: all but the root, the table for the lowest
  // 512 GiB, and its page directories.
  ghost predicate Shared(p: Position) {
    |p| >= 1 && (p[0] != 0 || (|p| == 3 && p[1] < 4))
  }

  // The private tables of a user tree: the root, the table below entry 0 and the copied
  // page directories.
  datatype UserTables = UserTables(pml4: nat, pdp: nat, pd: map<nat, nat>) {
    ghost predicate Fresh(used: set<nat>) {
      && pml4 != pdp && pml4 !in pd.Values && pdp !in pd.Values
      && pml4 !in used && pdp !in used && pd.Values !! used
      && Injective(pd)
    }

    ghost function Frames(): set<nat> {
      {pml4, pdp} + pd.Values
    }

    ghost function Own(kown: Labels): Labels {
      map f | f in Frames() + kown.Keys && (f in Frames() || Shared(kown[f])) ::
        if f == pml4 then [] else if f == pdp then [0]
        else if f in pd.Values then [0, Find(f)] else kown[f]
    }

    ghost function Find(f: nat): (i: nat)
      requires f in pd.Values
      ensures i in pd && pd[i] == f
    {
      var i :| i in pd && pd[i] == f; i
    }
  }

  // Entries [0, n) of the kernel's lowest table have been carried over.
  ghost predicate CopiedBelow(mem: Memory, kpdp: nat, u: UserTables, n: nat)
    requires kpdp < |mem| && n <= 4
  {
    && u.pdp < |mem|
    && (forall i: nat :: i in u.pd <==> i < n && Present(mem[kpdp][i]))
    && (forall i :: i in u.pd ==>
                      && u.pd[i] < |mem| && mem[u.pdp][i] == u.pd[i] * 4096 + LINK_FLAGS
                      && FrameOf(mem[kpdp][i]) < |mem| && mem[u.pd[i]] == mem[FrameOf(mem[kpdp][i])])
    && (forall i: nat :: i < ENTRIES && i !in u.pd ==> mem[u.pdp][i] == 0)
  }

  ghost predicate UserCopy(mem: Memory, kroot: nat, u: UserTables) {
    && kroot < |mem| && u.pml4 < |mem|
    && Present(mem[kroot][0]) && FrameOf(mem[kroot][0]) < |mem|
    && CopiedBelow(mem, FrameOf(mem[kroot][0]), u, 4)
    && mem[u.pml4][0] == u.pdp * 4096 + LINK_FLAGS
    && (forall i :: 1 <= i < ENTRIES ==> mem[u.pml4][i] == mem[kroot][i])
  }

  lemma SharedLink(mem: Memory, kroot: nat, kown: Labels, u: UserTables, t: nat, i: nat)
    requires Tree(mem, kroot, kown) && u.Fresh(kown.Keys)
    requires t in kown && |kown[t]| < 3 && i < ENTRIES && Shared(kown[t] + [i])
    ensures var e := mem[t][i]; var own := u.Own(kown);
            Present(e) ==> if Huge(e) then |kown[t]| == 2
                           else Writable(e) && User(e) && FrameOf(e) in own && own[FrameOf(e)] == kown[t] + [i]
  {
    hide Rooted;
    assert LinkOk(mem, kown, t, i);
  }

  lemma CopiedLink(mem: Memory, kroot: nat, kown: Labels, u: UserTables, n: nat, i: nat)
    requires Tree(mem, kroot, kown) && UserCopy(mem, kroot, u) && u.Fresh(kown.Keys)
    requires n in u.pd && i < ENTRIES
    ensures var e := mem[u.pd[n]][i]; var own := u.Own(kown);
            Present(e) && !Huge(e) ==>
              Writable(e) && User(e) && FrameOf(e) in own && own[FrameOf(e)] == [0, n, i]
  {
    hide Rooted;
    var kpdp := FrameOf(mem[kroot][0]);
    assert LinkOk(mem, kown, kroot, 0);
    assert LinkOk(mem, kown, kpdp, n);
    SharedLink(mem, kroot, kown, u, FrameOf(mem[kpdp][n]), i);
  }

  lemma RootLink(mem: Memory, kroot: nat, kown: Labels, u: UserTables, i: nat)
    requires Tree(mem, kroot, kown) && UserCopy(mem, kroot, u) && u.Fresh(kown.Keys)
    requires 0 !in u.Frames() && i < ENTRIES
    ensures u.pml4 in u.Own(kown) && LinkOk(mem, u.Own(kown), u.pml4, i)
  {
    hide Rooted;
    if i == 0 {
      LinkEntry(u.pdp, mem[u.pml4][0]);
    } else {
      SharedLink(mem, kroot, kown, u, kroot, i);
    }
  }

  // Where the user tree shares the kernel's tables, they are at the same positions.
  lemma {:induction false} SharedAt(mem: Memory, kroot: nat, kown: Labels, u: UserTables, p: Position)
    requires Tree(mem, kroot, kown) && UserCopy(mem, kroot, u) && u.Fresh(kown.Keys)
    requires |p| <= 3 && Shared(p) && At(mem, kroot, p).Some?
    ensures At(mem, u.pml4, p) == At(mem, kroot, p)
    decreases |p|
  {
    hide Rooted;
    var q, i := p[..|p| - 1], p[|p| - 1];
    LabelsExact(mem, kroot, kown, p);
    LabelsExact(mem, kroot, kown, q);
    if |p| == 1 {
      assert q == [];
    } else if p[0] != 0 {
      SharedAt(mem, kroot, kown, u, q);
    } else {
      assert q == [0, p[1]];
      CopiedAt(mem, kroot, kown, u, p[1]);
    }
  }

  lemma CopiedAt(mem: Memory, kroot: nat, kown: Labels, u: UserTables, n: nat)
    requires Tree(mem, kroot, kown) && UserCopy(mem, kroot, u) && n < 4
    ensures At(mem, u.pml4, [0]) == Some(u.pdp) && At(mem, kroot, [0]) == NextTable(mem, kroot, 0)
    ensures At(mem, kroot, [0, n]).Some? || n in u.pd ==>
              && n in u.pd && At(mem, u.pml4, [0, n]) == Some(u.pd[n])
              && At(mem, kroot, [0, n]) == Some(FrameOf(mem[FrameOf(mem[kroot][0])][n]))
  {
    hide Rooted;
    var kpdp := FrameOf(mem[kroot][0]);
    assert LinkOk(mem, kown, kroot, 0);
    assert LinkOk(mem, kown, kpdp, n);
    AtNext(mem, u.pml4, [], 0);
    AtNext(mem, kroot, [], 0);
    AtNext(mem, u.pml4, [0], n);
    AtNext(mem, kroot, [0], n);
    assert [] + [0] == [0] && [0] + [n] == [0, n];
    LinkEntry(u.pdp, mem[u.pml4][0]);
    if n in u.pd {
      LinkEntry(u.pd[n], mem[u.pdp][n]);
    }
  }

  lemma UserRooted(mem: Memory, kroot: nat, kown: Labels, u: UserTables)
    requires Tree(mem, kroot, kown) && UserCopy(mem, kroot, u)
    requires u.Fresh(kown.Keys) && 0 !in u.Frames()
    ensures Rooted(mem, u.pml4, u.Own(kown))
  {
    hide Present, Huge, FrameOf, CopiedBelow;
    var own := u.Own(kown);
    forall t | t in own
      ensures At(mem, u.pml4, own[t]) == Some(t)
    {
      CopiedAt(mem, kroot, kown, u, 0);
      if t in u.pd.Values {
        FewCopied(mem, kroot, u);
        CopiedAt(mem, kroot, kown, u, u.Find(t));
      } else if t !in u.Frames() {
        SharedAt(mem, kroot, kown, u, kown[t]);
      }
    }
  }

  lemma FewCopied(mem: Memory, kroot: nat, u: UserTables)
    requires UserCopy(mem, kroot, u)
    ensures forall n :: n in u.pd ==> n < 4
  {
  }

  lemma UserTree(mem: Memory, kroot: nat, kown: Labels, u: UserTables)
    requires Tree(mem, kroot, kown) && UserCopy(mem, kroot, u)
    requires u.Fresh(kown.Keys) && 0 !in u.Frames()
    ensures Tree(mem, u.pml4, u.Own(kown))
  {
    hide Present, Huge, Writable, User, FrameOf, At;
    UserRooted(mem, kroot, kown, u);
    var own := u.Own(kown);
    forall t, i: nat | t in own && |own[t]| < 3 && i < ENTRIES
      ensures LinkOk(mem, own, t, i)
    {
      if t == u.pml4 {
        RootLink(mem, kroot, kown, u, i);
      } else if t == u.pdp {
        PrivateLink(mem, kroot, kown, u, i);
      } else if t in u.pd.Values {
        CopiedLink(mem, kroot, kown, u, u.Find(t), i);
      } else {
        SharedLink(mem, kroot, kown, u, t, i);
      }
    }
  }

  lemma PrivateLink(mem: Memory, kroot: nat, kown: Labels, u: UserTables, i: nat)
    requires UserCopy(mem, kroot, u) && u.Fresh(kown.Keys) && i < ENTRIES
    ensures u.pdp in u.Own(kown) && LinkOk(mem, u.Own(kown), u.pdp, i)
  {
    if i in u.pd {
      LinkEntry(u.pd[i], mem[u.pdp][i]);
    }
  }

  /** A new address space translates as the kernel does, except that nothing at or above 4 GiB
      below entry 0 of the root is carried over. */
  lemma UserTranslation(mem: Memory, kroot: nat, kown: Labels, u: UserTables, va: nat)
    requires Tree(mem, kroot, kown) && UserCopy(mem, kroot, u) && va < ADDRESS_SPACE
    ensures Walk(mem, u.pml4, 4, va) ==
            if Index(4, va) == 0 && Index(3, va) >= 4 then None else Walk(mem, kroot, 4, va)
  {
    hide Rooted, Index;
    var i4, i3, i2 := Index(4, va), Index(3, va), Index(2, va);
    assert LinkOk(mem, kown, kroot, i4);
    if i4 == 0 {
      var kpdp := FrameOf(mem[kroot][0]);
      LinkEntry(u.pdp, mem[u.pml4][0]);
      LinksGrantAll(mem, kroot, kown, kroot, 0, Walk(mem, kpdp, 3, va));
      assert LinkOk(mem, kown, kpdp, i3);
      assert Walk(mem, u.pml4, 4, va) == Walk(mem, u.pdp, 3, va);
      if i3 in u.pd {
        var kpd := FrameOf(mem[kpdp][i3]);
        LinkEntry(u.pd[i3], mem[u.pdp][i3]);
        LinksGrantAll(mem, kroot, kown, kpdp, i3, Walk(mem, kpd, 2, va));
        assert Walk(mem, u.pdp, 3, va) == Walk(mem, u.pd[i3], 2, va);
        assert Walk(mem, u.pd[i3], 2, va) == Walk(mem, kpd, 2, va);
      }
    }
  }

  // One private page directory with the entries of the kernel's.
  method CopyDirectory(vm: AddressSpaces, dst: nat, src: nat)
    requires dst < |vm.mem| && src < |vm.mem| && dst != src
    modifies vm`mem
    ensures |vm.mem| == |old(vm.mem)| && vm.mem == old(vm.mem)[dst := old(vm.mem)[src]]
  {
    var i := 0;
    while i < ENTRIES
      invariant 0 <= i <= ENTRIES
      invariant |vm.mem| == |old(vm.mem)| && vm.mem == old(vm.mem)[dst := vm.mem[dst]]
      invariant forall k :: 0 <= k < i ==> vm.mem[dst][k] == vm.mem[src][k]
    {
      vm.mem := vm.mem[dst := vm.mem[dst][i := vm.mem[src][i]]];
      i := i + 1;
    }
    assert vm.mem[dst] == vm.mem[src];
  }

  // Entries 1 to 511 of the root are shared with the kernel.
  method ShareUpperEntries(vm: AddressSpaces, dst: nat, src: nat)
    requires dst < |vm.mem| && src < |vm.mem| && dst != src
    modifies vm`mem
    ensures |vm.mem| == |old(vm.mem)| && vm.mem == old(vm.mem)[dst := vm.mem[dst]]
    ensures vm.mem[dst][0] == old(vm.mem)[dst][0]
    ensures forall k :: 1 <= k < ENTRIES ==> vm.mem[dst][k] == vm.mem[src][k]
  {
    var i := 1;
    while i < ENTRIES
      invariant 1 <= i <= ENTRIES
      invariant |vm.mem| == |old(vm.mem)| && vm.mem == old(vm.mem)[dst := vm.mem[dst]]
      invariant vm.mem[dst][0] == old(vm.mem)[dst][0]
      invariant forall k :: 1 <= k < i ==> vm.mem[dst][k] == vm.mem[src][k]
    {
      vm.mem := vm.mem[dst := vm.mem[dst][i := vm.mem[src][i]]];
      i := i + 1;
    }
  }

  // One of the four lowest entries: a fresh frame, linked and filled from the kernel's.
  method CopyEntry(vm: AddressSpaces, kpdp: nat, pdp: nat, i: nat) returns (g: nat)
    requires vm.Valid() && kpdp in vm.pmm.used && kpdp < |vm.mem| && i < 4
    requires pdp in vm.pmm.used && pdp < |vm.mem| && pdp != kpdp
    requires FrameOf(vm.mem[kpdp][i]) in vm.pmm.used && FrameOf(vm.mem[kpdp][i]) != pdp
    requires FrameOf(vm.mem[kpdp][i]) < |vm.mem|
    modifies vm`mem, vm.pmm, vm.pmm.bitmap
    ensures vm.Valid()
    ensures g == 0 <==> old(vm.pmm.FreeCount()) == 0
    ensures g == 0 ==> vm.mem == old(vm.mem) && vm.pmm.used == old(vm.pmm.used)
    ensures g != 0 ==> vm.pmm.FreeCount() == old(vm.pmm.FreeCount()) - 1
    ensures g != 0 ==> && g !in old(vm.pmm.used) && vm.pmm.used == old(vm.pmm.used) + {g}
                       && g < |vm.mem| && vm.mem[g] == old(vm.mem[FrameOf(vm.mem[kpdp][i])])
                       && vm.mem[pdp][i] == g * 4096 + LINK_FLAGS
    ensures forall k :: 0 <= k < ENTRIES && k != i ==> vm.mem[pdp][k] == old(vm.mem)[pdp][k]
    ensures forall f :: f in old(vm.pmm.used) && f < |vm.mem| && f != pdp ==> vm.mem[f] == old(vm.mem)[f]
  {
    hide FrameOf, FrameAllocator.Valid;
    var kpd := FrameOf(vm.mem[kpdp][i]);
    var addr := vm.pmm.AllocPage();
    if addr == 0 {
      return 0;
    }
    g := addr / PAGE_SIZE;
    vm.ZeroTable(g);
    LinkFits(g);
    vm.mem := vm.mem[pdp := vm.mem[pdp][i := g * 4096 + LINK_FLAGS]];
    CopyDirectory(vm, g, kpd);
  }

  ghost predicate Injective(m: map<nat, nat>) {
    forall i, j :: i in m && j in m && i != j ==> m[i] != m[j]
  }

  lemma CopiedNone(mem: Memory, kpdp: nat, u: UserTables)
    requires kpdp < |mem| && u.pdp < |mem| && u.pd == map[]
    requires forall k :: 0 <= k < ENTRIES ==> mem[u.pdp][k] == 0
    ensures CopiedBelow(mem, kpdp, u, 0) && Injective(u.pd)
  {
  }

  lemma CopiedSkip(mem: Memory, kpdp: nat, u: UserTables, i: nat)
    requires kpdp < |mem| && i < 4 && CopiedBelow(mem, kpdp, u, i) && !Present(mem[kpdp][i])
    ensures CopiedBelow(mem, kpdp, u, i + 1)
  {
  }

  lemma CopiedOneMore(mem: Memory, mem': Memory, used: set<nat>, kpdp: nat, pml4: nat, pdp: nat,
                      pd: map<nat, nat>, g: nat, i: nat)
    requires kpdp < |mem| && i < 4 && |mem'| == |mem| && pdp != kpdp && g < |mem|
    requires CopiedBelow(mem, kpdp, UserTables(pml4, pdp, pd), i) && Injective(pd)
    requires kpdp in used && pdp in used && pd.Values !! used && g !in used + pd.Values
    requires forall k :: 0 <= k < 4 && Present(mem[kpdp][k]) ==>
                           && FrameOf(mem[kpdp][k]) < |mem| && FrameOf(mem[kpdp][k]) in used
                           && FrameOf(mem[kpdp][k]) != pdp
    requires Present(mem[kpdp][i])
    requires mem'[g] == mem[FrameOf(mem[kpdp][i])] && mem'[pdp][i] == g * 4096 + LINK_FLAGS
    requires forall k :: 0 <= k < ENTRIES && k != i ==> mem'[pdp][k] == mem[pdp][k]
    requires forall f :: 0 <= f < |mem| && f != pdp && f in used + pd.Values ==> mem'[f] == mem[f]
    ensures CopiedBelow(mem', kpdp, UserTables(pml4, pdp, pd[i := g]), i + 1)
    ensures Injective(pd[i := g])
  {
    hide Present, FrameOf;
    assert i !in pd;
    assert mem'[kpdp] == mem[kpdp];
    var pd' := pd[i := g];
    forall m | m in pd'
      ensures && pd'[m] < |mem| && mem'[pdp][m] == pd'[m] * 4096 + LINK_FLAGS
              && mem'[pd'[m]] == mem'[FrameOf(mem'[kpdp][m])]
    {
      if m != i {
        assert pd[m] in pd.Values;
      }
    }
  }

  // The loop over the four lowest entries: a private copy of every page directory present.
  method CopyDirectories(vm: AddressSpaces, kpdp: nat, ghost pml4: nat, pdp: nat)
    returns (ok: bool, ghost pd: map<nat, nat>)
    requires vm.Valid() && kpdp in vm.pmm.used && kpdp < |vm.mem|
    requires pdp in vm.pmm.used && pdp < |vm.mem| && pdp != kpdp
    requires forall i :: 0 <= i < 4 && Present(vm.mem[kpdp][i]) ==>
                           FrameOf(vm.mem[kpdp][i]) in vm.pmm.used && FrameOf(vm.mem[kpdp][i]) != pdp
    requires forall k :: 0 <= k < ENTRIES ==> vm.mem[pdp][k] == 0
    modifies vm`mem, vm.pmm, vm.pmm.bitmap
    ensures vm.Valid() && old(vm.pmm.used) <= vm.pmm.used
    ensures forall f :: f in old(vm.pmm.used) && f < |vm.mem| && f != pdp ==> vm.mem[f] == old(vm.mem)[f]
    ensures ok <==> old(vm.pmm.FreeCount() >= PresentBelow(vm.mem[kpdp], 4))
    ensures ok ==> vm.pmm.FreeCount() == old(vm.pmm.FreeCount() - PresentBelow(vm.mem[kpdp], 4))
    ensures ok ==> CopiedBelow(vm.mem, kpdp, UserTables(pml4, pdp, pd), 4)
    ensures ok ==> pd.Values !! old(vm.pmm.used) && pd.Values <= vm.pmm.used && Injective(pd)
  {
    hide Present, FrameOf, CopiedBelow, Injective, PresentBelow, FrameAllocator.Valid;
    pd := map[];
    CopiedNone(vm.mem, kpdp, UserTables(pml4, pdp, pd));
    MorePresent(vm.mem[kpdp], 0);
    var i := 0;
    while i < 4
      invariant 0 <= i <= 4 && vm.Valid() && old(vm.pmm.used) <= vm.pmm.used
      invariant forall f :: f in old(vm.pmm.used) && f < |vm.mem| && f != pdp ==> vm.mem[f] == old(vm.mem)[f]
      invariant CopiedBelow(vm.mem, kpdp, UserTables(pml4, pdp, pd), i)
      invariant pd.Values !! old(vm.pmm.used) && pd.Values <= vm.pmm.used && Injective(pd)
      invariant old(vm.pmm.FreeCount() >= PresentBelow(vm.mem[kpdp], i))
      invariant vm.pmm.FreeCount() == old(vm.pmm.FreeCount() - PresentBelow(vm.mem[kpdp], i))
    {
      MorePresent(vm.mem[kpdp], i + 1);
      vm.pmm.InRange();
      ghost var mem0 := vm.mem;
      if Present(vm.mem[kpdp][i]) {
        var g := CopyEntry(vm, kpdp, pdp, i);
        if g == 0 {
          return false, pd;
        }
        CopiedOneMore(mem0, vm.mem, old(vm.pmm.used), kpdp, pml4, pdp, pd, g, i);
        pd := pd[i := g];
      } else {
        CopiedSkip(vm.mem, kpdp, UserTables(pml4, pdp, pd), i);
      }
      i := i + 1;
    }
    ok := true;
  }

  lemma {:induction false} MorePresent(t: Table, n: nat)
    requires n <= 4
    ensures PresentBelow(t, n) <= PresentBelow(t, 4)
    ensures n > 0 ==> PresentBelow(t, n) == PresentBelow(t, n - 1) + if Present(t[n - 1]) then 1 else 0
    ensures PresentBelow(t, 0) == 0
    decreases 4 - n
  {
    if n < 4 {
      MorePresent(t, n + 1);
    }
  }

  // What a kernel tree says about its lowest table and the page directories below it.
  lemma KernelDirectories(mem: Memory, kroot: nat, kown: Labels)
    requires Tree(mem, kroot, kown)
    ensures kroot in kown && kroot < |mem|
    ensures Present(mem[kroot][0]) ==>
              var kpdp := FrameOf(mem[kroot][0]);
              && kpdp in kown && kpdp < |mem| && kpdp != kroot
              && (forall i :: 0 <= i < 4 && Present(mem[kpdp][i]) ==>
                                FrameOf(mem[kpdp][i]) in kown && FrameOf(mem[kpdp][i]) != 0)
  {
    hide Rooted;
    assert LinkOk(mem, kown, kroot, 0);
    if Present(mem[kroot][0]) {
      var kpdp := FrameOf(mem[kroot][0]);
      forall i | 0 <= i < 4 && Present(mem[kpdp][i])
        ensures FrameOf(mem[kpdp][i]) in kown && FrameOf(mem[kpdp][i]) != 0
      {
        assert LinkOk(mem, kown, kpdp, i);
      }
    }
  }

  // The table below entry 0 of the new root.
  method LowestTable(vm: AddressSpaces, pml4: nat) returns (pdp: nat)
    requires vm.Valid() && pml4 in vm.pmm.used && pml4 < |vm.mem|
    modifies vm`mem, vm.pmm, vm.pmm.bitmap
    ensures vm.Valid() && (pdp == 0 <==> old(vm.pmm.FreeCount()) == 0)
    ensures pdp == 0 ==> vm.mem == old(vm.mem) && vm.pmm.used == old(vm.pmm.used)
    ensures pdp != 0 ==>
              && pdp !in old(vm.pmm.used) && vm.pmm.used == old(vm.pmm.used) + {pdp} && pdp < |vm.mem|
              && vm.pmm.FreeCount() == old(vm.pmm.FreeCount()) - 1
              && pdp * 4096 + LINK_FLAGS < 0x1_0000_0000_0000_0000
              && vm.mem[pml4] == old(vm.mem)[pml4][0 := pdp * 4096 + LINK_FLAGS]
              && (forall k :: 0 <= k < ENTRIES ==> vm.mem[pdp][k] == 0)
              && (forall f :: 0 <= f < |vm.mem| && f != pml4 && f != pdp ==> vm.mem[f] == old(vm.mem)[f])
  {
    hide FrameAllocator.Valid;
    var addr := vm.pmm.AllocPage();
    if addr == 0 {
      return 0;
    }
    pdp := addr / PAGE_SIZE;
    vm.ZeroTable(pdp);
    LinkFits(pdp);
    vm.mem := vm.mem[pml4 := vm.mem[pml4][0 := pdp * 4096 + LINK_FLAGS]];
  }

  // From the allocated root on: the second frame, the copies, the shared entries.
  method CopyKernelTree(vm: AddressSpaces, pml4: nat, kpdp: nat, ghost kown: Labels)
    returns (ok: bool, ghost u: UserTables)
    requires vm.Valid() && pml4 in vm.pmm.used && pml4 != 0 && pml4 < |vm.mem| && pml4 !in kown
    requires vm.Owns(vm.kernelPml4, kown)
    requires vm.kernelPml4 < |vm.mem| && Present(vm.mem[vm.kernelPml4][0])
    requires kpdp == FrameOf(vm.mem[vm.kernelPml4][0]) && kpdp < |vm.mem|
    requires forall k :: 0 <= k < ENTRIES ==> vm.mem[pml4][k] == 0
    modifies vm`mem, vm.pmm, vm.pmm.bitmap
    ensures vm.Valid() && old(vm.pmm.used) <= vm.pmm.used
    ensures forall f :: f in old(vm.pmm.used) && f < |vm.mem| && f != pml4 ==> vm.mem[f] == old(vm.mem)[f]
    ensures ok <==> old(vm.pmm.FreeCount() >= 1 + PresentBelow(vm.mem[kpdp], 4))
    ensures ok ==> vm.pmm.FreeCount() == old(vm.pmm.FreeCount() - 1 - PresentBelow(vm.mem[kpdp], 4))
    ensures ok ==> && u.pml4 == pml4 && u.pdp !in old(vm.pmm.used) && u.pd.Values !! old(vm.pmm.used)
                   && u.Frames() <= vm.pmm.used
                   && UserCopy(vm.mem, vm.kernelPml4, u) && u.Fresh(old(vm.pmm.used) - {pml4})
  {
    hide Tree, Present, FrameOf, PresentBelow, CopiedBelow, UserCopy, UserTables.Fresh, Injective, FrameAllocator.Valid;
    u := UserTables(0, 0, map[]);
    ghost var mem0, used0 := vm.mem, vm.pmm.used;
    KernelDirectories(mem0, vm.kernelPml4, kown);
    var pdp := LowestTable(vm, pml4);
    if pdp == 0 {
      return false, u;
    }
    assert vm.mem[kpdp] == mem0[kpdp];
    ghost var pd;
    ok, pd := CopyDirectories(vm, kpdp, pml4, pdp);
    if ok {
      ghost var mem1 := vm.mem;
      assert forall f :: f in used0 && f < |mem0| && f != pml4 ==> mem1[f] == mem0[f];
      ShareUpperEntries(vm, pml4, vm.kernelPml4);
      u := UserTables(pml4, pdp, pd);
      CopyDone(mem0, used0, mem1, vm.mem, vm.kernelPml4, kown, u);
    }
  }

  // The root's entries over the copied directories complete the copy.
  lemma CopyDone(mem0: Memory, used0: set<nat>, mem1: Memory, mem2: Memory, kroot: nat, kown: Labels, u: UserTables)
    requires Tree(mem0, kroot, kown) && kown.Keys <= used0 && u.pml4 in used0 && u.pml4 !in kown
    requires kroot < |mem0| && Present(mem0[kroot][0]) && FrameOf(mem0[kroot][0]) < |mem0|
    requires u.pml4 < |mem0| && u.pdp !in used0 && u.pd.Values !! used0 && u.pdp !in u.pd.Values && Injective(u.pd)
    requires |mem1| == |mem0| && forall f :: f in used0 && f < |mem0| && f != u.pml4 ==> mem1[f] == mem0[f]
    requires CopiedBelow(mem1, FrameOf(mem0[kroot][0]), u, 4)
    requires |mem2| == |mem1| && mem2 == mem1[u.pml4 := mem2[u.pml4]]
    requires mem2[u.pml4][0] == u.pdp * 4096 + LINK_FLAGS
    requires forall k :: 1 <= k < ENTRIES ==> mem2[u.pml4][k] == mem2[kroot][k]
    ensures UserCopy(mem2, kroot, u) && u.Fresh(used0 - {u.pml4})
  {
    hide Tree, Present, FrameOf, CopiedBelow;
    KernelDirectories(mem0, kroot, kown);
    var kpdp := FrameOf(mem0[kroot][0]);
    assert mem1[kpdp] == mem0[kpdp] && mem2[kroot] == mem0[kroot];
    CopiedElsewhere(mem1, mem2, kpdp, u);
  }

  lemma CopiedElsewhere(mem: Memory, mem': Memory, kpdp: nat, u: UserTables)
    requires kpdp < |mem| && |mem'| == |mem| && CopiedBelow(mem, kpdp, u, 4)
    requires forall f :: 0 <= f < |mem| && f != u.pml4 ==> mem'[f] == mem[f]
    requires u.pml4 != kpdp && u.pml4 != u.pdp && u.pml4 !in u.pd.Values
    requires forall i :: 0 <= i < 4 && Present(mem[kpdp][i]) ==> FrameOf(mem[kpdp][i]) != u.pml4
    ensures CopiedBelow(mem', kpdp, u, 4)
  {
    hide FrameOf, Present;
  }

  /** A root for a new process, or 0 when frames run out or there is no kernel tree. No frame in
      use is written, so every existing address space keeps all of its translations. */
  method CreateUserPml4(vm: AddressSpaces, ghost kown: Labels)
    returns (root: nat, ghost own: Labels, ghost u: UserTables)
    requires vm.Valid() && (vm.kernelPml4 != 0 ==> vm.Owns(vm.kernelPml4, kown))
    modifies vm`mem, vm.pmm, vm.pmm.bitmap
    ensures vm.Valid() && old(vm.pmm.used) <= vm.pmm.used
    ensures forall f :: f in old(vm.pmm.used) && f < |vm.mem| ==> vm.mem[f] == old(vm.mem)[f]
    ensures root != 0 <==> vm.kernelPml4 != 0 &&
                           old(vm.pmm.FreeCount() >= FramesForUser(vm.mem, vm.kernelPml4))
    ensures root != 0 ==> vm.pmm.FreeCount() == old(vm.pmm.FreeCount() - FramesForUser(vm.mem, vm.kernelPml4))
    ensures root != 0 ==> root !in old(vm.pmm.used) && vm.Owns(root, own)
    ensures root != 0 && !Present(vm.mem[vm.kernelPml4][0]) ==>
              forall va: nat :: va < ADDRESS_SPACE ==> Walk(vm.mem, root, 4, va) == None
    ensures root != 0 && Present(vm.mem[vm.kernelPml4][0]) ==>
              && u.pml4 == root && UserCopy(vm.mem, vm.kernelPml4, u)
              && own == u.Own(kown) && u.Fresh(old(vm.pmm.used))
    ensures root != 0 && Present(vm.mem[vm.kernelPml4][0]) ==>
              forall va: nat :: va < ADDRESS_SPACE ==>
                Walk(vm.mem, root, 4, va) ==
                if Index(4, va) == 0 && Index(3, va) >= 4 then None
                else Walk(vm.mem, vm.kernelPml4, 4, va)
  {
    hide Tree, UserCopy, Walk, Index, FrameOf, FrameAllocator.Valid;
    root, own := 0, map[];
    u := UserTables(0, 0, map[]);
    var addr := vm.pmm.AllocPage();
    if addr == 0 {
      if vm.kernelPml4 != 0 {
        KernelDirectories(vm.mem, vm.kernelPml4, kown);
      }
      return;
    }
    var pml4 := addr / PAGE_SIZE;
    vm.pmm.InRange();
    vm.ZeroTable(pml4);
    var kroot := vm.kernelPml4;
    if kroot == 0 {
      return;
    }
    TreeUntouched(old(vm.mem), vm.mem, kroot, kown);
    KernelDirectories(vm.mem, kroot, kown);
    var e := vm.mem[kroot][0];
    if !Present(e) {
      EmptyRoot(vm.mem, pml4);
      return pml4, map[pml4 := []], u;
    }
    var ok;
    ghost var mem1 := vm.mem;
    ok, u := CopyKernelTree(vm, pml4, FrameOf(e), kown);
    if !ok {
      return;
    }
    root, own := pml4, u.Own(kown);
    TreeUntouched(mem1, vm.mem, kroot, kown);
    UserTree(vm.mem, kroot, kown, u);
    forall va: nat | va < ADDRESS_SPACE
      ensures Walk(vm.mem, root, 4, va) ==
              if Index(4, va) == 0 && Index(3, va) >= 4 then None
              else Walk(vm.mem, kroot, 4, va)
    {
      UserTranslation(vm.mem, kroot, kown, u, va);
    }
  }

  lemma EmptyRoot(mem: Memory, root: nat)
    requires 0 < root < |mem| && forall k :: 0 <= k < ENTRIES ==> mem[root][k] == 0
    ensures Tree(mem, root, map[root := []])
    ensures forall va: nat :: va < ADDRESS_SPACE ==> Walk(mem, root, 4, va) == None
  {
  }
}
