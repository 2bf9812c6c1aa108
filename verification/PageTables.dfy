/** Four-level page tables as values: entries, the walk from a root to a leaf, and the effect
    on every translation of the three kinds of entry write kernel/vmm.c performs.
    A table is named by its frame number; an entry is a 64-bit number whose low 12 bits are
    flags (Intel SDM Vol. 3A, section 4.5). */
module PageTables {
  import opened Wrappers
  const ENTRIES: nat := 512
  const ADDRESS_SPACE: nat := 0x1_0000_0000_0000  // 2^48
  const HUGE_SIZE: nat := 0x20_0000               // 2 MiB

  type u64 = e: int | 0 <= e < 0x1_0000_0000_0000_0000
  type Table = t: seq<u64> | |t| == ENTRIES witness seq(512, i => 0)
  type Memory = seq<Table>

  predicate Present(e: u64) { e % 2 == 1 }
  predicate Writable(e: u64) { e / 2 % 2 == 1 }
  predicate User(e: u64) { e / 4 % 2 == 1 }
  predicate Huge(e: u64) { e / 128 % 2 == 1 }
  function FrameOf(e: u64): nat { e / 4096 }

  // PML4_IDX, PDP_IDX, PD_IDX and PT_IDX are levels 4, 3, 2 and 1.
  function Index(level: nat, va: nat): (i: nat)
    requires 1 <= level <= 4
    ensures i < ENTRIES
  {
    match level
    case 4 => va / 0x80_0000_0000 % 512
    case 3 => va / 0x4000_0000 % 512
    case 2 => va / 0x20_0000 % 512
    case _ => va / 0x1000 % 512
  }

  // Where an address lands, with the rights the whole walk grants.
  datatype Leaf = Leaf(phys: nat, writable: bool, user: bool)

  function Restrict(e: u64, l: Option<Leaf>): Option<Leaf> {
    match l
    case None => None
    case Some(leaf) =>
      Some(Leaf(leaf.phys, Writable(e) && leaf.writable, User(e) && leaf.user))
  }

  // The leaf an entry of the last table, or a 2 MiB entry of a page directory, denotes.
  function PageLeaf(e: u64, va: nat): Leaf {
    Leaf(e - e % 4096 + va % 4096, Writable(e), User(e))
  }

  function HugeLeaf(e: u64, va: nat): Leaf {
    Leaf(e - e % HUGE_SIZE + va % HUGE_SIZE, Writable(e), User(e))
  }

  function Walk(mem: Memory, t: nat, level: nat, va: nat): Option<Leaf>
    requires 1 <= level <= 4
    decreases level
  {
    if t >= |mem| then None else
    var e := mem[t][Index(level, va)];
    if !Present(e) then None
    else if level == 1 then Some(PageLeaf(e, va))
    else if Huge(e) then if level == 2 then Some(HugeLeaf(e, va)) else None
    else Restrict(e, Walk(mem, FrameOf(e), level - 1, va))
  }

  // The nine bits each level looks at, and the twelve that stay.
  lemma AddressDigits(i4: nat, i3: nat, i2: nat, i1: nat, off: nat)
    requires i4 < 512 && i3 < 512 && i2 < 512 && i1 < 512 && off < 4096
    ensures var va := 0x80_0000_0000 * i4 + 0x4000_0000 * i3 + 0x20_0000 * i2 + 0x1000 * i1 + off;
            && Index(4, va) == i4 && Index(3, va) == i3 && Index(2, va) == i2 && Index(1, va) == i1
            && va % 4096 == off && va % HUGE_SIZE == 0x1000 * i1 + off
  {
    hide Index;
    var va := 0x80_0000_0000 * i4 + 0x4000_0000 * i3 + 0x20_0000 * i2 + 0x1000 * i1 + off;
    FirstDigit(i4, va - 0x80_0000_0000 * i4);
    SecondDigit(i4, i3, va - 0x80_0000_0000 * i4 - 0x4000_0000 * i3);
    ThirdDigit(0x200 * i4 + i3, i2, 0x1000 * i1 + off);
    FourthDigit(0x4_0000 * i4 + 0x200 * i3 + i2, i1, off);
  }

  lemma FirstDigit(q: nat, r: nat)
    requires q < 512 && r < 0x80_0000_0000
    ensures Index(4, 0x80_0000_0000 * q + r) == q
  {
  }

  lemma SecondDigit(q: nat, i: nat, r: nat)
    requires i < 512 && r < 0x4000_0000
    ensures Index(3, 0x4000_0000 * (512 * q + i) + r) == i
  {
    assert (0x4000_0000 * (512 * q + i) + r) / 0x4000_0000 == 512 * q + i;
  }

  lemma ThirdDigit(q: nat, i: nat, r: nat)
    requires i < 512 && r < 0x20_0000
    ensures var va := 0x20_0000 * (512 * q + i) + r; Index(2, va) == i && va % HUGE_SIZE == r
  {
    assert (0x20_0000 * (512 * q + i) + r) / 0x20_0000 == 512 * q + i;
  }

  lemma FourthDigit(q: nat, i: nat, r: nat)
    requires i < 512 && r < 0x1000
    ensures var va := 0x1000 * (512 * q + i) + r; Index(1, va) == i && va % 4096 == r
  {
    assert (0x1000 * (512 * q + i) + r) / 0x1000 == 512 * q + i;
  }

  // Bit 0 says present, bit 7 that the entry is a page itself, the upper bits where the next table is.
  predicate LinkTo(mem: Memory, t: nat, i: nat, next: nat)
    requires i < 512
  {
    t < |mem| && mem[t][i] % 2 == 1 && mem[t][i] / 128 % 2 == 0 && mem[t][i] / 4096 == next
  }

  predicate AllSet(mem: Memory, at: seq<(nat, nat)>, bit: nat)
    requires bit > 0 && forall k :: 0 <= k < |at| ==> at[k].0 < |mem| && at[k].1 < 512
  {
    forall k :: 0 <= k < |at| ==> mem[at[k].0][at[k].1] / bit % 2 == 1
  }

  /** The walk spelled out for four-level paging: three links by the address's four indices, then the
      page of the last entry; written and used from user mode if bits 1 and 2 say so all the way. */
  lemma FourLevels(mem: Memory, root: nat, pdp: nat, pd: nat, pt: nat, i4: nat, i3: nat, i2: nat, i1: nat, off: nat)
    requires i4 < 512 && i3 < 512 && i2 < 512 && i1 < 512 && off < 4096 && pt < |mem|
    requires LinkTo(mem, root, i4, pdp) && LinkTo(mem, pdp, i3, pd) && LinkTo(mem, pd, i2, pt)
    ensures var va := 0x80_0000_0000 * i4 + 0x4000_0000 * i3 + 0x20_0000 * i2 + 0x1000 * i1 + off;
            var e, on := mem[pt][i1], [(root, i4), (pdp, i3), (pd, i2), (pt, i1)];
            Walk(mem, root, 4, va) ==
            if e % 2 == 0 then None else Some(Leaf(e / 4096 * 4096 + off, AllSet(mem, on, 2), AllSet(mem, on, 4)))
  {
    hide Index;
    var va := 0x80_0000_0000 * i4 + 0x4000_0000 * i3 + 0x20_0000 * i2 + 0x1000 * i1 + off;
    var e, on := mem[pt][i1], [(root, i4), (pdp, i3), (pd, i2), (pt, i1)];
    AddressDigits(i4, i3, i2, i1, off);
    FourSet(mem, on, 2);
    FourSet(mem, on, 4);
    assert Walk(mem, pt, 1, va) == if e % 2 == 0 then None else Some(PageLeaf(e, va));
    assert Walk(mem, pd, 2, va) == Restrict(mem[pd][i2], Walk(mem, pt, 1, va));
    assert Walk(mem, pdp, 3, va) == Restrict(mem[pdp][i3], Walk(mem, pd, 2, va));
    assert Walk(mem, root, 4, va) == Restrict(mem[root][i4], Walk(mem, pdp, 3, va));
  }

  lemma FourSet(mem: Memory, on: seq<(nat, nat)>, bit: nat)
    requires |on| == 4 && bit > 0 && forall k :: 0 <= k < |on| ==> on[k].0 < |mem| && on[k].1 < 512
    ensures AllSet(mem, on, bit) <==>
            && mem[on[0].0][on[0].1] / bit % 2 == 1 && mem[on[1].0][on[1].1] / bit % 2 == 1
            && mem[on[2].0][on[2].1] / bit % 2 == 1 && mem[on[3].0][on[3].1] / bit % 2 == 1
  {
  }

  /** And for a 2 MiB page, an entry of the third table with bit 7. */
  lemma ThreeLevels(mem: Memory, root: nat, pdp: nat, pd: nat, i4: nat, i3: nat, i2: nat, i1: nat, off: nat)
    requires i4 < 512 && i3 < 512 && i2 < 512 && i1 < 512 && off < 4096 && pd < |mem|
    requires LinkTo(mem, root, i4, pdp) && LinkTo(mem, pdp, i3, pd)
    requires mem[pd][i2] % 2 == 1 && mem[pd][i2] / 128 % 2 == 1
    ensures var va := 0x80_0000_0000 * i4 + 0x4000_0000 * i3 + 0x20_0000 * i2 + 0x1000 * i1 + off;
            var e, on := mem[pd][i2], [(root, i4), (pdp, i3), (pd, i2)];
            Walk(mem, root, 4, va) ==
            Some(Leaf(e / 0x20_0000 * 0x20_0000 + 0x1000 * i1 + off, AllSet(mem, on, 2), AllSet(mem, on, 4)))
  {
    hide Index;
    var va := 0x80_0000_0000 * i4 + 0x4000_0000 * i3 + 0x20_0000 * i2 + 0x1000 * i1 + off;
    var e, on := mem[pd][i2], [(root, i4), (pdp, i3), (pd, i2)];
    AddressDigits(i4, i3, i2, i1, off);
    ThreeSet(mem, on, 2);
    ThreeSet(mem, on, 4);
    assert Walk(mem, pd, 2, va) == Some(HugeLeaf(e, va));
    assert Walk(mem, pdp, 3, va) == Restrict(mem[pdp][i3], Walk(mem, pd, 2, va));
    assert Walk(mem, root, 4, va) == Restrict(mem[root][i4], Walk(mem, pdp, 3, va));
  }

  lemma ThreeSet(mem: Memory, on: seq<(nat, nat)>, bit: nat)
    requires |on| == 3 && bit > 0 && forall k :: 0 <= k < |on| ==> on[k].0 < |mem| && on[k].1 < 512
    ensures AllSet(mem, on, bit) <==>
            && mem[on[0].0][on[0].1] / bit % 2 == 1 && mem[on[1].0][on[1].1] / bit % 2 == 1
            && mem[on[2].0][on[2].1] / bit % 2 == 1
  {
  }

  // The indices that select a table on the way to va: position [] is the root.
  type Position = seq<nat>

  function Path(va: nat, n: nat): (p: Position)
    requires n <= 4
    ensures |p| == n
    ensures forall k :: 0 <= k < n ==> p[k] == Index(4 - k, va)
    decreases n
  {
    if n == 0 then [] else Path(va, n - 1) + [Index(5 - n, va)]
  }

  // own labels every table frame of one tree with its position, so no frame serves twice.
  type Labels = map<nat, Position>

  ghost predicate LinkOk(mem: Memory, own: Labels, t: nat, i: nat)
    requires t in own && t < |mem| && i < ENTRIES
  {
    var e := mem[t][i];
    Present(e) ==>
      if Huge(e) then |own[t]| == 2
      else Writable(e) && User(e) && FrameOf(e) in own && own[FrameOf(e)] == own[t] + [i]
  }

  // The table an entry links to.
  function NextTable(mem: Memory, t: nat, i: nat): Option<nat> {
    if t < |mem| && i < ENTRIES && Present(mem[t][i]) && !Huge(mem[t][i]) then Some(FrameOf(mem[t][i])) else None
  }

  // The table at a position below the root.
  function At(mem: Memory, root: nat, p: Position): Option<nat>
    decreases |p|
  {
    if p == [] then Some(root)
    else
      match At(mem, root, p[..|p| - 1])
      case None => None
      case Some(t) => NextTable(mem, t, p[|p| - 1])
  }

  // No label is stray: each is on the table at its position.
  ghost predicate Rooted(mem: Memory, root: nat, own: Labels) {
    forall t :: t in own ==> At(mem, root, own[t]) == Some(t)
  }

  ghost predicate Tree(mem: Memory, root: nat, own: Labels) {
    && root in own && own[root] == []
    && 0 !in own
    && (forall t :: t in own ==> t < |mem| && |own[t]| <= 3)
    && (forall t, i :: t in own && |own[t]| < 3 && 0 <= i < ENTRIES ==> LinkOk(mem, own, t, i))
    && Rooted(mem, root, own)
  }

  ghost predicate LinksKept(mem: Memory, mem': Memory, own: Labels)
    requires |mem'| == |mem|
  {
    forall u, k: nat :: u in own && |own[u]| < 3 && NextTable(mem, u, k).Some? ==> mem'[u][k] == mem[u][k]
  }

  // Tables stay where they are while the links on the way to them do.
  lemma {:induction false} AtKept(mem: Memory, mem': Memory, root: nat, own: Labels, p: Position)
    requires Tree(mem, root, own) && |mem'| == |mem| && |p| <= 3
    requires LinksKept(mem, mem', own)
    ensures At(mem, root, p).Some? ==>
              && At(mem', root, p) == At(mem, root, p)
              && At(mem, root, p).value in own && own[At(mem, root, p).value] == p
    decreases |p|
  {
    hide Rooted;
    if p != [] {
      var q, k := p[..|p| - 1], p[|p| - 1];
      AtKept(mem, mem', root, own, q);
      if At(mem, root, p).Some? {
        var u := At(mem, root, q).value;
        assert LinkOk(mem, own, u, k);
        assert p == q + [k];
      }
    }
  }

  lemma RootedKept(mem: Memory, mem': Memory, root: nat, own: Labels)
    requires Tree(mem, root, own) && |mem'| == |mem|
    requires LinksKept(mem, mem', own)
    ensures Rooted(mem', root, own)
  {
    forall t | t in own
      ensures At(mem', root, own[t]) == Some(t)
    {
      AtKept(mem, mem', root, own, own[t]);
    }
  }

  /** The labels are exactly the positions that hold a table. */
  lemma LabelsExact(mem: Memory, root: nat, own: Labels, p: Position)
    requires Tree(mem, root, own) && |p| <= 3
    ensures p in own.Values <==> At(mem, root, p).Some?
    ensures At(mem, root, p).Some? ==> At(mem, root, p).value in own && own[At(mem, root, p).value] == p
  {
    AtKept(mem, mem, root, own, p);
  }

  // The table of the given level that the walk of va passes through.
  function Descend(mem: Memory, t: nat, level: nat, va: nat, target: nat): Option<nat>
    requires 1 <= target <= level <= 4
    decreases level
  {
    if level == target then Some(t)
    else if t >= |mem| then None
    else
      var e := mem[t][Index(level, va)];
      if !Present(e) || Huge(e) then None else Descend(mem, FrameOf(e), level - 1, va, target)
  }

  ghost predicate SameOutside(mem: Memory, mem': Memory, own: Labels, t: nat, i: nat) {
    && |mem'| == |mem|
    && (forall u, k :: u in own && u < |mem| && 0 <= k < ENTRIES && (u != t || k != i) ==>
                         mem'[u][k] == mem[u][k])
  }

  // A walk that does not read the changed entry is unchanged.
  lemma {:induction false} WalkElsewhere(
    mem: Memory, mem': Memory, root: nat, own: Labels, t: nat, i: nat, u: nat, level: nat, va: nat)
    requires Tree(mem, root, own) && SameOutside(mem, mem', own, t, i)
    requires t in own && i < ENTRIES && 1 <= level <= 4
    requires u in own && own[u] == Path(va, 4 - level)
    requires |own[t]| <= 3 && Path(va, |own[t]| + 1) != own[t] + [i]
    ensures Walk(mem', u, level, va) == Walk(mem, u, level, va)
    decreases level
  {
    hide Rooted;
    var k := Index(level, va);
    assert Path(va, 5 - level) == own[u] + [k];
    var e := mem[u][k];
    if level > 1 {
      assert LinkOk(mem, own, u, k);
      if Present(e) && !Huge(e) {
        assert own[FrameOf(e)] == Path(va, 5 - level);
        WalkElsewhere(mem, mem', root, own, t, i, FrameOf(e), level - 1, va);
      }
    }
  }

  ghost predicate SameTranslation(mem: Memory, mem': Memory, root: nat) {
    forall va: nat :: va < ADDRESS_SPACE ==> Walk(mem', root, 4, va) == Walk(mem, root, 4, va)
  }

  // On a tree every link grants both rights, so a walk has the rights of its leaf.
  lemma LinksGrantAll(mem: Memory, root: nat, own: Labels, t: nat, i: nat, l: Option<Leaf>)
    requires Tree(mem, root, own) && t in own && |own[t]| < 3 && i < ENTRIES
    requires Present(mem[t][i]) && !Huge(mem[t][i])
    ensures Restrict(mem[t][i], l) == l
  {
    hide Rooted;
    assert LinkOk(mem, own, t, i);
  }

  const LINK_FLAGS: nat := 7  // present, writable, user

  // Quotient and remainder of a number given by its digits, one divisor at a time.
  lemma Digits2(q: int, r: int)
    requires 0 <= r < 2
    ensures (2 * q + r) / 2 == q && (2 * q + r) % 2 == r
  {
  }

  lemma DigitsOf128(q: int, r: int)
    requires 0 <= r < 128
    ensures (128 * q + r) / 128 == q
  {
  }

  lemma Digits4096(q: int, r: int)
    requires 0 <= r < 4096
    ensures (4096 * q + r) / 4096 == q && (4096 * q + r) % 4096 == r
  {
  }

  lemma DigitsHuge(q: int, r: int)
    requires 0 <= r < HUGE_SIZE
    ensures (HUGE_SIZE * q + r) / HUGE_SIZE == q && (HUGE_SIZE * q + r) % HUGE_SIZE == r
  {
  }

  // The three low flags depend on the last octal digit only.
  lemma FlagsOf(x: u64, q: nat, f: nat)
    requires f < 8 && x == 8 * q + f
    ensures Present(x) == (f % 2 == 1) && Writable(x) == (f / 2 % 2 == 1) && User(x) == (f / 4 % 2 == 1)
  {
    Quotient2(x, q, f);
    Quotient4(x, q, f);
    Digits2(4 * q + f / 2, f % 2);
    Digits2(2 * q + f / 4, f / 2 % 2);
    Digits2(q, f / 4);
    assert f / 2 == 2 * (f / 4) + f / 2 % 2;
  }

  lemma Quotient2(x: int, q: int, f: int)
    requires x == 8 * q + f && 0 <= f < 8
    ensures x / 2 == 4 * q + f / 2
  {
  }

  lemma Quotient4(x: int, q: int, f: int)
    requires x == 8 * q + f && 0 <= f < 8
    ensures x / 4 == 2 * q + f / 4
  {
  }

  lemma LinkEntry(g: nat, e: u64)
    requires e == g * 4096 + LINK_FLAGS
    ensures Present(e) && Writable(e) && User(e) && !Huge(e) && FrameOf(e) == g
  {
    hide Present, Writable, User;
    FlagsOf(e, 512 * g, 7);
    Digits4096(g, 7);
    DigitsOf128(32 * g, 7);
    Digits2(16 * g, 0);
  }

  // Frame g, outside the tree, is linked from the entry (t, i), which held no table.
  ghost predicate Linked(mem: Memory, mem': Memory, own: Labels, t: nat, i: nat, g: nat) {
    && t in own && |own[t]| < 3 && i < ENTRIES && t < |mem|
    && 0 < g < |mem| && g !in own
    && SameOutside(mem, mem', own, t, i)
    && mem'[t][i] == g * 4096 + LINK_FLAGS
  }

  lemma AtRoot(mem: Memory, root: nat)
    ensures At(mem, root, []) == Some(root)
  {
  }

  lemma AtNext(mem: Memory, root: nat, p: Position, i: nat)
    ensures At(mem, root, p + [i]) ==
            match At(mem, root, p)
            case None => None
            case Some(t) => NextTable(mem, t, i)
  {
    assert (p + [i])[..|p|] == p;
  }

  lemma LinkKeepsTree(mem: Memory, mem': Memory, root: nat, own: Labels, t: nat, i: nat, g: nat)
    requires Tree(mem, root, own) && Linked(mem, mem', own, t, i, g)
    requires !Present(mem[t][i]) || Huge(mem[t][i])
    requires |own[t]| < 2 ==> forall k :: 0 <= k < ENTRIES ==> mem'[g][k] == 0
    ensures Tree(mem', root, own[g := own[t] + [i]])
  {
    hide At;
    var own' := own[g := own[t] + [i]];
    LinkEntry(g, mem'[t][i]);
    RootedKept(mem, mem', root, own);
    AtNext(mem', root, own[t], i);
    forall u, k | u in own' && |own'[u]| < 3 && 0 <= k < ENTRIES
      ensures LinkOk(mem', own', u, k)
    {
      if u != g && (u != t || k != i) {
        assert LinkOk(mem, own, u, k);
      }
    }
  }

  // Linking an empty table changes no translation.
  lemma {:induction false} WalkAcrossEmpty(
    mem: Memory, mem': Memory, root: nat, own: Labels, t: nat, i: nat, g: nat,
    u: nat, level: nat, va: nat)
    requires Tree(mem, root, own) && Linked(mem, mem', own, t, i, g)
    requires !Present(mem[t][i]) && forall k :: 0 <= k < ENTRIES ==> mem'[g][k] == 0
    requires 1 <= level <= 4 && u in own && own[u] == Path(va, 4 - level)
    ensures Walk(mem', u, level, va) == Walk(mem, u, level, va)
    decreases level
  {
    hide Rooted;
    var k := Index(level, va);
    var e := mem[u][k];
    if u == t && k == i {
      LinkEntry(g, mem'[t][i]);
      assert !Present(mem'[g][Index(level - 1, va)]);
    } else if level > 1 {
      assert LinkOk(mem, own, u, k);
      if Present(e) && !Huge(e) {
        WalkAcrossEmpty(mem, mem', root, own, t, i, g, FrameOf(e), level - 1, va);
      }
    }
  }

  // The 512 entries split_huge_pde writes in place of the 2 MiB entry e.
  function SplitEntry(e: u64, k: nat): nat {
    e - e % HUGE_SIZE + k * 4096 + e % 8
  }

  lemma SplitLeaf(e: u64, s: u64, va: nat)
    requires Present(e) && s == SplitEntry(e, Index(1, va))
    ensures Present(s) && PageLeaf(s, va) == HugeLeaf(e, va)
  {
    var q, f, k := e / HUGE_SIZE, e % 8, Index(1, va);
    SplitDigits(e, s, k);
    FlagsOf(s, 512 * (q * 512 + k), f);
    FlagsOf(e, e / 8, f);
    PageInHuge(va);
  }

  lemma SplitDigits(e: u64, s: u64, k: nat)
    requires s == SplitEntry(e, k) && k < ENTRIES
    ensures s == 4096 * (e / HUGE_SIZE * 512 + k) + e % 8
    ensures s - s % 4096 == e - e % HUGE_SIZE + k * 4096
  {
    var q := e / HUGE_SIZE;
    assert e - e % HUGE_SIZE == q * HUGE_SIZE;
    Digits4096(q * 512 + k, e % 8);
  }

  lemma PageInHuge(va: nat)
    ensures va % HUGE_SIZE == Index(1, va) * 4096 + va % 4096
  {
    var p, r := va / 4096, va % 4096;
    var a, b := p / 512, p % 512;
    assert va == 4096 * p + r && p == 512 * a + b;
    DigitsHuge(a, 4096 * b + r);
  }

  // Splitting a 2 MiB entry changes no translation, its own 512 pages included.
  lemma {:induction false} WalkAcrossSplit(
    mem: Memory, mem': Memory, root: nat, own: Labels, t: nat, i: nat, g: nat,
    u: nat, level: nat, va: nat)
    requires Tree(mem, root, own) && Linked(mem, mem', own, t, i, g)
    requires Present(mem[t][i]) && Huge(mem[t][i])
    requires forall k :: 0 <= k < ENTRIES ==> mem'[g][k] == SplitEntry(mem[t][i], k)
    requires 1 <= level <= 4 && u in own && own[u] == Path(va, 4 - level)
    ensures Walk(mem', u, level, va) == Walk(mem, u, level, va)
    decreases level
  {
    hide Rooted;
    var k := Index(level, va);
    var e := mem[u][k];
    if u == t && k == i {
      assert LinkOk(mem, own, t, i);
      assert level == 2;
      LinkEntry(g, mem'[t][i]);
      SplitLeaf(e, mem'[g][Index(1, va)], va);
    } else if level > 1 {
      assert LinkOk(mem, own, u, k);
      if Present(e) && !Huge(e) {
        WalkAcrossSplit(mem, mem', root, own, t, i, g, FrameOf(e), level - 1, va);
      }
    }
  }

  // Writing an entry of a last-level table leaves the tree as it is.
  lemma LeafWriteKeepsTree(mem: Memory, mem': Memory, root: nat, own: Labels, t: nat, i: nat)
    requires Tree(mem, root, own) && SameOutside(mem, mem', own, t, i)
    requires t in own && |own[t]| == 3
    ensures Tree(mem', root, own)
  {
    hide At;
    RootedKept(mem, mem', root, own);
    forall u, k | u in own && |own[u]| < 3 && 0 <= k < ENTRIES
      ensures LinkOk(mem', own, u, k)
    {
      assert LinkOk(mem, own, u, k);
    }
  }

  // ... and shows at the addresses whose walk ends there.
  lemma {:induction false} WalkToWrittenLeaf(
    mem: Memory, mem': Memory, root: nat, own: Labels, t: nat, i: nat,
    u: nat, level: nat, va: nat)
    requires Tree(mem, root, own) && SameOutside(mem, mem', own, t, i)
    requires t in own && |own[t]| == 3 && i == Index(1, va)
    requires 1 <= level <= 4 && u in own && own[u] == Path(va, 4 - level)
    requires Descend(mem, u, level, va, 1) == Some(t)
    ensures Walk(mem', u, level, va) ==
            if Present(mem'[t][i]) then Some(PageLeaf(mem'[t][i], va)) else None
    decreases level
  {
    hide Rooted;
    if level > 1 {
      var k := Index(level, va);
      assert LinkOk(mem, own, u, k);
      assert mem'[u][k] == mem[u][k];
      LinksGrantAll(mem, root, own, u, k, Walk(mem', FrameOf(mem[u][k]), level - 1, va));
      WalkToWrittenLeaf(mem, mem', root, own, t, i, FrameOf(mem[u][k]), level - 1, va);
    }
  }

  // The page number read off its four indices.
  lemma PathDigits(va: nat)
    requires va < ADDRESS_SPACE
    ensures va / 4096 ==
            ((Path(va, 4)[0] * 512 + Path(va, 4)[1]) * 512 + Path(va, 4)[2]) * 512 + Path(va, 4)[3]
  {
    var p := va / 4096;
    assert va / 0x20_0000 == p / 512;
    assert va / 0x4000_0000 == p / 512 / 512;
    assert va / 0x80_0000_0000 == p / 512 / 512 / 512;
    assert va / 0x80_0000_0000 < 512;
  }

  lemma IndexOfPage(va: nat, level: nat)
    requires 1 <= level <= 4
    ensures Index(level, va) == Index(level, va / 4096 * 4096)
  {
    var p := va / 4096;
    assert va / 0x20_0000 == p / 512 == p * 4096 / 0x20_0000;
    assert va / 0x4000_0000 == p / 0x4_0000 == p * 4096 / 0x4000_0000;
    assert va / 0x80_0000_0000 == p / 0x800_0000 == p * 4096 / 0x80_0000_0000;
  }

  // Two addresses of the space share all four indices exactly when they share their page.
  lemma SamePath(va: nat, vb: nat)
    requires va < ADDRESS_SPACE && vb < ADDRESS_SPACE
    ensures Path(va, 4) == Path(vb, 4) <==> va / 4096 == vb / 4096
  {
    if va / 4096 == vb / 4096 {
      forall k | 0 <= k < 4
        ensures Path(va, 4)[k] == Path(vb, 4)[k]
      {
        IndexOfPage(va, 4 - k);
        IndexOfPage(vb, 4 - k);
      }
      assert Path(va, 4) == Path(vb, 4);
    }
    if Path(va, 4) == Path(vb, 4) {
      PathDigits(va);
      PathDigits(vb);
    }
  }

  // A walk inside a tree whose tables did not change.
  lemma {:induction false} WalkUntouched(
    mem: Memory, mem': Memory, root: nat, own: Labels, t: nat, level: nat, va: nat)
    requires Tree(mem, root, own) && |mem'| == |mem|
    requires forall u :: u in own ==> mem'[u] == mem[u]
    requires 1 <= level <= 4 && t in own && |own[t]| == 4 - level
    ensures Walk(mem', t, level, va) == Walk(mem, t, level, va)
    decreases level
  {
    hide Rooted;
    var i := Index(level, va);
    if level > 1 {
      assert LinkOk(mem, own, t, i);
      if Present(mem[t][i]) && !Huge(mem[t][i]) {
        WalkUntouched(mem, mem', root, own, FrameOf(mem[t][i]), level - 1, va);
      }
    }
  }

  lemma TreeUntouched(mem: Memory, mem': Memory, root: nat, own: Labels)
    requires Tree(mem, root, own) && |mem'| == |mem|
    requires forall u :: u in own ==> mem'[u] == mem[u]
    ensures Tree(mem', root, own)
  {
    hide At;
    RootedKept(mem, mem', root, own);
    forall t, i | t in own && |own[t]| < 3 && 0 <= i < ENTRIES
      ensures LinkOk(mem', own, t, i)
    {
      assert LinkOk(mem, own, t, i);
    }
  }
}
