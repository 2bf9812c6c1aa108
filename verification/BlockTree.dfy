/** The block trees of all inodes as values, and the ownership invariant: every block in use
    hangs at exactly one place of exactly one inode's tree. */
module BlockTree {
  import opened DiskFormat

  // A place in one inode's tree: a data block by file block number, the single-indirect block,
  // the double-indirect block, or one of the 128 tables below it.
  datatype Slot = Data(bn: nat) | Ind | Dbl | Tab(j: nat)

  predicate ValidSlot(s: Slot) {
    match s
    case Data(bn) => bn < MAXFILE
    case Tab(j) => j < NINDIRECT
    case _ => true
  }

  datatype Place = Place(inum: nat, slot: Slot)

  type Tables = seq<Words>

  // Entry i of block t; block 0 stands for no block.
  function Entry(words: Tables, t: nat, i: nat): nat
    requires i < NINDIRECT
  {
    if 0 < t < |words| then words[t][i] else 0
  }

  // The block at a place, or 0.
  function Ptr(a: Addrs, words: Tables, s: Slot): nat
    requires ValidSlot(s)
  {
    match s
    case Ind => a[NDIRECT]
    case Dbl => a[NDIRECT + 1]
    case Tab(j) => Entry(words, a[NDIRECT + 1], j)
    case Data(bn) =>
      if bn < NDIRECT then a[bn]
      else if bn < NDIRECT + NINDIRECT then Entry(words, a[NDIRECT], bn - NDIRECT)
      else
        var k := bn - NDIRECT - NINDIRECT;
        Entry(words, Entry(words, a[NDIRECT + 1], k / NINDIRECT), k % NINDIRECT)
  }

  type Trees = seq<Addrs>       // by inode number
  type Owners = map<nat, Place> // by block number

  /** The invariant. spare holds blocks already marked in the bitmap but not yet linked. */
  ghost predicate Owned(trees: Trees, words: Tables, bits: seq<bool>, meta: int, owner: Owners, spare: set<nat>) {
    && |words| == |bits|
    && (forall i: nat, s :: i < |trees| && ValidSlot(s) && Ptr(trees[i], words, s) != 0 ==>
          Ptr(trees[i], words, s) in owner && owner[Ptr(trees[i], words, s)] == Place(i, s))
    && (forall b :: b in owner ==>
          && meta <= b < |bits| && b !in spare && b != 0
          && owner[b].inum < |trees| && ValidSlot(owner[b].slot)
          && Ptr(trees[owner[b].inum], words, owner[b].slot) == b)
    && (forall b: nat :: b < |bits| ==> (bits[b] <==> b < meta || b in owner || b in spare))
  }

  // No two places hold the same block, and no place holds a metadata block.
  lemma OneOwner(trees: Trees, words: Tables, bits: seq<bool>, meta: int, owner: Owners, spare: set<nat>,
                 i: nat, s: Slot, j: nat, t: Slot)
    requires Owned(trees, words, bits, meta, owner, spare)
    requires i < |trees| && j < |trees| && ValidSlot(s) && ValidSlot(t)
    requires Ptr(trees[i], words, s) == Ptr(trees[j], words, t) != 0
    ensures i == j && s == t && meta <= Ptr(trees[i], words, s) < |bits| && bits[Ptr(trees[i], words, s)]
  {
  }

  /** Above the metadata, the set bits are exactly the blocks some inode's tree reaches. */
  lemma BitmapExact(trees: Trees, words: Tables, bits: seq<bool>, meta: int, owner: Owners, b: nat)
    requires Owned(trees, words, bits, meta, owner, {}) && 0 < meta <= b < |bits|
    ensures bits[b] <==> exists i: nat, s :: i < |trees| && ValidSlot(s) && Ptr(trees[i], words, s) == b
  {
    if bits[b] {
      assert Ptr(trees[owner[b].inum], words, owner[b].slot) == b;
    }
  }

  // Marking a free block and clearing it, as balloc does, moves no pointer.
  lemma AfterBalloc(trees: Trees, words: Tables, bits: seq<bool>, meta: int, owner: Owners, x: nat)
    requires Owned(trees, words, bits, meta, owner, {}) && x < |bits| && !bits[x]
    ensures Owned(trees, words[x := NoWords()], bits[x := true], meta, owner, {x})
    ensures forall i: nat, s :: i < |trees| && ValidSlot(s) ==>
              Ptr(trees[i], words[x := NoWords()], s) == Ptr(trees[i], words, s)
  {
    var words' := words[x := NoWords()];
    forall i: nat, s | i < |trees| && ValidSlot(s)
      ensures Ptr(trees[i], words', s) == Ptr(trees[i], words, s)
    {
      SamePtr(trees, words, bits, meta, owner, {}, words', x, i, s);
    }
  }

  // Only what hangs below block x can depend on the contents of block x.
  lemma {:induction false} SamePtr(
    trees: Trees, words: Tables, bits: seq<bool>, meta: int, owner: Owners, spare: set<nat>,
    words': Tables, x: nat, i: nat, s: Slot)
    requires Owned(trees, words, bits, meta, owner, spare)
    requires |words'| == |words| && (forall b :: 0 <= b < |words| && b != x ==> words'[b] == words[b])
    requires x in owner ==> owner[x].slot.Data?
    requires i < |trees| && ValidSlot(s)
    ensures Ptr(trees[i], words', s) == Ptr(trees[i], words, s)
    decreases Depth(s)
  {
    hide Ptr;
    var a := trees[i];
    if IsBelowTable(s) {
      PtrBelow(a, words, s);
      PtrBelow(a, words', s);
      SamePtr(trees, words, bits, meta, owner, spare, words', x, i, Parent(s));
    } else {
      RootPtr(a, words, words', s);
    }
  }

  function Depth(s: Slot): nat {
    match s
    case Data(_) => 2
    case Tab(_) => 1
    case _ => 0
  }

  // A pointer change at exactly one empty place, to a spare block.
  ghost predicate Grafted(trees: Trees, words: Tables, trees': Trees, words': Tables, i: nat, s: Slot, x: nat)
    requires i < |trees| && ValidSlot(s)
  {
    && |trees'| == |trees| && |words'| == |words|
    && Ptr(trees[i], words, s) == 0
    && (forall j: nat, t :: j < |trees| && ValidSlot(t) ==>
          Ptr(trees'[j], words', t) == if j == i && t == s then x else Ptr(trees[j], words, t))
  }

  lemma GraftOwned(trees: Trees, words: Tables, trees': Trees, words': Tables, bits: seq<bool>, meta: int,
                   owner: Owners, i: nat, s: Slot, x: nat)
    requires Owned(trees, words, bits, meta, owner, {x}) && meta <= x < |bits| && x != 0
    requires i < |trees| && ValidSlot(s) && Grafted(trees, words, trees', words', i, s, x)
    ensures Owned(trees', words', bits, meta, owner[x := Place(i, s)], {})
  {
    hide Ptr;
  }

  function SlotOfAddr(k: nat): Slot
    requires k < NDIRECT + 2
  {
    if k < NDIRECT then Data(k) else if k == NDIRECT then Ind else Dbl
  }

  // Address k of the inode set to x: one place filled.
  lemma GraftAddr(trees: Trees, words: Tables, i: nat, k: nat, x: u32)
    requires i < |trees| && k < NDIRECT + 2 && trees[i][k] == 0
    requires x < |words| && words[x] == NoWords()
    ensures ValidSlot(SlotOfAddr(k))
    ensures Grafted(trees, words, trees[i := trees[i][k := x]], words, i, SlotOfAddr(k), x)
  {
  }

  // The place below which entry k of a table hangs.
  function Child(s: Slot, k: nat): (c: Slot)
    requires ValidSlot(s) && !s.Data? && k < NINDIRECT
    ensures ValidSlot(c)
  {
    match s
    case Ind => Data(NDIRECT + k)
    case Dbl => Tab(k)
    case Tab(j) =>
      assert j * NINDIRECT + k < NINDIRECT * NINDIRECT;
      Data(NDIRECT + NINDIRECT + j * NINDIRECT + k)
  }

  // Entry k of table t set to x: one place of inode i filled.
  lemma GraftEntry(trees: Trees, words: Tables, bits: seq<bool>, meta: int, owner: Owners, spare: set<nat>,
                   i: nat, s: Slot, t: nat, k: nat, x: u32)
    requires Owned(trees, words, bits, meta, owner, spare)
    requires i < |trees| && ValidSlot(s) && !s.Data? && k < NINDIRECT
    requires Ptr(trees[i], words, s) == t != 0 && words[t][k] == 0
    requires x < |words| && words[x] == NoWords() && x in spare
    ensures 0 < t < |words|
    ensures Grafted(trees, words, trees, words[t := words[t][k := x]], i, Child(s, k), x)
  {
    var words' := words[t := words[t][k := x]];
    forall j: nat, p | j < |trees| && ValidSlot(p)
      ensures Ptr(trees[j], words', p) ==
              if j == i && p == Child(s, k) then x else Ptr(trees[j], words, p)
    {
      GraftEntryAt(trees, words, bits, meta, owner, spare, i, s, t, k, x, j, p);
    }
    ChildPtr(trees[i], words, s, k);
  }

  // What a table's entries are called from above.
  lemma ChildPtr(a: Addrs, words: Tables, s: Slot, k: nat)
    requires ValidSlot(s) && !s.Data? && k < NINDIRECT
    ensures Ptr(a, words, Child(s, k)) == Entry(words, Ptr(a, words, s), k)
  {
    match s
    case Tab(j) =>
      var n := j * NINDIRECT + k;
      assert n / NINDIRECT == j && n % NINDIRECT == k;
    case _ =>
  }

  // Every place but the roots hangs below a table.
  function Parent(s: Slot): (p: Slot)
    requires ValidSlot(s) && IsBelowTable(s)
    ensures ValidSlot(p) && !p.Data?
  {
    match s
    case Tab(_) => Dbl
    case Data(bn) =>
      if bn < NDIRECT + NINDIRECT then Ind
      else Tab((bn - NDIRECT - NINDIRECT) / NINDIRECT)
  }

  predicate IsBelowTable(s: Slot) {
    s.Tab? || (s.Data? && s.bn >= NDIRECT)
  }

  function Index(s: Slot): (k: nat)
    requires ValidSlot(s) && IsBelowTable(s)
    ensures k < NINDIRECT
  {
    match s
    case Tab(j) => j
    case Data(bn) =>
      if bn < NDIRECT + NINDIRECT then bn - NDIRECT
      else (bn - NDIRECT - NINDIRECT) % NINDIRECT
  }

  lemma ChildOfParent(s: Slot)
    requires ValidSlot(s) && IsBelowTable(s)
    ensures Child(Parent(s), Index(s)) == s
  {
  }

  lemma PtrBelow(a: Addrs, words: Tables, s: Slot)
    requires ValidSlot(s) && IsBelowTable(s)
    ensures Ptr(a, words, s) == Entry(words, Ptr(a, words, Parent(s)), Index(s))
  {
  }

  lemma ParentOfChild(s: Slot, k: nat)
    requires ValidSlot(s) && !s.Data? && k < NINDIRECT
    ensures var c := Child(s, k); IsBelowTable(c) && Parent(c) == s && Index(c) == k
  {
    match s
    case Tab(j) =>
      var n := j * NINDIRECT + k;
      assert n / NINDIRECT == j && n % NINDIRECT == k;
    case _ =>
  }

  lemma {:induction false} GraftEntryAt(
    trees: Trees, words: Tables, bits: seq<bool>, meta: int, owner: Owners, spare: set<nat>,
    i: nat, s: Slot, t: nat, k: nat, x: u32, j: nat, p: Slot)
    requires Owned(trees, words, bits, meta, owner, spare)
    requires i < |trees| && ValidSlot(s) && !s.Data? && k < NINDIRECT
    requires Ptr(trees[i], words, s) == t != 0 && 0 < t < |words| && words[t][k] == 0
    requires x < |words| && words[x] == NoWords() && x in spare
    requires j < |trees| && ValidSlot(p)
    ensures Ptr(trees[j], words[t := words[t][k := x]], p) ==
            if j == i && p == Child(s, k) then x else Ptr(trees[j], words, p)
    decreases Depth(p)
  {
    hide Ptr;
    var words' := words[t := words[t][k := x]];
    var a := trees[j];
    assert x !in owner && t in owner;
    ParentOfChild(s, k);
    if IsBelowTable(p) {
      var q, n := Parent(p), Index(p);
      PtrBelow(a, words, p);
      PtrBelow(a, words', p);
      ChildOfParent(p);
      GraftEntryAt(trees, words, bits, meta, owner, spare, i, s, t, k, x, j, q);
      if j == i && q == Child(s, k) {
        PtrBelow(a, words, q);
      }
    } else {
      RootPtr(a, words, words', p);
    }
  }

  lemma RootPtr(a: Addrs, words: Tables, words': Tables, p: Slot)
    requires ValidSlot(p) && !IsBelowTable(p)
    ensures Ptr(a, words, p) == Ptr(a, words', p)
  {
  }

  // The order in which itrunc frees the places of a tree: data before the table it hangs from.
  const RANK_IND: nat := NDIRECT + NINDIRECT
  const RANK_DBL: nat := RANK_IND + 1 + (NINDIRECT + 1) * NINDIRECT

  function Rank(s: Slot): (r: nat)
    requires ValidSlot(s)
    ensures r <= RANK_DBL
  {
    match s
    case Ind => RANK_IND
    case Dbl => RANK_DBL
    case Tab(j) => RANK_IND + 1 + (NINDIRECT + 1) * j + NINDIRECT
    case Data(bn) =>
      if bn < NDIRECT + NINDIRECT then bn
      else
        var k := bn - NDIRECT - NINDIRECT;
        RANK_IND + 1 + (NINDIRECT + 1) * (k / NINDIRECT) + k % NINDIRECT
  }

  lemma RankOfEntry(j: nat, k: nat)
    requires j < NINDIRECT && k < NINDIRECT
    ensures ValidSlot(Child(Tab(j), k)) && Rank(Child(Tab(j), k)) == RANK_IND + 1 + (NINDIRECT + 1) * j + k
  {
    var n := j * NINDIRECT + k;
    assert n / NINDIRECT == j && n % NINDIRECT == k;
  }

  // The entries of a table of data blocks are freed just before the table.
  lemma RankOfChild(s: Slot, k: nat)
    requires ValidSlot(s) && (s.Ind? || s.Tab?) && k < NINDIRECT
    ensures Rank(s) >= NINDIRECT && Rank(Child(s, k)) == Rank(s) - NINDIRECT + k
  {
    if s.Tab? {
      RankOfEntry(s.j, k);
    }
  }

  lemma RankInjective(s: Slot, t: Slot)
    requires ValidSlot(s) && ValidSlot(t) && Rank(s) == Rank(t)
    ensures s == t
  {
    if s.Data? && t.Data? && s.bn >= RANK_IND && t.bn >= RANK_IND {
      var m, n := s.bn - RANK_IND, t.bn - RANK_IND;
      Radix(m / NINDIRECT, m % NINDIRECT, n / NINDIRECT, n % NINDIRECT);
    } else if s.Data? && t.Tab? && s.bn >= RANK_IND {
      var m := s.bn - RANK_IND;
      Radix(m / NINDIRECT, m % NINDIRECT, t.j, NINDIRECT);
    } else if t.Data? && s.Tab? && t.bn >= RANK_IND {
      var n := t.bn - RANK_IND;
      Radix(n / NINDIRECT, n % NINDIRECT, s.j, NINDIRECT);
    }
  }

  lemma Radix(a: nat, b: nat, c: nat, d: nat)
    requires b <= NINDIRECT && d <= NINDIRECT && (NINDIRECT + 1) * a + b == (NINDIRECT + 1) * c + d
    ensures a == c && b == d
  {
  }

  // The bitmap once every block of inode i with rank below r has been freed.
  ghost predicate Released(bits: seq<bool>, meta: int, owner: Owners, i: nat, r: nat) {
    && (forall b :: b in owner ==> ValidSlot(owner[b].slot))
    && (forall b: nat :: b < |bits| ==>
          (bits[b] <==> b < meta || (b in owner && (owner[b].inum == i ==> Rank(owner[b].slot) >= r))))
  }

  lemma ReleasedNone(trees: Trees, words: Tables, bits: seq<bool>, meta: int, owner: Owners, i: nat)
    requires Owned(trees, words, bits, meta, owner, {})
    ensures Released(bits, meta, owner, i, 0)
  {
    hide Ptr, Rank;
  }

  // The block at the place of rank r, if there is one, is still marked; freeing it is one step.
  lemma ReleaseOne(trees: Trees, words: Tables, bits0: seq<bool>, bits: seq<bool>, meta: int, owner: Owners,
                   i: nat, s: Slot)
    requires Owned(trees, words, bits0, meta, owner, {}) && |bits| == |bits0| && i < |trees| && ValidSlot(s)
    requires Released(bits, meta, owner, i, Rank(s))
    ensures var b := Ptr(trees[i], words, s);
            if b != 0 then meta <= b < |bits| && bits[b] && Released(bits[b := false], meta, owner, i, Rank(s) + 1)
            else Released(bits, meta, owner, i, Rank(s) + 1)
  {
    hide Ptr, Rank;
    forall b | b in owner && owner[b].inum == i && Rank(owner[b].slot) == Rank(s)
      ensures b == Ptr(trees[i], words, s)
    {
      RankInjective(owner[b].slot, s);
    }
  }

  // Places without a block need no freeing.
  lemma ReleaseNothing(trees: Trees, words: Tables, bits0: seq<bool>, bits: seq<bool>, meta: int, owner: Owners,
                       i: nat, r: nat, r': nat)
    requires Owned(trees, words, bits0, meta, owner, {}) && i < |trees| && r <= r'
    requires Released(bits, meta, owner, i, r)
    requires forall s :: ValidSlot(s) && r <= Rank(s) < r' ==> Ptr(trees[i], words, s) == 0
    ensures Released(bits, meta, owner, i, r')
  {
    hide Ptr, Rank;
    forall b | b in owner && owner[b].inum == i
      ensures Rank(owner[b].slot) >= r ==> Rank(owner[b].slot) >= r'
    {
      assert Ptr(trees[i], words, owner[b].slot) == b;
    }
  }

  ghost function Without(owner: Owners, i: nat): Owners {
    map b | b in owner && owner[b].inum != i :: owner[b]
  }

  // Everything freed and the inode's addresses zeroed, the rest is owned as before.
  lemma OwnedWithout(trees: Trees, words: Tables, bits0: seq<bool>, bits: seq<bool>, meta: int, owner: Owners, i: nat)
    requires Owned(trees, words, bits0, meta, owner, {}) && |bits| == |bits0| && i < |trees|
    requires Released(bits, meta, owner, i, RANK_DBL + 1)
    ensures Owned(trees[i := NoAddrs()], words, bits, meta, Without(owner, i), {})
  {
    hide Ptr, Rank;
    forall s | ValidSlot(s)
      ensures Ptr(NoAddrs(), words, s) == 0
    {
      NoPtr(words, s);
    }
    forall b | b in owner && owner[b].inum == i
      ensures Rank(owner[b].slot) < RANK_DBL + 1
    {
    }
  }

  lemma NoPtr(words: Tables, s: Slot)
    requires ValidSlot(s)
    ensures Ptr(NoAddrs(), words, s) == 0
  {
  }

  // The places hanging below an absent table of the inode are empty.
  lemma NothingBelow(a: Addrs, words: Tables, s: Slot, t: Slot)
    requires ValidSlot(s) && ValidSlot(t)
    ensures a[NDIRECT] == 0 && RANK_IND - NINDIRECT <= Rank(s) <= RANK_IND ==> Ptr(a, words, s) == 0
    ensures a[NDIRECT + 1] == 0 && RANK_IND < Rank(s) ==> Ptr(a, words, s) == 0
    ensures t.Tab? && Ptr(a, words, t) == 0 && Rank(t) - NINDIRECT <= Rank(s) <= Rank(t) ==> Ptr(a, words, s) == 0
  {
    if t.Tab? && Rank(t) - NINDIRECT <= Rank(s) <= Rank(t) {
      if s.Data? && s.bn >= RANK_IND {
        var n := s.bn - RANK_IND;
        Bracket(n / NINDIRECT, n % NINDIRECT, t.j);
      } else if s.Tab? {
        Bracket(s.j, NINDIRECT, t.j);
      }
    }
  }

  lemma Bracket(a: nat, b: nat, j: nat)
    requires b <= NINDIRECT
    requires (NINDIRECT + 1) * j <= (NINDIRECT + 1) * a + b <= (NINDIRECT + 1) * j + NINDIRECT
    ensures a == j
  {
  }
}
