/** How many blocks a file of mkfs takes: its data blocks and the tables on the way to them, and
    nothing else. */
module ImageSize {
  import opened Bits
  import opened DiskFormat
  import opened BlockTree
  import opened Inodes

  function DataBlocks(size: nat): nat { (size + BSIZE - 1) / BSIZE }

  // The places filled in the tree of a file of n data blocks.
  predicate InUse(s: Slot, n: nat) {
    match s
    case Data(bn) => bn < n
    case Ind => n > NDIRECT
    case Dbl => n > NDIRECT + NINDIRECT
    case Tab(j) => n > NDIRECT + NINDIRECT + j * NINDIRECT
  }

  // The places on the way to file block n, its own included.
  predicate OnPath(s: Slot, n: nat) {
    match s
    case Data(bn) => bn == n
    case Ind => NDIRECT <= n < NDIRECT + NINDIRECT
    case Dbl => n >= NDIRECT + NINDIRECT
    case Tab(j) => n >= NDIRECT + NINDIRECT && j == (n - NDIRECT - NINDIRECT) / NINDIRECT
  }

  /** The blocks of a file of n data blocks, tables included. */
  function BlocksOf(n: nat): nat {
    n + (if n > NDIRECT then 1 else 0)
    + if n > NDIRECT + NINDIRECT then 1 + (n - NDIRECT - 1) / NINDIRECT else 0
  }

  // The blocks that come with file block n.
  function NewBlocks(n: nat): nat {
    if n < NDIRECT then 1
    else if n < NDIRECT + NINDIRECT then if n == NDIRECT then 2 else 1
    else if n == NDIRECT + NINDIRECT then 3
    else if (n - NDIRECT - NINDIRECT) % NINDIRECT == 0 then 2 else 1
  }

  lemma BlocksNext(n: nat)
    ensures BlocksOf(n + 1) == BlocksOf(n) + NewBlocks(n)
  {
    if n > NDIRECT + NINDIRECT {
      var q, r := (n - NDIRECT - NINDIRECT) / NINDIRECT, (n - NDIRECT - NINDIRECT) % NINDIRECT;
      assert n - NDIRECT == NINDIRECT * (q + 1) + r;
      assert (n - NDIRECT) / NINDIRECT == q + 1;
      assert n - NDIRECT - 1 == if r > 0 then NINDIRECT * (q + 1) + (r - 1) else NINDIRECT * q + (NINDIRECT - 1);
      assert (n - NDIRECT - 1) / NINDIRECT == if r > 0 then q + 1 else q;
    }
  }

  lemma {:induction false} MoreBlocks(m: nat, n: nat)
    requires m <= n
    ensures BlocksOf(m) <= BlocksOf(n)
    decreases n
  {
    hide BlocksOf, NewBlocks;
    if m < n {
      MoreBlocks(m, n - 1);
      BlocksNext(n - 1);
    }
  }

  // With the path to block n a file has n + 1 data blocks, or the ones it had.
  lemma PathInUse(s: Slot, n: nat)
    requires ValidSlot(s)
    ensures InUse(s, n + 1) <==> InUse(s, n) || OnPath(s, n)
  {
    if s.Tab? && n >= NDIRECT + NINDIRECT {
      var k := n - NDIRECT - NINDIRECT;
      assert k == k / NINDIRECT * NINDIRECT + k % NINDIRECT;
      if s.j < k / NINDIRECT {
        assert (s.j + 1) * NINDIRECT <= k / NINDIRECT * NINDIRECT;
      } else if s.j > k / NINDIRECT {
        assert s.j * NINDIRECT >= (k / NINDIRECT + 1) * NINDIRECT;
      }
    }
  }

  // Whether the path to block n, in a file of n data blocks, has a table already.
  lemma TabInUse(n: nat)
    requires NDIRECT + NINDIRECT <= n < MAXFILE
    ensures var k := n - NDIRECT - NINDIRECT;
            InUse(Tab(k / NINDIRECT), n) <==> k % NINDIRECT != 0
  {
    var k := n - NDIRECT - NINDIRECT;
    assert k == k / NINDIRECT * NINDIRECT + k % NINDIRECT;
  }

  // Exactly the places of a file of n data blocks are filled.
  ghost predicate TightAt(st: State, i: nat, n: nat) {
    && i < |st.trees|
    && forall s :: ValidSlot(s) ==> (Ptr(st.trees[i], st.img.words, s) != 0 <==> InUse(s, n))
  }

  // ... in every inode but those of but.
  ghost predicate Tight(st: State, but: set<nat>) {
    && |st.trees| == |st.img.dins|
    && forall i: nat :: i < |st.trees| && i !in but ==> TightAt(st, i, DataBlocks(st.img.dins[i].size))
  }

  // Place s of inode i is filled; no other place changes between empty and filled.
  ghost predicate OneSlot(a: State, b: State, i: nat, s: Slot) {
    && |b.trees| == |a.trees|
    && forall j: nat, t :: j < |a.trees| && ValidSlot(t) ==>
         (Ptr(b.trees[j], b.img.words, t) != 0 <==> Ptr(a.trees[j], a.img.words, t) != 0 || (j == i && t == s))
  }

  ghost predicate SamePtrs(a: State, b: State) {
    && |b.trees| == |a.trees|
    && forall j: nat, t :: j < |a.trees| && ValidSlot(t) ==>
         Ptr(b.trees[j], b.img.words, t) == Ptr(a.trees[j], a.img.words, t)
  }

  lemma GraftedOne(a: State, words1: Tables, b: State, i: nat, s: Slot, x: nat)
    requires i < |a.trees| && ValidSlot(s) && x != 0
    requires words1 == a.img.words && Grafted(a.trees, words1, b.trees, b.img.words, i, s, x)
    ensures OneSlot(a, b, i, s)
  {
    hide Ptr;
  }

  lemma FilledAlready(a: State, i: nat, s: Slot)
    requires i < |a.trees| && ValidSlot(s) && Ptr(a.trees[i], a.img.words, s) != 0
    ensures OneSlot(a, a, i, s)
  {
    hide Ptr;
  }

  // The other inodes.
  lemma OthersTight(a: State, b: State, i: nat, s: Slot)
    requires OneSlot(a, b, i, s) && Tight(a, {i}) && b.img.dins == a.img.dins
    ensures Tight(b, {i})
  {
    hide Ptr, InUse;
    forall j: nat | j < |b.trees| && j != i
      ensures TightAt(b, j, DataBlocks(b.img.dins[j].size))
    {
      assert TightAt(a, j, DataBlocks(a.img.dins[j].size));
    }
  }

  lemma SameTight(a: State, b: State, but: set<nat>)
    requires SamePtrs(a, b) && Tight(a, but) && |b.img.dins| == |a.img.dins|
    requires forall i: nat :: i < |a.img.dins| && i !in but ==> b.img.dins[i].size == a.img.dins[i].size
    ensures Tight(b, but)
  {
    hide Ptr, InUse;
    forall j: nat | j < |b.trees| && j !in but
      ensures TightAt(b, j, DataBlocks(b.img.dins[j].size))
    {
      assert TightAt(a, j, DataBlocks(a.img.dins[j].size));
    }
  }

  lemma SameTightAt(a: State, b: State, i: nat, n: nat)
    requires SamePtrs(a, b) && TightAt(a, i, n)
    ensures TightAt(b, i, n)
  {
    hide Ptr, InUse;
  }

  // n or n - 1 is the block whose path was filled, up to table s.
  lemma PathOne(a: State, b: State, i: nat, n: nat, fbn: nat)
    requires TightAt(a, i, n) && fbn <= n <= fbn + 1 && fbn < NDIRECT && OneSlot(a, b, i, Data(fbn))
    ensures TightAt(b, i, fbn + 1)
  {
    hide Ptr, InUse;
    forall s | ValidSlot(s)
      ensures Ptr(b.trees[i], b.img.words, s) != 0 <==> InUse(s, fbn + 1)
    {
      PathInUse(s, fbn);
    }
  }

  lemma PathTwo(a: State, b: State, c: State, i: nat, n: nat, fbn: nat)
    requires TightAt(a, i, n) && fbn <= n <= fbn + 1 && NDIRECT <= fbn < NDIRECT + NINDIRECT
    requires OneSlot(a, b, i, Ind) && OneSlot(b, c, i, Data(fbn))
    ensures TightAt(c, i, fbn + 1)
  {
    hide Ptr, InUse;
    forall s | ValidSlot(s)
      ensures Ptr(c.trees[i], c.img.words, s) != 0 <==> InUse(s, fbn + 1)
    {
      PathInUse(s, fbn);
    }
  }

  lemma PathThree(a: State, b: State, c: State, d: State, i: nat, n: nat, fbn: nat)
    requires TightAt(a, i, n) && fbn <= n <= fbn + 1 && NDIRECT + NINDIRECT <= fbn < MAXFILE
    requires OneSlot(a, b, i, Dbl) && OneSlot(b, c, i, Tab((fbn - NDIRECT - NINDIRECT) / NINDIRECT))
    requires OneSlot(c, d, i, Data(fbn))
    ensures TightAt(d, i, fbn + 1)
  {
    hide Ptr, InUse;
    forall s | ValidSlot(s)
      ensures Ptr(d.trees[i], d.img.words, s) != 0 <==> InUse(s, fbn + 1)
    {
      PathInUse(s, fbn);
    }
  }

  lemma SlotFilled(a: State, i: nat, n: nat, s: Slot)
    requires TightAt(a, i, n) && ValidSlot(s)
    ensures Ptr(a.trees[i], a.img.words, s) != 0 <==> InUse(s, n)
    ensures s.Data? ==> (InUse(s, n) <==> s.bn < n)
    ensures s == Ind ==> (InUse(s, n) <==> n > NDIRECT)
    ensures s == Dbl ==> (InUse(s, n) <==> n > NDIRECT + NINDIRECT)
    ensures s.Tab? ==> (InUse(s, n) ==> n > NDIRECT + NINDIRECT)
  {
    hide Ptr;
  }

  lemma SlotKept(a: State, b: State, i: nat, s: Slot, t: Slot)
    requires OneSlot(a, b, i, s) && i < |a.trees| && ValidSlot(t) && t != s
    ensures Ptr(b.trees[i], b.img.words, t) != 0 <==> Ptr(a.trees[i], a.img.words, t) != 0
  {
    hide Ptr;
  }

  /** The blocks a file takes more when it grows from size m to size n. */
  function Growth(m: nat, n: nat): int { BlocksOf(DataBlocks(n)) - BlocksOf(DataBlocks(m)) }

  lemma NoGrowth(m: nat)
    ensures Growth(m, m) == 0
  {
  }

  lemma GrowthTwice(l: nat, m: nat, n: nat)
    requires m <= n
    ensures Growth(l, n) == Growth(l, m) + Growth(m, n) && Growth(m, n) >= 0
  {
    hide BlocksOf;
    MoreBlocks(DataBlocks(m), DataBlocks(n));
  }

  // A chunk within one block ends in the block it starts in.
  lemma LastBlock(o: nat, m: nat)
    requires 0 < m && o % BSIZE + m <= BSIZE
    ensures o / BSIZE <= DataBlocks(o) <= o / BSIZE + 1 && DataBlocks(o + m) == o / BSIZE + 1
    ensures Growth(o, o + m) == BlocksOf(o / BSIZE + 1) - BlocksOf(DataBlocks(o))
  {
    hide BlocksOf;
    var q, r := o / BSIZE, o % BSIZE;
    assert o == BSIZE * q + r;
    assert (o + m + BSIZE - 1) / BSIZE == q + 1;
  }

  lemma PutTight(sb: Superblock, c: State, d: State, i: nat, bn: nat, r: nat, boff: nat, s: seq<byte>, n: nat)
    requires Sound(sb, c) && i < |c.trees| && bn < MAXFILE
    requires Ptr(c.trees[i], c.img.words, Data(bn)) == r != 0 && PutInto(c, d, r, boff, s)
    requires Tight(c, {i}) && TightAt(c, i, n)
    ensures Tight(d, {i}) && TightAt(d, i, n)
  {
    hide Ptr, Sound, Tight, TightAt;
    PutKeepsTrees(sb, c, d, i, bn, r, boff, s);
    SameTight(c, d, {i});
    SameTightAt(c, d, i, n);
  }

  lemma TightOne(st: State, i: nat)
    requires Tight(st, {}) && i < |st.trees|
    ensures TightAt(st, i, DataBlocks(st.img.dins[i].size)) && Tight(st, {i})
  {
    hide TightAt;
  }

  // The size on disk brought up to date.
  lemma AllTight(b: State, e: State, i: nat)
    requires Tight(b, {i}) && i < |b.trees| && e.trees == b.trees && e.img.words == b.img.words
    requires |e.img.dins| == |b.img.dins|
    requires forall j: nat :: j < |b.img.dins| && j != i ==> e.img.dins[j] == b.img.dins[j]
    requires TightAt(b, i, DataBlocks(e.img.dins[i].size))
    ensures Tight(e, {})
  {
    hide Ptr, InUse;
    forall j: nat | j < |e.trees|
      ensures TightAt(e, j, DataBlocks(e.img.dins[j].size))
    {
      if j != i {
        assert TightAt(b, j, DataBlocks(b.img.dins[j].size));
      }
    }
  }
}
