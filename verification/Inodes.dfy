/** The inode layer of kernel/xv6fs/fs.c: block allocation, the inode cache, the block map of an
    inode, truncation, and reading and writing a file's bytes. */
module Inodes {
  import opened Wrappers
  import opened Bits
  import opened Codec
  import opened DiskFormat
  import opened BlockTree

  const NINODE: nat := 50

  // struct inode, a slot of the cache. There is one device.
  datatype Inode = Inode(inum: nat, ref: nat, valid: bool, locked: bool,
                         typ: i16, major: i16, minor: i16, nlink: i16, size: u32, addrs: Addrs)
  {
    function OnDisk(): Dinode { Dinode(typ, major, minor, nlink, size, addrs) }
  }


  /** The disk decoded, the block trees in force (in memory where an inode is being written),
      and who owns each block. */
  datatype State = State(img: Image, trees: Trees, owner: Owners)

  // Every block below size is there.
  ghost predicate NoHoles(a: Addrs, words: Tables, size: nat) {
    && size <= MAXFILE * BSIZE
    && (forall bn: nat :: bn < MAXFILE && bn * BSIZE < size ==> Ptr(a, words, Data(bn)) != 0)
  }

  ghost predicate Sound(sb: Superblock, st: State) {
    && sb.Valid() && Sized(sb, st.img) && |st.trees| == sb.ninodes
    && Owned(st.trees, st.img.words, st.img.bits, sb.Meta(), st.owner, {})
    && (forall i: nat :: i < sb.ninodes ==> InodeSound(st, i))
  }

  ghost predicate InodeSound(st: State, i: nat)
    requires i < |st.trees| && i < |st.img.dins|
  {
    && NoHoles(st.trees[i], st.img.words, st.img.dins[i].size)
    && (st.img.dins[i].typ == T_FREE ==> st.trees[i] == NoAddrs() && st.img.dins[i].size == 0)
  }

  // On disk every tree is as in force, but for the inode being written, if any.
  ghost predicate Synced(st: State, but: set<nat>)
    requires |st.trees| == |st.img.dins|
  {
    forall i: nat :: i < |st.trees| && i !in but ==> st.img.dins[i].addrs == st.trees[i]
  }

  ghost predicate SlotOk(st: State, s: Inode, but: set<nat>)
    requires |st.trees| == |st.img.dins|
  {
    && (s.ref == 0 ==> !s.locked)
    && (s.ref > 0 ==>
          && 0 < s.inum < |st.trees| && st.img.dins[s.inum].typ != T_FREE
          && (s.valid ==> s.addrs == st.trees[s.inum] && (s.inum !in but ==> s.OnDisk() == st.img.dins[s.inum])))
  }

  // At most one live slot for an inode, and each agrees with the disk.
  ghost predicate CacheOk(st: State, icache: seq<Inode>, but: set<nat>)
    requires |st.trees| == |st.img.dins|
  {
    && |icache| == NINODE
    && (forall j, k :: 0 <= j < k < NINODE && icache[j].ref > 0 && icache[k].ref > 0 ==>
                         icache[j].inum != icache[k].inum)
    && (forall k :: 0 <= k < NINODE ==> SlotOk(st, icache[k], but))
  }

  // Byte o of the file with block tree a.
  function ByteAt(a: Addrs, words: Tables, data: seq<Block>, o: nat): byte
    requires o < MAXFILE * BSIZE
  {
    var b := Ptr(a, words, Data(o / BSIZE));
    if b < |data| then data[b][o % BSIZE] else 0
  }

  /** The contents of inode i as a flat byte string. */
  ghost function Contents(st: State, i: nat): (c: seq<byte>)
    ensures i < |st.trees| && i < |st.img.dins| && st.img.dins[i].size <= MAXFILE * BSIZE ==>
              |c| == st.img.dins[i].size
  {
    if i < |st.trees| && i < |st.img.dins| && st.img.dins[i].size <= MAXFILE * BSIZE then
      seq<byte>(st.img.dins[i].size, o requires 0 <= o < st.img.dins[i].size =>
        ByteAt(st.trees[i], st.img.words, st.img.data, o))
    else []
  }

  // The flat byte string after writing s at off, over what is there and past its end.
  function Overwrite(c: seq<byte>, off: nat, s: seq<byte>): (r: seq<byte>)
    requires off <= |c|
    ensures |r| == if off + |s| <= |c| then |c| else off + |s|
    ensures forall o :: 0 <= o < |r| ==> r[o] == if off <= o < off + |s| then s[o - off] else c[o]
  {
    if off + |s| <= |c| then Splice(c, off, s) else c[..off] + s
  }

  /** What allocating blocks for block bn of inode i may change: no inode's block numbers but the
      one asked for, nothing in any data block, no dinode, no owner. */
  ghost predicate Grown(a: State, b: State, i: nat, bn: nat) {
    && |b.trees| == |a.trees| && |b.img.words| == |a.img.words| && |b.img.data| == |a.img.data|
    && |b.img.bits| == |a.img.bits| && b.img.dins == a.img.dins
    && (forall j: nat :: j < |a.trees| && j != i ==> b.trees[j] == a.trees[j])
    && (forall x :: x in a.owner ==> x in b.owner && b.owner[x] == a.owner[x])
    && (forall x :: x in a.owner && a.owner[x].slot.Data? && x < |a.img.data| ==> b.img.data[x] == a.img.data[x])
    && (forall j: nat, s :: j < |a.trees| && ValidSlot(s) && (j != i || (s.Data? && s != Data(bn))) ==>
          Ptr(b.trees[j], b.img.words, s) == Ptr(a.trees[j], a.img.words, s))
    && (forall j: nat, s :: j < |a.trees| && ValidSlot(s) && Ptr(a.trees[j], a.img.words, s) != 0 ==>
          Ptr(b.trees[j], b.img.words, s) == Ptr(a.trees[j], a.img.words, s))
  }

  lemma GrownTwice(a: State, b: State, c: State, i: nat, bn: nat)
    requires Grown(a, b, i, bn) && Grown(b, c, i, bn)
    ensures Grown(a, c, i, bn)
  {
    hide Ptr;
  }

  lemma GrownKeepsHoles(a: State, b: State, sb: Superblock, i: nat, bn: nat)
    requires Sound(sb, a) && Grown(a, b, i, bn) && i < |a.trees| && a.img.dins[i].typ != T_FREE
    requires Sized(sb, b.img) && Owned(b.trees, b.img.words, b.img.bits, sb.Meta(), b.owner, {})
    ensures Sound(sb, b)
  {
    hide Ptr, Owned;
    forall j: nat | j < sb.ninodes
      ensures InodeSound(b, j)
    {
      assert InodeSound(a, j);
      forall n: nat | n < MAXFILE && n * BSIZE < b.img.dins[j].size
        ensures Ptr(b.trees[j], b.img.words, Data(n)) != 0
      {
        assert ValidSlot(Data(n)) && Ptr(a.trees[j], a.img.words, Data(n)) != 0;
      }
    }
  }

  // Inode j keeps every block it had and every byte in them.
  ghost predicate FileSame(a: State, b: State, j: nat)
    requires j < |a.trees| && j < |b.trees|
  {
    forall o: nat :: o < MAXFILE * BSIZE && Ptr(a.trees[j], a.img.words, Data(o / BSIZE)) != 0 ==>
      && Ptr(b.trees[j], b.img.words, Data(o / BSIZE)) == Ptr(a.trees[j], a.img.words, Data(o / BSIZE))
      && ByteAt(b.trees[j], b.img.words, b.img.data, o) == ByteAt(a.trees[j], a.img.words, a.img.data, o)
  }

  lemma FileSameTwice(a: State, b: State, c: State, j: nat)
    requires j < |a.trees| && j < |b.trees| && j < |c.trees| && FileSame(a, b, j) && FileSame(b, c, j)
    ensures FileSame(a, c, j)
  {
    hide Ptr, ByteAt;
  }

  lemma GrownFileSame(sb: Superblock, a: State, b: State, i: nat, bn: nat, j: nat)
    requires Sound(sb, a) && Grown(a, b, i, bn) && j < |a.trees|
    ensures FileSame(a, b, j)
  {
    hide Ptr, InodeSound;
    forall o: nat | o < MAXFILE * BSIZE && Ptr(a.trees[j], a.img.words, Data(o / BSIZE)) != 0
      ensures Ptr(b.trees[j], b.img.words, Data(o / BSIZE)) == Ptr(a.trees[j], a.img.words, Data(o / BSIZE))
      ensures ByteAt(b.trees[j], b.img.words, b.img.data, o) == ByteAt(a.trees[j], a.img.words, a.img.data, o)
    {
      assert ValidSlot(Data(o / BSIZE));
    }
  }

  lemma SameContents(sb: Superblock, a: State, b: State, j: nat)
    requires Sound(sb, a) && j < |a.trees| && |b.trees| == |a.trees| && |b.img.dins| == |a.img.dins|
    requires FileSame(a, b, j) && b.img.dins[j].size == a.img.dins[j].size
    ensures Contents(b, j) == Contents(a, j)
  {
    hide Ptr, ByteAt, Owned;
    assert InodeSound(a, j);
    var n := a.img.dins[j].size;
    forall o: nat | o < n
      ensures ByteAt(b.trees[j], b.img.words, b.img.data, o) == ByteAt(a.trees[j], a.img.words, a.img.data, o)
    {
      assert o / BSIZE < MAXFILE && o / BSIZE * BSIZE <= o;
    }
  }

  lemma SliceGrows(c: seq<byte>, off: nat, o: nat, m: nat)
    requires off <= o && o + m <= |c|
    ensures c[off..o] + c[o..o + m] == c[off..o + m]
  {
  }

  // Bytes [o, o + m) of a file, all in block bn, are bytes of that block.
  lemma ChunkOfContents(sb: Superblock, st: State, i: nat, o: nat, m: nat)
    requires Sound(sb, st) && i < |st.trees| && o + m <= st.img.dins[i].size && o % BSIZE + m <= BSIZE && m > 0
    ensures o / BSIZE < MAXFILE && o + m <= |Contents(st, i)|
    ensures var b := Ptr(st.trees[i], st.img.words, Data(o / BSIZE));
            && sb.Meta() <= b < sb.size && b != 0
            && Contents(st, i)[o..o + m] == st.img.data[b][o % BSIZE..o % BSIZE + m]
  {
    hide Ptr;
    assert InodeSound(st, i);
    assert o / BSIZE * BSIZE <= o;
    var bn := o / BSIZE;
    var b := Ptr(st.trees[i], st.img.words, Data(bn));
    TableOrData(st, sb, i, Data(bn));
    var c, d := Contents(st, i)[o..o + m], st.img.data[b][o % BSIZE..o % BSIZE + m];
    forall k | 0 <= k < m
      ensures c[k] == d[k]
    {
      SameBlock(o, k);
    }
  }

  lemma SameBlock(o: nat, k: nat)
    requires o % BSIZE + k < BSIZE
    ensures (o + k) / BSIZE == o / BSIZE && (o + k) % BSIZE == o % BSIZE + k
  {
  }

  lemma TableOrData(st: State, sb: Superblock, i: nat, s: Slot)
    requires Sound(sb, st) && i < |st.trees| && ValidSlot(s) && Ptr(st.trees[i], st.img.words, s) != 0
    ensures sb.Meta() <= Ptr(st.trees[i], st.img.words, s) < sb.size
  {
  }

  // Bytes put into a data block of inode i.
  ghost predicate PutInto(c: State, d: State, r: nat, boff: nat, s: seq<byte>) {
    && r < |c.img.data| == |c.img.words| == |d.img.words| && boff + |s| <= BSIZE
    && d == c.(img := c.img.(data := c.img.data[r := Splice(c.img.data[r], boff, s)],
                             words := c.img.words[r := d.img.words[r]]))
  }

  lemma PutKeepsTrees(sb: Superblock, c: State, d: State, i: nat, bn: nat, r: nat, boff: nat, s: seq<byte>)
    requires Sound(sb, c) && i < |c.trees| && bn < MAXFILE
    requires Ptr(c.trees[i], c.img.words, Data(bn)) == r != 0 && PutInto(c, d, r, boff, s)
    ensures Sound(sb, d)
    ensures forall j: nat, t :: j < |c.trees| && ValidSlot(t) ==>
              Ptr(d.trees[j], d.img.words, t) == Ptr(c.trees[j], c.img.words, t)
  {
    hide Ptr;
    assert ValidSlot(Data(bn));
    forall j: nat, t | j < |c.trees| && ValidSlot(t)
      ensures Ptr(d.trees[j], d.img.words, t) == Ptr(c.trees[j], c.img.words, t)
    {
      SamePtr(c.trees, c.img.words, c.img.bits, sb.Meta(), c.owner, {}, d.img.words, r, j, t);
    }
    forall j: nat | j < sb.ninodes
      ensures InodeSound(d, j)
    {
      assert InodeSound(c, j);
      forall n: nat | n < MAXFILE && n * BSIZE < d.img.dins[j].size
        ensures Ptr(d.trees[j], d.img.words, Data(n)) != 0
      {
        assert ValidSlot(Data(n)) && Ptr(c.trees[j], c.img.words, Data(n)) != 0;
      }
    }
  }

  lemma PutBytesAt(sb: Superblock, c: State, d: State, i: nat, bn: nat, r: nat, boff: nat, s: seq<byte>, j: nat, o: nat)
    requires Sound(sb, c) && i < |c.trees| && bn < MAXFILE && j < |c.trees| && o < MAXFILE * BSIZE
    requires Ptr(c.trees[i], c.img.words, Data(bn)) == r != 0 && PutInto(c, d, r, boff, s)
    requires Ptr(d.trees[j], d.img.words, Data(o / BSIZE)) == Ptr(c.trees[j], c.img.words, Data(o / BSIZE)) != 0
    ensures ByteAt(d.trees[j], d.img.words, d.img.data, o) ==
            if j == i && o / BSIZE == bn && boff <= o % BSIZE < boff + |s| then s[o % BSIZE - boff]
            else ByteAt(c.trees[j], c.img.words, c.img.data, o)
  {
    hide Ptr, InodeSound;
    assert ValidSlot(Data(bn)) && ValidSlot(Data(o / BSIZE));
  }

  // The first tot bytes of src are in file i at off; the rest of it and all other files are as in a.
  ghost predicate Written(a: State, b: State, i: nat, off: nat, src: seq<byte>, tot: nat)
    requires tot <= |src| && i < |a.trees|
  {
    && |b.trees| == |a.trees| && b.img.dins == a.img.dins
    && (forall j: nat :: j < |a.trees| && j != i ==> b.trees[j] == a.trees[j] && FileSame(a, b, j))
    && (forall o: nat :: o < MAXFILE * BSIZE && Ptr(a.trees[i], a.img.words, Data(o / BSIZE)) != 0 ==>
          && Ptr(b.trees[i], b.img.words, Data(o / BSIZE)) == Ptr(a.trees[i], a.img.words, Data(o / BSIZE))
          && (!(off <= o < off + tot) ==>
                ByteAt(b.trees[i], b.img.words, b.img.data, o) == ByteAt(a.trees[i], a.img.words, a.img.data, o)))
    && (forall o: nat :: off <= o < off + tot && o < MAXFILE * BSIZE ==>
          && Ptr(b.trees[i], b.img.words, Data(o / BSIZE)) != 0
          && ByteAt(b.trees[i], b.img.words, b.img.data, o) == src[o - off])
  }

  lemma WrittenNothing(a: State, i: nat, off: nat, src: seq<byte>)
    requires i < |a.trees|
    ensures Written(a, a, i, off, src, 0)
  {
    hide Ptr, ByteAt;
  }

  lemma WrittenGrown(sb: Superblock, a: State, b: State, c: State, i: nat, bn: nat, off: nat, src: seq<byte>, tot: nat)
    requires tot <= |src| && i < |a.trees| && Written(a, b, i, off, src, tot)
    requires Sound(sb, b) && Grown(b, c, i, bn)
    ensures Written(a, c, i, off, src, tot)
  {
    hide Ptr, ByteAt, Owned, InodeSound;
    forall j: nat | j < |a.trees|
      ensures FileSame(b, c, j)
    {
      GrownFileSame(sb, b, c, i, bn, j);
    }
    forall j: nat | j < |a.trees| && j != i
      ensures FileSame(a, c, j)
    {
      FileSameTwice(a, b, c, j);
    }
    assert FileSame(b, c, i);
  }

  lemma WrittenChunk(sb: Superblock, a: State, c: State, d: State, i: nat, r: nat,
                     off: nat, src: seq<byte>, tot: nat, m: nat)
    requires tot + m <= |src| && i < |a.trees| && Written(a, c, i, off, src, tot) && Sound(sb, c)
    requires off + tot + m <= MAXFILE * BSIZE && 0 < m && (off + tot) % BSIZE + m <= BSIZE
    requires Ptr(c.trees[i], c.img.words, Data((off + tot) / BSIZE)) == r != 0
    requires PutInto(c, d, r, (off + tot) % BSIZE, src[tot..tot + m])
    ensures Sound(sb, d) && Written(a, d, i, off, src, tot + m)
  {
    hide Ptr, ByteAt, Owned, InodeSound;
    var at, bn := off + tot, (off + tot) / BSIZE;
    var boff, s := at % BSIZE, src[tot..tot + m];
    PutKeepsTrees(sb, c, d, i, bn, r, boff, s);
    forall j: nat, o: nat | j < |a.trees| && o < MAXFILE * BSIZE && Ptr(c.trees[j], c.img.words, Data(o / BSIZE)) != 0
      ensures Ptr(d.trees[j], d.img.words, Data(o / BSIZE)) == Ptr(c.trees[j], c.img.words, Data(o / BSIZE))
      ensures ByteAt(d.trees[j], d.img.words, d.img.data, o) ==
              if j == i && at <= o < at + m then src[o - off] else ByteAt(c.trees[j], c.img.words, c.img.data, o)
    {
      assert ValidSlot(Data(o / BSIZE));
      PutBytesAt(sb, c, d, i, bn, r, boff, s, j, o);
      InChunk(at, m, o);
    }
    forall j: nat | j < |a.trees| && j != i
      ensures FileSame(a, d, j)
    {
      assert FileSame(a, c, j) && FileSame(c, d, j);
      FileSameTwice(a, c, d, j);
    }
    forall o: nat | off <= o < off + tot + m && o < MAXFILE * BSIZE
      ensures Ptr(d.trees[i], d.img.words, Data(o / BSIZE)) != 0
      ensures ByteAt(d.trees[i], d.img.words, d.img.data, o) == src[o - off]
    {
      InChunk(at, m, o);
      assert Ptr(c.trees[i], c.img.words, Data(o / BSIZE)) != 0;
    }
  }

  // Inside one block, an offset range is a range of positions in the block.
  lemma InChunk(at: nat, m: nat, o: nat)
    requires at % BSIZE + m <= BSIZE
    ensures at <= o < at + m <==> o / BSIZE == at / BSIZE && at % BSIZE <= o % BSIZE < at % BSIZE + m
    ensures at <= o < at + m ==> o % BSIZE - at % BSIZE == o - at
  {
    if at <= o < at + m {
      SameBlock(at, o - at);
    }
    if o / BSIZE == at / BSIZE {
      assert o - at == o % BSIZE - at % BSIZE;
    }
  }

  // The place is one that block bn of the file needs: the block itself or a table.
  predicate Serves(s: Slot, bn: nat) {
    s.Data? ==> s == Data(bn)
  }

  // One allocation linked in at place (i, s): what follows from the pointers alone.
  lemma GraftGrows(a: State, words1: Tables, b: State, sb: Superblock, i: nat, s: Slot, x: nat, bn: nat)
    requires Sound(sb, a) && i < |a.trees| && ValidSlot(s) && Serves(s, bn)
    requires sb.Meta() <= x < sb.size && !a.img.bits[x]
    requires words1 == a.img.words[x := NoWords()]
    requires Grafted(a.trees, words1, b.trees, b.img.words, i, s, x)
    requires b.owner == a.owner[x := Place(i, s)] && b.img.bits == a.img.bits[x := true]
    requires b.img.dins == a.img.dins && |b.img.data| == |a.img.data|
    requires forall j: nat :: j < |a.trees| && j != i ==> b.trees[j] == a.trees[j]
    requires forall y :: y in a.owner && a.owner[y].slot.Data? && y < |a.img.data| ==> b.img.data[y] == a.img.data[y]
    ensures Owned(b.trees, b.img.words, b.img.bits, sb.Meta(), b.owner, {})
    ensures Grown(a, b, i, bn) && Sized(sb, b.img)
    ensures Ptr(b.trees[i], b.img.words, s) == x
  {
    hide Ptr, Owned, InodeSound;
    AfterBalloc(a.trees, a.img.words, a.img.bits, sb.Meta(), a.owner, x);
    NotOwned(a, sb, x);
    GraftOwned(a.trees, words1, b.trees, b.img.words, b.img.bits, sb.Meta(), a.owner, i, s, x);
  }

  lemma NotOwned(a: State, sb: Superblock, x: nat)
    requires Sound(sb, a) && x < sb.size && !a.img.bits[x]
    ensures x !in a.owner
  {
  }

  // The cache after blocks were added to the inode of slot ip.
  lemma CacheGrown(a: State, b: State, icache: seq<Inode>, icache': seq<Inode>, ip: nat, i: nat, bn: nat)
    requires |a.trees| == |a.img.dins| && Grown(a, b, i, bn) && CacheOk(a, icache, {i})
    requires ip < NINODE && icache[ip].ref > 0 && icache[ip].inum == i && i < |a.trees|
    requires icache' == icache[ip := icache[ip].(addrs := b.trees[i])]
    ensures CacheOk(b, icache', {i})
  {
    hide Ptr;
    forall k | 0 <= k < NINODE
      ensures SlotOk(b, icache'[k], {i})
    {
      assert SlotOk(a, icache[k], {i});
    }
  }

  lemma SlotTree(st: State, icache: seq<Inode>, ip: nat, but: set<nat>)
    requires |st.trees| == |st.img.dins| && CacheOk(st, icache, but) && ip < |icache|
    requires icache[ip].ref > 0 && icache[ip].valid
    ensures var i := icache[ip].inum;
            && 0 < i < |st.trees| && st.img.dins[i].typ != T_FREE && icache[ip].addrs == st.trees[i]
            && (i !in but ==> icache[ip].OnDisk() == st.img.dins[i])
  {
    assert SlotOk(st, icache[ip], but);
  }

  lemma MetaMarked(st: State, sb: Superblock)
    requires Sound(sb, st)
    ensures forall b: nat :: b < sb.Meta() ==> st.img.bits[b]
  {
  }

  lemma TableOwned(st: State, sb: Superblock, i: nat, s: Slot)
    requires Sound(sb, st) && i < |st.trees| && ValidSlot(s) && Ptr(st.trees[i], st.img.words, s) != 0
    ensures var t := Ptr(st.trees[i], st.img.words, s);
            && sb.Meta() <= t < sb.size && t in st.owner && st.owner[t] == Place(i, s) && st.img.bits[t]
  {
  }

  lemma AfterAlloc(a: State, words1: Tables, b: State, sb: Superblock, typ: i16, i: nat, s: Slot, x: nat, bn: nat)
    requires Sound(sb, a) && i < |a.trees| && ValidSlot(s) && Serves(s, bn)
    requires x < sb.size && !a.img.bits[x] && a.img.dins[i].typ != T_FREE
    requires words1 == a.img.words[x := NoWords()]
    requires Grafted(a.trees, words1, b.trees, b.img.words, i, s, x)
    requires b.owner == a.owner[x := Place(i, s)] && b.img.bits == a.img.bits[x := true]
    requires b.img.dins == a.img.dins && |b.img.data| == |a.img.data|
    requires forall j: nat :: j < |a.trees| && j != i ==> b.trees[j] == a.trees[j]
    requires forall y :: y in a.owner && a.owner[y].slot.Data? && y < |a.img.data| ==> b.img.data[y] == a.img.data[y]
    ensures Sound(sb, b) && Grown(a, b, i, bn) && Ptr(b.trees[i], b.img.words, s) == x != 0
  {
    hide Ptr, Owned, InodeSound, Grown, Grafted;
    AboveMeta(a, sb, x);
    GraftGrows(a, words1, b, sb, i, s, x, bn);
    GrownKeepsHoles(a, b, sb, i, bn);
  }

  lemma AboveMeta(a: State, sb: Superblock, x: nat)
    requires Sound(sb, a) && x < sb.size && !a.img.bits[x]
    ensures 0 < sb.Meta() <= x && x !in a.owner
  {
  }

  lemma GrownNot(a: State, i: nat, bn: nat)
    ensures Grown(a, a, i, bn)
  {
  }

  lemma ValidWeaker(st: State, icache: seq<Inode>, i: nat)
    requires |st.trees| == |st.img.dins|
    ensures Synced(st, {}) ==> Synced(st, {i})
    ensures CacheOk(st, icache, {}) ==> CacheOk(st, icache, {i})
  {
  }

  lemma SizeOk(sb: Superblock, st: State, i: nat)
    requires Sound(sb, st) && i < |st.trees|
    ensures st.img.dins[i].size <= MAXFILE * BSIZE && |Contents(st, i)| == st.img.dins[i].size
  {
    assert InodeSound(st, i);
  }

  // Writing src at off of file i, as the flat byte strings of all files show it.
  ghost predicate WroteFile(a: State, b: State, i: nat, off: nat, src: seq<byte>) {
    && i < |a.trees| == |b.trees| == |a.img.dins| == |b.img.dins|
    && off <= |Contents(a, i)| && Contents(b, i) == Overwrite(Contents(a, i), off, src)
    && b.img.dins[i] == a.img.dins[i].(size := |Contents(b, i)|, addrs := b.trees[i])
    && (forall j: nat :: j < |a.trees| && j != i ==>
          b.img.dins[j] == a.img.dins[j] && b.trees[j] == a.trees[j] && Contents(b, j) == Contents(a, j))
  }

  // The flat contents of all files once everything is written and the size is set.
  lemma WrittenContents(sb: Superblock, a: State, b: State, e: State, i: nat, off: nat, src: seq<byte>)
    requires Sound(sb, a) && i < |a.trees| && Written(a, b, i, off, src, |src|)
    requires off <= a.img.dins[i].size && off + |src| <= MAXFILE * BSIZE
    requires e == b.(img := b.img.(dins := e.img.dins)) && |e.img.dins| == |a.img.dins|
    requires forall j: nat :: j < |a.trees| && j != i ==> e.img.dins[j] == a.img.dins[j]
    requires e.img.dins[i].size == if off + |src| <= a.img.dins[i].size then a.img.dins[i].size else off + |src|
    ensures off <= |Contents(a, i)| && Contents(e, i) == Overwrite(Contents(a, i), off, src)
    ensures forall j: nat :: j < |a.trees| && j != i ==> Contents(e, j) == Contents(a, j)
    ensures |e.trees| == |a.trees| && NoHoles(e.trees[i], e.img.words, e.img.dins[i].size)
  {
    hide Ptr, ByteAt, Owned, Written, Overwrite, Sound, FileSame, NoHoles;
    WrittenTrees(a, b, i, off, src);
    WrittenFile(sb, a, b, e, i, off, src);
    forall j: nat | j < |a.trees| && j != i
      ensures Contents(e, j) == Contents(a, j)
    {
      WrittenOther(a, b, i, off, src, j);
      SameFile(a, b, e, j);
      SameContents(sb, a, e, j);
    }
  }

  lemma SameFile(a: State, b: State, e: State, j: nat)
    requires j < |a.trees| && j < |b.trees| && FileSame(a, b, j) && e == b.(img := b.img.(dins := e.img.dins))
    ensures FileSame(a, e, j)
  {
    hide Ptr, ByteAt;
  }

  // The file written to.
  lemma WrittenFile(sb: Superblock, a: State, b: State, e: State, i: nat, off: nat, src: seq<byte>)
    requires Sound(sb, a) && i < |a.trees| && Written(a, b, i, off, src, |src|)
    requires off <= a.img.dins[i].size && off + |src| <= MAXFILE * BSIZE
    requires e == b.(img := b.img.(dins := e.img.dins)) && |e.img.dins| == |a.img.dins|
    requires forall j: nat :: j < |a.trees| && j != i ==> e.img.dins[j] == a.img.dins[j]
    requires e.img.dins[i].size == if off + |src| <= a.img.dins[i].size then a.img.dins[i].size else off + |src|
    ensures i < |e.trees| && NoHoles(e.trees[i], e.img.words, e.img.dins[i].size)
    ensures off <= |Contents(a, i)| && Contents(e, i) == Overwrite(Contents(a, i), off, src)
  {
    hide Ptr, ByteAt, Owned, Written;
    assert InodeSound(a, i);
    WrittenTrees(a, b, i, off, src);
    var size := e.img.dins[i].size;
    forall o: nat | o < size
      ensures o / BSIZE < MAXFILE && Ptr(e.trees[i], e.img.words, Data(o / BSIZE)) != 0
      ensures ByteAt(e.trees[i], e.img.words, e.img.data, o) == Overwrite(Contents(a, i), off, src)[o]
    {
      InBlock(o);
      if o < a.img.dins[i].size {
        assert Ptr(a.trees[i], a.img.words, Data(o / BSIZE)) != 0;
      }
      WrittenAt(a, b, i, off, src, o);
    }
    assert |Contents(e, i)| == size == |Overwrite(Contents(a, i), off, src)|;
    assert Contents(e, i) == Overwrite(Contents(a, i), off, src);
    EveryBlock(e.trees[i], e.img.words, size);
  }

  lemma InBlock(o: nat)
    requires o < MAXFILE * BSIZE
    ensures o / BSIZE * BSIZE <= o && o / BSIZE < MAXFILE
  {
  }

  // A block for every byte is a block for every block number.
  lemma EveryBlock(t: Addrs, words: Tables, size: nat)
    requires size <= MAXFILE * BSIZE
    requires forall o: nat :: o < size ==> o / BSIZE < MAXFILE && Ptr(t, words, Data(o / BSIZE)) != 0
    ensures NoHoles(t, words, size)
  {
    hide Ptr;
    forall bn: nat | bn < MAXFILE && bn * BSIZE < size
      ensures Ptr(t, words, Data(bn)) != 0
    {
      assert bn * BSIZE / BSIZE == bn;
      assert Ptr(t, words, Data(bn * BSIZE / BSIZE)) != 0;
    }
  }

  lemma WrittenAt(a: State, b: State, i: nat, off: nat, src: seq<byte>, o: nat)
    requires i < |a.trees| && Written(a, b, i, off, src, |src|) && o < MAXFILE * BSIZE
    requires Ptr(a.trees[i], a.img.words, Data(o / BSIZE)) != 0 || off <= o < off + |src|
    ensures Ptr(b.trees[i], b.img.words, Data(o / BSIZE)) != 0
    ensures ByteAt(b.trees[i], b.img.words, b.img.data, o) ==
            if off <= o < off + |src| then src[o - off] else ByteAt(a.trees[i], a.img.words, a.img.data, o)
  {
    hide Ptr, ByteAt;
  }

  lemma WrittenOther(a: State, b: State, i: nat, off: nat, src: seq<byte>, j: nat)
    requires i < |a.trees| && Written(a, b, i, off, src, |src|) && j < |a.trees| && j != i
    ensures |b.trees| == |a.trees| && b.trees[j] == a.trees[j] && FileSame(a, b, j)
  {
    hide Ptr, ByteAt;
  }

  // The end of a write that made the file longer: the dinode is written back.
  lemma LongerFile(sb: Superblock, a: State, b: State, e: State, cache0: seq<Inode>, cache1: seq<Inode>,
                   ip: nat, i: nat, off: nat, src: seq<byte>)
    requires Sound(sb, a) && Sound(sb, b) && i < |a.trees| && Written(a, b, i, off, src, |src|)
    requires ip < NINODE && CacheOk(a, cache0, {}) && CacheOk(b, cache1, {i}) && Synced(b, {i})
    requires cache0[ip].ref > 0 && cache0[ip].valid && cache0[ip].inum == i
    requires cache1 == cache0[ip := cache0[ip].(addrs := b.trees[i])]
    requires off <= a.img.dins[i].size < off + |src| <= MAXFILE * BSIZE
    requires e == b.(img := b.img.(dins := b.img.dins[i := cache1[ip].(size := off + |src|).OnDisk()]))
    ensures Sound(sb, e) && Synced(e, {}) && CacheOk(e, cache1[ip := cache1[ip].(size := off + |src|)], {})
    ensures WroteFile(a, e, i, off, src)
  {
    hide Ptr, ByteAt, Owned, Written, Contents;
    SlotTree(a, cache0, ip, {});
    assert b.img.dins == a.img.dins by { WrittenDins(a, b, i, off, src, |src|); }
    WrittenContents(sb, a, b, e, i, off, src);
    forall j: nat | j < |a.trees|
      ensures InodeSound(e, j)
    {
      assert InodeSound(b, j);
    }
    var cache := cache1[ip := cache1[ip].(size := off + |src|)];
    forall k | 0 <= k < NINODE
      ensures SlotOk(e, cache[k], {})
    {
      assert SlotOk(b, cache1[k], {i});
    }
    WrittenTrees(a, b, i, off, src);
  }

  lemma WrittenDins(a: State, b: State, i: nat, off: nat, src: seq<byte>, tot: nat)
    requires tot <= |src| && i < |a.trees| && Written(a, b, i, off, src, tot)
    ensures b.img.dins == a.img.dins
  {
  }

  lemma WrittenTrees(a: State, b: State, i: nat, off: nat, src: seq<byte>)
    requires i < |a.trees| && Written(a, b, i, off, src, |src|)
    ensures |b.trees| == |a.trees| && forall j: nat :: j < |a.trees| && j != i ==> b.trees[j] == a.trees[j]
  {
  }

  // The end of a write inside the old size: every block was there, nothing is left to update.
  lemma SameLength(sb: Superblock, a: State, b: State, i: nat, off: nat, src: seq<byte>)
    requires Sound(sb, a) && Sound(sb, b) && i < |a.trees| && Written(a, b, i, off, src, |src|)
    requires off + |src| <= a.img.dins[i].size && Synced(b, {})
    ensures WroteFile(a, b, i, off, src)
  {
    hide Ptr, ByteAt, Owned, Written, Contents;
    assert InodeSound(a, i);
    WrittenDins(a, b, i, off, src, |src|);
    WrittenTrees(a, b, i, off, src);
    WrittenContents(sb, a, b, b, i, off, src);
    assert b.img.dins[i].addrs == b.trees[i];
    assert |Contents(b, i)| == b.img.dins[i].size by { SizeOk(sb, b, i); }
  }

  // A block below the size is there already.
  lemma AtBlock(sb: Superblock, st: State, i: nat, o: nat, size: nat)
    requires Sound(sb, st) && i < |st.trees| && o < MAXFILE * BSIZE && size == st.img.dins[i].size
    ensures o / BSIZE < MAXFILE
    ensures o < size ==> Ptr(st.trees[i], st.img.words, Data(o / BSIZE)) != 0
  {
    hide Ptr;
    assert InodeSound(st, i);
    assert o / BSIZE * BSIZE <= o;
  }

  lemma PutIs(c: State, d: State, r: nat, boff: nat, s: seq<byte>)
    requires r < |c.img.data| == |c.img.words| == |d.img.words| && boff + |s| <= BSIZE
    requires d == c.(img := c.img.(data := c.img.data[r := Splice(c.img.data[r], boff, s)],
                                   words := c.img.words[r := d.img.words[r]]))
    ensures PutInto(c, d, r, boff, s)
  {
  }

  lemma PutCache(c: State, d: State, icache: seq<Inode>, but: set<nat>)
    requires |c.trees| == |c.img.dins| && d.trees == c.trees && d.img.dins == c.img.dins
    ensures Synced(c, but) ==> Synced(d, but)
    ensures CacheOk(c, icache, but) ==> CacheOk(d, icache, but)
  {
  }

  /** What truncating inode i does: exactly its blocks are free again, it is empty, and nothing
      else changed. */
  ghost predicate Truncated(a: State, b: State, i: nat) {
    && i < |a.trees| == |a.img.dins|
    && b.trees == a.trees[i := NoAddrs()] && b.owner == Without(a.owner, i)
    && |b.img.bits| == |a.img.bits|
    && (forall x: nat :: x < |a.img.bits| ==>
          (b.img.bits[x] <==> a.img.bits[x] && !(x in a.owner && a.owner[x].inum == i)))
    && b.img == a.img.(bits := b.img.bits, dins := a.img.dins[i := a.img.dins[i].(size := 0, addrs := NoAddrs())])
  }

  lemma RankOfAddr(a: Addrs, words: Tables, k: nat)
    requires k < NDIRECT + 2
    ensures var s := SlotOfAddr(k);
            && ValidSlot(s) && Ptr(a, words, s) == a[k]
            && Rank(s) == if k < NDIRECT then k else if k == NDIRECT then RANK_IND else RANK_DBL
  {
  }

  // An absent table: nothing to free down to its rank.
  lemma NoTable(sb: Superblock, a: State, bits: seq<bool>, i: nat, s: Slot)
    requires Sound(sb, a) && i < |a.trees| && (s == Ind || s == Dbl) && Ptr(a.trees[i], a.img.words, s) == 0
    requires var r := if s == Ind then NDIRECT else RANK_IND + 1;
             Released(bits, sb.Meta(), a.owner, i, r)
    ensures Released(bits, sb.Meta(), a.owner, i, (if s == Ind then RANK_IND else RANK_DBL) + 1)
  {
    var r, r' := if s == Ind then NDIRECT else RANK_IND + 1, (if s == Ind then RANK_IND else RANK_DBL) + 1;
    forall t | ValidSlot(t) && r <= Rank(t) < r'
      ensures Ptr(a.trees[i], a.img.words, t) == 0
    {
      NothingBelow(a.trees[i], a.img.words, t, Ind);
    }
    ReleaseNothing(a.trees, a.img.words, a.img.bits, bits, sb.Meta(), a.owner, i, r, r');
  }

  lemma AfterTrunc(sb: Superblock, a: State, b: State, cache0: seq<Inode>, cache: seq<Inode>, ip: nat, i: nat)
    requires Sound(sb, a) && Synced(a, {}) && CacheOk(a, cache0, {}) && i < |a.trees| && ip < NINODE
    requires cache0[ip].ref > 0 && cache0[ip].valid && cache0[ip].inum == i
    requires cache == cache0[ip := cache0[ip].(size := 0, addrs := NoAddrs())]
    requires |b.img.bits| == |a.img.bits| && Released(b.img.bits, sb.Meta(), a.owner, i, RANK_DBL + 1)
    requires b.trees == a.trees[i := NoAddrs()] && b.owner == Without(a.owner, i)
    requires b.img == a.img.(bits := b.img.bits, dins := a.img.dins[i := cache[ip].OnDisk()])
    ensures Sound(sb, b) && Synced(b, {}) && CacheOk(b, cache, {}) && Truncated(a, b, i)
  {
    hide Ptr, Owned, Rank;
    SlotTree(a, cache0, ip, {});
    OwnedWithout(a.trees, a.img.words, a.img.bits, b.img.bits, sb.Meta(), a.owner, i);
    BitsAfter(sb, a, b.img.bits, i);
    forall j: nat | j < |a.trees|
      ensures InodeSound(b, j)
    {
      assert InodeSound(a, j);
    }
    forall k | 0 <= k < NINODE
      ensures SlotOk(b, cache[k], {})
    {
      assert SlotOk(a, cache0[k], {});
    }
  }

  lemma BitsAfter(sb: Superblock, a: State, bits: seq<bool>, i: nat)
    requires Sound(sb, a) && |bits| == |a.img.bits|
    requires Released(bits, sb.Meta(), a.owner, i, RANK_DBL + 1)
    ensures forall x: nat :: x < |bits| ==>
              (bits[x] <==> a.img.bits[x] && !(x in a.owner && a.owner[x].inum == i))
  {
    hide Ptr, Rank;
    forall x | x in a.owner
      ensures Rank(a.owner[x].slot) < RANK_DBL + 1
    {
    }
  }

  lemma RefChanged(st: State, icache: seq<Inode>, icache': seq<Inode>, ip: nat)
    requires |st.trees| == |st.img.dins| && CacheOk(st, icache, {}) && ip < NINODE
    requires icache[ip].ref > 0 && |icache'| == NINODE
    requires icache' == icache[ip := icache[ip].(ref := icache'[ip].ref)]
    requires icache'[ip].ref > 0 || !icache[ip].locked
    ensures CacheOk(st, icache', {})
  {
    forall k | 0 <= k < NINODE
      ensures SlotOk(st, icache'[k], {})
    {
      assert SlotOk(st, icache[k], {});
    }
  }

  lemma LockChanged(st: State, icache: seq<Inode>, icache': seq<Inode>, ip: nat)
    requires |st.trees| == |st.img.dins| && CacheOk(st, icache, {}) && ip < NINODE
    requires icache[ip].ref > 0 && |icache'| == NINODE
    requires icache' == icache[ip := icache[ip].(locked := icache'[ip].locked)]
    ensures CacheOk(st, icache', {})
  {
    forall k | 0 <= k < NINODE
      ensures SlotOk(st, icache'[k], {})
    {
      assert SlotOk(st, icache[k], {});
    }
  }

  lemma SlotInum(st: State, icache: seq<Inode>, ip: nat)
    requires |st.trees| == |st.img.dins| && CacheOk(st, icache, {}) && ip < NINODE && icache[ip].ref > 0
    ensures |icache| == NINODE && 0 < icache[ip].inum < |st.trees|
    ensures st.img.dins[icache[ip].inum].typ != T_FREE
  {
    assert SlotOk(st, icache[ip], {});
  }

  // What iget makes of the cache.
  ghost predicate Got(icache: seq<Inode>, icache': seq<Inode>, ip: nat, inum: nat) {
    && |icache| == |icache'| == NINODE && ip < NINODE
    && if icache[ip].ref > 0
       then icache[ip].inum == inum && icache' == icache[ip := icache[ip].(ref := icache[ip].ref + 1)]
       else && (forall k :: 0 <= k < NINODE ==> !(icache[k].ref > 0 && icache[k].inum == inum))
            && (forall k :: 0 <= k < ip ==> icache[k].ref > 0)
            && icache' == icache[ip := icache[ip].(inum := inum, ref := 1, valid := false)]
  }

  lemma SlotTaken(st: State, icache: seq<Inode>, icache': seq<Inode>, ip: nat, inum: nat)
    requires |st.trees| == |st.img.dins| && CacheOk(st, icache, {}) && ip < NINODE && icache[ip].ref == 0
    requires 0 < inum < |st.trees| && st.img.dins[inum].typ != T_FREE
    requires forall k :: 0 <= k < NINODE ==> !(icache[k].ref > 0 && icache[k].inum == inum)
    requires icache' == icache[ip := icache[ip].(inum := inum, ref := 1, valid := false)]
    ensures CacheOk(st, icache', {})
  {
    forall k | 0 <= k < NINODE
      ensures SlotOk(st, icache'[k], {})
    {
      assert SlotOk(st, icache[k], {});
    }
  }

  // A slot with its inode read in from dinode d, unless it was in memory already.
  function Loaded(s: Inode, d: Dinode): Inode {
    if s.valid then s
    else s.(typ := d.typ, major := d.major, minor := d.minor, nlink := d.nlink, size := d.size, addrs := d.addrs,
            valid := true)
  }

  lemma SlotLoaded(st: State, icache: seq<Inode>, icache': seq<Inode>, ip: nat)
    requires |st.trees| == |st.img.dins| && CacheOk(st, icache, {}) && Synced(st, {})
    requires ip < NINODE && icache[ip].ref > 0 && icache[ip].inum < |st.trees|
    requires icache' == icache[ip := Loaded(icache[ip], st.img.dins[icache[ip].inum]).(locked := true)]
    ensures CacheOk(st, icache', {})
  {
    forall k | 0 <= k < NINODE
      ensures SlotOk(st, icache'[k], {})
    {
      assert SlotOk(st, icache[k], {});
    }
  }

  /** Forgetting what is in memory of an inode and loading it again loses nothing. */
  lemma ReloadLosesNothing(st: State, icache: seq<Inode>, ip: nat)
    requires |st.trees| == |st.img.dins| && CacheOk(st, icache, {}) && ip < NINODE && icache[ip].ref > 0
              && icache[ip].valid
    ensures icache[ip].inum < |st.img.dins|
    ensures Loaded(icache[ip].(valid := false), st.img.dins[icache[ip].inum]) == icache[ip]
  {
    SlotTree(st, icache, ip, {});
  }

  // Whether iput's caller holds the last reference to a loaded inode without links.
  predicate Drops(s: Inode) {
    s.valid && s.nlink == 0 && s.ref == 1
  }

  /** Inode i and exactly its blocks are free; nothing else changed. */
  ghost predicate FreedInode(a: State, b: State, i: nat) {
    && i < |a.trees| == |a.img.dins|
    && b.trees == a.trees[i := NoAddrs()] && b.owner == Without(a.owner, i)
    && |b.img.bits| == |a.img.bits|
    && (forall x: nat :: x < |a.img.bits| ==>
          (b.img.bits[x] <==> a.img.bits[x] && !(x in a.owner && a.owner[x].inum == i)))
    && b.img == a.img.(bits := b.img.bits,
                       dins := a.img.dins[i := a.img.dins[i].(typ := T_FREE, size := 0, addrs := NoAddrs())])
  }

  lemma AfterFree(sb: Superblock, a: State, b: State, c: State, cache: seq<Inode>, cache': seq<Inode>, ip: nat, i: nat)
    requires Truncated(a, b, i) && Sound(sb, b) && Synced(b, {}) && CacheOk(b, cache, {}) && ip < NINODE
    requires cache[ip].ref > 0 && cache[ip].valid && cache[ip].inum == i
    requires cache' == cache[ip := cache[ip].(typ := T_FREE, valid := false, locked := false, ref := 0)]
    requires c == b.(img := b.img.(dins := b.img.dins[i := cache[ip].(typ := T_FREE).OnDisk()]))
    ensures Sound(sb, c) && Synced(c, {}) && CacheOk(c, cache', {}) && FreedInode(a, c, i)
  {
    hide Ptr, Owned;
    SlotTree(b, cache, ip, {});
    forall j: nat | j < |b.trees|
      ensures InodeSound(c, j)
    {
      assert InodeSound(b, j);
    }
    forall k | 0 <= k < NINODE
      ensures SlotOk(c, cache'[k], {})
    {
      assert SlotOk(b, cache[k], {});
    }
  }

  ghost function ClaimedInode(a: State, n: nat, typ: i16): State
    requires n < |a.img.dins|
  {
    a.(img := a.img.(dins := a.img.dins[n := Dinode(typ, 0, 0, 0, 0, NoAddrs())]))
  }

  lemma Claimed(sb: Superblock, a: State, b: State, icache: seq<Inode>, n: nat, typ: i16)
    requires Sound(sb, a) && Synced(a, {}) && CacheOk(a, icache, {})
    requires n < sb.ninodes && a.img.dins[n].typ == T_FREE && typ != T_FREE && b == ClaimedInode(a, n, typ)
    ensures Sound(sb, b) && Synced(b, {}) && CacheOk(b, icache, {})
    ensures forall k :: 0 <= k < NINODE ==> !(icache[k].ref > 0 && icache[k].inum == n)
  {
    hide Ptr, Owned;
    assert InodeSound(a, n);
    forall j: nat | j < sb.ninodes
      ensures InodeSound(b, j)
    {
      assert InodeSound(a, j);
    }
    forall k | 0 <= k < NINODE
      ensures SlotOk(b, icache[k], {}) && !(icache[k].ref > 0 && icache[k].inum == n)
    {
      assert SlotOk(a, icache[k], {});
    }
  }

  ghost function MetaSet(a: State, i: nat, major: i16, minor: i16, nlink: i16): State
    requires i < |a.img.dins|
  {
    a.(img := a.img.(dins := a.img.dins[i := a.img.dins[i].(major := major, minor := minor, nlink := nlink)]))
  }

  lemma MetaKept(sb: Superblock, a: State, b: State, cache: seq<Inode>, cache': seq<Inode>, ip: nat, i: nat,
                 major: i16, minor: i16, nlink: i16)
    requires Sound(sb, a) && Synced(a, {}) && CacheOk(a, cache, {}) && ip < NINODE && i < |a.trees|
    requires cache[ip].ref > 0 && cache[ip].valid && cache[ip].inum == i
    requires b == MetaSet(a, i, major, minor, nlink)
    requires cache' == cache[ip := cache[ip].(major := major, minor := minor, nlink := nlink)]
    ensures Sound(sb, b) && Synced(b, {}) && CacheOk(b, cache', {})
  {
    hide Ptr, Owned;
    forall j: nat | j < sb.ninodes
      ensures InodeSound(b, j)
    {
      assert InodeSound(a, j);
    }
    forall k | 0 <= k < NINODE
      ensures SlotOk(b, cache'[k], {})
    {
      assert SlotOk(a, cache[k], {}) && SlotOk(a, cache[ip], {});
    }
  }

  ghost function Emptied(a: State, i: nat): State
    requires i < |a.img.dins|
  {
    a.(img := a.img.(dins := a.img.dins[i := a.img.dins[i].(size := 0)]))
  }

  /** The truncation of open: no bytes are left of the file, though it keeps its blocks; of every
      other file the dinode, the blocks and the bytes are as they were. */
  lemma EmptiedIsEmpty(a: State, i: nat, j: nat)
    requires i < |a.img.dins| == |a.trees| && j < |a.img.dins|
    ensures var b := Emptied(a, i);
            && |b.img.dins| == |a.img.dins| && b.trees == a.trees && b.owner == a.owner && b.img.bits == a.img.bits
            && Contents(b, j) == (if j == i then [] else Contents(a, j))
            && b.img.dins[j] == if j == i then a.img.dins[j].(size := 0) else a.img.dins[j]
  {
    hide ByteAt;
  }

  lemma EmptiedKept(sb: Superblock, a: State, b: State, cache: seq<Inode>, cache': seq<Inode>, ip: nat, i: nat)
    requires Sound(sb, a) && Synced(a, {}) && CacheOk(a, cache, {}) && ip < NINODE && i < |a.trees|
    requires cache[ip].ref > 0 && cache[ip].valid && cache[ip].inum == i
    requires b == Emptied(a, i) && cache' == cache[ip := cache[ip].(size := 0)]
    ensures Sound(sb, b) && Synced(b, {}) && CacheOk(b, cache', {})
  {
    hide Ptr, Owned;
    forall j: nat | j < sb.ninodes
      ensures InodeSound(b, j)
    {
      assert InodeSound(a, j);
    }
    forall k | 0 <= k < NINODE
      ensures SlotOk(b, cache'[k], {})
    {
      assert SlotOk(a, cache[k], {}) && SlotOk(a, cache[ip], {});
    }
  }

  lemma SyncedGrown(a: State, b: State, i: nat, bn: nat)
    requires |a.trees| == |a.img.dins| && Grown(a, b, i, bn) && Synced(a, {i})
    ensures Synced(b, {i})
  {
  }

  ghost function DiskTrees(dins: seq<Dinode>): (t: Trees)
    ensures |t| == |dins| && forall i :: 0 <= i < |dins| ==> t[i] == dins[i].addrs
  {
    seq<Addrs>(|dins|, i requires 0 <= i < |dins| => dins[i].addrs)
  }

  // An operation returns, or halts at a panic: no block, no inode or no cache slot is left.
  datatype Outcome = Halted | Returned(value: int)

  class FileSystem {
    const disk: Disk
    var icache: seq<Inode>
    ghost var trees: Trees
    ghost var owner: Owners

    ghost function St(): State
      reads this, disk
    {
      State(disk.img, trees, owner)
    }

    // Everything holds but, for the inodes in but, agreement of memory with their dinode.
    ghost predicate ValidBut(but: set<nat>)
      reads this, disk
    {
      && disk.Valid() && |icache| == NINODE && |trees| == |disk.img.dins|
      && Sound(disk.sb, St())
      && Synced(St(), but) && CacheOk(St(), icache, but)
    }

    /** The invariant between operations. */
    ghost predicate Valid()
      reads this, disk
    {
      ValidBut({})
    }

    ghost predicate DiskFull()
      reads disk
    {
      && |disk.img.bits| == disk.sb.size
      && forall b: nat :: b < disk.sb.size ==> disk.img.bits[b]
    }

    // The panic of iget.
    ghost predicate CacheFull()
      reads this
    {
      |icache| == NINODE && forall k :: 0 <= k < NINODE ==> icache[k].ref > 0
    }

    // Only the addresses of slot ip have changed, to those of its tree.
    ghost predicate Addrs(ip: nat, i: nat, before: seq<Inode>)
      reads this
    {
      ip < |before| && i < |trees| && icache == before[ip := before[ip].(addrs := trees[i])]
    }

    // Slot ip is referenced and holds inode i, loaded.
    ghost predicate Held(ip: nat, i: nat)
      reads this
    {
      ip < |icache| && icache[ip].ref > 0 && icache[ip].valid && icache[ip].inum == i && i < |trees|
    }

    constructor (disk: Disk, ghost owner: Owners)
      requires disk.Valid()
      requires Sound(disk.sb, State(disk.img, DiskTrees(disk.img.dins), owner))
      ensures Valid() && this.disk == disk && this.owner == owner && trees == DiskTrees(disk.img.dins)
      ensures forall k :: 0 <= k < NINODE ==> icache[k].ref == 0
    {
      this.disk := disk;
      icache := seq(NINODE, i => Inode(0, 0, false, false, T_FREE, 0, 0, 0, 0, NoAddrs()));
      trees := DiskTrees(disk.img.dins);
      this.owner := owner;
    }

    /** The lowest free block, marked and cleared; None is the panic of a full disk. */
    method Balloc() returns (r: Option<nat>)
      requires disk.Valid() && forall b: nat :: b < disk.sb.Meta() ==> disk.img.bits[b]
      modifies disk
      ensures disk.Valid()
      ensures match r
              case None => disk.img == old(disk.img) && (forall b: nat :: b < disk.sb.size ==> disk.img.bits[b])
              case Some(x) =>
                && x < disk.sb.size && !old(disk.img).bits[x]
                && (forall b: nat :: b < x ==> old(disk.img).bits[b])
                && disk.img == old(disk.img).(bits := old(disk.img).bits[x := true],
                                              data := old(disk.img).data[x := ZeroBlock()],
                                              words := old(disk.img).words[x := NoWords()])
    {
      hide SuperKept, Represents;
      var b := 0;
      while b < disk.sb.size
        invariant disk.Valid() && disk.img == old(disk.img)
        invariant forall c: nat :: c < b && c < disk.sb.size ==> disk.img.bits[c]
      {
        var bi := 0;
        while bi < BPB && b + bi < disk.sb.size
          invariant 0 <= bi <= BPB
          invariant disk.Valid() && disk.img == old(disk.img)
          invariant forall c: nat :: c < b + bi && c < disk.sb.size ==> disk.img.bits[c]
        {
          var taken := disk.TestBit(b + bi);
          if !taken {
            disk.SetBit(b + bi);
            disk.ClearBlock(b + bi);
            return Some(b + bi);
          }
          bi := bi + 1;
        }
        b := b + BPB;
      }
      return None;
    }

    // A new block at address k of the inode, for block bn of its file.
    method AllocAddr(ip: nat, ghost i: nat, k: nat, ghost bn: nat) returns (r: Option<nat>)
      requires Held(ip, i) && ValidBut({i}) && k < NDIRECT + 2
      requires icache[ip].addrs[k] == 0 && Serves(SlotOfAddr(k), bn)
      modifies this, disk
      ensures r.None? ==> DiskFull()
      ensures r.Some? ==> Held(ip, i) && ValidBut({i}) && Grown(old(St()), St(), i, bn)
      ensures r.Some? ==> Addrs(ip, i, old(icache)) && icache[ip].addrs[k] == r.value != 0
    {
      hide Ptr, Owned, InodeSound, Represents, SlotOk, Grown;
      ghost var a := St();
      SlotTree(a, icache, ip, {i});
      MetaMarked(a, disk.sb);
      r := Balloc();
      if r.None? {
        return;
      }
      var x: nat := r.value;
      NotOwned(a, disk.sb, x);
      icache := icache[ip := icache[ip].(addrs := icache[ip].addrs[k := x])];
      trees := trees[i := trees[i][k := x]];
      owner := owner[x := Place(i, SlotOfAddr(k))];
      GraftAddr(a.trees, a.img.words[x := NoWords()], i, k, x);
      AfterAlloc(a, a.img.words[x := NoWords()], St(), disk.sb, icache[ip].typ, i, SlotOfAddr(k), x, bn);
      SyncedGrown(a, St(), i, bn);
      CacheGrown(a, St(), old(icache), icache, ip, i, bn);
    }

    // A new block at entry k of table t, which is the inode's place s.
    method AllocEntry(ip: nat, ghost i: nat, ghost s: Slot, t: nat, k: nat, ghost bn: nat) returns (r: Option<nat>)
      requires Held(ip, i) && ValidBut({i}) && k < NINDIRECT
      requires ValidSlot(s) && !s.Data? && Serves(Child(s, k), bn)
      requires t == Ptr(trees[i], disk.img.words, s) != 0 && Entry(disk.img.words, t, k) == 0
      modifies this, disk
      ensures r.None? ==> DiskFull()
      ensures r.Some? ==> Held(ip, i) && ValidBut({i}) && Grown(old(St()), St(), i, bn)
      ensures r.Some? ==> Addrs(ip, i, old(icache))
      ensures r.Some? ==> Ptr(trees[i], disk.img.words, Child(s, k)) == r.value != 0
    {
      hide SuperKept, Ptr, Owned, InodeSound, Represents, SlotOk, Grown, Child;
      ghost var a := St();
      SlotTree(a, icache, ip, {i});
      MetaMarked(a, disk.sb);
      TableOwned(a, disk.sb, i, s);
      r := Balloc();
      if r.None? {
        return;
      }
      var x: nat := r.value;
      NotOwned(a, disk.sb, x);
      disk.SetWord(t, k, x);
      ghost var words1 := a.img.words[x := NoWords()];
      owner := owner[x := Place(i, Child(s, k))];
      AfterBalloc(a.trees, a.img.words, a.img.bits, disk.sb.Meta(), a.owner, x);
      GraftEntry(a.trees, words1, a.img.bits[x := true], disk.sb.Meta(), a.owner, {x}, i, s, t, k, x);
      AfterAlloc(a, words1, St(), disk.sb, icache[ip].typ, i, Child(s, k), x, bn);
      SyncedGrown(a, St(), i, bn);
      CacheGrown(a, St(), old(icache), icache, ip, i, bn);
    }

    /** The block of file block bn, allocating it and the tables on the way where they are
        missing. A block that is there is found without any change. */
    method Bmap(ip: nat, ghost i: nat, bn: nat) returns (r: Option<nat>)
      requires Held(ip, i) && ValidBut({i}) && bn < MAXFILE
      modifies this, disk
      ensures r.None? ==> DiskFull()
      ensures r.Some? ==> Held(ip, i) && ValidBut({i}) && Grown(old(St()), St(), i, bn)
      ensures r.Some? ==> Addrs(ip, i, old(icache))
      ensures r.Some? ==> Ptr(trees[i], disk.img.words, Data(bn)) == r.value != 0
      ensures old(Ptr(trees[i], disk.img.words, Data(bn))) != 0 ==>
                r.Some? && St() == old(St()) && icache == old(icache)
    {
      hide Owned, InodeSound, Represents, SlotOk, Grown, Synced;
      ghost var a := St();
      SlotTree(a, icache, ip, {i});
      GrownNot(a, i, bn);
      if bn < NDIRECT {
        if icache[ip].addrs[bn] == 0 {
          r := AllocAddr(ip, i, bn, bn);
        } else {
          r := Some(icache[ip].addrs[bn]);
        }
        return;
      }
      var n := bn - NDIRECT;
      if n < NINDIRECT {
        r := IndirectBlock(ip, i, Ind, NDIRECT, bn);
        if r.None? {
          return;
        }
        ghost var b := St();
        r := TableBlock(ip, i, Ind, r.value, n, bn);
        if r.Some? {
          GrownTwice(a, b, St(), i, bn);
        }
        return;
      }
      n := n - NINDIRECT;
      var idx1, idx2 := n / NINDIRECT, n % NINDIRECT;
      r := IndirectBlock(ip, i, Dbl, NDIRECT + 1, bn);
      if r.None? {
        return;
      }
      ghost var b := St();
      r := TableBlock(ip, i, Dbl, r.value, idx1, bn);
      if r.None? {
        return;
      }
      ghost var c := St();
      GrownTwice(a, b, c, i, bn);
      assert idx1 * NINDIRECT + idx2 == n;
      r := TableBlock(ip, i, Tab(idx1), r.value, idx2, bn);
      if r.Some? {
        GrownTwice(a, c, St(), i, bn);
      }
    }

    // The block at address k, allocated if there is none, for one of the two tables.
    method IndirectBlock(ip: nat, ghost i: nat, ghost s: Slot, k: nat, ghost bn: nat) returns (r: Option<nat>)
      requires Held(ip, i) && ValidBut({i}) && bn < MAXFILE
      requires NDIRECT <= k < NDIRECT + 2 && s == SlotOfAddr(k)
      modifies this, disk
      ensures r.None? ==> DiskFull()
      ensures r.Some? ==> Held(ip, i) && ValidBut({i}) && Grown(old(St()), St(), i, bn)
      ensures r.Some? ==> Addrs(ip, i, old(icache))
      ensures r.Some? ==> Ptr(trees[i], disk.img.words, s) == r.value != 0
      ensures old(Ptr(trees[i], disk.img.words, s)) != 0 ==>
                r.Some? && St() == old(St()) && icache == old(icache)
    {
      hide Owned, InodeSound, Represents, SlotOk, Grown, Synced;
      SlotTree(St(), icache, ip, {i});
      GrownNot(St(), i, bn);
      if icache[ip].addrs[k] == 0 {
        r := AllocAddr(ip, i, k, bn);
      } else {
        r := Some(icache[ip].addrs[k]);
      }
    }

    // The block at entry k of table t, allocated if there is none.
    method TableBlock(ip: nat, ghost i: nat, ghost s: Slot, t: nat, k: nat, ghost bn: nat) returns (r: Option<nat>)
      requires Held(ip, i) && ValidBut({i}) && k < NINDIRECT
      requires ValidSlot(s) && !s.Data? && Serves(Child(s, k), bn)
      requires t == Ptr(trees[i], disk.img.words, s) != 0
      modifies this, disk
      ensures r.None? ==> DiskFull()
      ensures r.Some? ==> Held(ip, i) && ValidBut({i}) && Grown(old(St()), St(), i, bn)
      ensures r.Some? ==> Addrs(ip, i, old(icache))
      ensures r.Some? ==> Ptr(trees[i], disk.img.words, Child(s, k)) == r.value != 0
      ensures old(Ptr(trees[i], disk.img.words, Child(s, k))) != 0 ==>
                r.Some? && St() == old(St()) && icache == old(icache)
    {
      hide Owned, InodeSound, Represents, SlotOk, Grown, Synced, Ptr, Child;
      GrownNot(St(), i, bn);
      TableOwned(St(), disk.sb, i, s);
      ChildPtr(trees[i], disk.img.words, s, k);
      SlotTree(St(), icache, ip, {i});
      var addr := disk.GetWord(t, k);
      if addr == 0 {
        r := AllocEntry(ip, i, s, t, k, bn);
      } else {
        r := Some(addr);
      }
    }

    /** The clipped slice of the file; nothing is allocated or changed. */
    method Readi(ip: nat, ghost i: nat, off: u32, n: u32) returns (r: int, dst: seq<byte>)
      requires Held(ip, i) && Valid() && icache[ip].typ != T_DEV
      modifies this, disk
      ensures St() == old(St()) && icache == old(icache) && Valid()
      ensures var size := icache[ip].size;
              if off > size || off + n >= 0x1_0000_0000 then r == -1 && dst == []
              else r == (if off + n > size then size - off else n)
                   && |Contents(St(), i)| == size && dst == Contents(St(), i)[off..off + r]
    {
      hide Owned, InodeSound, Represents, Ptr, Synced, Contents, CacheOk, SlotOk, Sound;
      SlotTree(St(), icache, ip, {});
      ValidWeaker(St(), icache, i);
      SizeOk(disk.sb, St(), i);
      var size := icache[ip].size;
      if off > size || off + n >= 0x1_0000_0000 {
        return -1, [];
      }
      var count := if off + n > size then size - off else n;
      var tot, o := 0, off;
      dst := [];
      while tot < count
        invariant 0 <= tot <= count && o == off + tot
        invariant St() == old(St()) && icache == old(icache)
        invariant Valid() && ValidBut({i}) && Held(ip, i)
        invariant dst == Contents(St(), i)[off..o]
      {
        var m := if count - tot < BSIZE - o % BSIZE then count - tot else BSIZE - o % BSIZE;
        ChunkOfContents(disk.sb, St(), i, o, m);
        var bp := Bmap(ip, i, o / BSIZE);
        var chunk := disk.GetBytes(bp.value, o % BSIZE, m);
        SliceGrows(Contents(St(), i), off, o, m);
        dst := dst + chunk;
        tot, o := tot + m, o + m;
      }
      return count, dst;
    }

    /** Writes the slot's inode to its dinode. */
    method Iupdate(ip: nat)
      requires disk.Valid() && ip < |icache| && icache[ip].inum < disk.sb.ninodes
      modifies disk
      ensures disk.Valid()
      ensures disk.img == old(disk.img).(dins := old(disk.img).dins[icache[ip].inum := icache[ip].OnDisk()])
    {
      hide SuperKept, Represents;
      disk.PutDinode(icache[ip].inum, icache[ip].OnDisk());
    }

    // One turn of writei's loop: the part of src that falls in the block at off + tot.
    method WriteChunk(ip: nat, ghost i: nat, off: nat, src: seq<byte>, tot: nat, m: nat, ghost a: State,
        ghost size: nat)
      returns (ok: bool)
      requires Held(ip, i) && ValidBut({i}) && tot + m <= |src| && off + tot + m <= MAXFILE * BSIZE
      requires 0 < m && (off + tot) % BSIZE + m <= BSIZE && i < |a.trees|
      requires Written(a, St(), i, off, src, tot) && disk.img.dins == a.img.dins && size == a.img.dins[i].size
      modifies this, disk
      ensures !ok ==> DiskFull() && off + tot >= size
      ensures ok ==> Held(ip, i) && ValidBut({i}) && Addrs(ip, i, old(icache))
      ensures ok ==> Written(a, St(), i, off, src, tot + m) && disk.img.dins == a.img.dins
      ensures ok && off + tot < size && old(Synced(St(), {}) && CacheOk(St(), icache, {})) ==>
                Synced(St(), {}) && CacheOk(St(), icache, {})
    {
      hide SuperKept, Owned, InodeSound, Represents, Ptr, Synced, Contents, Grown, Written, PutInto, SlotOk, CacheOk;
      ghost var b := St();
      var o := off + tot;
      AtBlock(disk.sb, b, i, o, size);
      var bp := Bmap(ip, i, o / BSIZE);
      if bp.None? {
        return false;
      }
      ghost var c := St();
      WrittenGrown(disk.sb, a, b, c, i, o / BSIZE, off, src, tot);
      WrittenDins(a, c, i, off, src, tot);
      TableOrData(c, disk.sb, i, Data(o / BSIZE));
      disk.PutBytes(bp.value, o % BSIZE, src[tot..tot + m]);
      PutIs(c, St(), bp.value, o % BSIZE, src[tot..tot + m]);
      WrittenChunk(disk.sb, a, c, St(), i, bp.value, off, src, tot, m);
      PutCache(c, St(), icache, {i});
      PutCache(c, St(), icache, {});
      ok := true;
    }

    /** Writes src at off, extending the file when it ends past the old size. No other file's
        bytes or dinode change, and memory and disk agree again afterwards. */
    method Writei(ip: nat, ghost i: nat, off: u32, src: seq<byte>) returns (r: Outcome)
      requires Held(ip, i) && Valid() && icache[ip].typ != T_DEV && |src| < 0x1_0000_0000
      modifies this, disk
      ensures r.Halted? ==> DiskFull() && off + |src| > old(icache[ip].size)
      ensures r.Returned? ==> Held(ip, i) && Valid()
      ensures var size := old(icache[ip].size);
              r.Returned? ==>
                r.value == if off > size || off + |src| >= 0x1_0000_0000 || off + |src| > MAXFILE * BSIZE then -1
                  else |src|
      ensures r.Returned? && r.value < 0 ==> St() == old(St()) && icache == old(icache)
      ensures r.Returned? && r.value >= 0 ==> WroteFile(old(St()), St(), i, off, src)
      ensures r.Returned? && r.value >= 0 ==>
                i < |disk.img.dins| &&
                icache == old(icache)[ip := old(icache[ip]).(size := disk.img.dins[i].size, addrs := trees[i])]
    {
      hide Owned, InodeSound, Represents, Ptr, Synced, Contents, Grown, Written, PutInto, SlotOk, CacheOk;
      ghost var a := St();
      SlotTree(a, icache, ip, {});
      ValidWeaker(a, icache, i);
      WrittenNothing(a, i, off, src);
      var size, n := icache[ip].size, |src|;
      if off > size || off + n >= 0x1_0000_0000 {
        return Returned(-1);
      }
      if off + n > MAXFILE * BSIZE {
        return Returned(-1);
      }
      var tot, o := 0, off;
      while tot < n
        invariant 0 <= tot <= n && o == off + tot
        invariant Held(ip, i) && ValidBut({i}) && Addrs(ip, i, old(icache))
        invariant Written(a, St(), i, off, src, tot) && disk.img.dins == a.img.dins
        invariant o <= size ==> Synced(St(), {}) && CacheOk(St(), icache, {})
      {
        var m := if n - tot < BSIZE - o % BSIZE then n - tot else BSIZE - o % BSIZE;
        var ok := WriteChunk(ip, i, off, src, tot, m, a, size);
        if !ok {
          return Halted;
        }
        tot, o := tot + m, o + m;
      }
      if n > 0 && o > size {
        ghost var b, cache1 := St(), icache;
        icache := icache[ip := icache[ip].(size := o)];
        Iupdate(ip);
        LongerFile(disk.sb, a, b, St(), old(icache), cache1, ip, i, off, src);
      } else {
        SameLength(disk.sb, a, St(), i, off, src);
      }
      SlotTree(St(), icache, ip, {});
      return Returned(n);
    }

    /** Clears the bit of a block. The block being free already is the panic "freeing free
        block". */
    method Bfree(b: nat)
      requires disk.Valid() && b < disk.sb.size && disk.img.bits[b]
      modifies disk
      ensures disk.Valid() && disk.img == old(disk.img).(bits := old(disk.img).bits[b := false])
    {
      hide SuperKept, Represents;
      var taken := disk.TestBit(b);
      assert taken;
      disk.ClearBit(b);
    }

    // In the middle of itrunc: the places of inode i with rank below r are freed, in the bitmap
    // only; a is the state at the start.
    ghost predicate Freeing(a: State, i: nat, r: nat)
      reads this, disk
    {
      && disk.Valid() && |disk.img.bits| == |a.img.bits|
      && St() == a.(img := a.img.(bits := disk.img.bits))
      && Released(disk.img.bits, disk.sb.Meta(), a.owner, i, r)
    }

    method FreePlace(ghost a: State, ghost i: nat, ghost s: Slot, b: nat)
      requires Sound(disk.sb, a) && i < |a.trees| && ValidSlot(s) && b == Ptr(a.trees[i], a.img.words, s)
      requires Freeing(a, i, Rank(s))
      modifies disk
      ensures Freeing(a, i, Rank(s) + 1)
    {
      hide Ptr, Rank, Represents, InodeSound, Owned, Released;
      ReleaseOne(a.trees, a.img.words, a.img.bits, disk.img.bits, disk.sb.Meta(), a.owner, i, s);
      if b != 0 {
        Bfree(b);
      }
    }

    // A table of data blocks: its entries, then the table itself.
    method FreeTable(ghost a: State, ghost i: nat, ghost s: Slot, t: nat)
      requires Sound(disk.sb, a) && i < |a.trees| && ValidSlot(s) && (s.Ind? || s.Tab?)
      requires t == Ptr(a.trees[i], a.img.words, s) != 0
      requires Rank(s) >= NINDIRECT && Freeing(a, i, Rank(s) - NINDIRECT)
      modifies disk
      ensures Freeing(a, i, Rank(s) + 1)
    {
      hide Ptr, Rank, Represents, InodeSound, Owned, Released, Child;
      TableOwned(a, disk.sb, i, s);
      var j := 0;
      while j < NINDIRECT
        invariant 0 <= j <= NINDIRECT && Freeing(a, i, Rank(s) - NINDIRECT + j)
      {
        RankOfChild(s, j);
        ChildPtr(a.trees[i], a.img.words, s, j);
        var addr := disk.GetWord(t, j);
        FreePlace(a, i, Child(s, j), addr);
        j := j + 1;
      }
      FreePlace(a, i, s, t);
    }

    // The double-indirect tree: every table that is there, then the block that lists them.
    method FreeDouble(ghost a: State, ghost i: nat, t: nat)
      requires Sound(disk.sb, a) && i < |a.trees| && t == a.trees[i][NDIRECT + 1] != 0
      requires Freeing(a, i, RANK_IND + 1)
      modifies disk
      ensures Freeing(a, i, RANK_DBL + 1)
    {
      hide Represents, InodeSound, Owned, Released;
      TableOwned(a, disk.sb, i, Dbl);
      var j := 0;
      while j < NINDIRECT
        invariant 0 <= j <= NINDIRECT && Freeing(a, i, RANK_IND + 1 + (NINDIRECT + 1) * j)
      {
        var addr := disk.GetWord(t, j);
        if addr != 0 {
          FreeTable(a, i, Tab(j), addr);
        } else {
          forall s | ValidSlot(s) && Rank(Tab(j)) - NINDIRECT <= Rank(s) < Rank(Tab(j)) + 1
            ensures Ptr(a.trees[i], a.img.words, s) == 0
          {
            NothingBelow(a.trees[i], a.img.words, s, Tab(j));
          }
          ReleaseNothing(a.trees, a.img.words, a.img.bits, disk.img.bits, disk.sb.Meta(), a.owner, i,
                         Rank(Tab(j)) - NINDIRECT, Rank(Tab(j)) + 1);
        }
        j := j + 1;
      }
      FreePlace(a, i, Dbl, t);
    }

    // The twelve direct blocks.
    method FreeDirect(ghost a: State, ip: nat, ghost i: nat)
      requires Sound(disk.sb, a) && i < |a.trees| && ip < |icache| && icache[ip].addrs == a.trees[i]
      requires Freeing(a, i, 0)
      modifies this`icache, disk
      ensures Freeing(a, i, NDIRECT)
      ensures |icache| == |old(icache)| && icache == old(icache)[ip := old(icache[ip]).(addrs := icache[ip].addrs)]
      ensures forall n :: 0 <= n < NDIRECT + 2 ==> icache[ip].addrs[n] == if n < NDIRECT then 0 else a.trees[i][n]
    {
      hide Represents, InodeSound, Owned, Released, Ptr, Rank;
      var k := 0;
      while k < NDIRECT
        invariant 0 <= k <= NDIRECT && Freeing(a, i, k)
        invariant |icache| == |old(icache)| && icache == old(icache)[ip := old(icache[ip]).(addrs := icache[ip].addrs)]
        invariant forall n :: 0 <= n < NDIRECT + 2 ==> icache[ip].addrs[n] == if n < k then 0 else a.trees[i][n]
      {
        RankOfAddr(a.trees[i], a.img.words, k);
        FreePlace(a, i, Data(k), icache[ip].addrs[k]);
        icache := icache[ip := icache[ip].(addrs := icache[ip].addrs[k := 0])];
        k := k + 1;
      }
    }

    // The two indirect tables, where there are any.
    method FreeTables(ghost a: State, ip: nat, ghost i: nat)
      requires Sound(disk.sb, a) && i < |a.trees| && ip < |icache| && Freeing(a, i, NDIRECT)
      requires forall n :: 0 <= n < NDIRECT + 2 ==> icache[ip].addrs[n] == if n < NDIRECT then 0 else a.trees[i][n]
      modifies this`icache, disk
      ensures Freeing(a, i, RANK_DBL + 1)
      ensures |icache| == |old(icache)| && icache == old(icache)[ip := old(icache[ip]).(addrs := NoAddrs())]
    {
      hide Represents, InodeSound, Owned, Released, Ptr, Rank;
      RankOfAddr(a.trees[i], a.img.words, NDIRECT);
      RankOfAddr(a.trees[i], a.img.words, NDIRECT + 1);
      if icache[ip].addrs[NDIRECT] != 0 {
        FreeTable(a, i, Ind, icache[ip].addrs[NDIRECT]);
        icache := icache[ip := icache[ip].(addrs := icache[ip].addrs[NDIRECT := 0])];
      } else {
        NoTable(disk.sb, a, disk.img.bits, i, Ind);
      }
      if icache[ip].addrs[NDIRECT + 1] != 0 {
        FreeDouble(a, i, icache[ip].addrs[NDIRECT + 1]);
        icache := icache[ip := icache[ip].(addrs := icache[ip].addrs[NDIRECT + 1 := 0])];
      } else {
        NoTable(disk.sb, a, disk.img.bits, i, Dbl);
      }
      assert icache[ip].addrs == NoAddrs();
    }

    /** Frees every block of the inode, each once, and no other; leaves it empty in memory and
        on disk. */
    method Itrunc(ip: nat, ghost i: nat)
      requires Held(ip, i) && Valid()
      modifies this, disk
      ensures Held(ip, i) && Valid() && Truncated(old(St()), St(), i)
      ensures icache == old(icache)[ip := old(icache[ip]).(size := 0, addrs := NoAddrs())]
    {
      hide Represents, InodeSound, Owned, Released, SlotOk, Ptr, Rank, Truncated;
      ghost var a := St();
      SlotTree(a, icache, ip, {});
      ReleasedNone(a.trees, a.img.words, a.img.bits, disk.sb.Meta(), a.owner, i);
      FreeDirect(a, ip, i);
      FreeTables(a, ip, i);
      icache := icache[ip := icache[ip].(size := 0)];
      Iupdate(ip);
      trees := trees[i := NoAddrs()];
      owner := Without(owner, i);
      AfterTrunc(disk.sb, a, St(), old(icache), icache, ip, i);
    }

    method Idup(ip: nat)
      requires Valid() && ip < NINODE && icache[ip].ref > 0
      modifies this`icache
      ensures Valid() && icache == old(icache)[ip := old(icache[ip]).(ref := old(icache[ip].ref) + 1)]
    {
      hide Represents, Sound, SlotOk;
      icache := icache[ip := icache[ip].(ref := icache[ip].ref + 1)];
      RefChanged(St(), old(icache), icache, ip);
    }

    /** A reference to the slot of inode inum: the live one if there is one, else the first free
        slot, not yet loaded. None is the panic of a full cache. */
    method Iget(inum: nat) returns (r: Option<nat>)
      requires Valid() && 0 < inum < disk.sb.ninodes && disk.img.dins[inum].typ != T_FREE
      modifies this`icache
      ensures Valid()
      ensures match r
              case None => icache == old(icache)
                           && forall k :: 0 <= k < NINODE ==> old(icache)[k].ref > 0 && old(icache)[k].inum != inum
              case Some(ip) => Got(old(icache), icache, ip, inum)
    {
      hide Represents, Sound, SlotOk;
      var empty: Option<nat> := None;
      var ip := 0;
      while ip < NINODE
        invariant 0 <= ip <= NINODE && Valid() && icache == old(icache)
        invariant forall k :: 0 <= k < ip ==> !(icache[k].ref > 0 && icache[k].inum == inum)
        invariant match empty
                  case None => forall k :: 0 <= k < ip ==> icache[k].ref > 0
                  case Some(e) => e < ip && icache[e].ref == 0 && forall k :: 0 <= k < e ==> icache[k].ref > 0
      {
        if icache[ip].ref > 0 && icache[ip].inum == inum {
          icache := icache[ip := icache[ip].(ref := icache[ip].ref + 1)];
          RefChanged(St(), old(icache), icache, ip);
          return Some(ip);
        }
        if empty == None && icache[ip].ref == 0 {
          empty := Some(ip);
        }
        ip := ip + 1;
      }
      if empty == None {
        return None;
      }
      ip := empty.value;
      icache := icache[ip := icache[ip].(inum := inum, ref := 1, valid := false)];
      SlotTaken(St(), old(icache), icache, ip, inum);
      return Some(ip);
    }

    /** Locks the slot, loading the inode from disk when it is not in memory. A slot without a
        reference, one already locked and an inode without a type are panics. */
    method Ilock(ip: nat)
      requires Valid() && ip < NINODE && icache[ip].ref > 0 && !icache[ip].locked
      modifies this`icache
      ensures Valid() && Held(ip, icache[ip].inum) && icache[ip].inum == old(icache[ip].inum)
      ensures icache == old(icache)[ip := Loaded(old(icache[ip]), disk.img.dins[icache[ip].inum]).(locked := true)]
    {
      hide Represents, Sound, SlotOk;
      SlotInum(St(), icache, ip);
      icache := icache[ip := icache[ip].(locked := true)];
      if !icache[ip].valid {
        var d := disk.GetDinode(icache[ip].inum);
        icache := icache[ip := icache[ip].(typ := d.typ, major := d.major, minor := d.minor, nlink := d.nlink,
                                           size := d.size, addrs := d.addrs, valid := true)];
        assert icache[ip].typ != T_FREE;
      }
      SlotLoaded(St(), old(icache), icache, ip);
    }

    method Iunlock(ip: nat)
      requires Valid() && ip < NINODE && icache[ip].ref > 0 && icache[ip].locked
      modifies this`icache
      ensures Valid() && icache == old(icache)[ip := old(icache[ip]).(locked := false)]
    {
      hide Represents, Sound, SlotOk;
      icache := icache[ip := icache[ip].(locked := false)];
      LockChanged(St(), old(icache), icache, ip);
    }

    /** Drops a reference. The last one to an inode without links frees the inode and all its
        blocks; every other drop only counts. */
    method Iput(ip: nat)
      requires Valid() && ip < NINODE && icache[ip].ref > 0 && !icache[ip].locked
      modifies this, disk
      ensures Valid()
      ensures !Drops(old(icache[ip])) ==>
                St() == old(St()) && icache == old(icache)[ip := old(icache[ip]).(ref := old(icache[ip].ref) - 1)]
      ensures Drops(old(icache[ip])) ==>
                && FreedInode(old(St()), St(), old(icache[ip].inum))
                && icache == old(icache)[ip := old(icache[ip]).(ref := 0, valid := false, typ := T_FREE,
                                                               size := 0, addrs := NoAddrs())]
    {
      hide Represents, Sound, SlotOk, Truncated, Synced, CacheOk;
      ghost var s := icache[ip];
      SlotInum(St(), icache, ip);
      icache := icache[ip := icache[ip].(locked := true)];
      LockChanged(St(), old(icache), icache, ip);
      if icache[ip].valid && icache[ip].nlink == 0 {
        if icache[ip].ref == 1 {
          Itrunc(ip, s.inum);
          ghost var b, cache := St(), icache;
          icache := icache[ip := icache[ip].(typ := T_FREE)];
          Iupdate(ip);
          icache := icache[ip := icache[ip].(valid := false, locked := false, ref := 0)];
          AfterFree(disk.sb, old(St()), b, St(), cache, icache, ip, s.inum);
          return;
        }
      }
      icache := icache[ip := icache[ip].(locked := false)];
      icache := icache[ip := icache[ip].(ref := icache[ip].ref - 1)];
      RefChanged(St(), old(icache), icache, ip);
    }

    method Iunlockput(ip: nat)
      requires Valid() && ip < NINODE && icache[ip].ref > 0 && icache[ip].locked
      modifies this, disk
      ensures Valid()
      ensures !Drops(old(icache[ip])) ==>
                && St() == old(St())
                && icache == old(icache)[ip := old(icache[ip]).(locked := false, ref := old(icache[ip].ref) - 1)]
      ensures Drops(old(icache[ip])) ==>
                && FreedInode(old(St()), St(), old(icache[ip].inum))
                && icache == old(icache)[ip := old(icache[ip]).(ref := 0, valid := false, locked := false,
                                                               typ := T_FREE, size := 0, addrs := NoAddrs())]
    {
      hide Represents, Sound, SlotOk, Synced, CacheOk;
      Iunlock(ip);
      Iput(ip);
    }

    /** Claims the lowest free inode number for a file of the given type and takes a reference to
        it. None is the panic of no inodes, or of no cache slot. */
    method Ialloc(typ: i16) returns (r: Option<nat>)
      requires Valid() && typ != T_FREE
      modifies this, disk
      ensures r.None? ==> (forall n: nat :: 0 < n < disk.sb.ninodes ==> old(disk.img.dins)[n].typ != T_FREE)
                          || (|icache| == NINODE && forall k :: 0 <= k < NINODE ==> icache[k].ref > 0)
      ensures r.Some? ==>
                && Valid() && r.value < NINODE && old(icache)[r.value].ref == 0
                && var n := icache[r.value].inum;
                && 0 < n < |old(disk.img.dins)| && old(disk.img.dins)[n].typ == T_FREE
                && (forall m: nat :: 0 < m < n ==> old(disk.img.dins)[m].typ != T_FREE)
                && St() == ClaimedInode(old(St()), n, typ)
                && icache == old(icache)[r.value := old(icache)[r.value].(inum := n, ref := 1, valid := false)]
    {
      hide SuperKept, Represents, SlotOk, InodeSound, Owned;
      var inum := 1;
      while inum < disk.sb.ninodes
        invariant 1 <= inum <= disk.sb.ninodes
        invariant Valid() && St() == old(St()) && icache == old(icache)
        invariant forall n: nat :: 0 < n < inum ==> disk.img.dins[n].typ != T_FREE
      {
        var dip := disk.GetDinode(inum);
        if dip.typ == T_FREE {
          disk.PutDinode(inum, Dinode(typ, 0, 0, 0, 0, NoAddrs()));
          Claimed(disk.sb, old(St()), St(), icache, inum, typ);
          r := Iget(inum);
          return;
        }
        inum := inum + 1;
      }
      return None;
    }

    // Device numbers and link count set and written back.
    method UpdateMeta(ip: nat, ghost i: nat, major: i16, minor: i16, nlink: i16)
      requires Held(ip, i) && Valid()
      modifies this, disk
      ensures Held(ip, i) && Valid()
      ensures i < |old(disk.img.dins)| && St() == MetaSet(old(St()), i, major, minor, nlink)
      ensures icache == old(icache)[ip := old(icache[ip]).(major := major, minor := minor, nlink := nlink)]
    {
      hide Represents, InodeSound, Owned, SlotOk;
      SlotTree(St(), icache, ip, {});
      icache := icache[ip := icache[ip].(major := major, minor := minor, nlink := nlink)];
      Iupdate(ip);
      MetaKept(disk.sb, old(St()), St(), old(icache), icache, ip, i, major, minor, nlink);
    }

    /** ip->size = 0; iupdate(ip), the truncation of open with O_TRUNC: the file is empty but keeps
        its blocks, still owned, for the next write. */
    method ResetSize(ip: nat, ghost i: nat)
      requires Held(ip, i) && Valid()
      modifies this, disk
      ensures Held(ip, i) && Valid()
      ensures i < |old(disk.img.dins)| && St() == Emptied(old(St()), i)
      ensures icache == old(icache)[ip := old(icache[ip]).(size := 0)]
    {
      hide Represents, InodeSound, Owned, SlotOk;
      SlotTree(St(), icache, ip, {});
      icache := icache[ip := icache[ip].(size := 0)];
      Iupdate(ip);
      EmptiedKept(disk.sb, old(St()), St(), old(icache), icache, ip, i);
    }
  }
}
