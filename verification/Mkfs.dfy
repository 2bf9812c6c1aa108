/** mkfs.c: building an image in the format the kernel mounts. Blocks are handed out in order and
    the bitmap is written once, at the end. */
module Mkfs {
  import opened Wrappers
  import opened Bits
  import opened Codec
  import opened DiskFormat
  import opened BlockTree
  import opened Inodes
  import opened ImageSize

  const FSSIZE: nat := 8192
  const NINODES: nat := 200
  const LOGSIZE: nat := 30
  const XV6_MAGIC: u32 := 0x10203040
  const NINODEBLOCKS: nat := NINODES / IPB + 1
  const NBITMAP: nat := FSSIZE / BPB + 1
  const NMETA: nat := 2 + LOGSIZE + NINODEBLOCKS + NBITMAP

  function ImageLayout(): (sb: Superblock)
    ensures sb.Valid() && sb.Meta() == NMETA == 64
  {
    Superblock(FSSIZE, FSSIZE - NMETA, NINODES, 2 + LOGSIZE, 2 + LOGSIZE + NINODEBLOCKS)
  }

  // The words of struct superblock in order.
  function SuperWords(): seq<u32> {
    [XV6_MAGIC, FSSIZE, FSSIZE - NMETA, NINODES, LOGSIZE, 2, 2 + LOGSIZE, 2 + LOGSIZE + NINODEBLOCKS]
  }

  function SuperBlock(): Block {
    Splice(ZeroBlock(), 0, EncodeWords(SuperWords()))
  }

  /** The superblock sector, read field by field as the kernel does, is the layout. */
  lemma SuperRoundTrip(i: nat)
    requires i < 8
    ensures Field32(SuperBlock(), 4 * i) == SuperWords()[i]
  {
    hide Field32;
    var e := EncodeWords(SuperWords());
    assert SuperBlock()[4 * i..4 * i + 4] == e[4 * i..4 * i + 4];
    Field32From(SuperBlock(), 4 * i, e, 4 * i);
    WordsRoundTrip(SuperWords(), i);
  }

  /** The superblock as the kernel takes it from a sector, if the sector is one. */
  function ReadSuper(sector: Block): Option<Superblock> {
    if Field32(sector, 0) != XV6_MAGIC then None
    else Some(Superblock(Field32(sector, 4), Field32(sector, 8), Field32(sector, 12),
                         Field32(sector, 24), Field32(sector, 28)))
  }

  /** What mkfs writes there the kernel reads as the layout of the image. */
  lemma SuperRead()
    ensures ReadSuper(SuperBlock()) == Some(ImageLayout())
  {
    hide Field32, SuperBlock;
    SuperRoundTrip(0);
    SuperRoundTrip(1);
    SuperRoundTrip(2);
    SuperRoundTrip(3);
    SuperRoundTrip(6);
    SuperRoundTrip(7);
  }

  /** Where the kernel looks: the magic number, then eight words of which it uses five. */
  lemma SuperLayout(sector: Block)
    ensures match ReadSuper(sector)
            case None => Number4(sector[0..4]) != 0x1020_3040
            case Some(sb) =>
              && Number4(sector[0..4]) == 0x1020_3040 && sb.size == Number4(sector[4..8])
              && sb.nblocks == Number4(sector[8..12]) && sb.ninodes == Number4(sector[12..16])
              && sb.inodestart == Number4(sector[24..28]) && sb.bmapstart == Number4(sector[28..32])
  {
    hide Field, Number4;
    FieldNumber(sector, 0);
    FieldNumber(sector, 4);
    FieldNumber(sector, 8);
    FieldNumber(sector, 12);
    FieldNumber(sector, 24);
    FieldNumber(sector, 28);
  }

  /** The layout mkfs gives an image: 8192 blocks, of which 64 are metadata, 200 inodes from block 32
      on, the bitmap in blocks 61 to 63. */
  lemma ImageNumbers()
    ensures ImageLayout() == Superblock(8192, 8128, 200, 32, 61)
    ensures forall i :: 0 <= i < 8 ==>
              Number4(SuperBlock()[4 * i..4 * i + 4]) == [0x1020_3040, 8192, 8128, 200, 30, 2, 32, 61][i]
  {
    hide Field, Number4, SuperBlock, Field32;
    assert NINODEBLOCKS == 29 && NBITMAP == 3 && NMETA == 64;
    assert SuperWords() == [0x1020_3040, 8192, 8128, 200, 30, 2, 32, 61];
    forall i | 0 <= i < 8
      ensures Number4(SuperBlock()[4 * i..4 * i + 4]) == SuperWords()[i]
    {
      SuperRoundTrip(i);
      FieldNumber(SuperBlock(), 4 * i);
      Field32Is(SuperBlock(), 4 * i);
    }
  }

  lemma Field32Is(s: seq<byte>, off: nat)
    requires off + 4 <= |s|
    ensures Field32(s, off) == Field(s, off, 4)
  {
  }

  lemma Field32From(s: seq<byte>, off: nat, t: seq<byte>, off': nat)
    requires off + 4 <= |s| && off' + 4 <= |t| && s[off..off + 4] == t[off'..off' + 4]
    ensures Field32(s, off) == Field32(t, off')
  {
    FieldFrom(s, off, t, off', 4);
  }

  function ZeroImage(): Image {
    Image(seq(FSSIZE, b => false), seq(NINODES, i => Dinode(T_FREE, 0, 0, 0, 0, NoAddrs())),
          seq(FSSIZE, b => ZeroBlock()), seq(FSSIZE, b => NoWords()))
  }

  lemma ZeroDinode(off: nat)
    requires off + DINODE_SIZE <= BSIZE
    ensures DecodeDinode(ZeroBlock(), off) == Dinode(T_FREE, 0, 0, 0, 0, NoAddrs())
  {
    var z := ZeroBlock();
    ZeroField(z, off, 2);
    ZeroField(z, off + 2, 2);
    ZeroField(z, off + 4, 2);
    ZeroField(z, off + 6, 2);
    ZeroField(z, off + 8, 4);
    forall i | 0 <= i < 14
      ensures Field32(z, off + 12 + 4 * i) == 0
    {
      ZeroField(z, off + 12 + 4 * i, 4);
    }
    assert DecodeDinode(z, off).addrs == NoAddrs();
  }

  lemma ZeroDisk(sectors: seq<Block>)
    requires |sectors| == FSSIZE && forall b :: 0 <= b < FSSIZE && b != 1 ==> sectors[b] == ZeroBlock()
    ensures Represents(sectors, ImageLayout(), ZeroImage())
  {
    hide DecodeDinode, Bit, BlockWords;
    var sb := ImageLayout();
    forall b: nat | b < sb.size
      ensures sb.BBlock(b) < sb.size && !RawBit(sectors, sb, b)
    {
      Layout(sb, b, 0);
      ZeroHasNoBits(b % BPB % 8);
    }
    forall i: nat | i < sb.ninodes
      ensures sb.IBlock(i) < sb.size && RawDinode(sectors, sb, i) == Dinode(T_FREE, 0, 0, 0, 0, NoAddrs())
    {
      Layout(sb, 0, i);
      ZeroDinode(i % IPB * DINODE_SIZE);
    }
    ZeroBlockWords();
  }

  // The bits the finished bitmap will have: the first n blocks are used.
  function Upto(n: nat): (bits: seq<bool>)
    ensures |bits| == FSSIZE && forall b :: 0 <= b < FSSIZE ==> bits[b] == (b < n)
  {
    seq(FSSIZE, b => b < n)
  }

  lemma UptoNext(n: nat)
    requires n < FSSIZE
    ensures Upto(n + 1) == Upto(n)[n := true]
  {
  }

  // Blocks not handed out yet are still zero.
  ghost predicate RestIsZero(img: Image, freeblock: nat) {
    && |img.data| == |img.words| == FSSIZE
    && forall b: nat :: freeblock <= b < FSSIZE ==> img.data[b] == ZeroBlock() && img.words[b] == NoWords()
  }

  // No inode numbers but those below freeinode are in use.
  ghost predicate RestIsFree(img: Image, freeinode: nat) {
    forall i: nat :: freeinode <= i < |img.dins| ==> img.dins[i].typ == T_FREE
  }

  ghost function EmptyState(): State {
    State(ZeroImage().(bits := Upto(NMETA)), seq(NINODES, i => NoAddrs()), map[])
  }

  lemma EmptySound()
    ensures Sound(ImageLayout(), EmptyState()) && Synced(EmptyState(), {}) && Tight(EmptyState(), {})
  {
    hide Ptr;
    var st := EmptyState();
    forall i: nat, s | i < NINODES && ValidSlot(s)
      ensures Ptr(st.trees[i], st.img.words, s) == 0
    {
      NoPtr(st.img.words, s);
    }
    forall i: nat | i < NINODES
      ensures TightAt(st, i, DataBlocks(st.img.dins[i].size))
    {
    }
  }

  // One bitmap sector, for the blocks from first on.
  method BitmapSector(first: nat, used: nat) returns (buf: Block)
    ensures forall k: nat :: k < BPB ==> Bit(buf[k / 8], k % 8) == (first + k < used)
  {
    hide Bit, SetInByte;
    buf := ZeroBlock();
    forall k: nat | k < BPB
      ensures !Bit(buf[k / 8], k % 8)
    {
      ZeroHasNoBits(k % 8);
    }
    var bi := 0;
    while bi < BPB
      invariant 0 <= bi <= BPB
      invariant forall k: nat :: k < BPB ==> Bit(buf[k / 8], k % 8) == (k < bi && first + k < used)
    {
      if first + bi < used {
        ghost var was := buf;
        buf := buf[bi / 8 := SetInByte(buf[bi / 8], bi % 8)];
        forall k: nat | k < BPB
          ensures Bit(buf[k / 8], k % 8) == (k == bi || Bit(was[k / 8], k % 8))
        {
          BitSet(was, bi, k);
        }
      }
      bi := bi + 1;
    }
  }

  lemma BitSet(buf: Block, i: nat, k: nat)
    requires i < BPB && k < BPB
    ensures Bit(buf[i / 8 := SetInByte(buf[i / 8], i % 8)][k / 8], k % 8) == (k == i || Bit(buf[k / 8], k % 8))
  {
    SetOneBit(buf[i / 8], i % 8, k % 8);
    assert i == i / 8 * 8 + i % 8 && k == k / 8 * 8 + k % 8;
  }

  // The bits with those of bitmap sector j written.
  function WithSector(bits: seq<bool>, j: nat, used: nat): (r: seq<bool>)
    ensures |r| == |bits|
  {
    seq(|bits|, b requires 0 <= b < |bits| => if b / BPB == j then b < used else bits[b])
  }

  lemma BitmapWritten(sectors: seq<Block>, img: Image, j: nat, sector: Block, used: nat)
    requires Represents(sectors, ImageLayout(), img) && j < 2
    requires forall k: nat :: k < BPB ==> Bit(sector[k / 8], k % 8) == (j * BPB + k < used)
    ensures |sectors| == FSSIZE
    ensures Represents(sectors[ImageLayout().bmapstart + j := sector], ImageLayout(),
              img.(bits := WithSector(img.bits, j, used)))
  {
    hide DecodeDinode, BlockWords, Bit;
    var sb := ImageLayout();
    var sectors' := sectors[sb.bmapstart + j := sector];
    forall b: nat | b < sb.size
      ensures sb.BBlock(b) < sb.size
      ensures RawBit(sectors', sb, b) == if b / BPB == j then b < used else RawBit(sectors, sb, b)
    {
      Layout(sb, b, 0);
      assert b == b / BPB * BPB + b % BPB && b % BPB / 8 == b % BPB / 8 && b % BPB % 8 == b % BPB % 8;
      var k := b % BPB;
      assert Bit(sector[k / 8], k % 8) == (j * BPB + k < used);
    }
    forall i: nat | i < sb.ninodes
      ensures sb.IBlock(i) < sb.size && RawDinode(sectors', sb, i) == RawDinode(sectors, sb, i)
    {
      Layout(sb, 0, i);
    }
  }

  class Builder {
    const disk: Disk
    var freeblock: nat
    var freeinode: nat
    ghost var trees: Trees
    ghost var owner: Owners

    // The file system so far, with the bitmap as it will be written.
    ghost function St(): State
      reads this, disk
    {
      State(disk.img.(bits := Upto(freeblock)), trees, owner)
    }

    ghost predicate ValidBut(but: set<nat>)
      reads this, disk
    {
      && disk.Valid() && disk.sb == ImageLayout() && |trees| == |disk.img.dins|
      && 1 < |disk.sectors| && disk.sectors[1] == SuperBlock()
      && NMETA <= freeblock <= FSSIZE && 1 <= freeinode <= NINODES
      && Sound(disk.sb, St()) && Synced(St(), but) && Tight(St(), but)
      && RestIsZero(disk.img, freeblock) && RestIsFree(disk.img, freeinode)
    }

    ghost predicate Valid()
      reads this, disk
    {
      ValidBut({})
    }

    // The image zeroed, and the superblock in sector 1.
    constructor ()
      ensures Valid() && fresh(disk) && freeblock == NMETA && freeinode == 1 && St() == EmptyState()
      ensures 1 < |disk.sectors| && ReadSuper(disk.sectors[1]) == Some(ImageLayout())
    {
      hide Represents, Sound;
      var sectors: seq<Block> := seq(FSSIZE, b => ZeroBlock());
      sectors := sectors[1 := SuperBlock()];
      ZeroDisk(sectors);
      disk := new Disk(ImageLayout(), sectors, ZeroImage());
      freeblock, freeinode := NMETA, 1;
      trees, owner := seq(NINODES, i => NoAddrs()), map[];
      new;
      SuperRead();
      EmptySound();
    }

    // ialloc: the next inode number, with one link.
    method Ialloc(typ: i16) returns (inum: nat)
      requires Valid() && freeinode < NINODES && typ != T_FREE
      modifies this`freeinode, disk
      ensures Valid() && inum == old(freeinode) && freeinode == inum + 1 && inum < |old(disk.img.dins)|
      ensures old(disk.img.dins)[inum].typ == T_FREE
      ensures St() == MetaSet(ClaimedInode(old(St()), inum, typ), inum, 0, 0, 1)
    {
      hide Represents, Owned, InodeSound, Ptr, InUse, SuperBlock;
      inum := freeinode;
      freeinode := freeinode + 1;
      ghost var a := St();
      disk.PutDinode(inum, Dinode(typ, 0, 0, 1, 0, NoAddrs()));
      IallocSound(disk.sb, a, St(), inum, typ);
      SizeFree(disk.sb, a, inum);
      SameTight(a, St(), {});
    }

    // The next block, linked in at address k of the inode being written.
    method AllocAddr(ghost i: nat, addrs: Addrs, k: nat, ghost bn: nat) returns (r: Option<nat>, addrs': Addrs)
      requires ValidBut({i}) && i < |trees| && trees[i] == addrs && disk.img.dins[i].typ != T_FREE
      requires k < NDIRECT + 2 && addrs[k] == 0 && Serves(SlotOfAddr(k), bn)
      modifies this
      ensures freeinode == old(freeinode)
      ensures r.None? ==> freeblock == old(freeblock) == FSSIZE
      ensures r.Some? ==> ValidBut({i}) && Grown(old(St()), St(), i, bn) && disk.img == old(disk.img)
      ensures r.Some? ==> |trees| == |old(trees)| && trees[i] == addrs' && addrs'[k] == r.value != 0
      ensures r.Some? ==> freeblock == old(freeblock) + 1 && OneSlot(old(St()), St(), i, SlotOfAddr(k))
    {
      hide Ptr, Owned, InodeSound, Represents, Grown, OneSlot, Tight, Synced, SuperBlock;
      ghost var a := St();
      addrs' := addrs;
      if freeblock == FSSIZE {
        return None, addrs';
      }
      var x: nat := freeblock;
      freeblock := freeblock + 1;
      addrs' := addrs[k := x];
      trees := trees[i := addrs'];
      owner := owner[x := Place(i, SlotOfAddr(k))];
      UptoNext(x);
      assert a.img.words[x := NoWords()] == a.img.words;
      GraftAddr(a.trees, a.img.words, i, k, x);
      GraftedOne(a, a.img.words, St(), i, SlotOfAddr(k), x);
      OthersTight(a, St(), i, SlotOfAddr(k));
      AfterAlloc(a, a.img.words, St(), disk.sb, disk.img.dins[i].typ, i, SlotOfAddr(k), x, bn);
      SyncedGrown(a, St(), i, bn);
      return Some(x), addrs';
    }

    // The next block, written as entry k of table t, the inode's place s.
    method AllocEntry(ghost i: nat, ghost s: Slot, t: nat, k: nat, ghost bn: nat) returns (r: Option<nat>)
      requires ValidBut({i}) && i < |trees| && disk.img.dins[i].typ != T_FREE && k < NINDIRECT
      requires ValidSlot(s) && !s.Data? && Serves(Child(s, k), bn)
      requires t == Ptr(trees[i], disk.img.words, s) != 0 && Entry(disk.img.words, t, k) == 0
      modifies this, disk
      ensures freeinode == old(freeinode) && disk.img.dins == old(disk.img.dins)
      ensures r.None? ==> freeblock == old(freeblock) == FSSIZE
      ensures r.Some? ==> ValidBut({i}) && Grown(old(St()), St(), i, bn) && trees == old(trees)
      ensures r.Some? ==> Ptr(trees[i], disk.img.words, Child(s, k)) == r.value != 0
      ensures r.Some? ==> freeblock == old(freeblock) + 1 && OneSlot(old(St()), St(), i, Child(s, k))
    {
      hide Ptr, Owned, InodeSound, Represents, Grown, Child, OneSlot, Tight, Synced, SuperBlock;
      ghost var a := St();
      TableOwned(a, disk.sb, i, s);
      if freeblock == FSSIZE {
        return None;
      }
      var x: nat := freeblock;
      freeblock := freeblock + 1;
      disk.SetWord(t, k, x);
      owner := owner[x := Place(i, Child(s, k))];
      UptoNext(x);
      NotOwned(a, disk.sb, x);
      assert a.img.words[x := NoWords()] == a.img.words;
      AfterBalloc(a.trees, a.img.words, a.img.bits, disk.sb.Meta(), a.owner, x);
      GraftEntry(a.trees, a.img.words, a.img.bits[x := true], disk.sb.Meta(), a.owner, {x}, i, s, t, k, x);
      GraftedOne(a, a.img.words, St(), i, Child(s, k), x);
      OthersTight(a, St(), i, Child(s, k));
      AfterAlloc(a, a.img.words, St(), disk.sb, disk.img.dins[i].typ, i, Child(s, k), x, bn);
      SyncedGrown(a, St(), i, bn);
      return Some(x);
    }

    // The block at entry k of table t, handed out if there is none.
    method TableBlock(ghost i: nat, ghost s: Slot, t: nat, k: nat, ghost bn: nat) returns (r: Option<nat>)
      requires ValidBut({i}) && i < |trees| && disk.img.dins[i].typ != T_FREE && k < NINDIRECT
      requires ValidSlot(s) && !s.Data? && Serves(Child(s, k), bn)
      requires t == Ptr(trees[i], disk.img.words, s) != 0
      modifies this, disk
      ensures freeinode == old(freeinode) && disk.img.dins == old(disk.img.dins)
      ensures r.None? ==> freeblock == old(freeblock) == FSSIZE && old(Ptr(trees[i], disk.img.words, Child(s, k))) == 0
      ensures r.Some? ==> ValidBut({i}) && Grown(old(St()), St(), i, bn) && trees == old(trees)
      ensures r.Some? ==> Ptr(trees[i], disk.img.words, Child(s, k)) == r.value != 0
      ensures r.Some? ==>
                && OneSlot(old(St()), St(), i, Child(s, k))
                && freeblock == old(freeblock) + if old(Ptr(trees[i], disk.img.words, Child(s, k))) == 0 then 1 else 0
    {
      hide Ptr, Owned, InodeSound, Represents, Grown, Child, Synced, OneSlot, Tight, SuperBlock;
      GrownNot(St(), i, bn);
      TableOwned(St(), disk.sb, i, s);
      ChildPtr(trees[i], disk.img.words, s, k);
      var x := disk.GetWord(t, k);
      if x == 0 {
        r := AllocEntry(i, s, t, k, bn);
      } else {
        FilledAlready(St(), i, Child(s, k));
        r := Some(x);
      }
    }

    // The block at address k, handed out if there is none.
    method AddrBlock(ghost i: nat, addrs: Addrs, k: nat, ghost bn: nat) returns (r: Option<nat>, addrs': Addrs)
      requires ValidBut({i}) && i < |trees| && trees[i] == addrs && disk.img.dins[i].typ != T_FREE
      requires k < NDIRECT + 2 && Serves(SlotOfAddr(k), bn)
      modifies this
      ensures freeinode == old(freeinode)
      ensures r.None? ==> freeblock == old(freeblock) == FSSIZE && addrs[k] == 0
      ensures r.Some? ==> ValidBut({i}) && Grown(old(St()), St(), i, bn) && disk.img == old(disk.img)
      ensures r.Some? ==> |trees| == |old(trees)| && trees[i] == addrs' && addrs'[k] == r.value != 0
      ensures r.Some? ==>
                && OneSlot(old(St()), St(), i, SlotOfAddr(k))
                && freeblock == old(freeblock) + if addrs[k] == 0 then 1 else 0
    {
      hide Ptr, Owned, InodeSound, Represents, Grown, Synced, OneSlot, Tight, SuperBlock;
      GrownNot(St(), i, bn);
      AddrPtr(addrs, disk.img.words, k);
      if addrs[k] == 0 {
        r, addrs' := AllocAddr(i, addrs, k, bn);
      } else {
        FilledAlready(St(), i, SlotOfAddr(k));
        r, addrs' := Some(addrs[k]), addrs;
      }
    }

    /** The block of file block fbn, handed out with the tables on the way where they are missing:
        the same places of the tree the kernel's bmap fills. fbn is the last block of the file or
        the next one, which takes NewBlocks(fbn) blocks. */
    method BlockFor(ghost i: nat, addrs: Addrs, fbn: nat, ghost n: nat) returns (r: Option<nat>, addrs': Addrs)
      requires ValidBut({i}) && i < |trees| && trees[i] == addrs && disk.img.dins[i].typ != T_FREE && fbn < MAXFILE
      requires TightAt(St(), i, n) && fbn <= n <= fbn + 1
      modifies this, disk
      ensures freeinode == old(freeinode) && disk.img.dins == old(disk.img.dins)
      ensures r.None? ==> old(freeblock) + BlocksOf(fbn + 1) - BlocksOf(n) > FSSIZE
      ensures r.Some? ==> ValidBut({i}) && Grown(old(St()), St(), i, fbn)
      ensures r.Some? ==> |trees| == |old(trees)| && trees[i] == addrs'
      ensures r.Some? ==> Ptr(trees[i], disk.img.words, Data(fbn)) == r.value != 0
      ensures r.Some? ==> TightAt(St(), i, fbn + 1) && freeblock == old(freeblock) + BlocksOf(fbn + 1) - BlocksOf(n)
    {
      hide Owned, InodeSound, Represents, Grown, Synced, Sound, Tight, OneSlot, BlocksOf, InUse, Ptr, SuperBlock;
      ghost var a := St();
      BlocksNext(fbn);
      if fbn < NDIRECT {
        AddrPtr(addrs, a.img.words, fbn);
        SlotFilled(a, i, n, Data(fbn));
        r, addrs' := AddrBlock(i, addrs, fbn, fbn);
        if r.Some? {
          AddrPtr(addrs', disk.img.words, fbn);
          PathOne(a, St(), i, n, fbn);
        }
      } else if fbn < NDIRECT + NINDIRECT {
        var bn := fbn - NDIRECT;
        AddrPtr(addrs, a.img.words, NDIRECT);
        SlotFilled(a, i, n, Ind);
        SlotFilled(a, i, n, Data(fbn));
        r, addrs' := AddrBlock(i, addrs, NDIRECT, fbn);
        if r.None? {
          return;
        }
        ghost var b := St();
        AddrPtr(addrs', disk.img.words, NDIRECT);
        SlotKept(a, b, i, Ind, Data(fbn));
        r := TableBlock(i, Ind, r.value, bn, fbn);
        if r.Some? {
          GrownTwice(a, b, St(), i, fbn);
          PathTwo(a, b, St(), i, n, fbn);
        }
      } else {
        r, addrs' := DoubleBlock(i, addrs, fbn, n);
      }
    }

    // The same through the double-indirect table.
    method DoubleBlock(ghost i: nat, addrs: Addrs, fbn: nat, ghost n: nat) returns (r: Option<nat>, addrs': Addrs)
      requires ValidBut({i}) && i < |trees| && trees[i] == addrs && disk.img.dins[i].typ != T_FREE
      requires NDIRECT + NINDIRECT <= fbn < MAXFILE && TightAt(St(), i, n) && fbn <= n <= fbn + 1
      modifies this, disk
      ensures freeinode == old(freeinode) && disk.img.dins == old(disk.img.dins)
      ensures r.None? ==> old(freeblock) + BlocksOf(fbn + 1) - BlocksOf(n) > FSSIZE
      ensures r.Some? ==> ValidBut({i}) && Grown(old(St()), St(), i, fbn)
      ensures r.Some? ==> |trees| == |old(trees)| && trees[i] == addrs'
      ensures r.Some? ==> Ptr(trees[i], disk.img.words, Data(fbn)) == r.value != 0
      ensures r.Some? ==> TightAt(St(), i, fbn + 1) && freeblock == old(freeblock) + BlocksOf(fbn + 1) - BlocksOf(n)
    {
      hide Owned, InodeSound, Represents, Grown, Synced, Sound, Tight, OneSlot, BlocksOf, InUse, Ptr, SuperBlock;
      ghost var a := St();
      BlocksNext(fbn);
      var bn2 := fbn - NDIRECT - NINDIRECT;
      var idx1, idx2 := bn2 / NINDIRECT, bn2 % NINDIRECT;
      AddrPtr(addrs, a.img.words, NDIRECT + 1);
      SlotFilled(a, i, n, Dbl);
      SlotFilled(a, i, n, Tab(idx1));
      SlotFilled(a, i, n, Data(fbn));
      TabInUse(fbn);
      PathInUse(Tab(idx1), fbn);
      r, addrs' := AddrBlock(i, addrs, NDIRECT + 1, fbn);
      if r.None? {
        return;
      }
      ghost var b := St();
      AddrPtr(addrs', disk.img.words, NDIRECT + 1);
      SlotKept(a, b, i, Dbl, Tab(idx1));
      SlotKept(a, b, i, Dbl, Data(fbn));
      r := TableBlock(i, Dbl, r.value, idx1, fbn);
      if r.None? {
        return;
      }
      ghost var c := St();
      GrownTwice(a, b, c, i, fbn);
      assert idx1 * NINDIRECT + idx2 == bn2;
      SlotKept(b, c, i, Tab(idx1), Data(fbn));
      r := TableBlock(i, Tab(idx1), r.value, idx2, fbn);
      if r.Some? {
        GrownTwice(a, c, St(), i, fbn);
        PathThree(a, b, c, St(), i, n, fbn);
      }
    }

    // One turn of iappend's loop.
    method AppendChunk(ghost i: nat, addrs: Addrs, off: nat, src: seq<byte>, tot: nat, m: nat, ghost a: State)
      returns (ok: bool, addrs': Addrs)
      requires ValidBut({i}) && i < |trees| && trees[i] == addrs && disk.img.dins[i].typ != T_FREE && i < |a.trees|
      requires tot + m <= |src| && off + tot + m <= MAXFILE * BSIZE && 0 < m && (off + tot) % BSIZE + m <= BSIZE
      requires Written(a, St(), i, off, src, tot) && TightAt(St(), i, DataBlocks(off + tot))
      modifies this, disk
      ensures freeinode == old(freeinode) && disk.img.dins == old(disk.img.dins)
      ensures !ok ==> old(freeblock) + Growth(off + tot, off + tot + m) > FSSIZE
      ensures ok ==> ValidBut({i}) && |trees| == |old(trees)| && trees[i] == addrs'
      ensures ok ==> Written(a, St(), i, off, src, tot + m)
      ensures ok ==> TightAt(St(), i, DataBlocks(off + tot + m))
      ensures ok ==> freeblock == old(freeblock) + Growth(off + tot, off + tot + m)
    {
      hide Owned, InodeSound, Represents, Ptr, Synced, Grown, Written, PutInto, Tight, TightAt, BlocksOf, DataBlocks;
      hide SuperBlock;
      ghost var b := St();
      var o := off + tot;
      AtBlock(disk.sb, b, i, o, b.img.dins[i].size);
      LastBlock(o, m);
      var x;
      x, addrs' := BlockFor(i, addrs, o / BSIZE, DataBlocks(o));
      if x.None? {
        return false, addrs';
      }
      ghost var c := St();
      WrittenGrown(disk.sb, a, b, c, i, o / BSIZE, off, src, tot);
      TableOwned(c, disk.sb, i, Data(o / BSIZE));
      disk.PutBytes(x.value, o % BSIZE, src[tot..tot + m]);
      PutIs(c, St(), x.value, o % BSIZE, src[tot..tot + m]);
      PutTight(disk.sb, c, St(), i, o / BSIZE, x.value, o % BSIZE, src[tot..tot + m], DataBlocks(o + m));
      WrittenChunk(disk.sb, a, c, St(), i, x.value, off, src, tot, m);
      SyncedDins(c, St(), {i});
      ok := true;
    }

    /** iappend: the bytes go after those the file has, in the tree the kernel will read it from,
        and nowhere else. It fails exactly when the image has no room for the blocks. */
    method Iappend(inum: nat, xp: seq<byte>) returns (ok: bool)
      requires Valid() && inum < |disk.img.dins| && disk.img.dins[inum].typ != T_FREE
      requires disk.img.dins[inum].size + |xp| <= MAXFILE * BSIZE
      modifies this, disk
      ensures freeinode == old(freeinode)
      ensures var size := old(disk.img.dins)[inum].size;
              ok <==> old(freeblock) + Growth(size, size + |xp|) <= FSSIZE
      ensures ok ==> Valid() && WroteFile(old(St()), St(), inum, old(disk.img.dins)[inum].size, xp)
      ensures var size := old(disk.img.dins)[inum].size;
              ok ==> freeblock == old(freeblock) + Growth(size, size + |xp|)
    {
      hide Owned, InodeSound, Represents, Ptr, Synced, Grown, Written, Contents, Tight, TightAt, Growth, DataBlocks;
      hide SuperBlock;
      ghost var a := St();
      SyncedWeaker(a, inum);
      SyncedAt(a, inum);
      TightOne(a, inum);
      var din := disk.GetDinode(inum);
      var addrs, off, size := din.addrs, din.size, din.size;
      WrittenNothing(a, inum, size, xp);
      NoGrowth(size);
      var tot, n := 0, |xp|;
      while n > 0
        invariant 0 <= tot <= |xp| && off == size + tot && n == |xp| - tot
        invariant ValidBut({inum}) && inum < |trees| && trees[inum] == addrs && disk.img.dins == old(disk.img.dins)
        invariant freeinode == old(freeinode) && Written(a, St(), inum, size, xp, tot)
        invariant TightAt(St(), inum, DataBlocks(off)) && freeblock == old(freeblock) + Growth(size, off)
      {
        var n1 := if n < BSIZE - off % BSIZE then n else BSIZE - off % BSIZE;
        GrowthTwice(size, off, off + n1);
        GrowthTwice(size, off + n1, size + |xp|);
        ok, addrs := AppendChunk(inum, addrs, size, xp, tot, n1, a);
        if !ok {
          return;
        }
        n, off, tot := n - n1, off + n1, tot + n1;
      }
      ghost var b := St();
      disk.PutDinode(inum, din.(size := off, addrs := addrs));
      Appended(disk.sb, a, b, St(), inum, xp);
      AllTight(b, St(), inum);
      ok := true;
    }

    /** A file appended to piece by piece holds the pieces joined. */
    method AppendAll(inum: nat, chunks: seq<seq<byte>>) returns (ok: bool)
      requires Valid() && inum < |disk.img.dins| && disk.img.dins[inum].typ != T_FREE
      requires disk.img.dins[inum].size + |Flatten(chunks)| <= MAXFILE * BSIZE
      modifies this, disk
      ensures freeinode == old(freeinode)
      ensures var size := old(disk.img.dins)[inum].size;
              ok <==> old(freeblock) + Growth(size, size + |Flatten(chunks)|) <= FSSIZE
      ensures ok ==> Valid() && Extended(old(St()), St(), inum, Flatten(chunks))
      ensures var size := old(disk.img.dins)[inum].size;
              ok ==> freeblock == old(freeblock) + Growth(size, size + |Flatten(chunks)|)
    {
      hide Owned, InodeSound, Represents, Ptr, Synced, Contents, WroteFile, Tight, Growth, SuperBlock;
      ghost var a := St();
      ghost var size := disk.img.dins[inum].size;
      ExtendedNot(a, inum);
      NoGrowth(size);
      var k := 0;
      while k < |chunks|
        invariant 0 <= k <= |chunks| && Valid() && freeinode == old(freeinode)
        invariant Extended(a, St(), inum, Flatten(chunks[..k]))
        invariant freeblock == old(freeblock) + Growth(size, size + |Flatten(chunks[..k])|)
      {
        FlattenPart(chunks, k);
        FlattenPart(chunks, k + 1);
        ghost var b, done := St(), size + |Flatten(chunks[..k])|;
        SizeOk(disk.sb, a, inum);
        SizeOk(disk.sb, b, inum);
        GrowthTwice(size, done, done + |chunks[k]|);
        GrowthTwice(size, done + |chunks[k]|, size + |Flatten(chunks)|);
        ok := Iappend(inum, chunks[k]);
        if !ok {
          return;
        }
        AppendedTwice(disk.sb, a, b, St(), inum, Flatten(chunks[..k]), chunks[k]);
        k := k + 1;
      }
      assert chunks[..k] == chunks;
      ok := true;
    }

    /** balloc_mark_used: the bits of the blocks in use, and no others, are set. The first loop
        fills one sector's buffer with all of them, hence the bound. */
    method BallocMarkUsed(used: nat)
      requires disk.Valid() && disk.sb == ImageLayout() && used <= BPB && 1 < |disk.sectors|
      modifies disk
      ensures disk.Valid() && disk.img == old(disk.img).(bits := Upto(used))
      ensures SuperKept(old(disk.sectors), disk.sectors)
    {
      hide Represents, Bit, SetInByte;
      var buf: seq<byte> := ZeroBlock();
      var i := 0;
      while i < used
        invariant 0 <= i <= used && |buf| == BSIZE
      {
        buf := buf[i / 8 := SetInByte(buf[i / 8], i % 8)];
        i := i + 1;
      }
      var j := 0;
      while j < 2
        invariant 0 <= j <= 2 && disk.Valid() && |disk.img.bits| == FSSIZE
        invariant SuperKept(old(disk.sectors), disk.sectors)
        invariant disk.img == old(disk.img).(bits := disk.img.bits)
        invariant forall b :: 0 <= b < j * BPB ==> disk.img.bits[b] == (b < used)
      {
        var sector := BitmapSector(j * BPB, used);
        ghost var before := disk.img.bits;
        BitmapWritten(disk.sectors, disk.img, j, sector, used);
        disk.sectors := disk.sectors[disk.sb.bmapstart + j := sector];
        disk.img := disk.img.(bits := WithSector(before, j, used));
        j := j + 1;
      }
      assert disk.img.bits == Upto(used);
    }
  }

  function Flatten(chunks: seq<seq<byte>>): seq<byte> {
    if chunks == [] then [] else Flatten(chunks[..|chunks| - 1]) + chunks[|chunks| - 1]
  }

  lemma {:induction false} FlattenPart(chunks: seq<seq<byte>>, k: nat)
    requires k <= |chunks|
    ensures |Flatten(chunks[..k])| <= |Flatten(chunks)|
    ensures k < |chunks| ==> Flatten(chunks[..k + 1]) == Flatten(chunks[..k]) + chunks[k]
    decreases |chunks| - k
  {
    if k == |chunks| {
      assert chunks[..k] == chunks;
    } else {
      assert chunks[..k + 1][..k] == chunks[..k];
      FlattenPart(chunks, k + 1);
    }
  }

  // A file extended and then appended to is extended by both strings.
  lemma AppendedTwice(sb: Superblock, a: State, b: State, c: State, i: nat, s: seq<byte>, t: seq<byte>)
    requires Sound(sb, a) && Sound(sb, b) && Sound(sb, c) && i < |a.trees| && |b.trees| == |a.trees|
              && |c.trees| == |a.trees|
    requires Extended(a, b, i, s) && WroteFile(b, c, i, |Contents(b, i)|, t)
    ensures Extended(a, c, i, s + t)
  {
    hide Contents;
    assert Contents(c, i) == Contents(b, i) + t == Contents(a, i) + (s + t);
  }

  ghost predicate Extended(a: State, b: State, i: nat, s: seq<byte>) {
    && i < |a.img.dins| == |b.img.dins| && |a.trees| == |b.trees| == |a.img.dins|
    && Contents(b, i) == Contents(a, i) + s
    && b.img.dins[i] == a.img.dins[i].(size := b.img.dins[i].size, addrs := b.img.dins[i].addrs)
    && (forall j: nat :: j < |a.trees| && j != i ==> b.img.dins[j] == a.img.dins[j] && Contents(b, j) == Contents(a, j))
  }

  lemma ExtendedNot(a: State, i: nat)
    requires i < |a.img.dins| == |a.trees|
    ensures Extended(a, a, i, [])
  {
    hide Contents;
    assert Contents(a, i) + [] == Contents(a, i);
  }

  lemma SyncedWeaker(st: State, i: nat)
    requires |st.trees| == |st.img.dins| && Synced(st, {})
    ensures Synced(st, {i})
  {
  }

  lemma SyncedAt(st: State, i: nat)
    requires |st.trees| == |st.img.dins| && Synced(st, {}) && i < |st.trees|
    ensures st.img.dins[i].addrs == st.trees[i]
  {
  }

  lemma SyncedDins(c: State, d: State, but: set<nat>)
    requires |c.trees| == |c.img.dins| && Synced(c, but) && d.trees == c.trees && d.img.dins == c.img.dins
    ensures Synced(d, but)
  {
  }

  lemma Appended(sb: Superblock, a: State, b: State, e: State, i: nat, src: seq<byte>)
    requires Sound(sb, a) && Synced(a, {}) && Sound(sb, b) && i < |a.trees| && i < |b.trees|
              && |b.trees| == |b.img.dins|
    requires a.img.dins[i].typ != T_FREE && Synced(b, {i})
    requires Written(a, b, i, a.img.dins[i].size, src, |src|) && a.img.dins[i].size + |src| <= MAXFILE * BSIZE
    requires e == b.(img := b.img.(dins := b.img.dins[i :=
               a.img.dins[i].(size := a.img.dins[i].size + |src|, addrs := b.trees[i])]))
    ensures Sound(sb, e) && Synced(e, {}) && WroteFile(a, e, i, a.img.dins[i].size, src)
  {
    hide Ptr, ByteAt, Owned, Written, Contents;
    var off := a.img.dins[i].size;
    WrittenDins(a, b, i, off, src, |src|);
    WrittenContents(sb, a, b, e, i, off, src);
    WrittenTrees(a, b, i, off, src);
    forall j: nat | j < |a.trees|
      ensures InodeSound(e, j)
    {
      assert InodeSound(b, j);
    }
    SizeOk(sb, a, i);
  }

  lemma AddrPtr(addrs: Addrs, words: Tables, k: nat)
    requires k < NDIRECT + 2
    ensures ValidSlot(SlotOfAddr(k)) && Ptr(addrs, words, SlotOfAddr(k)) == addrs[k]
  {
  }

  lemma SizeFree(sb: Superblock, a: State, n: nat)
    requires Sound(sb, a) && n < |a.img.dins| && a.img.dins[n].typ == T_FREE
    ensures a.img.dins[n].size == 0
  {
    hide Owned, Ptr;
    assert InodeSound(a, n);
  }

  lemma IallocSound(sb: Superblock, a: State, b: State, n: nat, typ: i16)
    requires Sound(sb, a) && Synced(a, {}) && n < sb.ninodes && a.img.dins[n].typ == T_FREE && typ != T_FREE
    requires b == a.(img := a.img.(dins := a.img.dins[n := Dinode(typ, 0, 0, 1, 0, NoAddrs())]))
    ensures Sound(sb, b) && Synced(b, {}) && b == MetaSet(ClaimedInode(a, n, typ), n, 0, 0, 1)
  {
    hide Ptr, Owned;
    assert InodeSound(a, n);
    forall j: nat | j < sb.ninodes
      ensures InodeSound(b, j)
    {
      assert InodeSound(a, j);
    }
  }
}
