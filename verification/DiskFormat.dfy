/** The on-disk format shared by mkfs.c and kernel/xv6fs/fs.c: superblock layout, 68-byte
    dinodes seven to a block, one bit per block, and blocks of 128 block numbers. A Disk is an
    array of 512-byte sectors; img is the same contents decoded. */
module DiskFormat {
  import opened Bits
  import opened Codec

  const BSIZE: nat := 512
  const NDIRECT: nat := 12
  const NINDIRECT: nat := 128
  const MAXFILE: nat := 16524        // 12 + 128 + 128 * 128
  const DINODE_SIZE: nat := 68
  const IPB: nat := 7
  const BPB: nat := 4096

  type Block = b: seq<byte> | |b| == BSIZE witness seq(512, i => 0)
  type u32 = x: int | 0 <= x < 0x1_0000_0000
  type i16 = x: int | -0x8000 <= x < 0x8000
  type Addrs = a: seq<u32> | |a| == NDIRECT + 2 witness seq(14, i => 0)
  type Words = w: seq<u32> | |w| == NINDIRECT witness seq(128, i => 0)

  const T_FREE: i16 := 0
  const T_DIR: i16 := 1
  const T_FILE: i16 := 2
  const T_DEV: i16 := 3

  datatype Dinode = Dinode(typ: i16, major: i16, minor: i16, nlink: i16, size: u32, addrs: Addrs)

  function NoAddrs(): (a: Addrs)
    ensures forall k :: 0 <= k < NDIRECT + 2 ==> a[k] == 0
  {
    seq(14, i => 0)
  }

  function NoWords(): (w: Words)
    ensures forall k :: 0 <= k < NINDIRECT ==> w[k] == 0
  {
    seq(128, i => 0)
  }

  function ZeroBlock(): (b: Block)
    ensures forall k :: 0 <= k < BSIZE ==> b[k] == 0
  {
    seq(512, i => 0)
  }

  // The fields of the superblock the file system uses; all blocks below Meta() are metadata.
  datatype Superblock = Superblock(size: nat, nblocks: nat, ninodes: nat, inodestart: nat, bmapstart: nat) {
    function Meta(): int { size - nblocks }

    ghost predicate Valid() {
      && 0 < Meta() <= size < 0x1_0000_0000
      && 2 <= ninodes <= 0x1_0000        // directory entries hold 16-bit inode numbers
      && 2 <= inodestart
      && inodestart + (ninodes - 1) / IPB < bmapstart
      && bmapstart + (size - 1) / BPB < Meta()
    }

    function IBlock(inum: nat): nat { inum / IPB + inodestart }
    function BBlock(b: nat): nat { b / BPB + bmapstart }
  }

  lemma Layout(sb: Superblock, b: nat, inum: nat)
    requires sb.Valid() && b < sb.size && inum < sb.ninodes
    ensures sb.IBlock(inum) < sb.bmapstart <= sb.BBlock(b) < sb.Meta() <= sb.size
  {
    assert inum / IPB <= (sb.ninodes - 1) / IPB;
    assert b / BPB <= (sb.size - 1) / BPB;
  }

  function Unsigned(v: i16): nat { if v < 0 then v + 0x1_0000 else v }
  function Signed(v: nat): i16
    requires v < 0x1_0000
  {
    if v < 0x8000 then v else v - 0x1_0000
  }

  function EncodeWords(a: seq<u32>): (s: seq<byte>)
    ensures |s| == 4 * |a|
  {
    if |a| == 0 then [] else EncodeWords(a[..|a| - 1]) + Encode(a[|a| - 1], 4)
  }

  function EncodeDinode(d: Dinode): (s: seq<byte>)
    ensures |s| == DINODE_SIZE
  {
    Encode(Unsigned(d.typ), 2) + Encode(Unsigned(d.major), 2) + Encode(Unsigned(d.minor), 2)
    + Encode(Unsigned(d.nlink), 2) + Encode(d.size, 4) + EncodeWords(d.addrs)
  }

  lemma WidthOf()
    ensures Pow256(2) == 0x1_0000 && Pow256(4) == 0x1_0000_0000
  {
  }

  function Field16(s: seq<byte>, off: nat): i16
    requires off + 2 <= |s|
  {
    WidthOf();
    Signed(Field(s, off, 2))
  }

  function Field32(s: seq<byte>, off: nat): u32
    requires off + 4 <= |s|
  {
    WidthOf();
    Field(s, off, 4)
  }

  function DecodeDinode(s: seq<byte>, off: nat): Dinode
    requires off + DINODE_SIZE <= |s|
  {
    Dinode(Field16(s, off), Field16(s, off + 2), Field16(s, off + 4), Field16(s, off + 6),
           Field32(s, off + 8), seq<u32>(14, i requires 0 <= i < 14 => Field32(s, off + 12 + 4 * i)))
  }

  lemma {:induction false} WordsRoundTrip(a: seq<u32>, i: nat)
    requires i < |a|
    ensures Field32(EncodeWords(a), 4 * i) == a[i]
  {
    var n := |a| - 1;
    var init, last := EncodeWords(a[..n]), Encode(a[n], 4);
    var s := EncodeWords(a);
    assert s == init + last;
    WidthOf();
    if i == n {
      FieldFrom(s, 4 * n, last, 0, 4);
      DecodeEncode(a[n], 4);
    } else {
      WordsRoundTrip(a[..n], i);
      assert s[4 * i..4 * i + 4] == init[4 * i..4 * i + 4];
      FieldFrom(s, 4 * i, init, 4 * i, 4);
    }
  }

  lemma Field16RoundTrip(s: seq<byte>, off: nat, v: i16)
    requires off + 2 <= |s| && s[off..off + 2] == Encode(Unsigned(v), 2)
    ensures Field16(s, off) == v
  {
    WidthOf();
    var e := Encode(Unsigned(v), 2);
    assert e[0..2] == e;
    FieldFrom(s, off, e, 0, 2);
    DecodeEncode(Unsigned(v), 2);
  }

  /** A dinode read back from where it was written is the one written. */
  lemma DinodeRoundTrip(d: Dinode)
    ensures DecodeDinode(EncodeDinode(d), 0) == d
  {
    hide Field16, Field32, Encode, EncodeWords;
    var s := EncodeDinode(d);
    Field16RoundTrip(s, 0, d.typ);
    Field16RoundTrip(s, 2, d.major);
    Field16RoundTrip(s, 4, d.minor);
    Field16RoundTrip(s, 6, d.nlink);
    SizeRoundTrip(d);
    forall i | 0 <= i < 14
      ensures Field32(s, 12 + 4 * i) == d.addrs[i]
    {
      AddrRoundTrip(d, i);
    }
    assert DecodeDinode(s, 0).addrs == d.addrs;
  }

  lemma SizeRoundTrip(d: Dinode)
    ensures Field32(EncodeDinode(d), 8) == d.size
  {
    WidthOf();
    var s, e := EncodeDinode(d), Encode(d.size, 4);
    assert s[8..12] == e == e[0..4];
    FieldFrom(s, 8, e, 0, 4);
    DecodeEncode(d.size, 4);
  }

  lemma AddrRoundTrip(d: Dinode, i: nat)
    requires i < 14
    ensures Field32(EncodeDinode(d), 12 + 4 * i) == d.addrs[i]
  {
    var s, e := EncodeDinode(d), EncodeWords(d.addrs);
    assert s[12..68] == e;
    assert s[12 + 4 * i..12 + 4 * i + 4] == e[4 * i..4 * i + 4];
    FieldFrom(s, 12 + 4 * i, e, 4 * i, 4);
    WordsRoundTrip(d.addrs, i);
  }

  lemma SliceOfSlice<T>(s: seq<T>, off: nat, n: nat, k: nat, w: nat)
    requires off + n <= |s| && k + w <= n
    ensures s[off..off + n][k..k + w] == s[off + k..off + k + w]
  {
    var a, b := s[off..off + n][k..k + w], s[off + k..off + k + w];
    assert |a| == |b| == w;
    forall m | 0 <= m < w
      ensures a[m] == b[m]
    {
      assert a[m] == s[off..off + n][k + m] == s[off + (k + m)];
    }
  }

  lemma PartField(s: seq<byte>, off: nat, t: seq<byte>, off': nat, n: nat, k: nat, w: nat)
    requires off + n <= |s| && off' + n <= |t| && k + w <= n
    requires s[off..off + n] == t[off'..off' + n]
    ensures Field(s, off + k, w) == Field(t, off' + k, w)
  {
    SliceOfSlice(s, off, n, k, w);
    SliceOfSlice(t, off', n, k, w);
    FieldFrom(s, off + k, t, off' + k, w);
  }

  lemma DinodeFrom(s: seq<byte>, off: nat, t: seq<byte>, off': nat)
    requires off + DINODE_SIZE <= |s| && off' + DINODE_SIZE <= |t|
    requires s[off..off + DINODE_SIZE] == t[off'..off' + DINODE_SIZE]
    ensures DecodeDinode(s, off) == DecodeDinode(t, off')
  {
    hide Field;
    PartField(s, off, t, off', DINODE_SIZE, 0, 2);
    PartField(s, off, t, off', DINODE_SIZE, 2, 2);
    PartField(s, off, t, off', DINODE_SIZE, 4, 2);
    PartField(s, off, t, off', DINODE_SIZE, 6, 2);
    PartField(s, off, t, off', DINODE_SIZE, 8, 4);
    forall i | 0 <= i < 14
      ensures Field32(s, off + 12 + 4 * i) == Field32(t, off' + 12 + 4 * i)
    {
      PartField(s, off, t, off', DINODE_SIZE, 12 + 4 * i, 4);
    }
    assert DecodeDinode(s, off).addrs == DecodeDinode(t, off').addrs;
  }

  // A block as 128 block numbers.
  function BlockWords(b: Block): Words {
    seq<u32>(128, i requires 0 <= i < 128 => Field32(b, 4 * i))
  }

  lemma ZeroBlockWords()
    ensures BlockWords(ZeroBlock()) == NoWords()
  {
    forall i | 0 <= i < 128
      ensures Field32(ZeroBlock(), 4 * i) == 0
    {
      ZeroField(ZeroBlock(), 4 * i, 4);
    }
  }

  lemma WordWritten(b: Block, i: nat, v: u32)
    requires i < NINDIRECT
    ensures BlockWords(Splice(b, 4 * i, Encode(v, 4))) == BlockWords(b)[i := v]
  {
    var e := Encode(v, 4);
    var b' := Splice(b, 4 * i, e);
    WidthOf();
    forall k | 0 <= k < 128
      ensures Field32(b', 4 * k) == if k == i then v else Field32(b, 4 * k)
    {
      if k == i {
        assert b'[4 * k..4 * k + 4] == e == e[0..4];
        FieldFrom(b', 4 * k, e, 0, 4);
        DecodeEncode(v, 4);
      } else {
        assert b'[4 * k..4 * k + 4] == b[4 * k..4 * k + 4];
        FieldFrom(b', 4 * k, b, 4 * k, 4);
      }
    }
  }

  // The disk decoded: block bitmap, dinodes, and each block above the metadata both as bytes
  // and as words. Entries of data and words below the metadata boundary mean nothing.
  datatype Image = Image(bits: seq<bool>, dins: seq<Dinode>, data: seq<Block>, words: seq<Words>)

  predicate RawBit(sectors: seq<Block>, sb: Superblock, b: nat)
    requires sb.BBlock(b) < |sectors|
  {
    Bit(sectors[sb.BBlock(b)][b % BPB / 8], b % BPB % 8)
  }

  function RawDinode(sectors: seq<Block>, sb: Superblock, inum: nat): Dinode
    requires sb.IBlock(inum) < |sectors|
  {
    DecodeDinode(sectors[sb.IBlock(inum)], inum % IPB * DINODE_SIZE)
  }

  ghost predicate Sized(sb: Superblock, img: Image) {
    |img.bits| == |img.data| == |img.words| == sb.size && |img.dins| == sb.ninodes
  }

  ghost predicate Represents(sectors: seq<Block>, sb: Superblock, img: Image)
    requires sb.Valid()
  {
    && |sectors| == sb.size && Sized(sb, img)
    && (forall b: nat :: b < sb.size ==>
          sb.BBlock(b) < sb.size && img.bits[b] == RawBit(sectors, sb, b))
    && (forall i: nat :: i < sb.ninodes ==>
          sb.IBlock(i) < sb.size && img.dins[i] == RawDinode(sectors, sb, i))
    && (forall b: nat :: sb.Meta() <= b < sb.size ==>
          img.data[b] == sectors[b] && img.words[b] == BlockWords(sectors[b]))
  }

  lemma BitWritten(sectors: seq<Block>, sb: Superblock, img: Image, b: nat, v: bool, sectors': seq<Block>)
    requires sb.Valid() && Represents(sectors, sb, img) && b < sb.size
    requires var k, bi := sb.BBlock(b), b % BPB;
             sb.BBlock(b) < sb.size &&
             sectors' == sectors[k := sectors[k][bi / 8 :=
               if v then SetInByte(sectors[k][bi / 8], bi % 8) else ClearInByte(sectors[k][bi / 8], bi % 8)]]
    ensures Represents(sectors', sb, img.(bits := img.bits[b := v]))
  {
    hide DecodeDinode, BlockWords, Bit;
    forall c: nat | c < sb.size
      ensures sb.BBlock(c) < sb.size
      ensures RawBit(sectors', sb, c) == if c == b then v else RawBit(sectors, sb, c)
    {
      Layout(sb, c, 0);
      SetOneBit(sectors[sb.BBlock(b)][b % BPB / 8], b % BPB % 8, c % BPB % 8);
      ClearOneBit(sectors[sb.BBlock(b)][b % BPB / 8], b % BPB % 8, c % BPB % 8);
      BitPlace(b, c);
    }
    forall i: nat | i < sb.ninodes
      ensures sb.IBlock(i) < sb.size && RawDinode(sectors', sb, i) == RawDinode(sectors, sb, i)
    {
      Layout(sb, b, i);
    }
    Layout(sb, b, 0);
  }

  lemma BitPlace(b: nat, c: nat)
    ensures b / BPB == c / BPB && b % BPB / 8 == c % BPB / 8 && b % BPB % 8 == c % BPB % 8 ==> b == c
  {
    assert b == b / BPB * BPB + b % BPB && c == c / BPB * BPB + c % BPB;
    assert b % BPB == b % BPB / 8 * 8 + b % BPB % 8;
    assert c % BPB == c % BPB / 8 * 8 + c % BPB % 8;
  }

  lemma DinodeWritten(sectors: seq<Block>, sb: Superblock, img: Image, inum: nat, d: Dinode, sectors': seq<Block>)
    requires sb.Valid() && Represents(sectors, sb, img) && inum < sb.ninodes && sb.IBlock(inum) < sb.size
    requires var k := sb.IBlock(inum);
             sectors' == sectors[k := Splice(sectors[k], inum % IPB * DINODE_SIZE, EncodeDinode(d))]
    ensures Represents(sectors', sb, img.(dins := img.dins[inum := d]))
  {
    hide DecodeDinode, EncodeDinode, BlockWords, Bit;
    var k, e := sb.IBlock(inum), EncodeDinode(d);
    var at := inum % IPB * DINODE_SIZE;
    forall i: nat | i < sb.ninodes
      ensures sb.IBlock(i) < sb.size
      ensures RawDinode(sectors', sb, i) == if i == inum then d else RawDinode(sectors, sb, i)
    {
      Layout(sb, 0, i);
      var off := i % IPB * DINODE_SIZE;
      if i == inum {
        assert sectors'[k][at..at + DINODE_SIZE] == e == e[0..DINODE_SIZE];
        DinodeFrom(sectors'[k], at, e, 0);
        DinodeRoundTrip(d);
      } else if sb.IBlock(i) == k {
        DinodePlace(i, inum);
        assert sectors'[k][off..off + DINODE_SIZE] == sectors[k][off..off + DINODE_SIZE];
        DinodeFrom(sectors'[k], off, sectors[k], off);
      }
    }
    forall b: nat | b < sb.size
      ensures sb.BBlock(b) < sb.size && RawBit(sectors', sb, b) == RawBit(sectors, sb, b)
    {
      Layout(sb, b, inum);
    }
    Layout(sb, 0, inum);
  }

  lemma DinodePlace(i: nat, j: nat)
    requires i / IPB == j / IPB && i != j
    ensures i % IPB * DINODE_SIZE + DINODE_SIZE <= j % IPB * DINODE_SIZE ||
            j % IPB * DINODE_SIZE + DINODE_SIZE <= i % IPB * DINODE_SIZE
  {
    assert i == i / IPB * IPB + i % IPB && j == j / IPB * IPB + j % IPB;
  }

  lemma DataWritten(sectors: seq<Block>, sb: Superblock, img: Image, b: nat, blk: Block, sectors': seq<Block>)
    requires sb.Valid() && Represents(sectors, sb, img) && sb.Meta() <= b < sb.size
    requires sectors' == sectors[b := blk]
    ensures Represents(sectors', sb, img.(data := img.data[b := blk], words := img.words[b := BlockWords(blk)]))
  {
    hide DecodeDinode, BlockWords, Bit;
    forall c: nat | c < sb.size
      ensures sb.BBlock(c) < sb.size && RawBit(sectors', sb, c) == RawBit(sectors, sb, c)
    {
      Layout(sb, c, 0);
    }
    forall i: nat | i < sb.ninodes
      ensures sb.IBlock(i) < sb.size && RawDinode(sectors', sb, i) == RawDinode(sectors, sb, i)
    {
      Layout(sb, 0, i);
    }
  }

  // The superblock's sector is what it was.
  predicate SuperKept(before: seq<Block>, after: seq<Block>) {
    1 < |before| == |after| && after[1] == before[1]
  }

  /** The disk with the few accesses the file system makes of it, each on raw bytes and each
      specified on the decoded image. A sector is read and written whole (bread, log_write). */
  class Disk {
    const sb: Superblock
    var sectors: seq<Block>
    ghost var img: Image

    ghost predicate Valid()
      reads this
    {
      sb.Valid() && Sized(sb, img) && Represents(sectors, sb, img)
    }

    constructor (sb: Superblock, sectors: seq<Block>, ghost img: Image)
      requires sb.Valid() && Represents(sectors, sb, img)
      ensures Valid() && this.sb == sb && this.sectors == sectors && this.img == img
    {
      this.sb, this.sectors, this.img := sb, sectors, img;
    }

    method TestBit(b: nat) returns (v: bool)
      requires Valid() && b < sb.size
      ensures v == img.bits[b]
    {
      hide DecodeDinode, BlockWords, Bit;
      var bi := b % BPB;
      v := Bit(sectors[sb.BBlock(b)][bi / 8], bi % 8);
    }

    method SetBit(b: nat)
      requires Valid() && b < sb.size
      modifies this
      ensures SuperKept(old(sectors), sectors)
      ensures Valid() && img == old(img).(bits := old(img).bits[b := true])
    {
      hide RawBit, RawDinode, BlockWords, SetInByte, ClearInByte;
      var k, bi := sb.BBlock(b), b % BPB;
      assert k < sb.size;
      ghost var before := sectors;
      sectors := sectors[k := sectors[k][bi / 8 := SetInByte(sectors[k][bi / 8], bi % 8)]];
      BitWritten(before, sb, img, b, true, sectors);
      img := img.(bits := img.bits[b := true]);
    }

    method ClearBit(b: nat)
      requires Valid() && b < sb.size
      modifies this
      ensures SuperKept(old(sectors), sectors)
      ensures Valid() && img == old(img).(bits := old(img).bits[b := false])
    {
      hide RawBit, RawDinode, BlockWords, SetInByte, ClearInByte;
      var k, bi := sb.BBlock(b), b % BPB;
      assert k < sb.size;
      ghost var before := sectors;
      sectors := sectors[k := sectors[k][bi / 8 := ClearInByte(sectors[k][bi / 8], bi % 8)]];
      BitWritten(before, sb, img, b, false, sectors);
      img := img.(bits := img.bits[b := false]);
    }

    method ClearBlock(b: nat)
      requires Valid() && sb.Meta() <= b < sb.size
      modifies this
      ensures SuperKept(old(sectors), sectors)
      ensures Valid()
      ensures img == old(img).(data := old(img).data[b := ZeroBlock()], words := old(img).words[b := NoWords()])
    {
      hide RawBit, RawDinode, BlockWords;
      ghost var before := sectors;
      sectors := sectors[b := ZeroBlock()];
      DataWritten(before, sb, img, b, ZeroBlock(), sectors);
      ZeroBlockWords();
      img := img.(data := img.data[b := ZeroBlock()], words := img.words[b := NoWords()]);
    }

    method GetWord(b: nat, i: nat) returns (v: u32)
      requires Valid() && sb.Meta() <= b < sb.size && i < NINDIRECT
      ensures v == img.words[b][i]
    {
      hide RawBit, RawDinode;
      v := Field32(sectors[b], 4 * i);
    }

    method SetWord(b: nat, i: nat, v: u32)
      requires Valid() && sb.Meta() <= b < sb.size && i < NINDIRECT
      modifies this
      ensures SuperKept(old(sectors), sectors)
      ensures Valid() && Sized(sb, img)
      ensures img == old(img).(data := old(img).data[b := img.data[b]],
                               words := old(img).words[b := old(img).words[b][i := v]])
    {
      hide RawBit, RawDinode, BlockWords;
      ghost var before := sectors;
      var blk: Block := Splice(sectors[b], 4 * i, Encode(v, 4));
      sectors := sectors[b := blk];
      DataWritten(before, sb, img, b, blk, sectors);
      WordWritten(before[b], i, v);
      img := img.(data := img.data[b := blk], words := img.words[b := img.words[b][i := v]]);
    }

    method GetDinode(inum: nat) returns (d: Dinode)
      requires Valid() && inum < sb.ninodes
      ensures d == img.dins[inum]
    {
      hide RawBit, DecodeDinode, BlockWords;
      d := DecodeDinode(sectors[sb.IBlock(inum)], inum % IPB * DINODE_SIZE);
    }

    method PutDinode(inum: nat, d: Dinode)
      requires Valid() && inum < sb.ninodes
      modifies this
      ensures SuperKept(old(sectors), sectors)
      ensures Valid() && img == old(img).(dins := old(img).dins[inum := d])
    {
      hide RawBit, RawDinode, BlockWords;
      var k := sb.IBlock(inum);
      ghost var before := sectors;
      sectors := sectors[k := Splice(sectors[k], inum % IPB * DINODE_SIZE, EncodeDinode(d))];
      DinodeWritten(before, sb, img, inum, d, sectors);
      img := img.(dins := img.dins[inum := d]);
    }

    method GetBytes(b: nat, off: nat, n: nat) returns (s: seq<byte>)
      requires Valid() && sb.Meta() <= b < sb.size && off + n <= BSIZE
      ensures s == img.data[b][off..off + n]
    {
      hide RawBit, RawDinode, BlockWords;
      s := sectors[b][off..off + n];
    }

    method PutBytes(b: nat, off: nat, s: seq<byte>)
      requires Valid() && sb.Meta() <= b < sb.size && off + |s| <= BSIZE
      modifies this
      ensures SuperKept(old(sectors), sectors)
      ensures Valid() && Sized(sb, img)
      ensures img == old(img).(data := old(img).data[b := Splice(old(img).data[b], off, s)],
                               words := old(img).words[b := img.words[b]])
    {
      hide RawBit, RawDinode, BlockWords;
      ghost var before := sectors;
      var blk: Block := Splice(sectors[b], off, s);
      sectors := sectors[b := blk];
      DataWritten(before, sb, img, b, blk, sectors);
      img := img.(data := img.data[b := blk], words := img.words[b := BlockWords(blk)]);
    }
  }
}
