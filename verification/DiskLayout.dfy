/** The on-disk format byte by byte: where the fields of a dinode, the bits of the bitmap, the entries
    of a directory and the bytes of a file lie in the raw sectors. */
module DiskLayout {
  import opened Bits
  import opened Codec
  import opened DiskFormat
  import opened BlockTree
  import opened Inodes
  import opened Dirents

  /** A dinode: four shorts, the size, and fourteen block numbers, the last two of tables. */
  lemma DinodeLayout(s: seq<byte>, off: nat)
    requires off + 68 <= |s|
    ensures var d := DecodeDinode(s, off);
            && Unsigned(d.typ) == Number2(s[off..off + 2]) && Unsigned(d.major) == Number2(s[off + 2..off + 4])
            && Unsigned(d.minor) == Number2(s[off + 4..off + 6]) && Unsigned(d.nlink) == Number2(s[off + 6..off + 8])
            && d.size == Number4(s[off + 8..off + 12])
            && forall k :: 0 <= k < 14 ==> d.addrs[k] == Number4(s[off + 12 + 4 * k..off + 16 + 4 * k])
  {
    hide Field, Number2, Number4;
    FieldNumber(s, off);
    FieldNumber(s, off + 2);
    FieldNumber(s, off + 4);
    FieldNumber(s, off + 6);
    FieldNumber(s, off + 8);
    forall k | 0 <= k < 14
      ensures Field(s, off + 12 + 4 * k, 4) == Number4(s[off + 12 + 4 * k..off + 16 + 4 * k])
    {
      FieldNumber(s, off + 12 + 4 * k);
    }
  }

  // A short in two's complement.
  lemma ShortLayout(v: i16)
    ensures 0 <= Unsigned(v) < 0x1_0000 && (Unsigned(v) == v || Unsigned(v) == v + 0x1_0000)
  {
  }

  /** Dinode i is the (i mod 7)-th of sector inodestart + i / 7. */
  lemma DinodeOnDisk(sectors: seq<Block>, sb: Superblock, img: Image, i: nat)
    requires sb.Valid() && Represents(sectors, sb, img) && i < |img.dins|
    ensures sb.inodestart + i / 7 < |sectors|
    ensures img.dins[i] == DecodeDinode(sectors[sb.inodestart + i / 7], 68 * (i % 7))
  {
    hide DecodeDinode, BlockWords, Bit;
    assert sb.IBlock(i) < sb.size && img.dins[i] == RawDinode(sectors, sb, i);
  }

  /** Block b is in use when its bit is set: the digit of weight 2^(b mod 8) in byte b mod 4096 / 8 of
      sector bmapstart + b / 4096. */
  lemma BitOnDisk(sectors: seq<Block>, sb: Superblock, img: Image, b: nat)
    requires sb.Valid() && Represents(sectors, sb, img) && b < |img.bits|
    ensures sb.bmapstart + b / 4096 < |sectors|
    ensures img.bits[b] <==> sectors[sb.bmapstart + b / 4096][b % 4096 / 8] / Pow2(b % 8) % 2 == 1
  {
    hide DecodeDinode, BlockWords, Bit;
    assert sb.BBlock(b) < sb.size && img.bits[b] == RawBit(sectors, sb, b);
    LowDigit(b);
    BitDigit(sectors[sb.bmapstart + b / 4096][b % 4096 / 8], b % 8);
  }

  lemma LowDigit(b: nat)
    ensures b % 4096 % 8 == b % 8
  {
  }

  /** Entry k of a directory: a short and fourteen bytes, of which the name is those before the first
      zero. */
  lemma DirentLayout(c: seq<byte>, k: nat)
    requires 16 * k + 16 <= |c|
    ensures k < |Entries(c)|
    ensures var e, s := Entries(c)[k], c[16 * k + 2..16 * k + 16];
            && e.inum == Number2(c[16 * k..16 * k + 2]) && |e.name| <= 14 && e.name == s[..|e.name|] && 0 !in e.name
            && (|e.name| < 14 ==> s[|e.name|] == 0)
  {
    hide Field, Number2;
    FieldNumber(c, 16 * k);
    CutAtZero(c[16 * k + 2..16 * k + 16]);
  }

  lemma {:induction false} CutAtZero(s: seq<byte>)
    ensures Cut(s) == s[..|Cut(s)|] && (|Cut(s)| < |s| ==> s[|Cut(s)|] == 0)
  {
    if s != [] && s[0] != 0 {
      CutAtZero(s[1..]);
    }
  }

  // The k-th number of a sector of block numbers; there is no block 0.
  function RawEntry(sectors: seq<Block>, t: nat, k: nat): nat
    requires k < 128
  {
    if 0 < t < |sectors| then Number4(sectors[t][4 * k..4 * k + 4]) else 0
  }

  // The k-th block number of dinode i.
  function RawAddr(sectors: seq<Block>, sb: Superblock, i: nat, k: nat): nat
    requires sb.inodestart + i / 7 < |sectors| && k < 14
  {
    var off := 68 * (i % 7) + 12 + 4 * k;
    Number4(sectors[sb.inodestart + i / 7][off..off + 4])
  }

  /** The sector of block bn of file i, from the raw sectors alone: twelve direct block numbers, 128
      behind the thirteenth, and 128 tables of 128 behind the fourteenth. */
  function RawBlock(sectors: seq<Block>, sb: Superblock, i: nat, bn: nat): nat
    requires sb.inodestart + i / 7 < |sectors| && bn < 16524
  {
    if bn < 12 then RawAddr(sectors, sb, i, bn)
    else if bn < 140 then RawEntry(sectors, RawAddr(sectors, sb, i, 12), bn - 12)
    else RawEntry(sectors, RawEntry(sectors, RawAddr(sectors, sb, i, 13), (bn - 140) / 128), (bn - 140) % 128)
  }

  lemma AddrOnDisk(sectors: seq<Block>, sb: Superblock, img: Image, i: nat, k: nat)
    requires sb.Valid() && Represents(sectors, sb, img) && i < |img.dins| && k < 14
    ensures sb.inodestart + i / 7 < |sectors| && img.dins[i].addrs[k] == RawAddr(sectors, sb, i, k)
  {
    hide DecodeDinode, Represents, Number2, Number4;
    DinodeOnDisk(sectors, sb, img, i);
    DinodeLayout(sectors[sb.inodestart + i / 7], 68 * (i % 7));
  }

  lemma EntryOnDisk(sectors: seq<Block>, sb: Superblock, img: Image, t: nat, k: nat)
    requires sb.Valid() && Represents(sectors, sb, img) && (t == 0 || sb.Meta() <= t < sb.size) && k < 128
    ensures Entry(img.words, t, k) == RawEntry(sectors, t, k)
  {
    hide DecodeDinode, Bit, Field, Number4;
    if t != 0 {
      FieldNumber(sectors[t], 4 * k);
    }
  }

  /** A file, read off the raw sectors: byte o is byte o mod 512 of the sector RawBlock finds for
      block o / 512. */
  lemma ContentsOnDisk(sectors: seq<Block>, sb: Superblock, st: State, i: nat, o: nat)
    requires Sound(sb, st) && Represents(sectors, sb, st.img) && Synced(st, {})
    requires i < |st.img.dins| && o < st.img.dins[i].size
    ensures o / 512 < 16524 && sb.inodestart + i / 7 < |sectors| && o < |Contents(st, i)|
    ensures var b := RawBlock(sectors, sb, i, o / 512);
            0 < b < |sectors| && Contents(st, i)[o] == sectors[b][o % 512]
  {
    hide Represents, Owned, Ptr;
    var bn := o / 512;
    assert InodeSound(st, i);
    assert bn * 512 <= o;
    AddrOnDisk(sectors, sb, st.img, i, 0);
    BlockOnDisk(sectors, sb, st, i, bn);
    DataOnDisk(sectors, sb, st.img, RawBlock(sectors, sb, i, bn));
  }

  lemma DataOnDisk(sectors: seq<Block>, sb: Superblock, img: Image, b: nat)
    requires sb.Valid() && Represents(sectors, sb, img) && sb.Meta() <= b < sb.size
    ensures b < |sectors| && b < |img.data| && img.data[b] == sectors[b]
  {
    hide DecodeDinode, Bit, BlockWords;
  }

  lemma BlockOnDisk(sectors: seq<Block>, sb: Superblock, st: State, i: nat, bn: nat)
    requires Sound(sb, st) && Represents(sectors, sb, st.img) && Synced(st, {})
    requires i < |st.img.dins| && bn < 16524 && Ptr(st.trees[i], st.img.words, Data(bn)) != 0
    ensures sb.inodestart + i / 7 < |sectors| && sb.Meta() <= RawBlock(sectors, sb, i, bn) < sb.size
    ensures RawBlock(sectors, sb, i, bn) == Ptr(st.trees[i], st.img.words, Data(bn))
  {
    hide Represents, Owned, InodeSound, RawAddr, RawEntry;
    var w, a := st.img.words, st.trees[i];
    TableOrData(st, sb, i, Data(bn));
    if bn < 12 {
      AddrOnDisk(sectors, sb, st.img, i, bn);
    } else if bn < 140 {
      AddrOnDisk(sectors, sb, st.img, i, 12);
      TableOrData(st, sb, i, Ind);
      EntryOnDisk(sectors, sb, st.img, a[12], bn - 12);
    } else {
      var j, k := (bn - 140) / 128, (bn - 140) % 128;
      AddrOnDisk(sectors, sb, st.img, i, 13);
      TableOrData(st, sb, i, Dbl);
      EntryOnDisk(sectors, sb, st.img, a[13], j);
      assert Ptr(a, w, Tab(j)) == Entry(w, a[13], j);
      TableOrData(st, sb, i, Tab(j));
      EntryOnDisk(sectors, sb, st.img, Entry(w, a[13], j), k);
    }
  }
}
