/** dirlookup and dirlink of kernel/xv6fs/fs.c. */
module Directory {
  import opened Wrappers
  import opened Bits
  import opened DiskFormat
  import opened Inodes
  import opened Dirents

  ghost function DirEntries(st: State, i: nat): seq<Dirent> {
    Entries(Contents(st, i))
  }

  // Inode i is a directory made of whole entries.
  ghost predicate IsDirectory(st: State, i: nat) {
    && i < |st.trees| == |st.img.dins|
    && st.img.dins[i].typ == T_DIR && st.img.dins[i].size % DIRENT == 0
    && |Contents(st, i)| == st.img.dins[i].size
  }

  // Every used entry names an inode that exists.
  ghost predicate TargetsExist(st: State, i: nat) {
    forall k :: 0 <= k < |DirEntries(st, i)| && DirEntries(st, i)[k].inum != 0 ==>
      DirEntries(st, i)[k].inum < |st.img.dins| && st.img.dins[DirEntries(st, i)[k].inum].typ != T_FREE
  }

  datatype Found = NoSuch | At(ip: nat, off: nat) | NoSlot

  // The 16 bytes at off of a directory are its entry off / 16.
  lemma EntryBytes(c: seq<byte>, off: nat, de: seq<byte>)
    requires off % DIRENT == 0 && off + DIRENT <= |c| && de == c[off..off + DIRENT]
    ensures off / DIRENT < |Entries(c)| && EntryAt(de, 0) == Entries(c)[off / DIRENT]
  {
    var k := off / DIRENT;
    assert off == DIRENT * k;
    assert de[DIRENT * 0..DIRENT * 1] == c[DIRENT * k..DIRENT * (k + 1)];
    EntryFrom(de, 0, c, k);
  }

  // One entry read; a directory never ends inside one.
  method ReadEntry(fs: FileSystem, dp: nat, ghost i: nat, off: nat) returns (de: Dirent)
    requires fs.Held(dp, i) && fs.Valid() && IsDirectory(fs.St(), i)
    requires off % DIRENT == 0 && off < fs.icache[dp].size
    modifies fs, fs.disk
    ensures fs.Valid() && fs.St() == old(fs.St()) && fs.icache == old(fs.icache)
    ensures off / DIRENT < |DirEntries(fs.St(), i)| && de == DirEntries(fs.St(), i)[off / DIRENT]
  {
    hide Sound, Represents, SlotOk, Contents, Entries, EntryAt;
    SlotTree(fs.St(), fs.icache, dp, {});
    var n, bytes := fs.Readi(dp, i, off, DIRENT);
    assert off + DIRENT <= fs.icache[dp].size;
    assert n == DIRENT;
    EntryBytes(Contents(fs.St(), i), off, bytes);
    de := EntryAt(bytes, 0);
  }

  /** A reference to the inode the name is bound to in directory dp, and the entry's offset. */
  method Dirlookup(fs: FileSystem, dp: nat, ghost i: nat, name: Name) returns (r: Found)
    requires fs.Held(dp, i) && fs.Valid() && IsDirectory(fs.St(), i) && TargetsExist(fs.St(), i)
    modifies fs, fs.disk
    ensures fs.Valid() && fs.St() == old(fs.St())
    ensures var es := DirEntries(fs.St(), i);
            match r
            case NoSuch => Find(es, name, 0) == None && fs.icache == old(fs.icache)
            case At(ip, off) =>
              && off % DIRENT == 0 && Find(es, name, 0) == Some(off / DIRENT)
              && Got(old(fs.icache), fs.icache, ip, es[off / DIRENT].inum)
            case NoSlot =>
              Find(es, name, 0).Some? && forall k :: 0 <= k < |fs.icache| ==> fs.icache[k].ref > 0
  {
    hide Sound, Represents, SlotOk, Contents, Entries, EntryAt, CacheOk, Synced;
    ghost var es := DirEntries(fs.St(), i);
    SlotTree(fs.St(), fs.icache, dp, {});
    EntryCount(fs.St(), i);
    var size := fs.icache[dp].size;
    var off := 0;
    while off < size
      invariant 0 <= off <= size && off % DIRENT == 0
      invariant fs.Held(dp, i) && fs.Valid() && fs.St() == old(fs.St()) && fs.icache == old(fs.icache)
      invariant IsDirectory(fs.St(), i)
      invariant off / DIRENT <= |es| && Find(es, name, 0) == Find(es, name, off / DIRENT)
      decreases size - off
    {
      var de := ReadEntry(fs, dp, i, off);
      if de.inum != 0 && de.name == name {
        var slot := fs.Iget(de.inum);
        if slot.None? {
          return NoSlot;
        }
        return At(slot.value, off);
      }
      off := off + DIRENT;
    }
    return NoSuch;
  }

  lemma EntryCount(st: State, i: nat)
    requires IsDirectory(st, i)
    ensures |DirEntries(st, i)| * DIRENT == st.img.dins[i].size
  {
  }

  // Directory i has entry k set; every other file and directory is as before.
  ghost predicate EntrySet(a: State, b: State, i: nat, k: nat, e: Dirent) {
    && IsDirectory(a, i) && IsDirectory(b, i) && k <= |DirEntries(a, i)|
    && DirEntries(b, i) == WithEntry(DirEntries(a, i), k, e)
    && |b.trees| == |a.trees| && |b.img.dins| == |a.img.dins|
    && b.img.dins[i] == a.img.dins[i].(size := b.img.dins[i].size, addrs := b.img.dins[i].addrs)
    && (forall j: nat :: j < |a.trees| && j != i ==>
          b.img.dins[j] == a.img.dins[j] && Contents(b, j) == Contents(a, j))
  }

  lemma WroteEntry(a: State, b: State, i: nat, k: nat, e: Dirent)
    requires IsDirectory(a, i) && k <= |DirEntries(a, i)| && e.inum < 0x1_0000
    requires WroteFile(a, b, i, DIRENT * k, EncodeEntry(e))
    ensures EntrySet(a, b, i, k, e)
  {
    hide EncodeEntry, Overwrite, Entries, Contents;
    EntryCount(a, i);
    EntryWritten(Contents(a, i), k, e);
  }

  // The slot of the inode after a write: only its size and addresses follow the inode's.
  ghost predicate SlotWritten(before: seq<Inode>, after: seq<Inode>, ip: nat, d: Dinode) {
    ip < |before| && after == before[ip := before[ip].(size := d.size, addrs := d.addrs)]
  }

  // One entry written; anything but a whole one is a panic.
  method WriteEntry(fs: FileSystem, dp: nat, ghost i: nat, k: nat, e: Dirent) returns (ok: bool)
    requires fs.Held(dp, i) && fs.Valid() && IsDirectory(fs.St(), i)
    requires DIRENT * k <= fs.icache[dp].size && e.inum < 0x1_0000
    modifies fs, fs.disk
    ensures !ok ==> DIRENT * k + DIRENT > old(fs.icache[dp].size)
    ensures !ok ==> fs.DiskFull() || DIRENT * k + DIRENT > MAXFILE * BSIZE
    ensures ok ==> fs.Held(dp, i) && fs.Valid() && EntrySet(old(fs.St()), fs.St(), i, k, e)
    ensures ok ==> i < |fs.disk.img.dins| && SlotWritten(old(fs.icache), fs.icache, dp, fs.disk.img.dins[i])
  {
    hide Sound, Represents, SlotOk, Contents, EncodeEntry, Overwrite, WroteFile;
    ghost var a := fs.St();
    SlotTree(a, fs.icache, dp, {});
    EntryCount(a, i);
    SizeOk(fs.disk.sb, a, i);
    var r := fs.Writei(dp, i, DIRENT * k, EncodeEntry(e));
    if r.Halted? || r.value != DIRENT {
      return false;
    }
    WroteEntry(a, fs.St(), i, k, e);
    SlotTree(fs.St(), fs.icache, dp, {});
    ok := true;
  }

  // The link count of what the name is bound to.
  ghost function LinksTo(st: State, i: nat, name: Name): int {
    match Lookup(DirEntries(st, i), name)
    case None => 0
    case Some(j) => if j < |st.img.dins| then st.img.dins[j].nlink else 0
  }

  lemma AfterGet(st: State, before: seq<Inode>, after: seq<Inode>, ip: nat)
    requires |st.trees| == |st.img.dins| && CacheOk(st, before, {}) && CacheOk(st, after, {})
    requires ip < NINODE && Got(before, after, ip, after[ip].inum)
    ensures after[ip].ref > 0 && after[ip].inum < |st.img.dins|
    ensures after[ip].locked ==> before[ip].ref > 0 && before[ip].locked && before[ip].inum == after[ip].inum
    ensures after[ip].valid ==> after[ip].nlink == st.img.dins[after[ip].inum].nlink
  {
    assert SlotOk(st, before[ip], {}) && SlotOk(st, after[ip], {});
  }

  /** Binds name to inum in the first free entry of directory dp, or at its end; -1 when the
      name is there already. */
  method Dirlink(fs: FileSystem, dp: nat, ghost i: nat, name: Name, inum: nat) returns (r: Outcome, ghost k: nat)
    requires fs.Held(dp, i) && fs.Valid() && IsDirectory(fs.St(), i) && TargetsExist(fs.St(), i)
    requires inum < 0x1_0000
    requires match Lookup(DirEntries(fs.St(), i), name)
             case None => true
             case Some(j) => forall m :: 0 <= m < |fs.icache| && fs.icache[m].ref > 0 && fs.icache[m].inum == j ==>
                               !fs.icache[m].locked  // the reference to it is dropped through its lock
    modifies fs, fs.disk
    ensures r.Halted? ==> fs.DiskFull() || fs.CacheFull() || old(fs.icache[dp].size) + DIRENT > MAXFILE * BSIZE
    ensures r.Returned? ==> fs.Valid() && (r.value == 0 || r.value == -1)
    ensures r.Returned? ==> (r.value == 0 <==> old(Lookup(DirEntries(fs.St(), i), name)) == None)
    ensures r.Returned? && r.value == -1 ==>
              old(LinksTo(fs.St(), i, name)) != 0 ==> fs.St() == old(fs.St())
    ensures r.Returned? && r.value == 0 ==>
              && fs.Held(dp, i) && fs.Valid()
              && k <= |old(DirEntries(fs.St(), i))|
              && (k < |old(DirEntries(fs.St(), i))| ==> old(DirEntries(fs.St(), i))[k].inum == 0)
              && (forall n :: 0 <= n < k ==> old(DirEntries(fs.St(), i))[n].inum != 0)
              && EntrySet(old(fs.St()), fs.St(), i, k, Dirent(inum, name))
              && i < |fs.disk.img.dins| && SlotWritten(old(fs.icache), fs.icache, dp, fs.disk.img.dins[i])
  {
    hide Sound, Represents, SlotOk, Contents, Entries, EntryAt, CacheOk, Synced, EntrySet;
    ghost var es := DirEntries(fs.St(), i);
    SlotTree(fs.St(), fs.icache, dp, {});
    EntryCount(fs.St(), i);
    var found := Dirlookup(fs, dp, i, name);
    if found.At? {
      AfterGet(fs.St(), old(fs.icache), fs.icache, found.ip);
      fs.Iput(found.ip);
      return Returned(-1), 0;
    }
    if found.NoSlot? {
      return Halted, 0;
    }
    var size := fs.icache[dp].size;
    var off := 0;
    while off < size
      invariant 0 <= off <= size && off % DIRENT == 0
      invariant fs.Held(dp, i) && fs.Valid() && fs.St() == old(fs.St()) && fs.icache == old(fs.icache)
      invariant IsDirectory(fs.St(), i)
      invariant forall n :: 0 <= n < off / DIRENT ==> es[n].inum != 0
      decreases size - off
    {
      var de := ReadEntry(fs, dp, i, off);
      if de.inum == 0 {
        break;
      }
      off := off + DIRENT;
    }
    k := off / DIRENT;
    var ok := WriteEntry(fs, dp, i, off / DIRENT, Dirent(inum, name));
    if !ok {
      return Halted, k;
    }
    return Returned(0), k;
  }
}
