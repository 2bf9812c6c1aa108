/** xv6fs_create and xv6fs_unlink of kernel/Xjail/xv6/xv6fs_ops.c, step by step. */
module CreateUnlink {
  import opened Wrappers
  import opened DiskFormat
  import opened Inodes
  import opened Dirents
  import opened Directory
  import opened Paths
  import opened PathWalk
  import opened Tree
  import opened NameTree
  import opened References
  import opened Namespace

  // The directory a path's last name is in, and that name.
  ghost function Target(st: State, path: Path, cwd: nat): Option<nat> {
    ResolveParent(st, Origin(path, cwd), Components(path))
  }

  ghost function LastName(path: Path): Name {
    var names := Components(path);
    if names != [] && IsName(names[|names| - 1]) then names[|names| - 1] else []
  }

  // Where a panic stops an operation: out of blocks, inodes, cache slots, or room in a file.
  ghost predicate Exhausted(fs: FileSystem, before: State)
    reads fs, fs.disk
  {
    || fs.DiskFull() || fs.CacheFull()
    || (forall n :: 0 < n < |before.img.dins| ==> before.img.dins[n].typ != T_FREE)
    || (exists d :: 0 <= d < |before.img.dins| && before.img.dins[d].size + DIRENT > MAXFILE * BSIZE)
  }

  lemma HeldSlot(st: State, icache: seq<Inode>, ip: nat)
    requires |st.trees| == |st.img.dins| && CacheOk(st, icache, {}) && ip < |icache|
    requires icache[ip].ref > 0 && icache[ip].valid
    ensures var i := icache[ip].inum;
            && 0 < i < |st.trees| && st.img.dins[i].typ != T_FREE && icache[ip].OnDisk() == st.img.dins[i]
  {
    SlotTree(st, icache, ip, {});
  }

  lemma WrittenHeld(a: seq<Inode>, b: seq<Inode>, ip: nat, d: Dinode)
    requires |a| == NINODE && SlotWritten(a, b, ip, d)
    ensures SlotsHeld(a, b)
  {
  }

  // A directory of at most one entry, its own ".".
  lemma StartedDirectory(st: State, n: nat, name: Name)
    requires name != DOT || DirEntries(st, n) == []
    requires IsDirectory(st, n) && (DirEntries(st, n) == [] || DirEntries(st, n) == [Dirent(n, DOT)])
    ensures TargetsExist(st, n) && Lookup(DirEntries(st, n), name) == None
    ensures n < |st.img.dins| && st.img.dins[n].size == DIRENT * |DirEntries(st, n)|
  {
    EntryCount(st, n);
  }

  lemma FirstEntry(a: State, b: State, n: nat, k: nat, e: Dirent)
    requires DirEntries(a, n) == [] && EntrySet(a, b, n, k, e)
    ensures k == 0 && DirEntries(b, n) == [e] && IsDirectory(b, n)
  {
    hide Contents;
  }

  // Two entries added to an empty directory n.
  lemma DotsAdded(a: State, b: State, c: State, n: nat, dinum: nat, k: nat)
    requires n < |a.img.dins| && DirEntries(a, n) == [] && EntrySet(a, b, n, 0, Dirent(n, DOT))
    requires EntrySet(b, c, n, k, Dirent(dinum, DOTDOT)) && n > 0
    requires k < |DirEntries(b, n)| ==> DirEntries(b, n)[k].inum == 0
    ensures FilesKept(a, c, {n}) && IsDirectory(c, n)
    ensures c.img.dins[n].major == a.img.dins[n].major && c.img.dins[n].minor == a.img.dins[n].minor
    ensures ViewOf(c) == ViewOf(a)[n := Node(T_DIR, a.img.dins[n].nlink, NewEntries(n, dinum, T_DIR))]
    ensures forall d: nat :: d < |a.img.dins| && IsDirectory(a, d) ==> IsDirectory(c, d)
  {
    hide Contents, IsDirectory, DirEntries, ViewOf;
    ViewEntry(a, b, n, 0, Dirent(n, DOT));
    ViewEntry(b, c, n, k, Dirent(dinum, DOTDOT));
    KeptTwice(a, b, c, {n}, {n}, {n});
    assert k == 1;
    ViewAt(a, n);
    ViewAt(b, n);
    ViewAt(c, n);
    assert DirEntries(b, n) == [Dirent(n, DOT)];
    assert ViewOf(c)[n].entries == NewEntries(n, dinum, T_DIR);
  }

  // The entries "." and ".." of a new directory, which had none:
  // neither fails.
  method DotEntries(fs: FileSystem, ip: nat, ghost n: nat, dinum: nat) returns (ok: bool)
    requires fs.Held(ip, n) && fs.Valid() && n < |fs.disk.img.dins| && fs.disk.img.dins[n].typ == T_DIR
    requires IsDirectory(fs.St(), n) && DirEntries(fs.St(), n) == []
    requires 0 < n < 0x1_0000 && dinum < 0x1_0000
    modifies fs, fs.disk
    ensures !ok ==> fs.DiskFull() || fs.CacheFull()
    ensures ok ==> fs.Held(ip, n) && fs.Valid() && IsDirectory(fs.St(), n)
    ensures ok ==> fs.disk.img.dins[n].major == old(fs.disk.img.dins)[n].major
    ensures ok ==> fs.disk.img.dins[n].minor == old(fs.disk.img.dins)[n].minor
    ensures ok ==> FilesKept(old(fs.St()), fs.St(), {n}) && SlotsHeld(old(fs.icache), fs.icache)
    ensures ok ==> ViewOf(fs.St()) ==
                   old(ViewOf(fs.St()))[n := Node(T_DIR, old(fs.disk.img.dins)[n].nlink, NewEntries(n, dinum, T_DIR))]
    ensures ok ==> forall d: nat :: d < |fs.disk.img.dins| && old(IsDirectory(fs.St(), d)) ==> IsDirectory(fs.St(), d)
  {
    hide Sound, Represents, SlotOk, Contents, DirEntries, CacheOk, Synced, EntrySet, IsDirectory, TargetsExist, Lookup;
    hide ViewOf, FilesKept, SlotsHeld, SlotWritten;
    ghost var a, c0 := fs.St(), fs.icache;
    HeldSlot(a, c0, ip);
    StartedDirectory(a, n, DOT);
    var inum := fs.icache[ip].inum;
    var r, k := Dirlink(fs, ip, n, DOT, inum);
    if r.Halted? {
      return false;
    }
    ghost var b, c1 := fs.St(), fs.icache;
    WrittenHeld(c0, c1, ip, b.img.dins[n]);
    FirstEntry(a, b, n, k, Dirent(n, DOT));
    StartedDirectory(b, n, DOTDOT);
    HeldSlot(b, c1, ip);
    r, k := Dirlink(fs, ip, n, DOTDOT, dinum);
    if r.Halted? {
      return false;
    }
    WrittenHeld(c1, fs.icache, ip, fs.disk.img.dins[n]);
    HeldTwice(c0, c1, fs.icache);
    DotsAdded(a, b, fs.St(), n, dinum, k);
    ok := true;
  }

  /** What create does when the name was not there: the lowest free inode gets the type asked for,
      one link and no bytes but a directory's two entries; the first free entry of the parent
      names it; the tree and every other file stay as they were. */
  ghost predicate Created(a: State, b: State, t: Places, d: nat, k: nat, n: nat, name: Name,
                          typ: i16, major: i16, minor: i16) {
    && |a.img.dins| == |b.img.dins| && d in t && d < |a.img.dins| && 0 < n < |a.img.dins| && d != n
    && a.img.dins[n].typ == T_FREE && (forall m :: 0 < m < n ==> a.img.dins[m].typ != T_FREE)
    && k <= |ViewOf(a)[d].entries| && FirstFree(ViewOf(a)[d].entries, k) && Lookup(ViewOf(a)[d].entries, name) == None
    && ViewOf(b) == AfterCreate(ViewOf(a), d, k, n, name, typ)
    && NamespaceOk(b, TreeAfterCreate(t, d, k, n, typ))
    && FilesKept(a, b, {d, n}) && b.img.dins[n].major == major && b.img.dins[n].minor == minor
    && (typ == T_FILE ==> b.img.dins[n].size == 0)
  }

  predicate FirstFree(es: seq<Dirent>, k: nat) {
    && (k < |es| ==> es[k].inum == 0)
    && forall m :: 0 <= m < k && m < |es| ==> es[m].inum != 0
  }

  // The new inode is there, with its links counted, but no entry names it yet.
  ghost predicate Prepared(a: State, b: State, d: nat, n: nat, typ: i16, major: i16, minor: i16) {
    && |a.img.dins| == |b.img.dins| && d < |a.img.dins| && n < |a.img.dins| && d != n
    && ViewOf(b) == ViewOf(a)[n := Node(typ, 1, NewEntries(n, d, typ))]
                             [d := ViewOf(a)[d].(nlink := ViewOf(a)[d].nlink + if typ == T_DIR then 1 else 0)]
    && FilesKept(a, b, {d, n}) && b.img.dins[n].major == major && b.img.dins[n].minor == minor
    && (typ == T_FILE ==> b.img.dins[n].size == 0)
    && (forall e: nat :: e < |a.img.dins| && IsDirectory(a, e) ==> IsDirectory(b, e))
    && (typ == T_DIR ==> IsDirectory(b, n))
  }

  lemma Claiming(sb: Superblock, a: State, d: nat, n: nat, typ: i16, major: i16, minor: i16)
    requires Sound(sb, a) && d < |a.img.dins| && 0 < n < |a.img.dins| && d != n && a.img.dins[n].typ == T_FREE
    ensures var b := MetaSet(ClaimedInode(a, n, typ), n, major, minor, 1);
            && ViewOf(b) == ViewOf(a)[n := Node(typ, 1, [])] && FilesKept(a, b, {n}) && DirEntries(b, n) == []
            && (forall e: nat :: e < |a.img.dins| && IsDirectory(a, e) ==> IsDirectory(b, e))
            && (typ == T_DIR ==> IsDirectory(b, n))
  {
    hide Sound, ViewOf, IsDirectory, Contents, DirEntries;
    var c := ClaimedInode(a, n, typ);
    var b := MetaSet(c, n, major, minor, 1);
    assert |a.trees| == |a.img.dins| by { Sizes(sb, a); }
    ViewClaim(sb, a, n, typ);
    ViewMeta(c, n, major, minor, 1);
    KeptTwice(a, c, b, {n}, {n}, {n});
    NoContents(b, n);
    forall e: nat | e < |a.img.dins| && IsDirectory(a, e)
      ensures e != n
    {
      DirectoryTyped(a, e);
    }
    ViewAt(c, n);
  }

  lemma Sizes(sb: Superblock, a: State)
    requires Sound(sb, a)
    ensures |a.trees| == |a.img.dins| == sb.ninodes <= 0x1_0000
  {
  }

  lemma PreparedFile(sb: Superblock, a: State, d: nat, n: nat, typ: i16, major: i16, minor: i16)
    requires Sound(sb, a) && d < |a.img.dins| && 0 < n < |a.img.dins| && d != n && a.img.dins[n].typ == T_FREE
    requires typ == T_FILE
    ensures Prepared(a, MetaSet(ClaimedInode(a, n, typ), n, major, minor, 1), d, n, typ, major, minor)
  {
    hide Sound, ViewOf, IsDirectory, Contents, DirEntries;
    var b := MetaSet(ClaimedInode(a, n, typ), n, major, minor, 1);
    Claiming(sb, a, d, n, typ, major, minor);
    KeptTwice(a, b, b, {n}, {}, {d, n}) by { KeptSelf(a, b); }
    ViewAt(a, d);
  }

  lemma KeptSelf(a: State, b: State)
    requires |a.trees| == |a.img.dins| == |b.img.dins| == |b.trees|
    ensures FilesKept(b, b, {})
  {
  }

  lemma PreparedDir(sb: Superblock, a: State, b: State, c: State, e: State, d: nat, n: nat, typ: i16,
                    major: i16, minor: i16, dmajor: i16, dminor: i16, dnlink: i16)
    requires Sound(sb, a) && d < |a.img.dins| && 0 < n < |a.img.dins| && d != n && a.img.dins[n].typ == T_FREE
    requires typ == T_DIR && b == MetaSet(ClaimedInode(a, n, typ), n, major, minor, 1)
    requires dnlink == a.img.dins[d].nlink + 1 && c == MetaSet(b, d, dmajor, dminor, dnlink)
    requires FilesKept(c, e, {n}) && IsDirectory(e, n)
    requires e.img.dins[n].major == c.img.dins[n].major && e.img.dins[n].minor == c.img.dins[n].minor
    requires ViewOf(e) == ViewOf(c)[n := Node(T_DIR, c.img.dins[n].nlink, NewEntries(n, d, T_DIR))]
    requires forall m: nat :: m < |c.img.dins| && IsDirectory(c, m) ==> IsDirectory(e, m)
    ensures Prepared(a, e, d, n, typ, major, minor)
  {
    hide Sound, ViewOf, IsDirectory, Contents, DirEntries, NewEntries;
    assert |a.trees| == |a.img.dins| by { Sizes(sb, a); }
    Claiming(sb, a, d, n, typ, major, minor);
    ViewMeta(b, d, dmajor, dminor, dnlink);
    KeptTwice(a, b, c, {n}, {d}, {d, n});
    KeptTwice(a, c, e, {d, n}, {n}, {d, n});
    ViewAt(a, d);
    ViewAt(b, d);
  }

  // The parent, just before the new inode is linked in.
  lemma PreparedParent(a: State, b: State, t: Places, d: nat, n: nat, name: Name, typ: i16, major: i16, minor: i16)
    requires NamespaceOk(a, t) && d in t && Prepared(a, b, d, n, typ, major, minor)
    requires (typ == T_DIR || typ == T_FILE) && Lookup(DirEntries(a, d), name) == None
    ensures IsDirectory(b, d) && TargetsExist(b, d) && DirEntries(b, d) == DirEntries(a, d)
    ensures Lookup(DirEntries(b, d), name) == None
  {
    hide ViewOf, IsDirectory, Contents, DirEntries, NewEntries, TreeOk, TargetsExist;
    DirectoryTyped(a, d);
    DirectoryTyped(b, d);
    ViewAt(a, d);
    ViewAt(b, d);
    forall k: nat | k < |ViewOf(b)[d].entries| && ViewOf(b)[d].entries[k].inum != 0
      ensures ViewOf(b)[d].entries[k].inum < |ViewOf(b)| && ViewOf(b)[ViewOf(b)[d].entries[k].inum].typ != T_FREE
    {
      EntryLinked(ViewOf(a), t, d, k);
    }
    TargetsByView(b, d);
  }

  lemma Linked(a: State, b: State, c: State, t: Places, d: nat, k: nat, n: nat, name: Name,
               typ: i16, major: i16, minor: i16)
    requires NamespaceOk(a, t) && d in t && Prepared(a, b, d, n, typ, major, minor)
    requires (typ == T_DIR || typ == T_FILE) && Lookup(DirEntries(a, d), name) == None
    requires 0 < n < |a.img.dins| && a.img.dins[n].typ == T_FREE
    requires forall m :: 0 < m < n ==> a.img.dins[m].typ != T_FREE
    requires DirEntries(b, d) == DirEntries(a, d) && k <= |DirEntries(a, d)| && FirstFree(DirEntries(a, d), k)
    requires EntrySet(b, c, d, k, Dirent(n, name))
    ensures Created(a, c, t, d, k, n, name, typ, major, minor)
  {
    hide ViewOf, IsDirectory, Contents, DirEntries, NewEntries, TreeOk, TargetsExist, FirstFree, Lookup;
    ViewAt(a, d);
    ViewAt(a, n);
    ViewAt(b, d);
    DirectoryTyped(a, d) by { assert IsDirectory(a, d); }
    ViewEntry(b, c, d, k, Dirent(n, name));
    KeptTwice(a, b, c, {d, n}, {d}, {d, n});
    assert ViewOf(c) == AfterCreate(ViewOf(a), d, k, n, name, typ);
    assert c.img.dins[n] == b.img.dins[n];
    assert FirstFree(ViewOf(a)[d].entries, k);
    FreeEntry(DirEntries(a, d), k);
    CreateKeepsTree(ViewOf(a), t, d, k, n, name, typ);
    CreatedDirectories(a, b, c, t, d, k, n, typ);
  }

  lemma FreeEntry(es: seq<Dirent>, k: nat)
    requires FirstFree(es, k)
    ensures k < |es| ==> es[k].inum == 0
  {
  }

  lemma CreatedDirectories(a: State, b: State, c: State, t: Places, d: nat, k: nat, n: nat, typ: i16)
    requires d in t && (forall e :: e in t ==> IsDirectory(a, e))
    requires forall e: nat :: e < |a.img.dins| && IsDirectory(a, e) ==> IsDirectory(b, e)
    requires typ == T_DIR ==> IsDirectory(b, n)
    requires |b.img.dins| == |a.img.dins|
    requires forall e: nat :: e < |b.img.dins| && IsDirectory(b, e) ==> IsDirectory(c, e)
    ensures forall e :: e in TreeAfterCreate(t, d, k, n, typ) ==> IsDirectory(c, e)
  {
    forall e | e in TreeAfterCreate(t, d, k, n, typ)
      ensures IsDirectory(c, e)
    {
      if typ == T_DIR && e == n {
      } else {
        assert IsDirectory(a, e);
      }
    }
  }

  // Slot ip went from free to the new inode n, locked; every other slot keeps its reference count,
  // its lock and its inode.
  ghost predicate MadeSlot(a: seq<Inode>, b: seq<Inode>, ip: nat, n: nat) {
    && |a| == |b| == NINODE && ip < NINODE && a[ip].ref == 0
    && b[ip].ref == 1 && b[ip].valid && b[ip].locked && b[ip].inum == n
    && forall k :: 0 <= k < NINODE && k != ip ==> SameHold(a[k], b[k])
  }

  lemma SlotMade(a: seq<Inode>, b1: seq<Inode>, b2: seq<Inode>, b3: seq<Inode>, ip: nat, n: nat, d: Dinode,
                 major: i16, minor: i16)
    requires |a| == NINODE && ip < NINODE && a[ip].ref == 0
    requires b1 == a[ip := a[ip].(inum := n, ref := 1, valid := false)]
    requires b2 == b1[ip := Loaded(b1[ip], d).(locked := true)]
    requires b3 == b2[ip := b2[ip].(major := major, minor := minor, nlink := 1)]
    ensures MadeSlot(a, b3, ip, n)
  {
  }

  lemma MadeHeld(a: seq<Inode>, b: seq<Inode>, c: seq<Inode>, ip: nat, n: nat)
    requires MadeSlot(a, b, ip, n) && SlotsHeld(b, c)
    ensures MadeSlot(a, c, ip, n)
  {
  }

  lemma NlinkHeld(a: seq<Inode>, b: seq<Inode>, ip: nat, major: i16, minor: i16, nlink: i16)
    requires |a| == NINODE && ip < NINODE
    requires b == a[ip := a[ip].(major := major, minor := minor, nlink := nlink)]
    ensures SlotsHeld(a, b)
  {
  }

  lemma StillHeld(a: seq<Inode>, b: seq<Inode>, ip: nat, n: nat, dp: nat)
    requires MadeSlot(a, b, ip, n) && dp < NINODE && a[dp].ref > 0
    ensures dp != ip && SameHold(a[dp], b[dp])
  {
  }

  lemma FreeSlotUnlocked(st: State, icache: seq<Inode>, ip: nat)
    requires |st.trees| == |st.img.dins| && CacheOk(st, icache, {}) && ip < NINODE && icache[ip].ref == 0
    ensures !icache[ip].locked
  {
    assert SlotOk(st, icache[ip], {});
  }

  // From ialloc to the two entries of a new directory. The new inode's slot is returned, locked.
  method MakeInode(fs: FileSystem, dp: nat, ghost i: nat, typ: i16, major: i16, minor: i16)
    returns (r: Option<nat>, ghost n: nat)
    requires fs.Held(dp, i) && fs.Valid() && (typ == T_DIR || typ == T_FILE)
    requires i < |fs.disk.img.dins| && (typ == T_DIR ==> fs.disk.img.dins[i].nlink < 0x7FFF)
    modifies fs, fs.disk
    ensures r.None? ==> Exhausted(fs, old(fs.St()))
    ensures r.Some? ==> fs.Valid() && MadeSlot(old(fs.icache), fs.icache, r.value, n)
    ensures r.Some? ==> Prepared(old(fs.St()), fs.St(), i, n, typ, major, minor)
    ensures r.Some? ==> 0 < n < |old(fs.disk.img.dins)| && old(fs.disk.img.dins)[n].typ == T_FREE
    ensures r.Some? ==> forall m :: 0 < m < n ==> old(fs.disk.img.dins)[m].typ != T_FREE
  {
    hide Sound, Represents, SlotOk, Contents, DirEntries, CacheOk, Synced, EntrySet, IsDirectory, TargetsExist, Lookup;
    hide ViewOf, FilesKept, SlotsHeld, SlotWritten, NamespaceOk, Prepared, Created, MadeSlot, FirstFree;
    ghost var a, c0 := fs.St(), fs.icache;
    Sizes(fs.disk.sb, a);
    HeldSlot(a, c0, dp);
    n := 0;
    r := fs.Ialloc(typ);
    if r.None? {
      return;
    }
    var ip: nat := r.value;
    n := fs.icache[ip].inum;
    ghost var c1 := fs.icache;
    FreeSlotUnlocked(a, c0, ip);
    fs.Ilock(ip);
    ghost var c2 := fs.icache;
    fs.UpdateMeta(ip, n, major, minor, 1);
    ghost var b := fs.St();
    SlotMade(c0, c1, c2, fs.icache, ip, n, ClaimedInode(a, n, typ).img.dins[n], major, minor);
    StillHeld(c0, fs.icache, ip, n, dp);
    if typ != T_DIR {
      PreparedFile(fs.disk.sb, a, i, n, typ, major, minor);
      return;
    }
    Claiming(fs.disk.sb, a, i, n, typ, major, minor);
    r := MakeDirectory(fs, dp, i, ip, n, a, c0, b, major, minor);
  }

  method MakeDirectory(fs: FileSystem, dp: nat, ghost i: nat, ip: nat, ghost n: nat, ghost a: State,
      ghost c0: seq<Inode>,
                       ghost b: State, ghost major: i16, ghost minor: i16)
    returns (r: Option<nat>)
    requires fs.Held(dp, i) && fs.Held(ip, n) && dp != ip && fs.Valid() && MadeSlot(c0, fs.icache, ip, n)
    requires Sound(fs.disk.sb, a) && i < |a.img.dins| && a.img.dins[i].nlink < 0x7FFF
    requires 0 < n < |a.img.dins| && n != i && a.img.dins[n].typ == T_FREE
    requires fs.St() == b == MetaSet(ClaimedInode(a, n, T_DIR), n, major, minor, 1)
    modifies fs, fs.disk
    ensures r.None? ==> Exhausted(fs, a)
    ensures r.Some? ==> r.value == ip && fs.Valid() && MadeSlot(c0, fs.icache, ip, n)
    ensures r.Some? ==> Prepared(a, fs.St(), i, n, T_DIR, major, minor)
  {
    hide Sound, Represents, SlotOk, Contents, DirEntries, CacheOk, Synced, EntrySet, IsDirectory, TargetsExist, Lookup;
    hide ViewOf, FilesKept, SlotsHeld, SlotWritten, NamespaceOk, Prepared, Created, MadeSlot, FirstFree;
    ghost var c3 := fs.icache;
    Sizes(fs.disk.sb, a);
    Claiming(fs.disk.sb, a, i, n, T_DIR, major, minor);
    HeldSlot(b, c3, dp);
    HeldSlot(b, c3, ip);
    fs.UpdateMeta(dp, i, fs.icache[dp].major, fs.icache[dp].minor, fs.icache[dp].nlink + 1);
    ghost var c, c4 := fs.St(), fs.icache;
    NlinkHeld(c3, c4, dp, c4[dp].major, c4[dp].minor, c4[dp].nlink);
    ViewMeta(b, i, c4[dp].major, c4[dp].minor, c4[dp].nlink);
    MetaEntries(b, i, c4[dp].major, c4[dp].minor, c4[dp].nlink, n);
    var ok := DotEntries(fs, ip, n, fs.icache[dp].inum);
    if !ok {
      return None;
    }
    MadeHeld(c0, c3, c4, ip, n);
    MadeHeld(c0, c4, fs.icache, ip, n);
    PreparedDir(fs.disk.sb, a, b, c, fs.St(), i, n, T_DIR, major, minor, c4[dp].major, c4[dp].minor, c4[dp].nlink);
    return Some(ip);
  }

  lemma MetaEntries(a: State, i: nat, major: i16, minor: i16, nlink: i16, j: nat)
    requires i < |a.img.dins| == |a.trees| && j < |a.trees|
    ensures DirEntries(MetaSet(a, i, major, minor, nlink), j) == DirEntries(a, j)
  {
    hide Contents;
    SameTree(a, MetaSet(a, i, major, minor, nlink), j);
  }

  datatype Opening = Failed | Opened(ip: nat) | Stopped

  // The cache through the last steps of a successful create.
  lemma CreatedRefs(a: seq<Inode>, c: seq<Inode>, d: seq<Inode>, e: seq<Inode>, f: seq<Inode>, g: seq<Inode>,
                    dp: nat, ip: nat, n: nat)
    requires Refs(a, c, multiset{dp}, {dp}) && MadeSlot(c, d, ip, n) && SlotsHeld(d, e)
    requires dp < NINODE && dp != ip
    requires f == e[dp := e[dp].(locked := false)] && g == f[dp := f[dp].(ref := f[dp].ref - 1)]
    ensures Refs(a, g, multiset{ip}, {ip})
  {
  }

  // The name is new: the inode is made and linked in, and the parent is let go of.
  method CreateNew(fs: FileSystem, dp: nat, ghost i: nat, name: Name, typ: i16, major: i16, minor: i16,
                   ghost t: Places, ghost before: seq<Inode>)
    returns (r: Opening, ghost n: nat, ghost k: nat)
    requires fs.Held(dp, i) && fs.Valid() && NamespaceOk(fs.St(), t) && i in t && (typ == T_DIR || typ == T_FILE)
    requires Lookup(DirEntries(fs.St(), i), name) == None
    requires i < |fs.disk.img.dins| && (typ == T_DIR ==> fs.disk.img.dins[i].nlink < 0x7FFF)
    requires Refs(before, fs.icache, multiset{dp}, {dp})
    modifies fs, fs.disk
    ensures r.Stopped? ==> Exhausted(fs, old(fs.St()))
    ensures !r.Failed?
    ensures r.Opened? ==> fs.Valid() && fs.Held(r.ip, n) && Refs(before, fs.icache, multiset{r.ip}, {r.ip})
    ensures r.Opened? ==> Created(old(fs.St()), fs.St(), t, i, k, n, name, typ, major, minor)
  {
    hide Sound, Represents, SlotOk, Contents, DirEntries, CacheOk, Synced, EntrySet, IsDirectory, TargetsExist, Lookup;
    hide ViewOf, FilesKept, SlotsHeld, SlotWritten, NamespaceOk, Prepared, Created, MadeSlot, FirstFree, Refs;
    ghost var a, c0 := fs.St(), fs.icache;
    HeldSlot(a, c0, dp);
    k := 0;
    var made;
    made, n := MakeInode(fs, dp, i, typ, major, minor);
    if made.None? {
      return Stopped, n, k;
    }
    var ip: nat := made.value;
    ghost var b, c1 := fs.St(), fs.icache;
    StillHeld(c0, c1, ip, n, dp);
    MadeSlotAt(c0, c1, ip, n);
    HeldSlot(b, c1, dp);
    HeldSlot(b, c1, ip);
    Sizes(fs.disk.sb, b);
    PreparedParent(a, b, t, i, n, name, typ, major, minor);
    var linked;
    linked, k := Dirlink(fs, dp, i, name, fs.icache[ip].inum);
    if linked.Halted? {
      InTree(a, t, i);
      PreparedSize(a, b, i, n, typ, major, minor);
      return Stopped, n, k;
    }
    ghost var c, c2 := fs.St(), fs.icache;
    FreeFirst(DirEntries(a, i), k);
    Linked(a, b, c, t, i, k, n, name, typ, major, minor);
    WrittenHeld(c1, c2, dp, fs.disk.img.dins[i]);
    MadeHeld(c0, c1, c2, ip, n);
    MadeSlotAt(c0, c2, ip, n);
    StillHeld(c0, c2, ip, n, dp);
    RefsAt(before, c0, multiset{dp}, {dp}, dp);
    CreatedLinks(a, c, t, i, k, n, name, typ, major, minor);
    LinkedSlot(c, c2, dp, i);
    fs.Iunlock(dp);
    ghost var c3 := fs.icache;
    fs.Iput(dp);
    HeldSelf(c2);
    CreatedRefs(before, c0, c2, c2, c3, fs.icache, dp, ip, n);
    return Opened(ip), n, k;
  }

  lemma MadeSlotAt(a: seq<Inode>, b: seq<Inode>, ip: nat, n: nat)
    requires MadeSlot(a, b, ip, n)
    ensures |b| == NINODE && ip < NINODE && b[ip].ref == 1 && b[ip].valid && b[ip].locked && b[ip].inum == n
  {
  }

  lemma HeldSelf(a: seq<Inode>)
    requires |a| == NINODE
    ensures SlotsHeld(a, a)
  {
  }

  lemma InTree(st: State, t: Places, d: nat)
    requires NamespaceOk(st, t) && d in t
    ensures IsDirectory(st, d) && d < |st.img.dins|
  {
    assert IsDirectory(st, d);
  }

  lemma PreparedSize(a: State, b: State, d: nat, n: nat, typ: i16, major: i16, minor: i16)
    requires Prepared(a, b, d, n, typ, major, minor) && IsDirectory(a, d) && IsDirectory(b, d)
    requires DirEntries(b, d) == DirEntries(a, d)
    ensures b.img.dins[d].size == a.img.dins[d].size
  {
    hide Prepared, DirEntries;
    EntryCount(a, d);
    EntryCount(b, d);
  }

  lemma FreeFirst(es: seq<Dirent>, k: nat)
    requires k <= |es| && (k < |es| ==> es[k].inum == 0) && forall m :: 0 <= m < k ==> es[m].inum != 0
    ensures FirstFree(es, k)
  {
  }

  lemma CreatedLinks(a: State, b: State, t: Places, d: nat, k: nat, n: nat, name: Name, typ: i16, major: i16,
      minor: i16)
    requires Created(a, b, t, d, k, n, name, typ, major, minor)
    ensures d < |b.img.dins| && b.img.dins[d].nlink != 0 && n < |b.img.dins| && n != d
    ensures ViewOf(b)[n].nlink == 1
  {
    hide ViewOf, IsDirectory, FilesKept, TreeOk;
    ViewAt(b, d);
    ViewAt(b, n);
    ViewAt(a, d);
    var t' := TreeAfterCreate(t, d, k, n, typ);
    DirLinked(ViewOf(b), t', d);
    assert IsDirectory(b, d);
  }

  // The name is taken: a file may be opened if a file was asked for.
  method OpenExisting(fs: FileSystem, dp: nat, ip: nat, typ: i16, ghost i: nat, ghost j: nat, ghost before: seq<Inode>)
    returns (r: Opening)
    requires fs.Held(dp, i) && fs.Valid() && ip < NINODE && fs.icache[ip].ref > 0 && fs.icache[ip].inum == j
    requires i < |fs.disk.img.dins| && fs.disk.img.dins[i].nlink != 0
    requires j < |fs.disk.img.dins| && fs.disk.img.dins[j].nlink != 0
    requires Refs(before, fs.icache, multiset{dp, ip}, {dp})
    modifies fs, fs.disk
    ensures fs.Valid() && fs.St() == old(fs.St()) && !r.Stopped?
    ensures r.Opened? <==> typ == T_FILE && fs.disk.img.dins[j].typ == T_FILE
    ensures r.Opened? ==> r.ip == ip && fs.Held(ip, j) && Refs(before, fs.icache, multiset{ip}, {ip})
    ensures r.Failed? ==> Refs(before, fs.icache, multiset{}, {})
  {
    hide Sound, Represents, SlotOk, CacheOk, Synced, Refs;
    ghost var st, c0 := fs.St(), fs.icache;
    RefsAt(before, c0, multiset{dp, ip}, {dp}, dp);
    LinkedSlot(st, c0, dp, i);
    fs.Iunlock(dp);
    RefsUnlocked(before, c0, fs.icache, multiset{dp, ip}, {dp}, dp);
    ghost var c1 := fs.icache;
    LinkedSlot(st, c1, dp, i);
    fs.Iput(dp);
    RefsDropped(before, c1, fs.icache, multiset{dp, ip}, {dp} - {dp}, dp);
    ghost var c2 := fs.icache;
    RefsEmpty(before, c2, multiset{dp, ip} - multiset{dp}, {dp} - {dp}, multiset{ip}, {});
    RefsAt(before, c2, multiset{ip}, {}, ip);
    fs.Ilock(ip);
    RefsLocked(before, c2, fs.icache, multiset{ip}, {}, ip, st.img.dins[j]);
    ghost var c3 := fs.icache;
    HeldSlot(st, c3, ip);
    RefsEmpty(before, c3, multiset{ip}, {} + {ip}, multiset{ip}, {ip});
    if typ == T_FILE && fs.icache[ip].typ == T_FILE {
      return Opened(ip);
    }
    fs.Iunlock(ip);
    RefsUnlocked(before, c3, fs.icache, multiset{ip}, {ip}, ip);
    ghost var c4 := fs.icache;
    LinkedSlot(st, c4, ip, j);
    fs.Iput(ip);
    RefsDropped(before, c4, fs.icache, multiset{ip}, {ip} - {ip}, ip);
    RefsEmpty(before, fs.icache, multiset{ip} - multiset{ip}, {ip} - {ip}, multiset{}, {});
    return Failed;
  }

  // A directory made at the path would not make its parent's link count, a short, wrap.
  ghost predicate RoomForLink(st: State, path: Path, cwd: nat) {
    match Target(st, path, cwd)
    case None => true
    case Some(d) =>
      Lookup(DirEntries(st, d), LastName(path)) == None && d < |st.img.dins| ==> st.img.dins[d].nlink < 0x7FFF
  }

  /** xv6fs_create. The inode is returned locked with one reference of its own; on failure no
      reference and no lock is left behind, and nothing changed. */
  method Create(fs: FileSystem, path: Path, typ: i16, major: i16, minor: i16, cwd: nat, ghost t: Places)
    returns (r: Opening, ghost n: nat, ghost k: nat)
    requires fs.Valid() && AllUnlocked(fs.icache) && NamespaceOk(fs.St(), t) && Pinned(fs.St(), fs.icache)
    requires cwd < NINODE && fs.icache[cwd].ref > 0 && Origin(path, fs.icache[cwd].inum) in t
    requires typ == T_DIR || typ == T_FILE
    requires typ == T_DIR ==> RoomForLink(fs.St(), path, fs.icache[cwd].inum)
    modifies fs, fs.disk
    ensures r.Stopped? ==> Exhausted(fs, old(fs.St()))
    ensures !r.Stopped? ==> fs.Valid() && Pinned(fs.St(), fs.icache)
    ensures !r.Stopped? ==> Refs(old(fs.icache), fs.icache, if r.Opened? then multiset{r.ip} else multiset{},
                                 if r.Opened? then {r.ip} else {})
    ensures var a, b := old(fs.St()), fs.St();
            var dir, name := Target(a, path, old(fs.icache[cwd].inum)), LastName(path);
            !r.Stopped? ==>
              if dir == None then r == Failed && b == a
              else match Lookup(DirEntries(a, dir.value), name)
                   case Some(j) =>
                     && b == a && j < |a.img.dins|
                     && (r.Opened? <==> typ == T_FILE && a.img.dins[j].typ == T_FILE)
                     && (r.Opened? ==> fs.Held(r.ip, j))
                   case None =>
                     && r.Opened? && fs.Held(r.ip, n)
                     && Created(a, b, t, dir.value, k, n, name, typ, major, minor)
  {
    hide Sound, Represents, SlotOk, Contents, DirEntries, CacheOk, Synced, EntrySet, IsDirectory, TargetsExist, Find;
    hide ViewOf, FilesKept, SlotsHeld, NamespaceOk, Created, Refs, Neutral, Closed, AllUnlocked, Pinned;
    hide ResolveParent, Components;
    ghost var a, c0 := fs.St(), fs.icache;
    NamespaceClosed(a, t);
    n, k := 0, 0;
    var w, name := Namex(fs, path, true, cwd, t.Keys);
    if w.NoSlots? {
      return Stopped, n, k;
    }
    if w.NotFound? {
      RefsNeutral(c0, fs.icache, None);
      PinnedSame(a, c0, fs.icache, multiset{}, {});
      return Failed, n, k;
    }
    var dp: nat := w.ip;
    ghost var c1, i := fs.icache, fs.icache[dp].inum;
    InTree(a, t, i);
    LiveInode(a, t.Keys, i);
    RefsNeutral(c0, c1, Some(dp));
    RefsAt(c0, c1, multiset{dp}, {}, dp);
    assert Target(a, path, c0[cwd].inum) == Some(i) && LastName(path) == name;
    fs.Ilock(dp);
    ghost var c2 := fs.icache;
    RefsLocked(c0, c1, c2, multiset{dp}, {}, dp, a.img.dins[i]);
    RefsEmpty(c0, c2, multiset{dp}, {} + {dp}, multiset{dp}, {dp});
    var found := Dirlookup(fs, dp, i, name);
    if found.NoSlot? {
      return Stopped, n, k;
    }
    if found.NoSuch? {
      r, n, k := CreateNew(fs, dp, i, name, typ, major, minor, t, c0);
      if r.Opened? {
        PinnedCreated(a, fs.St(), c0, fs.icache, t, i, k, n, name, typ, major, minor, r.ip);
      }
      return;
    }
    ghost var j := fs.icache[found.ip].inum;
    RefsGot(c0, c2, fs.icache, multiset{dp}, {dp}, found.ip, j);
    RefsEmpty(c0, fs.icache, multiset{dp} + multiset{found.ip}, {dp}, multiset{dp, found.ip}, {dp});
    EntryOf(a, t.Keys, i, name);
    r := OpenExisting(fs, dp, found.ip, typ, i, j, c0);
    PinnedSame(a, c0, fs.icache, if r.Opened? then multiset{r.ip} else multiset{}, if r.Opened? then {r.ip} else {});
  }

  lemma PinnedCreated(a: State, b: State, c: seq<Inode>, c': seq<Inode>, t: Places, d: nat, k: nat, n: nat, name: Name,
                      typ: i16, major: i16, minor: i16, ip: nat)
    requires Created(a, b, t, d, k, n, name, typ, major, minor) && Pinned(a, c)
    requires Refs(c, c', multiset{ip}, {ip})
    ensures Pinned(b, c')
  {
    hide Pinned, Refs, HasSlot, ViewOf, IsDirectory, TreeOk, Contents;
    CreatedLinks(a, b, t, d, k, n, name, typ, major, minor);
    ViewAt(b, n);
    PinnedKept(a, b, c, c', multiset{ip}, {ip});
  }

  lemma PinnedSame(s: State, a: seq<Inode>, b: seq<Inode>, m: multiset<nat>, held: set<nat>)
    requires Pinned(s, a) && Refs(a, b, m, held)
    ensures Pinned(s, b)
  {
    hide Pinned, Refs, HasSlot;
    PinnedKept(s, s, a, b, m, held);
  }

  /** What unlink does: entry k of directory d is free, the inode it named has a link less, and is
      freed with all its blocks when that was the last link and freed says so. */
  ghost predicate Unlinked(a: State, b: State, t: Places, d: nat, k: nat, freed: bool) {
    && |a.img.dins| == |b.img.dins| && d in t && d < |a.img.dins| && 2 <= k < |ViewOf(a)[d].entries|
    && var j := ViewOf(a)[d].entries[k].inum;
       && 0 < j < |a.img.dins| && j != d && RemovableView(ViewOf(a), j)
       && ViewOf(b) == AfterRemoval(ViewOf(a), d, k, freed)
       && NamespaceOk(b, TreeAfterUnlink(ViewOf(a), t, j))
       && FilesKept(a, b, {d, j}) && (!freed ==> Contents(b, j) == Contents(a, j))
  }

  ghost function AfterRemoval(v: View, d: nat, k: nat, freed: bool): View
    requires d < |v| && k < |v[d].entries| && v[d].entries[k].inum < |v|
  {
    if freed then Freed(AfterUnlink(v, d, k), v[d].entries[k].inum) else AfterUnlink(v, d, k)
  }

  // A directory may be removed only without entries past its first two.
  ghost predicate RemovableView(v: View, j: nat)
    requires j < |v|
  {
    v[j].typ == T_DIR ==> EmptyFrom(v[j].entries, 2)
  }

  // The scan of xv6fs_unlink from the third entry on. A short read cannot happen.
  method IsEmptyDir(fs: FileSystem, ip: nat, ghost j: nat) returns (empty: bool)
    requires fs.Held(ip, j) && fs.Valid() && IsDirectory(fs.St(), j)
    modifies fs, fs.disk
    ensures fs.Valid() && fs.St() == old(fs.St()) && fs.icache == old(fs.icache)
    ensures empty <==> EmptyFrom(DirEntries(fs.St(), j), 2)
  {
    hide Sound, Represents, SlotOk, Contents, Entries, CacheOk, Synced;
    ghost var es := DirEntries(fs.St(), j);
    SlotTree(fs.St(), fs.icache, ip, {});
    EntryCount(fs.St(), j);
    var size := fs.icache[ip].size;
    var o := 2 * DIRENT;
    while o < size
      invariant o % DIRENT == 0 && 2 <= o / DIRENT
      invariant fs.Held(ip, j) && fs.Valid() && fs.St() == old(fs.St()) && fs.icache == old(fs.icache)
      invariant forall m :: 2 <= m < o / DIRENT && m < |es| ==> es[m].inum == 0
      decreases size - o
    {
      var de := ReadEntry(fs, ip, j, o);
      if de.inum != 0 {
        return false;
      }
      o := o + DIRENT;
    }
    return true;
  }

  // The entry cleared, then the two link counts.
  lemma Removed(a: State, b: State, c: State, e: State, i: nat, j: nat, k: nat, m1: i16, m2: i16, m3: i16, m4: i16,
                l1: i16, l2: i16)
    requires EntrySet(a, b, i, k, Dirent(0, [])) && i != j && j < |a.img.dins|
    requires k < |DirEntries(a, i)| && DirEntries(a, i)[k].inum == j
    requires if a.img.dins[j].typ == T_DIR
             then l1 == b.img.dins[i].nlink - 1 && c == MetaSet(b, i, m1, m2, l1)
             else c == b
    requires l2 == c.img.dins[j].nlink - 1 && e == MetaSet(c, j, m3, m4, l2)
    ensures |ViewOf(a)| == |a.img.dins| && |ViewOf(a)[i].entries| == |DirEntries(a, i)|
              && ViewOf(a)[i].entries[k].inum == j
    ensures ViewOf(e) == AfterUnlink(ViewOf(a), i, k) && FilesKept(a, e, {i, j}) && Contents(e, j) == Contents(a, j)
    ensures e.img.dins[j].typ == a.img.dins[j].typ && e.img.dins[j].nlink == a.img.dins[j].nlink - 1
    ensures c.img.dins[i] == e.img.dins[i]
    ensures forall d: nat :: d < |a.img.dins| && IsDirectory(a, d) ==> IsDirectory(e, d)
  {
    hide ViewOf, IsDirectory, Contents, DirEntries;
    DirectoryTyped(a, i);
    ViewAt(a, i);
    ViewAt(a, j);
    ViewEntry(a, b, i, k, Dirent(0, []));
    ViewAt(b, i);
    ViewAt(b, j);
    if a.img.dins[j].typ == T_DIR {
      ViewMeta(b, i, m1, m2, l1);
      KeptTwice(a, b, c, {i}, {i}, {i});
    }
    ViewAt(c, j);
    ViewMeta(c, j, m3, m4, l2);
    KeptTwice(a, c, e, {i}, {j}, {i, j});
    SameTree(c, e, j);
  }

  // The state once the parent is done with, seen ahead: its links are not gone.
  lemma ParentLinked(a: State, e: State, t: Places, i: nat, j: nat, k: nat)
    requires NamespaceOk(a, t) && i in t && |e.img.dins| == |a.img.dins| && i < |a.img.dins| && |e.trees| == |a.trees|
    requires 2 <= k < |ViewOf(a)[i].entries| && ViewOf(a)[i].entries[k].inum == j && 0 < j < |a.img.dins|
    requires RemovableView(ViewOf(a), j) && ViewOf(e) == AfterUnlink(ViewOf(a), i, k)
    requires forall d: nat :: d < |a.img.dins| && IsDirectory(a, d) ==> IsDirectory(e, d)
    ensures NamespaceOk(e, TreeAfterUnlink(ViewOf(a), t, j)) && e.img.dins[i].nlink != 0
  {
    hide ViewOf, IsDirectory, Contents, DirEntries, TreeOk;
    ViewAt(a, i);
    ViewAt(a, j);
    ViewAt(e, i);
    UnlinkKeepsTree(ViewOf(a), t, i, k);
    NotItself(ViewOf(a), t, i, k);
    var t' := TreeAfterUnlink(ViewOf(a), t, j);
    DirLinked(ViewOf(e), t', i);
    forall d | d in t'
      ensures IsDirectory(e, d)
    {
      DirectoryTyped(a, d) by { assert IsDirectory(a, d); }
    }
  }

  // The last iput frees the inode.
  lemma UnlinkedFreed(sb: Superblock, a: State, e: State, f: State, t: Places, i: nat, j: nat, k: nat)
    requires Unlinked(a, e, t, i, k, false) && Sound(sb, e) && FreedInode(e, f, j) && e.img.dins[j].nlink == 0
    requires ViewOf(a)[i].entries[k].inum == j
    ensures Unlinked(a, f, t, i, k, true)
  {
    hide ViewOf, IsDirectory, Contents, DirEntries, TreeOk, Sound, NamespaceOk, RemovableView;
    FreedKeepsNamespace(sb, e, f, TreeAfterUnlink(ViewOf(a), t, j), j);
    ViewFree(sb, e, f, j);
    KeptTwice(a, e, f, {i, j}, {j}, {i, j});
  }

  ghost predicate Referenced(icache: seq<Inode>, j: nat) {
    exists k :: 0 <= k < |icache| && icache[k].ref > 0 && icache[k].inum == j
  }

  // The reference taken to the inode by the lookup is the only one exactly when there was none.
  lemma OnlyReference(st: State, a: seq<Inode>, b: seq<Inode>, m: multiset<nat>, held: set<nat>, ip: nat, j: nat)
    requires |st.trees| == |st.img.dins| && CacheOk(st, b, {}) && Refs(a, b, m, held)
    requires ip < NINODE && m[ip] == 1 && b[ip].inum == j
    ensures Referenced(a, j) <==> b[ip].ref > 1
  {
    if b[ip].ref > 1 {
      assert SlotRefs(a[ip], b[ip], m[ip], ip in held);
    }
    forall k | 0 <= k < NINODE && a[k].ref > 0 && a[k].inum == j
      ensures k == ip
    {
      assert SlotRefs(a[k], b[k], m[k], k in held);
    }
    if b[ip].ref == 1 {
      assert SlotRefs(a[ip], b[ip], m[ip], ip in held);
    }
  }

  // From the cleared entry to the last iput.
  method RemoveEntry(fs: FileSystem, dp: nat, ghost i: nat, ip: nat, ghost j: nat, k: nat, ghost t: Places,
                     ghost before: seq<Inode>)
    returns (ghost freed: bool)
    requires fs.Held(dp, i) && fs.Held(ip, j) && i != j && fs.Valid() && NamespaceOk(fs.St(), t) && i in t
    requires i < |fs.disk.img.dins| && j < |fs.disk.img.dins| && fs.disk.img.dins[i].nlink > 0
    requires fs.disk.img.dins[j].nlink > 0
    requires 2 <= k < |DirEntries(fs.St(), i)| && DirEntries(fs.St(), i)[k].inum == j
    requires RemovableView(ViewOf(fs.St()), j)
    requires Refs(before, fs.icache, multiset{dp, ip}, {dp, ip})
    modifies fs, fs.disk
    ensures fs.Valid() && Refs(before, fs.icache, multiset{}, {})
    ensures Unlinked(old(fs.St()), fs.St(), t, i, k, freed)
    ensures freed <==> old(fs.disk.img.dins)[j].nlink == 1 && !Referenced(before, j)
    ensures !freed && old(fs.disk.img.dins)[j].nlink == 1 ==> HasSlot(fs.icache, j)
  {
    hide Sound, Represents, SlotOk, Contents, DirEntries, CacheOk, Synced, EntrySet, IsDirectory, HasSlot;
    hide ViewOf, FilesKept, SlotsHeld, SlotWritten, NamespaceOk, Refs, Unlinked, RemovableView, Referenced;
    ghost var a, c0 := fs.St(), fs.icache;
    var typ := fs.icache[ip].typ;
    HeldSlot(a, c0, dp);
    HeldSlot(a, c0, ip);
    InTree(a, t, i);
    EntryCount(a, i);
    var ok := WriteEntry(fs, dp, i, k, Dirent(0, []));
    assert ok;
    ghost var b, c1 := fs.St(), fs.icache;
    WrittenHeld(c0, c1, dp, fs.disk.img.dins[i]);
    RefsHeld(before, c0, c1, multiset{dp, ip}, {dp, ip});
    SlotStays(c0, c1, ip);
    HeldSlot(b, c1, dp);
    HeldSlot(b, c1, ip);
    EntryKeeps(a, b, i, k, j);
    if typ == T_DIR {
      fs.UpdateMeta(dp, i, fs.icache[dp].major, fs.icache[dp].minor, fs.icache[dp].nlink - 1);
      NlinkHeld(c1, fs.icache, dp, fs.icache[dp].major, fs.icache[dp].minor, fs.icache[dp].nlink);
    } else {
      HeldSelf(c1);
    }
    ghost var c, c2 := fs.St(), fs.icache;
    RefsHeld(before, c1, c2, multiset{dp, ip}, {dp, ip});
    SlotStays(c1, c2, ip);
    SlotStays(c1, c2, dp);
    HeldSlot(c, c2, dp);
    HeldSlot(c, c2, ip);
    ghost var e := MetaSet(c, j, c2[ip].major, c2[ip].minor, c2[ip].nlink - 1);
    Removed(a, b, c, e, i, j, k, c2[dp].major, c2[dp].minor, c2[ip].major, c2[ip].minor, c2[dp].nlink,
      c2[ip].nlink - 1);
    ParentLinked(a, e, t, i, j, k);
    freed := DropBoth(fs, dp, i, ip, j, e, before);
    UnlinkedAll(fs.disk.sb, a, e, fs.St(), t, i, j, k, freed);
  }

  lemma EntryKeeps(a: State, b: State, i: nat, k: nat, j: nat)
    requires EntrySet(a, b, i, k, Dirent(0, [])) && j != i && j < |a.trees| == |a.img.dins|
    ensures |b.img.dins| == |a.img.dins| && b.img.dins[j] == a.img.dins[j] && b.img.dins[i].nlink == a.img.dins[i].nlink
  {
    hide Contents, DirEntries;
  }

  lemma UnlinkedAll(sb: Superblock, a: State, e: State, f: State, t: Places, i: nat, j: nat, k: nat, freed: bool)
    requires i in t && i < |a.img.dins| && 0 < j < |a.img.dins| && j != i && |e.img.dins| == |a.img.dins|
    requires 2 <= k < |ViewOf(a)[i].entries| && ViewOf(a)[i].entries[k].inum == j && RemovableView(ViewOf(a), j)
    requires ViewOf(e) == AfterUnlink(ViewOf(a), i, k) && FilesKept(a, e, {i, j}) && Contents(e, j) == Contents(a, j)
    requires NamespaceOk(e, TreeAfterUnlink(ViewOf(a), t, j))
    requires if freed then Sound(sb, e) && FreedInode(e, f, j) && e.img.dins[j].nlink == 0 else f == e
    ensures Unlinked(a, f, t, i, k, freed)
  {
    hide ViewOf, IsDirectory, Contents, DirEntries, TreeOk, Sound, NamespaceOk, RemovableView, FilesKept;
    assert Unlinked(a, e, t, i, k, false);
    if freed {
      UnlinkedFreed(sb, a, e, f, t, i, j, k);
    }
  }

  // The parent unlocked and dropped, then the inode's own link count, unlock and drop.
  method DropBoth(fs: FileSystem, dp: nat, ghost i: nat, ip: nat, ghost j: nat, ghost e: State,
      ghost before: seq<Inode>)
    returns (ghost freed: bool)
    requires fs.Held(dp, i) && fs.Held(ip, j) && i != j && fs.Valid()
    requires j < |fs.disk.img.dins| && fs.icache[ip].nlink > 0
    requires e == MetaSet(fs.St(), j, fs.icache[ip].major, fs.icache[ip].minor, fs.icache[ip].nlink - 1)
    requires i < |e.img.dins| && e.img.dins[i].nlink != 0
    requires Refs(before, fs.icache, multiset{dp, ip}, {dp, ip})
    modifies fs, fs.disk
    ensures fs.Valid() && Refs(before, fs.icache, multiset{}, {}) && Sound(fs.disk.sb, e)
    ensures if freed then FreedInode(e, fs.St(), j) else fs.St() == e
    ensures freed <==> e.img.dins[j].nlink == 0 && !Referenced(before, j)
    ensures !freed && e.img.dins[j].nlink == 0 ==> HasSlot(fs.icache, j)
  {
    hide Sound, Represents, SlotOk, CacheOk, Synced, Refs, SlotsHeld, Referenced;
    ghost var c, c0 := fs.St(), fs.icache;
    RefsAt(before, c0, multiset{dp, ip}, {dp, ip}, dp);
    RefsAt(before, c0, multiset{dp, ip}, {dp, ip}, ip);
    fs.Iunlock(dp);
    ghost var c1 := fs.icache;
    RefsUnlocked(before, c0, c1, multiset{dp, ip}, {dp, ip}, dp);
    LinkedSlot(c, c1, dp, i);
    fs.Iput(dp);
    ghost var c2 := fs.icache;
    RefsDropped(before, c1, c2, multiset{dp, ip}, {dp, ip} - {dp}, dp);
    RefsEmpty(before, c2, multiset{dp, ip} - multiset{dp}, {dp, ip} - {dp}, multiset{ip}, {ip});
    fs.UpdateMeta(ip, j, fs.icache[ip].major, fs.icache[ip].minor, fs.icache[ip].nlink - 1);
    ghost var c3 := fs.icache;
    NlinkHeld(c2, c3, ip, c3[ip].major, c3[ip].minor, c3[ip].nlink);
    RefsHeld(before, c2, c3, multiset{ip}, {ip});
    HeldSlot(e, c3, ip);
    RefsAt(before, c3, multiset{ip}, {ip}, ip);
    fs.Iunlock(ip);
    ghost var c4 := fs.icache;
    RefsUnlocked(before, c3, c4, multiset{ip}, {ip}, ip);
    OnlyReference(e, before, c4, multiset{ip}, {ip} - {ip}, ip, j);
    freed := Drops(c4[ip]);
    fs.Iput(ip);
    if freed {
      RefsFreed(before, c4, fs.icache, multiset{ip}, {ip} - {ip}, ip);
    } else {
      RefsDropped(before, c4, fs.icache, multiset{ip}, {ip} - {ip}, ip);
    }
    RefsEmpty(before, fs.icache, multiset{ip} - multiset{ip}, {ip} - {ip}, multiset{}, {});
  }

  lemma SlotStays(a: seq<Inode>, b: seq<Inode>, k: nat)
    requires SlotsHeld(a, b) && k < NINODE
    ensures |a| == |b| == NINODE && SameHold(a[k], b[k])
  {
  }

  // Unlock and let go of an inode that has links.
  method Release(fs: FileSystem, ip: nat, ghost i: nat, ghost before: seq<Inode>, ghost m: multiset<nat>,
      ghost held: set<nat>)
    requires fs.Held(ip, i) && fs.Valid() && i < |fs.disk.img.dins| && fs.disk.img.dins[i].nlink != 0
    requires Refs(before, fs.icache, m, held) && ip in m && ip in held
    modifies fs, fs.disk
    ensures fs.Valid() && fs.St() == old(fs.St()) && Refs(before, fs.icache, m - multiset{ip}, held - {ip})
    ensures forall k :: 0 <= k < NINODE && k != ip ==> fs.icache[k] == old(fs.icache)[k]
  {
    hide Sound, Represents, SlotOk, CacheOk, Synced, Refs;
    ghost var st, c0 := fs.St(), fs.icache;
    RefsAt(before, c0, m, held, ip);
    fs.Iunlock(ip);
    ghost var c1 := fs.icache;
    RefsUnlocked(before, c0, c1, m, held, ip);
    LinkedSlot(st, c1, ip, i);
    fs.Iput(ip);
    RefsDropped(before, c1, fs.icache, m, held - {ip}, ip);
  }

  // An entry other than "." and "..".
  lemma EntryFacts(a: State, t: Places, i: nat, k: nat)
    requires NamespaceOk(a, t) && i in t && k < |DirEntries(a, i)| && DirEntries(a, i)[k].inum != 0
    requires DirEntries(a, i)[k].name != DOT && DirEntries(a, i)[k].name != DOTDOT
    ensures var j := DirEntries(a, i)[k].inum;
            && 2 <= k && j != i && 0 < j < |a.img.dins| && i < |a.img.dins|
            && a.img.dins[j].nlink > 0 && a.img.dins[i].nlink > 0
            && (a.img.dins[j].typ == T_DIR ==> j in t && IsDirectory(a, j))
            && (RemovableView(ViewOf(a), j) <==> (a.img.dins[j].typ == T_DIR ==> EmptyFrom(DirEntries(a, j), 2)))
  {
    hide ViewOf, IsDirectory, DirEntries, TreeOk, EmptyFrom;
    var j := DirEntries(a, i)[k].inum;
    InTree(a, t, i);
    DirectoryTyped(a, i);
    ViewAt(a, i);
    FreeSlot(ViewOf(a), t, i, k, DirEntries(a, i)[k].name);
    EntryLinked(ViewOf(a), t, i, k);
    ViewAt(a, j);
    NotItself(ViewOf(a), t, i, k);
    DirLinked(ViewOf(a), t, i);
    if j in t {
      InTree(a, t, j);
    }
  }

  ghost predicate Removable(a: State, i: nat, name: Name) {
    && name != DOT && name != DOTDOT
    && match Lookup(DirEntries(a, i), name)
       case None => false
       case Some(j) => j < |a.img.dins| && (a.img.dins[j].typ == T_DIR ==> NoNames(DirEntries(a, j)))
  }

  // Whether the entry found for a name can be removed.
  lemma RemovableFound(a: State, t: Places, i: nat, name: Name)
    requires NamespaceOk(a, t) && i in t
    ensures name == DOT || name == DOTDOT || Lookup(DirEntries(a, i), name) == None ==> !Removable(a, i, name)
    ensures name != DOT && name != DOTDOT && Lookup(DirEntries(a, i), name).Some? ==>
              var j := Lookup(DirEntries(a, i), name).value;
              j < |ViewOf(a)| && (Removable(a, i, name) <==> RemovableView(ViewOf(a), j))
  {
    hide NamespaceOk, DirEntries, Lookup, RemovableView, ViewOf, NoNames, Closed, EntryClosed;
    if Lookup(DirEntries(a, i), name).Some? {
      FoundInTree(a, t, i, name);
      RemovableByName(a, t, Lookup(DirEntries(a, i), name).value);
    }
  }

  lemma FoundInTree(a: State, t: Places, i: nat, name: Name)
    requires NamespaceOk(a, t) && i in t && Lookup(DirEntries(a, i), name).Some?
    ensures var j := Lookup(DirEntries(a, i), name).value;
            j < |a.img.dins| && (a.img.dins[j].typ == T_DIR ==> j in t)
  {
    hide NamespaceOk, DirEntries, Closed;
    NamespaceClosed(a, t);
    EntryOf(a, t.Keys, i, name);
  }

  lemma RemovableByName(a: State, t: Places, j: nat)
    requires NamespaceOk(a, t) && j < |a.img.dins| && (a.img.dins[j].typ == T_DIR ==> j in t)
    ensures j < |ViewOf(a)|
    ensures RemovableView(ViewOf(a), j) <==> (a.img.dins[j].typ == T_DIR ==> NoNames(DirEntries(a, j)))
  {
    hide ViewOf, IsDirectory, DirEntries, TreeOk, EmptyFrom, NoNames;
    ViewAt(a, j);
    if a.img.dins[j].typ == T_DIR {
      EmptyByName(ViewOf(a), t, j);
    }
  }

  /** When the last name of a directory goes the directory can be removed itself. */
  lemma LastNameGone(a: State, b: State, t: Places, d: nat, k: nat, freed: bool, p: nat, name: Name)
    requires NamespaceOk(a, t) && Unlinked(a, b, t, d, k, freed)
    requires forall other: Name :: other != DOT && other != DOTDOT && other != ViewOf(a)[d].entries[k].name ==>
               Lookup(DirEntries(a, d), other) == None
    requires name != DOT && name != DOTDOT && Lookup(DirEntries(b, p), name) == Some(d)
    ensures Removable(b, p, name)
  {
    hide ViewOf, IsDirectory, DirEntries, TreeOk, EmptyFrom, Lookup, Contents, FilesKept, RemovableView;
    InTree(a, t, d);
    DirectoryTyped(a, d);
    ViewAt(a, d);
    ViewAt(b, d);
    forall other: Name | other != DOT && other != DOTDOT
      ensures Lookup(ViewOf(b)[d].entries, other) == None
    {
      UnlinkedBinding(ViewOf(a), t, d, k, d, other);
    }
  }

  /** xv6fs_unlink. It succeeds exactly for a name other than "." and ".." that is bound to a
      file or to a directory without entries of its own. Every exit leaves every reference and
      lock as it found them; the inode is freed when its last link went and nobody holds it. */
  method Unlink(fs: FileSystem, path: Path, cwd: nat, ghost t: Places)
    returns (r: Outcome, ghost k: nat, ghost freed: bool)
    requires fs.Valid() && AllUnlocked(fs.icache) && NamespaceOk(fs.St(), t) && Pinned(fs.St(), fs.icache)
    requires cwd < NINODE && fs.icache[cwd].ref > 0 && Origin(path, fs.icache[cwd].inum) in t
    modifies fs, fs.disk
    ensures r.Halted? ==> fs.CacheFull()
    ensures r.Returned? ==> fs.Valid() && Pinned(fs.St(), fs.icache) && Refs(old(fs.icache), fs.icache, multiset{}, {})
    ensures var a, b := old(fs.St()), fs.St();
            var dir, name := Target(a, path, old(fs.icache[cwd].inum)), LastName(path);
            r.Returned? ==>
              if dir != None && Removable(a, dir.value, name)
              then && r.value == 0 && Unlinked(a, b, t, dir.value, k, freed)
                   && ViewOf(a)[dir.value].entries[k].name == name
                   && var j := ViewOf(a)[dir.value].entries[k].inum;
                      (freed <==> a.img.dins[j].nlink == 1 && !Referenced(old(fs.icache), j))
              else r.value == -1 && b == a
  {
    hide Sound, Represents, SlotOk, Contents, DirEntries, CacheOk, Synced, EntrySet, IsDirectory, TargetsExist, Find;
    hide ViewOf, FilesKept, SlotsHeld, NamespaceOk, Unlinked, Refs, Neutral, Closed, AllUnlocked, Pinned;
    hide ResolveParent, Components, RemovableView, Referenced, EmptyFrom, HasSlot, NoNames, Removable;
    ghost var a, c0 := fs.St(), fs.icache;
    NamespaceClosed(a, t);
    k, freed := 0, false;
    var w, name := Namex(fs, path, true, cwd, t.Keys);
    if w.NoSlots? {
      return Halted, k, freed;
    }
    if w.NotFound? {
      RefsNeutral(c0, fs.icache, None);
      PinnedSame(a, c0, fs.icache, multiset{}, {});
      return Returned(-1), k, freed;
    }
    var dp: nat := w.ip;
    ghost var c1, i := fs.icache, fs.icache[dp].inum;
    InTree(a, t, i);
    LiveInode(a, t.Keys, i);
    RefsNeutral(c0, c1, Some(dp));
    RefsAt(c0, c1, multiset{dp}, {}, dp);
    assert Target(a, path, c0[cwd].inum) == Some(i) && LastName(path) == name;
    RemovableFound(a, t, i, name);
    fs.Ilock(dp);
    ghost var c2 := fs.icache;
    RefsLocked(c0, c1, c2, multiset{dp}, {}, dp, a.img.dins[i]);
    RefsEmpty(c0, c2, multiset{dp}, {} + {dp}, multiset{dp}, {dp});
    if name == DOT || name == DOTDOT {
      LetGo(fs, dp, i, c0);
      return Returned(-1), k, freed;
    }
    var found := Dirlookup(fs, dp, i, name);
    if found.NoSlot? {
      return Halted, k, freed;
    }
    if found.NoSuch? {
      LetGo(fs, dp, i, c0);
      return Returned(-1), k, freed;
    }
    ghost var j := fs.icache[found.ip].inum;
    k := found.off / DIRENT;
    RefsGot(c0, c2, fs.icache, multiset{dp}, {dp}, found.ip, j);
    RefsEmpty(c0, fs.icache, multiset{dp} + multiset{found.ip}, {dp}, multiset{dp, found.ip}, {dp});
    EntryFacts(a, t, i, k);
    ViewAt(a, i);
    DirectoryTyped(a, i);
    r, freed := UnlinkFound(fs, dp, i, found.ip, j, found.off, t, c0);
  }

  method LetGo(fs: FileSystem, dp: nat, ghost i: nat, ghost before: seq<Inode>)
    requires fs.Held(dp, i) && fs.Valid() && i < |fs.disk.img.dins| && fs.disk.img.dins[i].nlink != 0
    requires Refs(before, fs.icache, multiset{dp}, {dp}) && Pinned(fs.St(), before)
    modifies fs, fs.disk
    ensures fs.Valid() && fs.St() == old(fs.St()) && Refs(before, fs.icache, multiset{}, {})
              && Pinned(fs.St(), fs.icache)
  {
    hide Sound, Represents, SlotOk, CacheOk, Synced, Refs, Pinned;
    Release(fs, dp, i, before, multiset{dp}, {dp});
    RefsEmpty(before, fs.icache, multiset{dp} - multiset{dp}, {dp} - {dp}, multiset{}, {});
    PinnedSame(fs.St(), before, fs.icache, multiset{}, {});
  }

  // The name is bound to inode j, in slot ip. A link count below one cannot be met here.
  method UnlinkFound(fs: FileSystem, dp: nat, ghost i: nat, ip: nat, ghost j: nat, off: nat, ghost t: Places,
                     ghost before: seq<Inode>)
    returns (r: Outcome, ghost freed: bool)
    requires fs.Held(dp, i) && i != j && fs.Valid() && NamespaceOk(fs.St(), t) && i in t && off % DIRENT == 0
    requires ip < NINODE && fs.icache[ip].ref > 0 && fs.icache[ip].inum == j
    requires off / DIRENT < |DirEntries(fs.St(), i)| && DirEntries(fs.St(), i)[off / DIRENT].inum == j != 0
    requires var e := DirEntries(fs.St(), i)[off / DIRENT]; e.name != DOT && e.name != DOTDOT
    requires Refs(before, fs.icache, multiset{dp, ip}, {dp}) && Pinned(fs.St(), before)
    modifies fs, fs.disk
    ensures r.Returned? && fs.Valid() && Refs(before, fs.icache, multiset{}, {}) && Pinned(fs.St(), fs.icache)
    ensures j < |old(fs.disk.img.dins)|
    ensures if old(RemovableView(ViewOf(fs.St()), j))
            then && r.value == 0 && Unlinked(old(fs.St()), fs.St(), t, i, off / DIRENT, freed)
                 && (freed <==> old(fs.disk.img.dins)[j].nlink == 1 && !Referenced(before, j))
            else r.value == -1 && fs.St() == old(fs.St())
  {
    hide Sound, Represents, SlotOk, Contents, DirEntries, CacheOk, Synced, EntrySet, IsDirectory, TargetsExist, Find;
    hide ViewOf, FilesKept, SlotsHeld, NamespaceOk, Unlinked, Refs, Pinned, RemovableView, Referenced, EmptyFrom,
        HasSlot;
    ghost var a, c3, k := fs.St(), fs.icache, off / DIRENT;
    freed := false;
    InTree(a, t, i);
    DirectoryTyped(a, i);
    ViewAt(a, i);
    EntryFacts(a, t, i, k);
    RefsAt(before, c3, multiset{dp, ip}, {dp}, ip);
    fs.Ilock(ip);
    ghost var c4 := fs.icache;
    RefsLocked(before, c3, c4, multiset{dp, ip}, {dp}, ip, a.img.dins[j]);
    RefsEmpty(before, c4, multiset{dp, ip}, {dp} + {ip}, multiset{dp, ip}, {dp, ip});
    HeldSlot(a, c4, ip);
    assert fs.icache[ip].nlink >= 1;
    var empty := true;
    if fs.icache[ip].typ == T_DIR {
      empty := IsEmptyDir(fs, ip, j);
    }
    if !empty {
      Release(fs, ip, j, before, multiset{dp, ip}, {dp, ip});
      RefsEmpty(before, fs.icache, multiset{dp, ip} - multiset{ip}, {dp, ip} - {ip}, multiset{dp}, {dp});
      LetGo(fs, dp, i, before);
      return Returned(-1), false;
    }
    freed := RemoveEntry(fs, dp, i, ip, j, off / DIRENT, t, before);
    PinnedUnlinked(a, fs.St(), before, fs.icache, t, i, k, freed);
    return Returned(0), freed;
  }

  lemma PinnedUnlinked(a: State, b: State, c: seq<Inode>, c': seq<Inode>, t: Places, d: nat, k: nat, freed: bool)
    requires Unlinked(a, b, t, d, k, freed) && Pinned(a, c) && Refs(c, c', multiset{}, {})
    requires var j := ViewOf(a)[d].entries[k].inum;
             !freed && a.img.dins[j].nlink == 1 ==> HasSlot(c', j)
    ensures Pinned(b, c')
  {
    hide Pinned, Refs, HasSlot, ViewOf, IsDirectory, TreeOk, Contents, RemovableView;
    var j := ViewOf(a)[d].entries[k].inum;
    ViewAt(a, j);
    ViewAt(b, j);
    ViewAt(b, d);
    DirLinked(ViewOf(b), TreeAfterUnlink(ViewOf(a), t, j), d);
    PinnedKept(a, b, c, c', multiset{}, {});
  }

  /** A removed directory is freed exactly when it carried no surplus link and nobody holds it. */
  lemma FreedDirectory(a: State, b: State, t: Places, d: nat, k: nat, freed: bool, held: bool)
    requires NamespaceOk(a, t) && Unlinked(a, b, t, d, k, freed)
    requires a.img.dins[ViewOf(a)[d].entries[k].inum].typ == T_DIR
    requires freed <==> a.img.dins[ViewOf(a)[d].entries[k].inum].nlink == 1 && !held
    ensures var j := ViewOf(a)[d].entries[k].inum;
            && j in t && a.img.dins[j].nlink == 1 + t[j].bonus && (freed <==> t[j].bonus == 0 && !held)
            && (!freed ==> j < |b.img.dins| && b.img.dins[j].typ == T_DIR && b.img.dins[j].nlink == t[j].bonus)
  {
    hide Contents, FilesKept, IsDirectory, DirEntries, TreeOk, EmptyFrom, ViewOf;
    var j := ViewOf(a)[d].entries[k].inum;
    ViewAt(a, j);
    ViewAt(b, j);
    RemovedDirectoryLinks(ViewOf(a), t, d, k);
  }
}
