/** main of mkfs.c: the directories, the files and the link counts of a fresh image, which the
    kernel's invariants hold of. */
module MkfsImage {
  import opened Wrappers
  import opened Bits
  import opened DiskFormat
  import opened BlockTree
  import opened Inodes
  import opened Dirents
  import opened Directory
  import opened Paths
  import opened Tree
  import opened NameTree
  import opened References
  import opened Namespace
  import opened CreateUnlink
  import OpenFiles
  import opened PathWalk
  import opened ImageSize
  import opened Mkfs

  const ETC: Name := [101, 116, 99]
  const BIN: Name := [98, 105, 110]
  const ROOT: Name := [114, 111, 111, 116]
  const README: Name := [82, 69, 65, 68, 77, 69]
  const CHILD: Name := [99, 104, 105, 108, 100]

  // The blocks a directory takes more for its entry k.
  function EntryBlocks(k: nat): int { Growth(DIRENT * k, DIRENT * k + DIRENT) }

  lemma OneBlockDirectory(k: nat)
    requires k < 32
    ensures EntryBlocks(k) == if k == 0 then 1 else 0
  {
  }

  // dirlink: the entry is appended.
  method Dirlink(m: Builder, dir: nat, name: Name, target: nat) returns (ok: bool)
    requires m.Valid() && IsDirectory(m.St(), dir) && target < 0x1_0000
    requires m.disk.img.dins[dir].size + DIRENT <= MAXFILE * BSIZE
    modifies m, m.disk
    ensures m.freeinode == old(m.freeinode)
    ensures ok <==> old(m.freeblock) + EntryBlocks(|DirEntries(old(m.St()), dir)|) <= FSSIZE
    ensures ok ==> m.freeblock == old(m.freeblock) + EntryBlocks(|DirEntries(old(m.St()), dir)|)
    ensures ok ==> m.Valid() && EntrySet(old(m.St()), m.St(), dir, |DirEntries(old(m.St()), dir)|, Dirent(target, name))
  {
    hide Sound, Represents, Contents, EncodeEntry, Overwrite, WroteFile, Synced, Tight, Growth, SuperBlock;
    ghost var a := m.St();
    EntryCount(a, dir);
    ok := m.Iappend(dir, EncodeEntry(Dirent(target, name)));
    if ok {
      WroteEntry(a, m.St(), dir, |DirEntries(a, dir)|, Dirent(target, name));
    }
  }

  // A link count written.
  method SetNlink(m: Builder, inum: nat, nlink: i16)
    requires m.Valid() && inum < |m.disk.img.dins| && m.disk.img.dins[inum].typ != T_FREE
    modifies m.disk
    ensures m.Valid() && m.freeblock == old(m.freeblock)
    ensures inum < |old(m.disk.img.dins)|
    ensures m.St() == MetaSet(old(m.St()), inum, old(m.disk.img.dins)[inum].major, old(m.disk.img.dins)[inum].minor,
              nlink)
  {
    hide Represents, Owned, InodeSound, Tight, SuperBlock;
    ghost var a := m.St();
    var din := m.disk.GetDinode(inum);
    m.disk.PutDinode(inum, din.(nlink := nlink));
    NlinkSound(m.disk.sb, a, m.St(), inum, nlink);
    NlinkTight(a, m.St(), inum, nlink);
  }

  lemma NlinkTight(a: State, b: State, i: nat, nlink: i16)
    requires Tight(a, {}) && i < |a.img.dins|
    requires b == a.(img := a.img.(dins := a.img.dins[i := a.img.dins[i].(nlink := nlink)]))
    ensures Tight(b, {})
  {
    SameTight(a, b, {});
  }

  lemma NlinkSound(sb: Superblock, a: State, b: State, i: nat, nlink: i16)
    requires Sound(sb, a) && Synced(a, {}) && i < |a.img.dins|
    requires b == a.(img := a.img.(dins := a.img.dins[i := a.img.dins[i].(nlink := nlink)]))
    ensures Sound(sb, b) && Synced(b, {})
  {
    hide Ptr, Owned;
    forall j: nat | j < sb.ninodes
      ensures InodeSound(b, j)
    {
      assert InodeSound(a, j);
    }
  }

  /** A surplus link on a directory is kept account of. */
  lemma SurplusLink(v: View, t: Places, d: nat)
    requires TreeOk(v, t) && d in t && d < |v|
    ensures TreeOk(v[d := v[d].(nlink := v[d].nlink + 1)], t[d := t[d].(bonus := t[d].bonus + 1)])
  {
    hide Links, Distinct, CountIn;
    var v', t' := v[d := v[d].(nlink := v[d].nlink + 1)], t[d := t[d].(bonus := t[d].bonus + 1)];
    forall e | e in t'
      ensures DirOk(v', t', e)
    {
      SurplusDirOk(v, t, d, e);
    }
    forall i: nat | 0 < i < |v|
      ensures LinksOk(v', t', i)
    {
      assert LinksOk(v, t, i);
      LinksChange(v, t, v', t', i, |v|, d);
    }
  }

  lemma SurplusDirOk(v: View, t: Places, d: nat, e: nat)
    requires TreeOk(v, t) && d in t && d < |v| && e in t
    ensures DirOk(v[d := v[d].(nlink := v[d].nlink + 1)], t[d := t[d].(bonus := t[d].bonus + 1)], e)
  {
    hide Links, Distinct, CountIn, LinksOk, TreeOk;
    DirFacts(v, t, e);
    var v', t' := v[d := v[d].(nlink := v[d].nlink + 1)], t[d := t[d].(bonus := t[d].bonus + 1)];
    forall k: nat | 2 <= k < |v[e].entries|
      ensures EntryOk(v', t', e, k)
    {
      assert EntryOk(v, t, e, k);
    }
  }

  // A tree of the root alone: its ".." counts, its "." does not, and one link is surplus.
  ghost function RootView(): View {
    seq<Node>(NINODES, i => if i == ROOTINO then Node(T_DIR, 2, NewEntries(ROOTINO, ROOTINO, T_DIR))
      else Node(T_FREE, 0, []))
  }

  ghost function RootTree(): Places {
    map[ROOTINO := Where(ROOTINO, 0, 0, 1)]
  }

  lemma {:induction false} RootLinks(i: nat, n: nat)
    requires n <= NINODES
    ensures Links(RootView(), RootTree(), i, n) == if n > 1 then CountIn(RootView()[ROOTINO].entries, ROOTINO, i) else 0
  {
    if n > 0 {
      RootLinks(i, n - 1);
    }
  }

  lemma RootOk()
    ensures TreeOk(RootView(), RootTree())
  {
    hide Links;
    var v, t, es := RootView(), RootTree(), NewEntries(ROOTINO, ROOTINO, T_DIR);
    assert DirOk(v, t, ROOTINO);
    forall i: nat | 0 < i < |v|
      ensures LinksOk(v, t, i)
    {
      RootLinks(i, NINODES);
      assert es[..1] == [es[0]] && es[..1][..0] == [];
      assert CountIn(es[..1], ROOTINO, i) == 0;
    }
  }

  /** The image so far shows the tree w, but for the link count of the root, which is written last. */
  ghost predicate Shows(st: State, w: View, t: Places) {
    && |st.trees| == |st.img.dins| && TreeOk(w, t) && |w| == |st.img.dins| == NINODES
    && w == ViewOf(st)[ROOTINO := ViewOf(st)[ROOTINO].(nlink := w[ROOTINO].nlink)]
    && forall d :: d in t ==> IsDirectory(st, d)
  }

  lemma ShownDirectory(st: State, w: View, t: Places, d: nat)
    requires Shows(st, w, t) && d in t
    ensures d < |st.img.dins| && IsDirectory(st, d) && w[d].entries == DirEntries(st, d) && w[d].typ == T_DIR
    ensures st.img.dins[d].size == DIRENT * |DirEntries(st, d)|
  {
    hide TreeOk, ViewOf, DirEntries;
    assert IsDirectory(st, d);
    DirectoryTyped(st, d);
    ViewAt(st, d);
    ViewAt(st, ROOTINO);
    EntryCount(st, d);
  }

  ghost function DirView(w: View, k: nat, n: nat, name: Name): View
    requires ROOTINO < |w| && n < |w| && k <= |w[ROOTINO].entries|
  {
    var v := AfterCreate(w, ROOTINO, k, n, name, T_DIR);
    v[n := v[n].(nlink := v[n].nlink + 1)]
  }

  ghost function DirTree(t: Places, k: nat, n: nat): Places
    requires ROOTINO in t
  {
    var u := TreeAfterCreate(t, ROOTINO, k, n, T_DIR);
    u[n := u[n].(bonus := u[n].bonus + 1)]
  }

  // A directory made under the root, in the steps of make_dir_under_root.
  lemma DirMade(sb: Superblock, a: State, b: State, c: State, d: State, e: State, f: State, w: View, t: Places,
                n: nat, name: Name, k: nat)
    requires Sound(sb, a) && Shows(a, w, t) && 0 < n < NINODES && a.img.dins[n].typ == T_FREE
    requires ROOTINO in t && Lookup(w[ROOTINO].entries, name) == None
    requires b == MetaSet(ClaimedInode(a, n, T_DIR), n, 0, 0, 1)
    requires EntrySet(b, c, n, 0, Dirent(n, DOT)) && EntrySet(c, d, n, 1, Dirent(ROOTINO, DOTDOT))
    requires k == |w[ROOTINO].entries| && EntrySet(d, e, ROOTINO, k, Dirent(n, name))
    requires n < |e.img.dins| && f == MetaSet(e, n, e.img.dins[n].major, e.img.dins[n].minor, 2)
    ensures Shows(f, DirView(w, k, n, name), DirTree(t, k, n))
    ensures forall j: nat :: j < NINODES && j != n && j != ROOTINO ==>
              f.img.dins[j] == a.img.dins[j] && Contents(f, j) == Contents(a, j)
  {
    hide TreeOk, ViewOf, DirEntries, Lookup, IsDirectory, Sound, Contents, DirView, DirTree;
    ShownDirectory(a, w, t, ROOTINO);
    DirectoryTyped(a, ROOTINO);
    Claiming(sb, a, ROOTINO, n, T_DIR, 0, 0);
    FirstEntry(b, c, n, 0, Dirent(n, DOT));
    DotsAdded(b, c, d, n, ROOTINO, 1);
    ViewEntry(d, e, ROOTINO, k, Dirent(n, name));
    assert |e.trees| == |e.img.dins|;
    ViewMeta(e, n, e.img.dins[n].major, e.img.dins[n].minor, 2);
    KeptTwice(a, b, d, {n}, {n}, {n, ROOTINO});
    KeptTwice(a, d, e, {n, ROOTINO}, {ROOTINO}, {n, ROOTINO});
    KeptTwice(a, e, f, {n, ROOTINO}, {n}, {n, ROOTINO});
    ViewAt(a, n);
    ViewAt(a, ROOTINO);
    ViewAt(b, n);
    DirTreeOk(w, t, k, n, name);
    DirViews(ViewOf(a), ViewOf(f), w, k, n, name);
    forall x | x in DirTree(t, k, n)
      ensures IsDirectory(f, x)
    {
      DirTreeKeys(t, k, n, x);
      if x != n {
        assert IsDirectory(a, x);
        DirectoryTyped(a, x);
      }
    }
  }

  lemma DirTreeKeys(t: Places, k: nat, n: nat, x: nat)
    requires ROOTINO in t && x in DirTree(t, k, n)
    ensures x == n || x in t
  {
  }

  lemma DirTreeOk(w: View, t: Places, k: nat, n: nat, name: Name)
    requires TreeOk(w, t) && ROOTINO in t && ROOTINO < |w| && k == |w[ROOTINO].entries|
    requires 0 < n < |w| && w[n].typ == T_FREE && Lookup(w[ROOTINO].entries, name) == None
    ensures TreeOk(DirView(w, k, n, name), DirTree(t, k, n)) && |DirView(w, k, n, name)| == |w|
  {
    hide TreeOk, Lookup;
    CreateKeepsTree(w, t, ROOTINO, k, n, name, T_DIR);
    SurplusLink(AfterCreate(w, ROOTINO, k, n, name, T_DIR), TreeAfterCreate(t, ROOTINO, k, n, T_DIR), n);
  }

  lemma DirViews(v: View, v': View, w: View, k: nat, n: nat, name: Name)
    requires |v| == |w| == |v'| && ROOTINO < |w| && 0 < n < |w| && n != ROOTINO && k == |w[ROOTINO].entries|
    requires w == v[ROOTINO := v[ROOTINO].(nlink := w[ROOTINO].nlink)]
    requires v' == v[n := Node(T_DIR, 2, NewEntries(n, ROOTINO, T_DIR))]
                    [ROOTINO := v[ROOTINO].(entries := WithEntry(v[ROOTINO].entries, k, Dirent(n, name)))]
    ensures var u := DirView(w, k, n, name); u == v'[ROOTINO := v'[ROOTINO].(nlink := u[ROOTINO].nlink)]
  {
  }

  lemma FreeShown(st: State, w: View, t: Places, n: nat)
    requires Shows(st, w, t) && n < |st.img.dins| && st.img.dins[n].typ == T_FREE && n != ROOTINO
    ensures n < |w| && w[n].typ == T_FREE
  {
    hide TreeOk, DirEntries, IsDirectory;
  }

  // Writing the new directory's entries leaves the root as it was.
  lemma RootKept(sb: Superblock, a: State, c: State, d: State, n: nat)
    requires Sound(sb, a) && IsDirectory(a, ROOTINO) && 0 < n < |a.img.dins| && n != ROOTINO
              && a.img.dins[n].typ == T_FREE
    requires var b := MetaSet(ClaimedInode(a, n, T_DIR), n, 0, 0, 1); EntrySet(b, c, n, 0, Dirent(n, DOT))
    requires EntrySet(c, d, n, 1, Dirent(ROOTINO, DOTDOT))
    ensures IsDirectory(d, ROOTINO) && DirEntries(d, ROOTINO) == DirEntries(a, ROOTINO)
    ensures n < |d.img.dins| && d.img.dins[n].typ == T_DIR
  {
    hide ViewOf, IsDirectory, Sound, Contents;
    var b := MetaSet(ClaimedInode(a, n, T_DIR), n, 0, 0, 1);
    DirectoryTyped(a, ROOTINO);
    Claiming(sb, a, ROOTINO, n, T_DIR, 0, 0);
    ViewEntry(b, c, n, 0, Dirent(n, DOT));
    ViewEntry(c, d, n, 1, Dirent(ROOTINO, DOTDOT));
    KeptTwice(a, b, c, {n}, {n}, {n});
    KeptTwice(a, c, d, {n}, {n}, {n});
    DirectoryTyped(d, n) by { assert IsDirectory(d, n); }
  }

  lemma OtherKept(d: State, e: State, i: nat, k: nat, x: Dirent, n: nat)
    requires EntrySet(d, e, i, k, x) && n != i && n < |d.img.dins|
    ensures |e.img.dins| == |d.img.dins| && e.img.dins[n] == d.img.dins[n]
  {
    hide Contents, DirEntries;
  }

  // make_dir_under_root.
  method MakeDirUnderRoot(m: Builder, name: Name, ghost w: View, ghost t: Places) returns (ok: bool, inum: nat)
    requires m.Valid() && Shows(m.St(), w, t) && ROOTINO in t && ROOTINO < |w| && 1 < m.freeinode < NINODES
    requires Lookup(w[ROOTINO].entries, name) == None && 0 < |w[ROOTINO].entries| < 32
    modifies m, m.disk
    ensures ok <==> old(m.freeblock) < FSSIZE
    ensures ok ==> m.freeblock == old(m.freeblock) + 1
    ensures ok ==> m.Valid() && m.freeinode == old(m.freeinode) + 1 && inum == old(m.freeinode) && inum < |w|
    ensures ok ==> Shows(m.St(), DirView(w, |w[ROOTINO].entries|, inum, name), DirTree(t, |w[ROOTINO].entries|, inum))
  {
    hide Sound, Represents, Synced, TreeOk, ViewOf, DirEntries, Contents, Lookup, IsDirectory, EntrySet, DirView,
        DirTree, Shows, EntryBlocks, Tight, SuperBlock;
    ghost var a, k := m.St(), |w[ROOTINO].entries|;
    OneBlockDirectory(0);
    OneBlockDirectory(1);
    OneBlockDirectory(k);
    ShownDirectory(a, w, t, ROOTINO);
    DirectoryTyped(a, ROOTINO);
    inum := m.Ialloc(T_DIR);
    ghost var b := m.St();
    FreeShown(a, w, t, inum);
    Claiming(m.disk.sb, a, ROOTINO, inum, T_DIR, 0, 0);
    EntryCount(b, inum);
    ok := Dirlink(m, inum, DOT, inum);
    if !ok {
      return;
    }
    ghost var c := m.St();
    FirstEntry(b, c, inum, 0, Dirent(inum, DOT));
    EntryCount(c, inum);
    ok := Dirlink(m, inum, DOTDOT, ROOTINO);
    if !ok {
      return;
    }
    ghost var d := m.St();
    RootKept(m.disk.sb, a, c, d, inum);
    EntryCount(d, ROOTINO);
    ok := Dirlink(m, ROOTINO, name, inum);
    if !ok {
      return;
    }
    ghost var e := m.St();
    OtherKept(d, e, ROOTINO, k, Dirent(inum, name), inum);
    SetNlink(m, inum, 2);
    DirMade(m.disk.sb, a, b, c, d, e, m.St(), w, t, inum, name, k);
  }

  // A file made, filled and linked into directory dir.
  lemma FileMade(sb: Superblock, a: State, b: State, c: State, d: State, w: View, t: Places,
                 dir: nat, n: nat, name: Name, k: nat, bytes: seq<byte>)
    requires Sound(sb, a) && Shows(a, w, t) && 0 < n < NINODES && a.img.dins[n].typ == T_FREE && n != ROOTINO
    requires dir in t && dir < |w| && Lookup(w[dir].entries, name) == None
    requires b == MetaSet(ClaimedInode(a, n, T_FILE), n, 0, 0, 1) && Extended(b, c, n, bytes)
    requires k == |w[dir].entries| && EntrySet(c, d, dir, k, Dirent(n, name))
    ensures Shows(d, AfterCreate(w, dir, k, n, name, T_FILE), t) && n != dir && n < |d.img.dins|
              && Contents(d, n) == bytes
    ensures ROOTINO < |d.img.dins| == |a.img.dins| && d.img.dins[ROOTINO].nlink == a.img.dins[ROOTINO].nlink
    ensures forall j: nat :: j < NINODES && j != n && j != dir ==>
              d.img.dins[j] == a.img.dins[j] && Contents(d, j) == Contents(a, j)
  {
    hide TreeOk, ViewOf, DirEntries, Lookup, IsDirectory, Sound, Contents;
    ShownDirectory(a, w, t, dir);
    DirectoryTyped(a, dir);
    Claiming(sb, a, dir, n, T_FILE, 0, 0);
    NoContents(b, n);
    assert FilesKept(b, c, {n});
    ViewOne(b, c, n);
    ViewEntry(c, d, dir, k, Dirent(n, name));
    KeptTwice(a, b, c, {n}, {n}, {n});
    KeptTwice(a, c, d, {n}, {dir}, {n, dir});
    ViewAt(a, n);
    ViewAt(a, dir);
    ViewAt(b, n);
    ViewAt(c, n);
    FreeShown(a, w, t, n);
    CreateKeepsTree(w, t, dir, k, n, name, T_FILE);
    FileViews(ViewOf(a), ViewOf(d), w, dir, k, n, name);
    forall x | x in t
      ensures IsDirectory(d, x)
    {
      DirectoryTyped(a, x);
    }
  }

  lemma FileViews(v: View, v': View, w: View, dir: nat, k: nat, n: nat, name: Name)
    requires |v| == |w| == |v'| && ROOTINO < |w| && 0 < n < |w| && n != ROOTINO && dir < |w| && dir != n
    requires k == |w[dir].entries|
    requires w == v[ROOTINO := v[ROOTINO].(nlink := w[ROOTINO].nlink)]
    requires v' == v[n := Node(T_FILE, 1, [])][dir := v[dir].(entries := WithEntry(v[dir].entries, k, Dirent(n, name)))]
    ensures var u := AfterCreate(w, dir, k, n, name, T_FILE);
            u == v'[ROOTINO := v'[ROOTINO].(nlink := u[ROOTINO].nlink)]
  {
  }

  lemma DirKept(sb: Superblock, a: State, b: State, c: State, n: nat, bytes: seq<byte>, dir: nat)
    requires Sound(sb, a) && 0 < n < |a.img.dins| && dir < |a.img.dins| && n != dir && a.img.dins[n].typ == T_FREE
    requires b == MetaSet(ClaimedInode(a, n, T_FILE), n, 0, 0, 1) && Extended(b, c, n, bytes) && IsDirectory(a, dir)
    ensures IsDirectory(c, dir) && DirEntries(c, dir) == DirEntries(a, dir) && dir < |c.img.dins|
  {
    hide ViewOf, Sound, Contents;
    Claiming(sb, a, dir, n, T_FILE, 0, 0);
    assert FilesKept(b, c, {n});
    ViewOne(b, c, n);
  }

  /** The blocks of a file of so many bytes, tables included. */
  function FileBlocks(size: nat): nat { BlocksOf(DataBlocks(size)) }

  lemma FromEmpty(size: nat)
    ensures Growth(0, size) == FileBlocks(size)
  {
  }

  // ialloc(T_FILE), iappend for each piece, dirlink.
  method AddFile(m: Builder, dir: nat, name: Name, chunks: seq<seq<byte>>, ghost w: View, ghost t: Places)
    returns (ok: bool, inum: nat)
    requires m.Valid() && Shows(m.St(), w, t) && dir in t && dir < |w| && 1 < m.freeinode < NINODES
    requires Lookup(w[dir].entries, name) == None && 0 < |w[dir].entries| < 32 && |Flatten(chunks)| <= MAXFILE * BSIZE
    modifies m, m.disk
    ensures ok <==> old(m.freeblock) + FileBlocks(|Flatten(chunks)|) <= FSSIZE
    ensures ok ==> m.freeblock == old(m.freeblock) + FileBlocks(|Flatten(chunks)|)
    ensures ok ==> m.Valid() && m.freeinode == old(m.freeinode) + 1 && inum == old(m.freeinode) && inum < |w|
    ensures ok ==> Shows(m.St(), AfterCreate(w, dir, |w[dir].entries|, inum, name, T_FILE), t)
    ensures ok ==> inum != dir && Contents(m.St(), inum) == Flatten(chunks)
    ensures ok ==> ROOTINO < |m.disk.img.dins| == |old(m.disk.img.dins)|
                   && m.disk.img.dins[ROOTINO].nlink == old(m.disk.img.dins)[ROOTINO].nlink
    ensures ok ==> forall j: nat :: j < NINODES && j != inum && j != dir ==>
                     Contents(m.St(), j) == Contents(old(m.St()), j)
  {
    hide Sound, Represents, Synced, TreeOk, ViewOf, DirEntries, Contents, Lookup, IsDirectory, EntrySet, Shows,
        Extended, EntryBlocks, Tight, Growth, SuperBlock;
    ghost var a, k := m.St(), |w[dir].entries|;
    OneBlockDirectory(k);
    FromEmpty(|Flatten(chunks)|);
    ShownDirectory(a, w, t, dir);
    DirectoryTyped(a, dir);
    inum := m.Ialloc(T_FILE);
    ghost var b := m.St();
    FreeShown(a, w, t, inum);
    ok := m.AppendAll(inum, chunks);
    if !ok {
      return;
    }
    ghost var c := m.St();
    DirKept(m.disk.sb, a, b, c, inum, Flatten(chunks), dir);
    EntryCount(c, dir);
    ok := Dirlink(m, dir, name, inum);
    if !ok {
      return;
    }
    FileMade(m.disk.sb, a, b, c, m.St(), w, t, dir, inum, name, k, Flatten(chunks));
  }

  // The root directory with its two entries, on an empty image.
  lemma RootShown(a: State, b: State, c: State, d: State)
    requires a == EmptyState() && b == MetaSet(ClaimedInode(a, ROOTINO, T_DIR), ROOTINO, 0, 0, 1)
    requires EntrySet(b, c, ROOTINO, 0, Dirent(ROOTINO, DOT)) && EntrySet(c, d, ROOTINO, 1, Dirent(ROOTINO, DOTDOT))
    ensures Shows(d, RootView(), RootTree())
  {
    hide TreeOk, DirEntries, Sound, Contents, ViewOf;
    EmptySound();
    Claiming(ImageLayout(), a, 0, ROOTINO, T_DIR, 0, 0);
    FirstEntry(b, c, ROOTINO, 0, Dirent(ROOTINO, DOT));
    DotsAdded(b, c, d, ROOTINO, ROOTINO, 1);
    RootOk();
    forall i | 0 <= i < NINODES
      ensures ViewOf(a)[i] == Node(T_FREE, 0, [])
    {
      ViewAt(a, i);
    }
    ViewAt(b, ROOTINO);
  }

  method MakeRoot(m: Builder) returns (ok: bool)
    requires m.Valid() && m.St() == EmptyState() && m.freeinode == ROOTINO && m.freeblock < FSSIZE
    modifies m, m.disk
    ensures ok && m.freeblock == old(m.freeblock) + 1
    ensures ok ==> m.Valid() && m.freeinode == ROOTINO + 1 && Shows(m.St(), RootView(), RootTree())
  {
    hide Sound, Represents, Synced, TreeOk, ViewOf, DirEntries, Contents, IsDirectory, EntrySet, Shows, EntryBlocks,
        Tight, SuperBlock;
    ghost var a := m.St();
    OneBlockDirectory(0);
    OneBlockDirectory(1);
    var inum := m.Ialloc(T_DIR);
    ghost var b := m.St();
    Claiming(m.disk.sb, a, 0, ROOTINO, T_DIR, 0, 0);
    EntryCount(b, ROOTINO);
    ok := Dirlink(m, inum, DOT, inum);
    if !ok {
      return;
    }
    ghost var c := m.St();
    FirstEntry(b, c, ROOTINO, 0, Dirent(ROOTINO, DOT));
    EntryCount(c, ROOTINO);
    ok := Dirlink(m, inum, DOTDOT, inum);
    if ok {
      RootShown(a, b, c, m.St());
    }
  }

  // The link count of the root written at last: the image shows the tree as it is.
  lemma RootFixed(a: State, b: State, w: View, t: Places, x: i16)
    requires ROOTINO < |a.img.dins|
    requires b == MetaSet(a, ROOTINO, a.img.dins[ROOTINO].major, a.img.dins[ROOTINO].minor, x)
    requires Shows(a, w, t) && ROOTINO < |w| && w[ROOTINO].nlink == x
    ensures Shows(b, w, t) && ROOTINO < |b.img.dins| && b.img.dins[ROOTINO].nlink == x
  {
    hide TreeOk, DirEntries, Contents, IsDirectory, ViewOf;
    var v := ViewOf(a);
    ViewMeta(a, ROOTINO, a.img.dins[ROOTINO].major, a.img.dins[ROOTINO].minor, x);
    SameNlink(w, ROOTINO);
    assert ViewOf(b) == v[ROOTINO := v[ROOTINO].(nlink := x)] == w;
    forall d | d in t
      ensures IsDirectory(b, d)
    {
      DirectoryTyped(a, d);
    }
  }

  lemma SameNlink(w: View, i: nat)
    requires i < |w|
    ensures w[i := w[i].(nlink := w[i].nlink)] == w
  {
    assert w[i].(nlink := w[i].nlink) == w[i];
  }

  lemma ShowsExactly(st: State, w: View, t: Places)
    requires Shows(st, w, t) && ROOTINO < |st.img.dins| && ROOTINO < |w|
              && st.img.dins[ROOTINO].nlink == w[ROOTINO].nlink
    ensures NamespaceOk(st, t) && ViewOf(st) == w
  {
    hide TreeOk, DirEntries, IsDirectory, ViewOf;
    ViewAt(st, ROOTINO);
    SameNlink(ViewOf(st), ROOTINO);
  }

  lemma NotNamed(es: seq<Dirent>, name: Name)
    requires forall k :: 0 <= k < |es| ==> es[k].name != name
    ensures Lookup(es, name) == None
  {
  }

  lemma DirEntriesGrow(w: View, n: nat, name: Name)
    requires ROOTINO < |w| && n < |w| && n != ROOTINO
    ensures var u := DirView(w, |w[ROOTINO].entries|, n, name);
            && |u| == |w| && u[ROOTINO].entries == w[ROOTINO].entries + [Dirent(n, name)]
              && u[ROOTINO].nlink == w[ROOTINO].nlink + 1
            && u[n] == Node(T_DIR, 2, NewEntries(n, ROOTINO, T_DIR))
            && forall j :: 0 <= j < |w| && j != n && j != ROOTINO ==> u[j] == w[j]
  {
  }

  // Every inode that exists has a link.
  predicate AllLinked(w: View) {
    forall i :: 0 <= i < |w| && w[i].typ != T_FREE ==> w[i].nlink > 0
  }

  // The three directories under the root.
  function DirsView(): (w: View)
    ensures |w| == NINODES
  {
    seq<Node>(NINODES, i =>
      if i == ROOTINO then Node(T_DIR, 5, [Dirent(ROOTINO, DOT), Dirent(ROOTINO, DOTDOT), Dirent(2, ETC),
        Dirent(3, BIN), Dirent(4, ROOT)])
      else if 2 <= i <= 4 then Node(T_DIR, 2, NewEntries(i, ROOTINO, T_DIR))
      else Node(T_FREE, 0, []))
  }

  method MakeDirectories(m: Builder) returns (ok: bool, ghost t: Places)
    requires m.Valid() && m.freeinode == 2 && Shows(m.St(), RootView(), RootTree()) && m.freeblock + 3 <= FSSIZE
    modifies m, m.disk
    ensures ok && m.freeblock == old(m.freeblock) + 3
    ensures ok ==> 2 in t && t[2].bonus == 1
    ensures ok ==> m.Valid() && m.freeinode == 5 && Shows(m.St(), DirsView(), t) && ROOTINO in t && 3 in t
    ensures ok ==> ROOTINO < |m.disk.img.dins| && m.disk.img.dins[ROOTINO].nlink == 5
  {
    hide Sound, Represents, Synced, TreeOk, ViewOf, DirEntries, Contents, Lookup, IsDirectory, EntrySet, DirView, Shows,
        Tight, SuperBlock;
    t := RootTree();
    ghost var w0 := RootView();
    var etc, bin, home;
    NotNamed(w0[ROOTINO].entries, ETC);
    ok, etc := MakeDirUnderRoot(m, ETC, w0, t);
    if !ok {
      return;
    }
    DirEntriesGrow(w0, etc, ETC);
    ghost var w1 := DirView(w0, 2, etc, ETC);
    t := DirTree(t, 2, etc);
    NotNamed(w1[ROOTINO].entries, BIN);
    ok, bin := MakeDirUnderRoot(m, BIN, w1, t);
    if !ok {
      return;
    }
    DirEntriesGrow(w1, bin, BIN);
    ghost var w2 := DirView(w1, 3, bin, BIN);
    t := DirTree(t, 3, bin);
    NotNamed(w2[ROOTINO].entries, ROOT);
    ok, home := MakeDirUnderRoot(m, ROOT, w2, t);
    if !ok {
      return;
    }
    DirEntriesGrow(w2, home, ROOT);
    ghost var w := DirView(w2, 4, home, ROOT);
    t := DirTree(t, 4, home);
    assert w[ROOTINO].entries == DirsView()[ROOTINO].entries;
    assert w[ROOTINO].typ == T_DIR by { ShownDirectory(m.St(), w, t, ROOTINO); }
    forall i: nat | i < NINODES
      ensures w[i] == DirsView()[i]
    {
    }
    assert w == DirsView();
    ghost var a := m.St();
    ShownDirectory(a, w, t, ROOTINO);
    DirectoryTyped(a, ROOTINO);
    SetNlink(m, ROOTINO, 2 + 3);
    RootFixed(a, m.St(), w, t, 5);
  }

  lemma NewFile(w: View, dir: nat, n: nat, name: Name)
    requires dir < |w| && n < |w| && n != dir
    ensures var u := AfterCreate(w, dir, |w[dir].entries|, n, name, T_FILE);
            && |u| == |w| && u[dir].entries == w[dir].entries + [Dirent(n, name)] && u[dir].nlink == w[dir].nlink
            && u[dir].typ == w[dir].typ && u[n] == Node(T_FILE, 1, [])
            && forall j :: 0 <= j < |w| && j != n && j != dir ==> u[j] == w[j]
  {
  }

  lemma FlattenOne(text: seq<byte>)
    ensures Flatten([text]) == text
  {
    assert [text][..0] == [] && Flatten([]) == [];
  }

  /** The blocks of README and, when a program is given, of /bin/child. */
  function FilesBlocks(text: seq<byte>, program: Option<seq<seq<byte>>>): nat {
    FileBlocks(|text|) + match program
                         case None => 0
                         case Some(chunks) => FileBlocks(|Flatten(chunks)|)
  }

  // The files of the image: README in the root, and /bin/child when a program is given.
  method AddFiles(m: Builder, text: seq<byte>, program: Option<seq<seq<byte>>>, ghost t: Places)
    returns (ok: bool, ghost w: View)
    requires m.Valid() && m.freeinode == 5 && Shows(m.St(), DirsView(), t) && ROOTINO in t && 3 in t
    requires ROOTINO < |m.disk.img.dins| && m.disk.img.dins[ROOTINO].nlink == 5
    requires |text| <= MAXFILE * BSIZE && (program.Some? ==> |Flatten(program.value)| <= MAXFILE * BSIZE)
    modifies m, m.disk
    ensures ok <==> old(m.freeblock) + FilesBlocks(text, program) <= FSSIZE
    ensures ok ==> m.freeblock == old(m.freeblock) + FilesBlocks(text, program)
    ensures ok ==> m.Valid() && Shows(m.St(), w, t) && ROOTINO < |w| && AllLinked(w) && 2 < |w| && w[2] == DirsView()[2]
    ensures ok ==> ROOTINO < |m.disk.img.dins| && m.disk.img.dins[ROOTINO].nlink == w[ROOTINO].nlink
    ensures ok ==> 5 < |w| && w[ROOTINO].entries == DirsView()[ROOTINO].entries + [Dirent(5, README)]
    ensures ok ==> Contents(m.St(), 5) == text
    ensures ok && program.Some? ==>
              w[3].entries == DirsView()[3].entries + [Dirent(6, CHILD)]
                && Contents(m.St(), 6) == Flatten(program.value)
  {
    hide Sound, Represents, Synced, TreeOk, ViewOf, DirEntries, Contents, Lookup, IsDirectory, EntrySet, Shows, Flatten,
        FileBlocks, Tight, SuperBlock;
    ghost var w0 := DirsView();
    w := w0;
    NotNamed(w0[ROOTINO].entries, README);
    FlattenOne(text);
    var readme;
    ok, readme := AddFile(m, ROOTINO, README, [text], w0, t);
    if !ok {
      return;
    }
    NewFile(w0, ROOTINO, readme, README);
    ghost var w1 := AfterCreate(w0, ROOTINO, 5, readme, README, T_FILE);
    w := w1;
    if program.None? {
      return;
    }
    NotNamed(w1[3].entries, CHILD);
    var child;
    ok, child := AddFile(m, 3, CHILD, program.value, w1, t);
    if !ok {
      return;
    }
    NewFile(w1, 3, child, CHILD);
    w := AfterCreate(w1, 3, 2, child, CHILD, T_FILE);
  }

  /** mkfs: everything the kernel relies on holds of the image built. Ownership is sound with the
      bitmap as written, the name space is a tree whose directories have one surplus link each,
      and the files hold what was put into them. It is built exactly when the metadata, one block
      for each of the four directories and the blocks of the files fit the one bitmap buffer of
      balloc_mark_used. */
  method BuildImage(text: seq<byte>, program: Option<seq<seq<byte>>>) returns (ok: bool, m: Builder, ghost t: Places)
    requires |text| <= MAXFILE * BSIZE && (program.Some? ==> |Flatten(program.value)| <= MAXFILE * BSIZE)
    ensures ok <==> NMETA + 4 + FilesBlocks(text, program) <= BPB
    ensures ok ==> m.freeblock == NMETA + 4 + FilesBlocks(text, program)
    ensures ok ==> m.disk.Valid() && m.disk.sb == ImageLayout() && m.disk.img.bits == Upto(m.freeblock)
    ensures ok ==> Built(State(m.disk.img, m.trees, m.owner), t, text, program)
    ensures ok ==> m.trees == DiskTrees(m.disk.img.dins)
    ensures ok ==> 1 < |m.disk.sectors| && m.disk.sectors[1] == SuperBlock()
    ensures ok ==> Mountable(m.disk.sectors, m.disk.img, m.owner, t)
  {
    hide Represents, Sound, Synced, TreeOk, ViewOf, DirEntries, Contents, Lookup, IsDirectory, EntrySet, Shows,
        Flatten, DirsView, Built, Tight, FilesBlocks, SuperBlock;
    m := new Builder();
    t := map[];
    ok := MakeRoot(m);
    ok, t := MakeDirectories(m);
    ghost var w;
    ok, w := AddFiles(m, text, program, t);
    if !ok {
      return;
    }
    if m.freeblock > BPB {
      return false, m, t;
    }
    ghost var st := m.St();
    TreesOnDisk(st);
    m.BallocMarkUsed(m.freeblock);
    assert State(m.disk.img, m.trees, m.owner) == st;
    ShowsExactly(st, w, t);
    ImageBuilt(m.disk.sb, st, t, w, text, program);
    BuiltMounts(m.disk.sectors, m.disk.img, m.owner, t, text, program);
  }

  ghost predicate Built(st: State, t: Places, text: seq<byte>, program: Option<seq<seq<byte>>>) {
    && Sound(ImageLayout(), st) && NamespaceOk(st, t)
    && (forall i :: 0 <= i < |st.img.dins| ==> !Orphan(st.img.dins[i]))
    && Lookup(DirEntries(st, ROOTINO), README) == Some(5) && Contents(st, 5) == text
    && (program.Some? ==>
          && Lookup(DirEntries(st, ROOTINO), BIN) == Some(3) && Lookup(DirEntries(st, 3), CHILD) == Some(6)
          && Contents(st, 6) == Flatten(program.value))
    && Lookup(DirEntries(st, ROOTINO), ETC) == Some(2)
    && 2 < |ViewOf(st)| && ViewOf(st)[2] == Node(T_DIR, 2, NewEntries(2, ROOTINO, T_DIR)) && 2 in t && t[2].bonus == 1
  }

  lemma TreesOnDisk(st: State)
    requires |st.trees| == |st.img.dins| && Synced(st, {})
    ensures st.trees == DiskTrees(st.img.dins)
  {
  }

  lemma ImageBuilt(sb: Superblock, st: State, t: Places, w: View, text: seq<byte>, program: Option<seq<seq<byte>>>)
    requires sb == ImageLayout() && Sound(sb, st) && NamespaceOk(st, t) && ViewOf(st) == w && |w| > 6 && AllLinked(w)
    requires w[2] == DirsView()[2] && 2 in t && t[2].bonus == 1
    requires w[ROOTINO].entries == DirsView()[ROOTINO].entries + [Dirent(5, README)] && Contents(st, 5) == text
    requires program.Some? ==>
               w[3].entries == DirsView()[3].entries + [Dirent(6, CHILD)] && Contents(st, 6) == Flatten(program.value)
    ensures Built(st, t, text, program)
  {
    hide Sound, TreeOk, ViewOf, Contents, Lookup, IsDirectory, Flatten, DirEntries, NamespaceOk;
    forall i | 0 <= i < |st.img.dins|
      ensures !Orphan(st.img.dins[i])
    {
      ViewAt(st, i);
    }
    ViewAt(st, ROOTINO);
    ViewAt(st, 3);
    EntriesOf(st, ROOTINO);
    LastNamed(DirsView()[ROOTINO].entries, 5, README);
    NamedAt(w[ROOTINO].entries, 3, BIN);
    NamedAt(w[ROOTINO].entries, 2, ETC);
    if program.Some? {
      EntriesOf(st, 3);
      LastNamed(DirsView()[3].entries, 6, CHILD);
    }
  }

  lemma EntriesOf(st: State, d: nat)
    requires d < |st.img.dins| && ViewOf(st)[d].entries != []
    ensures DirEntries(st, d) == ViewOf(st)[d].entries
  {
    hide DirEntries;
  }

  lemma LastNamed(es: seq<Dirent>, n: nat, name: Name)
    requires n != 0 && forall k :: 0 <= k < |es| ==> es[k].name != name
    ensures Lookup(es + [Dirent(n, name)], name) == Some(n)
  {
    assert Named((es + [Dirent(n, name)])[|es|], name);
  }

  lemma NamedAt(es: seq<Dirent>, k: nat, name: Name)
    requires k < |es| && Named(es[k], name) && forall j :: 0 <= j < k ==> es[j].name != name
    ensures Lookup(es, name) == Some(es[k].inum)
  {
  }

  /** A disk the kernel can work with: sector 1 describes it, ownership is sound, and the name
      space is a tree without orphans. */
  ghost predicate Mountable(sectors: seq<Block>, img: Image, owner: Owners, t: Places) {
    && 1 < |sectors| && ReadSuper(sectors[1]).Some?
    && var sb := ReadSuper(sectors[1]).value;
       var st := State(img, DiskTrees(img.dins), owner);
       && Sound(sb, st) && Represents(sectors, sb, img) && NamespaceOk(st, t)
       && forall i :: 0 <= i < |st.img.dins| ==> !Orphan(st.img.dins[i])
  }

  // What mkfs builds is one.
  lemma BuiltMounts(sectors: seq<Block>, img: Image, owner: Owners, t: Places,
                    text: seq<byte>, program: Option<seq<seq<byte>>>)
    requires Represents(sectors, ImageLayout(), img) && 1 < |sectors| && sectors[1] == SuperBlock()
    requires Built(State(img, DiskTrees(img.dins), owner), t, text, program)
    ensures Mountable(sectors, img, owner, t) && ReadSuper(sectors[1]) == Some(ImageLayout())
  {
    hide Represents, Sound, NamespaceOk, Lookup, DirEntries, Contents, ViewOf, Flatten, ReadSuper;
    SuperRead();
  }

  lemma SoundLayout(sb: Superblock, st: State)
    requires Sound(sb, st)
    ensures sb.Valid()
  {
  }

  /** xv6fs_iinit on a disk: sector 1 is read, a wrong magic word refused, and otherwise the disk
      is mounted by what the sector says, with all invariants of the kernel in force. */
  method Mount(sectors: seq<Block>, ghost img: Image, ghost owner: Owners, ghost t: Places)
    returns (fs: FileSystem?)
    requires 1 < |sectors| && (Field32(sectors[1], 0) == XV6_MAGIC ==> Mountable(sectors, img, owner, t))
    ensures fs == null <==> Field32(sectors[1], 0) != XV6_MAGIC
    ensures fs != null ==>
              && fresh(fs) && fresh(fs.disk) && fs.Valid() && Some(fs.disk.sb) == ReadSuper(sectors[1])
              && fs.disk.sectors == sectors && fs.St() == State(img, DiskTrees(img.dins), owner)
              && NamespaceOk(fs.St(), t) && Pinned(fs.St(), fs.icache)
              && AllUnlocked(fs.icache) && forall k :: 0 <= k < NINODE ==> fs.icache[k].ref == 0
  {
    hide Represents, Sound, Synced, TreeOk, ViewOf, Contents, Lookup, IsDirectory, NamespaceOk, Field32;
    var super := ReadSuper(sectors[1]);
    if super.None? {
      return null;
    }
    SoundLayout(super.value, State(img, DiskTrees(img.dins), owner));
    var disk := new Disk(super.value, sectors, img);
    fs := new FileSystem(disk, owner);
  }

  /** A whole file read by the kernel is its contents: what mkfs was given comes back, whatever
      else is in use, unless no cache slot is left. */
  method ReadWhole(fs: FileSystem, inum: nat) returns (r: Option<seq<byte>>)
    requires fs.Valid() && AllUnlocked(fs.icache) && 0 < inum < |fs.disk.img.dins|
    requires fs.disk.img.dins[inum].typ == T_FILE || fs.disk.img.dins[inum].typ == T_DIR
    modifies fs, fs.disk
    ensures fs.Valid() && fs.St() == old(fs.St())
    ensures match r
            case Some(bytes) => bytes == Contents(fs.St(), inum)
            case None => old(fs.CacheFull())
  {
    hide Represents, Sound, Synced, Contents, SlotOk;
    ghost var st, c := fs.St(), fs.icache;
    Sizes(fs.disk.sb, st);
    var slot := fs.Iget(inum);
    if slot.None? {
      return None;
    }
    var ip: nat := slot.value;
    fs.Ilock(ip);
    HeldSlot(st, fs.icache, ip);
    SizeOk(fs.disk.sb, st, inum);
    var n, bytes := fs.Readi(ip, inum, 0, fs.icache[ip].size);
    assert bytes == Contents(st, inum);
    r := Some(bytes);
  }

  /** /etc of a built image, removed, leaks: it is out of the tree, nobody may hold it, and it keeps
      its inode with one link. */
  lemma EtcLeaks(st: State, t: Places, text: seq<byte>, program: Option<seq<seq<byte>>>, b: State, k: nat,
                 freed: bool, held: bool)
    requires Built(st, t, text, program) && Unlinked(st, b, t, ROOTINO, k, freed)
    requires ViewOf(st)[ROOTINO].entries[k].name == ETC
    requires freed <==> st.img.dins[ViewOf(st)[ROOTINO].entries[k].inum].nlink == 1 && !held
    ensures Removable(st, ROOTINO, ETC)
    ensures ViewOf(st)[ROOTINO].entries[k].inum == 2 && !freed && 2 !in TreeAfterUnlink(ViewOf(st), t, 2)
    ensures 2 < |b.img.dins| && b.img.dins[2].typ == T_DIR && b.img.dins[2].nlink == 1
  {
    EtcRemovable(st, t, text, program);
    hide Sound, Contents, Lookup, DirEntries, NamespaceOk, ViewOf, FilesKept, Unlinked, Flatten, Removable;
    OpenFiles.UnlinkedEntry(st, b, t, ROOTINO, k, freed);
    FreedDirectory(st, b, t, ROOTINO, k, freed, held);
  }

  // It can be removed.
  lemma EtcRemovable(st: State, t: Places, text: seq<byte>, program: Option<seq<seq<byte>>>)
    requires Built(st, t, text, program)
    ensures Removable(st, ROOTINO, ETC)
  {
    hide Sound, Contents, Lookup, DirEntries, NamespaceOk, Flatten, NoNames;
    ViewAt(st, 2);
    RemovableByName(st, t, 2);
  }
}
