/** What holding a reference guarantees: the file system together with a multiset of the cache
    slots somebody holds, one occurrence for each holder. */
module OpenFiles {
  import opened Wrappers
  import opened Bits
  import opened DiskFormat
  import opened Inodes
  import opened Dirents
  import opened Directory
  import opened Paths
  import opened PathWalk
  import opened Tree
  import opened NameTree
  import opened References
  import opened Namespace
  import opened CreateUnlink

  // Every slot has at least as many references as holders.
  ghost predicate Covered(icache: seq<Inode>, h: multiset<nat>) {
    |icache| == NINODE && forall k :: k in h ==> k < NINODE && h[k] <= icache[k].ref
  }

  /** The invariant between system calls: the file system is sound, the name space a tree, nothing
      is locked, and every holder is counted, the holder of the current directory included. */
  ghost predicate Files(fs: FileSystem, t: Places, h: multiset<nat>, cwd: nat)
    reads fs, fs.disk
  {
    && fs.Valid() && AllUnlocked(fs.icache) && NamespaceOk(fs.St(), t) && Pinned(fs.St(), fs.icache)
    && Covered(fs.icache, h) && cwd in h && cwd < NINODE
  }

  /** The path is absolute, or the current directory is one of the tree: it may have been removed. */
  ghost predicate FromTree(fs: FileSystem, t: Places, cwd: nat, path: Path)
    reads fs
  {
    cwd < |fs.icache| && Origin(path, fs.icache[cwd].inum) in t
  }

  /** Every slot in h still holds the inode it held; that inode exists as before, and the bytes of
      a file are untouched unless it is in S. */
  ghost predicate Steady(a: State, c: seq<Inode>, b: State, c': seq<Inode>, h: multiset<nat>, S: set<nat>) {
    && |c| == |c'| == NINODE
    && forall k :: k in h ==> k < NINODE && c'[k].inum == c[k].inum && InodeSteady(a, b, c[k].inum, S)
  }

  ghost predicate InodeSteady(a: State, b: State, i: nat, S: set<nat>) {
    && i < |a.img.dins| && i < |b.img.dins| && b.img.dins[i].typ == a.img.dins[i].typ != T_FREE
    && (i !in S && a.img.dins[i].typ != T_DIR ==> Contents(b, i) == Contents(a, i))
  }

  lemma SteadyTwice(a: State, c: seq<Inode>, a': State, c': seq<Inode>, a'': State, c'': seq<Inode>,
                    h: multiset<nat>, h': multiset<nat>, S: set<nat>, S': set<nat>, U: set<nat>)
    requires Steady(a, c, a', c', h, S) && Steady(a', c', a'', c'', h', S') && h' <= h && S <= U && S' <= U
    ensures Steady(a, c, a'', c'', h', U)
  {
    hide Contents;
  }

  lemma HeldExists(st: State, icache: seq<Inode>, h: multiset<nat>, k: nat)
    requires |st.trees| == |st.img.dins| && CacheOk(st, icache, {}) && Covered(icache, h) && k in h
    ensures k < NINODE && icache[k].ref > 0 && 0 < icache[k].inum < |st.img.dins|
    ensures st.img.dins[icache[k].inum].typ != T_FREE
  {
    assert SlotOk(st, icache[k], {});
  }

  // Held slots through an operation that only counts and locks.
  lemma SteadyRefs(a: State, c: seq<Inode>, b: State, c': seq<Inode>, m: multiset<nat>, held: set<nat>,
                   h: multiset<nat>, S: set<nat>)
    requires |a.trees| == |a.img.dins| && CacheOk(a, c, {}) && Covered(c, h) && Refs(c, c', m, held)
    requires forall k :: k in m ==> k < NINODE
    requires forall i: nat :: i < |a.img.dins| && a.img.dins[i].typ != T_FREE && Referenced(c, i) ==>
              InodeSteady(a, b, i, S)
    ensures Steady(a, c, b, c', h, S) && Covered(c', h + m)
  {
    hide CacheOk, InodeSteady;
    forall k | k in h
      ensures k < NINODE && c'[k].inum == c[k].inum && InodeSteady(a, b, c[k].inum, S)
    {
      HeldExists(a, c, h, k);
      assert SlotRefs(c[k], c'[k], m[k], k in held);
      assert Referenced(c, c[k].inum);
    }
    forall k | k in h + m
      ensures k < NINODE && (h + m)[k] <= c'[k].ref
    {
      assert k < NINODE;
      assert SlotRefs(c[k], c'[k], m[k], k in held);
    }
  }

  lemma SteadyDropped(a: State, c: seq<Inode>, c': seq<Inode>, h: multiset<nat>, ip: nat)
    requires |a.trees| == |a.img.dins| && CacheOk(a, c, {}) && Covered(c, h + multiset{ip}) && Pinned(a, c)
    requires ip < |c| && !Drops(c[ip]) && c[ip].ref > 0 && c' == c[ip := c[ip].(ref := c[ip].ref - 1)]
    ensures Steady(a, c, a, c', h, {}) && Covered(c', h) && Pinned(a, c')
  {
    hide CacheOk, Contents;
    forall k | k in h
      ensures k < NINODE && c'[k].inum == c[k].inum && InodeSteady(a, a, c[k].inum, {})
    {
      assert k in h + multiset{ip};
      HeldExists(a, c, h + multiset{ip}, k);
    }
    forall k | k in h
      ensures k < NINODE && h[k] <= c'[k].ref
    {
      assert k in h + multiset{ip};
    }
    forall i: nat | i < |a.img.dins| && Orphan(a.img.dins[i])
      ensures HasSlot(c', i)
    {
      assert HasSlot(c, i);
      var k :| 0 <= k < |c| && c[k].ref > 0 && c[k].valid && c[k].inum == i;
      assert c'[k].ref > 0 by { PinnedSlot(a, c, k); }
    }
  }

  lemma PinnedSlot(a: State, c: seq<Inode>, k: nat)
    requires |a.trees| == |a.img.dins| && CacheOk(a, c, {}) && k < NINODE && c[k].ref > 0 && c[k].valid
    ensures c[k].inum < |a.img.dins|
    ensures a.img.dins[c[k].inum].nlink == 0 && !Drops(c[k]) ==> c[k].ref > 1
  {
    assert SlotOk(a, c[k], {});
  }

  lemma SteadyFreed(sb: Superblock, a: State, c: seq<Inode>, b: State, c': seq<Inode>, h: multiset<nat>, ip: nat)
    requires Sound(sb, a) && |a.trees| == |a.img.dins| && CacheOk(a, c, {}) && Covered(c, h + multiset{ip})
              && Pinned(a, c)
    requires ip < |c| && Drops(c[ip]) && FreedInode(a, b, c[ip].inum)
    requires c' == c[ip := c[ip].(ref := 0, valid := false, typ := T_FREE, size := 0, addrs := NoAddrs())]
    ensures Steady(a, c, b, c', h, {}) && Covered(c', h) && Pinned(b, c')
  {
    hide CacheOk, Contents, Sound, FreedInode;
    var j := c[ip].inum;
    ViewFree(sb, a, b, j);
    forall k | k in h
      ensures k < NINODE && k != ip && c'[k].inum == c[k].inum && InodeSteady(a, b, c[k].inum, {})
    {
      assert k in h + multiset{ip};
      HeldExists(a, c, h + multiset{ip}, k);
      assert (h + multiset{ip})[ip] <= 1;
      OneSlot(a, c, k, ip);
    }
    forall k | k in h
      ensures k < NINODE && h[k] <= c'[k].ref
    {
      assert k in h + multiset{ip};
    }
    forall i: nat | i < |b.img.dins| && Orphan(b.img.dins[i])
      ensures HasSlot(c', i)
    {
      assert i != j by { FreedType(a, b, j); }
      assert HasSlot(c, i);
      var k :| 0 <= k < |c| && c[k].ref > 0 && c[k].valid && c[k].inum == i;
      assert c'[k] == c[k];
    }
  }

  lemma FreedType(a: State, b: State, j: nat)
    requires FreedInode(a, b, j)
    ensures j < |b.img.dins| && b.img.dins[j].typ == T_FREE
  {
  }

  lemma OneSlot(st: State, c: seq<Inode>, j: nat, k: nat)
    requires |st.trees| == |st.img.dins| && CacheOk(st, c, {}) && j < NINODE && k < NINODE
    requires c[j].ref > 0 && c[k].ref > 0 && j != k
    ensures c[j].inum != c[k].inum
  {
  }

  /** A reference dropped frees the inode exactly when it was the last one and no name is left. */
  ghost predicate DroppedRef(a: State, c: seq<Inode>, b: State, ip: nat) {
    && ip < |c| && c[ip].inum < |a.img.dins|
    && if a.img.dins[c[ip].inum].nlink == 0 && c[ip].ref == 1 then FreedInode(a, b, c[ip].inum) else b == a
  }

  method TakeRef(fs: FileSystem, ip: nat, ghost t: Places, ghost h: multiset<nat>, ghost cwd: nat)
    requires Files(fs, t, h, cwd) && ip in h
    modifies fs`icache
    ensures Files(fs, t, h + multiset{ip}, cwd)
    ensures Steady(old(fs.St()), old(fs.icache), fs.St(), fs.icache, h, {})
  {
    hide Sound, Represents, SlotOk, CacheOk, Synced, Pinned, NamespaceOk, Refs, Steady, InodeSteady;
    ghost var a, c := fs.St(), fs.icache;
    HeldExists(a, c, h, ip);
    fs.Idup(ip);
    DupRefs(c, fs.icache, ip);
    SameSteady(a, c, {});
    SteadyRefs(a, c, a, fs.icache, multiset{ip}, {}, h, {});
    PinnedSame(a, c, fs.icache, multiset{ip}, {});
  }

  lemma DupRefs(c: seq<Inode>, c': seq<Inode>, ip: nat)
    requires |c| == NINODE && ip < NINODE && AllUnlocked(c) && c' == c[ip := c[ip].(ref := c[ip].ref + 1)]
    ensures Refs(c, c', multiset{ip}, {}) && AllUnlocked(c')
  {
  }

  lemma SameSteady(a: State, c: seq<Inode>, S: set<nat>)
    ensures forall i: nat :: i < |a.img.dins| && a.img.dins[i].typ != T_FREE && Referenced(c, i) ==>
              InodeSteady(a, a, i, S)
  {
    hide Contents;
  }

  /** iput of a holder's reference: whatever anybody else still holds stays as it is. */
  method PutRef(fs: FileSystem, ip: nat, ghost t: Places, ghost h: multiset<nat>, ghost cwd: nat)
    requires Files(fs, t, h + multiset{ip}, cwd) && cwd in h
    modifies fs, fs.disk
    ensures Files(fs, t, h, cwd)
    ensures DroppedRef(old(fs.St()), old(fs.icache), fs.St(), ip)
    ensures Steady(old(fs.St()), old(fs.icache), fs.St(), fs.icache, h, {})
  {
    hide Sound, Represents, SlotOk, CacheOk, Synced, Pinned, NamespaceOk, Refs, InodeSteady, FreedInode, Contents;
    ghost var a, c := fs.St(), fs.icache;
    HeldExists(a, c, h + multiset{ip}, ip);
    HeldExists(a, c, h + multiset{ip}, cwd);
    UnlockedSlot(c, ip);
    FreedAtLastReference(a, c, ip);
    fs.Iput(ip);
    if Drops(c[ip]) {
      SteadyFreed(fs.disk.sb, a, c, fs.St(), fs.icache, h, ip);
      DroppedLinks(a, c, ip);
      FreedKeepsNamespace(fs.disk.sb, a, fs.St(), t, c[ip].inum);
    } else {
      SteadyDropped(a, c, fs.icache, h, ip);
    }
  }

  lemma DroppedLinks(a: State, c: seq<Inode>, ip: nat)
    requires |a.trees| == |a.img.dins| && CacheOk(a, c, {}) && ip < NINODE && Drops(c[ip])
    ensures 0 < c[ip].inum < |a.img.dins| && a.img.dins[c[ip].inum].nlink == 0
  {
    assert SlotOk(a, c[ip], {});
  }

  lemma CwdHeld(c: seq<Inode>, h: multiset<nat>, cwd: nat)
    requires Covered(c, h) && cwd in h
    ensures cwd < NINODE == |c| && c[cwd].ref > 0
  {
  }

  /** namei: a reference more to what the path leads to; all else stays. */
  method LookupRef(fs: FileSystem, path: Path, cwd: nat, ghost t: Places, ghost h: multiset<nat>) returns (r: Walked)
    requires Files(fs, t, h, cwd) && FromTree(fs, t, cwd, path)
    modifies fs, fs.disk
    ensures r.NoSlots? ==> fs.CacheFull()
    ensures !r.NoSlots? ==> fs.St() == old(fs.St())
    ensures !r.NoSlots? ==>
              Refs(old(fs.icache), fs.icache, if r.Reached? then multiset{r.ip} else multiset{}, {})
    ensures !r.NoSlots? ==> Steady(old(fs.St()), old(fs.icache), fs.St(), fs.icache, h, {})
    ensures !r.NoSlots? ==> Files(fs, t, if r.Reached? then h + multiset{r.ip} else h, cwd)
    ensures var target := Resolve(fs.St(), Origin(path, old(fs.icache[cwd].inum)), Components(path));
            match r
            case NotFound => target == None
            case Reached(ip) =>
              && ip < NINODE && target == Some(fs.icache[ip].inum) && EntryClosed(fs.St(), t.Keys, fs.icache[ip].inum)
            case NoSlots => true
  {
    hide Sound, Represents, SlotOk, CacheOk, Synced, Pinned, NamespaceOk, Refs, Steady, InodeSteady, Covered;
    hide Neutral, AllUnlocked, Closed, Resolve, Components;
    ghost var a, c := fs.St(), fs.icache;
    CwdHeld(c, h, cwd);
    NamespaceClosed(a, t);
    var name;
    r, name := Namex(fs, path, false, cwd, t.Keys);
    if r.NoSlots? {
      return;
    }
    ghost var got := if r.Reached? then Some(r.ip) else None;
    ghost var m := if r.Reached? then multiset{r.ip} else multiset{};
    RefsNeutral(c, fs.icache, got);
    NeutralUnlocked(c, fs.icache, got);
    SameSteady(a, c, {});
    SteadyRefs(a, c, a, fs.icache, m, {}, h, {});
    PinnedSame(a, c, fs.icache, m, {});
    SteadyInum(a, c, a, fs.icache, h, {}, cwd);
    CoveredSame(fs.icache, h + m, if r.Reached? then h + multiset{r.ip} else h);
  }

  lemma SteadyInum(a: State, c: seq<Inode>, b: State, c': seq<Inode>, h: multiset<nat>, S: set<nat>, k: nat)
    requires Steady(a, c, b, c', h, S) && k in h
    ensures |c| == |c'| == NINODE && k < NINODE && c'[k].inum == c[k].inum
  {
  }

  lemma CoveredSame(c: seq<Inode>, h: multiset<nat>, h': multiset<nat>)
    requires Covered(c, h) && h' == h
    ensures Covered(c, h')
  {
  }

  lemma CreatedSteady(a: State, b: State, t: Places, d: nat, k: nat, n: nat, name: Name, typ: i16, major: i16,
      minor: i16,
                      c: seq<Inode>)
    requires Created(a, b, t, d, k, n, name, typ, major, minor)
    ensures forall i: nat :: i < |a.img.dins| && a.img.dins[i].typ != T_FREE && Referenced(c, i) ==>
              InodeSteady(a, b, i, {})
  {
    hide Contents, NamespaceOk;
    ViewAt(a, d);
    ViewAt(b, d);
    forall i: nat | i < |a.img.dins| && a.img.dins[i].typ != T_FREE
      ensures InodeSteady(a, b, i, {})
    {
      if i == d {
        CreatedParentType(a, b, t, d, k, n, name, typ, major, minor);
      }
    }
  }

  lemma CreatedParentType(a: State, b: State, t: Places, d: nat, k: nat, n: nat, name: Name, typ: i16,
                          major: i16, minor: i16)
    requires Created(a, b, t, d, k, n, name, typ, major, minor)
    ensures d < |a.img.dins| == |b.img.dins| && b.img.dins[d].typ == a.img.dins[d].typ == T_DIR
  {
    hide Contents, IsDirectory, TreeOk;
    ViewAt(a, d);
    ViewAt(b, d);
    DirectoryTyped(b, d) by { InTree(b, TreeAfterCreate(t, d, k, n, typ), d); }
  }

  lemma UnlinkedSteady(a: State, b: State, t: Places, d: nat, k: nat, freed: bool, c: seq<Inode>)
    requires Unlinked(a, b, t, d, k, freed) && (freed ==> !Referenced(c, ViewOf(a)[d].entries[k].inum))
    ensures forall i: nat :: i < |a.img.dins| && a.img.dins[i].typ != T_FREE && Referenced(c, i) ==>
              InodeSteady(a, b, i, {})
  {
    hide Contents, NamespaceOk, RemovableView;
    var j := ViewOf(a)[d].entries[k].inum;
    ViewAt(a, d);
    ViewAt(b, d);
    ViewAt(a, j);
    ViewAt(b, j);
    forall i: nat | i < |a.img.dins| && a.img.dins[i].typ != T_FREE && Referenced(c, i)
      ensures InodeSteady(a, b, i, {})
    {
      if i == d {
        UnlinkedParentType(a, b, t, d, k, freed);
      }
    }
  }

  lemma UnlinkedParentType(a: State, b: State, t: Places, d: nat, k: nat, freed: bool)
    requires Unlinked(a, b, t, d, k, freed)
    ensures d < |a.img.dins| == |b.img.dins| && b.img.dins[d].typ == a.img.dins[d].typ == T_DIR
  {
    hide Contents, IsDirectory, TreeOk, RemovableView;
    var j := ViewOf(a)[d].entries[k].inum;
    ViewAt(a, d);
    ViewAt(b, d);
    DirectoryTyped(b, d) by { InTree(b, TreeAfterUnlink(ViewOf(a), t, j), d); }
  }

  lemma ViewEmptied(a: State, i: nat)
    requires i < |a.img.dins| == |a.trees| && a.img.dins[i].typ != T_DIR
    ensures var b := Emptied(a, i);
            && FilesKept(a, b, {i}) && ViewOf(b) == ViewOf(a)
            && forall d: nat :: d < |a.img.dins| && IsDirectory(a, d) ==> IsDirectory(b, d)
  {
    hide Contents;
    var b := Emptied(a, i);
    forall j: nat | j < |a.img.dins| && j != i
      ensures Contents(b, j) == Contents(a, j)
    {
      SameTree(a, b, j);
    }
    ViewOne(a, b, i);
  }

  /** Truncating a file through open touches no other file, no name and no reference. */
  lemma EmptiedKeeps(a: State, i: nat, t: Places, c: seq<Inode>)
    requires NamespaceOk(a, t) && Pinned(a, c) && i < |a.img.dins| && a.img.dins[i].typ != T_DIR
    ensures NamespaceOk(Emptied(a, i), t) && Pinned(Emptied(a, i), c)
    ensures forall j: nat :: j < |a.img.dins| && a.img.dins[j].typ != T_FREE ==> InodeSteady(a, Emptied(a, i), j, {i})
  {
    hide Contents, IsDirectory, TreeOk, ViewOf, HasSlot;
    ViewEmptied(a, i);
    forall d | d in t
      ensures IsDirectory(Emptied(a, i), d)
    {
      DirectoryTyped(a, d);
    }
  }

  // The new name is where create put it; what is open stays open.
  ghost predicate CreateOutcome(a: State, b: State, t: Places, t': Places, dir: Option<nat>, name: Name, typ: i16,
                                c': seq<Inode>, r: Opening)
  {
    if dir == None then r == Failed && b == a && t' == t
    else match Lookup(DirEntries(a, dir.value), name)
         case Some(j) =>
           && b == a && t' == t && j < |a.img.dins|
           && (r.Opened? <==> typ == T_FILE && a.img.dins[j].typ == T_FILE)
           && (r.Opened? ==> r.ip < |c'| && c'[r.ip].inum == j)
         case None =>
           && r.Opened? && r.ip < |c'|
           && exists k: nat :: Created(a, b, t, dir.value, k, c'[r.ip].inum, name, typ, 0, 0)
                               && t' == TreeAfterCreate(t, dir.value, k, c'[r.ip].inum, typ)
  }

  // What a create that may truncate changes for the holders of open files.
  function Resets(trunc: bool, r: Opening, c: seq<Inode>): set<nat> {
    if trunc && r.Opened? && r.ip < |c| then {c[r.ip].inum} else {}
  }

  /** xv6fs_create(path, typ, 0, 0), the size reset if asked for, and the inode unlocked: one more
      holder. made is the state before the reset. */
  method CreateRef(fs: FileSystem, path: Path, typ: i16, trunc: bool, cwd: nat, ghost t: Places, ghost h: multiset<nat>)
    returns (r: Opening, ghost t': Places, ghost made: State)
    requires Files(fs, t, h, cwd) && FromTree(fs, t, cwd, path)
    requires (typ == T_DIR || typ == T_FILE) && (trunc ==> typ == T_FILE)
    requires typ == T_DIR ==> RoomForLink(fs.St(), path, fs.icache[cwd].inum)
    modifies fs, fs.disk
    ensures r.Stopped? ==> Exhausted(fs, old(fs.St()))
    ensures !r.Stopped? ==> Files(fs, t', if r.Opened? then h + multiset{r.ip} else h, cwd)
    ensures !r.Stopped? ==>
              Steady(old(fs.St()), old(fs.icache), fs.St(), fs.icache, h, Resets(trunc, r, fs.icache))
    ensures !r.Stopped? ==> CreateOutcome(old(fs.St()), made, t, t',
                                          Target(old(fs.St()), path, old(fs.icache[cwd].inum)), LastName(path), typ,
                                            fs.icache, r)
    ensures r.Opened? ==> r.ip < |fs.icache| && fs.icache[r.ip].inum < |made.img.dins|
                          && made.img.dins[fs.icache[r.ip].inum].nlink != 0
    ensures !r.Stopped? ==> fs.St() == if trunc && r.Opened? then Emptied(made, fs.icache[r.ip].inum) else made
  {
    hide Sound, Represents, SlotOk, CacheOk, Synced, Pinned, NamespaceOk, Refs, Steady, InodeSteady, Covered;
    hide AllUnlocked, Target, Created, DirEntries, Lookup, Exhausted, RoomForLink;
    ghost var a, c := fs.St(), fs.icache;
    CwdHeld(c, h, cwd);
    ghost var n, k;
    r, n, k := Create(fs, path, typ, 0, 0, cwd, t);
    t', made := t, fs.St();
    if r.Stopped? {
      return;
    }
    ghost var m := if r.Opened? then multiset{r.ip} else multiset{};
    ghost var b, c1 := fs.St(), fs.icache;
    ghost var dir, name := Target(a, path, c[cwd].inum), LastName(path);
    if dir != None && Lookup(DirEntries(a, dir.value), name) == None {
      CreatedTree(a, b, t, dir.value, k, n, name, typ, 0, 0);
      t' := TreeAfterCreate(t, dir.value, k, n, typ);
      CreatedSteady(a, b, t, dir.value, k, n, name, typ, 0, 0, c);
    } else {
      SameSteady(a, c, {});
    }
    SteadyRefs(a, c, b, c1, m, if r.Opened? then {r.ip} else {}, h, {});
    SteadyInum(a, c, b, c1, h, {}, cwd);
    CoveredSame(c1, h + m, if r.Opened? then h + multiset{r.ip} else h);
    if r.Failed? {
      RefsUnheld(c, c1, m, {});
      return;
    }
    HeldSlot(b, c1, r.ip);
    TargetInTree(a, t, path, c[cwd].inum);
    if Lookup(DirEntries(a, dir.value), name) == None {
      CreatedLinks(a, b, t, dir.value, k, n, name, typ, 0, 0);
      ViewAt(b, n);
    } else {
      BoundLinks(a, t, dir.value, name);
    }
    UnlockCreated(fs, r.ip, trunc, t', c, m, a, h, cwd);
  }

  // What a name of a directory is bound to has a link.
  lemma BoundLinks(st: State, t: Places, d: nat, name: Name)
    requires NamespaceOk(st, t) && d in t && Lookup(DirEntries(st, d), name).Some?
    ensures var j := Lookup(DirEntries(st, d), name).value; j < |st.img.dins| && st.img.dins[j].nlink != 0
  {
    hide NamespaceOk, Closed, DirEntries;
    NamespaceClosed(st, t);
    EntryOf(st, t.Keys, d, name);
  }

  lemma TargetInTree(st: State, t: Places, path: Path, cwd: nat)
    requires NamespaceOk(st, t) && Origin(path, cwd) in t && Target(st, path, cwd).Some?
    ensures Target(st, path, cwd).value in t
  {
    hide NamespaceOk, Closed, DirEntries, Components;
    NamespaceClosed(st, t);
    var names := Components(path);
    ResolvesInTree(st, t, Origin(path, cwd), names[..|names| - 1]);
  }

  lemma {:induction false} ResolvesInTree(st: State, t: Places, i: nat, names: seq<seq<byte>>)
    requires Closed(st, t.Keys) && i in t && Resolve(st, i, names).Some?
    ensures EntryClosed(st, t.Keys, Resolve(st, i, names).value)
    decreases |names|
  {
    hide Closed, DirEntries;
    LiveInode(st, t.Keys, i);
    if names != [] {
      EntryOf(st, t.Keys, i, names[0]);
      var j := Lookup(DirEntries(st, i), names[0]).value;
      if j in t {
        ResolvesInTree(st, t, j, names[1..]);
      }
    }
  }

  // The size reset if asked for, and the inode unlocked.
  method UnlockCreated(fs: FileSystem, ip: nat, trunc: bool, ghost t: Places, ghost c: seq<Inode>,
      ghost m: multiset<nat>,
                       ghost a: State, ghost h: multiset<nat>, ghost cwd: nat)
    requires ip < |fs.icache| && fs.Held(ip, fs.icache[ip].inum) && fs.Valid()
    requires NamespaceOk(fs.St(), t) && Pinned(fs.St(), fs.icache)
    requires fs.icache[ip].inum < |fs.disk.img.dins|
    requires trunc ==> fs.disk.img.dins[fs.icache[ip].inum].typ != T_DIR
    requires Refs(c, fs.icache, m, {ip}) && Steady(a, c, fs.St(), fs.icache, h, {})
              && Covered(fs.icache, h + multiset{ip})
    requires cwd in h && cwd < |fs.icache|
    modifies fs, fs.disk
    ensures Files(fs, t, h + multiset{ip}, cwd) && ip < |fs.icache| && fs.icache[ip].inum == old(fs.icache[ip].inum)
    ensures fs.St() == if trunc then Emptied(old(fs.St()), old(fs.icache[ip].inum)) else old(fs.St())
    ensures Steady(a, c, fs.St(), fs.icache, h, if trunc then {fs.icache[ip].inum} else {})
  {
    hide Sound, Represents, SlotOk, CacheOk, Synced, Pinned, NamespaceOk, Refs, Steady, InodeSteady, Covered,
        AllUnlocked;
    ghost var b, c1, i := fs.St(), fs.icache, fs.icache[ip].inum;
    HeldSlot(b, c1, ip);
    RefsAt(c, c1, m, {ip}, ip);
    if trunc {
      EmptiedKeeps(b, i, t, c1);
      fs.ResetSize(ip, i);
      SizeHeld(c1, fs.icache, ip);
      RefsHeld(c, c1, fs.icache, m, {ip});
      SteadyEmptied(a, c, b, c1, fs.icache, h, i);
      CoveredHeld(c1, fs.icache, h + multiset{ip});
      PinnedHeld(fs.St(), c1, fs.icache);
    }
    ghost var b2, c2 := fs.St(), fs.icache;
    fs.Iunlock(ip);
    RefsUnlocked(c, c2, fs.icache, m, {ip}, ip);
    RefsUnheld(c, fs.icache, m, {ip} - {ip});
    UnlockKeeps(a, c, b2, c2, fs.icache, ip, h, if trunc then {i} else {}, h + multiset{ip});
  }

  lemma SteadyEmptied(a: State, c: seq<Inode>, b: State, c1: seq<Inode>, c2: seq<Inode>, h: multiset<nat>, i: nat)
    requires Steady(a, c, b, c1, h, {}) && SlotsHeld(c1, c2) && i < |b.img.dins|
    requires forall j: nat :: j < |b.img.dins| && b.img.dins[j].typ != T_FREE ==> InodeSteady(b, Emptied(b, i), j, {i})
    ensures Steady(a, c, Emptied(b, i), c2, h, {i})
  {
    hide Contents;
    forall k | k in h
      ensures k < NINODE && c2[k].inum == c[k].inum && InodeSteady(a, Emptied(b, i), c[k].inum, {i})
    {
      assert InodeSteady(a, b, c[k].inum, {});
      assert SameHold(c1[k], c2[k]);
    }
  }

  lemma CoveredHeld(c1: seq<Inode>, c2: seq<Inode>, h: multiset<nat>)
    requires Covered(c1, h) && SlotsHeld(c1, c2)
    ensures Covered(c2, h)
  {
    forall k | k in h
      ensures k < NINODE && h[k] <= c2[k].ref
    {
      assert SameHold(c1[k], c2[k]);
    }
  }

  lemma PinnedHeld(st: State, c1: seq<Inode>, c2: seq<Inode>)
    requires Pinned(st, c1) && SlotsHeld(c1, c2)
    ensures Pinned(st, c2)
  {
    forall i: nat | i < |st.img.dins| && Orphan(st.img.dins[i])
      ensures HasSlot(c2, i)
    {
      assert HasSlot(c1, i);
      var k :| 0 <= k < |c1| && c1[k].ref > 0 && c1[k].valid && c1[k].inum == i;
      assert SameHold(c1[k], c2[k]);
    }
  }

  lemma CreatedTree(a: State, b: State, t: Places, d: nat, k: nat, n: nat, name: Name, typ: i16, major: i16, minor: i16)
    requires Created(a, b, t, d, k, n, name, typ, major, minor)
    ensures d in t && NamespaceOk(b, TreeAfterCreate(t, d, k, n, typ))
              && t.Keys <= TreeAfterCreate(t, d, k, n, typ).Keys
    ensures n < |b.img.dins| && b.img.dins[n].typ == typ
  {
    hide ViewOf, FilesKept, NamespaceOk;
    ViewAt(b, n);
  }

  lemma RefsUnheld(a: seq<Inode>, b: seq<Inode>, m: multiset<nat>, held: set<nat>)
    requires Refs(a, b, m, held) && held == {}
    ensures AllUnlocked(b)
  {
  }

  lemma UnlockKeeps(a: State, c: seq<Inode>, b: State, c1: seq<Inode>, c2: seq<Inode>, ip: nat,
                    h: multiset<nat>, S: set<nat>, h': multiset<nat>)
    requires ip < |c1| && c2 == c1[ip := c1[ip].(locked := false)]
    requires Steady(a, c, b, c1, h, S) && Covered(c1, h') && Pinned(b, c1)
    ensures Steady(a, c, b, c2, h, S) && Covered(c2, h') && Pinned(b, c2)
  {
    hide InodeSteady;
    forall i: nat | i < |b.img.dins| && Orphan(b.img.dins[i])
      ensures HasSlot(c2, i)
    {
      assert HasSlot(c1, i);
      var k :| 0 <= k < |c1| && c1[k].ref > 0 && c1[k].valid && c1[k].inum == i;
      assert c2[k].ref > 0;
    }
  }

  /** O_TRUNC on an open file: ilock, size = 0, iupdate, iunlock. */
  method TruncateRef(fs: FileSystem, ip: nat, cwd: nat, ghost t: Places, ghost h: multiset<nat>)
    requires Files(fs, t, h, cwd) && ip in h && ip < |fs.icache| && fs.icache[ip].inum < |fs.disk.img.dins|
    requires fs.disk.img.dins[fs.icache[ip].inum].typ != T_DIR
    modifies fs, fs.disk
    ensures Files(fs, t, h, cwd) && fs.St() == Emptied(old(fs.St()), old(fs.icache[ip].inum))
    ensures Steady(old(fs.St()), old(fs.icache), fs.St(), fs.icache, h, {old(fs.icache[ip].inum)})
  {
    hide Sound, Represents, SlotOk, CacheOk, Synced, Pinned, NamespaceOk, Refs, Steady, InodeSteady, Covered,
        AllUnlocked;
    ghost var a, c := fs.St(), fs.icache;
    HeldExists(a, c, h, ip);
    UnlockedSlot(c, ip);
    ghost var i := c[ip].inum;
    RefsStart(c);
    fs.Ilock(ip);
    ghost var c1 := fs.icache;
    RefsLocked(c, c, c1, multiset{}, {}, ip, a.img.dins[i]);
    fs.ResetSize(ip, i);
    ghost var c2 := fs.icache;
    SizeHeld(c1, c2, ip);
    RefsHeld(c, c1, c2, multiset{}, {} + {ip});
    fs.Iunlock(ip);
    RefsUnlocked(c, c2, fs.icache, multiset{}, {} + {ip}, ip);
    RefsUnheld(c, fs.icache, multiset{}, {} + {ip} - {ip});
    EmptiedKeeps(a, i, t, c);
    SteadyRefs(a, c, fs.St(), fs.icache, multiset{}, {} + {ip} - {ip}, h, {i});
    CoveredSame(fs.icache, h + multiset{}, h);
    SteadyInum(a, c, fs.St(), fs.icache, h, {i}, cwd);
    PinnedSame(fs.St(), c, fs.icache, multiset{}, {} + {ip} - {ip});
  }

  lemma RefsStart(c: seq<Inode>)
    requires |c| == NINODE && AllUnlocked(c)
    ensures Refs(c, c, multiset{}, {})
  {
  }

  lemma SizeHeld(a: seq<Inode>, b: seq<Inode>, ip: nat)
    requires |a| == NINODE && ip < NINODE && b == a[ip := a[ip].(size := 0)]
    ensures SlotsHeld(a, b)
  {
  }

  // Whether unlinking the path removes the current directory, inode j.
  ghost predicate RemovesCwd(st: State, path: Path, j: nat) {
    match Target(st, path, j)
    case None => false
    case Some(d) => Removable(st, d, LastName(path)) && Lookup(DirEntries(st, d), LastName(path)) == Some(j)
  }

  ghost predicate UnlinkOutcome(a: State, b: State, t: Places, t': Places, dir: Option<nat>, name: Name, r: Outcome) {
    if dir != None && Removable(a, dir.value, name)
    then && r == Returned(0)
         && exists k: nat, freed ::
              && Unlinked(a, b, t, dir.value, k, freed) && ViewOf(a)[dir.value].entries[k].name == name
              && t' == TreeAfterUnlink(ViewOf(a), t, ViewOf(a)[dir.value].entries[k].inum)
    else r == Returned(-1) && b == a && t' == t
  }

  /** unlink: what is open stays open, directories included. The current directory stays where it
      is, in the tree or out of it, unless it is the very directory removed. */
  method UnlinkHeld(fs: FileSystem, path: Path, cwd: nat, ghost t: Places, ghost h: multiset<nat>)
    returns (r: Outcome, ghost t': Places)
    requires Files(fs, t, h, cwd) && FromTree(fs, t, cwd, path)
    modifies fs, fs.disk
    ensures r.Halted? ==> fs.CacheFull()
    ensures r.Returned? ==>
              Files(fs, t', h, cwd) && Steady(old(fs.St()), old(fs.icache), fs.St(), fs.icache, h, {})
    ensures r.Returned? ==>
              (fs.icache[cwd].inum in t' <==>
                old(fs.icache[cwd].inum) in t && !RemovesCwd(old(fs.St()), path, old(fs.icache[cwd].inum)))
    ensures r.Returned? ==> UnlinkOutcome(old(fs.St()), fs.St(), t, t',
                                          Target(old(fs.St()), path, old(fs.icache[cwd].inum)), LastName(path), r)
  {
    hide Sound, Represents, SlotOk, CacheOk, Synced, Pinned, NamespaceOk, Refs, Steady, InodeSteady, Covered;
    hide AllUnlocked, Target, Unlinked, DirEntries, Find, RemovableView, Referenced, ViewOf;
    ghost var a, c := fs.St(), fs.icache;
    CwdHeld(c, h, cwd);
    if c[cwd].inum in t {
      CwdTyped(a, t, c[cwd].inum);
    }
    ghost var k, freed;
    r, k, freed := Unlink(fs, path, cwd, t);
    t' := t;
    if r.Halted? {
      return;
    }
    ghost var b, c1 := fs.St(), fs.icache;
    ghost var dir, name := Target(a, path, c[cwd].inum), LastName(path);
    if dir != None && Removable(a, dir.value, name) {
      UnlinkedEntry(a, b, t, dir.value, k, freed);
      ghost var j := ViewOf(a)[dir.value].entries[k].inum;
      t' := TreeAfterUnlink(ViewOf(a), t, j);
      UnlinkedSteady(a, b, t, dir.value, k, freed, c);
    } else {
      SameSteady(a, c, {});
    }
    SteadyRefs(a, c, b, c1, multiset{}, {}, h, {});
    SteadyInum(a, c, b, c1, h, {}, cwd);
    CoveredSame(c1, h + multiset{}, h);
    RefsUnheld(c, c1, multiset{}, {});
  }

  lemma CwdTyped(a: State, t: Places, i: nat)
    requires NamespaceOk(a, t) && i in t
    ensures i < |a.img.dins| && a.img.dins[i].typ == T_DIR
  {
    hide Contents;
    InTree(a, t, i);
    DirectoryTyped(a, i);
  }

  // "d" and "/d"
  function EntryName(): Name { [100] }
  function RootEntry(): Path { [SLASH, 100] }

  lemma RootEntryName()
    ensures Components(RootEntry()) == [EntryName()] && LastName(RootEntry()) == EntryName()
    ensures RootEntry()[0] == SLASH
  {
    LeadingSlash(RootEntry());
    assert RootEntry()[1..] == [100];
    FirstElement([100], 1);
    assert [100][..1] == [100] && [100][1..] == [];
    NoElements();
    assert Truncate([100]) == [100];
  }

  /** The failing case: a directory made under the root and entered is removed by its path. */
  lemma EnteredAndRemoved(a: State, b: State, t: Places, k: nat, n: nat)
    requires NamespaceOk(a, t) && Created(a, b, t, ROOTINO, k, n, EntryName(), T_DIR, 0, 0)
    ensures Resolve(b, ROOTINO, [EntryName()]) == Some(n) && n < |b.img.dins| && b.img.dins[n].typ == T_DIR
    ensures Target(b, RootEntry(), n) == Some(ROOTINO) && Removable(b, ROOTINO, EntryName())
    ensures RemovesCwd(b, RootEntry(), n)
  {
    hide Contents, Lookup, DirEntries, ViewOf, NamespaceOk, FirstFree, NoNames, RemovableView;
    var t' := TreeAfterCreate(t, ROOTINO, k, n, T_DIR);
    RootEntryName();
    CreatedInRoot(a, b, t, k, n);
    RemovableByName(b, t', n);
    assert [EntryName()][..0] == [] && [EntryName()][1..] == [];
    assert Resolve(b, n, []) == Some(n);
  }

  // The root's new binding, seen in the state after it was made.
  lemma CreatedInRoot(a: State, b: State, t: Places, k: nat, n: nat)
    requires NamespaceOk(a, t) && Created(a, b, t, ROOTINO, k, n, EntryName(), T_DIR, 0, 0)
    ensures ROOTINO < |b.img.dins| && b.img.dins[ROOTINO].typ == T_DIR
    ensures Lookup(DirEntries(b, ROOTINO), EntryName()) == Some(n)
    ensures n < |b.img.dins| && b.img.dins[n].typ == T_DIR && n < |ViewOf(b)| && RemovableView(ViewOf(b), n)
  {
    hide Contents, Lookup, FilesKept, Links;
    var t' := TreeAfterCreate(t, ROOTINO, k, n, T_DIR);
    ViewAt(a, ROOTINO);
    ViewAt(a, n);
    CwdTyped(a, t, ROOTINO);
    CwdTyped(b, t', ROOTINO);
    CwdTyped(b, t', n);
    ViewAt(b, ROOTINO);
    ViewAt(b, n);
    DirFacts(ViewOf(a), t, ROOTINO);
    CreatedBinding(ViewOf(a), t, ROOTINO, k, n, EntryName(), T_DIR, ROOTINO, EntryName());
  }

  lemma UnlinkedEntry(a: State, b: State, t: Places, d: nat, k: nat, freed: bool)
    requires Unlinked(a, b, t, d, k, freed) && NamespaceOk(a, t)
    ensures d < |ViewOf(a)| && k < |ViewOf(a)[d].entries|
    ensures var e := ViewOf(a)[d].entries[k];
            && 0 < e.inum < |ViewOf(a)| && ViewOf(a)[e.inum].typ == a.img.dins[e.inum].typ
            && e.inum < |a.img.dins| && Lookup(DirEntries(a, d), e.name) == Some(e.inum)
            && NamespaceOk(b, TreeAfterUnlink(ViewOf(a), t, e.inum))
  {
    hide Contents, IsDirectory, RemovableView, FilesKept, Lookup;
    InTree(a, t, d);
    DirectoryTyped(a, d);
    ViewAt(a, d);
    ViewAt(a, ViewOf(a)[d].entries[k].inum);
    DirFacts(ViewOf(a), t, d);
    FindHere(DirEntries(a, d), DirEntries(a, d)[k].name, k);
  }

  // ilock(ip), a look at its type and size, iunlock(ip).
  method Inspect(fs: FileSystem, ip: nat, cwd: nat, ghost t: Places, ghost h: multiset<nat>)
    returns (typ: i16, size: u32)
    requires Files(fs, t, h, cwd) && ip in h
    modifies fs, fs.disk
    ensures Files(fs, t, h, cwd) && fs.St() == old(fs.St())
    ensures Steady(old(fs.St()), old(fs.icache), fs.St(), fs.icache, h, {})
    ensures Refs(old(fs.icache), fs.icache, multiset{}, {})
    ensures ip < |fs.icache| && fs.icache[ip].inum == old(fs.icache)[ip].inum < |fs.disk.img.dins|
    ensures typ == fs.disk.img.dins[fs.icache[ip].inum].typ && size == fs.disk.img.dins[fs.icache[ip].inum].size
  {
    hide Sound, Represents, SlotOk, CacheOk, Synced, Pinned, NamespaceOk, Refs, Steady, InodeSteady, Covered,
        AllUnlocked;
    ghost var a, c := fs.St(), fs.icache;
    HeldExists(a, c, h, ip);
    UnlockedSlot(c, ip);
    ghost var i := c[ip].inum;
    RefsStart(c);
    fs.Ilock(ip);
    ghost var c1 := fs.icache;
    HeldSlot(a, c1, ip);
    RefsLocked(c, c, c1, multiset{}, {}, ip, a.img.dins[i]);
    typ, size := fs.icache[ip].typ, fs.icache[ip].size;
    fs.Iunlock(ip);
    RefsUnlocked(c, c1, fs.icache, multiset{}, {} + {ip}, ip);
    RefsUnheld(c, fs.icache, multiset{}, {} + {ip} - {ip});
    SameSteady(a, c, {});
    SteadyRefs(a, c, a, fs.icache, multiset{}, {} + {ip} - {ip}, h, {});
    CoveredSame(fs.icache, h + multiset{}, h);
    SteadyInum(a, c, a, fs.icache, h, {}, cwd);
    SteadyInum(a, c, a, fs.icache, h, {}, ip);
    PinnedSame(a, c, fs.icache, multiset{}, {} + {ip} - {ip});
  }

  // Like Inspect, with the whole file read when its size is between one byte and max.
  method ReadSmall(fs: FileSystem, ip: nat, cwd: nat, max: nat, ghost t: Places, ghost h: multiset<nat>)
    returns (size: u32, bytes: seq<byte>)
    requires Files(fs, t, h, cwd) && ip in h && max < 0x8000_0000
    requires ip < |fs.icache| && fs.icache[ip].inum < |fs.disk.img.dins| ==>
               fs.disk.img.dins[fs.icache[ip].inum].typ != T_DEV
    modifies fs, fs.disk
    ensures Files(fs, t, h, cwd) && fs.St() == old(fs.St())
    ensures Steady(old(fs.St()), old(fs.icache), fs.St(), fs.icache, h, {})
    ensures ip < |fs.icache| && fs.icache[ip].inum == old(fs.icache)[ip].inum < |fs.disk.img.dins|
    ensures size == fs.disk.img.dins[fs.icache[ip].inum].size
    ensures 0 < size <= max ==> bytes == Contents(fs.St(), fs.icache[ip].inum) && |bytes| == size
  {
    hide Sound, Represents, SlotOk, CacheOk, Synced, Pinned, NamespaceOk, Refs, Steady, InodeSteady, Covered,
        AllUnlocked, Contents;
    ghost var a, c := fs.St(), fs.icache;
    HeldExists(a, c, h, ip);
    UnlockedSlot(c, ip);
    ghost var i := c[ip].inum;
    RefsStart(c);
    fs.Ilock(ip);
    ghost var c1 := fs.icache;
    HeldSlot(a, c1, ip);
    RefsLocked(c, c, c1, multiset{}, {}, ip, a.img.dins[i]);
    size, bytes := fs.icache[ip].size, [];
    if 0 < size <= max {
      var n;
      n, bytes := fs.Readi(ip, i, 0, size);
      assert bytes == Contents(fs.St(), i);
    }
    fs.Iunlock(ip);
    RefsUnlocked(c, c1, fs.icache, multiset{}, {} + {ip}, ip);
    RefsUnheld(c, fs.icache, multiset{}, {} + {ip} - {ip});
    SameSteady(a, c, {});
    SteadyRefs(a, c, a, fs.icache, multiset{}, {} + {ip} - {ip}, h, {});
    CoveredSame(fs.icache, h + multiset{}, h);
    SteadyInum(a, c, a, fs.icache, h, {}, cwd);
    SteadyInum(a, c, a, fs.icache, h, {}, ip);
    PinnedSame(a, c, fs.icache, multiset{}, {} + {ip} - {ip});
  }
}
