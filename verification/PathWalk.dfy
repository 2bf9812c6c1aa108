/** namex of kernel/xv6fs/fs.c: walking a path through the directories, one reference at a time. */
module PathWalk {
  import opened Wrappers
  import opened Bits
  import opened DiskFormat
  import opened Inodes
  import opened Dirents
  import opened Directory
  import opened Paths

  /** The inode a list of names leads to from inode i, by looking up one name after another. */
  ghost function Resolve(st: State, i: nat, names: seq<seq<byte>>): Option<nat>
    decreases |names|
  {
    if names == [] then Some(i)
    else if i >= |st.img.dins| || st.img.dins[i].typ != T_DIR || !IsName(names[0]) then None
    else
      match Lookup(DirEntries(st, i), names[0])
      case None => None
      case Some(j) => Resolve(st, j, names[1..])
  }

  predicate IsName(n: seq<byte>) {
    |n| <= DIRSIZ && 0 !in n
  }

  // The directory that holds, or would hold, the last name.
  ghost function ResolveParent(st: State, i: nat, names: seq<seq<byte>>): Option<nat> {
    if names == [] then None
    else
      match Resolve(st, i, names[..|names| - 1])
      case None => None
      case Some(d) => if d < |st.img.dins| && st.img.dins[d].typ == T_DIR then Some(d) else None
  }

  /** The directories of the tree: each is whole, what its entries name exists and has links, and
      the directories among those are in the tree too. */
  ghost predicate Closed(st: State, live: set<nat>) {
    && |st.trees| == |st.img.dins|
    && forall d :: d in live ==>
         && IsDirectory(st, d) && TargetsExist(st, d) && st.img.dins[d].nlink != 0
         && forall k :: 0 <= k < |DirEntries(st, d)| && DirEntries(st, d)[k].inum != 0 ==>
              EntryClosed(st, live, DirEntries(st, d)[k].inum)
  }

  ghost predicate EntryClosed(st: State, live: set<nat>, j: nat) {
    j < |st.img.dins| && st.img.dins[j].nlink != 0 && (st.img.dins[j].typ == T_DIR ==> j in live)
  }

  /** The cache differs by one reference, to slot r, or by none. Slots in use keep their inode and
      what is in memory of it. */
  ghost predicate Neutral(a: seq<Inode>, b: seq<Inode>, r: Option<nat>) {
    && |a| == |b| == NINODE && (r.Some? ==> r.value < NINODE)
    && forall k :: 0 <= k < NINODE ==> SlotNeutral(a[k], b[k], r == Some(k))
  }

  ghost predicate SlotNeutral(s: Inode, t: Inode, extra: bool) {
    && t.ref == s.ref + (if extra then 1 else 0) && t.locked == s.locked
    && (s.ref > 0 ==> t.inum == s.inum && (s.valid ==> t == s.(ref := t.ref)))
  }

  ghost predicate AllUnlocked(icache: seq<Inode>) {
    forall k :: 0 <= k < |icache| ==> !icache[k].locked
  }

  datatype Walked = NotFound | Reached(ip: nat) | NoSlots

  lemma NeutralGot(a: seq<Inode>, b: seq<Inode>, ip: nat, inum: nat)
    requires Got(a, b, ip, inum)
    ensures Neutral(a, b, Some(ip)) || a[ip].locked
    ensures AllUnlocked(a) ==> Neutral(a, b, Some(ip)) && AllUnlocked(b)
  {
  }

  lemma NeutralUnlocked(a: seq<Inode>, b: seq<Inode>, r: Option<nat>)
    requires Neutral(a, b, r) && AllUnlocked(a)
    ensures AllUnlocked(b)
  {
  }

  // Lock ip, do something neutral but for a reference to next, unlock and drop ip.
  lemma NeutralStep(a: seq<Inode>, b: seq<Inode>, b1: seq<Inode>, b2: seq<Inode>, b3: seq<Inode>,
                    ip: nat, next: Option<nat>, inum: nat, d: Dinode)
    requires Neutral(a, b, Some(ip)) && AllUnlocked(a)
    requires b1 == b[ip := Loaded(b[ip], d).(locked := true)]
    requires match next case None => b2 == b1 case Some(n) => Got(b1, b2, n, inum)
    requires b3 == b2[ip := b2[ip].(locked := false, ref := b2[ip].ref - 1)]
    ensures Neutral(a, b3, next)
  {
  }

  // The same when ip stays referenced.
  lemma NeutralPeek(a: seq<Inode>, b: seq<Inode>, b1: seq<Inode>, b2: seq<Inode>, ip: nat, d: Dinode)
    requires Neutral(a, b, Some(ip)) && AllUnlocked(a)
    requires b1 == b[ip := Loaded(b[ip], d).(locked := true)]
    requires b2 == b1[ip := b1[ip].(locked := false)]
    ensures Neutral(a, b2, Some(ip))
  {
  }

  lemma NeutralDrop(a: seq<Inode>, b: seq<Inode>, b1: seq<Inode>, ip: nat)
    requires Neutral(a, b, Some(ip)) && b1 == b[ip := b[ip].(ref := b[ip].ref - 1)]
    ensures Neutral(a, b1, None)
  {
  }

  lemma EntryOf(st: State, live: set<nat>, i: nat, name: Name)
    requires Closed(st, live) && i in live && Find(DirEntries(st, i), name, 0).Some?
    ensures var k := Find(DirEntries(st, i), name, 0).value;
            EntryClosed(st, live, DirEntries(st, i)[k].inum)
  {
  }

  lemma LinkedSlot(st: State, icache: seq<Inode>, ip: nat, i: nat)
    requires |st.trees| == |st.img.dins| && CacheOk(st, icache, {}) && ip < NINODE
    requires icache[ip].ref > 0 && icache[ip].inum == i < |st.img.dins| && st.img.dins[i].nlink != 0
    ensures !Drops(icache[ip])
  {
    assert SlotOk(st, icache[ip], {});
  }

  lemma NeutralDup(a: seq<Inode>, b: seq<Inode>, ip: nat)
    requires |a| == NINODE && ip < NINODE && a[ip].ref > 0 && b == a[ip := a[ip].(ref := a[ip].ref + 1)]
    ensures Neutral(a, b, Some(ip))
  {
  }

  lemma UnlockedSlot(icache: seq<Inode>, ip: nat)
    requires AllUnlocked(icache) && ip < |icache|
    ensures !icache[ip].locked
  {
  }

  lemma LiveInode(st: State, live: set<nat>, d: nat)
    requires Closed(st, live) && d in live
    ensures IsDirectory(st, d) && TargetsExist(st, d) && EntryClosed(st, live, d)
  {
  }

  lemma NotDirectory(st: State, i: nat, names: seq<seq<byte>>)
    requires names != [] && i < |st.img.dins| && st.img.dins[i].typ != T_DIR
    ensures Resolve(st, i, names) == None && ResolveParent(st, i, names) == None
  {
  }

  lemma NoEntry(st: State, i: nat, names: seq<seq<byte>>, name: Name)
    requires names != [] && names[0] == name && Lookup(DirEntries(st, i), name) == None
    ensures Resolve(st, i, names) == None && (|names| > 1 ==> ResolveParent(st, i, names) == None)
  {
  }

  lemma ResolveStep(st: State, i: nat, names: seq<seq<byte>>, name: Name)
    requires names != [] && names[0] == name && i < |st.img.dins| && st.img.dins[i].typ == T_DIR
    requires Lookup(DirEntries(st, i), name).Some?
    ensures var j := Lookup(DirEntries(st, i), name).value;
            && Resolve(st, i, names) == Resolve(st, j, names[1..])
            && (|names| > 1 ==> ResolveParent(st, i, names) == ResolveParent(st, j, names[1..]))
  {
    if |names| > 1 {
      assert names[..|names| - 1][1..] == names[1..][..|names[1..]| - 1];
    }
  }

  /** Walking names one list after the other is walking both lists at once. */
  lemma {:induction false} ResolveBoth(st: State, i: nat, a: seq<seq<byte>>, b: seq<seq<byte>>)
    ensures Resolve(st, i, a + b) ==
            match Resolve(st, i, a) case None => None case Some(d) => Resolve(st, d, b)
    ensures b != [] ==>
              ResolveParent(st, i, a + b) ==
              match Resolve(st, i, a) case None => None case Some(d) => ResolveParent(st, d, b)
    decreases |a|
  {
    hide DirEntries, Lookup;
    if a == [] {
      assert a + b == b;
    } else {
      var n := |b| - 1;
      assert (a + b)[0] == a[0] && (a + b)[1..] == a[1..] + b;
      assert b != [] ==> (a + b)[..|a + b| - 1] == a + b[..n] && (a + b[..n])[1..] == a[1..] + b[..n];
      if i < |st.img.dins| && st.img.dins[i].typ == T_DIR && IsName(a[0]) && Lookup(DirEntries(st, i), a[0]).Some? {
        ResolveBoth(st, Lookup(DirEntries(st, i), a[0]).value, a[1..], b);
        if b != [] {
          ResolveBoth(st, Lookup(DirEntries(st, i), a[0]).value, a[1..], b[..n]);
        }
      }
    }
  }

  /** The current directory stands for its path: when the absolute path p leads to directory d, a
      relative path q walked with d as the current directory leads where p/q leads. */
  lemma RelativePath(st: State, p: Path, q: Path, d: nat)
    requires p != [] && p[0] == SLASH && (q != [] ==> q[0] != SLASH)
    requires Resolve(st, ROOTINO, Components(p)) == Some(d)
    ensures Resolve(st, Origin(q, d), Components(q)) == Resolve(st, ROOTINO, Components(p + [SLASH] + q))
    ensures q != [] ==> ResolveParent(st, Origin(q, d), Components(q)) ==
                        ResolveParent(st, ROOTINO, Components(p + [SLASH] + q))
  {
    hide Resolve, ResolveParent;
    JoinedComponents(p, q);
    if q != [] {
      NonEmptyRest(q);
    }
    ResolveBoth(st, ROOTINO, Components(p), Components(q));
  }

  // One turn of namex's loop: into the entry of that name, or no further than ip with stop.
  method StepInto(fs: FileSystem, ip: nat, name: Name, stop: bool, ghost before: seq<Inode>, ghost live: set<nat>)
    returns (r: Walked)
    requires fs.Valid() && ip < NINODE && fs.icache[ip].ref > 0
    requires AllUnlocked(before) && Neutral(before, fs.icache, Some(ip))
    requires Closed(fs.St(), live) && EntryClosed(fs.St(), live, fs.icache[ip].inum)
    modifies fs, fs.disk
    ensures fs.Valid() && fs.St() == old(fs.St())
    ensures var i, st := old(fs.icache[ip].inum), fs.St();
            && i < |st.img.dins|
            && match r
               case NotFound =>
                 && Neutral(before, fs.icache, None)
                 && (st.img.dins[i].typ != T_DIR || (!stop && Lookup(DirEntries(st, i), name) == None))
               case Reached(n) =>
                 && n < NINODE && Neutral(before, fs.icache, Some(n)) && fs.icache[n].ref > 0
                 && EntryClosed(st, live, fs.icache[n].inum) && st.img.dins[i].typ == T_DIR
                 && (if stop then fs.icache[n].inum == i
                     else Lookup(DirEntries(st, i), name) == Some(fs.icache[n].inum))
               case NoSlots => forall k :: 0 <= k < |fs.icache| ==> fs.icache[k].ref > 0
  {
    hide Sound, Represents, SlotOk, Contents, Entries, CacheOk, Synced, Neutral, Closed, Find, AllUnlocked;
    ghost var st, b, i := fs.St(), fs.icache, fs.icache[ip].inum;
    NeutralUnlocked(before, b, Some(ip));
    UnlockedSlot(b, ip);
    fs.Ilock(ip);
    ghost var b1 := fs.icache;
    SlotTree(st, b1, ip, {});
    if fs.icache[ip].typ != T_DIR {
      LinkedSlot(st, fs.icache, ip, i);
      fs.Iunlockput(ip);
      NeutralStep(before, b, b1, b1, fs.icache, ip, None, 0, st.img.dins[i]);
      return NotFound;
    }
    if stop {
      fs.Iunlock(ip);
      NeutralPeek(before, b, b1, fs.icache, ip, st.img.dins[i]);
      return Reached(ip);
    }
    LiveInode(st, live, i);
    var found := Dirlookup(fs, ip, i, name);
    ghost var b2 := fs.icache;
    if found.NoSlot? {
      return NoSlots;
    }
    LinkedSlot(st, b2, ip, i);
    if found.NoSuch? {
      fs.Iunlockput(ip);
      NeutralStep(before, b, b1, b2, fs.icache, ip, None, 0, st.img.dins[i]);
      return NotFound;
    }
    EntryOf(st, live, i, name);
    fs.Iunlockput(ip);
    NeutralStep(before, b, b1, b2, fs.icache, ip, Some(found.ip), b2[found.ip].inum, st.img.dins[i]);
    return Reached(found.ip);
  }

  // Where a path starts: the root for an absolute path, else the current directory.
  function Origin(path: Path, cwd: nat): nat {
    if path != [] && path[0] == SLASH then ROOTINO else cwd
  }

  method Begin(fs: FileSystem, path: Path, cwd: nat, ghost live: set<nat>) returns (r: Option<nat>)
    requires fs.Valid() && AllUnlocked(fs.icache) && Closed(fs.St(), live)
    requires cwd < NINODE && fs.icache[cwd].ref > 0 && Origin(path, fs.icache[cwd].inum) in live && ROOTINO in live
    modifies fs, fs.disk
    ensures fs.Valid() && fs.St() == old(fs.St())
    ensures match r
            case None => forall k :: 0 <= k < |fs.icache| ==> fs.icache[k].ref > 0
            case Some(ip) =>
              && ip < NINODE && fs.icache[ip].ref > 0 && Neutral(old(fs.icache), fs.icache, Some(ip))
              && fs.icache[ip].inum == Origin(path, old(fs.icache[cwd].inum))
              && EntryClosed(fs.St(), live, fs.icache[ip].inum)
  {
    hide Sound, Represents, SlotOk, CacheOk, Synced, Neutral, Closed, AllUnlocked;
    ghost var st, before := fs.St(), fs.icache;
    LiveInode(st, live, ROOTINO);
    LiveInode(st, live, Origin(path, fs.icache[cwd].inum));
    if path != [] && path[0] == SLASH {
      r := fs.Iget(ROOTINO);
      if r.Some? {
        NeutralGot(before, fs.icache, r.value, ROOTINO);
      }
    } else {
      fs.Idup(cwd);
      NeutralDup(before, fs.icache, cwd);
      r := Some(cwd);
    }
  }

  /** namei and nameiparent: a reference to the inode the path names, or to the directory of its
      last element, whose name is returned. Everything else is left as it was found. */
  method Namex(fs: FileSystem, path: Path, parent: bool, cwd: nat, ghost live: set<nat>)
    returns (r: Walked, name: Name)
    requires fs.Valid() && AllUnlocked(fs.icache)
    requires cwd < NINODE && fs.icache[cwd].ref > 0 && Origin(path, fs.icache[cwd].inum) in live && ROOTINO in live
    requires Closed(fs.St(), live)
    modifies fs, fs.disk
    ensures fs.Valid() && fs.St() == old(fs.St())
    ensures var start := if path != [] && path[0] == SLASH then ROOTINO else old(fs.icache[cwd].inum);
            var names := Components(path);
            var target := if parent then ResolveParent(fs.St(), start, names) else Resolve(fs.St(), start, names);
            match r
            case NotFound => target == None && Neutral(old(fs.icache), fs.icache, None)
            case Reached(ip) =>
              && ip < NINODE && fs.icache[ip].ref > 0
              && Neutral(old(fs.icache), fs.icache, Some(ip)) && target == Some(fs.icache[ip].inum)
              && EntryClosed(fs.St(), live, fs.icache[ip].inum)
              && (parent ==> names != [] && name == names[|names| - 1] && fs.icache[ip].inum in live)
            case NoSlots => forall k :: 0 <= k < |fs.icache| ==> fs.icache[k].ref > 0
  {
    hide Sound, Represents, SlotOk, Contents, Entries, CacheOk, Synced, Neutral, Closed, Components, AllUnlocked;
    hide Resolve, ResolveParent, Lookup;
    ghost var st, before := fs.St(), fs.icache;
    name := [];
    var begin := Begin(fs, path, cwd, live);
    if begin.None? {
      return NoSlots, name;
    }
    var ip: nat := begin.value;
    ghost var start, names := fs.icache[ip].inum, Components(path);
    ghost var rest := names;
    var elem := SkipElem(path);
    while elem.Element?
      invariant fs.Valid() && fs.St() == st && ip < NINODE && fs.icache[ip].ref > 0
      invariant Neutral(before, fs.icache, Some(ip)) && EntryClosed(st, live, fs.icache[ip].inum)
      invariant Resolve(st, start, names) == Resolve(st, fs.icache[ip].inum, rest)
      invariant rest != [] ==> names != [] && rest[|rest| - 1] == names[|names| - 1]
      invariant rest != [] ==> ResolveParent(st, start, names) == ResolveParent(st, fs.icache[ip].inum, rest)
      invariant parent && rest == [] ==> names == []
      invariant elem.Element? ==> rest == [elem.name] + Components(elem.rest)
      invariant elem.Element? ==> (elem.rest == [] <==> Components(elem.rest) == [])
      invariant elem.NoElement? ==> rest == []
      decreases if elem.Element? then |elem.rest| + 1 else 0
    {
      ghost var i := fs.icache[ip].inum;
      name := elem.name;
      var stop := parent && elem.rest == [];
      r := StepInto(fs, ip, name, stop, before, live);
      if r.NoSlots? {
        return;
      }
      if r.NotFound? {
        if st.img.dins[i].typ != T_DIR {
          NotDirectory(st, i, rest);
        } else {
          NoEntry(st, i, rest, name);
        }
        return;
      }
      if stop {
        ParentHere(st, i, rest, name);
        return;
      }
      ResolveStep(st, i, rest, name);
      ip, rest := r.ip, rest[1..];
      elem := SkipElem(elem.rest);
    }
    ResolveDone(st, fs.icache[ip].inum);
    if parent {
      NeutralUnlocked(before, fs.icache, Some(ip));
      UnlockedSlot(fs.icache, ip);
      LinkedSlot(st, fs.icache, ip, fs.icache[ip].inum);
      ghost var b := fs.icache;
      fs.Iput(ip);
      NeutralDrop(before, b, fs.icache, ip);
      return NotFound, name;
    }
    return Reached(ip), name;
  }

  lemma ParentHere(st: State, i: nat, rest: seq<seq<byte>>, name: Name)
    requires rest == [name] && i < |st.img.dins| && st.img.dins[i].typ == T_DIR
    ensures ResolveParent(st, i, rest) == Some(i)
  {
  }

  lemma ResolveDone(st: State, i: nat)
    ensures Resolve(st, i, []) == Some(i)
    ensures forall start :: ResolveParent(st, start, []) == None
  {
  }
}
