/** Walks and free inodes. A walk that starts in the tree never meets a free inode; one that starts
    in a removed directory does exactly when it climbs to a parent that is gone. */
module RemovedDirectory {
  import opened Wrappers
  import opened Bits
  import opened DiskFormat
  import opened Inodes
  import opened Dirents
  import opened Directory
  import opened Paths
  import opened PathWalk
  import opened Tree
  import opened NameTree
  import opened Namespace
  import opened CreateUnlink
  import opened OpenFiles

  /** Whether ilock is asked for a free inode, which is a panic: namei locks every inode on the way,
      and its callers lock the one it finds. */
  ghost predicate MeetsFree(st: State, i: nat, names: seq<seq<byte>>)
    decreases |names|
  {
    || i >= |st.img.dins| || st.img.dins[i].typ == T_FREE
    || (names != [] && st.img.dins[i].typ == T_DIR && IsName(names[0]) &&
        match Lookup(DirEntries(st, i), names[0])
        case None => false
        case Some(j) => MeetsFree(st, j, names[1..]))
  }

  /** From a directory of the tree no walk meets a free inode. */
  lemma {:induction false} NeverFromTree(st: State, t: Places, i: nat, names: seq<seq<byte>>)
    requires NamespaceOk(st, t) && i in t
    ensures !MeetsFree(st, i, names)
    decreases |names|
  {
    hide NamespaceOk, Closed, DirEntries, Lookup;
    NamespaceClosed(st, t);
    LiveInode(st, t.Keys, i);
    DirectoryTyped(st, i);
    if names != [] && IsName(names[0]) && Lookup(DirEntries(st, i), names[0]).Some? {
      var j := Lookup(DirEntries(st, i), names[0]).value;
      Bound(st, t, i, names[0]);
      if j in t {
        NeverFromTree(st, t, j, names[1..]);
      } else {
        NotFree(st, j, names[1..]);
      }
    }
  }

  // What a directory of the tree binds a name to exists, and is in the tree if it is a directory.
  lemma Bound(st: State, t: Places, i: nat, name: Name)
    requires NamespaceOk(st, t) && i in t && Lookup(DirEntries(st, i), name).Some?
    ensures var j := Lookup(DirEntries(st, i), name).value;
            j < |st.img.dins| && st.img.dins[j].typ != T_FREE && (st.img.dins[j].typ == T_DIR ==> j in t)
  {
    hide NamespaceOk, Closed, DirEntries;
    NamespaceClosed(st, t);
    LiveInode(st, t.Keys, i);
    EntryOf(st, t.Keys, i, name);
  }

  lemma NotFree(st: State, j: nat, names: seq<seq<byte>>)
    requires j < |st.img.dins| && st.img.dins[j].typ != T_FREE && st.img.dins[j].typ != T_DIR
    ensures !MeetsFree(st, j, names)
  {
  }

  // Inode j is a directory with nothing but its own two entries, the second naming p.
  ghost predicate Bare(st: State, j: nat, p: nat) {
    && j < |st.img.dins| && st.img.dins[j].typ == T_DIR
    && Lookup(DirEntries(st, j), DOT) == Some(j) && Lookup(DirEntries(st, j), DOTDOT) == Some(p)
    && NoNames(DirEntries(st, j))
  }

  // The path leaves the directory upwards: ".." after any number of ".".
  predicate Climbs(names: seq<seq<byte>>) {
    names != [] && (names[0] == DOTDOT || (names[0] == DOT && Climbs(names[1..])))
  }

  function Above(names: seq<seq<byte>>): seq<seq<byte>>
    requires Climbs(names)
  {
    if names[0] == DOTDOT then names[1..] else Above(names[1..])
  }

  /** From a bare directory a walk meets a free inode exactly when it climbs and meets one from the
      parent on: with the parent in the tree never, with the parent gone as soon as it climbs. */
  lemma {:induction false} FromBare(st: State, j: nat, p: nat, names: seq<seq<byte>>)
    requires Bare(st, j, p)
    ensures MeetsFree(st, j, names) <==> Climbs(names) && MeetsFree(st, p, Above(names))
    decreases |names|
  {
    hide DirEntries, Lookup;
    if names != [] && names[0] == DOT {
      FromBare(st, j, p, names[1..]);
    }
  }

  lemma FromBareInTree(st: State, t: Places, j: nat, p: nat, names: seq<seq<byte>>)
    requires Bare(st, j, p) && NamespaceOk(st, t) && p in t
    ensures !MeetsFree(st, j, names)
  {
    hide NamespaceOk, MeetsFree, Bare;
    FromBare(st, j, p, names);
    if Climbs(names) {
      NeverFromTree(st, t, p, Above(names));
    }
  }

  lemma FromBareGone(st: State, j: nat, p: nat, names: seq<seq<byte>>)
    requires Bare(st, j, p) && p < |st.img.dins| && st.img.dins[p].typ == T_FREE
    ensures MeetsFree(st, j, names) <==> Climbs(names)
  {
    hide Bare;
    FromBare(st, j, p, names);
  }

  // Two entries, "." and "..", and none besides.
  lemma TwoNames(es: seq<Dirent>, j: nat, p: nat)
    requires Distinct(es) && |es| >= 2 && EmptyFrom(es, 2) && j != 0 && p != 0
    requires es[0] == Dirent(j, DOT) && es[1] == Dirent(p, DOTDOT)
    ensures Lookup(es, DOT) == Some(j) && Lookup(es, DOTDOT) == Some(p)
    ensures NoNames(es)
  {
    FindHere(es, DOT, 0);
    FindHere(es, DOTDOT, 1);
  }

  /** A directory that was removed and is still held is bare, and its ".." names the directory it
      was removed from. */
  lemma RemovedIsBare(a: State, b: State, t: Places, d: nat, k: nat)
    requires NamespaceOk(a, t) && Unlinked(a, b, t, d, k, false)
    requires ViewOf(a)[d].entries[k].inum < |a.img.dins| && a.img.dins[ViewOf(a)[d].entries[k].inum].typ == T_DIR
    ensures Bare(b, ViewOf(a)[d].entries[k].inum, d)
  {
    hide Contents, FilesKept, IsDirectory, TreeOk, EmptyFrom, Lookup, DirOk;
    var v, j := ViewOf(a), ViewOf(a)[d].entries[k].inum;
    ViewAt(a, j);
    ViewAt(b, j);
    TreeOfView(a, t);
    NotItself(v, t, d, k);
    Dots(v, t, j);
    TwoNames(v[j].entries, j, d);
  }

  lemma TreeOfView(a: State, t: Places)
    requires NamespaceOk(a, t)
    ensures TreeOk(ViewOf(a), t)
  {
  }

  lemma Dots(v: View, t: Places, j: nat)
    requires TreeOk(v, t) && j in t
    ensures 0 < j < |v| && Distinct(v[j].entries) && |v[j].entries| >= 2 && t[j].parent > 0
    ensures v[j].entries[0] == Dirent(j, DOT) && v[j].entries[1] == Dirent(t[j].parent, DOTDOT)
  {
    hide Links, LinksOk, EntryOk, Distinct;
    assert DirOk(v, t, j) && DirOk(v, t, t[j].parent);
  }

  // What happens elsewhere leaves a bare directory bare.
  lemma StaysBare(a: State, b: State, S: set<nat>, j: nat, p: nat)
    requires Bare(a, j, p) && FilesKept(a, b, S) && j !in S
    ensures Bare(b, j, p)
  {
    hide Contents, Lookup;
  }

  // "/d/d"
  function NestedEntry(): Path { [SLASH, 100, SLASH, 100] }

  lemma NestedEntryName()
    ensures Components(NestedEntry()) == [EntryName(), EntryName()] && LastName(NestedEntry()) == EntryName()
    ensures NestedEntry()[0] == SLASH
  {
    var p := NestedEntry();
    LeadingSlash(p);
    assert p[1..] == [100, SLASH, 100];
    FirstElement([100, SLASH, 100], 1);
    assert [100, SLASH, 100][..1] == [100] && [100, SLASH, 100][1..] == RootEntry();
    assert Truncate([100]) == [100];
    RootEntryName();
  }

  // A directory just made has two names of its own, and its parent binds it.
  lemma JustMade(a: State, b: State, t: Places, d: nat, k: nat, n: nat)
    requires NamespaceOk(a, t) && Created(a, b, t, d, k, n, EntryName(), T_DIR, 0, 0)
    ensures var t' := TreeAfterCreate(t, d, k, n, T_DIR);
            && NamespaceOk(b, t') && n in t' && n !in t && d in t && d != n && t'[n].bonus == 0
            && (forall i :: i in t ==> i in t' && t'[i] == t[i])
            && n < |b.img.dins| && b.img.dins[n].typ == T_DIR && Lookup(DirEntries(b, d), EntryName()) == Some(n)
            && d < |b.img.dins| && b.img.dins[d].typ == T_DIR
  {
    hide Contents, Lookup, FilesKept, Links, DirOk, LinksOk;
    var t' := TreeAfterCreate(t, d, k, n, T_DIR);
    ViewAt(a, d);
    ViewAt(a, n);
    CwdTyped(a, t, d);
    CwdTyped(b, t', d);
    CwdTyped(b, t', n);
    ViewAt(b, d);
    CreatedBinding(ViewOf(a), t, d, k, n, EntryName(), T_DIR, d, EntryName());
  }

  // One entry of that name only: what unlink removed is what the name was bound to.
  lemma JustRemoved(a: State, b: State, t: Places, d: nat, k: nat, freed: bool, n: nat)
    requires NamespaceOk(a, t) && Unlinked(a, b, t, d, k, freed)
    requires ViewOf(a)[d].entries[k].name == EntryName() && Lookup(DirEntries(a, d), EntryName()) == Some(n)
    requires n < |a.img.dins| && a.img.dins[n].typ == T_DIR
    ensures ViewOf(a)[d].entries[k].inum == n && n in t && NamespaceOk(b, t - {n})
    ensures freed ==> n < |b.img.dins| && b.img.dins[n].typ == T_FREE
    ensures FilesKept(a, b, {d, n})
  {
    hide Contents, Lookup, FilesKept, NamespaceOk, RemovableView, DirEntries;
    UnlinkedEntry(a, b, t, d, k, freed);
    ViewAt(a, n);
    ViewAt(b, n);
    TreeOfView(a, t);
    NotItself(ViewOf(a), t, d, k);
  }

  /** The failing walk: mkdir /d, mkdir /d/d, chdir /d/d, unlink /d/d, unlink /d, with nobody
      holding /d. The parent is freed, and the ".." the process is left with names a free inode. */
  lemma ParentFreed(a0: State, a1: State, a2: State, a3: State, a4: State, t0: Places,
                    k1: nat, n1: nat, k2: nat, n2: nat, k3: nat, k4: nat, freed: bool)
    requires NamespaceOk(a0, t0) && Created(a0, a1, t0, ROOTINO, k1, n1, EntryName(), T_DIR, 0, 0)
    requires var t1 := TreeAfterCreate(t0, ROOTINO, k1, n1, T_DIR);
             && Created(a1, a2, t1, n1, k2, n2, EntryName(), T_DIR, 0, 0)
             && var t2 := TreeAfterCreate(t1, n1, k2, n2, T_DIR);
                && Unlinked(a2, a3, t2, n1, k3, false) && ViewOf(a2)[n1].entries[k3].name == EntryName()
                && Unlinked(a3, a4, t2 - {n2}, ROOTINO, k4, freed)
                && ViewOf(a3)[ROOTINO].entries[k4].name == EntryName()
    requires freed <==> a3.img.dins[ViewOf(a3)[ROOTINO].entries[k4].inum].nlink == 1
    ensures Resolve(a2, ROOTINO, Components(NestedEntry())) == Some(n2)
    ensures freed && n1 < |a4.img.dins| && a4.img.dins[n1].typ == T_FREE && Bare(a4, n2, n1)
    ensures Resolve(a4, n2, [DOTDOT]) == Some(n1) && MeetsFree(a4, n2, [DOTDOT])
  {
    hide NamespaceOk, Created, Unlinked, ViewOf, DirEntries, Lookup, Bare, FilesKept, Components, Resolve;
    JustMade(a0, a1, t0, ROOTINO, k1, n1);
    var t1 := TreeAfterCreate(t0, ROOTINO, k1, n1, T_DIR);
    JustMade(a1, a2, t1, n1, k2, n2);
    var t2 := TreeAfterCreate(t1, n1, k2, n2, T_DIR);
    MadeElsewhere(a1, a2, t1, n1, k2, n2, ROOTINO);
    NestedEntryName();
    TwoSteps(a2, ROOTINO, n1, n2);
    JustRemoved(a2, a3, t2, n1, k3, false, n2);
    RemovedIsBare(a2, a3, t2, n1, k3);
    SameEntries(a2, a3, {n1, n2}, ROOTINO);
    CwdTyped(a3, t2 - {n2}, n1);
    JustRemoved(a3, a4, t2 - {n2}, ROOTINO, k4, freed, n1);
    FreedDirectory(a3, a4, t2 - {n2}, ROOTINO, k4, freed, false);
    StaysBare(a3, a4, {ROOTINO, n1}, n2, n1);
    OneStepUp(a4, n2, n1);
  }

  lemma SameEntries(a: State, b: State, S: set<nat>, d: nat)
    requires FilesKept(a, b, S) && d < |a.img.dins| && d !in S
    ensures d < |b.img.dins| && b.img.dins[d] == a.img.dins[d] && DirEntries(b, d) == DirEntries(a, d)
  {
    hide Contents;
  }

  lemma MadeElsewhere(a: State, b: State, t: Places, d: nat, k: nat, n: nat, i: nat)
    requires Created(a, b, t, d, k, n, EntryName(), T_DIR, 0, 0) && i < |a.img.dins| && i != d && i != n
    ensures i < |b.img.dins| && b.img.dins[i] == a.img.dins[i] && DirEntries(b, i) == DirEntries(a, i)
  {
    hide Contents, ViewOf, NamespaceOk;
    SameEntries(a, b, {d, n}, i);
  }

  lemma TwoSteps(st: State, i: nat, j: nat, n: nat)
    requires i < |st.img.dins| && st.img.dins[i].typ == T_DIR && j < |st.img.dins| && st.img.dins[j].typ == T_DIR
    requires Lookup(DirEntries(st, i), EntryName()) == Some(j) && Lookup(DirEntries(st, j), EntryName()) == Some(n)
    ensures Resolve(st, i, [EntryName(), EntryName()]) == Some(n)
  {
    hide DirEntries, Lookup;
    assert [EntryName(), EntryName()][1..] == [EntryName()] && [EntryName()][1..] == [];
    assert Resolve(st, n, []) == Some(n);
    assert Resolve(st, j, [EntryName()]) == Some(n);
  }

  lemma OneStepUp(st: State, j: nat, p: nat)
    requires Bare(st, j, p) && p < |st.img.dins| && st.img.dins[p].typ == T_FREE
    ensures Resolve(st, j, [DOTDOT]) == Some(p) && MeetsFree(st, j, [DOTDOT])
  {
    hide DirEntries, Lookup;
    assert [DOTDOT][1..] == [];
    assert Resolve(st, p, []) == Some(p);
    FromBareGone(st, j, p, [DOTDOT]);
  }
}
