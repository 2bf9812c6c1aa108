/** What create and unlink mean for paths: the path created leads to the new inode, the path removed
    leads nowhere, and no other path changes its meaning. */
module PathEffects {
  import opened Wrappers
  import opened Bits
  import opened DiskFormat
  import opened Inodes
  import opened Dirents
  import opened Directory
  import opened Paths
  import opened PathWalk
  import opened Tree
  import opened NameTree
  import opened Namespace
  import opened CreateUnlink

  lemma {:induction false} SplitBytes(p: Path)
    ensures forall s :: s in Split(p) ==> 0 !in s
  {
    if p != [] {
      SplitBytes(p[1..]);
    }
  }

  lemma {:induction false} ElementsAreNames(pieces: seq<seq<byte>>)
    requires forall s :: s in pieces ==> 0 !in s
    ensures forall n :: n in Elements(pieces) ==> IsName(n) && n != []
  {
    if pieces != [] {
      forall x | x in Truncate(pieces[0])
        ensures x in pieces[0]
      {
        var k :| 0 <= k < |Truncate(pieces[0])| && Truncate(pieces[0])[k] == x;
        assert pieces[0][k] == x;
      }
      assert pieces[0] in pieces;
      ElementsAreNames(pieces[1..]);
    }
  }

  // Every element of a path can be looked up.
  lemma LastIsName(path: Path)
    requires Components(path) != []
    ensures LastName(path) == Components(path)[|Components(path)| - 1] && IsName(LastName(path))
  {
    SplitBytes(path);
    ElementsAreNames(Split(path));
    assert Components(path)[|Components(path)| - 1] in Components(path);
  }

  /** namei is nameiparent and then one lookup. */
  lemma ParentThenName(st: State, i: nat, path: Path)
    requires Components(path) != []
    ensures Resolve(st, i, Components(path)) ==
            match ResolveParent(st, i, Components(path))
            case None => None
            case Some(d) => Lookup(DirEntries(st, d), LastName(path))
  {
    hide DirEntries, Lookup, Components, LastName;
    var names, n := Components(path), |Components(path)| - 1;
    LastIsName(path);
    assert names == names[..n] + [names[n]];
    ResolveBoth(st, i, names[..n], [names[n]]);
    var one := [names[n]];
    assert one[1..] == [];
  }

  // In every directory of the tree a name stays bound as it is.
  ghost predicate MoreNames(a: State, b: State, t: Places) {
    forall d :: d in t ==>
      && d < |b.img.dins| && b.img.dins[d].typ == T_DIR
      && forall x: Name :: Lookup(DirEntries(a, d), x).Some? ==>
           Lookup(DirEntries(b, d), x) == Lookup(DirEntries(a, d), x)
  }

  // In every directory of the tree a name that is bound was bound so before.
  ghost predicate FewerNames(a: State, b: State, t: Places) {
    forall d :: d in t && d < |b.img.dins| && b.img.dins[d].typ == T_DIR ==>
      forall x: Name :: Lookup(DirEntries(b, d), x).Some? ==> Lookup(DirEntries(b, d), x) == Lookup(DirEntries(a, d), x)
  }

  lemma {:induction false} PathsStay(a: State, b: State, t: Places, i: nat, names: seq<seq<byte>>)
    requires Closed(a, t.Keys) && MoreNames(a, b, t) && i in t && |b.img.dins| == |a.img.dins|
    requires Resolve(a, i, names).Some?
    ensures Resolve(b, i, names) == Resolve(a, i, names)
    decreases |names|
  {
    hide Closed, DirEntries, Lookup;
    if names != [] {
      assert Lookup(DirEntries(b, i), names[0]) == Lookup(DirEntries(a, i), names[0]);
      var j := Lookup(DirEntries(a, i), names[0]).value;
      BoundInTree(a, t, i, names[0]);
      if j in t {
        PathsStay(a, b, t, j, names[1..]);
      }
    }
  }

  lemma {:induction false} NoNewPaths(a: State, b: State, t: Places, i: nat, names: seq<seq<byte>>)
    requires Closed(a, t.Keys) && FewerNames(a, b, t) && i in t && |b.img.dins| == |a.img.dins|
    requires forall j: nat :: j < |a.img.dins| && b.img.dins[j].typ == T_DIR ==> a.img.dins[j].typ == T_DIR
    requires Resolve(b, i, names).Some?
    ensures Resolve(a, i, names) == Resolve(b, i, names)
    decreases |names|
  {
    hide Closed, DirEntries, Lookup;
    if names != [] {
      assert Lookup(DirEntries(b, i), names[0]) == Lookup(DirEntries(a, i), names[0]);
      var j := Lookup(DirEntries(a, i), names[0]).value;
      BoundInTree(a, t, i, names[0]);
      if j in t {
        NoNewPaths(a, b, t, j, names[1..]);
      }
    }
  }

  lemma BoundInTree(st: State, t: Places, i: nat, name: Name)
    requires Closed(st, t.Keys) && i in t && Lookup(DirEntries(st, i), name).Some?
    ensures EntryClosed(st, t.Keys, Lookup(DirEntries(st, i), name).value)
  {
    hide Closed, DirEntries;
    EntryOf(st, t.Keys, i, name);
  }

  lemma CreatedNames(a: State, b: State, t: Places, d: nat, k: nat, n: nat, name: Name, typ: i16,
                     major: i16, minor: i16)
    requires NamespaceOk(a, t) && Created(a, b, t, d, k, n, name, typ, major, minor)
    ensures MoreNames(a, b, t) && Lookup(DirEntries(b, d), name) == Some(n)
  {
    hide Contents, Lookup, DirEntries, FilesKept, IsDirectory, TreeOk, ViewOf, FirstFree;
    var t' := TreeAfterCreate(t, d, k, n, typ);
    ViewAt(a, n);
    FirstFreeEntry(ViewOf(a)[d].entries, k);
    forall e | e in t
      ensures e < |b.img.dins| && b.img.dins[e].typ == T_DIR
      ensures e == d ==> Lookup(DirEntries(b, e), name) == Some(n)
      ensures forall x: Name :: Lookup(DirEntries(a, e), x).Some? ==>
                Lookup(DirEntries(b, e), x) == Lookup(DirEntries(a, e), x)
    {
      SameView(a, b, t, t', e);
      forall x: Name
        ensures Lookup(DirEntries(b, e), x) == if e == d && x == name then Some(n) else Lookup(DirEntries(a, e), x)
      {
        CreatedBinding(ViewOf(a), t, d, k, n, name, typ, e, x);
      }
    }
  }

  lemma FirstFreeEntry(es: seq<Dirent>, k: nat)
    requires FirstFree(es, k) && k <= |es|
    ensures k < |es| ==> es[k].inum == 0
  {
  }

  // A directory of both trees, as the views have it.
  lemma SameView(a: State, b: State, t: Places, t': Places, e: nat)
    requires NamespaceOk(a, t) && NamespaceOk(b, t') && e in t && e in t'
    ensures e < |a.img.dins| && e < |b.img.dins| && b.img.dins[e].typ == T_DIR == a.img.dins[e].typ
    ensures ViewOf(a)[e].entries == DirEntries(a, e) && ViewOf(b)[e].entries == DirEntries(b, e)
  {
    hide DirEntries;
    InTree(a, t, e);
    InTree(b, t', e);
    DirectoryTyped(a, e);
    DirectoryTyped(b, e);
  }

  /** After create the path leads to the new inode, where it led nowhere before; and what any path led
      to, from wherever in the tree, it still leads to. */
  lemma CreatedPath(a: State, b: State, t: Places, path: Path, cwd: nat, d: nat, k: nat, n: nat, typ: i16,
                    major: i16, minor: i16)
    requires NamespaceOk(a, t) && Origin(path, cwd) in t && Target(a, path, cwd) == Some(d)
    requires Created(a, b, t, d, k, n, LastName(path), typ, major, minor)
    ensures Resolve(a, Origin(path, cwd), Components(path)) == None
    ensures Resolve(b, Origin(path, cwd), Components(path)) == Some(n)
    ensures forall i, names :: i in t && Resolve(a, i, names).Some? ==> Resolve(b, i, names) == Resolve(a, i, names)
  {
    hide Contents, Lookup, DirEntries, FilesKept, NamespaceOk, ViewOf, FirstFree, MoreNames, Closed, Components;
    hide LastName, Resolve;
    var i, names := Origin(path, cwd), Components(path);
    CreatedNames(a, b, t, d, k, n, LastName(path), typ, major, minor);
    NamespaceClosed(a, t);
    EntriesOfView(a, d, t);
    ParentThenName(a, i, path);
    ParentThenName(b, i, path);
    PathsStay(a, b, t, i, names[..|names| - 1]);
    assert d in t && d < |b.img.dins| && b.img.dins[d].typ == T_DIR by { StillDirectory(a, b, t, d); }
    forall i, names | i in t && Resolve(a, i, names).Some?
      ensures Resolve(b, i, names) == Resolve(a, i, names)
    {
      PathsStay(a, b, t, i, names);
    }
  }

  lemma StillDirectory(a: State, b: State, t: Places, d: nat)
    requires MoreNames(a, b, t) && d in t
    ensures d < |b.img.dins| && b.img.dins[d].typ == T_DIR
  {
  }

  lemma EntriesOfView(st: State, d: nat, t: Places)
    requires NamespaceOk(st, t) && d in t
    ensures d < |ViewOf(st)| && ViewOf(st)[d].entries == DirEntries(st, d)
  {
    hide DirEntries;
    InTree(st, t, d);
    DirectoryTyped(st, d);
  }

  lemma UnlinkedNames(a: State, b: State, t: Places, d: nat, k: nat, freed: bool)
    requires NamespaceOk(a, t) && Unlinked(a, b, t, d, k, freed)
    ensures FewerNames(a, b, t)
    ensures forall j: nat :: j < |a.img.dins| && b.img.dins[j].typ == T_DIR ==> a.img.dins[j].typ == T_DIR
    ensures d < |b.img.dins| && Lookup(DirEntries(b, d), ViewOf(a)[d].entries[k].name) == None
    ensures Lookup(DirEntries(a, d), ViewOf(a)[d].entries[k].name) == Some(ViewOf(a)[d].entries[k].inum)
  {
    hide Contents, Lookup, DirEntries, FilesKept, IsDirectory, TreeOk, ViewOf, RemovableView;
    var v, name, j := ViewOf(a), ViewOf(a)[d].entries[k].name, ViewOf(a)[d].entries[k].inum;
    InTree(a, t, d);
    DirectoryTyped(a, d);
    ViewAt(a, d);
    BoundOnce(v, t, d, k);
    forall m: nat | m < |a.img.dins|
      ensures b.img.dins[m].typ == T_DIR ==> a.img.dins[m].typ == T_DIR && ViewOf(b)[m].entries == DirEntries(b, m)
      ensures b.img.dins[m].typ == T_DIR ==> ViewOf(b)[m].entries == AfterUnlink(v, d, k)[m].entries
      ensures a.img.dins[m].typ == T_DIR ==> v[m].entries == DirEntries(a, m)
    {
      ViewAt(a, m);
      ViewAt(b, m);
    }
    forall e | e in t && e < |b.img.dins| && b.img.dins[e].typ == T_DIR
      ensures forall x: Name :: Lookup(DirEntries(b, e), x) ==
                                if e == d && x == name then None else Lookup(DirEntries(a, e), x)
    {
      forall x: Name
        ensures Lookup(DirEntries(b, e), x) == if e == d && x == name then None else Lookup(DirEntries(a, e), x)
      {
        UnlinkedBinding(v, t, d, k, e, x);
      }
    }
    ViewAt(b, d);
    assert b.img.dins[d].typ == T_DIR;
  }

  lemma BoundOnce(v: View, t: Places, d: nat, k: nat)
    requires TreeOk(v, t) && d in t && d < |v| && k < |v[d].entries| && v[d].entries[k].inum != 0
    ensures Lookup(v[d].entries, v[d].entries[k].name) == Some(v[d].entries[k].inum)
  {
    hide Lookup;
    DirFacts(v, t, d);
    FindHere(v[d].entries, v[d].entries[k].name, k);
  }

  /** After unlink the path leads nowhere, and no path leads anywhere it did not lead before. */
  lemma UnlinkedPath(a: State, b: State, t: Places, path: Path, cwd: nat, d: nat, k: nat, freed: bool)
    requires NamespaceOk(a, t) && Origin(path, cwd) in t && Target(a, path, cwd) == Some(d)
    requires Unlinked(a, b, t, d, k, freed) && ViewOf(a)[d].entries[k].name == LastName(path)
    ensures Resolve(a, Origin(path, cwd), Components(path)) == Some(ViewOf(a)[d].entries[k].inum)
    ensures Resolve(b, Origin(path, cwd), Components(path)) == None
    ensures forall i, names :: i in t && Resolve(b, i, names).Some? ==> Resolve(b, i, names) == Resolve(a, i, names)
  {
    hide Contents, Lookup, DirEntries, FilesKept, NamespaceOk, ViewOf, RemovableView, FewerNames, Closed, Components;
    hide LastName, Resolve;
    var i, names := Origin(path, cwd), Components(path);
    UnlinkedNames(a, b, t, d, k, freed);
    NamespaceClosed(a, t);
    ParentThenName(a, i, path);
    ParentThenName(b, i, path);
    if Resolve(b, i, names[..|names| - 1]).Some? {
      NoNewPaths(a, b, t, i, names[..|names| - 1]);
    }
    forall i, names | i in t && Resolve(b, i, names).Some?
      ensures Resolve(b, i, names) == Resolve(a, i, names)
    {
      NoNewPaths(a, b, t, i, names);
    }
  }
}
