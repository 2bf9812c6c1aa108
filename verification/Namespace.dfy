/** The name space of a file system state: what its directories say, seen as a tree with exact
    link counts, and what that means for walks, for freed inodes and for writes to files. */
module Namespace {
  import opened Wrappers
  import opened Bits
  import opened DiskFormat
  import opened Inodes
  import opened Dirents
  import opened Directory
  import opened Paths
  import opened PathWalk
  import opened Tree
  import opened NameTree

  ghost function NodeOf(st: State, i: nat): Node
    requires i < |st.img.dins|
  {
    Node(st.img.dins[i].typ, st.img.dins[i].nlink, if st.img.dins[i].typ == T_DIR then DirEntries(st, i) else [])
  }

  ghost function ViewOf(st: State): (v: View)
    ensures |v| == |st.img.dins|
    ensures forall i :: 0 <= i < |v| ==> v[i] == NodeOf(st, i)
  {
    seq<Node>(|st.img.dins|, i requires 0 <= i < |st.img.dins| => NodeOf(st, i))
  }

  /** The directories of the tree are whole, and form a tree with exact link counts. */
  ghost predicate NamespaceOk(st: State, t: Places) {
    && |st.trees| == |st.img.dins| && TreeOk(ViewOf(st), t)
    && forall d :: d in t ==> IsDirectory(st, d)
  }

  lemma NamespaceClosed(st: State, t: Places)
    requires NamespaceOk(st, t)
    ensures Closed(st, t.Keys) && ROOTINO in t
  {
    hide IsDirectory, TreeOk, DirEntries;
    var v := ViewOf(st);
    DirFacts(v, t, ROOTINO) by { RootThere(v, t); }
    forall d | d in t
      ensures IsDirectory(st, d) && TargetsExist(st, d) && d < |st.img.dins| && st.img.dins[d].nlink != 0
      ensures forall k :: 0 <= k < |DirEntries(st, d)| && DirEntries(st, d)[k].inum != 0 ==>
                EntryClosed(st, t.Keys, DirEntries(st, d)[k].inum)
    {
      DirectoryTyped(st, d);
      DirLinked(v, t, d);
      assert v[d] == NodeOf(st, d);
      forall k: nat | k < |DirEntries(st, d)| && DirEntries(st, d)[k].inum != 0
        ensures EntryClosed(st, t.Keys, DirEntries(st, d)[k].inum)
        ensures st.img.dins[DirEntries(st, d)[k].inum].typ != T_FREE
      {
        EntryLinked(v, t, d, k);
        assert v[DirEntries(st, d)[k].inum] == NodeOf(st, DirEntries(st, d)[k].inum);
      }
    }
  }

  lemma RootThere(v: View, t: Places)
    requires TreeOk(v, t)
    ensures ROOTINO in t
  {
  }

  lemma DirectoryTyped(st: State, d: nat)
    requires IsDirectory(st, d)
    ensures d < |st.img.dins| && st.img.dins[d].typ == T_DIR
  {
  }

  // Outside S no dinode and no byte of any file changed.
  ghost predicate FilesKept(a: State, b: State, S: set<nat>) {
    && |a.trees| == |a.img.dins| == |b.img.dins| == |b.trees|
    && forall j: nat :: j < |a.img.dins| && j !in S ==>
         b.img.dins[j] == a.img.dins[j] && Contents(b, j) == Contents(a, j)
  }

  lemma KeptTwice(a: State, b: State, c: State, R: set<nat>, S: set<nat>, U: set<nat>)
    requires FilesKept(a, b, R) && FilesKept(b, c, S) && R <= U && S <= U
    ensures FilesKept(a, c, U)
  {
    hide Contents;
  }

  // The view follows when one inode changes.
  lemma ViewOne(a: State, b: State, i: nat)
    requires FilesKept(a, b, {i}) && i < |a.img.dins|
    ensures ViewOf(b) == ViewOf(a)[i := NodeOf(b, i)]
    ensures forall d: nat :: d < |a.img.dins| && d != i && IsDirectory(a, d) ==> IsDirectory(b, d)
  {
    hide Contents;
    forall j: nat | j < |a.img.dins| && j != i
      ensures NodeOf(b, j) == NodeOf(a, j)
    {
    }
  }

  lemma SameTree(a: State, b: State, j: nat)
    requires j < |a.trees| && j < |b.trees| && b.trees[j] == a.trees[j]
    requires b.img.words == a.img.words && b.img.data == a.img.data
    requires j < |a.img.dins| && j < |b.img.dins| && b.img.dins[j].size == a.img.dins[j].size
    ensures Contents(b, j) == Contents(a, j)
  {
  }

  lemma NoContents(st: State, i: nat)
    requires i < |st.trees| && i < |st.img.dins| && st.img.dins[i].size == 0
    ensures Contents(st, i) == [] && DirEntries(st, i) == []
  {
  }

  lemma ViewClaim(sb: Superblock, a: State, n: nat, typ: i16)
    requires Sound(sb, a) && n < |a.img.dins|
    ensures var b := ClaimedInode(a, n, typ);
            && FilesKept(a, b, {n}) && ViewOf(b) == ViewOf(a)[n := Node(typ, 0, [])]
            && (typ == T_DIR ==> IsDirectory(b, n)) && DirEntries(b, n) == []
            && forall d: nat :: d < |a.img.dins| && d != n && IsDirectory(a, d) ==> IsDirectory(b, d)
  {
    hide Contents, IsDirectory;
    var b := ClaimedInode(a, n, typ);
    forall j: nat | j < |a.img.dins| && j != n
      ensures Contents(b, j) == Contents(a, j)
    {
      SameTree(a, b, j);
    }
    ViewOne(a, b, n);
    NoContents(b, n);
    assert typ == T_DIR ==> IsDirectory(b, n) by { EmptyDirectory(b, n); }
  }

  lemma EmptyDirectory(st: State, n: nat)
    requires n < |st.trees| == |st.img.dins| && st.img.dins[n].size == 0
    ensures st.img.dins[n].typ == T_DIR ==> IsDirectory(st, n)
  {
  }

  lemma ViewMeta(a: State, i: nat, major: i16, minor: i16, nlink: i16)
    requires i < |a.img.dins| == |a.trees|
    ensures var b := MetaSet(a, i, major, minor, nlink);
            && FilesKept(a, b, {i}) && ViewOf(b) == ViewOf(a)[i := ViewOf(a)[i].(nlink := nlink)]
            && forall d: nat :: d < |a.img.dins| && IsDirectory(a, d) ==> IsDirectory(b, d)
  {
    hide Contents;
    var b := MetaSet(a, i, major, minor, nlink);
    forall j: nat | j < |a.img.dins|
      ensures Contents(b, j) == Contents(a, j)
    {
      SameTree(a, b, j);
    }
    ViewOne(a, b, i);
  }

  lemma ViewEntry(a: State, b: State, i: nat, k: nat, e: Dirent)
    requires EntrySet(a, b, i, k, e)
    ensures FilesKept(a, b, {i}) && k <= |ViewOf(a)[i].entries| && ViewOf(a)[i].typ == T_DIR
    ensures ViewOf(b) == ViewOf(a)[i := ViewOf(a)[i].(entries := WithEntry(ViewOf(a)[i].entries, k, e))]
    ensures forall d: nat :: d < |a.img.dins| && IsDirectory(a, d) ==> IsDirectory(b, d)
  {
    hide Contents, DirEntries;
    ViewOne(a, b, i);
  }

  lemma ViewFree(sb: Superblock, a: State, b: State, i: nat)
    requires FreedInode(a, b, i) && Sound(sb, a)
    ensures FilesKept(a, b, {i}) && ViewOf(b) == Freed(ViewOf(a), i)
    ensures forall d: nat :: d < |a.img.dins| && d != i && IsDirectory(a, d) ==> IsDirectory(b, d)
  {
    hide Contents;
    forall j: nat | j < |a.img.dins| && j != i
      ensures Contents(b, j) == Contents(a, j)
    {
      SameTree(a, b, j);
    }
    ViewOne(a, b, i);
  }

  // What TargetsExist asks, from the view.
  lemma TargetsByView(st: State, i: nat)
    requires i < |st.img.dins| && st.img.dins[i].typ == T_DIR
    requires forall k :: 0 <= k < |ViewOf(st)[i].entries| && ViewOf(st)[i].entries[k].inum != 0 ==>
               ViewOf(st)[i].entries[k].inum < |ViewOf(st)| && ViewOf(st)[ViewOf(st)[i].entries[k].inum].typ != T_FREE
    ensures TargetsExist(st, i)
  {
    hide DirEntries;
    assert ViewOf(st)[i] == NodeOf(st, i);
    forall k | 0 <= k < |DirEntries(st, i)| && DirEntries(st, i)[k].inum != 0
      ensures DirEntries(st, i)[k].inum < |st.img.dins| && st.img.dins[DirEntries(st, i)[k].inum].typ != T_FREE
    {
      assert ViewOf(st)[DirEntries(st, i)[k].inum] == NodeOf(st, DirEntries(st, i)[k].inum);
    }
  }

  /** Closing a file: freeing an inode without links keeps the name space. */
  lemma FreedKeepsNamespace(sb: Superblock, a: State, b: State, t: Places, i: nat)
    requires NamespaceOk(a, t) && Sound(sb, a) && FreedInode(a, b, i) && 0 < i && a.img.dins[i].nlink == 0
    ensures NamespaceOk(b, t)
  {
    hide Sound, IsDirectory, TreeOk, ViewOf;
    ViewFree(sb, a, b, i);
    assert ViewOf(a)[i] == NodeOf(a, i) by { ViewAt(a, i); }
    FreeKeepsTree(ViewOf(a), t, i);
    forall d | d in t
      ensures IsDirectory(b, d)
    {
      DirectoryTyped(a, d);
    }
  }

  lemma ViewAt(st: State, i: nat)
    requires i < |st.img.dins|
    ensures |ViewOf(st)| == |st.img.dins| && ViewOf(st)[i] == NodeOf(st, i)
  {
  }

  /** Writing a file keeps the name space. */
  lemma WriteKeepsNamespace(a: State, b: State, t: Places, i: nat, off: nat, src: seq<byte>)
    requires NamespaceOk(a, t) && WroteFile(a, b, i, off, src) && a.img.dins[i].typ != T_DIR
    ensures NamespaceOk(b, t)
  {
    hide Contents, IsDirectory, TreeOk, Overwrite;
    ViewOne(a, b, i);
    ViewAt(a, i);
    assert ViewOf(b) == ViewOf(a);
    forall d | d in t
      ensures IsDirectory(b, d)
    {
      DirectoryTyped(a, d);
    }
  }

  ghost function Depth(t: Places, d: nat): nat {
    if d in t then t[d].depth else 0
  }

  lemma {:induction false} ResolveOneMore(st: State, i: nat, names: seq<seq<byte>>, d: nat, name: Name)
    requires Resolve(st, i, names) == Some(d) && d < |st.img.dins| && st.img.dins[d].typ == T_DIR
    ensures Resolve(st, i, names + [name]) ==
            match Lookup(DirEntries(st, d), name) case None => None case Some(j) => Some(j)
    decreases |names|
  {
    var more := names + [name];
    if names == [] {
      assert more[0] == name && more[1..] == [];
    } else {
      assert more[0] == names[0] && more[1..] == names[1..] + [name];
      ResolveOneMore(st, Lookup(DirEntries(st, i), names[0]).value, names[1..], d, name);
    }
  }

  /** No orphaned subtree: every directory of the tree is reached from the root by some path. */
  lemma {:induction false} ReachableFromRoot(st: State, t: Places, d: nat) returns (names: seq<seq<byte>>)
    requires NamespaceOk(st, t) && d in t
    ensures Resolve(st, ROOTINO, names) == Some(d)
    decreases Depth(t, d)
  {
    hide IsDirectory, TreeOk, ViewOf, Resolve, Lookup;
    var v := ViewOf(st);
    DirFacts(v, t, d);
    ViewAt(st, d);
    if d == ROOTINO {
      names := [];
      assert Resolve(st, ROOTINO, []) == Some(ROOTINO) by { ResolveDone(st, ROOTINO); }
    } else {
      var p := t[d].parent;
      ViewAt(st, p);
      names := ReachableFromRoot(st, t, p);
      var e := DirEntries(st, p)[t[d].slot];
      FindHere(DirEntries(st, p), e.name, t[d].slot);
      ResolveOneMore(st, ROOTINO, names, p, e.name);
      names := names + [e.name];
    }
  }
}
