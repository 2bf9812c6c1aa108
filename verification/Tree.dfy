/** The name space as values: what every directory says, the tree the directories form, and the
    link count of every inode. */
module Tree {
  import opened DiskFormat
  import opened Dirents
  import opened Paths

  // One inode as the name space sees it.
  datatype Node = Node(typ: i16, nlink: int, entries: seq<Dirent>)
  type View = seq<Node>

  // Where a directory of the tree hangs: the entry of its parent that names it, how deep it is,
  // and by how much its link count exceeds the entries that name it.
  datatype Where = Where(parent: nat, slot: nat, depth: nat, bonus: nat)
  type Places = map<nat, Where>  // by inode number; its keys are the directories of the tree

  // An entry counts as a link to i, except the own "." of i.
  predicate Counts(e: Dirent, d: nat, i: nat) {
    e.inum == i && !(d == i && e.name == DOT)
  }

  function CountIn(es: seq<Dirent>, d: nat, i: nat): nat {
    if es == [] then 0
    else CountIn(es[..|es| - 1], d, i) + if Counts(es[|es| - 1], d, i) then 1 else 0
  }

  function Term(v: View, t: Places, i: nat, d: nat): nat
    requires d < |v|
  {
    if d in t then CountIn(v[d].entries, d, i) else 0
  }

  // The entries naming i in the first n inodes that are directories of the tree.
  function Links(v: View, t: Places, i: nat, n: nat): nat
    requires n <= |v|
  {
    if n == 0 then 0 else Links(v, t, i, n - 1) + Term(v, t, i, n - 1)
  }

  ghost predicate EntryOk(v: View, t: Places, d: nat, k: nat)
    requires d < |v| && k < |v[d].entries|
  {
    var j := v[d].entries[k].inum;
    j != 0 ==>
      && j < |v| && v[j].typ != T_FREE
      && (v[j].typ == T_DIR ==> j in t && j != ROOTINO && t[j].parent == d && t[j].slot == k)
  }

  ghost predicate DirOk(v: View, t: Places, d: nat)
    requires d in t
  {
    && 0 < d < |v| && v[d].typ == T_DIR
    && Distinct(v[d].entries) && |v[d].entries| >= 2
    && v[d].entries[0] == Dirent(d, DOT) && v[d].entries[1] == Dirent(t[d].parent, DOTDOT)
    && t[d].parent in t && t[d].parent < |v|
    && (d == ROOTINO ==> t[d].parent == ROOTINO)
    && (d != ROOTINO ==>
          && t[t[d].parent].depth < t[d].depth
          && 2 <= t[d].slot < |v[t[d].parent].entries|
          && v[t[d].parent].entries[t[d].slot].inum == d)
    && (forall k :: 2 <= k < |v[d].entries| ==> EntryOk(v, t, d, k))
  }

  ghost predicate LinksOk(v: View, t: Places, i: nat)
    requires i < |v|
  {
    v[i].typ != T_FREE && (v[i].typ == T_DIR ==> i in t) ==>
      v[i].nlink == Links(v, t, i, |v|) + if i in t then t[i].bonus else 0
  }

  /** The directories form one tree under the root, each hanging at one entry; every entry names
      an inode that exists; and every link count is the number of entries naming the inode, plus
      a surplus fixed for each directory. */
  ghost predicate TreeOk(v: View, t: Places) {
    && ROOTINO in t
    && (forall d :: d in t ==> DirOk(v, t, d))
    && (forall i: nat :: 0 < i < |v| ==> LinksOk(v, t, i))
  }

  lemma {:induction false} CountSet(es: seq<Dirent>, k: nat, e: Dirent, d: nat, i: nat)
    requires k <= |es|
    ensures CountIn(WithEntry(es, k, e), d, i) ==
            CountIn(es, d, i) + (if Counts(e, d, i) then 1 else 0)
            - (if k < |es| && Counts(es[k], d, i) then 1 else 0)
  {
    var es' := WithEntry(es, k, e);
    var n := |es'| - 1;
    if k == |es| {
      assert es'[..n] == es;
    } else if k == n {
      assert es'[..n] == es[..n];
    } else {
      CountSet(es[..n], k, e, d, i);
      assert es'[..n] == WithEntry(es[..n], k, e);
    }
  }

  lemma {:induction false} CountedEntry(es: seq<Dirent>, k: nat, d: nat, i: nat)
    requires k < |es| && Counts(es[k], d, i)
    ensures CountIn(es, d, i) > 0
  {
    if k < |es| - 1 {
      CountedEntry(es[..|es| - 1], k, d, i);
    }
  }

  lemma {:induction false} CountedNone(es: seq<Dirent>, d: nat, i: nat)
    requires forall k :: 0 <= k < |es| ==> !Counts(es[k], d, i)
    ensures CountIn(es, d, i) == 0
  {
    if es != [] {
      CountedNone(es[..|es| - 1], d, i);
    }
  }

  lemma {:induction false} LinkedBy(v: View, t: Places, i: nat, n: nat, d: nat, k: nat)
    requires n <= |v| && d < n && d in t && k < |v[d].entries| && Counts(v[d].entries[k], d, i)
    ensures Links(v, t, i, n) > 0
  {
    if d == n - 1 {
      CountedEntry(v[d].entries, k, d, i);
    } else {
      LinkedBy(v, t, i, n - 1, d, k);
    }
  }

  lemma {:induction false} LinkedByNone(v: View, t: Places, i: nat, n: nat)
    requires n <= |v|
    requires forall d, k :: 0 <= d < n && d in t && 0 <= k < |v[d].entries| ==> !Counts(v[d].entries[k], d, i)
    ensures Links(v, t, i, n) == 0
  {
    if n > 0 {
      LinkedByNone(v, t, i, n - 1);
      if n - 1 in t {
        CountedNone(v[n - 1].entries, n - 1, i);
      }
    }
  }

  // When one directory changes, the count changes by its own term.
  lemma {:induction false} LinksChange(v: View, t: Places, v': View, t': Places, i: nat, n: nat, d: nat)
    requires n <= |v| == |v'| && d < |v|
    requires forall e: nat :: e < n && e != d ==> (e in t' <==> e in t) && (e in t ==> v'[e].entries == v[e].entries)
    ensures Links(v', t', i, n) ==
            Links(v, t, i, n) + if d < n then Term(v', t', i, d) - Term(v, t, i, d) else 0
  {
    if n > 0 {
      LinksChange(v, t, v', t', i, n - 1, d);
    }
  }

  // Every directory of the tree, and everything an entry names, has a link.
  lemma DirLinked(v: View, t: Places, d: nat)
    requires TreeOk(v, t) && d in t
    ensures d < |v| && v[d].nlink > 0 && Links(v, t, d, |v|) > 0
  {
    hide Links;
    assert DirOk(v, t, d) && LinksOk(v, t, d);
    if d == ROOTINO {
      LinkedBy(v, t, d, |v|, d, 1);
    } else {
      var p := t[d].parent;
      assert DirOk(v, t, p);
      LinkedBy(v, t, d, |v|, p, t[d].slot);
    }
  }

  lemma FileLinked(v: View, t: Places, d: nat, k: nat)
    requires TreeOk(v, t) && d in t && d < |v| && v[d].typ == T_DIR
    requires k < |v[d].entries| && 0 < v[d].entries[k].inum < |v|
    requires v[v[d].entries[k].inum].typ != T_FREE && v[v[d].entries[k].inum].typ != T_DIR
    ensures v[v[d].entries[k].inum].nlink > 0
  {
    hide Links, DirOk;
    var j := v[d].entries[k].inum;
    LinkedBy(v, t, j, |v|, d, k);
    assert LinksOk(v, t, j);
  }

  lemma EntryLinked(v: View, t: Places, d: nat, k: nat)
    requires TreeOk(v, t) && d in t && d < |v| && k < |v[d].entries| && v[d].entries[k].inum != 0
    ensures var j := v[d].entries[k].inum;
            j < |v| && v[j].typ != T_FREE && v[j].nlink > 0 && (v[j].typ == T_DIR ==> j in t)
  {
    hide Links;
    assert DirOk(v, t, d);
    var j := v[d].entries[k].inum;
    if k < 2 {
      DirLinked(v, t, d);
      DirLinked(v, t, t[d].parent);
      assert DirOk(v, t, t[d].parent);
    } else {
      assert EntryOk(v, t, d, k);
      if v[j].typ == T_DIR {
        DirLinked(v, t, j);
      } else {
        FileLinked(v, t, d, k);
      }
    }
  }

  // Nothing names a free inode.
  lemma FreeUnlinked(v: View, t: Places, i: nat)
    requires TreeOk(v, t) && 0 < i < |v| && v[i].typ == T_FREE
    ensures i !in t && Links(v, t, i, |v|) == 0
  {
    hide Links;
    assert i in t ==> DirOk(v, t, i);
    forall d, k | 0 <= d < |v| && d in t && 0 <= k < |v[d].entries|
      ensures !Counts(v[d].entries[k], d, i)
    {
      EntryLinked'(v, t, d, k, i);
    }
    LinkedByNone(v, t, i, |v|);
  }

  lemma EntryLinked'(v: View, t: Places, d: nat, k: nat, i: nat)
    requires TreeOk(v, t) && d in t && d < |v| && k < |v[d].entries| && 0 < i < |v| && v[i].typ == T_FREE
    ensures v[d].entries[k].inum != i
  {
    if v[d].entries[k].inum != 0 {
      EntryLinked(v, t, d, k);
    }
  }
}
