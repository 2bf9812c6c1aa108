/** What create and unlink do to the name space, as values: one entry appears or disappears, link
    counts follow, and the directories stay one tree. */
module NameTree {
  import opened Wrappers
  import opened DiskFormat
  import opened Dirents
  import opened Paths
  import opened Tree

  function NewEntries(n: nat, dp: nat, typ: i16): seq<Dirent> {
    if typ == T_DIR then [Dirent(n, DOT), Dirent(dp, DOTDOT)] else []
  }

  // Entry k of directory dp names the new inode n.
  ghost function AfterCreate(v: View, dp: nat, k: nat, n: nat, name: Name, typ: i16): View
    requires dp < |v| && n < |v| && k <= |v[dp].entries|
  {
    v[dp := Node(v[dp].typ, v[dp].nlink + if typ == T_DIR then 1 else 0, WithEntry(v[dp].entries, k, Dirent(n, name)))]
     [n := Node(typ, 1, NewEntries(n, dp, typ))]
  }

  ghost function TreeAfterCreate(t: Places, dp: nat, k: nat, n: nat, typ: i16): Places
    requires dp in t
  {
    if typ == T_DIR then t[n := Where(dp, k, t[dp].depth + 1, 0)] else t
  }

  // Entry k of directory dp is cleared; the inode it named loses a link.
  ghost function AfterUnlink(v: View, dp: nat, k: nat): View
    requires dp < |v| && k < |v[dp].entries| && v[dp].entries[k].inum < |v|
  {
    var j := v[dp].entries[k].inum;
    v[dp := Node(v[dp].typ, v[dp].nlink - if v[j].typ == T_DIR then 1 else 0,
                 WithEntry(v[dp].entries, k, Dirent(0, [])))]
     [j := v[j].(nlink := v[j].nlink - 1)]
  }

  ghost function TreeAfterUnlink(v: View, t: Places, j: nat): Places
    requires j < |v|
  {
    if v[j].typ == T_DIR then t - {j} else t
  }

  // No entries but the first two.
  predicate EmptyFrom(es: seq<Dirent>, k: nat) {
    forall m :: k <= m < |es| ==> es[m].inum == 0
  }

  // The directory binds no name but "." and "..".
  ghost predicate NoNames(es: seq<Dirent>) {
    forall name: Name :: name != DOT && name != DOTDOT ==> Lookup(es, name) == None
  }

  /** For a directory of the tree the scan past the first two entries finds nothing exactly when no
      name but its own two is left. */
  lemma EmptyByName(v: View, t: Places, d: nat)
    requires TreeOk(v, t) && d in t
    ensures d < |v| && (EmptyFrom(v[d].entries, 2) <==> NoNames(v[d].entries))
  {
    hide Links, LinksOk, EntryOk;
    assert DirOk(v, t, d) && DirOk(v, t, t[d].parent);
    var es := v[d].entries;
    if NoNames(es) {
      forall m | 2 <= m < |es|
        ensures es[m].inum == 0
      {
        if es[m].inum != 0 {
          assert es[m].name != DOT && es[m].name != DOTDOT;
          FindHere(es, es[m].name, m);
        }
      }
    }
  }

  function Freed(v: View, i: nat): View
    requires i < |v|
  {
    v[i := Node(T_FREE, v[i].nlink, [])]
  }

  lemma {:induction false} CountEmptyFrom(es: seq<Dirent>, k: nat, d: nat, i: nat)
    requires k <= |es| && EmptyFrom(es, k) && i > 0
    ensures CountIn(es, d, i) == CountIn(es[..k], d, i)
  {
    if k == |es| {
      assert es[..k] == es;
    } else {
      CountEmptyFrom(es[..|es| - 1], k, d, i);
      assert es[..|es| - 1][..k] == es[..k];
    }
  }

  lemma CountDots(es: seq<Dirent>, d: nat, p: nat, i: nat)
    requires |es| == 2 && es[0] == Dirent(d, DOT) && es[1] == Dirent(p, DOTDOT) && d != p
    ensures CountIn(es, d, i) == if i == p then 1 else 0
  {
    assert es[..1] == [es[0]] && es[..1][..0] == [];
    assert CountIn(es[..1], d, i) == 0;
  }

  // Directory d and its parent. The tree is kept folded elsewhere: a parent has a parent again.
  lemma DirFacts(v: View, t: Places, d: nat)
    requires TreeOk(v, t) && d in t
    ensures DirOk(v, t, d) && t[d].parent in t && DirOk(v, t, t[d].parent)
    ensures ROOTINO in t && ROOTINO < |v| && v[ROOTINO].typ == T_DIR
  {
    hide Links, LinksOk, CountIn, EntryOk;
    assert DirOk(v, t, d) && DirOk(v, t, ROOTINO);
  }

  // The first two entries of a directory are in use and are "." and "..".
  lemma FreeSlot(v: View, t: Places, d: nat, k: nat, name: Name)
    requires TreeOk(v, t) && d in t && d < |v| && k <= |v[d].entries|
    requires k < |v[d].entries| ==>
               v[d].entries[k].inum == 0 || (v[d].entries[k].name == name && name != DOT && name != DOTDOT)
    ensures k >= 2 && v[d].typ == T_DIR
  {
    hide TreeOk;
    DirFacts(v, t, d);
  }

  lemma TreeFrom(v: View, t: Places)
    requires ROOTINO in t && (forall d :: d in t ==> DirOk(v, t, d))
              && forall i: nat :: 0 < i < |v| ==> LinksOk(v, t, i)
    ensures TreeOk(v, t)
  {
  }

  /** A new file or directory at an unused name keeps the tree, its link counts included. */
  lemma CreateKeepsTree(v: View, t: Places, dp: nat, k: nat, n: nat, name: Name, typ: i16)
    requires TreeOk(v, t) && dp in t && dp < |v| && k <= |v[dp].entries|
    requires k < |v[dp].entries| ==> v[dp].entries[k].inum == 0
    requires Lookup(v[dp].entries, name) == None
    requires 0 < n < |v| && v[n].typ == T_FREE && (typ == T_DIR || typ == T_FILE)
    ensures TreeOk(AfterCreate(v, dp, k, n, name, typ), TreeAfterCreate(t, dp, k, n, typ))
  {
    hide Links, LinksOk, DirOk, TreeOk, Lookup, CountIn;
    var v', t' := AfterCreate(v, dp, k, n, name, typ), TreeAfterCreate(t, dp, k, n, typ);
    FreeUnlinked(v, t, n);
    DirFacts(v, t, dp);
    forall d | d in t'
      ensures DirOk(v', t', d)
    {
      CreateDirOk(v, t, dp, k, n, name, typ, d);
    }
    forall i: nat | 0 < i < |v'|
      ensures LinksOk(v', t', i)
    {
      CreateLinksOk(v, t, dp, k, n, name, typ, i);
    }
    TreeFrom(v', t');
  }

  // A directory whose entries from the third on are as before, or name only what is there.
  lemma SameDirOk(v: View, t: Places, v': View, t': Places, d: nat)
    requires TreeOk(v, t) && |v'| == |v| && d in t && d in t' && d < |v| && t'[d] == t[d]
    requires v'[d].typ == T_DIR && v'[d].entries == v[d].entries
    requires t[d].parent in t' && t'[t[d].parent] == t[t[d].parent] && t[d].parent < |v|
    requires d != ROOTINO && t[d].slot < |v[t[d].parent].entries| ==>
               var es := v'[t[d].parent].entries;
               t[d].slot < |es| && es[t[d].slot] == v[t[d].parent].entries[t[d].slot]
    requires forall m :: 2 <= m < |v[d].entries| ==> EntryOk(v', t', d, m)
    ensures DirOk(v', t', d)
  {
    hide Links, LinksOk, CountIn, EntryOk, TreeOk;
    DirFacts(v, t, d);
  }

  // An entry kept as it is, naming an inode of the same type at the same place of the tree.
  lemma EntryKept(v: View, t: Places, v': View, t': Places, d: nat, m: nat)
    requires d < |v| == |v'| && m < |v[d].entries| && EntryOk(v, t, d, m)
    requires m < |v'[d].entries| && v'[d].entries[m] == v[d].entries[m]
    requires forall j: nat :: j < |v| && v[j].typ != T_FREE ==> v'[j].typ == v[j].typ
    requires forall j :: j in t ==> j in t' && t'[j] == t[j]
    ensures EntryOk(v', t', d, m)
  {
  }

  lemma CreateEntryOk(v: View, t: Places, dp: nat, k: nat, n: nat, name: Name, typ: i16, d: nat, m: nat)
    requires TreeOk(v, t) && dp in t && dp < |v| && k <= |v[dp].entries| && d in t && d < |v| && 2 <= m
    requires 0 < n < |v| && v[n].typ == T_FREE && n !in t && (typ == T_DIR || typ == T_FILE)
    requires v[dp].typ == T_DIR
    requires m < |AfterCreate(v, dp, k, n, name, typ)[d].entries|
    ensures EntryOk(AfterCreate(v, dp, k, n, name, typ), TreeAfterCreate(t, dp, k, n, typ), d, m)
  {
    hide Links, LinksOk, CountIn, Distinct, EntryOk, TreeOk;
    DirFacts(v, t, d);
    if d != dp || m != k {
      EntryKept(v, t, AfterCreate(v, dp, k, n, name, typ), TreeAfterCreate(t, dp, k, n, typ), d, m);
    } else {
      NamesNew(AfterCreate(v, dp, k, n, name, typ), TreeAfterCreate(t, dp, k, n, typ), dp, k, n);
    }
  }

  lemma NamesNew(v: View, t: Places, d: nat, k: nat, n: nat)
    requires d < |v| && k < |v[d].entries| && v[d].entries[k].inum == n < |v| && v[n].typ != T_FREE
    requires v[n].typ == T_DIR ==> n in t && n != ROOTINO && t[n].parent == d && t[n].slot == k
    ensures EntryOk(v, t, d, k)
  {
  }

  lemma CreateOtherOk(v: View, t: Places, dp: nat, k: nat, n: nat, name: Name, typ: i16, d: nat)
    requires TreeOk(v, t) && dp in t && dp < |v| && k <= |v[dp].entries|
    requires k < |v[dp].entries| ==> v[dp].entries[k].inum == 0
    requires Lookup(v[dp].entries, name) == None
    requires 0 < n < |v| && v[n].typ == T_FREE && n !in t && (typ == T_DIR || typ == T_FILE)
    requires d in t && d != dp
    ensures DirOk(AfterCreate(v, dp, k, n, name, typ), TreeAfterCreate(t, dp, k, n, typ), d)
  {
    hide Links, LinksOk, Lookup, CountIn, EntryOk, Distinct, TreeOk;
    var v', t' := AfterCreate(v, dp, k, n, name, typ), TreeAfterCreate(t, dp, k, n, typ);
    DirFacts(v, t, d);
    DirFacts(v, t, dp);
    forall m: nat | 2 <= m < |v'[d].entries|
      ensures EntryOk(v', t', d, m)
    {
      CreateEntryOk(v, t, dp, k, n, name, typ, d, m);
    }
    SameDirOk(v, t, v', t', d);
  }

  lemma CreateParentOk(v: View, t: Places, dp: nat, k: nat, n: nat, name: Name, typ: i16)
    requires TreeOk(v, t) && dp in t && dp < |v| && k <= |v[dp].entries|
    requires k < |v[dp].entries| ==> v[dp].entries[k].inum == 0
    requires Lookup(v[dp].entries, name) == None
    requires 0 < n < |v| && v[n].typ == T_FREE && n !in t && (typ == T_DIR || typ == T_FILE)
    ensures DirOk(AfterCreate(v, dp, k, n, name, typ), TreeAfterCreate(t, dp, k, n, typ), dp)
  {
    hide Links, LinksOk, Lookup, CountIn, EntryOk, Distinct, TreeOk;
    var v', t' := AfterCreate(v, dp, k, n, name, typ), TreeAfterCreate(t, dp, k, n, typ);
    FreeSlot(v, t, dp, k, name);
    DirFacts(v, t, dp);
    forall m: nat | 2 <= m < |v'[dp].entries|
      ensures EntryOk(v', t', dp, m)
    {
      CreateEntryOk(v, t, dp, k, n, name, typ, dp, m);
    }
    BindName(v[dp].entries, k, name, n, name);
  }

  lemma CreateDirOk(v: View, t: Places, dp: nat, k: nat, n: nat, name: Name, typ: i16, d: nat)
    requires TreeOk(v, t) && dp in t && dp < |v| && k <= |v[dp].entries|
    requires k < |v[dp].entries| ==> v[dp].entries[k].inum == 0
    requires Lookup(v[dp].entries, name) == None
    requires 0 < n < |v| && v[n].typ == T_FREE && n !in t && (typ == T_DIR || typ == T_FILE)
    requires d in TreeAfterCreate(t, dp, k, n, typ)
    ensures DirOk(AfterCreate(v, dp, k, n, name, typ), TreeAfterCreate(t, dp, k, n, typ), d)
  {
    hide Links, LinksOk, Lookup, CountIn, EntryOk, Distinct, TreeOk;
    if d == dp {
      CreateParentOk(v, t, dp, k, n, name, typ);
    } else if d == n {
      DirFacts(v, t, dp);
      FreeSlot(v, t, dp, k, name);
      NewDirOk(n, dp);
    } else {
      CreateOtherOk(v, t, dp, k, n, name, typ, d);
    }
  }

  lemma NewDirOk(n: nat, dp: nat)
    ensures Distinct(NewEntries(n, dp, T_DIR)) && |NewEntries(n, dp, T_DIR)| == 2
  {
  }

  lemma CreateLinksOk(v: View, t: Places, dp: nat, k: nat, n: nat, name: Name, typ: i16, i: nat)
    requires TreeOk(v, t) && dp in t && dp < |v| && k <= |v[dp].entries|
    requires k < |v[dp].entries| ==> v[dp].entries[k].inum == 0
    requires 0 < n < |v| && v[n].typ == T_FREE && n !in t && Links(v, t, n, |v|) == 0
    requires (typ == T_DIR || typ == T_FILE) && 0 < i < |v|
    ensures LinksOk(AfterCreate(v, dp, k, n, name, typ), TreeAfterCreate(t, dp, k, n, typ), i)
  {
    hide Links, TreeOk, DirOk, WithEntry;
    TreeFacts(v, t, i, dp);
    CreateLinks(v, t, dp, k, n, name, typ, i);
  }

  /** The entries a create adds: the one naming the new inode, and for a directory its "..". */
  lemma CreateLinks(v: View, t: Places, dp: nat, k: nat, n: nat, name: Name, typ: i16, i: nat)
    requires TreeOk(v, t) && dp in t && dp < |v| && k <= |v[dp].entries|
    requires k < |v[dp].entries| ==> v[dp].entries[k].inum == 0
    requires 0 < n < |v| && v[n].typ == T_FREE && n !in t && (typ == T_DIR || typ == T_FILE) && 0 < i < |v|
    ensures Links(AfterCreate(v, dp, k, n, name, typ), TreeAfterCreate(t, dp, k, n, typ), i, |v|) ==
            Links(v, t, i, |v|) + (if i == n then 1 else 0) + if i == dp && typ == T_DIR then 1 else 0
  {
    hide Links, TreeOk, WithEntry, LinksOk, CountIn;
    TreeFacts(v, t, i, dp);
    var v', t' := AfterCreate(v, dp, k, n, name, typ), TreeAfterCreate(t, dp, k, n, typ);
    var v1 := v[dp := v'[dp]];
    LinksChange(v, t, v1, t, i, |v|, dp);
    LinksChange(v1, t, v', t', i, |v|, n);
    CountSet(v[dp].entries, k, Dirent(n, name), dp, i);
    if typ == T_DIR {
      CountDots(v'[n].entries, n, dp, i);
    }
  }

  lemma TreeFacts(v: View, t: Places, i: nat, d: nat)
    requires TreeOk(v, t) && 0 < i < |v| && d in t
    ensures LinksOk(v, t, i) && DirOk(v, t, d)
  {
    hide Links;
  }

  /** Clearing the entry of a file, or of a directory without entries of its own, keeps the
      tree: nothing hung below what was removed. */
  lemma UnlinkKeepsTree(v: View, t: Places, dp: nat, k: nat)
    requires TreeOk(v, t) && dp in t && dp < |v| && 2 <= k < |v[dp].entries|
    requires 0 < v[dp].entries[k].inum < |v|
    requires v[v[dp].entries[k].inum].typ == T_DIR ==> EmptyFrom(v[v[dp].entries[k].inum].entries, 2)
    ensures TreeOk(AfterUnlink(v, dp, k), TreeAfterUnlink(v, t, v[dp].entries[k].inum))
  {
    hide Links, LinksOk, DirOk, TreeOk, CountIn, EmptyFrom;
    var j := v[dp].entries[k].inum;
    var v', t' := AfterUnlink(v, dp, k), TreeAfterUnlink(v, t, j);
    DirFacts(v, t, dp);
    NotItself(v, t, dp, k);
    forall d | d in t'
      ensures DirOk(v', t', d)
    {
      UnlinkDirOk(v, t, dp, k, d);
    }
    forall i: nat | 0 < i < |v'|
      ensures LinksOk(v', t', i)
    {
      UnlinkLinksOk(v, t, dp, k, i);
    }
    TreeFrom(v', t');
  }

  // What unlink removes is not the directory it removes it from, nor the root.
  lemma NotItself(v: View, t: Places, dp: nat, k: nat)
    requires TreeOk(v, t) && dp in t && dp < |v| && 2 <= k < |v[dp].entries|
    requires 0 < v[dp].entries[k].inum < |v|
    ensures var j := v[dp].entries[k].inum;
            && j != dp && j != ROOTINO && v[j].typ != T_FREE && v[dp].typ == T_DIR && (v[j].typ != T_DIR ==> j !in t)
            && (v[j].typ == T_DIR ==> j in t && t[j].parent == dp && t[j].slot == k && DirOk(v, t, j))
  {
    hide Links, LinksOk, CountIn, TreeOk;
    var j := v[dp].entries[k].inum;
    DirFacts(v, t, dp);
    assert EntryOk(v, t, dp, k);
    if j in t {
      DirFacts(v, t, j);
    }
  }

  lemma UnlinkEntryOk(v: View, t: Places, dp: nat, k: nat, d: nat, m: nat)
    requires TreeOk(v, t) && dp in t && dp < |v| && 2 <= k < |v[dp].entries|
    requires 0 < v[dp].entries[k].inum < |v|
    requires d in TreeAfterUnlink(v, t, v[dp].entries[k].inum) && d < |v| && 2 <= m < |v[d].entries|
    requires v[dp].typ == T_DIR && |AfterUnlink(v, dp, k)[d].entries| == |v[d].entries|
    ensures EntryOk(AfterUnlink(v, dp, k), TreeAfterUnlink(v, t, v[dp].entries[k].inum), d, m)
  {
    hide Links, LinksOk, CountIn, Distinct, TreeOk;
    NotItself(v, t, dp, k);
    DirFacts(v, t, d);
    if d != dp || m != k {
      assert EntryOk(v, t, d, m);
    }
  }

  // Nothing of the tree hangs below what unlink removes.
  lemma NoChild(v: View, t: Places, j: nat, d: nat)
    requires TreeOk(v, t) && j in t && j < |v| && j != ROOTINO && EmptyFrom(v[j].entries, 2) && d in t && d != j
    ensures t[d].parent != j
  {
    hide Links, LinksOk, CountIn, Distinct, TreeOk;
    DirFacts(v, t, d);
  }

  // A directory with one entry from the third on edited.
  lemma EditedDirOk(v: View, t: Places, v': View, t': Places, d: nat, k: nat, e: Dirent)
    requires d in t && d in t' && DirOk(v, t, d) && |v'| == |v| && t'[d] == t[d] && v'[d].typ == T_DIR
    requires 2 <= k <= |v[d].entries| && v'[d].entries == WithEntry(v[d].entries, k, e) && Distinct(v'[d].entries)
    requires t[d].parent in t' && t'[t[d].parent] == t[t[d].parent]
    requires d != ROOTINO ==>
               var es := v'[t[d].parent].entries; t[d].slot < |es| && es[t[d].slot] == v[t[d].parent].entries[t[d].slot]
    requires forall m :: 2 <= m < |v'[d].entries| ==> EntryOk(v', t', d, m)
    ensures DirOk(v', t', d)
  {
    hide EntryOk, Distinct;
  }

  lemma UnlinkParentOk(v: View, t: Places, dp: nat, k: nat)
    requires TreeOk(v, t) && dp in t && dp < |v| && 2 <= k < |v[dp].entries|
    requires 0 < v[dp].entries[k].inum < |v|
    requires v[v[dp].entries[k].inum].typ == T_DIR ==> EmptyFrom(v[v[dp].entries[k].inum].entries, 2)
    ensures DirOk(AfterUnlink(v, dp, k), TreeAfterUnlink(v, t, v[dp].entries[k].inum), dp)
  {
    hide Links, LinksOk, CountIn, EntryOk, Distinct, EmptyFrom, TreeOk;
    var j := v[dp].entries[k].inum;
    var v', t' := AfterUnlink(v, dp, k), TreeAfterUnlink(v, t, j);
    NotItself(v, t, dp, k);
    DirFacts(v, t, dp);
    if v[j].typ == T_DIR {
      NoChild(v, t, j, dp);
    }
    forall m: nat | 2 <= m < |v'[dp].entries|
      ensures EntryOk(v', t', dp, m)
    {
      UnlinkEntryOk(v, t, dp, k, dp, m);
    }
    UnbindName(v[dp].entries, k, []);
    EditedDirOk(v, t, v', t', dp, k, Dirent(0, []));
  }

  lemma UnlinkDirOk(v: View, t: Places, dp: nat, k: nat, d: nat)
    requires TreeOk(v, t) && dp in t && dp < |v| && 2 <= k < |v[dp].entries|
    requires 0 < v[dp].entries[k].inum < |v|
    requires v[v[dp].entries[k].inum].typ == T_DIR ==> EmptyFrom(v[v[dp].entries[k].inum].entries, 2)
    requires d in TreeAfterUnlink(v, t, v[dp].entries[k].inum)
    ensures DirOk(AfterUnlink(v, dp, k), TreeAfterUnlink(v, t, v[dp].entries[k].inum), d)
  {
    hide Links, LinksOk, CountIn, EntryOk, Distinct, EmptyFrom, TreeOk;
    if d == dp {
      UnlinkParentOk(v, t, dp, k);
      return;
    }
    var j := v[dp].entries[k].inum;
    var v', t' := AfterUnlink(v, dp, k), TreeAfterUnlink(v, t, j);
    NotItself(v, t, dp, k);
    DirFacts(v, t, d);
    DirFacts(v, t, dp);
    if v[j].typ == T_DIR {
      NoChild(v, t, j, d);
    }
    forall m: nat | 2 <= m < |v'[d].entries|
      ensures EntryOk(v', t', d, m)
    {
      UnlinkEntryOk(v, t, dp, k, d, m);
    }
    SameDirOk(v, t, v', t', d);
  }

  lemma UnlinkLinksOk(v: View, t: Places, dp: nat, k: nat, i: nat)
    requires TreeOk(v, t) && dp in t && dp < |v| && 2 <= k < |v[dp].entries|
    requires 0 < v[dp].entries[k].inum < |v|
    requires v[v[dp].entries[k].inum].typ == T_DIR ==> EmptyFrom(v[v[dp].entries[k].inum].entries, 2)
    requires 0 < i < |v|
    ensures LinksOk(AfterUnlink(v, dp, k), TreeAfterUnlink(v, t, v[dp].entries[k].inum), i)
  {
    hide Links, TreeOk, DirOk, WithEntry, EmptyFrom;
    NotItself(v, t, dp, k);
    TreeFacts(v, t, i, dp);
    UnlinkLinks(v, t, dp, k, i);
  }

  // The links an unlink takes: the entry's own, and for a directory its "..".
  lemma UnlinkLinks(v: View, t: Places, dp: nat, k: nat, i: nat)
    requires TreeOk(v, t) && dp in t && dp < |v| && 2 <= k < |v[dp].entries|
    requires 0 < v[dp].entries[k].inum < |v|
    requires v[v[dp].entries[k].inum].typ == T_DIR ==> EmptyFrom(v[v[dp].entries[k].inum].entries, 2)
    requires 0 < i < |v|
    ensures var j := v[dp].entries[k].inum;
            Links(AfterUnlink(v, dp, k), TreeAfterUnlink(v, t, j), i, |v|) ==
            Links(v, t, i, |v|) - (if i == j then 1 else 0) - if i == dp && v[j].typ == T_DIR then 1 else 0
  {
    hide Links, TreeOk, WithEntry, EmptyFrom, LinksOk, CountIn;
    var j := v[dp].entries[k].inum;
    NotItself(v, t, dp, k);
    var v', t' := AfterUnlink(v, dp, k), TreeAfterUnlink(v, t, j);
    var v1 := v[dp := v'[dp]];
    LinksChange(v, t, v1, t, i, |v|, dp);
    LinksChange(v1, t, v', t', i, |v|, j);
    CountSet(v[dp].entries, k, Dirent(0, []), dp, i);
    if v[j].typ == T_DIR {
      CountEmptyFrom(v[j].entries, 2, j, i);
      CountDots(v[j].entries[..2], j, dp, i);
    }
  }

  // An inode without links is no directory of the tree, and no entry names it.
  lemma Unnamed(v: View, t: Places, i: nat, d: nat, k: nat)
    requires TreeOk(v, t) && 0 < i < |v| && v[i].nlink == 0
    requires d in t && d < |v| && k < |v[d].entries|
    ensures i !in t && v[d].entries[k].inum != i
  {
    if i in t {
      DirLinked(v, t, i);
      assert false;
    }
    if v[d].entries[k].inum != 0 {
      EntryLinked(v, t, d, k);
    }
  }

  lemma FreeEntryOk(v: View, t: Places, i: nat, d: nat, m: nat)
    requires TreeOk(v, t) && 0 < i < |v| && v[i].nlink == 0 && i !in t
    requires d in t && d < |v| && 2 <= m < |v[d].entries|
    ensures EntryOk(Freed(v, i), t, d, m)
  {
    hide Links, LinksOk, CountIn, Distinct, TreeOk;
    DirFacts(v, t, d);
    assert EntryOk(v, t, d, m);
    Unnamed(v, t, i, d, m);
  }

  /** Freeing an inode without links keeps the tree. */
  lemma FreeKeepsTree(v: View, t: Places, i: nat)
    requires TreeOk(v, t) && 0 < i < |v| && v[i].nlink == 0
    ensures i !in t && TreeOk(Freed(v, i), t)
  {
    hide Links, LinksOk, CountIn, EntryOk, Distinct, DirOk, TreeOk;
    var v' := Freed(v, i);
    NotInTree(v, t, i);
    forall d | d in t
      ensures DirOk(v', t, d)
    {
      FreeDirOk(v, t, i, d);
    }
    forall m: nat | 0 < m < |v'|
      ensures LinksOk(v', t, m)
    {
      FreeLinksOk(v, t, i, m);
    }
    TreeFrom(v', t);
  }

  lemma NotInTree(v: View, t: Places, i: nat)
    requires TreeOk(v, t) && 0 < i < |v| && v[i].nlink == 0
    ensures i !in t && ROOTINO in t
  {
    hide Links, TreeOk;
    RootIn(v, t);
    DirFacts(v, t, ROOTINO);
    Unnamed(v, t, i, ROOTINO, 0);
  }

  lemma RootIn(v: View, t: Places)
    requires TreeOk(v, t)
    ensures ROOTINO in t
  {
  }

  lemma FreeDirOk(v: View, t: Places, i: nat, d: nat)
    requires TreeOk(v, t) && 0 < i < |v| && v[i].nlink == 0 && i !in t && d in t
    ensures DirOk(Freed(v, i), t, d)
  {
    hide Links, LinksOk, CountIn, EntryOk, Distinct, TreeOk;
    DirFacts(v, t, d);
    var v' := Freed(v, i);
    forall m: nat | 2 <= m < |v[d].entries|
      ensures EntryOk(v', t, d, m)
    {
      FreeEntryOk(v, t, i, d, m);
    }
    SameDirOk(v, t, v', t, d);
  }

  lemma FreeLinksOk(v: View, t: Places, i: nat, m: nat)
    requires TreeOk(v, t) && 0 < i < |v| && i !in t && 0 < m < |v|
    ensures LinksOk(Freed(v, i), t, m)
  {
    hide Links, DirOk, CountIn;
    assert LinksOk(v, t, m);
    LinksChange(v, t, Freed(v, i), t, m, |v|, i);
  }

  /** create adds one binding; every other lookup in every directory is as before. */
  lemma CreatedBinding(v: View, t: Places, dp: nat, k: nat, n: nat, name: Name, typ: i16, d: nat, other: Name)
    requires TreeOk(v, t) && dp in t && d in t && dp < |v| && k <= |v[dp].entries|
    requires k < |v[dp].entries| ==> v[dp].entries[k].inum == 0
    requires Lookup(v[dp].entries, name) == None && 0 < n < |v| && v[n].typ == T_FREE
    ensures d < |v| && n !in t
    ensures Lookup(AfterCreate(v, dp, k, n, name, typ)[d].entries, other) ==
            if d == dp && other == name then Some(n) else Lookup(v[d].entries, other)
  {
    hide Links, Lookup;
    FreeUnlinked(v, t, n);
    assert DirOk(v, t, d);
    if d == dp {
      BindName(v[dp].entries, k, name, n, other);
    }
  }

  /** unlink removes one binding; every other lookup in every directory is as before. */
  lemma UnlinkedBinding(v: View, t: Places, dp: nat, k: nat, d: nat, other: Name)
    requires TreeOk(v, t) && dp in t && d in t && dp < |v| && 2 <= k < |v[dp].entries|
    requires 0 < v[dp].entries[k].inum < |v|
    ensures d < |v|
    ensures Lookup(AfterUnlink(v, dp, k)[d].entries, other) ==
            if d == dp && other == v[dp].entries[k].name then None else Lookup(v[d].entries, other)
  {
    hide Links, Lookup;
    NotItself(v, t, dp, k);
    assert DirOk(v, t, d);
    if d == dp {
      UnbindName(v[dp].entries, k, other);
    }
  }

  // By how much the link count exceeds the entries that name the inode.
  function Surplus(v: View, t: Places, i: nat): int
    requires i < |v|
  {
    v[i].nlink - Links(v, t, i, |v|)
  }

  /** Create moves link counts and entries by the same amount, for every inode; the one it makes
      starts without a surplus. */
  lemma CreateKeepsSurplus(v: View, t: Places, dp: nat, k: nat, n: nat, name: Name, typ: i16, i: nat)
    requires TreeOk(v, t) && dp in t && dp < |v| && k <= |v[dp].entries|
    requires k < |v[dp].entries| ==> v[dp].entries[k].inum == 0
    requires 0 < n < |v| && v[n].typ == T_FREE && (typ == T_DIR || typ == T_FILE) && 0 < i < |v|
    ensures Surplus(AfterCreate(v, dp, k, n, name, typ), TreeAfterCreate(t, dp, k, n, typ), i) ==
            if i == n then 0 else Surplus(v, t, i)
  {
    hide Links, TreeOk, WithEntry;
    FreeUnlinked(v, t, n);
    CreateLinks(v, t, dp, k, n, name, typ, i);
    TreeFacts(v, t, i, dp);
  }

  /** Unlink too, for every inode, the removed one included. */
  lemma UnlinkKeepsSurplus(v: View, t: Places, dp: nat, k: nat, i: nat)
    requires TreeOk(v, t) && dp in t && dp < |v| && 2 <= k < |v[dp].entries|
    requires 0 < v[dp].entries[k].inum < |v|
    requires v[v[dp].entries[k].inum].typ == T_DIR ==> EmptyFrom(v[v[dp].entries[k].inum].entries, 2)
    requires 0 < i < |v|
    ensures Surplus(AfterUnlink(v, dp, k), TreeAfterUnlink(v, t, v[dp].entries[k].inum), i) == Surplus(v, t, i)
  {
    hide Links, TreeOk, WithEntry, EmptyFrom;
    NotItself(v, t, dp, k);
    UnlinkLinks(v, t, dp, k, i);
  }

  /** A directory that can be removed has one link and its surplus: with a surplus it keeps a link
      when its last entry goes, and is never freed. */
  lemma RemovedDirectoryLinks(v: View, t: Places, dp: nat, k: nat)
    requires TreeOk(v, t) && dp in t && dp < |v| && 2 <= k < |v[dp].entries|
    requires 0 < v[dp].entries[k].inum < |v| && v[v[dp].entries[k].inum].typ == T_DIR
    requires EmptyFrom(v[v[dp].entries[k].inum].entries, 2)
    ensures var j := v[dp].entries[k].inum;
            j in t && v[j].nlink == 1 + t[j].bonus && (v[j].nlink == 1 <==> t[j].bonus == 0)
  {
    hide Links, TreeOk, DirOk, EmptyFrom, CountIn;
    var j := v[dp].entries[k].inum;
    var v', t' := AfterUnlink(v, dp, k), TreeAfterUnlink(v, t, j);
    NotItself(v, t, dp, k);
    UnlinkKeepsTree(v, t, dp, k);
    UnlinkLinks(v, t, dp, k, j);
    TreeFacts(v, t, j, dp);
    forall d, m | 0 <= d < |v'| && d in t' && 0 <= m < |v'[d].entries|
      ensures !Counts(v'[d].entries[m], d, j)
    {
      OutOfTree(v', t', d, m, j);
    }
    LinkedByNone(v', t', j, |v'|);
  }

  // No entry names a directory outside the tree.
  lemma OutOfTree(v: View, t: Places, d: nat, m: nat, j: nat)
    requires TreeOk(v, t) && d in t && d < |v| && m < |v[d].entries| && 0 < j < |v| && v[j].typ == T_DIR && j !in t
    ensures v[d].entries[m].inum != j
  {
    hide Links, LinksOk, CountIn, TreeOk;
    DirFacts(v, t, d);
    if m >= 2 {
      assert EntryOk(v, t, d, m);
    }
  }
}
