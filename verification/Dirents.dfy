/** Directory contents: a directory's bytes are 16-byte entries, an inode number and a name of up
    to 14 bytes. Inode number 0 marks a free entry. */
module Dirents {
  import opened Wrappers
  import opened Bits
  import opened Codec
  import opened DiskFormat
  import opened Inodes

  const DIRSIZ: nat := 14
  const DIRENT: nat := 16

  // A name as the comparisons of the kernel see it: up to 14 bytes before the first zero byte.
  type Name = n: seq<byte> | |n| <= DIRSIZ && 0 !in n witness []

  datatype Dirent = Dirent(inum: nat, name: Name)

  const DOT: Name := [46]
  const DOTDOT: Name := [46, 46]

  // The bytes before the first zero byte.
  function Cut(s: seq<byte>): (n: seq<byte>)
    ensures |n| <= |s| && 0 !in n
  {
    if s == [] || s[0] == 0 then [] else [s[0]] + Cut(s[1..])
  }

  function EntryAt(c: seq<byte>, k: nat): Dirent
    requires DIRENT * (k + 1) <= |c|
  {
    Dirent(Field(c, DIRENT * k, 2), Cut(c[DIRENT * k + 2..DIRENT * k + 16]))
  }

  function Entries(c: seq<byte>): (e: seq<Dirent>)
    ensures |e| == |c| / DIRENT
  {
    seq(|c| / DIRENT, k requires 0 <= k < |c| / DIRENT => EntryAt(c, k))
  }

  // strncpy(de.name, name, DIRSIZ) pads with zero bytes.
  function EncodeEntry(e: Dirent): (s: seq<byte>)
    ensures |s| == DIRENT
  {
    Encode(e.inum, 2) + e.name + Zeros(DIRSIZ - |e.name|)
  }

  function Zeros(n: nat): (s: seq<byte>)
    ensures |s| == n && forall k :: 0 <= k < n ==> s[k] == 0
  {
    seq<byte>(n, i => 0)
  }

  lemma {:induction false} CutPadded(n: seq<byte>, pad: seq<byte>)
    requires 0 !in n && (pad == [] || pad[0] == 0)
    ensures Cut(n + pad) == n
  {
    if n == [] {
      assert n + pad == pad;
    } else {
      assert (n + pad)[1..] == n[1..] + pad;
      CutPadded(n[1..], pad);
    }
  }

  /** A directory entry read back from its 16 bytes is the one written. */
  lemma EntryRoundTrip(e: Dirent)
    requires e.inum < 0x1_0000
    ensures EntryAt(EncodeEntry(e), 0) == e
  {
    var s, n := EncodeEntry(e), Encode(e.inum, 2);
    WidthOf();
    assert s[0..2] == n[0..2];
    FieldFrom(s, 0, n, 0, 2);
    DecodeEncode(e.inum, 2);
    assert s[2..16] == e.name + Zeros(DIRSIZ - |e.name|);
    CutPadded(e.name, Zeros(DIRSIZ - |e.name|));
  }

  lemma EntryFrom(c: seq<byte>, k: nat, d: seq<byte>, j: nat)
    requires DIRENT * (k + 1) <= |c| && DIRENT * (j + 1) <= |d|
    requires c[DIRENT * k..DIRENT * (k + 1)] == d[DIRENT * j..DIRENT * (j + 1)]
    ensures EntryAt(c, k) == EntryAt(d, j)
  {
    SliceOfSlice(c, DIRENT * k, DIRENT, 0, 2);
    SliceOfSlice(d, DIRENT * j, DIRENT, 0, 2);
    SliceOfSlice(c, DIRENT * k, DIRENT, 2, 14);
    SliceOfSlice(d, DIRENT * j, DIRENT, 2, 14);
    FieldFrom(c, DIRENT * k, d, DIRENT * j, 2);
  }

  // The entries with entry k set, at the end or in place.
  function WithEntry(es: seq<Dirent>, k: nat, e: Dirent): seq<Dirent>
    requires k <= |es|
  {
    if k < |es| then es[k := e] else es + [e]
  }

  lemma EntryPut(c: seq<byte>, k: nat, s: seq<byte>)
    requires DIRENT * k <= |c| && |s| == DIRENT
    ensures var c' := Overwrite(c, DIRENT * k, s);
            DIRENT * (k + 1) <= |c'| && c'[DIRENT * k..DIRENT * (k + 1)] == s[DIRENT * 0..DIRENT * 1]
  {
    var c' := Overwrite(c, DIRENT * k, s);
    var a, b := c'[DIRENT * k..DIRENT * (k + 1)], s[DIRENT * 0..DIRENT * 1];
    assert |a| == |b| == DIRENT;
    forall m | 0 <= m < DIRENT
      ensures a[m] == b[m]
    {
      assert a[m] == c'[DIRENT * k + m];
    }
  }

  /** Writing one encoded entry at its offset is exactly an entry update. */
  lemma EntryWritten(c: seq<byte>, k: nat, e: Dirent)
    requires |c| % DIRENT == 0 && DIRENT * k <= |c| && e.inum < 0x1_0000
    ensures var c' := Overwrite(c, DIRENT * k, EncodeEntry(e));
            |c'| % DIRENT == 0 && Entries(c') == WithEntry(Entries(c), k, e)
  {
    var s := EncodeEntry(e);
    var c' := Overwrite(c, DIRENT * k, s);
    forall j | 0 <= j < |c'| / DIRENT
      ensures EntryAt(c', j) == WithEntry(Entries(c), k, e)[j]
    {
      if j == k {
        EntryPut(c, k, s);
        EntryFrom(c', k, s, 0);
        EntryRoundTrip(e);
      } else {
        assert c'[DIRENT * j..DIRENT * (j + 1)] == c[DIRENT * j..DIRENT * (j + 1)];
        EntryFrom(c', j, c, j);
      }
    }
  }

  predicate Named(e: Dirent, name: Name) {
    e.inum != 0 && e.name == name
  }

  // The first used entry of that name from k on.
  function Find(es: seq<Dirent>, name: Name, k: nat): (r: Option<nat>)
    requires k <= |es|
    ensures r.Some? ==> k <= r.value < |es| && Named(es[r.value], name)
    ensures r.Some? ==> forall j :: k <= j < r.value ==> !Named(es[j], name)
    ensures r.None? ==> forall j :: k <= j < |es| ==> !Named(es[j], name)
    decreases |es| - k
  {
    if k == |es| then None else if Named(es[k], name) then Some(k) else Find(es, name, k + 1)
  }

  // The directory as a finite map from names to inode numbers.
  function Lookup(es: seq<Dirent>, name: Name): Option<nat> {
    var r := Find(es, name, 0);
    if r.None? then None else Some(es[r.value].inum)
  }

  // No name occurs twice among the used entries.
  ghost predicate Distinct(es: seq<Dirent>) {
    forall j, k :: 0 <= j < k < |es| && es[j].inum != 0 && es[k].inum != 0 ==> es[j].name != es[k].name
  }

  lemma FindHere(es: seq<Dirent>, name: Name, k: nat)
    requires Distinct(es) && k < |es| && Named(es[k], name)
    ensures Lookup(es, name) == Some(es[k].inum) && Find(es, name, 0) == Some(k)
  {
  }

  /** Setting a free or new entry to an unused name adds exactly that binding. */
  lemma BindName(es: seq<Dirent>, k: nat, name: Name, inum: nat, other: Name)
    requires Distinct(es) && k <= |es| && (k < |es| ==> es[k].inum == 0) && inum != 0
    requires Lookup(es, name) == None
    ensures Distinct(WithEntry(es, k, Dirent(inum, name)))
    ensures Lookup(WithEntry(es, k, Dirent(inum, name)), other) ==
            if other == name then Some(inum) else Lookup(es, other)
  {
    var es' := WithEntry(es, k, Dirent(inum, name));
    var r := Find(es, other, 0);
    if other == name {
      FindHere(es', name, k);
    } else if r.Some? {
      FindHere(es', other, r.value);
    }
  }

  /** Clearing the entry of a name removes exactly that binding. */
  lemma UnbindName(es: seq<Dirent>, k: nat, other: Name)
    requires Distinct(es) && k < |es| && es[k].inum != 0
    ensures Distinct(WithEntry(es, k, Dirent(0, [])))
    ensures Lookup(WithEntry(es, k, Dirent(0, [])), other) ==
            if other == es[k].name then None else Lookup(es, other)
  {
    var es' := WithEntry(es, k, Dirent(0, []));
    var r := Find(es, other, 0);
    if other != es[k].name && r.Some? {
      FindHere(es', other, r.value);
    }
  }
}
