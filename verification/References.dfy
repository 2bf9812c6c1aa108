/** Counting references and locks across an operation of several steps. */
module References {
  import opened Wrappers
  import opened DiskFormat
  import opened Inodes
  import opened PathWalk

  /** From a to b the slots in m gained as many references, exactly those in held are locked, and
      a slot in use keeps its inode and stays loaded. */
  ghost predicate Refs(a: seq<Inode>, b: seq<Inode>, m: multiset<nat>, held: set<nat>) {
    && |a| == |b| == NINODE
    && forall k: nat :: k < NINODE ==> SlotRefs(a[k], b[k], m[k], k in held)
  }

  ghost predicate SlotRefs(s: Inode, t: Inode, extra: nat, locked: bool) {
    && t.ref == s.ref + extra && t.locked == locked
    && (s.ref > 0 ==> t.inum == s.inum && (s.valid ==> t.valid))
  }

  lemma RefsNeutral(a: seq<Inode>, b: seq<Inode>, r: Option<nat>)
    requires Neutral(a, b, r) && AllUnlocked(a)
    ensures Refs(a, b, if r.Some? then multiset{r.value} else multiset{}, {})
  {
  }

  lemma RefsLocked(a: seq<Inode>, b: seq<Inode>, b': seq<Inode>, m: multiset<nat>, held: set<nat>, ip: nat, d: Dinode)
    requires Refs(a, b, m, held) && ip < NINODE && b' == b[ip := Loaded(b[ip], d).(locked := true)]
    ensures Refs(a, b', m, held + {ip})
  {
  }

  lemma RefsUnlocked(a: seq<Inode>, b: seq<Inode>, b': seq<Inode>, m: multiset<nat>, held: set<nat>, ip: nat)
    requires Refs(a, b, m, held) && ip < NINODE && b' == b[ip := b[ip].(locked := false)]
    ensures Refs(a, b', m, held - {ip})
  {
  }

  lemma RefsDropped(a: seq<Inode>, b: seq<Inode>, b': seq<Inode>, m: multiset<nat>, held: set<nat>, ip: nat)
    requires Refs(a, b, m, held) && ip < NINODE && ip in m && b' == b[ip := b[ip].(ref := b[ip].ref - 1)]
    ensures Refs(a, b', m - multiset{ip}, held)
  {
  }

  // iput of the only reference, one the operation itself took: the slot is free again.
  lemma RefsFreed(a: seq<Inode>, b: seq<Inode>, b': seq<Inode>, m: multiset<nat>, held: set<nat>, ip: nat)
    requires Refs(a, b, m, held) && ip < NINODE && ip in m && b[ip].ref == 1
    requires |b'| == |b| && b'[ip].ref == 0 && b'[ip].locked == b[ip].locked && b' == b[ip := b'[ip]]
    ensures Refs(a, b', m - multiset{ip}, held)
  {
  }

  lemma RefsGot(a: seq<Inode>, b: seq<Inode>, b': seq<Inode>, m: multiset<nat>, held: set<nat>, ip: nat, inum: nat)
    requires Refs(a, b, m, held) && Got(b, b', ip, inum)
    ensures Refs(a, b', m + multiset{ip}, held)
  {
  }

  // A slot whose reference count and lock stay: its contents follow a write.
  predicate SameHold(s: Inode, t: Inode) {
    t.ref == s.ref && t.locked == s.locked && t.inum == s.inum && t.valid == s.valid
  }

  ghost predicate SlotsHeld(a: seq<Inode>, b: seq<Inode>) {
    |a| == |b| == NINODE && forall k :: 0 <= k < NINODE ==> SameHold(a[k], b[k])
  }

  lemma HeldTwice(a: seq<Inode>, b: seq<Inode>, c: seq<Inode>)
    requires SlotsHeld(a, b) && SlotsHeld(b, c)
    ensures SlotsHeld(a, c)
  {
  }

  lemma RefsHeld(a: seq<Inode>, b: seq<Inode>, b': seq<Inode>, m: multiset<nat>, held: set<nat>)
    requires Refs(a, b, m, held) && SlotsHeld(b, b')
    ensures Refs(a, b', m, held)
  {
  }

  lemma RefsEmpty(a: seq<Inode>, b: seq<Inode>, m: multiset<nat>, held: set<nat>, m': multiset<nat>, held': set<nat>)
    requires Refs(a, b, m, held) && m' == m && held' == held
    ensures Refs(a, b, m', held')
  {
  }

  lemma RefsAt(a: seq<Inode>, b: seq<Inode>, m: multiset<nat>, held: set<nat>, k: nat)
    requires Refs(a, b, m, held) && k < NINODE
    ensures |b| == NINODE && b[k].ref == a[k].ref + m[k] && (b[k].locked <==> k in held)
    ensures a[k].ref > 0 ==> b[k].inum == a[k].inum
  {
  }

  /** Every inode without links that still exists is held, loaded, by a live slot. */
  ghost predicate Pinned(st: State, icache: seq<Inode>) {
    forall i: nat :: i < |st.img.dins| && Orphan(st.img.dins[i]) ==> HasSlot(icache, i)
  }

  predicate Orphan(d: Dinode) {
    d.typ != T_FREE && d.nlink == 0
  }

  ghost predicate HasSlot(icache: seq<Inode>, i: nat) {
    exists k :: 0 <= k < |icache| && icache[k].ref > 0 && icache[k].valid && icache[k].inum == i
  }

  lemma SlotKept(a: seq<Inode>, b: seq<Inode>, m: multiset<nat>, held: set<nat>, i: nat)
    requires Refs(a, b, m, held) && HasSlot(a, i)
    ensures HasSlot(b, i)
  {
    var k: nat :| k < |a| && a[k].ref > 0 && a[k].valid && a[k].inum == i;
    assert SlotRefs(a[k], b[k], m[k], k in held);
  }

  lemma PinnedKept(s: State, s': State, a: seq<Inode>, b: seq<Inode>, m: multiset<nat>, held: set<nat>)
    requires Pinned(s, a) && Refs(a, b, m, held) && |s'.img.dins| == |s.img.dins|
    requires forall i: nat :: i < |s.img.dins| && Orphan(s'.img.dins[i]) ==> Orphan(s.img.dins[i]) || HasSlot(b, i)
    ensures Pinned(s', b)
  {
    hide HasSlot, Refs, Orphan;
    forall i: nat | i < |s.img.dins| && Orphan(s'.img.dins[i])
      ensures HasSlot(b, i)
    {
      if Orphan(s.img.dins[i]) {
        SlotKept(a, b, m, held, i);
      }
    }
  }

  /** An inode without links goes exactly with its last reference: the iput of a slot frees its
      inode if and only if that inode has no links and the slot's is the last reference. */
  lemma FreedAtLastReference(st: State, icache: seq<Inode>, ip: nat)
    requires |st.trees| == |st.img.dins| && CacheOk(st, icache, {}) && Pinned(st, icache)
    requires ip < NINODE && icache[ip].ref > 0
    ensures icache[ip].inum < |st.img.dins|
    ensures Drops(icache[ip]) <==> st.img.dins[icache[ip].inum].nlink == 0 && icache[ip].ref == 1
  {
    assert SlotOk(st, icache[ip], {});
    if st.img.dins[icache[ip].inum].nlink == 0 {
      assert HasSlot(icache, icache[ip].inum);
    }
  }
}
