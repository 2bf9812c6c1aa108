/** The descriptor system calls of kernel/syscall.c over the process table and the file system:
    every holder of an inode is counted, so nothing held is freed or replaced. */
module Descriptors {
  import opened Wrappers
  import opened Bits
  import opened DiskFormat
  import opened Inodes
  import opened Dirents
  import opened Directory
  import opened Paths
  import opened PathWalk
  import opened Tree
  import NameTree
  import opened References
  import opened Namespace
  import opened CreateUnlink
  import opened OpenFiles
  import opened Processes
  import opened Scheduling
  import opened ProcessTables

  const MAX_ELF_SIZE: nat := 256 * 1024
  const O_CREAT: nat := 0x40
  const O_TRUNC: nat := 0x200

  predicate HasFlag(flags: nat, flag: nat)
    requires flag > 0
  {
    flags / flag % 2 == 1
  }

  /** Of a word of open flags O_CREAT is bit 6 and O_TRUNC bit 9, whatever the other bits are. */
  lemma FlagBits(low: nat, c: nat, mid: nat, t: nat, high: nat)
    requires low < 64 && c < 2 && mid < 4 && t < 2
    ensures var flags := low + 64 * c + 128 * mid + 512 * t + 1024 * high;
            (HasFlag(flags, O_CREAT) <==> c == 1) && (HasFlag(flags, O_TRUNC) <==> t == 1)
  {
    var flags := low + 64 * c + 128 * mid + 512 * t + 1024 * high;
    BitAbove(flags, 64, low, c, mid + 4 * t + 8 * high);
    BitAbove(flags, 512, low + 64 * c + 128 * mid, t, high);
  }

  lemma BitAbove(flags: nat, unit: nat, low: nat, bit: nat, high: nat)
    requires low < unit && bit < 2 && flags == unit * (bit + 2 * high) + low
    ensures flags / unit % 2 == bit
  {
    QuotientIs(flags, unit, bit + 2 * high, low);
  }

  lemma NoFlags()
    ensures !HasFlag(0, O_CREAT) && !HasFlag(0, O_TRUNC)
  {
    FlagBits(0, 0, 0, 0, 0);
  }

  function FileHeld(f: File): multiset<nat> {
    if f.ip.Some? then multiset{f.ip.value} else multiset{}
  }

  function FilesHeld(fs: seq<File>): multiset<nat> {
    if fs == [] then multiset{} else FilesHeld(fs[..|fs| - 1]) + FileHeld(fs[|fs| - 1])
  }

  function ProcsHeld(ps: seq<Process>): multiset<nat> {
    if ps == [] then multiset{} else ProcsHeld(ps[..|ps| - 1]) + FilesHeld(ps[|ps| - 1].ofiles)
  }

  /** The holders of each slot: one for each descriptor of each of the eight slots of the table,
      dead processes included, and one for the current directory. */
  function Holders(t: Table, cwd: nat): multiset<nat> {
    ProcsHeld(t.procs) + multiset{cwd}
  }

  lemma Swapped(a: multiset<nat>, x: multiset<nat>, b: multiset<nat>, y: multiset<nat>, c: multiset<nat>)
    requires a + x == b + y
    ensures (a + c) + x == (b + c) + y
  {
    assert (a + c) + x == (a + x) + c;
    assert (b + c) + y == (b + y) + c;
  }

  lemma {:induction false} FileSet(fs: seq<File>, i: nat, f: File)
    requires i < |fs|
    ensures FilesHeld(fs[i := f]) + FileHeld(fs[i]) == FilesHeld(fs) + FileHeld(f)
  {
    var n, fs' := |fs| - 1, fs[i := f];
    if i == n {
      assert fs'[..n] == fs[..n];
    } else {
      FileSet(fs[..n], i, f);
      assert fs'[..n] == fs[..n][i := f];
      Swapped(FilesHeld(fs'[..n]), FileHeld(fs[i]), FilesHeld(fs[..n]), FileHeld(f), FileHeld(fs[n]));
    }
  }

  lemma {:induction false} ProcSet(ps: seq<Process>, i: nat, p: Process)
    requires i < |ps|
    ensures ProcsHeld(ps[i := p]) + FilesHeld(ps[i].ofiles) == ProcsHeld(ps) + FilesHeld(p.ofiles)
  {
    var n, ps' := |ps| - 1, ps[i := p];
    if i == n {
      assert ps'[..n] == ps[..n];
    } else {
      ProcSet(ps[..n], i, p);
      assert ps'[..n] == ps[..n][i := p];
      Swapped(ProcsHeld(ps'[..n]), FilesHeld(ps[i].ofiles), ProcsHeld(ps[..n]), FilesHeld(p.ofiles),
        FilesHeld(ps[n].ofiles));
    }
  }

  lemma {:induction false} FileIn(fs: seq<File>, i: nat)
    requires i < |fs|
    ensures FileHeld(fs[i]) <= FilesHeld(fs)
  {
    if i < |fs| - 1 {
      FileIn(fs[..|fs| - 1], i);
    }
  }

  lemma {:induction false} ProcIn(ps: seq<Process>, i: nat)
    requires i < |ps|
    ensures FilesHeld(ps[i].ofiles) <= ProcsHeld(ps)
  {
    if i < |ps| - 1 {
      ProcIn(ps[..|ps| - 1], i);
    }
  }

  // Descriptors alone decide who holds what.
  lemma {:induction false} SameHolders(ps: seq<Process>, qs: seq<Process>)
    requires |ps| == |qs| && forall i :: 0 <= i < |ps| ==> ps[i].ofiles == qs[i].ofiles
    ensures ProcsHeld(ps) == ProcsHeld(qs)
  {
    if ps != [] {
      SameHolders(ps[..|ps| - 1], qs[..|qs| - 1]);
    }
  }

  lemma {:induction false} NothingHeld(fs: seq<File>)
    requires forall i :: 0 <= i < |fs| ==> fs[i].ip == None
    ensures FilesHeld(fs) == multiset{}
  {
    if fs != [] {
      NothingHeld(fs[..|fs| - 1]);
    }
  }

  // The machine between two system calls.
  datatype Snapshot = Snapshot(st: State, icache: seq<Inode>, table: Table, cwd: nat)

  /** Whatever slot is held before and after still holds the same inode, which was not freed; and
      the bytes of a file so held are the same, unless it is in S. */
  ghost predicate Kept(a: Snapshot, b: Snapshot, S: set<nat>) {
    Steady(a.st, a.icache, b.st, b.icache, Holders(a.table, a.cwd) * Holders(b.table, b.cwd), S)
  }

  // A call that leaves the current directory alone leaves it the inode it was.
  lemma KeptCwd(a: Snapshot, b: Snapshot, S: set<nat>)
    requires Kept(a, b, S) && b.cwd == a.cwd
    ensures |a.icache| == |b.icache| == NINODE && a.cwd < NINODE && b.icache[a.cwd].inum == a.icache[a.cwd].inum
  {
    hide InodeSteady, ProcsHeld;
    assert a.cwd in Holders(a.table, a.cwd) * Holders(b.table, b.cwd);
  }

  // A reference counted as it was: dropping it does what it would have done before.
  lemma SameDrop(a: State, c: seq<Inode>, c': seq<Inode>, b: State, ip: nat)
    requires DroppedRef(a, c', b, ip) && ip < |c| && c[ip].inum == c'[ip].inum
    requires c'[ip].ref == c[ip].ref || a.img.dins[c[ip].inum].nlink != 0
    ensures DroppedRef(a, c, b, ip)
  {
    hide FreedInode;
  }

  // Dropping a reference to an inode with links frees nothing.
  lemma LinkedDrop(a: State, c: seq<Inode>, b: State, ip: nat)
    requires DroppedRef(a, c, b, ip) && a.img.dins[c[ip].inum].nlink != 0
    ensures b == a
  {
    hide FreedInode;
  }

  // Looking a path up counts what it found once more, and nothing else.
  lemma CountedAsBefore(c: seq<Inode>, c1: seq<Inode>, c2: seq<Inode>, ip: nat, k: nat)
    requires Refs(c, c1, multiset{ip}, {}) && Refs(c1, c2, multiset{}, {}) && k < NINODE && c[k].ref > 0
    ensures c2[k].inum == c[k].inum && c2[k].ref == c[k].ref + if k == ip then 1 else 0
  {
    RefsAt(c, c1, multiset{ip}, {}, k);
    RefsAt(c1, c2, multiset{}, {}, k);
  }

  lemma SteadyLess(a: State, c: seq<Inode>, b: State, c': seq<Inode>, h: multiset<nat>, S: set<nat>,
      h': multiset<nat>, S': set<nat>)
    requires Steady(a, c, b, c', h, S) && (forall k :: k in h' ==> k in h) && S <= S'
    ensures Steady(a, c, b, c', h', S')
  {
    hide Contents;
  }

  lemma FewerHolders(c: seq<Inode>, h: multiset<nat>, h': multiset<nat>)
    requires Covered(c, h) && h' <= h
    ensures Covered(c, h')
  {
  }

  lemma SteadySame(a: State, c: seq<Inode>, h: multiset<nat>)
    requires |a.trees| == |a.img.dins| && CacheOk(a, c, {}) && Covered(c, h)
    ensures Steady(a, c, a, c, h, {})
  {
    hide Contents;
    forall k | k in h
      ensures k < NINODE && InodeSteady(a, a, c[k].inum, {})
    {
      HeldExists(a, c, h, k);
    }
  }

  /** Over any run in which a slot stays held, it holds one inode throughout, and the bytes of a
      file in it change in no step but by truncating that file. */
  lemma {:induction false} HeldThroughout(run: seq<Snapshot>, S: set<nat>, k: nat)
    requires run != [] && forall i :: 0 <= i < |run| ==> k in Holders(run[i].table, run[i].cwd)
    requires forall i :: 0 <= i < |run| - 1 ==> Kept(run[i], run[i + 1], S)
    requires k < |run[0].icache| && run[0].icache[k].inum < |run[0].st.img.dins|
    requires run[0].st.img.dins[run[0].icache[k].inum].typ != T_FREE
    ensures var a, b := run[0], run[|run| - 1];
            && k < |b.icache| && b.icache[k].inum == a.icache[k].inum && InodeSteady(a.st, b.st, a.icache[k].inum, S)
    decreases |run|
  {
    hide Contents, InodeSteady, Kept, Holders;
    var n := |run| - 1;
    if n == 0 {
      SteadyStart(run[0].st, run[0].icache[k].inum, S);
    } else {
      HeldThroughout(run[..n], S, k);
      assert Kept(run[n - 1], run[n - 1 + 1], S);
      KeptSlot(run[n - 1], run[n], S, k);
      InodeSteadyTwice(run[0].st, run[n - 1].st, run[n].st, run[0].icache[k].inum, S);
    }
  }

  lemma SteadyStart(a: State, i: nat, S: set<nat>)
    requires i < |a.img.dins| && a.img.dins[i].typ != T_FREE
    ensures InodeSteady(a, a, i, S)
  {
    hide Contents;
  }

  lemma KeptSlot(a: Snapshot, b: Snapshot, S: set<nat>, k: nat)
    requires Kept(a, b, S) && k in Holders(a.table, a.cwd) && k in Holders(b.table, b.cwd)
    ensures |a.icache| == |b.icache| == NINODE && k < NINODE && b.icache[k].inum == a.icache[k].inum
    ensures InodeSteady(a.st, b.st, a.icache[k].inum, S)
  {
    hide Contents, InodeSteady, Holders;
    assert k in Holders(a.table, a.cwd) * Holders(b.table, b.cwd);
  }

  lemma InodeSteadyTwice(a: State, b: State, c: State, i: nat, S: set<nat>)
    requires InodeSteady(a, b, i, S) && InodeSteady(b, c, i, S)
    ensures InodeSteady(a, c, i, S)
  {
    hide Contents;
  }

  // The caller's descriptor fd set to f.
  function WithFile(t: Table, fd: nat, f: File): Table
    requires Shape(t) && fd < NOFILE
  {
    var p := t.procs[t.current];
    AfterUpdate(t, p.ofiles[fd := f], p.heapStart, p.heapEnd)
  }

  // One descriptor of the caller, and nothing else.
  lemma WithFileAt(t: Table, fd: nat, f: File)
    requires Shape(t) && fd < NOFILE
    ensures var u := WithFile(t, fd, f);
            && Shape(u) && u == t.(procs := u.procs)
            && (forall i, k :: 0 <= i < MAX_PROCESSES && 0 <= k < NOFILE ==>
                  u.procs[i].ofiles[k] == if i == t.current && k == fd then f else t.procs[i].ofiles[k])
            && forall i :: 0 <= i < MAX_PROCESSES ==> u.procs[i] == t.procs[i].(ofiles := u.procs[i].ofiles)
  {
  }

  lemma SetFileHolders(t: Table, fd: nat, f: File, cwd: nat)
    requires Shape(t) && fd < NOFILE
    ensures Holders(WithFile(t, fd, f), cwd) + FileHeld(t.procs[t.current].ofiles[fd]) == Holders(t, cwd) + FileHeld(f)
  {
    hide FilesHeld, ProcsHeld, FileHeld;
    var p := t.procs[t.current];
    var q := p.(ofiles := p.ofiles[fd := f]);
    FileSet(p.ofiles, fd, f);
    ProcSet(t.procs, t.current, q);
    Exchanged(ProcsHeld(t.procs[t.current := q]), FilesHeld(p.ofiles), ProcsHeld(t.procs), FilesHeld(q.ofiles),
              FileHeld(p.ofiles[fd]), FileHeld(f));
    Swapped(ProcsHeld(t.procs[t.current := q]), FileHeld(p.ofiles[fd]), ProcsHeld(t.procs), FileHeld(f), multiset{cwd});
  }

  lemma Replaced(x: multiset<nat>, u: multiset<nat>, t: multiset<nat>, h: multiset<nat>, v: multiset<nat>)
    requires x + u == t + v && u <= t && h == t - u
    ensures x == h + v
  {
    forall k: nat
      ensures x[k] == (h + v)[k]
    {
      assert (x + u)[k] == (t + v)[k];
    }
  }

  lemma Fewer(x: multiset<nat>, u: multiset<nat>, t: multiset<nat>, c: multiset<nat>)
    requires x + u == t + multiset{}
    ensures x + c <= t + c
  {
    forall k: nat
      ensures (x + c)[k] <= (t + c)[k]
    {
      assert (x + u)[k] == (t + multiset{})[k];
    }
  }

  lemma Less(x: multiset<nat>, u: multiset<nat>, t: multiset<nat>)
    requires x + u == t + multiset{}
    ensures x == t - u
  {
    assert t + multiset{} == t;
  }

  lemma Exchanged(a: multiset<nat>, x: multiset<nat>, b: multiset<nat>, y: multiset<nat>, u: multiset<nat>,
      v: multiset<nat>)
    requires a + x == b + y && y + u == x + v
    ensures a + u == b + v
  {
    forall k: nat
      ensures (a + u)[k] == (b + v)[k]
    {
      assert (a + x)[k] == (b + y)[k] && (y + u)[k] == (x + v)[k];
    }
  }

  lemma HeldFile(t: Table, fd: nat, cwd: nat)
    requires Shape(t) && fd < NOFILE && t.procs[t.current].ofiles[fd].ip.Some?
    ensures t.procs[t.current].ofiles[fd].ip.value in Holders(t, cwd)
  {
    FileIn(t.procs[t.current].ofiles, fd);
    ProcIn(t.procs, t.current);
    assert t.procs[t.current].ofiles[fd].ip.value in FileHeld(t.procs[t.current].ofiles[fd]);
  }

  // Without one of the caller's descriptors the current directory is still held.
  lemma OneFewer(t: Table, fd: nat, cwd: nat)
    requires Shape(t) && fd < NOFILE && t.procs[t.current].ofiles[fd].ip.Some?
    ensures var ip, h := t.procs[t.current].ofiles[fd].ip.value, Holders(t, cwd);
            ip in h && (h - multiset{ip}) + multiset{ip} == h && cwd in h - multiset{ip}
  {
    FileIn(t.procs[t.current].ofiles, fd);
    ProcIn(t.procs, t.current);
    assert t.procs[t.current].ofiles[fd].ip.value in FileHeld(t.procs[t.current].ofiles[fd]);
  }

  // Two descriptors of the caller hold their inodes separately, even the same one.
  lemma StillHeldBy(t: Table, fd: nat, other: nat, cwd: nat)
    requires Shape(t) && fd < NOFILE && other < NOFILE && fd != other
    requires t.procs[t.current].ofiles[fd].ip.Some? && t.procs[t.current].ofiles[other].ip.Some?
    ensures t.procs[t.current].ofiles[other].ip.value in Holders(t, cwd) - HeldBy(t, fd)
  {
    var p := t.procs[t.current];
    SetFileHolders(t, fd, NO_FILE, cwd);
    var u := WithFile(t, fd, NO_FILE);
    HeldFile(u, other, cwd);
    Less(Holders(u, cwd), FileHeld(p.ofiles[fd]), Holders(t, cwd));
  }

  function HeldBy(t: Table, fd: nat): multiset<nat>
    requires Shape(t) && fd < NOFILE
  {
    FileHeld(t.procs[t.current].ofiles[fd])
  }

  lemma HeldPart(t: Table, fd: nat, cwd: nat)
    requires Shape(t) && fd < NOFILE
    ensures FileHeld(t.procs[t.current].ofiles[fd]) <= Holders(t, cwd)
  {
    hide FilesHeld, ProcsHeld, FileHeld;
    FileIn(t.procs[t.current].ofiles, fd);
    ProcIn(t.procs, t.current);
  }

  lemma KeptBy(a: Snapshot, b: Snapshot, h: multiset<nat>, S: set<nat>)
    requires Steady(a.st, a.icache, b.st, b.icache, h, S)
    requires forall k :: k in Holders(a.table, a.cwd) && k in Holders(b.table, b.cwd) ==> k in h
    ensures Kept(a, b, S)
  {
    hide Steady, Holders;
    var both := Holders(a.table, a.cwd) * Holders(b.table, b.cwd);
    SteadyLess(a.st, a.icache, b.st, b.icache, h, S, both, S);
  }

  ghost function Reset(st: State, i: nat, trunc: bool): State {
    if trunc && i < |st.img.dins| then Emptied(st, i) else st
  }

  /** What open does to the file system, i being the inode it opens, if any: the one the path leads
      to; for O_CREAT the file its last name is bound to, or a new one made there. */
  ghost predicate OpenOutcome(a: State, b: State, path: Path, flags: nat, cwd: nat, t: Places, i: Option<nat>) {
    var trunc := HasFlag(flags, O_TRUNC);
    if HasFlag(flags, O_CREAT) then CreateOrOpen(a, b, Target(a, path, cwd), LastName(path), trunc, t, i)
    else
      && i == Resolve(a, Origin(path, cwd), Components(path))
      && b == if i.Some? then Reset(a, i.value, trunc) else a
  }

  ghost predicate CreateOrOpen(a: State, b: State, dir: Option<nat>, name: Name, trunc: bool, t: Places,
      i: Option<nat>) {
    match dir
    case None => i == None && b == a
    case Some(d) =>
      match Lookup(DirEntries(a, d), name)
      case Some(j) =>
        if j < |a.img.dins| && a.img.dins[j].typ == T_FILE
        then i == Some(j) && b == Reset(a, j, trunc)
        else i == None && b == a
      case None => i.Some? && exists made, k: nat :: CreatedThen(a, made, b, t, d, k, i.value, name, trunc)
  }

  ghost predicate CreatedThen(a: State, made: State, b: State, t: Places, d: nat, k: nat, n: nat, name: Name,
      trunc: bool) {
    Created(a, made, t, d, k, n, name, T_FILE, 0, 0) && b == Reset(made, n, trunc)
  }

  /** With O_TRUNC the file opened is empty afterwards; without it, and found, nothing changed at all. */
  lemma OpenTruncates(a: State, b: State, path: Path, flags: nat, cwd: nat, t: Places, i: Option<nat>)
    requires OpenOutcome(a, b, path, flags, cwd, t, i) && i.Some? && i.value < |b.img.dins|
    ensures HasFlag(flags, O_TRUNC) ==> b.img.dins[i.value].size == 0
    ensures !HasFlag(flags, O_TRUNC) && i.value < |a.img.dins| && a.img.dins[i.value].typ != T_FREE ==> b == a
  {
    hide HasFlag, Resolve, Components, Target, LastName, Lookup, DirEntries, ViewOf, NamespaceOk, FilesKept;
  }

  lemma OpenedOrCreated(a: State, made: State, b: State, t: Places, t': Places, dir: Option<nat>, name: Name,
      trunc: bool,
                        c': seq<Inode>, r: Opening)
    requires CreateOutcome(a, made, t, t', dir, name, T_FILE, c', r) && !r.Stopped?
    requires r.Opened? ==> r.ip < |c'| && c'[r.ip].inum < |made.img.dins|
    requires b == if trunc && r.Opened? then Emptied(made, c'[r.ip].inum) else made
    ensures t' == t
    ensures CreateOrOpen(a, b, dir, name, trunc, t, if r.Opened? then Some(c'[r.ip].inum) else None)
  {
    hide ViewOf, NamespaceOk, FilesKept, DirEntries, Lookup, Created;
    if dir.Some? && Lookup(DirEntries(a, dir.value), name) == None {
      var n: nat := c'[r.ip].inum;
      var k: nat :| Created(a, made, t, dir.value, k, n, name, T_FILE, 0, 0);
      assert CreatedThen(a, made, b, t, dir.value, k, n, name, trunc);
    }
  }

  lemma SwapCwd(t: Table, was: nat, cwd: nat)
    ensures Holders(t, was) + multiset{cwd} == Holders(t, cwd) + multiset{was} && cwd in Holders(t, cwd)
  {
  }

  lemma MadeDirectory(a: State, b: State, t: Places, t': Places, dir: Option<nat>, name: Name, c': seq<Inode>,
      r: Opening)
    requires CreateOutcome(a, b, t, t', dir, name, T_DIR, c', r)
    ensures r.Opened? <==> match dir case None => false case Some(d) => Lookup(DirEntries(a, d), name) == None
    ensures !r.Opened? ==> b == a && t' == t
    ensures r.Opened? ==> dir.Some? && dir.value in t && exists k: nat, n: nat ::
              Created(a, b, t, dir.value, k, n, name, T_DIR, 0, 0)
                && t' == NameTree.TreeAfterCreate(t, dir.value, k, n, T_DIR)
  {
    hide ViewOf, NamespaceOk, FilesKept, DirEntries, Lookup;
  }

  // The directory made is not the current one, which was there already.
  lemma NewDirectory(a: State, b: State, t: Places, t': Places, i: nat, dir: Option<nat>, name: Name)
    requires i < |a.img.dins| && a.img.dins[i].typ != T_FREE
    requires exists k: nat, n: nat ::
               dir.Some? && Created(a, b, t, dir.value, k, n, name, T_DIR, 0, 0)
               && t' == NameTree.TreeAfterCreate(t, dir.value, k, n, T_DIR)
    ensures i in t' <==> i in t
  {
    hide ViewOf, NamespaceOk, FilesKept;
  }

  lemma SameDescriptors(t: Table, u: Table, cwd: nat)
    requires |t.procs| == |u.procs| && forall i :: 0 <= i < |t.procs| ==> t.procs[i].ofiles == u.procs[i].ofiles
    ensures Holders(u, cwd) == Holders(t, cwd)
  {
    SameHolders(t.procs, u.procs);
  }

  lemma KeptSame(st: State, c: seq<Inode>, t: Table, u: Table, cwd: nat)
    requires Kept(Snapshot(st, c, t, cwd), Snapshot(st, c, t, cwd), {}) && Holders(u, cwd) == Holders(t, cwd)
    ensures Kept(Snapshot(st, c, t, cwd), Snapshot(st, c, u, cwd), {})
  {
    hide Holders, Steady;
  }

  function AfterWait(t: Table): Table
    requires Shape(t)
  {
    match ZombieChild(t)
    case None => t
    case Some(slot) => AfterReap(t, slot)
  }

  lemma WaitDescriptors(t: Table)
    requires Inv(t) && t.procs[t.current].state == RUNNING
    ensures Inv(AfterWait(t))
    ensures var u := AfterWait(t);
            |t.procs| == |u.procs| && forall i :: 0 <= i < |t.procs| ==> t.procs[i].ofiles == u.procs[i].ofiles
  {
    hide Inv;
    assert Shape(t) by { HasShape(t); }
    StepKeepsInv(t, Wait);
  }

  lemma TickDescriptors(t: Table, esp: nat)
    requires Shape(t)
    ensures var u := AfterSchedule(t, esp).0;
            |t.procs| == |u.procs| && forall i :: 0 <= i < |t.procs| ==> t.procs[i].ofiles == u.procs[i].ofiles
  {
    hide NextReady, Ahead;
  }

  // What execve hands down of the caller's descriptors: the first n of the standard three.
  function Inherited(f: seq<File>, n: nat): (g: seq<File>)
    requires |f| == NOFILE && n <= 3
    ensures |g| == NOFILE
  {
    seq<File>(16, i requires 0 <= i < 16 => if i < n && f[i].ip.Some? then f[i] else NO_FILE)
  }

  predicate SpawnOk(t: Table, top: nat, pml4: nat) {
    Shape(t) && t.nextPid < 0x1_0000_0000 && top > FRAME && pml4 != 0 && t.procs[t.current].state == RUNNING
  }

  // The table with a new process in the slot, n descriptors handed down.
  function Spawned(t: Table, slot: nat, top: nat, pml4: nat, n: nat): Table
    requires SpawnOk(t, top, pml4) && slot < MAX_PROCESSES && n <= 3
  {
    AfterSpawn(t, slot, Spawn(top, pml4, true, Inherited(t.procs[t.current].ofiles, n)))
  }

  lemma SpawnedFiles(t: Table, slot: nat, top: nat, pml4: nat, n: nat)
    requires SpawnOk(t, top, pml4) && slot < MAX_PROCESSES && n < 3 && slot != t.current
    ensures var u, v := Spawned(t, slot, top, pml4, n), Spawned(t, slot, top, pml4, n + 1);
            var f := t.procs[t.current].ofiles;
            && u.current == t.current && u.procs[u.current] == t.procs[t.current]
            && u.procs[slot].ofiles[n] == NO_FILE
            && v == if f[n].ip.None? then u
                    else u.(procs := u.procs[slot :=
                              u.procs[slot].(ofiles := u.procs[slot].ofiles[n := f[n]])])
  {
    var f := t.procs[t.current].ofiles;
    var g, g' := Inherited(f, n), Inherited(f, n + 1);
    assert g' == if f[n].ip.Some? then g[n := f[n]] else g;
  }

  lemma SlotFileHolders(t: Table, slot: nat, fd: nat, f: File, cwd: nat)
    requires Shape(t) && slot < MAX_PROCESSES && fd < NOFILE && t.procs[slot].ofiles[fd] == NO_FILE
    ensures var p := t.procs[slot];
            Holders(t.(procs := t.procs[slot := p.(ofiles := p.ofiles[fd := f])]), cwd) == Holders(t, cwd) + FileHeld(f)
  {
    hide FilesHeld, ProcsHeld;
    var p := t.procs[slot];
    var q := p.(ofiles := p.ofiles[fd := f]);
    FileSet(p.ofiles, fd, f);
    ProcSet(t.procs, slot, q);
    Exchanged(ProcsHeld(t.procs[slot := q]), FilesHeld(p.ofiles), ProcsHeld(t.procs), FilesHeld(q.ofiles),
      multiset{}, FileHeld(f));
    Swapped(ProcsHeld(t.procs[slot := q]), multiset{}, ProcsHeld(t.procs), FileHeld(f), multiset{cwd});
  }

  // A process whose segments did not load: its slot is free again, with what it was given.
  function NotLoaded(t: Table, slot: nat, top: nat, pml4: nat): Table
    requires SpawnOk(t, top, pml4) && slot < MAX_PROCESSES
  {
    AfterSpawn(t, slot, Spawn(top, pml4, false, Inherited(t.procs[t.current].ofiles, 3)))
  }

  // The file can be read whole into the buffer.
  ghost predicate ExecutableFile(st: State, path: Path, cwd: nat) {
    match Resolve(st, Origin(path, cwd), Components(path))
    case None => false
    case Some(j) => j < |st.img.dins| && 0 < st.img.dins[j].size <= MAX_ELF_SIZE
  }

  // The bytes of the file a path leads to.
  ghost function Program(st: State, path: Path, cwd: nat): seq<byte> {
    match Resolve(st, Origin(path, cwd), Components(path))
    case None => []
    case Some(j) => if j < |st.trees| && j < |st.img.dins| then Contents(st, j) else []
  }

  ghost predicate NamesDevice(st: State, path: Path, cwd: nat) {
    match Resolve(st, Origin(path, cwd), Components(path))
    case None => false
    case Some(j) => j < |st.img.dins| && st.img.dins[j].typ == T_DEV
  }

  predicate CanSpawn(t: Table, pml4: nat) {
    FreeSlot(t).Some? && pml4 != 0
  }

  /** What execve leaves of the process table. */
  predicate Exec(t: Table, u: Table, slot: nat, top: nat, pml4: nat, loads: bool, r: int) {
    || (r == -1 && u == t)
    || (SpawnOk(t, top, pml4) && slot < MAX_PROCESSES && FreeSlot(t) == Some(slot) &&
        if t.nextPid >= 0x8000_0000 then r == -1 && u == Spawned(t, slot, top, pml4, 0)
        else if !loads then r == -1 && u == NotLoaded(t, slot, top, pml4)
        else r == t.nextPid && u == Spawned(t, slot, top, pml4, 3))
  }

  /** The child of a successful execve: ready, made by the caller, with the caller's first three
      descriptors as they are and no other. Every other process is as it was. */
  predicate Child(t: Table, u: Table, slot: nat, pid: int) {
    && Shape(t) && Shape(u) && slot < MAX_PROCESSES && t.procs[slot].state == TERMINATED
    && var p, c := t.procs[t.current], u.procs[slot];
       && c.pid == pid == t.nextPid && u.nextPid == t.nextPid + 1 && c.ppid == p.pid && c.state == READY
       && (forall k :: 0 <= k < 3 ==>
             c.ofiles[k].ip == p.ofiles[k].ip && (p.ofiles[k].ip.Some? ==> c.ofiles[k] == p.ofiles[k]))
       && (forall k :: 3 <= k < NOFILE ==> c.ofiles[k].ip == None)
       && u.current == t.current && forall i :: 0 <= i < MAX_PROCESSES && i != slot ==> u.procs[i] == t.procs[i]
  }

  lemma ExecChild(t: Table, u: Table, slot: nat, top: nat, pml4: nat, r: int)
    requires Exec(t, u, slot, top, pml4, true, r) && r >= 0
    ensures Child(t, u, slot, r)
  {
  }

  predicate StartsAt(stack: seq<nat>, entry: nat) {
    |stack| == STACK_WORDS && stack[STACK_WORDS - 20] == 0 && stack[STACK_WORDS - 5] == entry
  }

  lemma ExecNothing(t: Table, slot: nat, top: nat, pml4: nat, loads: bool)
    ensures Exec(t, t, slot, top, pml4, loads, -1)
  {
  }

  // create_process reported a failure: it made nothing, or a pid that reads as negative.
  lemma ExecFailed(t: Table, u: Table, slot: nat, top: nat, pml4: nat, loads: bool)
    requires u == t || (SpawnOk(t, top, pml4) && FreeSlot(t) == Some(slot) && slot < MAX_PROCESSES
                        && t.nextPid >= 0x8000_0000 && u == Spawned(t, slot, top, pml4, 0))
    ensures Exec(t, u, slot, top, pml4, loads, -1)
  {
    hide Spawned;
  }

  lemma ExecEnds(t: Table, u: Table, slot: nat, top: nat, pml4: nat, loads: bool)
    requires SpawnOk(t, top, pml4) && FreeSlot(t) == Some(slot) && slot < MAX_PROCESSES && t.nextPid < 0x8000_0000
    requires u == if loads then Spawned(t, slot, top, pml4, 3) else NotLoaded(t, slot, top, pml4)
    ensures Exec(t, u, slot, top, pml4, loads, if loads then t.nextPid else -1)
  {
    hide Spawned, NotLoaded;
  }

  lemma FrameStarts(stack: seq<nat>, entry: nat, user: nat)
    requires |stack| == STACK_WORDS && stack[STACK_WORDS - 20..] == InitialFrame(entry, user)
    ensures StartsAt(stack, entry)
  {
    assert stack[STACK_WORDS - 20] == stack[STACK_WORDS - 20..][0];
    assert stack[STACK_WORDS - 5] == stack[STACK_WORDS - 20..][15];
  }

  lemma FailedProcs(t: Table, slot: nat, top: nat, pml4: nat)
    requires SpawnOk(t, top, pml4) && slot < MAX_PROCESSES
    ensures var s, f := Spawned(t, slot, top, pml4, 3), NotLoaded(t, slot, top, pml4);
            f == s.(procs := s.procs[slot := s.procs[slot].(state := TERMINATED)])
  {
  }

  // Right after create_process: nobody holds more than before, and get_process_by_pid finds it.
  lemma FreshProcess(t: Table, slot: nat, top: nat, pml4: nat, cwd: nat)
    requires Inv(t) && SpawnOk(t, top, pml4) && FreeSlot(t) == Some(slot)
    ensures slot < MAX_PROCESSES && slot != t.current
    ensures AfterCreate(t, slot, top, pml4) == Spawned(t, slot, top, pml4, 0)
    ensures var u := AfterCreate(t, slot, top, pml4);
            && Inv(u) && ByPid(u, t.nextPid) == Some(slot) && Holders(u, cwd) <= Holders(t, cwd)
              && cwd in Holders(u, cwd)
            && u.procs[u.current] == t.procs[t.current]
  {
    hide FilesHeld, ProcsHeld, Inv, ByPid;
    assert slot < MAX_PROCESSES && slot != t.current by { FreeNotCurrent(t, slot); }
    var u := AfterCreate(t, slot, top, pml4);
    assert Inherited(t.procs[t.current].ofiles, 0) == NoFiles();
    SpawnKeepsInv(t, slot, Spawn(top, pml4, true, NoFiles()));
    CreatedByPid(t, slot, top, pml4);
    NothingHeld(NoFiles());
    ProcSet(t.procs, slot, u.procs[slot]);
    assert u.procs == t.procs[slot := u.procs[slot]];
    Fewer(ProcsHeld(u.procs), FilesHeld(t.procs[slot].ofiles), ProcsHeld(t.procs), multiset{cwd});
  }

  lemma FreeNotCurrent(t: Table, slot: nat)
    requires Inv(t) && FreeSlot(t) == Some(slot)
    ensures slot < MAX_PROCESSES && slot != t.current && t.procs[slot].state == TERMINATED
  {
  }

  lemma SpawnedInv(t: Table, slot: nat, top: nat, pml4: nat, cwd: nat)
    requires Inv(t) && SpawnOk(t, top, pml4) && FreeSlot(t) == Some(slot)
    ensures slot < MAX_PROCESSES && Inv(Spawned(t, slot, top, pml4, 3))
  {
    SpawnKeepsInv(t, slot, Spawn(top, pml4, true, Inherited(t.procs[t.current].ofiles, 3)));
  }

  lemma FailedInv(t: Table, slot: nat, top: nat, pml4: nat, cwd: nat)
    requires Inv(t) && SpawnOk(t, top, pml4) && FreeSlot(t) == Some(slot)
    ensures slot < MAX_PROCESSES && Inv(NotLoaded(t, slot, top, pml4))
    ensures Holders(NotLoaded(t, slot, top, pml4), cwd) == Holders(Spawned(t, slot, top, pml4, 3), cwd)
  {
    hide ProcsHeld;
    SpawnKeepsInv(t, slot, Spawn(top, pml4, false, Inherited(t.procs[t.current].ofiles, 3)));
    SameHolders(NotLoaded(t, slot, top, pml4).procs, Spawned(t, slot, top, pml4, 3).procs);
  }

  lemma SpawnedSlot(t: Table, slot: nat, top: nat, pml4: nat)
    requires SpawnOk(t, top, pml4) && slot < MAX_PROCESSES
    ensures var p := Spawned(t, slot, top, pml4, 3).procs[slot];
            p.kernelStack == top && p.esp == top - FRAME
  {
  }

  // The caller's lowest free descriptor from i on.
  function FreeFd(t: Table, i: nat): (r: Option<nat>)
    requires Shape(t) && i <= NOFILE
    ensures match r
            case None => forall k :: i <= k < NOFILE ==> t.procs[t.current].ofiles[k].ip.Some?
            case Some(fd) => i <= fd < NOFILE && t.procs[t.current].ofiles[fd].ip == None
                             && forall k :: i <= k < fd ==> t.procs[t.current].ofiles[k].ip.Some?
    decreases NOFILE - i
  {
    if i == NOFILE then None else if t.procs[t.current].ofiles[i].ip == None then Some(i) else FreeFd(t, i + 1)
  }

  lemma RootIsTarget(a: State, t: Places, cwd: nat)
    requires NamespaceOk(a, t)
    ensures Target(a, RootEntry(), cwd) == Some(ROOTINO)
  {
    hide NamespaceOk;
    RootEntryName();
    RootLives(a, t);
    CwdTyped(a, t, ROOTINO);
    assert [EntryName()][..0] == [];
    assert Resolve(a, ROOTINO, []) == Some(ROOTINO);
  }

  class System {
    const fs: FileSystem
    const table: ProcessTable
    var cwd: nat                // the current directory, one for all processes
    ghost var tree: Places

    ghost function Now(): Snapshot
      reads this, fs, fs.disk, table, table.procs
    {
      Snapshot(fs.St(), fs.icache, table.St(), cwd)
    }

    /** The invariant between system calls. The current directory may have been removed. */
    ghost predicate Valid()
      reads this, fs, fs.disk, table, table.procs
    {
      && table.Valid() && Inv(table.St())
      && Files(fs, tree, Holders(table.St(), cwd), cwd)
    }

    // The current directory is one of the tree.
    ghost predicate InTree()
      reads this, fs
    {
      cwd < |fs.icache| && fs.icache[cwd].inum in tree
    }

    // The caller is a running process.
    ghost predicate Calling()
      reads table, table.procs
    {
      table.Valid() && table.procs[table.current].state == RUNNING
    }

    ghost function File(fd: int): Processes.File
      requires table.Valid() && 0 <= fd < NOFILE
      reads table, table.procs
    {
      table.procs[table.current].ofiles[fd]
    }

    /** Right after mounting: nothing is open, and the current directory becomes the root, which is
        what myproc() sees to. */
    constructor (fs: FileSystem, table: ProcessTable, ghost tree: Places)
      requires fs.Valid() && NamespaceOk(fs.St(), tree) && (forall k :: 0 <= k < NINODE ==> fs.icache[k].ref == 0)
      requires Pinned(fs.St(), fs.icache)
      requires table.Valid() && Inv(table.St())
      requires forall i :: 0 <= i < MAX_PROCESSES ==> table.procs[i].ofiles == NoFiles()
      modifies fs
      ensures this.fs == fs && this.table == table && this.tree == tree
      ensures Valid() && InTree() && fs.icache[cwd].inum == ROOTINO && fs.St() == old(fs.St())
    {
      hide Sound, Represents, Inv, Synced, FilesHeld, ProcsHeld, Pinned, NamespaceOk, SlotOk, TreeOk, ViewOf,
          IsDirectory;
      this.fs, this.table, this.tree, cwd := fs, table, tree, 0;
      new;
      ghost var c := fs.icache;
      RootLives(fs.St(), tree);
      NobodyLocked(fs.St(), c);
      NothingOpen(table.St());
      var r := fs.Iget(ROOTINO);
      assert c[0].ref == 0;
      cwd := r.value;
      FirstReference(fs.St(), c, fs.icache, cwd);
    }

    // A descriptor of the running process is set.
    method SetFile(fd: nat, f: Processes.File)
      requires table.Valid() && Inv(table.St()) && Calling() && fd < NOFILE
      modifies table.procs
      ensures table.Valid() && Inv(table.St()) && Calling()
      ensures table.St() == WithFile(old(table.St()), fd, f) && File(fd) == f
      ensures forall w :: Holders(table.St(), w) + FileHeld(old(File(fd))) == Holders(old(table.St()), w) + FileHeld(f)
    {
      hide Inv, FilesHeld, ProcsHeld;
      ghost var t := table.St();
      ghost var p := t.procs[t.current];
      var i := table.current;
      table.procs[i] := table.procs[i].(ofiles := table.procs[i].ofiles[fd := f]);
      assert table.procs[..] == t.procs[i := p.(ofiles := p.ofiles[fd := f])];
      assert table.procs[table.current].ofiles[fd] == f;
      StepKeepsInv(t, Update(p.ofiles[fd := f], p.heapStart, p.heapEnd));
      forall w
        ensures Holders(table.St(), w) + FileHeld(p.ofiles[fd]) == Holders(t, w) + FileHeld(f)
      {
        SetFileHolders(t, fd, f, w);
      }
    }

    /** close. */
    method Close(fd: int) returns (r: int)
      requires Valid() && Calling()
      modifies this, fs, fs.disk, table.procs
      ensures Valid() && Calling() && Kept(old(Now()), Now(), {}) && tree == old(tree)
      ensures InTree() <==> old(InTree())
      ensures if 0 <= fd < NOFILE && old(File(fd)).ip.Some?
              then && r == 0
                   && table.St() == WithFile(old(table.St()), fd, NO_FILE) && File(fd).ip == None
                   && cwd == old(cwd)
                   && DroppedRef(old(fs.St()), old(fs.icache), fs.St(), old(File(fd)).ip.value)
              else r == -1 && Now() == old(Now())
    {
      hide Inv, FilesHeld, ProcsHeld, Files, Steady, Holders;
      ghost var a := Now();
      if 0 <= fd < NOFILE && table.procs[table.current].ofiles[fd].ip.Some? {
        var ip: nat := table.procs[table.current].ofiles[fd].ip.value;
        ghost var h := Holders(a.table, cwd) - multiset{ip};
        OneFewer(a.table, fd, cwd);
        PutRef(fs, ip, tree, h, cwd);
        SetFile(fd, NO_FILE);
        Less(Holders(table.St(), cwd), multiset{ip}, Holders(a.table, cwd));
        KeptBy(a, Now(), h, {});
        KeptCwd(a, Now(), {});
        r := 0;
      } else {
        StayKept(tree);
        r := -1;
      }
    }

    // Nothing happened.
    ghost method StayKept(t: Places)
      requires Files(fs, t, Holders(table.St(), cwd), cwd)
      ensures Kept(Now(), Now(), {})
    {
      hide Sound, Represents, Synced, Pinned, NamespaceOk, Holders, Steady;
      SteadySame(fs.St(), fs.icache, Holders(table.St(), cwd));
      KeptBy(Now(), Now(), Holders(table.St(), cwd), {});
    }

    // The lowest free descriptor from 3 on.
    method FreeDescriptor() returns (fd: int)
      requires table.Valid()
      ensures match FreeFd(table.St(), 3) case None => fd == -1 case Some(k) => fd == k
    {
      var i := 3;
      while i < NOFILE
        invariant 3 <= i <= NOFILE && FreeFd(table.St(), 3) == FreeFd(table.St(), i)
      {
        if table.procs[table.current].ofiles[i].ip == None {
          return i;
        }
        i := i + 1;
      }
      return -1;
    }

    /** dup: only descriptors from 3 on. */
    method Dup(oldfd: int) returns (r: int)
      requires Valid() && Calling()
      modifies fs`icache, table.procs
      ensures Valid() && Calling() && Kept(old(Now()), Now(), {}) && tree == old(tree) && fs.St() == old(fs.St())
      ensures InTree() <==> old(InTree())
      ensures var fd := FreeFd(old(table.St()), 3);
              if 3 <= oldfd < NOFILE && old(File(oldfd)).ip.Some? && fd.Some?
              then && r == fd.value && table.St() == WithFile(old(table.St()), r, old(File(oldfd)))
                   && File(r) == old(File(oldfd))
              else r == -1 && Now() == old(Now())
    {
      hide Inv, FilesHeld, ProcsHeld, Files, Steady, Holders;
      ghost var a := Now();
      if 3 <= oldfd < NOFILE && table.procs[table.current].ofiles[oldfd].ip.Some? {
        var newfd := FreeDescriptor();
        if newfd != -1 {
          var f := table.procs[table.current].ofiles[oldfd];
          SetFile(newfd, f);
          HeldFile(a.table, oldfd, cwd);
          TakeRef(fs, f.ip.value, tree, Holders(a.table, cwd), cwd);
          assert Holders(table.St(), cwd) == Holders(a.table, cwd) + multiset{f.ip.value};
          KeptBy(a, Now(), Holders(a.table, cwd), {});
          KeptCwd(a, Now(), {});
          return newfd;
        }
      }
      StayKept(tree);
      return -1;
    }

    /** dup2: what newfd held is dropped before oldfd's reference is taken, which is safe even when
        both are the same inode, because oldfd holds it separately. */
    method Dup2(oldfd: int, newfd: int) returns (r: int)
      requires Valid() && Calling()
      modifies this, fs, fs.disk, table.procs
      ensures Valid() && Calling() && Kept(old(Now()), Now(), {}) && tree == old(tree) && cwd == old(cwd)
      ensures InTree() <==> old(InTree())
      ensures if 0 <= oldfd < NOFILE && 0 <= newfd < NOFILE && old(File(oldfd)).ip.Some?
              then && r == newfd && table.St() == WithFile(old(table.St()), newfd, old(File(oldfd)))
                   && File(newfd) == old(File(oldfd))
                   && if oldfd != newfd && old(File(newfd)).ip.Some?
                      then DroppedRef(old(fs.St()), old(fs.icache), fs.St(), old(File(newfd)).ip.value)
                      else fs.St() == old(fs.St())
              else r == -1 && Now() == old(Now())
    {
      hide Inv, FilesHeld, ProcsHeld, Files, Steady, Holders, DroppedRef, Kept, WithFile;
      ghost var a := Now();
      if oldfd < 0 || oldfd >= NOFILE || newfd < 0 || newfd >= NOFILE
        || table.procs[table.current].ofiles[oldfd].ip == None {
        StayKept(tree);
        return -1;
      }
      if oldfd == newfd {
        StayKept(tree);
        SetSame(a.table, oldfd);
        return newfd;
      }
      Redirect(newfd, oldfd);
      KeptCwd(a, Now(), {});
      return newfd;
    }

    // dup2 between two different descriptors.
    method Redirect(newfd: nat, oldfd: nat)
      requires Valid() && Calling() && newfd < NOFILE && oldfd < NOFILE && newfd != oldfd && File(oldfd).ip.Some?
      modifies fs, fs.disk, table.procs
      ensures Valid() && Calling() && Kept(old(Now()), Now(), {})
      ensures table.St() == WithFile(old(table.St()), newfd, old(File(oldfd))) && File(newfd) == old(File(oldfd))
      ensures if old(File(newfd)).ip.Some?
              then DroppedRef(old(fs.St()), old(fs.icache), fs.St(), old(File(newfd)).ip.value)
              else fs.St() == old(fs.St())
    {
      hide Inv, FilesHeld, ProcsHeld, Files, Steady, Holders, DroppedRef, Kept, WithFile;
      ghost var a := Now();
      var f := table.procs[table.current].ofiles[oldfd];
      ghost var g := table.procs[table.current].ofiles[newfd];
      ghost var h := Holders(a.table, cwd) - FileHeld(g);
      DropDescriptor(newfd, oldfd);
      ghost var b := Now();
      SetFile(newfd, f);
      TakeRef(fs, f.ip.value, tree, h, cwd);
      HeldPart(a.table, newfd, cwd);
      Replaced(Holders(table.St(), cwd), FileHeld(g), Holders(a.table, cwd), h, multiset{f.ip.value});
      SteadyTwice(a.st, a.icache, b.st, b.icache, fs.St(), fs.icache, h, h, {}, {}, {});
      KeptBy(a, Now(), h, {});
    }

    // An open descriptor is let go before it is overwritten. What another
    // descriptor of the caller holds is held still.
    method DropDescriptor(fd: nat, ghost other: nat)
      requires Valid() && Calling() && fd < NOFILE && other < NOFILE && fd != other && File(other).ip.Some?
      modifies fs, fs.disk
      ensures table.Valid() && Inv(table.St()) && Calling() && table.St() == old(table.St())
      ensures if File(fd).ip.Some? then DroppedRef(old(fs.St()), old(fs.icache), fs.St(), File(fd).ip.value)
              else fs.St() == old(fs.St())
      ensures Files(fs, tree, Holders(table.St(), cwd) - FileHeld(File(fd)), cwd)
      ensures File(other).ip.value in Holders(table.St(), cwd) - FileHeld(File(fd))
      ensures Steady(old(fs.St()), old(fs.icache), fs.St(), fs.icache,
                Holders(table.St(), cwd) - FileHeld(File(fd)), {})
    {
      hide Inv, FilesHeld, ProcsHeld, Files, Steady, Holders, DroppedRef;
      ghost var t := table.St();
      ghost var h := Holders(t, cwd) - FileHeld(File(fd));
      var g := table.procs[table.current].ofiles[fd];
      if g.ip.Some? {
        OneFewer(t, fd, cwd);
        StillHeldBy(t, fd, other, cwd);
        PutRef(fs, g.ip.value, tree, h, cwd);
      } else {
        HeldFile(t, other, cwd);
        assert h == Holders(t, cwd);
        SteadyNow(tree, h);
      }
    }

    // An inode opened: referenced once more, with a link to its name, and the only one truncated.
    ghost predicate OpenDone(a: Snapshot, r: Opening, trunc: bool, i: Option<nat>)
      reads this, fs, fs.disk, table, table.procs
    {
      var h := Holders(table.St(), cwd);
      && Files(fs, tree, if r.Opened? then h + multiset{r.ip} else h, cwd)
      && Steady(a.st, a.icache, fs.St(), fs.icache, h, if trunc && i.Some? then {i.value} else {})
      && (r.Opened? <==> i.Some?)
      && (r.Opened? ==>
            && r.ip < |fs.icache| && fs.icache[r.ip].inum == i.value < |fs.disk.img.dins|
            && fs.disk.img.dins[i.value].nlink != 0)
    }

    // open with O_CREAT.
    method OpenOrCreate(path: Path, trunc: bool) returns (r: Opening, ghost i: Option<nat>)
      requires Valid() && FromTree(fs, tree, cwd, path)
      modifies fs, fs.disk
      ensures r.Stopped? ==> Exhausted(fs, old(fs.St()))
      ensures !r.Stopped? ==> OpenDone(old(Now()), r, trunc, i)
      ensures !r.Stopped? ==> CreateOrOpen(old(fs.St()), fs.St(), Target(old(fs.St()), path, old(fs.icache[cwd].inum)),
                                           LastName(path), trunc, tree, i)
    {
      hide Inv, FilesHeld, ProcsHeld, Steady, Holders, Target, CreateOutcome, CreateOrOpen;
      hide Exhausted, NamespaceOk, Pinned, Covered, AllUnlocked, Represents, Sound, Synced, CacheOk;
      ghost var a, dir := fs.St(), Target(fs.St(), path, fs.icache[cwd].inum);
      i := None;
      ghost var t, made;
      r, t, made := CreateRef(fs, path, T_FILE, trunc, cwd, tree, Holders(table.St(), cwd));
      if !r.Stopped? {
        OpenedOrCreated(a, made, fs.St(), tree, t, dir, LastName(path), trunc, fs.icache, r);
        i := if r.Opened? then Some(fs.icache[r.ip].inum) else None;
      }
    }

    // open without O_CREAT. A directory is not to be truncated.
    method OpenFound(path: Path, trunc: bool) returns (r: Opening, ghost i: Option<nat>)
      requires Valid() && FromTree(fs, tree, cwd, path)
      requires trunc ==> match Resolve(fs.St(), Origin(path, fs.icache[cwd].inum), Components(path))
                         case None => true
                         case Some(j) => j < |fs.disk.img.dins| && fs.disk.img.dins[j].typ != T_DIR
      modifies fs, fs.disk
      ensures r.Stopped? ==> Exhausted(fs, old(fs.St()))
      ensures !r.Stopped? ==> OpenDone(old(Now()), r, trunc, i)
      ensures !r.Stopped? ==> i == Resolve(old(fs.St()), Origin(path, old(fs.icache[cwd].inum)), Components(path))
      ensures !r.Stopped? ==> fs.St() == if i.Some? then Reset(old(fs.St()), i.value, trunc) else old(fs.St())
    {
      hide Inv, FilesHeld, ProcsHeld, Steady, Holders, Resolve, Components;
      hide NamespaceOk, Pinned, Covered, AllUnlocked, Represents, Sound, Synced, CacheOk;
      ghost var a, c, h := fs.St(), fs.icache, Holders(table.St(), cwd);
      i := None;
      var w := LookupRef(fs, path, cwd, tree, h);
      if w.NoSlots? {
        return Stopped, i;
      }
      if w.NotFound? {
        return Failed, i;
      }
      ghost var c1 := fs.icache;
      i := Some(c1[w.ip].inum);
      if trunc {
        TruncateRef(fs, w.ip, cwd, tree, h + multiset{w.ip});
        SteadyInum(a, c1, fs.St(), fs.icache, h + multiset{w.ip}, {i.value}, w.ip);
        SteadyTwice(a, c, a, c1, fs.St(), fs.icache, h, h, {}, {i.value}, {i.value}) by {
          SteadyLess(a, c1, fs.St(), fs.icache, h + multiset{w.ip}, {i.value}, h, {i.value});
        }
      }
      return Opened(w.ip), i;
    }

    // The descriptor for an opened inode, or the inode let go of when none is free.
    method Install(ip: nat, flags: int, ghost a: Snapshot, ghost S: set<nat>) returns (fd: int)
      requires table.Valid() && Inv(table.St()) && Calling()
      requires Files(fs, tree, Holders(table.St(), cwd) + multiset{ip}, cwd) && cwd in Holders(table.St(), cwd)
      requires a.table == table.St() && a.cwd == cwd
      requires Steady(a.st, a.icache, fs.St(), fs.icache, Holders(table.St(), cwd), S)
      requires ip < |fs.icache| && fs.icache[ip].inum < |fs.disk.img.dins|
                && fs.disk.img.dins[fs.icache[ip].inum].nlink != 0
      modifies fs, fs.disk, table.procs
      ensures Valid() && Calling() && Kept(a, Now(), S) && fs.St() == old(fs.St())
      ensures if fd == -1 then table.St() == old(table.St()) && FreeFd(old(table.St()), 3) == None
              else && FreeFd(old(table.St()), 3) == Some(fd)
                   && table.St() == WithFile(old(table.St()), fd, Processes.File(Some(ip), 0, flags))
                   && File(fd) == Processes.File(Some(ip), 0, flags)
                   && ip < |fs.icache| && fs.icache == old(fs.icache)
    {
      hide Inv, FilesHeld, ProcsHeld, Files, Steady, Holders;
      ghost var h := Holders(table.St(), cwd);
      fd := FreeDescriptor();
      if fd == -1 {
        ghost var b, c := fs.St(), fs.icache;
        PutRef(fs, ip, tree, h, cwd);
        SteadyTwice(a.st, a.icache, b, c, fs.St(), fs.icache, h, h, S, {}, S);
        KeptBy(a, Now(), h, S);
        return;
      }
      HeldThere(h, ip, tree);
      SetFile(fd, Processes.File(Some(ip), 0, flags));
      assert Holders(table.St(), cwd) == h + multiset{ip};
      KeptBy(a, Now(), h, S);
    }

    ghost method HeldThere(h: multiset<nat>, ip: nat, t: Places)
      requires Files(fs, t, h + multiset{ip}, cwd)
      ensures ip < |fs.icache|
    {
      hide Sound, Represents, Synced, Pinned, NamespaceOk;
      assert ip in h + multiset{ip};
    }

    /** open. The descriptor is the lowest free one from 3 on; without one the inode is let go of
        again, though a new file stays made and a truncated one stays empty. It fails only when
        there is nothing to open or no descriptor is free. */
    method Open(path: Path, flags: nat) returns (r: Outcome, ghost i: Option<nat>)
      requires Valid() && Calling() && FromTree(fs, tree, cwd, path)
      requires HasFlag(flags, O_TRUNC) && !HasFlag(flags, O_CREAT) ==>
                 match Resolve(fs.St(), Origin(path, fs.icache[cwd].inum), Components(path))
                 case None => true
                 case Some(j) => j < |fs.disk.img.dins| && fs.disk.img.dins[j].typ != T_DIR
      modifies fs, fs.disk, table.procs
      ensures r.Halted? ==> Exhausted(fs, old(fs.St()))
      ensures r.Returned? ==> Valid() && Calling() && (InTree() <==> old(InTree()))
      ensures r.Returned? ==> Kept(old(Now()), Now(), if HasFlag(flags, O_TRUNC) && i.Some? then {i.value} else {})
      ensures r.Returned? ==> OpenOutcome(old(fs.St()), fs.St(), path, flags, old(fs.icache[cwd].inum), old(tree), i)
      ensures r.Returned? ==> (r.value == -1 <==> i == None || FreeFd(old(table.St()), 3) == None)
      ensures r.Returned? && r.value == -1 ==> table.St() == old(table.St())
      ensures r.Returned? && r.value != -1 ==>
                && FreeFd(old(table.St()), 3) == Some(r.value)
                && File(r.value).ip.Some? && File(r.value).offset == 0 && File(r.value).flags == flags
                && table.St() == WithFile(old(table.St()), r.value, Processes.File(File(r.value).ip, 0, flags))
                && File(r.value).ip.value < |fs.icache| && i == Some(fs.icache[File(r.value).ip.value].inum)
    {
      hide Inv, FilesHeld, ProcsHeld, Files, Steady, Holders, HasFlag, Resolve, Components, CreateOrOpen, Exhausted;
      hide Kept, Target, LastName;
      ghost var a := Now();
      CwdCounted();
      var found;
      if HasFlag(flags, O_CREAT) {
        found, i := OpenOrCreate(path, HasFlag(flags, O_TRUNC));
      } else {
        found, i := OpenFound(path, HasFlag(flags, O_TRUNC));
      }
      match found {
        case Stopped =>
          r := Halted;
        case Failed =>
          KeptBy(a, Now(), Holders(table.St(), cwd), {});
          KeptCwd(a, Now(), {});
          r := Returned(-1);
        case Opened(ip) =>
          ghost var S := if HasFlag(flags, O_TRUNC) then {i.value} else {};
          var fd := Install(ip, flags, a, S);
          KeptCwd(a, Now(), S);
          r := Returned(fd);
      }
    }

    // The current directory is counted and exists, in the tree or not.
    ghost method CwdCounted()
      requires Valid()
      ensures cwd in Holders(table.St(), cwd) && cwd < |fs.icache| && fs.icache[cwd].ref > 0
      ensures fs.icache[cwd].inum < |fs.disk.img.dins| && fs.disk.img.dins[fs.icache[cwd].inum].typ != T_FREE
    {
      hide Sound, Represents, Synced, Pinned, NamespaceOk, Inv, CacheOk, ProcsHeld;
      HeldExists(fs.St(), fs.icache, Holders(table.St(), cwd), cwd);
    }

    // A current directory of the tree has links.
    ghost method LinkedCwd()
      requires Valid() && InTree()
      ensures fs.icache[cwd].inum < |fs.disk.img.dins| && fs.disk.img.dins[fs.icache[cwd].inum].nlink != 0
    {
      hide Sound, Represents, Synced, Pinned, NamespaceOk, Inv, ProcsHeld;
      NamespaceClosed(fs.St(), tree);
      LiveInode(fs.St(), tree.Keys, fs.icache[cwd].inum);
    }

    // An absolute path can be walked wherever the process is.
    ghost method FromRoot(path: Path)
      requires Valid() && path != [] && path[0] == SLASH
      ensures FromTree(fs, tree, cwd, path) && NamespaceOk(fs.St(), tree)
    {
      hide Sound, Represents, Synced, Pinned, NamespaceOk, Inv, ProcsHeld;
      RootLives(fs.St(), tree);
    }

    /** chdir: the new directory's reference is taken before the old one's is dropped. Success puts
        the process back into the tree; an old directory that was removed is freed exactly when no
        link is left and this was its last reference. */
    method Chdir(path: Path) returns (r: Outcome)
      requires Valid() && Calling() && FromTree(fs, tree, cwd, path)
      modifies this`cwd, fs, fs.disk
      ensures r.Halted? ==> Exhausted(fs, old(fs.St()))
      ensures table.St() == old(table.St()) && tree == old(tree)
      ensures r.Returned? ==> Valid() && Calling() && Kept(old(Now()), Now(), {})
      ensures r.Returned? ==>
                match Resolve(old(fs.St()), Origin(path, old(fs.icache[cwd].inum)), Components(path))
                case None =>
                  r.value == -1 && cwd == old(cwd) && (InTree() <==> old(InTree())) && fs.St() == old(fs.St())
                case Some(j) =>
                  j < |old(fs.disk.img.dins)| &&
                  if old(fs.disk.img.dins)[j].typ == T_DIR
                  then && r.value == 0 && InTree() && fs.icache[cwd].inum == j
                       && DroppedRef(old(fs.St()), old(fs.icache), fs.St(), old(cwd))
                  else r.value == -1 && cwd == old(cwd) && (InTree() <==> old(InTree())) && fs.St() == old(fs.St())
    {
      hide Inv, FilesHeld, ProcsHeld, Steady, Holders, Resolve, Components, Kept, DroppedRef, Refs;
      hide NamespaceOk, Pinned, Covered, AllUnlocked, Represents, Sound, Synced, CacheOk;
      ghost var a, h := Now(), Holders(table.St(), cwd);
      CwdCounted();
      var w := LookupRef(fs, path, cwd, tree, h);
      if w.NoSlots? {
        return Halted;
      }
      if w.NotFound? {
        KeptBy(a, Now(), h, {});
        KeptCwd(a, Now(), {});
        return Returned(-1);
      }
      var ip: nat := w.ip;
      ghost var c1, h1 := fs.icache, h + multiset{ip};
      SteadyLess(a.st, a.icache, fs.St(), c1, h, {}, h, {});
      var typ, size := Inspect(fs, ip, cwd, tree, h1);
      ghost var c2 := fs.icache;
      SteadyLess(a.st, c1, a.st, c2, h1, {}, h, {});
      SteadyTwice(a.st, a.icache, a.st, c1, a.st, c2, h, h, {}, {}, {});
      if typ != T_DIR {
        PutRef(fs, ip, tree, h, cwd);
        LinkedDrop(a.st, c2, fs.St(), ip);
        SteadyTwice(a.st, a.icache, a.st, c2, fs.St(), fs.icache, h, h, {}, {}, {});
        KeptBy(a, Now(), h, {});
        KeptCwd(a, Now(), {});
        return Returned(-1);
      }
      ghost var was := cwd;
      CountedAsBefore(a.icache, c1, c2, ip, was);
      SwitchCwd(ip, a);
      SameDrop(a.st, a.icache, c2, fs.St(), was);
      return Returned(0);
    }

    // chdir to an absolute path, from a directory of the tree.
    method Enter(p: Path) returns (r: Outcome)
      requires Valid() && InTree() && Calling() && p != [] && p[0] == SLASH
      modifies this`cwd, fs, fs.disk
      ensures table.St() == old(table.St()) && tree == old(tree)
      ensures r == Returned(0) ==> Valid() && InTree() && Calling() && fs.St() == old(fs.St())
      ensures r == Returned(0) ==>
                cwd < |fs.icache| && Resolve(fs.St(), ROOTINO, Components(p)) == Some(fs.icache[cwd].inum)
    {
      hide Inv, FilesHeld, ProcsHeld, Steady, Holders, Kept, Resolve, Components, Files, DroppedRef, Exhausted;
      hide FromTree, NamespaceOk, Pinned, Covered, AllUnlocked, Represents, Sound, Synced, CacheOk, Lookup, DirEntries;
      FromRoot(p);
      LinkedCwd();
      ghost var a, c, was := fs.St(), fs.icache, cwd;
      r := Chdir(p);
      if r == Returned(0) {
        LinkedDrop(a, c, fs.St(), was);
      }
    }

    // open for reading.
    method OpenOnly(q: Path) returns (r: Outcome, ghost i: Option<nat>)
      requires Valid() && Calling() && FromTree(fs, tree, cwd, q)
      modifies fs, fs.disk, table.procs
      ensures r.Returned? ==> Valid() && Calling() && (InTree() <==> old(InTree()))
      ensures r.Returned? ==> i == Resolve(old(fs.St()), Origin(q, old(fs.icache[cwd].inum)), Components(q))
      ensures r.Returned? ==> (r.value == -1 <==> i == None || FreeFd(old(table.St()), 3) == None)
      ensures r.Returned? && r.value != -1 ==>
                && 0 <= r.value < NOFILE && File(r.value).ip.Some? && File(r.value).ip.value < |fs.icache|
                && i == Some(fs.icache[File(r.value).ip.value].inum)
    {
      hide Inv, FilesHeld, ProcsHeld, Steady, Holders, Kept, Resolve, Components, Files, DroppedRef, Exhausted;
      hide FromTree, WithFile, HasFlag;
      NoFlags();
      r, i := Open(q, 0);
    }

    /** chdir(p), then open(q, 0) with q relative: what is opened is what the absolute path p/q leads
        to, and open fails for want of an inode exactly when p/q leads nowhere. */
    method OpenBelow(p: Path, q: Path) returns (entered: Outcome, got: Outcome, ghost i: Option<nat>)
      requires Valid() && InTree() && Calling() && p != [] && p[0] == SLASH && (q != [] ==> q[0] != SLASH)
      modifies this`cwd, fs, fs.disk, table.procs
      ensures entered == Returned(0) && got.Returned? ==>
                && Valid() && InTree()
                && i == Resolve(old(fs.St()), ROOTINO, Components(p + [SLASH] + q))
                && (got.value == -1 <==> i == None || FreeFd(old(table.St()), 3) == None)
                && (got.value != -1 ==>
                      && 0 <= got.value < NOFILE && File(got.value).ip.Some?
                      && File(got.value).ip.value < |fs.icache|
                      && i == Some(fs.icache[File(got.value).ip.value].inum))
    {
      hide Inv, FilesHeld, ProcsHeld, Holders, Resolve, Components, Files;
      i, got := None, Halted;
      entered := Enter(p);
      if entered == Returned(0) {
        RelativePath(fs.St(), p, q, fs.icache[cwd].inum);
        got, i := OpenOnly(q);
      }
    }

    // xv6fs_bridge_set_cwd
    method SwitchCwd(ip: nat, ghost a: Snapshot)
      requires table.Valid() && Inv(table.St()) && Calling() && a.table == table.St() && a.cwd == cwd && a.st == fs.St()
      requires Files(fs, tree, Holders(table.St(), cwd) + multiset{ip}, cwd) && cwd in Holders(table.St(), cwd)
      requires ip < |fs.icache| && fs.icache[ip].inum in tree
      requires Steady(a.st, a.icache, fs.St(), fs.icache, Holders(table.St(), cwd), {})
      modifies this`cwd, fs, fs.disk
      ensures Valid() && Calling() && Kept(a, Now(), {}) && table.St() == old(table.St())
      ensures DroppedRef(old(fs.St()), old(fs.icache), fs.St(), old(cwd))
      ensures cwd == ip && ip < |fs.icache| && fs.icache[ip].inum == old(fs.icache[ip].inum)
    {
      hide Inv, FilesHeld, ProcsHeld, Steady, Holders, Kept, DroppedRef;
      hide NamespaceOk, Pinned, Covered, AllUnlocked, Represents, Sound, Synced, CacheOk;
      ghost var h := Holders(table.St(), cwd);
      ghost var c2 := fs.icache;
      var was := cwd;
      cwd := ip;
      ghost var h2 := Holders(table.St(), ip);
      SwapCwd(table.St(), was, ip);
      CoveredSame(c2, h + multiset{ip}, h2 + multiset{was});
      PutRef(fs, was, tree, h2, ip);
      SteadyLess(a.st, a.icache, a.st, c2, h, {}, h * h2, {});
      SteadyLess(a.st, c2, fs.St(), fs.icache, h2, {}, h * h2, {});
      SteadyTwice(a.st, a.icache, a.st, c2, fs.St(), fs.icache, h * h2, h * h2, {}, {}, {});
      KeptBy(a, Now(), h * h2, {});
      SteadyInum(a.st, c2, fs.St(), fs.icache, h2, {}, ip);
    }

    /** mkdir. */
    method Mkdir(path: Path) returns (r: Outcome)
      requires Valid() && Calling() && FromTree(fs, tree, cwd, path)
      requires RoomForLink(fs.St(), path, fs.icache[cwd].inum)
      modifies this`tree, fs, fs.disk
      ensures r.Halted? ==> Exhausted(fs, old(fs.St()))
      ensures table.St() == old(table.St()) && cwd == old(cwd)
      ensures r.Returned? ==> Valid() && Calling() && Kept(old(Now()), Now(), {}) && (InTree() <==> old(InTree()))
      ensures r.Returned? ==>
                (r.value == 0 <==>
                  match Target(old(fs.St()), path, old(fs.icache[cwd].inum))
                  case None => false
                  case Some(d) => Lookup(DirEntries(old(fs.St()), d), LastName(path)) == None)
      ensures r.Returned? && r.value != 0 ==> r.value == -1 && fs.St() == old(fs.St()) && tree == old(tree)
      ensures r.Returned? && r.value == 0 ==>
                var d := Target(old(fs.St()), path, old(fs.icache[cwd].inum));
                && d.Some? && d.value in old(tree)
                && exists k: nat, n: nat ::
                     && Created(old(fs.St()), fs.St(), old(tree), d.value, k, n, LastName(path), T_DIR, 0, 0)
                                            && tree == NameTree.TreeAfterCreate(old(tree), d.value, k, n, T_DIR)
    {
      hide Inv, FilesHeld, ProcsHeld, Files, Steady, Holders, Target, CreateOutcome, Lookup, DirEntries, Exhausted,
          Kept, LastName, Created, RoomForLink;
      ghost var a, h := Now(), Holders(table.St(), cwd);
      CwdCounted();
      var made;
      ghost var t, b;
      made, t, b := CreateRef(fs, path, T_DIR, false, cwd, tree, h);
      if made.Stopped? {
        return Halted;
      }
      MadeDirectory(a.st, b, tree, t, Target(a.st, path, a.icache[cwd].inum), LastName(path), fs.icache, made);
      tree := t;
      if made.Failed? {
        KeptBy(a, Now(), h, {});
        KeptCwd(a, Now(), {});
        return Returned(-1);
      }
      ghost var c := fs.icache;
      PutRef(fs, made.ip, tree, h, cwd);
      LinkedDrop(b, c, fs.St(), made.ip);
      SteadyTwice(a.st, a.icache, b, c, fs.St(), fs.icache, h, h, {}, {}, {});
      KeptBy(a, Now(), h, {});
      KeptCwd(a, Now(), {});
      NewDirectory(a.st, b, old(tree), tree, a.icache[cwd].inum, Target(a.st, path, a.icache[cwd].inum),
                   LastName(path));
      return Returned(0);
    }

    /** unlink: whatever is open stays open, a removed directory included. Only removing the
        current directory takes it out of the tree. */
    method UnlinkPath(path: Path) returns (r: Outcome)
      requires Valid() && Calling() && FromTree(fs, tree, cwd, path)
      modifies this`tree, fs, fs.disk
      ensures r.Halted? ==> fs.CacheFull()
      ensures table.St() == old(table.St()) && cwd == old(cwd)
      ensures r.Returned? ==> Valid() && Calling() && Kept(old(Now()), Now(), {})
      ensures r.Returned? ==>
                (InTree() <==> old(InTree()) && !RemovesCwd(old(fs.St()), path, old(fs.icache[cwd].inum)))
      ensures r.Returned? ==> UnlinkOutcome(old(fs.St()), fs.St(), old(tree), tree,
                                            Target(old(fs.St()), path, old(fs.icache[cwd].inum)), LastName(path), r)
    {
      hide Inv, FilesHeld, ProcsHeld, Steady, Holders, Target, UnlinkOutcome, Kept, LastName, RemovesCwd;
      hide NamespaceOk, Pinned, Covered, AllUnlocked, Represents, Sound, Synced, CacheOk;
      ghost var a, h := Now(), Holders(table.St(), cwd);
      CwdCounted();
      ghost var t;
      r, t := UnlinkHeld(fs, path, cwd, tree, h);
      tree := t;
      if r.Returned? {
        KeptBy(a, Now(), h, {});
      }
    }

    /** mkdir("/d"), chdir("/d"), unlink("/d"): all succeed, and the process is in a directory that
        is no longer there. */
    method LeaveTheTree() returns (made: Outcome, entered: Outcome, removed: Outcome)
      requires Valid() && InTree() && Calling() && Lookup(DirEntries(fs.St(), ROOTINO), EntryName()) == None
      requires RoomForLink(fs.St(), RootEntry(), fs.icache[cwd].inum)
      modifies this`tree, this`cwd, fs, fs.disk
      ensures !made.Halted? && !entered.Halted? && !removed.Halted? ==>
                made == entered == removed == Returned(0) && Valid() && !InTree()
    {
      hide Inv, FilesHeld, ProcsHeld, Steady, Holders, Target, Kept, LastName, RemovesCwd, Resolve, Components;
      hide NamespaceOk, Pinned, Covered, AllUnlocked, Represents, Sound, Synced, CacheOk, Created, Lookup, DirEntries;
      hide Removable, FromTree, Files, DroppedRef;
      ghost var a, t := fs.St(), tree;
      RootEntryName();
      FromRoot(RootEntry());
      RootIsTarget(a, t, fs.icache[cwd].inum);
      entered, removed := Halted, Halted;
      made := Mkdir(RootEntry());
      if made.Halted? {
        return;
      }
      ghost var b := fs.St();
      ghost var k, n :| Created(a, b, t, ROOTINO, k, n, EntryName(), T_DIR, 0, 0);
      EnteredAndRemoved(a, b, t, k, n);
      FromRoot(RootEntry());
      LinkedCwd();
      ghost var c, was := fs.icache, cwd;
      entered := Chdir(RootEntry());
      if entered.Halted? {
        return;
      }
      LinkedDrop(b, c, fs.St(), was);
      FromRoot(RootEntry());
      removed := UnlinkPath(RootEntry());
    }

    /** exit: the descriptors stay open. */
    method Exit(code: int)
      requires Valid() && Calling()
      modifies table.procs
      ensures Valid() && Kept(old(Now()), Now(), {}) && table.St() == AfterExit(old(table.St()), code)
      ensures fs.St() == old(fs.St()) && fs.icache == old(fs.icache) && (InTree() <==> old(InTree()))
    {
      hide Inv, FilesHeld, ProcsHeld, Files, Steady, Holders, Kept;
      ghost var t := table.St();
      StayKept(tree);
      table.ExitCurrentProcess(code);
      StepKeepsInv(t, Processes.Op.Exit(code));
      SameDescriptors(t, table.St(), cwd);
      KeptSame(fs.St(), fs.icache, t, table.St(), cwd);
    }

    /** wait4: reaping a process leaves its descriptors as they are, still counted. */
    method Wait4() returns (r: Option<(nat, int)>)
      requires Valid() && Calling()
      modifies table.procs
      ensures Valid() && Kept(old(Now()), Now(), {}) && table.St() == AfterWait(old(table.St()))
      ensures fs.St() == old(fs.St()) && fs.icache == old(fs.icache) && (InTree() <==> old(InTree()))
      ensures match ZombieChild(old(table.St()))
              case None => r == None
              case Some(i) => r == Some((old(table.procs[i]).pid, old(table.procs[i]).exitCode))
    {
      hide Inv, FilesHeld, ProcsHeld, Files, Steady, Holders, Kept, AfterReap, FirstFrom, IsZombieOf;
      ghost var t := table.St();
      StayKept(tree);
      r := table.Wait4();
      WaitDescriptors(t);
      SameDescriptors(t, table.St(), cwd);
      KeptSame(fs.St(), fs.icache, t, table.St(), cwd);
    }

    /** A timer tick. */
    method TimerTick(esp: nat) returns (r: Option<nat>)
      requires Valid()
      modifies table`current, table`loadedStack, table`loadedPml4, table.procs
      ensures Valid() && Kept(old(Now()), Now(), {}) && (table.St(), r) == AfterSchedule(old(table.St()), esp)
      ensures fs.St() == old(fs.St()) && fs.icache == old(fs.icache) && (InTree() <==> old(InTree()))
    {
      hide Inv, FilesHeld, ProcsHeld, Files, Steady, Holders, Kept;
      ghost var t := table.St();
      StayKept(tree);
      r := table.Schedule(esp);
      StepKeepsInv(t, Tick(esp));
      TickDescriptors(t, esp);
      SameDescriptors(t, table.St(), cwd);
      KeptSame(fs.St(), fs.icache, t, table.St(), cwd);
    }

    // The three standard descriptors of the caller, each with a reference of its own.
    method Inherit(slot: nat, ghost t: Table, ghost top: nat, ghost pml4: nat, ghost a: Snapshot)
      requires table.Valid() && Calling() && slot < MAX_PROCESSES && slot != table.current
      requires Inv(t) && FreeSlot(t) == Some(slot) && SpawnOk(t, top, pml4)
      requires table.St() == Spawned(t, slot, top, pml4, 0)
      requires Files(fs, tree, Holders(table.St(), cwd), cwd)
      requires Steady(a.st, a.icache, fs.St(), fs.icache, Holders(table.St(), cwd), {})
      modifies fs`icache, table.procs
      ensures table.Valid() && Calling() && table.St() == Spawned(t, slot, top, pml4, 3)
      ensures Files(fs, tree, Holders(table.St(), cwd), cwd) && fs.St() == old(fs.St())
      ensures Steady(a.st, a.icache, fs.St(), fs.icache, old(Holders(table.St(), cwd)), {})
      ensures forall k :: k in Holders(table.St(), cwd) ==> k in old(Holders(table.St(), cwd))
    {
      hide Inv, FilesHeld, ProcsHeld, Files, Steady, Holders, FirstFrom, IsFree;
      ghost var h0 := Holders(table.St(), cwd);
      var sfd := 0;
      while sfd <= 2
        invariant 0 <= sfd <= 3 && table.Valid() && Calling() && table.St() == Spawned(t, slot, top, pml4, sfd)
        invariant Files(fs, tree, Holders(table.St(), cwd), cwd) && fs.St() == old(fs.St())
        invariant Steady(a.st, a.icache, fs.St(), fs.icache, h0, {})
        invariant h0 <= Holders(table.St(), cwd)
        invariant forall k :: k in Holders(table.St(), cwd) ==> k in h0
      {
        ghost var u := table.St();
        SpawnedFiles(t, slot, top, pml4, sfd);
        var f := table.procs[table.current].ofiles[sfd];
        if f.ip.Some? {
          ghost var c, h := fs.icache, Holders(u, cwd);
          table.procs[slot] := table.procs[slot].(ofiles := table.procs[slot].ofiles[sfd := f]);
          assert table.procs[..] == Spawned(t, slot, top, pml4, sfd + 1).procs;
          HeldFile(u, sfd, cwd);
          SlotFileHolders(u, slot, sfd, f, cwd);
          TakeRef(fs, f.ip.value, tree, h, cwd);
          SteadyLess(fs.St(), c, fs.St(), fs.icache, h, {}, h0, {});
          SteadyTwice(a.st, a.icache, fs.St(), c, fs.St(), fs.icache, h0, h0, {}, {}, {});
        }
        sfd := sfd + 1;
      }
    }

    /** The file execve is given, read whole; the outcome is 0 exactly when there is one of a
        size from one byte to MAX_ELF_SIZE. */
    method ReadProgram(path: Path) returns (r: Outcome, bytes: seq<byte>)
      requires Valid() && FromTree(fs, tree, cwd, path) && !NamesDevice(fs.St(), path, fs.icache[cwd].inum)
      modifies fs, fs.disk
      ensures r.Halted? ==> Exhausted(fs, old(fs.St()))
      ensures r.Returned? ==> Files(fs, tree, Holders(table.St(), cwd), cwd)
      ensures r.Returned? ==> Steady(old(fs.St()), old(fs.icache), fs.St(), fs.icache, Holders(table.St(), cwd), {})
      ensures r.Returned? ==> fs.St() == old(fs.St())
      ensures r.Returned? ==>
                (r.value == 0 <==> ExecutableFile(old(fs.St()), path, old(fs.icache[cwd].inum)))
      ensures r.Returned? && r.value == 0 ==> bytes == Program(old(fs.St()), path, old(fs.icache[cwd].inum))
      ensures r.Returned? ==>
                var j := Resolve(old(fs.St()), Origin(path, old(fs.icache[cwd].inum)), Components(path));
                if r.value == 0 then j.Some? && 0 < |bytes| <= 0x4_0000 && bytes == Contents(old(fs.St()), j.value)
                else j.Some? && j.value < |old(fs.disk.img.dins)| ==>
                       old(fs.disk.img.dins)[j.value].size == 0 || old(fs.disk.img.dins)[j.value].size > 0x4_0000
    {
      hide Inv, FilesHeld, ProcsHeld, Steady, Holders, Resolve, Components, Contents;
      hide NamespaceOk, Pinned, Covered, AllUnlocked, Represents, Sound, Synced, CacheOk;
      ghost var a, c, h := fs.St(), fs.icache, Holders(table.St(), cwd);
      bytes := [];
      CwdCounted();
      var w := LookupRef(fs, path, cwd, tree, h);
      if w.NoSlots? {
        return Halted, [];
      }
      if w.NotFound? {
        return Returned(-1), [];
      }
      var ip: nat := w.ip;
      ghost var c1, h1 := fs.icache, h + multiset{ip};
      var size;
      size, bytes := ReadSmall(fs, ip, cwd, MAX_ELF_SIZE, tree, h1);
      ghost var c2 := fs.icache;
      SteadyLess(a, c1, a, c2, h1, {}, h, {});
      SteadyTwice(a, c, a, c1, a, c2, h, h, {}, {}, {});
      PutRef(fs, ip, tree, h, cwd);
      SteadyTwice(a, c, a, c2, fs.St(), fs.icache, h, h, {}, {}, {});
      if size == 0 || size > MAX_ELF_SIZE {
        return Returned(-1), [];
      }
      return Returned(0), bytes;
    }

    // spawn_from_xv6fs once the file is accepted.
    method MakeProcess(pml4: nat, loads: bool, entry: nat, ghost a: Snapshot) returns (r: int, ghost slot: nat)
      requires table.Valid() && Inv(table.St()) && Calling() && table.nextPid < 0x1_0000_0000
      requires Files(fs, tree, Holders(table.St(), cwd), cwd) && a.table == table.St() && a.cwd == cwd
      requires Steady(a.st, a.icache, fs.St(), fs.icache, Holders(table.St(), cwd), {})
      requires cwd in Holders(table.St(), cwd)
      modifies fs`icache, table`nextPid, table`stacks, table.procs
      ensures Valid() && Calling() && Kept(a, Now(), {}) && fs.St() == old(fs.St())
      ensures Exec(old(table.St()), table.St(), slot, table.StackTop(slot), pml4, loads, r)
      ensures r >= 0 <==> CanSpawn(old(table.St()), pml4) && loads && old(table.nextPid) < 0x8000_0000
      ensures r >= 0 ==> slot < |table.stacks| && StartsAt(table.stacks[slot], entry)
      ensures r >= 0 ==> Child(old(table.St()), table.St(), slot, r)
    {
      hide Inv, FilesHeld, ProcsHeld, Files, Steady, Holders, Kept, FirstFrom, IsFree, Spawned, NotLoaded, Exec,
          InitialFrame, Child;
      ghost var t := table.St();
      ghost var h := Holders(t, cwd);
      slot := 0;
      var pid := table.CreateProcess(0, pml4);
      ghost var h0 := Holders(table.St(), cwd);
      if FreeSlot(t).Some? && pml4 != 0 {
        slot := FreeSlot(t).value;
        FreshProcess(t, slot, table.StackTop(slot), pml4, cwd);
        FewerFiles(h, h0);
      }
      SteadyLess(a.st, a.icache, fs.St(), fs.icache, h, {}, h0, {});
      if pid < 0 {
        ExecFailed(t, table.St(), slot, table.StackTop(slot), pml4, loads);
        KeptBy(a, Now(), h0, {});
        return -1, slot;
      }
      var idx := table.GetProcessByPid(pid);
      FinishProcess(idx.value, loads, entry, t, table.StackTop(slot), pml4, a, UserTop(slot));
      ExecEnds(t, table.St(), slot, table.StackTop(slot), pml4, loads);
      if loads {
        ExecChild(t, table.St(), slot, table.StackTop(slot), pml4, pid);
      }
      KeptBy(a, Now(), h0, {});
      return if loads then pid else -1, slot;
    }

    ghost function UserTop(slot: nat): nat
    {
      table.userStacks + 16384 * (slot + 1)
    }

    // The inherited descriptors, then either the entry point or the slot given up.
    method FinishProcess(i: nat, loads: bool, entry: nat, ghost t: Table, ghost top: nat, ghost pml4: nat,
        ghost a: Snapshot,
                         ghost user: nat)
      requires table.Valid() && Calling() && i < MAX_PROCESSES && i != table.current
      requires Inv(t) && FreeSlot(t) == Some(i) && SpawnOk(t, top, pml4) && table.St() == Spawned(t, i, top, pml4, 0)
      requires Files(fs, tree, Holders(table.St(), cwd), cwd)
      requires Steady(a.st, a.icache, fs.St(), fs.icache, Holders(table.St(), cwd), {})
      requires table.stacks[i][STACK_WORDS - 20..] == InitialFrame(0, user)
      modifies fs`icache, table`stacks, table.procs
      ensures Valid() && Calling() && fs.St() == old(fs.St())
      ensures Steady(a.st, a.icache, fs.St(), fs.icache, old(Holders(table.St(), cwd)), {})
      ensures forall k :: k in Holders(table.St(), cwd) ==> k in old(Holders(table.St(), cwd))
      ensures table.St() == if loads then Spawned(t, i, top, pml4, 3) else NotLoaded(t, i, top, pml4)
      ensures loads ==> StartsAt(table.stacks[i], entry)
    {
      hide Inv, FilesHeld, ProcsHeld, Files, Steady, Holders, Kept, FirstFrom, IsFree, Spawned, NotLoaded, InitialFrame;
      Inherit(i, t, top, pml4, a);
      SpawnedInv(t, i, top, pml4, cwd);
      if loads {
        SpawnedSlot(t, i, top, pml4);
        table.SetProcessEntry(i, entry);
        FrameStarts(table.stacks[i], entry, user);
      } else {
        table.procs[i] := table.procs[i].(state := TERMINATED);
        FailedInv(t, i, top, pml4, cwd);
        FailedProcs(t, i, top, pml4);
        assert table.procs[..] == NotLoaded(t, i, top, pml4).procs;
      }
    }

    ghost method FewerFiles(h: multiset<nat>, h': multiset<nat>)
      requires Files(fs, tree, h, cwd) && h' <= h && cwd in h'
      ensures Files(fs, tree, h', cwd)
    {
      hide Sound, Represents, Synced, Pinned, NamespaceOk;
      FewerHolders(fs.icache, h, h');
    }

    ghost method SteadyNow(t: Places, h: multiset<nat>)
      requires Files(fs, t, h, cwd)
      ensures Steady(fs.St(), fs.icache, fs.St(), fs.icache, h, {})
    {
      hide Sound, Represents, Synced, Pinned, NamespaceOk, Holders, Steady;
      SteadySame(fs.St(), fs.icache, h);
    }
  }

  lemma RootLives(st: State, t: Places)
    requires NamespaceOk(st, t)
    ensures ROOTINO in t && ROOTINO < |st.img.dins| && st.img.dins[ROOTINO].typ == T_DIR
  {
    hide ViewOf, IsDirectory, TreeOk;
    RootThere(ViewOf(st), t);
    assert IsDirectory(st, ROOTINO);
    DirectoryTyped(st, ROOTINO);
  }

  lemma NobodyLocked(st: State, c: seq<Inode>)
    requires |st.trees| == |st.img.dins| && CacheOk(st, c, {}) && forall k :: 0 <= k < NINODE ==> c[k].ref == 0
    ensures AllUnlocked(c)
  {
    forall k | 0 <= k < NINODE
      ensures !c[k].locked
    {
      assert SlotOk(st, c[k], {});
    }
  }

  lemma NothingOpen(t: Table)
    requires Shape(t) && forall i :: 0 <= i < MAX_PROCESSES ==> t.procs[i].ofiles == NoFiles()
    ensures ProcsHeld(t.procs) == multiset{}
  {
    NobodyHolds(t.procs);
  }

  lemma {:induction false} NobodyHolds(ps: seq<Process>)
    requires forall i :: 0 <= i < |ps| ==> ps[i].ofiles == NoFiles()
    ensures ProcsHeld(ps) == multiset{}
  {
    if ps != [] {
      NobodyHolds(ps[..|ps| - 1]);
      NothingHeld(ps[|ps| - 1].ofiles);
    }
  }

  lemma FirstReference(st: State, c: seq<Inode>, c': seq<Inode>, ip: nat)
    requires AllUnlocked(c) && (|c| == NINODE ==> forall k :: 0 <= k < NINODE ==> c[k].ref == 0)
    requires Pinned(st, c) && Got(c, c', ip, ROOTINO)
    ensures AllUnlocked(c') && Pinned(st, c') && Covered(c', multiset{ip}) && c'[ip].inum == ROOTINO
  {
    forall i: nat | i < |st.img.dins|
      ensures !Orphan(st.img.dins[i])
    {
      NoSlot(c, i);
    }
  }

  lemma NoSlot(c: seq<Inode>, i: nat)
    requires |c| == NINODE && forall k :: 0 <= k < NINODE ==> c[k].ref == 0
    ensures !HasSlot(c, i)
  {
  }

  lemma SetSame(t: Table, fd: nat)
    requires Shape(t) && fd < NOFILE
    ensures WithFile(t, fd, t.procs[t.current].ofiles[fd]) == t
  {
    var p := t.procs[t.current];
    assert p.ofiles[fd := p.ofiles[fd]] == p.ofiles;
    assert t.procs[t.current := p] == t.procs;
  }
}
