/** The buffer cache of kernel/Xjail/xv6/xv6fs_bridge.c: 64 buffers, the next to be recycled chosen
    round-robin, every modification written through by log_write. */
module BufferCache {
  import opened Wrappers
  import opened DiskFormat

  const NBUF: nat := 64

  datatype Buf = Buf(valid: bool, dirty: bool, blockno: nat, data: Block)

  // The pool and the position of the next victim.
  datatype Pool = Pool(bufs: seq<Buf>, next: nat)

  predicate Shape(p: Pool) {
    |p.bufs| == NBUF && p.next < NBUF
  }

  predicate Holds(b: Buf, blockno: nat) {
    b.valid && b.blockno == blockno
  }

  // The first valid buffer of the block from i on.
  function Find(bufs: seq<Buf>, blockno: nat, i: nat): (r: Option<nat>)
    requires i <= |bufs|
    ensures match r
            case None => forall k :: i <= k < |bufs| ==> !Holds(bufs[k], blockno)
            case Some(j) =>
              && i <= j < |bufs| && Holds(bufs[j], blockno)
              && forall k :: i <= k < j ==> !Holds(bufs[k], blockno)
    decreases |bufs| - i
  {
    if i == |bufs| then None else if Holds(bufs[i], blockno) then Some(i) else Find(bufs, blockno, i + 1)
  }

  predicate Misses(p: Pool, blockno: nat) {
    Find(p.bufs, blockno, 0).None?
  }

  // The pool after the block is asked for, and the buffer it is in.
  function Access(p: Pool, blockno: nat, data: Block): (r: (Pool, nat))
    requires Shape(p)
    ensures Shape(r.0) && r.1 < NBUF && Holds(r.0.bufs[r.1], blockno)
  {
    match Find(p.bufs, blockno, 0)
    case Some(i) => (p, i)
    case None => (Pool(p.bufs[p.next := Buf(true, false, blockno, data)], (p.next + 1) % NBUF), p.next)
  }

  // At most one valid buffer for a block.
  ghost predicate Unique(bufs: seq<Buf>) {
    forall i, j :: 0 <= i < j < |bufs| && bufs[i].valid && bufs[j].valid ==> bufs[i].blockno != bufs[j].blockno
  }

  // The block as a reader sees it: a valid buffer's contents, else the disk's.
  function Seen(bufs: seq<Buf>, disk: seq<Block>, blockno: nat): Block
    requires blockno < |disk|
  {
    match Find(bufs, blockno, 0)
    case Some(i) => bufs[i].data
    case None => disk[blockno]
  }

  // The disk as its readers see it.
  function View(bufs: seq<Buf>, disk: seq<Block>): (v: seq<Block>)
    ensures |v| == |disk| && forall b :: 0 <= b < |disk| ==> v[b] == Seen(bufs, disk, b)
  {
    seq<Block>(|disk|, b requires 0 <= b < |disk| => Seen(bufs, disk, b))
  }

  lemma SeenIn(bufs: seq<Buf>, disk: seq<Block>, i: nat)
    requires Unique(bufs) && i < |bufs| && bufs[i].valid && bufs[i].blockno < |disk|
    ensures Seen(bufs, disk, bufs[i].blockno) == bufs[i].data
  {
  }

  // Every valid buffer but those in pending equals the disk, and none waits to be written back.
  ghost predicate Coherent(bufs: seq<Buf>, disk: seq<Block>, pending: set<nat>) {
    && Unique(bufs)
    && (forall i :: i in pending ==> i < |bufs| && bufs[i].valid)
    && (forall i :: 0 <= i < |bufs| ==> !bufs[i].dirty && (bufs[i].valid ==> bufs[i].blockno < |disk|))
    && (forall i: nat :: i < |bufs| && bufs[i].valid && i !in pending ==> bufs[i].data == disk[bufs[i].blockno])
  }

  /** With every modification logged, the buffers hide nothing: readers see the disk. */
  lemma NothingPending(bufs: seq<Buf>, disk: seq<Block>)
    requires Coherent(bufs, disk, {})
    ensures View(bufs, disk) == disk
  {
    forall b | 0 <= b < |disk|
      ensures Seen(bufs, disk, b) == disk[b]
    {
    }
  }

  // What readers see once buffer v is recycled: a modification not logged is lost with it.
  ghost function Without(bufs: seq<Buf>, disk: seq<Block>, pending: set<nat>, v: nat): seq<Block>
    requires Coherent(bufs, disk, pending) && v < |bufs|
  {
    if v in pending then View(bufs, disk)[bufs[v].blockno := disk[bufs[v].blockno]] else View(bufs, disk)
  }

  lemma RecycledSeen(bufs: seq<Buf>, disk: seq<Block>, v: nat, blockno: nat, b: nat)
    requires Unique(bufs) && v < |bufs| && blockno < |disk| && b < |disk| && Find(bufs, blockno, 0).None?
    ensures Unique(bufs[v := Buf(true, false, blockno, disk[blockno])])
    ensures Seen(bufs[v := Buf(true, false, blockno, disk[blockno])], disk, b) ==
            if Holds(bufs[v], b) then disk[b] else Seen(bufs, disk, b)
  {
    var bufs' := bufs[v := Buf(true, false, blockno, disk[blockno])];
    var r := Find(bufs, b, 0);
    if r.Some? && r.value != v {
      SeenIn(bufs', disk, r.value);
    } else if b == blockno {
      SeenIn(bufs', disk, v);
    }
  }

  lemma Recycle(bufs: seq<Buf>, disk: seq<Block>, pending: set<nat>, v: nat, blockno: nat)
    requires Coherent(bufs, disk, pending) && v < |bufs| && blockno < |disk|
    requires Find(bufs, blockno, 0).None?
    ensures var bufs' := bufs[v := Buf(true, false, blockno, disk[blockno])];
            Coherent(bufs', disk, pending - {v}) && View(bufs', disk) == Without(bufs, disk, pending, v)
  {
    hide Find, Seen;
    var bufs' := bufs[v := Buf(true, false, blockno, disk[blockno])];
    RecycledSeen(bufs, disk, v, blockno, blockno);
    forall b | 0 <= b < |disk|
      ensures Seen(bufs', disk, b) == Without(bufs, disk, pending, v)[b]
    {
      RecycledSeen(bufs, disk, v, blockno, b);
      if bufs[v].valid {
        SeenIn(bufs, disk, v);
      }
    }
  }

  class Cache {
    const pool: array<Buf>
    var next: nat
    var disk: seq<Block>
    ghost var pending: set<nat>    // buffers modified and not yet logged

    ghost function P(): Pool
      reads this, pool
    {
      Pool(pool[..], next)
    }

    ghost predicate Valid()
      reads this, pool
    {
      Shape(P()) && Coherent(pool[..], disk, pending)
    }

    ghost function Blocks(): seq<Block>
      reads this, pool
    {
      View(pool[..], disk)
    }

    constructor (disk: seq<Block>)
      ensures Valid() && fresh(pool) && this.disk == disk && pending == {} && Blocks() == disk
    {
      this.disk, next, pending := disk, 0, {};
      pool := new Buf[64](i => Buf(false, false, 0, ZeroBlock()));
      new;
      NothingPending(pool[..], disk);
    }

    // bcache_get: the block's buffer, or the next victim, written back if it was dirty.
    method BcacheGet(blockno: nat) returns (i: nat)
      requires Shape(P()) && forall k :: 0 <= k < NBUF && pool[k].valid ==> pool[k].blockno < |disk|
      modifies this`next, this`disk, pool
      ensures Shape(P()) && i < NBUF
      ensures var v := old(pool[next]);
              disk == if Find(old(pool[..]), blockno, 0).None? && v.valid && v.dirty
                      then old(disk)[v.blockno := v.data] else old(disk)
      ensures match Find(old(pool[..]), blockno, 0)
              case Some(j) => i == j && P() == old(P())
              case None =>
                i == old(next) && next == (old(next) + 1) % NBUF
                && pool[..] == old(pool[..])[i := Buf(false, false, blockno, old(pool[i].data))]
    {
      i := 0;
      while i < NBUF
        invariant 0 <= i <= NBUF && P() == old(P()) && disk == old(disk)
        invariant Find(pool[..], blockno, 0) == Find(pool[..], blockno, i)
      {
        if pool[i].valid && pool[i].blockno == blockno {
          return;
        }
        i := i + 1;
      }
      i := next;
      next := (next + 1) % NBUF;
      if pool[i].valid && pool[i].dirty {
        disk := disk[pool[i].blockno := pool[i].data];
      }
      pool[i] := Buf(false, false, blockno, pool[i].data);
    }

    /** bread: a valid buffer of the block. What readers see of any block stays the same, except
        that recycling a buffer with a modification pending loses that modification. */
    method Bread(blockno: nat) returns (i: nat)
      requires Valid() && blockno < |disk|
      modifies this`next, this`disk, this`pending, pool
      ensures Valid() && disk == old(disk) && (P(), i) == Access(old(P()), blockno, disk[blockno])
      ensures pending == if Misses(old(P()), blockno) then old(pending) - {old(next)} else old(pending)
      ensures Blocks() == if Misses(old(P()), blockno) then Without(old(pool[..]), disk, old(pending), old(next))
                          else old(Blocks())
      ensures i < NBUF && Holds(pool[i], blockno) && pool[i].data == Blocks()[blockno]
    {
      ghost var bufs := pool[..];
      i := BcacheGet(blockno);
      if !pool[i].valid {
        pool[i] := Buf(true, false, blockno, disk[blockno]);
        pending := pending - {i};
        assert pool[..] == bufs[i := Buf(true, false, blockno, disk[blockno])];
        Recycle(bufs, disk, old(pending), i, blockno);
      }
      SeenIn(pool[..], disk, i);
    }

    // The caller changes a buffer's bytes.
    method Modify(i: nat, data: Block)
      requires Valid() && i < NBUF && pool[i].valid
      modifies this`pending, pool
      ensures Valid() && pending == old(pending) + {i}
                && P() == old(P()).(bufs := old(pool[..])[i := old(pool[i]).(data := data)])
      ensures Blocks() == old(Blocks())[old(pool[i].blockno) := data]
    {
      ghost var bufs := pool[..];
      pool[i] := pool[i].(data := data);
      pending := pending + {i};
      assert pool[..] == bufs[i := bufs[i].(data := data)];
      forall b | 0 <= b < |disk|
        ensures Seen(pool[..], disk, b) == if b == bufs[i].blockno then data else Seen(bufs, disk, b)
      {
        Changed(bufs, pool[..], disk, i, b);
      }
    }

    /** log_write: the block reaches the disk; readers see what they saw. */
    method LogWrite(i: nat)
      requires Valid() && i < NBUF && pool[i].valid
      modifies this`disk, this`pending, pool
      ensures Valid() && pending == old(pending) - {i} && P() == old(P()) && Blocks() == old(Blocks())
      ensures disk == old(disk)[pool[i].blockno := pool[i].data]
    {
      ghost var bufs, before := pool[..], disk;
      pool[i] := pool[i].(dirty := true);
      disk := disk[pool[i].blockno := pool[i].data];
      pool[i] := pool[i].(dirty := false);
      pending := pending - {i};
      assert pool[..] == bufs;
      forall b | 0 <= b < |disk|
        ensures Seen(bufs, disk, b) == Seen(bufs, before, b)
      {
        SeenIn(bufs, disk, i);
        SeenIn(bufs, before, i);
      }
    }

    /** A read through the cache is a read of the plain disk. */
    method ReadBlock(blockno: nat) returns (data: Block)
      requires Valid() && pending == {} && blockno < |disk|
      modifies this`next, this`disk, this`pending, pool
      ensures Valid() && pending == {} && disk == old(disk) && data == disk[blockno]
    {
      NothingPending(pool[..], disk);
      var i := Bread(blockno);
      data := pool[i].data;
    }

    /** A modification through the cache, logged, is a write of the plain disk. */
    method WriteBlock(blockno: nat, data: Block)
      requires Valid() && pending == {} && blockno < |disk|
      modifies this`next, this`disk, this`pending, pool
      ensures Valid() && pending == {} && disk == old(disk)[blockno := data]
    {
      var i := Bread(blockno);
      Modify(i, data);
      LogWrite(i);
    }
  }

  lemma Changed(bufs: seq<Buf>, bufs': seq<Buf>, disk: seq<Block>, i: nat, b: nat)
    requires Unique(bufs) && i < |bufs| && bufs[i].valid && bufs[i].blockno < |disk| && b < |disk|
    requires |bufs'| == |bufs| && bufs' == bufs[i := bufs[i].(data := bufs'[i].data)]
    ensures Seen(bufs', disk, b) == if b == bufs[i].blockno then bufs'[i].data else Seen(bufs, disk, b)
  {
    assert Unique(bufs');
    if b == bufs[i].blockno {
      SeenIn(bufs', disk, i);
    } else {
      var r := Find(bufs, b, 0);
      if r.Some? {
        SeenIn(bufs', disk, r.value);
      }
    }
  }

  // How many victims are chosen before this buffer.
  function Turn(p: Pool, i: nat): (d: nat)
    requires Shape(p) && i < NBUF
    ensures d < NBUF
  {
    if i >= p.next then i - p.next else i + NBUF - p.next
  }

  // The pool after a list of accesses, each with the bytes the disk has for it then.
  function After(p: Pool, accesses: seq<(nat, Block)>): (q: Pool)
    requires Shape(p)
    ensures Shape(q)
    decreases |accesses|
  {
    if accesses == [] then p else After(Access(p, accesses[0].0, accesses[0].1).0, accesses[1..])
  }

  function MissCount(p: Pool, accesses: seq<(nat, Block)>): nat
    requires Shape(p)
    decreases |accesses|
  {
    if accesses == [] then 0
    else (if Misses(p, accesses[0].0) then 1 else 0)
         + MissCount(Access(p, accesses[0].0, accesses[0].1).0, accesses[1..])
  }

  lemma TurnPasses(p: Pool, i: nat, blockno: nat, data: Block)
    requires Shape(p) && i < NBUF
    ensures var q := Access(p, blockno, data).0;
            && (!Misses(p, blockno) ==> q == p)
            && (Misses(p, blockno) && Turn(p, i) > 0 ==> Turn(q, i) == Turn(p, i) - 1 && q.bufs[i] == p.bufs[i])
            && (Misses(p, blockno) && Turn(p, i) == 0 ==>
                  Turn(q, i) == NBUF - 1 && Holds(q.bufs[i], blockno) && i == p.next)
  {
    assert (p.next + 1) % NBUF == if p.next + 1 == NBUF then 0 else p.next + 1;
  }

  /** A buffer keeps its block and its bytes through as many misses as there are victims before
      it. */
  lemma {:induction false} StaysBound(p: Pool, accesses: seq<(nat, Block)>, i: nat)
    requires Shape(p) && i < NBUF && MissCount(p, accesses) <= Turn(p, i)
    ensures After(p, accesses).bufs[i] == p.bufs[i]
    decreases |accesses|
  {
    if accesses != [] {
      TurnPasses(p, i, accesses[0].0, accesses[0].1);
      StaysBound(Access(p, accesses[0].0, accesses[0].1).0, accesses[1..], i);
    }
  }

  /** A buffer just filled by a miss is safe for the next 63 misses; one found by a hit has no such
      bound, since its turn may come at once. */
  lemma FilledIsSafe(p: Pool, blockno: nat, data: Block, accesses: seq<(nat, Block)>)
    requires Shape(p) && Misses(p, blockno)
    requires MissCount(Access(p, blockno, data).0, accesses) <= 63
    ensures var (q, i) := Access(p, blockno, data); After(q, accesses).bufs[i] == Buf(true, false, blockno, data)
  {
    var (q, i) := Access(p, blockno, data);
    TurnPasses(p, i, blockno, data);
    StaysBound(q, accesses, i);
  }

  /** The bound is exact: the miss after that takes the buffer for its own block. */
  lemma {:induction false} RecycledNext(p: Pool, accesses: seq<(nat, Block)>, i: nat, blockno: nat, data: Block)
    requires Shape(p) && i < NBUF && MissCount(p, accesses) == Turn(p, i) && Misses(After(p, accesses), blockno)
    ensures Access(After(p, accesses), blockno, data).1 == i
    decreases |accesses|
  {
    if accesses == [] {
      TurnPasses(p, i, blockno, data);
    } else {
      var q := Access(p, accesses[0].0, accesses[0].1).0;
      TurnPasses(p, i, accesses[0].0, accesses[0].1);
      RecycledNext(q, accesses[1..], i, blockno, data);
    }
  }

  // A hit that the very next miss recycles.
  lemma HitIsNotSafe() returns (p: Pool, data: Block)
    ensures Shape(p) && Unique(p.bufs) && !Misses(p, 5) && Misses(p, 6)
    ensures Access(p, 5, data).1 == Access(Access(p, 5, data).0, 6, data).1
  {
    data := ZeroBlock();
    p := Pool(seq(64, k => Buf(k == 0, false, 5, ZeroBlock())), 0);
    assert Holds(p.bufs[0], 5);
  }
}
