/** What holds in every reachable state of the process table, and over every run of it. */
module Scheduling {
  import opened Wrappers
  import opened Processes

  predicate Live(p: Process) {
    p.state != TERMINATED
  }

  predicate Runnable(p: Process) {
    p.state == READY || p.state == RUNNING
  }

  /** At most one slot is RUNNING and it is the current one; live pids are distinct; and the
      processor is set up for the current slot while that can run. */
  predicate Inv(t: Table) {
    && Shape(t) && 0 < t.nextPid <= 0x1_0000_0000 && Live(t.procs[t.current])
    && (forall i :: 0 <= i < MAX_PROCESSES && t.procs[i].state == RUNNING ==> i == t.current)
    && (forall i :: 0 <= i < MAX_PROCESSES && Live(t.procs[i]) ==>
          0 < t.procs[i].pid < t.nextPid && t.procs[i].pml4 != 0)
    && (forall i, j :: 0 <= i < j < MAX_PROCESSES && Live(t.procs[i]) && Live(t.procs[j]) ==>
          t.procs[i].pid != t.procs[j].pid)
    && (var p := t.procs[t.current];
        p.state != ZOMBIE ==> t.loadedStack == p.kernelStack && t.loadedPml4 == p.pml4)
  }

  function LastParked(log: seq<Event>, pid: nat): Option<nat> {
    if log == [] then None
    else
      match log[|log| - 1]
      case Parked(p, esp) => if p == pid then Some(esp) else LastParked(log[..|log| - 1], pid)
      case _ => LastParked(log[..|log| - 1], pid)
  }

  function CreatorOf(log: seq<Event>, pid: nat): Option<nat> {
    if log == [] then None
    else
      match log[|log| - 1]
      case Born(p, creator) => if p == pid then Some(creator) else CreatorOf(log[..|log| - 1], pid)
      case _ => CreatorOf(log[..|log| - 1], pid)
  }

  // The exit code a process left.
  function ExitOf(log: seq<Event>, pid: nat): Option<int> {
    if log == [] then None
    else
      match log[|log| - 1]
      case Exited(p, code) => if p == pid then Some(code) else ExitOf(log[..|log| - 1], pid)
      case _ => ExitOf(log[..|log| - 1], pid)
  }

  function WasReaped(log: seq<Event>, pid: nat): bool {
    log != [] && ((log[|log| - 1].Reaped? && log[|log| - 1].pid == pid) || WasReaped(log[..|log| - 1], pid))
  }

  // What may follow a history. Only the first process is made by nobody.
  predicate EventOk(log: seq<Event>, e: Event) {
    match e
    case Born(p, creator) =>
      CreatorOf(log, p) == None && (log != [] ==> CreatorOf(log, creator).Some? && ExitOf(log, creator) == None)
    case Parked(p, _) => CreatorOf(log, p).Some? && ExitOf(log, p) == None
    case Resumed(p, esp) => LastParked(log, p) == Some(esp) && ExitOf(log, p) == None
    case Exited(p, _) => LastParked(log, p).Some? && ExitOf(log, p) == None
    case Reaped(p, waiter, code) =>
      CreatorOf(log, p) == Some(waiter) && ExitOf(log, p) == Some(code) && !WasReaped(log, p)
  }

  /** A pid is made once, by a process still in play; a process resumes only before it exits, with
      the stack pointer put away last; it exits once; its exit code is reaped once at most, as it
      was left, by the process that made it. */
  predicate LogOk(log: seq<Event>) {
    log == [] || (LogOk(log[..|log| - 1]) && EventOk(log[..|log| - 1], log[|log| - 1]))
  }

  lemma Snoc(log: seq<Event>, e: Event)
    ensures (log + [e])[..|log|] == log && (log + [e])[|log|] == e && |log + [e]| == |log| + 1
  {
  }

  lemma After(log: seq<Event>, e: Event, pid: nat)
    ensures LastParked(log + [e], pid) == if e.Parked? && e.pid == pid then Some(e.esp) else LastParked(log, pid)
    ensures CreatorOf(log + [e], pid) == if e.Born? && e.pid == pid then Some(e.creator) else CreatorOf(log, pid)
    ensures ExitOf(log + [e], pid) == if e.Exited? && e.pid == pid then Some(e.code) else ExitOf(log, pid)
    ensures WasReaped(log + [e], pid) == ((e.Reaped? && e.pid == pid) || WasReaped(log, pid))
    ensures LogOk(log + [e]) == (LogOk(log) && EventOk(log, e))
  {
    Snoc(log, e);
  }

  /** The history agrees with the table: where each process stands and who made it; and no process
      is lost, each one that was started and is not reaped being in some slot. */
  ghost predicate Tracks(t: Table, log: seq<Event>) {
    && Shape(t) && LogOk(log) && log != []
    && (forall pid: nat :: pid >= t.nextPid ==> CreatorOf(log, pid) == None)
    && (forall i :: 0 <= i < MAX_PROCESSES ==> SlotTracks(t.procs[i], log))
    && (forall pid: nat :: LastParked(log, pid).Some? && !WasReaped(log, pid) ==> Present(t, pid))
  }

  predicate SlotTracks(p: Process, log: seq<Event>) {
    Live(p) ==>
      && CreatorOf(log, p.pid) == Some(p.ppid) && LastParked(log, p.pid) == Some(p.esp) && !WasReaped(log, p.pid)
      && ExitOf(log, p.pid) == if p.state == ZOMBIE then Some(p.exitCode) else None
  }

  predicate Present(t: Table, pid: nat) {
    exists i :: 0 <= i < |t.procs| && Live(t.procs[i]) && t.procs[i].pid == pid
  }

  lemma SwitchKeepsInv(t: Table, next: nat)
    requires Inv(t) && next < MAX_PROCESSES && t.procs[next].state == READY
    ensures Inv(AfterSwitch(t, next))
  {
  }

  lemma SavedKeepsInv(t: Table, esp: nat)
    requires Inv(t)
    ensures Inv(Saved(t, esp))
  {
  }

  lemma StayKeepsInv(t: Table)
    requires Inv(t) && t.procs[t.current].state != ZOMBIE
    ensures Inv(t.(procs := t.procs[t.current := t.procs[t.current].(state := RUNNING)]))
  {
  }

  lemma TickKeepsInv(t: Table, esp: nat)
    requires Inv(t)
    ensures Inv(AfterSchedule(t, esp).0)
  {
    hide Ahead, AfterSwitch, Saved;
    var s := Saved(t, esp);
    SavedKeepsInv(t, esp);
    match NextReady(s, 1)
    case Some(d) => SwitchKeepsInv(s, Ahead(s, d));
    case None =>
      if s.procs[s.current].state != TERMINATED && s.procs[s.current].state != ZOMBIE {
        StayKeepsInv(s);
      }
  }

  lemma SpawnKeepsInv(t: Table, slot: nat, op: Op)
    requires Inv(t) && Enabled(t, op) && op.Spawn? && FreeSlot(t) == Some(slot)
    ensures Inv(AfterSpawn(t, slot, op))
  {
  }

  /** The invariant is kept by every step. */
  lemma StepKeepsInv(t: Table, op: Op)
    requires Inv(t) && Enabled(t, op)
    ensures Inv(Step(t, op))
  {
    hide AfterSchedule, AfterSpawn;
    match op
    case Tick(esp) => TickKeepsInv(t, esp);
    case Spawn(_, _, _, _) =>
      if FreeSlot(t).Some? {
        SpawnKeepsInv(t, FreeSlot(t).value, op);
      }
    case _ =>
  }

  lemma StillPresent(t: Table, u: Table, pid: nat)
    requires Present(t, pid) && |u.procs| == |t.procs|
    requires forall i :: 0 <= i < |t.procs| && Live(t.procs[i]) && t.procs[i].pid == pid ==>
               Live(u.procs[i]) && u.procs[i].pid == pid
    ensures Present(u, pid)
  {
    var i :| 0 <= i < |t.procs| && Live(t.procs[i]) && t.procs[i].pid == pid;
    assert Live(u.procs[i]);
  }

  lemma PresentAt(t: Table, i: nat)
    requires i < |t.procs| && Live(t.procs[i])
    ensures Present(t, t.procs[i].pid)
  {
  }

  // One event, with what it changes in the table: the slot given, at most.
  lemma TrackOne(t: Table, log: seq<Event>, u: Table, e: Event, slot: nat)
    requires Inv(t) && Tracks(t, log) && Shape(u) && EventOk(log, e)
    requires u.nextPid >= t.nextPid && e.pid < u.nextPid && slot < MAX_PROCESSES
    requires forall k :: 0 <= k < MAX_PROCESSES && k != slot ==> u.procs[k] == t.procs[k]
    requires forall k :: 0 <= k < MAX_PROCESSES && k != slot && Live(t.procs[k]) ==> t.procs[k].pid != e.pid
    requires SlotTracks(u.procs[slot], log + [e])
    requires Live(t.procs[slot]) && (!Live(u.procs[slot]) || u.procs[slot].pid != t.procs[slot].pid) ==>
               WasReaped(log + [e], t.procs[slot].pid)
    requires LastParked(log + [e], e.pid).Some? && !WasReaped(log + [e], e.pid) ==> Present(u, e.pid)
    ensures Tracks(u, log + [e])
  {
    hide Present, EventOk, LastParked, CreatorOf, ExitOf, WasReaped;
    After(log, e, e.pid);
    forall pid: nat | pid >= u.nextPid
      ensures CreatorOf(log + [e], pid) == None
    {
      After(log, e, pid);
    }
    forall k | 0 <= k < MAX_PROCESSES
      ensures SlotTracks(u.procs[k], log + [e])
    {
      if k != slot {
        assert SlotTracks(t.procs[k], log);
        After(log, e, t.procs[k].pid);
      }
    }
    forall pid: nat | LastParked(log + [e], pid).Some? && !WasReaped(log + [e], pid)
      ensures Present(u, pid)
    {
      After(log, e, pid);
      if pid != e.pid {
        StillPresent(t, u, pid);
      }
    }
  }

  lemma ParkTracks(t: Table, log: seq<Event>, esp: nat)
    requires Inv(t) && Tracks(t, log) && t.procs[t.current].state == RUNNING
    ensures Tracks(Saved(t, esp), log + [Parked(t.procs[t.current].pid, esp)])
  {
    hide LastParked, CreatorOf, ExitOf, WasReaped, Present;
    var u, e := Saved(t, esp), Parked(t.procs[t.current].pid, esp);
    assert SlotTracks(t.procs[t.current], log);
    After(log, e, e.pid);
    PresentAt(u, t.current);
    TrackOne(t, log, u, e, t.current);
  }

  // Coming to run is no news but that.
  lemma ResumeTracks(t: Table, log: seq<Event>, u: Table, i: nat)
    requires Inv(t) && Tracks(t, log) && Shape(u) && u.nextPid == t.nextPid && i < MAX_PROCESSES
    requires Runnable(t.procs[i]) && u.procs == t.procs[i := t.procs[i].(state := RUNNING)]
    ensures Tracks(u, log + [Resumed(t.procs[i].pid, t.procs[i].esp)])
  {
    hide LastParked, CreatorOf, ExitOf, WasReaped, Present;
    var e := Resumed(t.procs[i].pid, t.procs[i].esp);
    assert SlotTracks(t.procs[i], log);
    After(log, e, e.pid);
    PresentAt(u, i);
    TrackOne(t, log, u, e, i);
  }

  lemma ExitTracks(t: Table, log: seq<Event>, code: int)
    requires Inv(t) && Tracks(t, log) && t.procs[t.current].state == RUNNING
    ensures Tracks(AfterExit(t, code), log + [Exited(t.procs[t.current].pid, code)])
  {
    hide LastParked, CreatorOf, ExitOf, WasReaped, Present;
    var u, e := AfterExit(t, code), Exited(t.procs[t.current].pid, code);
    assert SlotTracks(t.procs[t.current], log);
    After(log, e, e.pid);
    PresentAt(u, t.current);
    TrackOne(t, log, u, e, t.current);
  }

  lemma ReapTracks(t: Table, log: seq<Event>, slot: nat)
    requires Inv(t) && Tracks(t, log) && slot < MAX_PROCESSES && t.procs[slot].state == ZOMBIE
    ensures Tracks(AfterReap(t, slot), log + [Reaped(t.procs[slot].pid, t.procs[slot].ppid, t.procs[slot].exitCode)])
  {
    hide LastParked, CreatorOf, ExitOf, WasReaped, Present;
    var p := t.procs[slot];
    var u, e := AfterReap(t, slot), Reaped(p.pid, p.ppid, p.exitCode);
    assert SlotTracks(p, log);
    After(log, e, e.pid);
    TrackOne(t, log, u, e, slot);
  }

  // The new process is born before its slot is filled.
  lemma BirthTracks(t: Table, log: seq<Event>)
    requires Inv(t) && Tracks(t, log) && t.procs[t.current].state == RUNNING && t.nextPid < 0x1_0000_0000
    ensures var u := t.(nextPid := t.nextPid + 1);
            Inv(u) && Tracks(u, log + [Born(t.nextPid, t.procs[t.current].pid)])
    ensures CreatorOf(log + [Born(t.nextPid, t.procs[t.current].pid)], t.nextPid) == Some(t.procs[t.current].pid)
  {
    hide LastParked, CreatorOf, ExitOf, WasReaped, Present;
    var u, e := t.(nextPid := t.nextPid + 1), Born(t.nextPid, t.procs[t.current].pid);
    assert SlotTracks(t.procs[t.current], log);
    NotBornNotParked(log, t.nextPid);
    After(log, e, t.nextPid);
    After(log, e, t.procs[t.current].pid);
    TrackOne(t, log, u, e, t.current);
  }

  // Who was never made has done nothing.
  lemma {:induction false} NotBornNotParked(log: seq<Event>, pid: nat)
    requires LogOk(log) && CreatorOf(log, pid) == None
    ensures LastParked(log, pid) == None && ExitOf(log, pid) == None && !WasReaped(log, pid)
  {
    if log != [] {
      NotBornNotParked(log[..|log| - 1], pid);
    }
  }

  lemma SpawnTracks(t: Table, log: seq<Event>, slot: nat, op: Op)
    requires Inv(t) && Tracks(t, log) && Enabled(t, op) && op.Spawn? && op.loads
    requires slot < MAX_PROCESSES && t.procs[slot].state == TERMINATED
    ensures Tracks(AfterSpawn(t, slot, op),
                   log + [Born(t.nextPid, t.procs[t.current].pid), Parked(t.nextPid, op.stackTop - FRAME)])
  {
    hide LastParked, CreatorOf, ExitOf, WasReaped, Present;
    var u, e := AfterSpawn(t, slot, op), Parked(t.nextPid, op.stackTop - FRAME);
    var log1 := log + [Born(t.nextPid, t.procs[t.current].pid)];
    BirthTracks(t, log);
    NotBornNotParked(log, t.nextPid);
    After(log, Born(t.nextPid, t.procs[t.current].pid), t.nextPid);
    After(log1, e, t.nextPid);
    PresentAt(u, slot);
    TrackOne(t.(nextPid := t.nextPid + 1), log1, u, e, slot);
    assert log1 + [e] == log + [Born(t.nextPid, t.procs[t.current].pid), e];
  }

  // A slot freed that nobody had, or fields of no account to the history.
  lemma QuietTracks(t: Table, log: seq<Event>, u: Table, slot: nat)
    requires Tracks(t, log) && Shape(u) && u.nextPid >= t.nextPid && slot < MAX_PROCESSES
    requires forall k :: 0 <= k < MAX_PROCESSES && k != slot ==> u.procs[k] == t.procs[k]
    requires var p, q := t.procs[slot], u.procs[slot];
             || (!Live(p) && !Live(q))
             || (Runnable(p) && Runnable(q)
                 && q == p.(state := q.state, ofiles := q.ofiles, heapStart := q.heapStart, heapEnd := q.heapEnd))
    ensures Tracks(u, log)
  {
    hide LastParked, CreatorOf, ExitOf, WasReaped, Present;
    assert SlotTracks(t.procs[slot], log);
    forall pid: nat | LastParked(log, pid).Some? && !WasReaped(log, pid)
      ensures Present(u, pid)
    {
      StillPresent(t, u, pid);
    }
  }

  // The table between the two halves of a switch: the old process is ready again.
  function Yielded(t: Table): (u: Table)
    requires Shape(t)
    ensures Shape(u)
  {
    if t.procs[t.current].state == RUNNING then t.(procs := t.procs[t.current := t.procs[t.current].(state := READY)])
    else t
  }

  lemma YieldTracks(t: Table, log: seq<Event>, next: nat)
    requires Inv(t) && Tracks(t, log) && next < MAX_PROCESSES && t.procs[next].state == READY
    ensures Inv(Yielded(t)) && Tracks(Yielded(t), log) && Yielded(t).procs[next] == t.procs[next]
    ensures AfterSwitch(t, next) == Activated(Yielded(t), next)
  {
    hide Tracks, Inv;
    HasShape(t);
    YieldKeepsInv(t);
    if t.procs[t.current].state == RUNNING {
      QuietTracks(t, log, Yielded(t), t.current);
    }
  }

  lemma YieldKeepsInv(t: Table)
    requires Inv(t)
    ensures Inv(Yielded(t))
  {
  }

  lemma SwitchTracks(t: Table, log: seq<Event>, next: nat)
    requires Inv(t) && Tracks(t, log) && next < MAX_PROCESSES && t.procs[next].state == READY
    ensures Tracks(AfterSwitch(t, next), log + [Resumed(t.procs[next].pid, t.procs[next].esp)])
    ensures var u := AfterSwitch(t, next); u.current == next && u.procs[next].pid == t.procs[next].pid
  {
    hide Tracks, LogOk, Inv, Yielded;
    HasShape(t);
    YieldTracks(t, log, next);
    ResumeTracks(Yielded(t), log, AfterSwitch(t, next), next);
  }

  lemma StayTracks(t: Table, log: seq<Event>)
    requires Inv(t) && Tracks(t, log) && t.procs[t.current].state != ZOMBIE
    ensures Tracks(t.(procs := t.procs[t.current := t.procs[t.current].(state := RUNNING)]),
                   log + [Resumed(t.procs[t.current].pid, t.procs[t.current].esp)])
  {
    hide Tracks, LogOk;
    ResumeTracks(t, log, t.(procs := t.procs[t.current := t.procs[t.current].(state := RUNNING)]), t.current);
  }

  lemma TickTracks(t: Table, log: seq<Event>, esp: nat)
    requires Inv(t) && Tracks(t, log)
    ensures Tracks(AfterSchedule(t, esp).0, log + Events(t, Tick(esp)))
  {
    hide Tracks, Ahead, LogOk, Saved, AfterSwitch;
    var s, p := Saved(t, esp), t.procs[t.current];
    SavedKeepsInv(t, esp);
    var log1 := log + if p.state == RUNNING then [Parked(p.pid, esp)] else [];
    if p.state == RUNNING {
      ParkTracks(t, log, esp);
    } else {
      NotSaved(t, esp);
      assert log1 == log;
    }
    var (u, r) := AfterSchedule(t, esp);
    match NextReady(s, 1)
    case Some(d) =>
      SwitchTracks(s, log1, Ahead(s, d));
      assert log + Events(t, Tick(esp)) == log1 + [Resumed(s.procs[Ahead(s, d)].pid, s.procs[Ahead(s, d)].esp)];
    case None =>
      var q := s.procs[s.current];
      if q.state != TERMINATED && q.state != ZOMBIE {
        StayTracks(s, log1);
        assert log + Events(t, Tick(esp)) == log1 + [Resumed(q.pid, q.esp)];
      } else {
        assert log + Events(t, Tick(esp)) == log1;
      }
  }

  lemma NotSaved(t: Table, esp: nat)
    requires Shape(t) && t.procs[t.current].state != RUNNING
    ensures Saved(t, esp) == t
  {
  }

  /** Every step extends the history by nothing it forbids. */
  lemma StepTracks(t: Table, log: seq<Event>, op: Op)
    requires Inv(t) && Tracks(t, log) && Enabled(t, op)
    ensures Tracks(Step(t, op), log + Events(t, op))
  {
    hide Tracks, AfterSchedule, LogOk;
    match op
    case Tick(esp) => TickTracks(t, log, esp);
    case Spawn(_, _, loads, _) =>
      match FreeSlot(t) {
        case None => assert log + [] == log;
        case Some(slot) =>
          if loads {
            SpawnTracks(t, log, slot, op);
          } else {
            QuietTracks(t, log, Step(t, op), slot);
            assert log + [] == log;
          }
      }
    case Exit(code) => ExitTracks(t, log, code);
    case Wait =>
      match ZombieChild(t) {
        case None => assert log + [] == log;
        case Some(slot) => ReapTracks(t, log, slot);
      }
    case Update(_, _, _) =>
      QuietTracks(t, log, Step(t, op), t.current);
      assert log + [] == log;
  }

  lemma {:induction false} RunKeeps(t: Table, log: seq<Event>, ops: seq<Op>)
    requires Inv(t) && Tracks(t, log) && Runs(t, ops)
    ensures Inv(Run(t, ops)) && Tracks(Run(t, ops), log + Trace(t, ops))
    decreases |ops|
  {
    hide Tracks, Inv, Step, Events;
    if ops == [] {
      assert log + [] == log;
    } else {
      var u, e := Step(t, ops[0]), Events(t, ops[0]);
      StepKeepsInv(t, ops[0]);
      StepTracks(t, log, ops[0]);
      RunKeeps(u, log + e, ops[1..]);
      assert log + (e + Trace(u, ops[1..])) == (log + e) + Trace(u, ops[1..]);
    }
  }

  /** The table as the kernel leaves it to the first timer tick: the first process is made, and
      its kernel stack and page table are loaded by hand, since no switch will. */
  function BootTable(stackTop: nat, pml4: nat): (t: Table)
    requires stackTop >= FRAME && pml4 != 0
    ensures Shape(t)
  {
    AfterCreate(InitialTable(), 0, stackTop, pml4).(loadedStack := stackTop, loadedPml4 := pml4)
  }

  // How every history begins: nobody makes the first process.
  function BootLog(stackTop: nat): seq<Event>
    requires stackTop >= FRAME
  {
    [Born(1, 0), Parked(1, stackTop - FRAME)]
  }

  lemma BootHistory(stackTop: nat, pid: nat)
    requires stackTop >= FRAME
    ensures var log, esp: nat := BootLog(stackTop), stackTop - FRAME;
            && LastParked(log, pid) == (if pid == 1 then Some(esp) else None) && ExitOf(log, pid) == None
            && CreatorOf(log, pid) == (if pid == 1 then Some(0) else None) && !WasReaped(log, pid)
  {
    var log, one := BootLog(stackTop), [Born(1, 0)];
    assert [] + one == one && one + [log[1]] == log;
    After([], log[0], pid);
    After(one, log[1], pid);
  }

  lemma BootAllowed(stackTop: nat)
    requires stackTop >= FRAME
    ensures LogOk(BootLog(stackTop))
  {
    var log, one := BootLog(stackTop), [Born(1, 0)];
    assert [] + one == one && one + [log[1]] == log;
    After([], log[0], 1);
    After(one, log[1], 1);
  }

  lemma BootTracks(stackTop: nat, pml4: nat)
    requires stackTop >= FRAME && pml4 != 0
    ensures Inv(BootTable(stackTop, pml4)) && Tracks(BootTable(stackTop, pml4), BootLog(stackTop))
  {
    hide LastParked, CreatorOf, ExitOf, WasReaped, Present, LogOk;
    BootAllowed(stackTop);
    BootHistory(stackTop, 1);
    var t, log := BootTable(stackTop, pml4), BootLog(stackTop);
    PresentAt(t, 0);
    forall pid: nat
      ensures pid >= t.nextPid ==> CreatorOf(log, pid) == None
      ensures LastParked(log, pid).Some? && !WasReaped(log, pid) ==> Present(t, pid)
    {
      BootHistory(stackTop, pid);
    }
  }

  // Process pid has a slot, where it runs or is ready to, and no other slot has its pid.
  ghost predicate InOneSlot(t: Table, pid: nat) {
    exists i :: && 0 <= i < |t.procs| && Runnable(t.procs[i]) && t.procs[i].pid == pid
                && forall j :: 0 <= j < |t.procs| && j != i && Live(t.procs[j]) ==> t.procs[j].pid != pid
  }

  // It was started and has not exited.
  predicate InPlay(log: seq<Event>, pid: nat) {
    LastParked(log, pid).Some? && ExitOf(log, pid) == None
  }

  lemma PlaysInOneSlot(t: Table, log: seq<Event>, pid: nat) returns (i: nat)
    requires Inv(t) && Tracks(t, log) && InPlay(log, pid)
    ensures i < |t.procs| && Runnable(t.procs[i]) && t.procs[i].pid == pid && InOneSlot(t, pid)
  {
    hide LastParked, CreatorOf, ExitOf, WasReaped;
    NotReaped(log, pid);
    assert Present(t, pid);
    i :| 0 <= i < |t.procs| && Live(t.procs[i]) && t.procs[i].pid == pid;
    assert SlotTracks(t.procs[i], log);
    assert Runnable(t.procs[i]);
  }

  // Only what exited is reaped.
  lemma {:induction false} NotReaped(log: seq<Event>, pid: nat)
    requires LogOk(log) && ExitOf(log, pid) == None
    ensures !WasReaped(log, pid)
  {
    if log != [] {
      NotReaped(log[..|log| - 1], pid);
    }
  }

  /** In every state reachable from boot at most one slot is RUNNING and it is the current one,
      live pids are distinct and the processor is set up for the current slot; the history of the
      whole run is one LogOk allows; and no process is lost: whoever was started and has not exited
      is in exactly one slot, READY or RUNNING. */
  lemma EveryRun(stackTop: nat, pml4: nat, ops: seq<Op>)
    requires stackTop >= FRAME && pml4 != 0 && Runs(BootTable(stackTop, pml4), ops)
    ensures Inv(Run(BootTable(stackTop, pml4), ops))
    ensures LogOk(BootLog(stackTop) + Trace(BootTable(stackTop, pml4), ops))
    ensures Tracks(Run(BootTable(stackTop, pml4), ops), BootLog(stackTop) + Trace(BootTable(stackTop, pml4), ops))
    ensures forall pid: nat :: InPlay(BootLog(stackTop) + Trace(BootTable(stackTop, pml4), ops), pid) ==>
              InOneSlot(Run(BootTable(stackTop, pml4), ops), pid)
  {
    hide Inv, BootTable, LogOk, Run, Trace, Runs, BootLog, InPlay, InOneSlot;
    BootTracks(stackTop, pml4);
    var t, log := Run(BootTable(stackTop, pml4), ops), BootLog(stackTop) + Trace(BootTable(stackTop, pml4), ops);
    RunKeeps(BootTable(stackTop, pml4), BootLog(stackTop), ops);
    forall pid: nat | InPlay(log, pid)
      ensures InOneSlot(t, pid)
    {
      var i := PlaysInOneSlot(t, log, pid);
    }
  }

  lemma {:induction false} EventAt(log: seq<Event>, i: nat)
    requires LogOk(log) && i < |log|
    ensures EventOk(log[..i], log[i])
    decreases |log|
  {
    var n := |log| - 1;
    if i < n {
      EventAt(log[..n], i);
      assert log[..n][..i] == log[..i];
    }
  }

  lemma {:induction false} ReapedBefore(log: seq<Event>, i: nat)
    requires i < |log| && log[i].Reaped?
    ensures WasReaped(log, log[i].pid)
    decreases |log|
  {
    var n := |log| - 1;
    if i < n {
      ReapedBefore(log[..n], i);
    }
  }

  /** No exit code is reaped twice. */
  lemma ReapedOnce(log: seq<Event>, i: nat, j: nat)
    requires LogOk(log) && i < |log| && j < |log| && log[i].Reaped? && log[j].Reaped? && log[i].pid == log[j].pid
    ensures i == j
  {
    if i < j {
      EventAt(log, j);
      ReapedBefore(log[..j], i);
      assert false;
    } else if j < i {
      EventAt(log, i);
      ReapedBefore(log[..i], j);
      assert false;
    }
  }

  lemma {:induction false} ExitOfAt(log: seq<Event>, pid: nat) returns (k: nat)
    requires ExitOf(log, pid).Some?
    ensures k < |log| && log[k] == Exited(pid, ExitOf(log, pid).value)
    decreases |log|
  {
    var n := |log| - 1;
    if log[n].Exited? && log[n].pid == pid {
      k := n;
    } else {
      k := ExitOfAt(log[..n], pid);
    }
  }

  lemma {:induction false} BornAt(log: seq<Event>, pid: nat) returns (k: nat)
    requires CreatorOf(log, pid).Some?
    ensures k < |log| && log[k] == Born(pid, CreatorOf(log, pid).value)
    decreases |log|
  {
    var n := |log| - 1;
    if log[n].Born? && log[n].pid == pid {
      k := n;
    } else {
      k := BornAt(log[..n], pid);
    }
  }

  /** A reaped exit code is the one a process exited with before, and whoever reaped it is the
      process that made it. */
  lemma ReapedIsExited(log: seq<Event>, i: nat) returns (k: nat, m: nat)
    requires LogOk(log) && i < |log| && log[i].Reaped?
    ensures k < i && log[k] == Exited(log[i].pid, log[i].code)
    ensures m < i && log[m] == Born(log[i].pid, log[i].waiter)
  {
    EventAt(log, i);
    k := ExitOfAt(log[..i], log[i].pid);
    m := BornAt(log[..i], log[i].pid);
  }

  // A child of w that has exited and not been reaped.
  predicate Awaits(log: seq<Event>, pid: nat, w: nat) {
    CreatorOf(log, pid) == Some(w) && ExitOf(log, pid).Some? && !WasReaped(log, pid)
  }

  lemma {:induction false} ExitedParked(log: seq<Event>, pid: nat)
    requires LogOk(log) && ExitOf(log, pid).Some?
    ensures LastParked(log, pid).Some?
  {
    if !(log[|log| - 1].Exited? && log[|log| - 1].pid == pid) {
      ExitedParked(log[..|log| - 1], pid);
    }
  }

  // The slots of the caller's exited children, by the history and by the table.
  lemma AwaitsInSlot(t: Table, log: seq<Event>, pid: nat) returns (i: nat)
    requires Inv(t) && Tracks(t, log) && Awaits(log, pid, t.procs[t.current].pid)
    ensures i < MAX_PROCESSES && t.procs[i].pid == pid && IsZombieOf(t.procs[t.current].pid)(t.procs[i])
  {
    hide LastParked, CreatorOf, ExitOf, WasReaped;
    ExitedParked(log, pid);
    assert Present(t, pid);
    i :| 0 <= i < |t.procs| && Live(t.procs[i]) && t.procs[i].pid == pid;
    assert SlotTracks(t.procs[i], log);
  }

  /** wait4 by a running process reaps one of the processes it made that have exited, with the code
      that one left, and none exactly when there is none. */
  lemma WaitReaps(t: Table, log: seq<Event>)
    requires Inv(t) && Tracks(t, log) && Enabled(t, Wait)
    ensures var w := t.procs[t.current].pid;
            if exists pid: nat :: Awaits(log, pid, w)
            then exists d: nat, code :: Events(t, Wait) == [Reaped(d, w, code)] && Awaits(log, d, w)
                                        && ExitOf(log, d) == Some(code)
            else Events(t, Wait) == []
  {
    hide LastParked, CreatorOf, ExitOf, WasReaped, Inv;
    var w := t.procs[t.current].pid;
    if pid: nat :| Awaits(log, pid, w) {
      var i := AwaitsInSlot(t, log, pid);
    }
    if ZombieChild(t).Some? {
      var p := t.procs[ZombieChild(t).value];
      assert SlotTracks(p, log);
      assert Awaits(log, p.pid, w) && Events(t, Wait) == [Reaped(p.pid, w, p.exitCode)];
    }
  }

  lemma {:induction false} StaysBorn(log: seq<Event>, k: nat)
    requires LogOk(log) && k < |log| && log[k].Born?
    ensures CreatorOf(log, log[k].pid) == Some(log[k].creator)
    decreases |log|
  {
    var n := |log| - 1;
    if k < n {
      StaysBorn(log[..n], k);
    }
  }

  lemma {:induction false} StaysExited(log: seq<Event>, k: nat)
    requires LogOk(log) && k < |log| && log[k].Exited?
    ensures ExitOf(log, log[k].pid) == Some(log[k].code)
    decreases |log|
  {
    var n := |log| - 1;
    if k < n {
      StaysExited(log[..n], k);
    }
  }

  /** Over every run from boot: a process spawns a child, the child exits and is not reaped yet;
      then a wait4 of that process reaps it, or another child of it that has exited. */
  lemma SpawnExitWait(stackTop: nat, pml4: nat, ops: seq<Op>, i: nat, j: nat) returns (d: nat, code: int)
    requires stackTop >= FRAME && pml4 != 0 && Runs(BootTable(stackTop, pml4), ops)
    requires var t, log := Run(BootTable(stackTop, pml4), ops),
                           BootLog(stackTop) + Trace(BootTable(stackTop, pml4), ops);
             && Enabled(t, Wait) && i < |log| && j < |log|
             && log[i].Born? && log[i].creator == t.procs[t.current].pid
             && log[j].Exited? && log[j].pid == log[i].pid
             && forall k :: 0 <= k < |log| && log[k].Reaped? ==> log[k].pid != log[i].pid
    ensures var t, log := Run(BootTable(stackTop, pml4), ops),
                          BootLog(stackTop) + Trace(BootTable(stackTop, pml4), ops);
            && Events(t, Wait) == [Reaped(d, log[i].creator, code)]
            && Born(d, log[i].creator) in log && Exited(d, code) in log
  {
    hide Inv, Tracks, BootTable, LogOk, Run, Trace, Runs, BootLog, Events, ExitOf, CreatorOf, WasReaped;
    var t, log := Run(BootTable(stackTop, pml4), ops), BootLog(stackTop) + Trace(BootTable(stackTop, pml4), ops);
    EveryRun(stackTop, pml4, ops);
    StaysBorn(log, i);
    StaysExited(log, j);
    NeverReaped(log, log[i].pid);
    WaitReaps(t, log);
    assert Awaits(log, log[i].pid, log[i].creator);
    d, code :| Events(t, Wait) == [Reaped(d, log[i].creator, code)] && Awaits(log, d, log[i].creator)
               && ExitOf(log, d) == Some(code);
    var m := BornAt(log, d);
    var n := ExitOfAt(log, d);
  }

  lemma {:induction false} NeverReaped(log: seq<Event>, pid: nat)
    requires forall k :: 0 <= k < |log| && log[k].Reaped? ==> log[k].pid != pid
    ensures !WasReaped(log, pid)
  {
    if log != [] {
      NeverReaped(log[..|log| - 1], pid);
    }
  }

  // How far ahead of the current slot a slot is, going round.
  function Distance(t: Table, slot: nat): (d: nat)
    requires t.current < MAX_PROCESSES && slot < MAX_PROCESSES
    ensures d < MAX_PROCESSES && (d == 0 <==> slot == t.current) && Ahead(t, d) == slot
  {
    if slot >= t.current then slot - t.current else slot + MAX_PROCESSES - t.current
  }

  function Ticks(ops: seq<Op>): nat {
    if ops == [] then 0 else (if ops[0].Tick? then 1 else 0) + Ticks(ops[1..])
  }

  // Going d on brings a slot at least that far ahead d nearer.
  lemma Nearer(t: Table, u: Table, slot: nat, d: nat)
    requires t.current < MAX_PROCESSES && slot < MAX_PROCESSES && 1 <= d <= Distance(t, slot)
              && u.current == Ahead(t, d)
    ensures Distance(u, slot) == Distance(t, slot) - d
  {
    assert Ahead(t, d) == if t.current + d < MAX_PROCESSES then t.current + d else t.current + d - MAX_PROCESSES;
  }

  // A tick runs the slot or comes closer to it.
  lemma TickNearer(t: Table, esp: nat, slot: nat)
    requires Inv(t) && slot < MAX_PROCESSES && slot != t.current && t.procs[slot].state == READY
    ensures var u := AfterSchedule(t, esp).0;
            && u.procs[slot].pid == t.procs[slot].pid && u.procs[slot].esp == t.procs[slot].esp
            && if u.current == slot then u.procs[slot].state == RUNNING
               else u.procs[slot].state == READY && Distance(u, slot) < Distance(t, slot)
  {
    hide Ahead;
    var s := Saved(t, esp);
    assert Distance(s, slot) == Distance(t, slot) && ReadyAt(s, Distance(s, slot));
    var d := NextReady(s, 1).value;
    Nearer(s, AfterSwitch(s, Ahead(s, d)), slot, d);
  }

  // No other step changes the current slot or a READY one.
  lemma WaitingKept(t: Table, op: Op, slot: nat)
    requires Inv(t) && Enabled(t, op) && !op.Tick? && slot < MAX_PROCESSES && t.procs[slot].state == READY
    ensures Step(t, op).current == t.current && Step(t, op).procs[slot] == t.procs[slot]
  {
  }

  // After the first n steps the process of that slot runs, where it was left, and at most so many
  // ticks were among them.
  predicate Dispatched(t: Table, ops: seq<Op>, slot: nat, n: nat, ticks: nat)
    requires Shape(t) && slot < MAX_PROCESSES
  {
    && n <= |ops| && Runs(t, ops[..n]) && Ticks(ops[..n]) <= ticks
    && var u := Run(t, ops[..n]);
       && u.current == slot && u.procs[slot].state == RUNNING
       && u.procs[slot].pid == t.procs[slot].pid && u.procs[slot].esp == t.procs[slot].esp
  }

  lemma DispatchedLater(t: Table, ops: seq<Op>, slot: nat, n: nat, ticks: nat)
    requires Shape(t) && slot < MAX_PROCESSES && ops != [] && Enabled(t, ops[0])
    requires Dispatched(Step(t, ops[0]), ops[1..], slot, n, ticks)
    requires var u := Step(t, ops[0]);
             u.procs[slot].pid == t.procs[slot].pid && u.procs[slot].esp == t.procs[slot].esp
    ensures Dispatched(t, ops, slot, n + 1, ticks + if ops[0].Tick? then 1 else 0)
  {
    hide Step, Enabled;
    assert ops[..n + 1][1..] == ops[1..][..n];
  }

  lemma DispatchedNow(t: Table, ops: seq<Op>, slot: nat)
    requires Shape(t) && slot < MAX_PROCESSES && ops != [] && Enabled(t, ops[0]) && ops[0].Tick?
    requires var u := Step(t, ops[0]);
             && u.current == slot && u.procs[slot].state == RUNNING
             && u.procs[slot].pid == t.procs[slot].pid && u.procs[slot].esp == t.procs[slot].esp
    ensures Dispatched(t, ops, slot, 1, 1)
  {
    hide Step, Enabled;
    var one, u := ops[..1], Step(t, ops[0]);
    assert one[0] == ops[0] && one[1..] == [];
    assert Runs(u, []) && Run(u, []) == u && Ticks([]) == 0;
    assert Run(t, one) == Run(u, one[1..]);
  }

  /** Bounded waiting: a READY process other than the current one runs at the latest at the
      schedule call numbered by its distance, at most seven, whatever is spawned, exits or waits
      in between. */
  lemma {:induction false} BoundedWaiting(t: Table, ops: seq<Op>, slot: nat) returns (n: nat)
    requires Inv(t) && Runs(t, ops) && slot < MAX_PROCESSES && slot != t.current && t.procs[slot].state == READY
    requires Ticks(ops) >= Distance(t, slot)
    ensures Dispatched(t, ops, slot, n, Distance(t, slot))
    decreases |ops|
  {
    hide Inv, Step, Enabled, Distance, Dispatched;
    assert ops != [] && Shape(t) by { HasShape(t); }
    var u := Step(t, ops[0]);
    StepKeepsInv(t, ops[0]);
    HasShape(t);
    if ops[0].Tick? {
      assert u == AfterSchedule(t, ops[0].esp).0 by { TickStep(t, ops[0]); }
      TickNearer(t, ops[0].esp, slot);
      if u.current == slot {
        DispatchedNow(t, ops, slot);
        n := 1;
        DispatchedBy(t, ops, slot, 1, 1, Distance(t, slot));
        return;
      }
    } else {
      WaitingKept(t, ops[0], slot);
      SameDistance(t, u, slot);
    }
    n := BoundedWaiting(u, ops[1..], slot);
    DispatchedLater(t, ops, slot, n, Distance(u, slot));
    n := n + 1;
    DispatchedBy(t, ops, slot, n, Distance(u, slot) + if ops[0].Tick? then 1 else 0, Distance(t, slot));
  }

  lemma HasShape(t: Table)
    requires Inv(t)
    ensures Shape(t)
  {
  }

  lemma TickStep(t: Table, op: Op)
    requires Enabled(t, op) && op.Tick?
    ensures Step(t, op) == AfterSchedule(t, op.esp).0
  {
  }

  lemma SameDistance(t: Table, u: Table, slot: nat)
    requires t.current == u.current < MAX_PROCESSES && slot < MAX_PROCESSES
    ensures Distance(u, slot) == Distance(t, slot)
  {
  }

  lemma DispatchedBy(t: Table, ops: seq<Op>, slot: nat, n: nat, ticks: nat, more: nat)
    requires Shape(t) && slot < MAX_PROCESSES && Dispatched(t, ops, slot, n, ticks) && ticks <= more
    ensures Dispatched(t, ops, slot, n, more)
  {
  }

  // The schedule calls a process may have to sit through: those to its slot, or once round.
  function Turn(t: Table, slot: nat): (d: nat)
    requires t.current < MAX_PROCESSES && slot < MAX_PROCESSES
    ensures 0 < d <= MAX_PROCESSES
  {
    if slot == t.current then MAX_PROCESSES else Distance(t, slot)
  }

  // A tick runs the process of a slot, the current one included, or brings its turn closer.
  lemma TickTurn(t: Table, esp: nat, slot: nat)
    requires Inv(t) && slot < MAX_PROCESSES && Runnable(t.procs[slot])
    ensures var u := AfterSchedule(t, esp).0;
            && u.procs[slot].pid == t.procs[slot].pid && Runnable(u.procs[slot])
            && if u.current == slot
               then Resumed(t.procs[slot].pid, u.procs[slot].esp) in Events(t, Tick(esp))
               else u.procs[slot].state == READY && Turn(u, slot) < Turn(t, slot)
  {
    hide Ahead;
    if slot == t.current {
      CurrentTurn(t, esp);
    } else {
      TickNearer(t, esp, slot);
    }
    var u := AfterSchedule(t, esp).0;
    if u.current == slot {
      var r := Events(t, Tick(esp));
      assert r[|r| - 1] == Resumed(t.procs[slot].pid, u.procs[slot].esp);
    }
  }

  // The process a tick preempts is ready, not gone.
  lemma CurrentTurn(t: Table, esp: nat)
    requires Inv(t) && Runnable(t.procs[t.current])
    ensures var u, p := AfterSchedule(t, esp).0, t.procs[t.current];
            && u.procs[t.current].pid == p.pid && AfterSchedule(t, esp).1.Some?
            && u.procs[t.current].esp == (if p.state == RUNNING then esp else p.esp)
            && if u.current == t.current then u.procs[t.current].state == RUNNING
               else u.procs[t.current].state == READY && Distance(u, t.current) < MAX_PROCESSES
  {
    hide Ahead;
    var s := Saved(t, esp);
    if NextReady(s, 1).Some? {
      var d := NextReady(s, 1).value;
      assert Ahead(s, d) != s.current by { OtherSlot(s, d); }
    }
  }

  lemma OtherSlot(t: Table, d: nat)
    requires t.current < MAX_PROCESSES && 0 < d < MAX_PROCESSES
    ensures Ahead(t, d) != t.current
  {
  }

  // Between ticks a process stays runnable where it is, unless it exits.
  lemma RunnableKept(t: Table, op: Op, slot: nat)
    requires Inv(t) && Enabled(t, op) && !op.Tick? && slot < MAX_PROCESSES && Runnable(t.procs[slot])
    ensures var u := Step(t, op);
            && u.current == t.current
            && if op.Exit? && slot == t.current then Exited(t.procs[slot].pid, op.code) in Events(t, op)
               else u.procs[slot].pid == t.procs[slot].pid && Runnable(u.procs[slot])
  {
  }

  predicate HappensBy(t: Table, ops: seq<Op>, pid: nat, n: nat, ticks: nat) {
    && n <= |ops| && Runs(t, ops[..n]) && Ticks(ops[..n]) <= ticks
    && exists e :: e in Trace(t, ops[..n]) && e.pid == pid && (e.Resumed? || e.Exited?)
  }

  lemma HappensNow(t: Table, ops: seq<Op>, e: Event)
    requires ops != [] && Enabled(t, ops[0]) && e in Events(t, ops[0]) && (e.Resumed? || e.Exited?)
    ensures HappensBy(t, ops, e.pid, 1, if ops[0].Tick? then 1 else 0)
  {
    hide Step, Enabled, Events;
    var one, u := ops[..1], Step(t, ops[0]);
    assert one[0] == ops[0] && one[1..] == [];
    assert Runs(u, []) && Trace(u, []) == [] && Ticks([]) == 0;
    assert Trace(t, one) == Events(t, ops[0]) + Trace(u, one[1..]);
    assert e in Trace(t, one);
  }

  lemma HappensLater(t: Table, ops: seq<Op>, pid: nat, n: nat, ticks: nat)
    requires ops != [] && Enabled(t, ops[0]) && HappensBy(Step(t, ops[0]), ops[1..], pid, n, ticks)
    ensures HappensBy(t, ops, pid, n + 1, ticks + if ops[0].Tick? then 1 else 0)
  {
    hide Step, Enabled, Events;
    var u, more := Step(t, ops[0]), ops[..n + 1];
    assert more[0] == ops[0] && more[1..] == ops[1..][..n];
    assert Trace(t, more) == Events(t, ops[0]) + Trace(u, more[1..]);
    var e :| e in Trace(u, ops[1..][..n]) && e.pid == pid && (e.Resumed? || e.Exited?);
    assert e in Trace(t, more);
  }

  lemma {:induction false} TurnComes(t: Table, ops: seq<Op>, slot: nat) returns (n: nat)
    requires Inv(t) && Runs(t, ops) && slot < MAX_PROCESSES && Shape(t) && Runnable(t.procs[slot])
    requires Ticks(ops) >= Turn(t, slot)
    ensures HappensBy(t, ops, t.procs[slot].pid, n, Turn(t, slot))
    decreases |ops|
  {
    hide Inv, Step, Enabled, Turn, Events, HappensBy, Runnable;
    assert ops != [];
    var op, u, pid := ops[0], Step(t, ops[0]), t.procs[slot].pid;
    StepKeepsInv(t, op);
    HasShape(u);
    if op.Tick? {
      assert u == AfterSchedule(t, op.esp).0 by { TickStep(t, op); }
      TickTurn(t, op.esp, slot);
      if u.current == slot {
        n := 1;
        HappensNow(t, ops, Resumed(pid, u.procs[slot].esp));
        HappensSooner(t, ops, pid, 1, 1, Turn(t, slot));
        return;
      }
    } else {
      RunnableKept(t, op, slot);
      if op.Exit? && slot == t.current {
        n := 1;
        HappensNow(t, ops, Exited(pid, op.code));
        HappensSooner(t, ops, pid, 1, 0, Turn(t, slot));
        return;
      }
      assert Turn(u, slot) == Turn(t, slot) by { SameTurn(t, u, slot); }
    }
    n := TurnComes(u, ops[1..], slot);
    HappensLater(t, ops, pid, n, Turn(u, slot));
    n := n + 1;
    HappensSooner(t, ops, pid, n, Turn(u, slot) + if op.Tick? then 1 else 0, Turn(t, slot));
  }

  lemma SameTurn(t: Table, u: Table, slot: nat)
    requires t.current == u.current < MAX_PROCESSES && slot < MAX_PROCESSES
    ensures Turn(u, slot) == Turn(t, slot)
  {
  }

  lemma HappensSooner(t: Table, ops: seq<Op>, pid: nat, n: nat, ticks: nat, more: nat)
    requires HappensBy(t, ops, pid, n, ticks) && ticks <= more
    ensures HappensBy(t, ops, pid, n, more)
  {
  }

  /** Nobody starves: at any point of any run, every process that was started and has not exited,
      preempted, new or running, is resumed or exits within the next eight schedule calls. */
  lemma NobodyStarves(stackTop: nat, pml4: nat, ops: seq<Op>, more: seq<Op>, pid: nat) returns (n: nat)
    requires stackTop >= FRAME && pml4 != 0 && Runs(BootTable(stackTop, pml4), ops)
    requires Runs(Run(BootTable(stackTop, pml4), ops), more) && Ticks(more) >= 8
    requires InPlay(BootLog(stackTop) + Trace(BootTable(stackTop, pml4), ops), pid)
    ensures HappensBy(Run(BootTable(stackTop, pml4), ops), more, pid, n, 8)
  {
    hide Inv, Tracks, BootTable, LogOk, Run, Trace, Runs, BootLog, InPlay, HappensBy, Turn;
    var t := Run(BootTable(stackTop, pml4), ops);
    EveryRun(stackTop, pml4, ops);
    HasShape(t);
    var i := PlaysInOneSlot(t, BootLog(stackTop) + Trace(BootTable(stackTop, pml4), ops), pid);
    n := TurnComes(t, more, i);
    HappensSooner(t, more, pid, n, Turn(t, i), 8);
  }

  /** A process preempted by a tick runs again within the seven schedule calls after it, from the
      stack pointer that tick put away; at once when no other process is ready. */
  lemma PreemptedReturns(t: Table, ops: seq<Op>) returns (n: nat)
    requires Inv(t) && Runs(t, ops) && ops != [] && ops[0].Tick? && Ticks(ops) >= 8
    requires t.procs[t.current].state == RUNNING
    ensures n < |ops| && Runs(t, ops[..n + 1]) && Ticks(ops[1..][..n]) <= 7
    ensures var u, p := Run(t, ops[..n + 1]), t.procs[t.current];
            && u.current == t.current && u.procs[u.current].state == RUNNING
            && u.procs[u.current].pid == p.pid && u.procs[u.current].esp == ops[0].esp
  {
    hide Inv, Step, Enabled, Distance;
    var u, rest := Step(t, ops[0]), ops[1..];
    StepKeepsInv(t, ops[0]);
    HasShape(t);
    assert u == AfterSchedule(t, ops[0].esp).0 by { TickStep(t, ops[0]); }
    CurrentTurn(t, ops[0].esp);
    n := 0;
    if u.current != t.current {
      n := BoundedWaiting(u, rest, t.current);
    }
    assert ops[..n + 1][0] == ops[0] && ops[..n + 1][1..] == rest[..n];
  }
}
