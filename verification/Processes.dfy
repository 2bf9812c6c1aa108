/** The process table of kernel/process.c as values: one step per timer tick, spawn, exit and wait,
    each leaving a trace of what it did. */
module Processes {
  import opened Wrappers

  const MAX_PROCESSES: nat := 8
  const NOFILE: nat := 16
  const KERNEL_STACK_SIZE: nat := 8192

  datatype ProcState = READY | RUNNING | ZOMBIE | TERMINATED

  // An open file: the inode cache slot it points to, if any.
  datatype File = File(ip: Option<nat>, offset: nat, flags: int)

  const NO_FILE := File(None, 0, 0)

  datatype Process = Process(pid: nat, ppid: nat, exitCode: int, esp: nat, kernelStack: nat, state: ProcState,
                             pml4: nat, heapStart: nat, heapEnd: nat, ofiles: seq<File>)

  // loadedStack and loadedPml4: the stack and page table the processor uses on its next entry.
  datatype Table = Table(procs: seq<Process>, current: nat, nextPid: nat, loadedStack: nat, loadedPml4: nat)

  function NoFiles(): (f: seq<File>)
    ensures |f| == NOFILE && forall i :: 0 <= i < NOFILE ==> f[i] == NO_FILE
  {
    seq(16, i => NO_FILE)
  }

  predicate Shape(t: Table) {
    |t.procs| == MAX_PROCESSES && t.current < MAX_PROCESSES
      && forall i :: 0 <= i < MAX_PROCESSES ==> |t.procs[i].ofiles| == NOFILE
  }

  function InitialTable(): (t: Table)
    ensures Shape(t)
  {
    Table(seq(8, i => Process(0, 0, 0, 0, 0, TERMINATED, 0, 0, 0, NoFiles())), 0, 1, 0, 0)
  }

  function FirstFrom(procs: seq<Process>, i: nat, p: Process -> bool): (r: Option<nat>)
    requires i <= |procs|
    ensures match r
            case None => forall k :: i <= k < |procs| ==> !p(procs[k])
            case Some(j) => i <= j < |procs| && p(procs[j]) && forall k :: i <= k < j ==> !p(procs[k])
    decreases |procs| - i
  {
    if i == |procs| then None else if p(procs[i]) then Some(i) else FirstFrom(procs, i + 1, p)
  }

  function IsFree(): Process -> bool {
    (p: Process) => p.state == TERMINATED
  }

  function HasPid(pid: nat): Process -> bool {
    (p: Process) => p.pid == pid && p.state != TERMINATED
  }

  function IsZombieOf(ppid: nat): Process -> bool {
    (p: Process) => p.ppid == ppid && p.state == ZOMBIE
  }

  function FreeSlot(t: Table): Option<nat> {
    FirstFrom(t.procs, 0, IsFree())
  }

  function ByPid(t: Table, pid: nat): Option<nat> {
    FirstFrom(t.procs, 0, HasPid(pid))
  }

  // The pid recorded as parent: the caller's when one is running.
  function ParentPid(t: Table): nat
    requires Shape(t)
  {
    if t.procs[t.current].state == RUNNING then t.procs[t.current].pid else 0
  }

  // Fifteen zero registers below the five words an interrupt returns through.
  const FRAME: nat := 8 * 20

  function NewProcess(t: Table, stackTop: nat, pml4: nat): Process
    requires Shape(t) && stackTop >= FRAME
  {
    Process(t.nextPid, ParentPid(t), 0, stackTop - FRAME, stackTop, READY, pml4, 0, 0, NoFiles())
  }

  function AfterCreate(t: Table, slot: nat, stackTop: nat, pml4: nat): Table
    requires Shape(t) && slot < MAX_PROCESSES && stackTop >= FRAME
  {
    t.(procs := t.procs[slot := NewProcess(t, stackTop, pml4)], nextPid := t.nextPid + 1)
  }

  function Ahead(t: Table, d: nat): (slot: nat)
    ensures slot < MAX_PROCESSES
  {
    (t.current + d) % MAX_PROCESSES
  }

  predicate ReadyAt(t: Table, d: nat)
    requires Shape(t)
  {
    t.procs[Ahead(t, d)].state == READY
  }

  // The first READY slot after the current one, by distance; the current one itself is not asked.
  function NextReady(t: Table, i: nat): (r: Option<nat>)
    requires Shape(t) && 1 <= i <= MAX_PROCESSES
    ensures match r
            case None => forall k: nat :: i <= k < MAX_PROCESSES ==> !ReadyAt(t, k)
            case Some(d) => i <= d < MAX_PROCESSES && ReadyAt(t, d) && forall k: nat :: i <= k < d ==> !ReadyAt(t, k)
    decreases MAX_PROCESSES - i
  {
    if i == MAX_PROCESSES then None else if ReadyAt(t, i) then Some(i) else NextReady(t, i + 1)
  }

  function Saved(t: Table, esp: nat): (r: Table)
    requires Shape(t)
    ensures Shape(r)
  {
    if t.procs[t.current].state == RUNNING then t.(procs := t.procs[t.current := t.procs[t.current].(esp := esp)])
      else t
  }

  // Slot next runs, on its own kernel stack and page table.
  function Activated(t: Table, next: nat): (r: Table)
    requires Shape(t) && next < MAX_PROCESSES
    ensures Shape(r)
  {
    t.(current := next, procs := t.procs[next := t.procs[next].(state := RUNNING)],
       loadedStack := t.procs[next].kernelStack,
       loadedPml4 := if t.procs[next].pml4 != 0 then t.procs[next].pml4 else t.loadedPml4)
  }

  function AfterSwitch(t: Table, next: nat): (r: Table)
    requires Shape(t) && next < MAX_PROCESSES
    ensures Shape(r)
  {
    var p := t.procs[t.current];
    Activated(t.(procs := t.procs[t.current := p.(state := if p.state == RUNNING then READY else p.state)]), next)
  }

  // What schedule leaves, and the stack pointer to return to; None when it halts.
  function AfterSchedule(t: Table, esp: nat): (r: (Table, Option<nat>))
    requires Shape(t)
    ensures Shape(r.0)
  {
    var s := Saved(t, esp);
    match NextReady(s, 1)
    case Some(d) =>
      var next := Ahead(s, d);
      (AfterSwitch(s, next), Some(s.procs[next].esp))
    case None =>
      var p := s.procs[s.current];
      if p.state != TERMINATED && p.state != ZOMBIE then
        (s.(procs := s.procs[s.current := p.(state := RUNNING)]), Some(p.esp))
      else (s, None)
  }

  function AfterExit(t: Table, code: int): (r: Table)
    requires Shape(t)
    ensures Shape(r)
  {
    t.(procs := t.procs[t.current := t.procs[t.current].(exitCode := code, state := ZOMBIE)])
  }

  function ZombieChild(t: Table): Option<nat>
    requires Shape(t)
  {
    FirstFrom(t.procs, 0, IsZombieOf(t.procs[t.current].pid))
  }

  function AfterReap(t: Table, slot: nat): (r: Table)
    requires Shape(t) && slot < MAX_PROCESSES
    ensures Shape(r)
  {
    t.(procs := t.procs[slot := t.procs[slot].(state := TERMINATED, pid := 0, ppid := 0, exitCode := 0)])
  }

  // Open, close, dup, dup2 and brk touch only these fields of the caller.
  function AfterUpdate(t: Table, ofiles: seq<File>, heapStart: nat, heapEnd: nat): Table
    requires Shape(t)
  {
    t.(procs := t.procs[t.current := t.procs[t.current].(ofiles := ofiles, heapStart := heapStart, heapEnd := heapEnd)])
  }

  /** One atomic step. A spawn that fails after its process was made leaves the slot free again,
      its pid used up. */
  datatype Op =
    | Tick(esp: nat)
    | Spawn(stackTop: nat, pml4: nat, loads: bool, inherited: seq<File>)
    | Exit(code: int)
    | Wait
    | Update(ofiles: seq<File>, heapStart: nat, heapEnd: nat)

  // Exit, wait and the descriptor calls come from a running process; pids have not wrapped.
  predicate Enabled(t: Table, op: Op) {
    Shape(t) &&
    match op
    case Tick(_) => true
    case Spawn(top, pml4, _, inherited) =>
      t.nextPid < 0x1_0000_0000 && top >= FRAME && pml4 != 0 && t.procs[t.current].state == RUNNING
        && |inherited| == NOFILE
    case Exit(_) => t.procs[t.current].state == RUNNING
    case Wait => t.procs[t.current].state == RUNNING
    case Update(f, _, _) => t.procs[t.current].state == RUNNING && |f| == NOFILE
  }

  function AfterSpawn(t: Table, slot: nat, op: Op): (r: Table)
    requires Enabled(t, op) && op.Spawn? && slot < MAX_PROCESSES
    ensures Shape(r)
  {
    var c := AfterCreate(t, slot, op.stackTop, op.pml4);
    var p := c.procs[slot].(ofiles := op.inherited);
    c.(procs := c.procs[slot := if op.loads then p else p.(state := TERMINATED)])
  }

  function Step(t: Table, op: Op): (r: Table)
    requires Enabled(t, op)
    ensures Shape(r)
  {
    match op
    case Tick(esp) => AfterSchedule(t, esp).0
    case Spawn(_, _, _, _) => (match FreeSlot(t) case None => t case Some(slot) => AfterSpawn(t, slot, op))
    case Exit(code) => AfterExit(t, code)
    case Wait => (match ZombieChild(t) case None => t case Some(slot) => AfterReap(t, slot))
    case Update(f, s, e) => AfterUpdate(t, f, s, e)
  }

  datatype Event =
    | Born(pid: nat, creator: nat)      // made by the running process creator
    | Parked(pid: nat, esp: nat)        // its stack pointer was put away
    | Resumed(pid: nat, esp: nat)
    | Exited(pid: nat, code: int)
    | Reaped(pid: nat, waiter: nat, code: int)

  // What a step shows to the outside.
  function Events(t: Table, op: Op): seq<Event>
    requires Enabled(t, op)
  {
    var p := t.procs[t.current];
    match op
    case Tick(esp) =>
      var s, (u, r) := Saved(t, esp), AfterSchedule(t, esp);
      (if p.state == RUNNING then [Parked(p.pid, esp)] else [])
      + (if r.Some? then [Resumed(u.procs[u.current].pid, r.value)] else [])
    case Spawn(top, _, loads, _) =>
      if FreeSlot(t).Some? && loads then [Born(t.nextPid, p.pid), Parked(t.nextPid, top - FRAME)] else []
    case Exit(code) => [Exited(p.pid, code)]
    case Wait =>
      (match ZombieChild(t)
       case None => []
       case Some(slot) => [Reaped(t.procs[slot].pid, p.pid, t.procs[slot].exitCode)])
    case Update(_, _, _) => []
  }

  // Every step of the run is enabled where it is taken.
  predicate Runs(t: Table, ops: seq<Op>)
    decreases |ops|
  {
    ops == [] || (Enabled(t, ops[0]) && Runs(Step(t, ops[0]), ops[1..]))
  }

  function Run(t: Table, ops: seq<Op>): (r: Table)
    requires Runs(t, ops)
    ensures Shape(t) ==> Shape(r)
    decreases |ops|
  {
    if ops == [] then t else Run(Step(t, ops[0]), ops[1..])
  }

  function Trace(t: Table, ops: seq<Op>): seq<Event>
    requires Runs(t, ops)
    decreases |ops|
  {
    if ops == [] then [] else Events(t, ops[0]) + Trace(Step(t, ops[0]), ops[1..])
  }
}
