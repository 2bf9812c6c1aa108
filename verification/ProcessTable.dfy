/** kernel/process.c and the wait4 case of kernel/syscall.c, on the array of eight processes. Each
    method does to the table what the step of that name in Processes says. */
module ProcessTables {
  import opened Wrappers
  import opened Processes
  import opened Scheduling

  const STACK_WORDS: nat := 1024

  function Zeros(n: nat): (s: seq<nat>)
    ensures |s| == n
  {
    seq<nat>(n, i => 0)
  }

  lemma OneMoreZero(n: nat, rest: seq<nat>)
    ensures [0] + (Zeros(n) + rest) == Zeros(n + 1) + rest
  {
    assert [0] + Zeros(n) == Zeros(n + 1);
  }

  // What create_process pushes, from the lowest word up: fifteen registers, then RIP, CS, RFLAGS,
  // RSP and SS for the return to user mode.
  function InitialFrame(entry: nat, userTop: nat): (f: seq<nat>)
    ensures |f| == 20 && forall k :: 0 <= k < 15 ==> f[k] == 0
    ensures f[15] == entry && f[16] == 0x23 && f[17] == 0x202 && f[18] == userTop && f[19] == 0x1B
  {
    Zeros(15) + [entry, 0x23, 0x202, userTop, 0x1B]
  }

  // A word pushed.
  function Push(s: seq<nat>, n: nat, v: nat): (r: seq<nat>)
    requires |s| == STACK_WORDS && n < STACK_WORDS
    ensures |r| == STACK_WORDS
    ensures r[STACK_WORDS - n - 1..] == [v] + s[STACK_WORDS - n..]
    ensures r[..STACK_WORDS - n - 1] == s[..STACK_WORDS - n - 1]
  {
    s[STACK_WORDS - n - 1 := v]
  }

  // A word of the twenty at the top.
  function WithWord(s: seq<nat>, word: nat, v: nat): (r: seq<nat>)
    requires |s| == STACK_WORDS && word < 20
    ensures |r| == STACK_WORDS
  {
    s[STACK_WORDS - 20 + word := v]
  }

  class ProcessTable {
    const kernelStacks: nat
    const userStacks: nat
    const procs: array<Process>
    var current: nat
    var nextPid: nat
    var loadedStack: nat
    var loadedPml4: nat
    var stacks: seq<seq<nat>>     // the words of each slot's kernel stack

    ghost function St(): Table
      reads this, procs
    {
      Table(procs[..], current, nextPid, loadedStack, loadedPml4)
    }

    ghost predicate Valid()
      reads this, procs
    {
      && procs.Length == MAX_PROCESSES && Shape(St()) && |stacks| == MAX_PROCESSES
      && forall i :: 0 <= i < MAX_PROCESSES ==> |stacks[i]| == STACK_WORDS
    }

    function StackTop(slot: nat): (a: nat)
      ensures a > FRAME
    {
      kernelStacks + KERNEL_STACK_SIZE * (slot + 1)
    }

    constructor (kernelStacks: nat, userStacks: nat)
      ensures Valid() && fresh(procs) && St() == InitialTable()
      ensures this.kernelStacks == kernelStacks && this.userStacks == userStacks
    {
      this.kernelStacks, this.userStacks := kernelStacks, userStacks;
      procs := new Process[8](i => Process(0, 0, 0, 0, 0, TERMINATED, 0, 0, 0, NoFiles()));
      current, nextPid, loadedStack, loadedPml4 := 0, 1, 0, 0;
      stacks := seq(8, i => seq(STACK_WORDS, j => 0));
      new;
      assert procs[..] == InitialTable().procs;
    }

    method SchedulerInit()
      requires Valid()
      modifies this`current, this`nextPid, procs
      ensures Valid()
      ensures St() == InitialTable().(loadedStack := loadedStack, loadedPml4 := loadedPml4)
    {
      var i := 0;
      while i < MAX_PROCESSES
        invariant 0 <= i <= MAX_PROCESSES && Valid() && stacks == old(stacks)
        invariant forall k :: 0 <= k < i ==> procs[k] == InitialTable().procs[k]
      {
        procs[i] := Process(0, 0, 0, 0, 0, TERMINATED, 0, 0, 0, procs[i].ofiles);
        var j := 0;
        while j < NOFILE
          invariant 0 <= j <= NOFILE && Valid() && stacks == old(stacks)
          invariant procs[i] == Process(0, 0, 0, 0, 0, TERMINATED, 0, 0, 0, procs[i].ofiles)
          invariant forall k :: 0 <= k < j ==> procs[i].ofiles[k] == NO_FILE
          invariant forall k :: 0 <= k < i ==> procs[k] == InitialTable().procs[k]
        {
          procs[i] := procs[i].(ofiles := procs[i].ofiles[j := NO_FILE]);
          j := j + 1;
        }
        assert procs[i].ofiles == NoFiles();
        i := i + 1;
      }
      current, nextPid := 0, 1;
      assert procs[..] == InitialTable().procs;
    }

    /** The first slot in use with that pid. */
    method GetProcessByPid(pid: nat) returns (r: Option<nat>)
      requires Valid()
      ensures r == ByPid(St(), pid)
      ensures match r
              case None => forall i :: 0 <= i < MAX_PROCESSES && procs[i].pid == pid ==> procs[i].state == TERMINATED
              case Some(i) => i < MAX_PROCESSES && procs[i].pid == pid && procs[i].state != TERMINATED
    {
      ghost var f := HasPid(pid);
      var i := 0;
      while i < MAX_PROCESSES
        invariant 0 <= i <= MAX_PROCESSES && FirstFrom(procs[..], 0, f) == FirstFrom(procs[..], i, f)
      {
        if procs[i].pid == pid && procs[i].state != TERMINATED {
          return Some(i);
        }
        i := i + 1;
      }
      return None;
    }

    // uint32_t as int.
    function AsInt(pid: nat): int {
      if pid < 0x8000_0000 then pid else pid - 0x1_0000_0000
    }

    // The search create_process begins with.
    method FindFree() returns (r: Option<nat>)
      requires Valid()
      ensures r == FreeSlot(St())
    {
      ghost var free := IsFree();
      var i := 0;
      while i < MAX_PROCESSES
        invariant 0 <= i <= MAX_PROCESSES && FirstFrom(procs[..], 0, free) == FirstFrom(procs[..], i, free)
      {
        if procs[i].state == TERMINATED {
          return Some(i);
        }
        i := i + 1;
      }
      return None;
    }

    /** A new READY process in the first free slot, with a first frame on its kernel stack. pml4 is
        what create_user_pml4 returned. */
    method CreateProcess(entry: nat, pml4: nat) returns (pid: int)
      requires Valid() && nextPid < 0x1_0000_0000
      modifies this`nextPid, this`stacks, procs
      ensures Valid()
      ensures match FreeSlot(old(St()))
              case None => pid == -1 && St() == old(St()) && stacks == old(stacks)
              case Some(slot) =>
                if pml4 == 0 then pid == -1 && St() == old(St()) && stacks == old(stacks)
                else && pid == AsInt(old(nextPid)) && St() == AfterCreate(old(St()), slot, StackTop(slot), pml4)
                     && stacks == old(stacks)[slot := stacks[slot]]
                     && stacks[slot][STACK_WORDS - 20..] == InitialFrame(entry, userStacks + 16384 * (slot + 1))
                     && var p := procs[slot];
                        && p.pid == old(nextPid) && p.state == READY && p.pml4 == pml4 && p.exitCode == 0
                        && p.kernelStack == kernelStacks + 8192 * (slot + 1) && p.esp == p.kernelStack - 160
      ensures nextPid == old(nextPid) <==>
                pml4 == 0 || forall i :: 0 <= i < MAX_PROCESSES ==> old(procs[i].state) != TERMINATED
    {
      var found := FindFree();
      if found.None? {
        return -1;
      }
      var idx := found.value;
      if pml4 == 0 {
        return -1;
      }
      var userTop := userStacks + 16384 * (idx + 1);
      var esp := PushFrame(idx, entry, userTop);
      var caller := procs[current];
      var ppid := if caller.state == RUNNING then caller.pid else 0;
      pid := AsInt(nextPid);
      procs[idx] := Process(nextPid, ppid, 0, esp, StackTop(idx), READY, pml4, 0, 0, NoFiles());
      nextPid := nextPid + 1;
      assert procs[..] == old(procs[..])[idx := NewProcess(old(St()), StackTop(idx), pml4)];
    }

    method PushFrame(idx: nat, entry: nat, userTop: nat) returns (esp: nat)
      requires Valid() && idx < MAX_PROCESSES
      modifies this`stacks
      ensures Valid() && esp == StackTop(idx) - FRAME
      ensures stacks == old(stacks)[idx := stacks[idx]]
      ensures stacks[idx][STACK_WORDS - 20..] == InitialFrame(entry, userTop)
    {
      var s := PushReturn(stacks[idx], entry, userTop);
      s := PushRegisters(s, [entry, 0x23, 0x202, userTop, 0x1B]);
      stacks := stacks[idx := s];
      esp := StackTop(idx) - FRAME;
    }

    // SS, RSP, RFLAGS, CS and RIP.
    static method PushReturn(stack: seq<nat>, entry: nat, userTop: nat) returns (s: seq<nat>)
      requires |stack| == STACK_WORDS
      ensures |s| == STACK_WORDS && s[STACK_WORDS - 5..] == [entry, 0x23, 0x202, userTop, 0x1B]
    {
      s := Push(stack, 0, 0x1B);
      s := Push(s, 1, userTop);
      s := Push(s, 2, 0x202);
      s := Push(s, 3, 0x23);
      s := Push(s, 4, entry);
    }

    static method PushRegisters(stack: seq<nat>, ghost above: seq<nat>) returns (s: seq<nat>)
      requires |stack| == STACK_WORDS && |above| == 5 && stack[STACK_WORDS - 5..] == above
      ensures |s| == STACK_WORDS && s[STACK_WORDS - 20..] == Zeros(15) + above
    {
      hide Zeros;
      s := stack;
      var i := 0;
      assert above == Zeros(0) + above;
      while i < 15
        invariant 0 <= i <= 15 && |s| == STACK_WORDS && s[STACK_WORDS - 5 - i..] == Zeros(i) + above
      {
        s := Push(s, 5 + i, 0);
        OneMoreZero(i, above);
        i := i + 1;
      }
    }

    // A word of the first frame set, for a process not yet run.
    method SetWord(idx: nat, word: nat, v: nat)
      requires Valid() && idx < MAX_PROCESSES && word < 20
      modifies this`stacks
      ensures Valid() && St() == old(St())
      ensures stacks == old(stacks)[idx := WithWord(old(stacks)[idx], word, v)]
    {
      stacks := stacks[idx := WithWord(stacks[idx], word, v)];
    }

    /** The process will start at the entry point given. */
    method SetProcessEntry(idx: nat, entry: nat)
      requires Valid() && idx < MAX_PROCESSES
      requires procs[idx].esp == procs[idx].kernelStack - FRAME && procs[idx].esp != 0
      modifies this`stacks
      ensures Valid() && St() == old(St())
      ensures forall userTop, e ::
                old(stacks)[idx][STACK_WORDS - 20..] == InitialFrame(e, userTop) ==>
                stacks[idx][STACK_WORDS - 20..] == InitialFrame(entry, userTop)
      ensures forall k :: 0 <= k < MAX_PROCESSES && k != idx ==> stacks[k] == old(stacks)[k]
    {
      SetWord(idx, 15, entry);
      forall userTop, e | old(stacks)[idx][STACK_WORDS - 20..] == InitialFrame(e, userTop)
        ensures stacks[idx][STACK_WORDS - 20..] == InitialFrame(entry, userTop)
      {
        assert InitialFrame(entry, userTop) == InitialFrame(e, userTop)[15 := entry];
      }
    }

    /** The process will find argc and argv in the registers that hold its arguments. */
    method SetProcessArgv(idx: nat, argc: nat, argv: nat)
      requires Valid() && idx < MAX_PROCESSES
      requires procs[idx].esp == procs[idx].kernelStack - FRAME && procs[idx].esp != 0
      modifies this`stacks
      ensures Valid() && St() == old(St())
      ensures stacks == old(stacks)[idx := WithWord(WithWord(old(stacks)[idx], 9, argc), 10, argv)]
    {
      SetWord(idx, 9, argc);
      SetWord(idx, 10, argv);
    }

    method ActivateProcess(idx: nat)
      requires Valid() && idx < MAX_PROCESSES
      modifies this`current, this`loadedStack, this`loadedPml4, procs
      ensures Valid() && St() == Activated(old(St()), idx)
    {
      current := idx;
      procs[idx] := procs[idx].(state := RUNNING);
      loadedStack := procs[idx].kernelStack;
      if procs[idx].pml4 != 0 {
        loadedPml4 := procs[idx].pml4;
      }
      assert procs[..] == Activated(old(St()), idx).procs;
    }

    // The loop of schedule: how far on the next READY slot is.
    method FindNext() returns (r: Option<nat>)
      requires Valid()
      ensures r == NextReady(St(), 1)
    {
      var i := 1;
      while i < MAX_PROCESSES
        invariant 1 <= i <= MAX_PROCESSES && NextReady(St(), 1) == NextReady(St(), i)
      {
        var idx := (current + i) % MAX_PROCESSES;
        assert idx == Ahead(St(), i);
        if procs[idx].state == READY {
          return Some(i);
        }
        i := i + 1;
      }
      return None;
    }

    // esp saved, for a process that was running.
    method Save(esp: nat)
      requires Valid()
      modifies procs
      ensures Valid() && St() == Processes.Saved(old(St()), esp)
    {
      if procs[current].state == RUNNING {
        procs[current] := procs[current].(esp := esp);
      }
      assert procs[..] == Processes.Saved(old(St()), esp).procs;
    }

    method SwitchTo(idx: nat)
      requires Valid() && idx < MAX_PROCESSES
      modifies this`current, this`loadedStack, this`loadedPml4, procs
      ensures Valid() && St() == AfterSwitch(old(St()), idx)
    {
      ghost var t := St();
      if procs[current].state == RUNNING {
        procs[current] := procs[current].(state := READY);
      }
      ghost var p := t.procs[t.current];
      assert procs[..] == t.procs[t.current := p.(state := if p.state == RUNNING then READY else p.state)];
      ActivateProcess(idx);
    }

    /** Puts the running process's stack pointer away and resumes the next READY one; None is the
        halt with nothing to run. */
    method Schedule(esp: nat) returns (r: Option<nat>)
      requires Valid()
      modifies this`current, this`loadedStack, this`loadedPml4, procs
      ensures Valid() && (St(), r) == AfterSchedule(old(St()), esp)
      ensures nextPid == old(nextPid) && stacks == old(stacks)
      ensures forall i :: 0 <= i < MAX_PROCESSES ==>
                && procs[i] == old(procs[i]).(state := procs[i].state, esp := procs[i].esp)
                && (i == old(current) || i == current || procs[i] == old(procs[i]))
    {
      hide AfterSwitch, Processes.Saved, NextReady;
      ghost var t := St();
      TickTouches(t, esp);
      Save(esp);
      ghost var s := St();
      var next := FindNext();
      if next.Some? {
        var idx := (current + next.value) % MAX_PROCESSES;
        assert idx == Ahead(s, next.value);
        SwitchTo(idx);
        SwitchedEsp(s, idx);
        return Some(procs[current].esp);
      }
      if procs[current].state != TERMINATED && procs[current].state != ZOMBIE {
        procs[current] := procs[current].(state := RUNNING);
        assert procs[..] == s.procs[s.current := s.procs[s.current].(state := RUNNING)];
        return Some(procs[current].esp);
      }
      return None;
    }

    method ExitCurrentProcess(code: int)
      requires Valid()
      modifies procs
      ensures Valid() && St() == AfterExit(old(St()), code)
      ensures procs[..] == old(procs[..])[current := old(procs[current]).(exitCode := code, state := ZOMBIE)]
    {
      procs[current] := procs[current].(exitCode := code);
      procs[current] := procs[current].(state := ZOMBIE);
      assert procs[..] == AfterExit(old(St()), code).procs;
    }

    /** The pid and exit code of the caller's first zombie child, whose slot is freed; None when it
        has none. */
    method Wait4() returns (r: Option<(nat, int)>)
      requires Valid()
      modifies procs
      ensures Valid()
      ensures match ZombieChild(old(St()))
              case None => r == None && St() == old(St())
              case Some(slot) =>
                r == Some((old(St()).procs[slot].pid, old(St()).procs[slot].exitCode))
                  && St() == AfterReap(old(St()), slot)
      ensures r == None <==> forall i :: 0 <= i < MAX_PROCESSES ==>
                old(procs[i].ppid) != old(procs[current].pid) || old(procs[i].state) != ZOMBIE
      ensures r.Some? ==> exists i :: ReapedAt(old(St()), St(), i, r.value.0, r.value.1)
    {
      var pid := procs[current].pid;
      ghost var child := IsZombieOf(pid);
      var found: Option<nat> := None;
      var i := 0;
      while i < MAX_PROCESSES
        invariant 0 <= i <= MAX_PROCESSES && FirstFrom(procs[..], 0, child) == FirstFrom(procs[..], i, child)
      {
        if procs[i].ppid == pid && procs[i].state == ZOMBIE {
          found := Some(i);
          break;
        }
        i := i + 1;
      }
      if found.None? {
        assert ZombieChild(St()) == None;
        return None;
      }
      var slot: nat := found.value;
      assert ZombieChild(St()) == Some(slot);
      r := Some((procs[slot].pid, procs[slot].exitCode));
      procs[slot] := procs[slot].(state := TERMINATED, pid := 0, ppid := 0, exitCode := 0);
      assert procs[..] == AfterReap(old(St()), slot).procs;
      assert ReapedAt(old(St()), St(), slot, r.value.0, r.value.1);
    }
  }

  // Slot i, the first of a zombie of the current process, is free; no other slot changed.
  ghost predicate ReapedAt(t: Table, u: Table, i: nat, pid: nat, code: int) {
    && Shape(t) && i < |t.procs| && t.procs[i].state == ZOMBIE && t.procs[i].ppid == t.procs[t.current].pid
    && t.procs[i].pid == pid && t.procs[i].exitCode == code
    && (forall k :: 0 <= k < i && t.procs[k].state == ZOMBIE ==> t.procs[k].ppid != t.procs[t.current].pid)
    && u == t.(procs := u.procs) && |u.procs| == |t.procs| && u.procs[i].state == TERMINATED
    && u.procs[i].ofiles == t.procs[i].ofiles
    && forall k :: 0 <= k < |t.procs| && k != i ==> u.procs[k] == t.procs[k]
  }

  // A schedule call changes states, and the stack pointer of the process it preempts; it touches no
  // slot but that one and the one it resumes.
  lemma TickTouches(t: Table, esp: nat)
    requires Shape(t)
    ensures var u := AfterSchedule(t, esp).0;
            && u.nextPid == t.nextPid
            && forall i :: 0 <= i < MAX_PROCESSES ==>
                 && u.procs[i] == t.procs[i].(state := u.procs[i].state, esp := u.procs[i].esp)
                 && (i == t.current || i == u.current || u.procs[i] == t.procs[i])
  {
    hide Ahead, NextReady;
  }

  lemma SwitchedEsp(t: Table, idx: nat)
    requires Shape(t) && idx < MAX_PROCESSES
    ensures var u := AfterSwitch(t, idx); u.current == idx && u.procs[idx].esp == t.procs[idx].esp
  {
  }

  /** get_process_by_pid finds the process create_process just made. */
  lemma CreatedByPid(t: Table, slot: nat, stackTop: nat, pml4: nat)
    requires Inv(t) && FreeSlot(t) == Some(slot) && stackTop >= FRAME
    ensures ByPid(AfterCreate(t, slot, stackTop, pml4), t.nextPid) == Some(slot)
  {
    var u, f := AfterCreate(t, slot, stackTop, pml4), HasPid(t.nextPid);
    assert f(u.procs[slot]);
    forall k | 0 <= k < MAX_PROCESSES && k != slot
      ensures !f(u.procs[k])
    {
    }
  }
}
