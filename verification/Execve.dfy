/** execve from end to end, spawn_from_xv6fs of kernel/syscall.c: a path, the file it leads to, the
    process made of it and the address space that process sees. */
module Execve {
  import opened Bits
  import opened Codec
  import opened Inodes
  import opened Paths
  import opened CreateUnlink
  import opened OpenFiles
  import opened Processes
  import opened Scheduling
  import opened ProcessTables
  import opened Descriptors
  import PageTables
  import Pmm
  import Vmm
  import Paging
  import Elf
  import Heap
  import ProcessImage

  // The checks made on the load buffer before a process is made.
  predicate ElfStart(b: seq<byte>)
    requires |b| >= 20
  {
    b[0] == 0x7F && b[1] == 0x45 && b[2] == 0x4C && b[3] == 0x46 && b[4] == 2 && Field(b, 18, 2) == 62
  }

  // What the load buffer holds once the file is read over what it held before.
  function Buffer(file: seq<byte>, stale: seq<byte>): (b: seq<byte>)
    ensures |b| >= |stale| && |b| >= |file|
  {
    if |file| <= |stale| then file + stale[|file|..] else file
  }

  lemma StartsRight(file: seq<byte>, stale: seq<byte>)
    requires Elf.HeaderOk(file) && |stale| >= 20
    ensures ElfStart(Buffer(file, stale))
  {
    var b := Buffer(file, stale);
    assert b[18..18 + 2] == file[18..18 + 2];
    FieldFrom(b, 18, file, 18, 2);
  }

  /** When execve makes a running process of the file. */
  ghost predicate Starts(st: State, path: Path, cwd: nat, t: Table, free: nat) {
    ExecutableFile(st, path, cwd) && StartsWith(Program(st, path, cwd), t, free)
  }

  ghost predicate StartsWith(file: seq<byte>, t: Table, free: nat) {
    && Elf.Loadable(file) && FreeSlot(t).Some? && t.nextPid < 0x8000_0000
    && free >= 6 + Elf.FileNoticed(ProcessImage.BootSteps(), file, Elf.PhNum(file))
  }

  // The first frame resumes at e_entry, bytes 24 to 31 of the file: RIP is the fifth word from the
  // top, below which fifteen registers are zero.
  predicate StartsInFile(stack: seq<nat>, file: seq<byte>) {
    |stack| == 1024 && |file| >= 32 && stack[1004] == 0 && stack[1019] == Number8(file[24..32])
  }

  // What a process just started sees: the file's bytes on its segments' pages, the identity map
  // elsewhere, and no heap; or one page is left out for want of a frame nobody asked about.
  ghost predicate Sees(vm: Vmm.AddressSpaces, p: Heap.Process, file: seq<byte>, free: nat)
    requires Elf.Loadable(file)
    reads vm, vm.pmm, vm.pmm.bitmap, p
  {
    && Heap.HeapOk(vm, p) && p.heapStart == 0
    && if free >= 6 + Elf.FileFrames(ProcessImage.BootSteps(), file, Elf.PhNum(file))
       then forall va: nat :: va < PageTables.ADDRESS_SPACE ==> ProcessImage.AddressOk(file, vm.mem, p.pml4, va)
       else ProcessImage.PageLeftOut(file, vm.mem, p.pml4)
  }

  // The address space of a process to be, if there is a slot for it: create_user_pml4, and the
  // loader unless the pid reads as negative and the process is given up before.
  method Prepare(vm: Vmm.AddressSpaces, b: Paging.BootTables, table: ProcessTable, file: seq<byte>)
    returns (pml4: nat, loads: bool, p: Heap.Process)
    requires ProcessImage.Booted(vm, b) && Elf.Fits(file) && table.Valid()
    modifies vm`mem, vm.pmm, vm.pmm.bitmap
    ensures ProcessImage.Booted(vm, b) && pml4 == p.pml4
    ensures loads && pml4 != 0 && FreeSlot(table.St()).Some? && table.nextPid < 0x8000_0000 <==>
            && Elf.Loadable(file) && FreeSlot(table.St()).Some? && table.nextPid < 0x8000_0000
            && old(vm.pmm.FreeCount()) >= 6 + Elf.FileNoticed(ProcessImage.BootSteps(), file, Elf.PhNum(file))
    ensures loads ==> pml4 != 0 && Elf.Loadable(file)
    ensures loads && ProcessImage.Placeable(file) ==> Sees(vm, p, file, old(vm.pmm.FreeCount()))
    ensures Vmm.Confined(old(vm.mem), map[], old(vm.pmm.used), vm.mem, p.own, vm.pmm.used)
  {
    hide Elf.Loadable, Elf.FileNoticed, Elf.FileFrames, ProcessImage.AddressOk, ProcessImage.Booted;
    loads := false;
    Vmm.ConfinedAsIs(vm.mem, map[], vm.pmm.used);
    var slot := table.FindFree();
    if slot.None? {
      p := new Heap.Process(0, map[]);
      return 0, false, p;
    }
    if table.nextPid < 0x8000_0000 {
      var ret;
      ghost var placed;
      ret, p, placed := ProcessImage.StartProcess(vm, b, file);
      return p.pml4, ret == 0, p;
    }
    ghost var own;
    pml4, own := ProcessImage.Fork(vm, b);
    p := new Heap.Process(pml4, own);
  }

  // The file, if there is one of an acceptable size with the right first bytes; if not, no process is
  // to be made of what the path leads to.
  method Accept(sys: System, path: Path, stale: seq<byte>) returns (r: Outcome, file: seq<byte>)
    requires sys.Valid() && sys.Calling() && FromTree(sys.fs, sys.tree, sys.cwd, path) && |stale| == MAX_ELF_SIZE
    requires !NamesDevice(sys.fs.St(), path, sys.fs.icache[sys.cwd].inum)
    modifies sys.fs, sys.fs.disk
    ensures r.Halted? ==> Exhausted(sys.fs, old(sys.fs.St()))
    ensures r.Returned? ==> sys.fs.St() == old(sys.fs.St())
    ensures r.Returned? ==> sys.cwd < |sys.fs.icache| && sys.fs.icache[sys.cwd].inum == old(sys.fs.icache[sys.cwd].inum)
    ensures r.Returned? ==> Files(sys.fs, sys.tree, Holders(sys.table.St(), sys.cwd), sys.cwd)
    ensures r.Returned? ==> Steady(old(sys.fs.St()), old(sys.fs.icache), sys.fs.St(), sys.fs.icache,
                                   Holders(sys.table.St(), sys.cwd), {})
    ensures r.Returned? && r.value == 0 ==>
              && ExecutableFile(old(sys.fs.St()), path, old(sys.fs.icache[sys.cwd].inum))
              && file == Program(old(sys.fs.St()), path, old(sys.fs.icache[sys.cwd].inum))
    ensures r.Returned? && r.value != 0 ==> forall t, free ::
              !Starts(old(sys.fs.St()), path, old(sys.fs.icache[sys.cwd].inum), t, free)
  {
    hide Inv, FilesHeld, ProcsHeld, Files, Steady, Holders, ExecutableFile, Exhausted, Program, Elf.Loadable, Field,
        Starts, ElfStart, NamesDevice, FromTree;
    sys.CwdCounted();
    ghost var a, c := sys.fs.St(), sys.fs.icache;
    r, file := sys.ReadProgram(path);
    if r.Halted? {
      return;
    }
    SteadyInum(a, c, sys.fs.St(), sys.fs.icache, Holders(sys.table.St(), sys.cwd), {}, sys.cwd);
    if r.value != 0 || !ElfStart(Buffer(file, stale)) {
      NoHeaderNoLoad(file, stale);
      forall t, free
        ensures !Starts(a, path, c[sys.cwd].inum, t, free)
      {
        NeverStarts(a, path, c[sys.cwd].inum, t, free, file);
      }
      r := Returned(-1);
    }
  }

  // From the file to the process, which starts where the file says.
  method StartFile(sys: System, vm: Vmm.AddressSpaces, b: Paging.BootTables, file: seq<byte>, ghost a: Snapshot)
    returns (r: int, p: Heap.Process, ghost slot: nat, ghost loads: bool)
    requires sys.table.Valid() && Inv(sys.table.St()) && sys.Calling() && sys.table.nextPid < 0x1_0000_0000
    requires Files(sys.fs, sys.tree, Holders(sys.table.St(), sys.cwd), sys.cwd)
    requires a.table == sys.table.St() && a.cwd == sys.cwd && sys.cwd in Holders(sys.table.St(), sys.cwd)
    requires Steady(a.st, a.icache, sys.fs.St(), sys.fs.icache, Holders(sys.table.St(), sys.cwd), {})
    requires ProcessImage.Booted(vm, b) && Elf.Fits(file)
    modifies sys.fs`icache, sys.table`nextPid, sys.table`stacks, sys.table.procs
    modifies vm`mem, vm.pmm, vm.pmm.bitmap
    ensures ProcessImage.Booted(vm, b)
    ensures Vmm.Confined(old(vm.mem), map[], old(vm.pmm.used), vm.mem, p.own, vm.pmm.used)
    ensures sys.Valid() && sys.Calling() && Kept(a, sys.Now(), {}) && sys.fs.St() == old(sys.fs.St())
    ensures Exec(old(sys.table.St()), sys.table.St(), slot, sys.table.StackTop(slot), p.pml4, loads, r)
    ensures r >= 0 ==> Child(old(sys.table.St()), sys.table.St(), slot, r)
    ensures r >= 0 <==> StartsWith(file, old(sys.table.St()), old(vm.pmm.FreeCount()))
    ensures r >= 0 ==> Elf.Loadable(file) && slot < |sys.table.stacks| && StartsInFile(sys.table.stacks[slot], file)
    ensures r >= 0 && ProcessImage.Placeable(file) ==> Sees(vm, p, file, old(vm.pmm.FreeCount()))
  {
    hide Inv, FilesHeld, ProcsHeld, Files, Steady, Holders, Kept, Exec, FirstFrom, IsFree, Elf.Loadable, Field;
    hide Child, StartsAt, StartsInFile, Entry, FreeSlot, Elf.FileNoticed, Elf.Fits, Sees, Vmm.Confined;
    hide ProcessImage.Placeable, Pmm.FrameAllocator.Valid, Paging.BootMapped;
    var pml4, ok;
    pml4, ok, p := Prepare(vm, b, sys.table, file);
    loads := ok;
    r, slot := sys.MakeProcess(pml4, ok, if ok then Entry(file) else 0, a);
    if r >= 0 {
      EntryBytes(sys.table.stacks[slot], file);
    }
  }

  /** execve. It succeeds exactly when the path leads to a file of an acceptable size that passes
      the loader's checks, a slot and a positive pid are left, and the loader finds the frames it
      asks for. The new process then starts at the file's entry point, has the caller's standard
      descriptors, and sees the file as it is on disk; everything held stays held. buffer is what
      the static load buffer held before. */
  method SpawnFromXv6fs(sys: System, vm: Vmm.AddressSpaces, b: Paging.BootTables, path: Path, stale: seq<byte>)
    returns (r: Outcome, p: Heap.Process, ghost slot: nat, ghost loads: bool)
    requires sys.Valid() && sys.Calling() && sys.table.nextPid < 0x1_0000_0000
    requires FromTree(sys.fs, sys.tree, sys.cwd, path)
    requires ProcessImage.Booted(vm, b) && |stale| == MAX_ELF_SIZE
    requires !NamesDevice(sys.fs.St(), path, sys.fs.icache[sys.cwd].inum)
    requires Elf.Fits(Program(sys.fs.St(), path, sys.fs.icache[sys.cwd].inum))
    modifies sys.fs, sys.fs.disk, sys.table`nextPid, sys.table`stacks, sys.table.procs
    modifies vm`mem, vm.pmm, vm.pmm.bitmap
    ensures r.Halted? ==> Exhausted(sys.fs, old(sys.fs.St()))
    ensures ProcessImage.Booted(vm, b)
    ensures Vmm.Confined(old(vm.mem), map[], old(vm.pmm.used), vm.mem, p.own, vm.pmm.used)
    ensures r.Returned? ==> sys.Valid() && sys.Calling() && Kept(old(sys.Now()), sys.Now(), {})
    ensures r.Returned? ==> sys.tree == old(sys.tree) && sys.fs.St() == old(sys.fs.St())
    ensures r.Returned? ==> (sys.InTree() <==> old(sys.InTree()))
    ensures r.Returned? ==>
              Exec(old(sys.table.St()), sys.table.St(), slot, sys.table.StackTop(slot), p.pml4, loads, r.value)
    ensures r.Returned? && r.value >= 0 ==> Child(old(sys.table.St()), sys.table.St(), slot, r.value)
    ensures r.Returned? ==>
              (r.value >= 0 <==> Starts(old(sys.fs.St()), path, old(sys.fs.icache[sys.cwd].inum),
                                        old(sys.table.St()), old(vm.pmm.FreeCount())))
    ensures r.Returned? && r.value >= 0 ==>
              var file := Program(old(sys.fs.St()), path, old(sys.fs.icache[sys.cwd].inum));
              && Elf.Loadable(file) && slot < |sys.table.stacks|
              && StartsInFile(sys.table.stacks[slot], file)
              && (ProcessImage.Placeable(file) ==> Sees(vm, p, file, old(vm.pmm.FreeCount())))
  {
    hide Inv, FilesHeld, ProcsHeld, Files, Steady, Holders, Kept, Exec, ExecutableFile, Exhausted, InitialFrame,
        FirstFrom, IsFree, Program, Elf.Loadable, Elf.FileNoticed, Elf.Fits, Sees, Field,
        Child, Starts, StartsWith, StartsAt, StartsInFile, Entry, ElfStart, NamesDevice, Vmm.Confined,
        ProcessImage.Placeable, FreeSlot, Pmm.FrameAllocator.Valid, Paging.BootMapped;
    ghost var a, t, free := sys.Now(), sys.table.St(), vm.pmm.FreeCount();
    slot, loads := 0, false;
    Vmm.ConfinedAsIs(vm.mem, map[], vm.pmm.used);
    sys.CwdCounted();
    var found, file := Accept(sys, path, stale);
    if found.Halted? || found.value != 0 {
      p := new Heap.Process(0, map[]);
      if found.Halted? {
        return Halted, p, slot, loads;
      }
      ExecNothing(t, slot, sys.table.StackTop(slot), 0, loads);
      KeptBy(a, sys.Now(), Holders(t, sys.cwd), {});
      return Returned(-1), p, slot, loads;
    }
    var pid;
    pid, p, slot, loads := StartFile(sys, vm, b, file, a);
    StartsThen(a.st, path, old(sys.fs.icache[sys.cwd].inum), t, free, file);
    KeptCwd(a, sys.Now(), {});
    return Returned(pid), p, slot, loads;
  }

  lemma NeverStarts(st: State, path: Path, cwd: nat, t: Table, free: nat, file: seq<byte>)
    requires !ExecutableFile(st, path, cwd) || (file == Program(st, path, cwd) && !Elf.Loadable(file))
    ensures !Starts(st, path, cwd, t, free)
  {
    hide ExecutableFile, Program, Elf.Loadable;
  }

  lemma StartsThen(st: State, path: Path, cwd: nat, t: Table, free: nat, file: seq<byte>)
    requires ExecutableFile(st, path, cwd) && file == Program(st, path, cwd)
    ensures StartsWith(file, t, free) <==> Starts(st, path, cwd, t, free)
  {
    hide ExecutableFile, Program, StartsWith;
  }

  // e_entry of a file the loader accepted.
  function Entry(file: seq<byte>): nat
    requires Elf.Loadable(file)
  {
    Field(file, 24, 8)
  }

  lemma EntryBytes(stack: seq<nat>, file: seq<byte>)
    requires Elf.Loadable(file)
    ensures StartsAt(stack, Entry(file)) ==> StartsInFile(stack, file)
  {
    hide Number8;
    FieldNumber(file, 24);
  }

  /** The small program starts at 4 MiB, at its own first byte. */
  lemma SmallProgramStarts()
    ensures EntersAt(ProcessImage.SmallProgram(), 0x40_0000, 0xEB, 0xFE)
  {
    hide Field;
    ProcessImage.SmallProgramLoads();
    ProcessImage.Word8(ProcessImage.SmallProgram(), 24, 0, 0, 0x40);
  }

  // A program of one segment whose entry point is the address given, in that segment, where it has
  // these two bytes.
  ghost predicate EntersAt(file: seq<byte>, at: nat, first: byte, second: byte) {
    && ProcessImage.OnePageProgram(file) && Entry(file) == at
    && var s := Elf.SegmentAt(file, 0);
       && Elf.IsLoad(file, 0) && s.vaddr <= at < s.vaddr + s.memsz
       && Elf.SegmentByte(file, s, at) == first && Elf.SegmentByte(file, s, at + 1) == second
  }

  lemma NoHeaderNoLoad(file: seq<byte>, stale: seq<byte>)
    requires |stale| >= 20
    ensures Elf.Loadable(file) ==> ElfStart(Buffer(file, stale))
  {
    if Elf.Loadable(file) {
      StartsRight(file, stale);
    }
  }
}
