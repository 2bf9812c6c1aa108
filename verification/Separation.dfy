/** The address spaces of many processes side by side: however the kernel creates and loads
    processes and moves their heaps, no address space is disturbed by what is done to another. */
module Separation {
  import opened PageTables
  import opened Vmm
  import opened Paging
  import opened Bits
  import opened Elf
  import opened ProcessImage
  import FrameBytes
  import Heap

  // One process: its root and tables, its heap pages and the pages the loader placed.
  datatype Space = Space(root: nat, own: Labels, heap: map<nat, nat>, placed: map<nat, Placed>) {
    ghost function Data(): set<nat> {
      heap.Values + set q | q in placed :: placed[q].frame
    }

    ghost function Frames(): set<nat> {
      own.Keys + Data()
    }
  }

  datatype World = World(mem: Memory, used: set<nat>, spaces: seq<Space>)

  ghost predicate SpaceOk(mem: Memory, used: set<nat>, s: Space) {
    Tree(mem, s.root, s.own) && s.Frames() <= used && s.own.Keys !! s.Data()
  }

  // No frame serves two processes, or a process and the kernel's own tables.
  ghost predicate WorldOk(w: World, b: BootTables) {
    && b.Distinct() && BootMapped(w.mem, b) && b.Frames() <= w.used
    && (forall i :: 0 <= i < |w.spaces| ==>
                      SpaceOk(w.mem, w.used, w.spaces[i]) && w.spaces[i].Frames() !! b.Frames())
    && (forall i, j :: 0 <= i < j < |w.spaces| ==> w.spaces[i].Frames() !! w.spaces[j].Frames())
  }

  ghost function OwnAt(w: World, i: nat): Labels {
    if i < |w.spaces| then w.spaces[i].own else map[]
  }

  ghost function FramesAt(w: World, i: nat): set<nat> {
    if i < |w.spaces| then w.spaces[i].Frames() else {}
  }

  /** One kernel operation on space i, which may be a new one: it writes the tables of that space
      and frames that were free, and what the space gains was free. */
  ghost predicate Step(w: World, w': World, i: nat) {
    && |w.spaces| <= |w'.spaces| && i <= |w.spaces| && |w'.spaces| <= (if i < |w.spaces| then |w.spaces| else i + 1)
    && Confined(w.mem, OwnAt(w, i), w.used, w'.mem, OwnAt(w', i), w'.used)
    && (forall j :: 0 <= j < |w.spaces| && j != i ==> w'.spaces[j] == w.spaces[j])
    && (i < |w'.spaces| ==> SpaceOk(w'.mem, w'.used, w'.spaces[i]))
    && FramesAt(w', i) * w.used <= FramesAt(w, i)
  }

  // The space translates as before, and its tables and pages hold what they held.
  ghost predicate Undisturbed(mem: Memory, mem': Memory, s: Space) {
    && SameTranslation(mem, mem', s.root)
    && |mem'| == |mem| && forall f :: f in s.Frames() && f < |mem| ==> mem'[f] == mem[f]
  }

  // A step elsewhere does not reach a space.
  lemma OthersUndisturbed(w: World, w': World, b: BootTables, i: nat, j: nat)
    requires WorldOk(w, b) && Step(w, w', i) && j < |w.spaces| && j != i
    ensures Undisturbed(w.mem, w'.mem, w.spaces[j]) && SpaceOk(w'.mem, w'.used, w.spaces[j])
    ensures w.spaces[j].Frames() !! FramesAt(w', i)
  {
    hide Tree, Walk;
    var s := w.spaces[j];
    assert s.Frames() !! FramesAt(w, i);
    assert SpaceOk(w.mem, w.used, s);
    forall f | f in s.Frames() && f < |w.mem|
      ensures w'.mem[f] == w.mem[f]
    {
    }
    KeptTables(w.mem, w'.mem, s);
  }

  lemma KeptTables(mem: Memory, mem': Memory, s: Space)
    requires Tree(mem, s.root, s.own) && |mem'| == |mem|
    requires forall f :: f in s.own && f < |mem| ==> mem'[f] == mem[f]
    ensures Tree(mem', s.root, s.own) && SameTranslation(mem, mem', s.root)
  {
    hide Rooted;
    TreeUntouched(mem, mem', s.root, s.own);
    forall va: nat | va < ADDRESS_SPACE
      ensures Walk(mem', s.root, 4, va) == Walk(mem, s.root, 4, va)
    {
      WalkUntouched(mem, mem', s.root, s.own, s.root, 4, va);
    }
  }

  /** Every step keeps all spaces apart from each other and from the kernel's tables. */
  lemma StepKeepsWorld(w: World, w': World, b: BootTables, i: nat)
    requires WorldOk(w, b) && Step(w, w', i)
    ensures WorldOk(w', b)
  {
    hide Tree, BootMapped;
    assert b.Frames() !! OwnAt(w, i).Keys;
    BootKept(w.mem, OwnAt(w, i), w.used, w'.mem, OwnAt(w', i), w'.used, b);
    forall j | 0 <= j < |w.spaces| && j != i
      ensures SpaceOk(w'.mem, w'.used, w'.spaces[j]) && w'.spaces[j].Frames() !! FramesAt(w', i)
    {
      OthersUndisturbed(w, w', b, i, j);
    }
    assert FramesAt(w', i) !! b.Frames();
  }

  // Each step of a run is on the space named beside it.
  ghost predicate Run(run: seq<World>, on: seq<nat>) {
    |run| == |on| + 1 && forall k :: 0 <= k < |on| ==> Step(run[k], run[k + 1], on[k])
  }

  /** Over a whole run of creations, loads and heap moves in which nothing is done to space j,
      space j translates every 48-bit address as at the start and all its tables, heap pages and
      program pages keep their contents. The spaces stay apart, and the kernel keeps its map. */
  lemma {:induction false} RunLeavesOthers(run: seq<World>, on: seq<nat>, b: BootTables, n: nat, j: nat)
    requires Run(run, on) && WorldOk(run[0], b) && n <= |on|
    ensures WorldOk(run[n], b) && KernelMap(run[n].mem, b) && |run[0].spaces| <= |run[n].spaces|
    ensures j < |run[0].spaces| && (forall k :: 0 <= k < n ==> on[k] != j) ==>
              && Undisturbed(run[0].mem, run[n].mem, run[0].spaces[j])
              && run[n].spaces[j] == run[0].spaces[j]
  {
    hide Rooted;
    hide SpaceOk, BootMapped, Walk, KernelMap, Step;
    if n > 0 {
      RunLeavesOthers(run, on, b, n - 1, j);
      var w, w', i := run[n - 1], run[n], on[n - 1];
      assert Step(w, w', i);
      StepKeepsWorld(w, w', b, i);
      StepShape(w, w', i);
      if j < |run[0].spaces| && j != i {
        OthersUndisturbed(w, w', b, i, j);
      }
    }
    KernelMapped(run[n].mem, b);
  }

  lemma StepShape(w: World, w': World, i: nat)
    requires Step(w, w', i)
    ensures |w.spaces| <= |w'.spaces|
    ensures forall j :: 0 <= j < |w.spaces| && j != i ==> w'.spaces[j] == w.spaces[j]
  {
  }

  /** What an undisturbed space had, it has: its heap is the heap sys_brk left, its program pages
      hold what the loader put there. */
  lemma StillThere(mem: Memory, used: set<nat>, mem': Memory, used': set<nat>, s: Space)
    requires SpaceOk(mem, used, s) && Undisturbed(mem, mem', s) && used <= used'
    ensures Heap.HeapPages(mem, s.root, s.own, used, s.heap) ==>
              Heap.HeapPages(mem', s.root, s.own, used', s.heap)
    ensures forall q :: q in s.placed && PlacedOk(mem, s.root, s.own, used, q, s.placed[q]) ==>
                          PlacedOk(mem', s.root, s.own, used', q, s.placed[q])
  {
    hide Tree, Walk;
    if Heap.HeapPages(mem, s.root, s.own, used, s.heap) {
      forall q | q in s.heap
        ensures Heap.PageAt(mem', s.root, q, s.heap[q])
      {
        assert Heap.PageAt(mem, s.root, q, s.heap[q]);
      }
    }
  }

  // create_process and the loader, as a step of the world.
  method StartStep(vm: AddressSpaces, b: BootTables, file: seq<byte>, ghost w: World)
    returns (ret: int, p: Heap.Process, ghost w': World)
    requires Booted(vm, b) && w.mem == vm.mem && w.used == vm.pmm.used
    requires Fits(file)
    modifies vm`mem, vm.pmm, vm.pmm.bitmap
    ensures Booted(vm, b) && w'.mem == vm.mem && w'.used == vm.pmm.used
    ensures Step(w, w', |w.spaces|)
    ensures p.pml4 != 0 ==> |w'.spaces| == |w.spaces| + 1 && IsSpaceOf(w'.spaces[|w.spaces|], p)
  {
    hide Tree, Walk, BootMapped, Confined, PlacedOk, SegmentAt, SegmentOk, IsLoad;
    ghost var placed;
    ret, p, placed := StartProcess(vm, b, file);
    ghost var s := Space(p.pml4, p.own, p.frames, placed);
    w' := World(vm.mem, vm.pmm.used, if p.pml4 == 0 then w.spaces else w.spaces + [s]);
    if p.pml4 != 0 {
      FreshSpace(w.mem, w.used, vm.mem, vm.pmm.used, s);
    }
  }

  lemma FreshSpace(mem: Memory, used: set<nat>, mem': Memory, used': set<nat>, s: Space)
    requires Tree(mem', s.root, s.own) && s.own.Keys <= used' && s.heap == map[]
    requires Confined(mem, map[], used, mem', s.own, used') && OwnFrames(s.placed, used)
    requires forall q :: q in s.placed ==> PlacedOk(mem', s.root, s.own, used', q, s.placed[q])
    ensures SpaceOk(mem', used', s) && s.Frames() !! used
  {
    hide Tree, Walk, FrameBytes.Holds;
    forall q | q in s.placed
      ensures s.placed[q].frame in used' && s.placed[q].frame !in s.own && s.placed[q].frame !in used
    {
      assert PlacedOk(mem', s.root, s.own, used', q, s.placed[q]);
    }
  }

  ghost predicate IsSpaceOf(s: Space, p: Heap.Process)
    reads p
  {
    s.root == p.pml4 && s.own == p.own && s.heap == p.frames
  }

  // sys_brk, as a step of the world, whatever frames are left.
  method BrkStep(vm: AddressSpaces, p: Heap.Process, newBrk: nat, ghost w: World, ghost i: nat)
    returns (r: nat, ghost w': World)
    requires Heap.HeapSound(vm, p) && newBrk < Heap.HEAP_LIMIT
    requires w.mem == vm.mem && w.used == vm.pmm.used
    requires i < |w.spaces| && IsSpaceOf(w.spaces[i], p) && SpaceOk(w.mem, w.used, w.spaces[i])
    modifies p`own, p`frames, p`heapStart, p`heapEnd, vm`mem, vm.pmm, vm.pmm.bitmap
    ensures Heap.HeapSound(vm, p) && w'.mem == vm.mem && w'.used == vm.pmm.used
    ensures Step(w, w', i) && |w'.spaces| == |w.spaces| && IsSpaceOf(w'.spaces[i], p)
  {
    hide Tree, Walk, Confined, Heap.HeapPages, Heap.SameElsewhere, Heap.KeptOrFresh, Space.Data, Space.Frames;
    ghost var s := w.spaces[i];
    r := Heap.SysBrk(vm, p, newBrk);
    ghost var s' := Space(p.pml4, p.own, p.frames, s.placed);
    w' := World(vm.mem, vm.pmm.used, w.spaces[i := s']);
    MovedHeap(w.mem, w.used, vm.mem, vm.pmm.used, s, s');
  }

  lemma MovedHeap(mem: Memory, used: set<nat>, mem': Memory, used': set<nat>, s: Space, s': Space)
    requires SpaceOk(mem, used, s) && Tree(mem', s'.root, s'.own) && s'.own.Keys <= used'
    requires Confined(mem, s.own, used, mem', s'.own, used')
    requires Heap.KeptOrFresh(s.heap, used, s'.heap, s'.own, used') && s'.placed == s.placed
    ensures SpaceOk(mem', used', s') && s'.Frames() * used <= s.Frames()
  {
    hide Tree;
    forall f | f in s'.Data()
      ensures f in used' && f !in s'.own && (f in used ==> f in s.Data())
    {
      if f in s'.heap.Values {
        var q :| q in s'.heap && s'.heap[q] == f;
        if q in s.heap && s.heap[q] == f {
          assert f in s.heap.Values;
        }
      }
    }
  }
}
