/** What the sharing in create_user_pml4 amounts to over time: however often pages of the user
    tree are mapped and unmapped, the kernel's own translations stay, wherever the way to them
    uses no table the user tree carries as its own. */
module Isolation {
  import opened Wrappers
  import opened PageTables
  import opened Vmm
  import opened Paging

  // Memory, the labels of the user tree and the used frames at one moment.
  datatype Moment = Moment(mem: Memory, own: Labels, used: set<nat>)

  // Each step is any page edit, or any number of them, through the user tree.
  ghost predicate EditRun(run: seq<Moment>) {
    forall k :: 0 <= k < |run| - 1 ==>
      var a, b := run[k], run[k + 1];
      Confined(a.mem, a.own, a.used, b.mem, b.own, b.used)
  }

  lemma {:induction false} RunIsConfined(run: seq<Moment>, n: nat)
    requires EditRun(run) && n < |run|
    ensures Confined(run[0].mem, run[0].own, run[0].used, run[n].mem, run[n].own, run[n].used)
  {
    if n > 0 {
      RunIsConfined(run, n - 1);
      var a, b := run[n - 1], run[n];
      assert Confined(a.mem, a.own, a.used, b.mem, b.own, b.used);
      ConfinedTwice(run[0].mem, run[0].own, run[0].used, a.mem, a.own, a.used, b.mem, b.own, b.used);
    }
  }

  // The address's page-directory entry of the kernel leads to no table: it is a 2 MiB page or
  // absent, or the root's entry is absent already; or the address lies where the user tree holds
  // nothing of the kernel's.
  ghost predicate Private(mem: Memory, kroot: nat, kown: Labels, va: nat)
    requires Tree(mem, kroot, kown)
  {
    if Index(4, va) != 0 then !Present(mem[kroot][Index(4, va)])
    else
      Index(3, va) >= 4 ||
      match Descend(mem, kroot, 4, va, 2)
      case None => true
      case Some(pd) => pd >= |mem| || !Present(mem[pd][Index(2, va)]) || Huge(mem[pd][Index(2, va)])
  }

  // A walk that stays among frames that keep their contents.
  lemma {:induction false} WalkAmong(
    mem: Memory, mem': Memory, root: nat, own: Labels, keep: set<nat>, t: nat, level: nat, va: nat)
    requires Tree(mem, root, own) && |mem'| == |mem|
    requires forall f :: f in keep && f < |mem| ==> mem'[f] == mem[f]
    requires 1 <= level <= 4 && t in own && own[t] == Path(va, 4 - level)
    requires forall f :: f in own && (own[f] == Path(va, 1) || own[f] == []) ==> f in keep
    requires forall f :: f in own && own[f] == Path(va, 2) ==> f in keep
    requires forall f :: f in own && own[f] == Path(va, 3) ==>
                           f in keep || Descend(mem, t, level, va, 1) == None
    requires level == 1 ==> t in keep
    ensures Walk(mem', t, level, va) == Walk(mem, t, level, va)
    decreases level
  {
    hide Rooted;
    var i := Index(level, va);
    assert t in keep;
    if level > 1 {
      assert LinkOk(mem, own, t, i);
      var e := mem[t][i];
      if Present(e) && !Huge(e) {
        assert own[FrameOf(e)] == Path(va, 5 - level);
        WalkAmong(mem, mem', root, own, keep, FrameOf(e), level - 1, va);
      }
    }
  }

  /** For every run of page edits through a user tree made by create_user_pml4, the kernel
      translates an address as it did at the start, if its page-directory entry was a 2 MiB
      page or absent when it was copied. */
  lemma KernelKeepsTranslation(run: seq<Moment>, n: nat, kroot: nat, kown: Labels, u: UserTables, va: nat)
    requires EditRun(run) && n < |run| && va < ADDRESS_SPACE
    requires Tree(run[0].mem, kroot, kown) && kown.Keys <= run[0].used
    requires u.Fresh(kown.Keys) && run[0].own == u.Own(kown)
    requires Private(run[0].mem, kroot, kown, va)
    ensures Walk(run[n].mem, kroot, 4, va) == Walk(run[0].mem, kroot, 4, va)
  {
    hide Rooted;
    RunIsConfined(run, n);
    var mem, mem' := run[0].mem, run[n].mem;
    var keep := run[0].used - run[0].own.Keys;
    if Index(4, va) != 0 {
      assert kroot in keep;
      return;
    }
    forall f | f in kown && !Shared(kown[f])
      ensures f in keep
    {
    }
    forall f | f in kown && (kown[f] == Path(va, 1) || kown[f] == [] || kown[f] == Path(va, 2))
      ensures f in keep
    {
    }
    if Index(3, va) >= 4 {
      forall f | f in kown && kown[f] == Path(va, 3)
        ensures f in keep
      {
      }
    } else {
      NoLastTable(mem, kroot, kown, va);
    }
    WalkAmong(mem, mem', kroot, kown, keep, kroot, 4, va);
  }

  /** Elsewhere the two trees share their tables: below a root entry that both have, the kernel
      translates as the user tree does, whatever was done through that tree. */
  lemma SharedFollows(mem: Memory, kroot: nat, uroot: nat, va: nat)
    requires kroot < |mem| && uroot < |mem|
    requires mem[kroot][Index(4, va)] == mem[uroot][Index(4, va)]
    ensures Walk(mem, kroot, 4, va) == Walk(mem, uroot, 4, va)
  {
  }

  /** So an address below a present upper entry of the kernel's root is not private: a page
      mapped there through the user tree, which leaves the root's entry as it is, is mapped for
      the kernel too. */
  lemma SharedPageShows(mem: Memory, mem': Memory, kroot: nat, uroot: nat, virt: nat, e: u64)
    requires virt < ADDRESS_SPACE && kroot < |mem'| && uroot < |mem'|
    requires mem'[kroot][Index(4, virt)] == mem'[uroot][Index(4, virt)]
    requires OnlyPage(mem, mem', uroot, virt, e)
    ensures Walk(mem', kroot, 4, virt) == EntryLeaf(e, virt)
  {
    hide Walk, EntryLeaf;
    SharedFollows(mem', kroot, uroot, virt);
  }

  lemma NoLastTable(mem: Memory, kroot: nat, kown: Labels, va: nat)
    requires Tree(mem, kroot, kown) && Private(mem, kroot, kown, va) && Index(3, va) < 4
    ensures Descend(mem, kroot, 4, va, 1) == None
  {
    hide Rooted;
    var i := Index(4, va);
    assert LinkOk(mem, kown, kroot, i);
    if Present(mem[kroot][i]) {
      var pdp := FrameOf(mem[kroot][i]);
      assert LinkOk(mem, kown, pdp, Index(3, va));
      assert Descend(mem, kroot, 4, va, 2) == Descend(mem, pdp, 3, va, 2);
      assert Descend(mem, kroot, 4, va, 1) == Descend(mem, pdp, 3, va, 1);
      if Present(mem[pdp][Index(3, va)]) {
        var pd := FrameOf(mem[pdp][Index(3, va)]);
        assert Descend(mem, pdp, 3, va, 2) == Some(pd);
        assert Descend(mem, pdp, 3, va, 1) == Descend(mem, pd, 2, va, 1);
      }
    }
  }
}
