/** How many frames a range of pages takes: one for each page, and one for each page table, page
    directory or directory pointer table that is missing on the way to them. A 2 MiB page stands
    where a page table is missing. */
module FrameNeeds {
  import opened PageTables
  import opened Vmm

  // The positions of the tables on the way to the pages [first, end).
  ghost function Steps(first: nat, end: nat): set<Position> {
    if end <= first then {} else Steps(first, end - 1) + PageSteps((end - 1) * 4096)
  }

  /** The frames it takes to map fresh frames at the pages [first, end), one after the other, when
      there are tables at the positions of have. */
  ghost function FramesFor(have: set<Position>, first: nat, end: nat): nat {
    if end <= first then 0 else end - first + |Steps(first, end) - have|
  }

  /** The frames without which the loops over [first, end) notice: vmm_map_page does not tell
      when it fails, so the tables of the last page may be missing unnoticed. */
  ghost function FramesNoticed(have: set<Position>, first: nat, end: nat): nat {
    if end <= first then 0 else FramesFor(have, first, end - 1) + 1
  }

  lemma {:induction false} OnTheWay(first: nat, end: nat, p: Position)
    ensures p in Steps(first, end) <==> exists page :: first <= page < end && p in PageSteps(page * 4096)
    decreases end
  {
    if first < end {
      OnTheWay(first, end - 1, p);
      if p in PageSteps((end - 1) * 4096) {
        var page := end - 1;
        assert first <= page < end && p in PageSteps(page * 4096);
      }
    }
  }

  lemma SumMissing<T>(have: set<T>, a: set<T>, b: set<T>)
    ensures |(a + b) - have| == |a - have| + |b - (have + a)|
  {
    assert (a + b) - have == (a - have) + (b - (have + a));
  }

  lemma NoPages(have: set<Position>, first: nat)
    ensures Steps(first, first) == {} && FramesFor(have, first, first) == 0
    ensures have + Steps(first, first) == have
  {
  }

  // One page more.
  lemma NextPage(have: set<Position>, first: nat, page: nat)
    requires first <= page
    ensures Steps(first, page + 1) == Steps(first, page) + PageSteps(page * 4096)
    ensures FramesFor(have, first, page + 1) ==
            FramesFor(have, first, page) + 1 + |PageSteps(page * 4096) - (have + Steps(first, page))|
    ensures FramesFor(have, first, page) + 1 == FramesNoticed(have, first, page + 1)
  {
    hide PageSteps;
    SumMissing(have, Steps(first, page), PageSteps(page * 4096));
  }

  lemma {:induction false} MorePages(have: set<Position>, first: nat, m: nat, end: nat)
    requires first <= m <= end
    ensures FramesFor(have, first, m) <= FramesFor(have, first, end)
    ensures m < end ==> FramesFor(have, first, m) + 1 <= FramesNoticed(have, first, end) <= FramesFor(have, first, end)
    decreases end
  {
    hide Steps, PageSteps, FramesFor, FramesNoticed;
    if m < end {
      MorePages(have, first, m, end - 1);
      NextPage(have, first, end - 1);
    }
  }

  lemma FewerFrames(have: set<Position>, first: nat, end: nat)
    ensures FramesNoticed(have, first, end) <= FramesFor(have, first, end)
    ensures end <= first ==> FramesFor(have, first, end) == 0
  {
    hide Steps;
    if first < end {
      MorePages(have, first, end - 1, end);
    }
  }

  /** For a single page this is what vmm_map_page allocates on the tree, and the page's frame. */
  lemma OnePage(mem: Memory, root: nat, own: Labels, page: nat)
    requires Tree(mem, root, own)
    ensures FramesFor(own.Values, page, page + 1) == 1 + Needed(mem, root, 4, page * 4096)
  {
    hide Tree, Needed, PageSteps;
    NextPage(own.Values, page, page);
    NeededIsMissing(mem, root, own, page * 4096);
    assert Steps(page, page) == {};
    assert own.Values + {} == own.Values;
  }

  /** Half-way through a loop that maps a fresh frame at each of the pages from first on, page by
      page: as long as every mapping was made (all), the frames for the pages so far are spent and
      their tables there; a mapping that was not made was the last one, and nothing is left. */
  ghost predicate Spent(have: set<Position>, free0: nat, first: nat, page: nat,
                        now: set<Position>, free: nat, all: bool)
  {
    if all then free == free0 - FramesFor(have, first, page) && now == have + Steps(first, page)
    else free == 0 && first < page && FramesNoticed(have, first, page) <= free0 < FramesFor(have, first, page)
  }

  // What one turn of such a loop does to the tables and the free frames.
  ghost predicate Turn(now: set<Position>, free: nat, page: nat,
                       now': set<Position>, free': nat, ok: bool, mapped: bool)
  {
    && (ok <==> free > 0)
    && (mapped <==> free >= 1 + |PageSteps(page * 4096) - now|)
    && if mapped then free' == free - 1 - |PageSteps(page * 4096) - now| && now' == now + PageSteps(page * 4096)
       else free' == 0
  }

  lemma SpentStart(have: set<Position>, free0: nat, first: nat)
    ensures Spent(have, free0, first, first, have, free0, true)
  {
    NoPages(have, first);
  }

  lemma SpentTurn(have: set<Position>, free0: nat, first: nat, page: nat, end: nat, now: set<Position>, free: nat,
                  all: bool, now': set<Position>, free': nat, ok: bool, mapped: bool)
    requires Spent(have, free0, first, page, now, free, all) && first <= page < end
    requires Turn(now, free, page, now', free', ok, mapped)
    ensures if ok then Spent(have, free0, first, page + 1, now', free', mapped) && all
            else free0 < FramesNoticed(have, first, end)
  {
    hide Steps, PageSteps, FramesFor, FramesNoticed;
    NextPage(have, first, page);
    MorePages(have, first, page, end);
    if ok && mapped {
      assert have + Steps(first, page) + PageSteps(page * 4096) == have + (Steps(first, page) + PageSteps(page * 4096));
    }
  }

  lemma SpentAll(have: set<Position>, free0: nat, first: nat, end: nat, now: set<Position>, free: nat, all: bool)
    requires Spent(have, free0, first, end, now, free, all) && first <= end
    ensures free0 >= FramesNoticed(have, first, end) && (all <==> free0 >= FramesFor(have, first, end))
  {
    hide Steps, PageSteps, FramesFor;
    if first < end {
      MorePages(have, first, end - 1, end);
    }
  }
}
