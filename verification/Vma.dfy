/** The virtual memory areas of a task, with their page-table and frame effects: allocation (eager or
    lazy), the lazy page fault, and destruction. */
module Vma {
  import opened VmaLayout
  import opened AddressSpace
  import opened Memory
  import P = Paging

  datatype Mode = Eager | Deferred

  ghost function FrameSet(pages: seq<nat>): set<nat> {
    set f | f in pages && f != 0
  }

  /** Nothing outside the virtual pages `x ..< y` of directory `pd` has changed. */
  ghost predicate SameOutside(t: P.Tables, t': P.Tables, dirs: set<nat>, pd: nat, x: nat, y: nat) {
    forall d, v: nat :: d in dirs && P.Owned(v / 1024) && (d != pd || !(x <= v < y))
                        ==> P.Lookup(t', d, v) == P.Lookup(t, d, v)
  }

  lemma OutsideStep(t: P.Tables, t1: P.Tables, t2: P.Tables, dirs: set<nat>, pd: nat, x: nat, y: nat,
                    v: nat, e: P.Option<Entry>)
    requires SameOutside(t, t1, dirs, pd, x, y) && P.Updated(t1, t2, dirs, pd, v, e) && x <= v < y
    ensures SameOutside(t, t2, dirs, pd, x, y)
  {
  }

  class TaskMemory {
    const mach: Machine
    const pd: nat
    const lo: nat
    const hi: nat
    var areas: seq<Area>

    constructor (mach: Machine, pd: nat, lo: nat, hi: nat)
      requires lo % PAGE_SIZE == 0 && hi % PAGE_SIZE == 0 && lo < hi <= USER_END
      requires mach.Valid() && pd in mach.mmu.dirs && 0 !in mach.high
      requires forall v: nat :: InWindow(v, lo, hi) ==> P.Lookup(mach.mmu.tables, pd, v) == P.None
      ensures this.mach == mach && this.pd == pd && this.lo == lo && this.hi == hi
      ensures areas == [FreeArea(lo, hi - lo)] && Valid()
    {
      this.mach, this.pd, this.lo, this.hi := mach, pd, lo, hi;
      areas := [FreeArea(lo, hi - lo)];
      new;
      FirstCoherent(mach.mmu.tables, pd, mach.high, lo, hi);
    }

    /** Coherence while the pages `x ..< y` are being worked on. */
    ghost predicate Busy(x: nat, y: nat)
      reads this, mach, mach.mmu
    {
      && mach.Valid() && pd in mach.mmu.dirs
      && Coherent(areas, mach.mmu.tables, pd, mach.high, lo, hi, x, y)
    }

    ghost predicate Valid()
      reads this, mach, mach.mmu
    {
      Busy(0, 0)
    }

    /** `vma_first_fit_alloc`: the first free area that is large enough, or -1. */
    method FirstFit(size: nat) returns (r: int)
      ensures r == -1 || (0 <= r < |areas| && areas[r].state == Free && areas[r].size >= size)
      ensures forall i :: 0 <= i < (if r == -1 then |areas| else r) ==>
                !(areas[i].state == Free && areas[i].size >= size)
      ensures r == FitFrom(areas, size, 0)
    {
      var i := 0;
      while i < |areas|
        invariant 0 <= i <= |areas| && FitFrom(areas, size, 0) == FitFrom(areas, size, i)
        invariant forall j :: 0 <= j < i ==> !(areas[j].state == Free && areas[j].size >= size)
      {
        if areas[i].size >= size && areas[i].state == Free {
          return i;
        }
        i := i + 1;
      }
      return -1;
    }

    /** `vma_find_by_start`. */
    method FindByStart(ptr: nat) returns (r: int)
      ensures r == if Find(areas, ptr) == |areas| then -1 else Find(areas, ptr)
    {
      var i := 0;
      while i < |areas|
        invariant 0 <= i <= |areas| && forall j :: 0 <= j < i ==> areas[j].start != ptr
      {
        if areas[i].start == ptr {
          return i;
        }
        i := i + 1;
      }
      return -1;
    }

    /** A frame for page `i` of the area, or 0 when no frame is left. */
    method FillOne(k: nat, i: nat, ghost x: nat, ghost y: nat) returns (f: nat)
      requires Busy(x, y) && Working(areas, k, x, y) && i < |areas[k].pages| && areas[k].pages[i] == 0
      modifies this`areas, mach`high
      ensures Busy(x, y) && Working(areas, k, x, y)
      ensures f == 0 <==> old(mach.high) == {}
      ensures f != 0 ==> f in old(mach.high)
      ensures mach.high == old(mach.high) - {f}
      ensures areas == if f == 0 then old(areas) else WithPage(old(areas), k, i, f)
    {
      hide Coherent, P.DirsOk;
      ZeroNotFree(areas, mach.mmu.tables, pd, mach.high, lo, hi, x, y);
      ghost var l, high := areas, mach.high;
      var alloc := mach.AllocPage();
      if alloc.None? {
        return 0;
      }
      f := alloc.value;
      FillCoherent(l, mach.mmu.tables, pd, high, lo, hi, x, y, k, i, f);
      areas := areas[k := areas[k].(pages := areas[k].pages[i := f])];
      assert areas == WithPage(l, k, i, f);
    }

    /** First loop of `vma_map_area`: a frame for every page of the area. */
    method FillArea(k: nat, ghost x: nat, ghost y: nat) returns (ok: bool)
      requires Busy(x, y) && Working(areas, k, x, y)
      requires forall i :: 0 <= i < |areas[k].pages| ==> areas[k].pages[i] == 0
      modifies this`areas, mach`high
      ensures Busy(x, y) && Working(areas, k, x, y)
      ensures areas == old(areas)[k := old(areas[k]).(pages := areas[k].pages)]
      ensures mach.high == old(mach.high) - FrameSet(areas[k].pages) && FrameSet(areas[k].pages) <= old(mach.high)
      ensures ok ==> forall i :: 0 <= i < |areas[k].pages| ==> areas[k].pages[i] != 0
      ensures ok <==> |old(areas[k].pages)| <= |old(mach.high)|
    {
      hide Coherent, FrameSet, P.DirsOk;
      NoFrames(areas[k].pages);
      var i := 0;
      while i < |areas[k].pages|
        invariant Busy(x, y) && Working(areas, k, x, y)
        invariant 0 <= i <= |areas[k].pages|
        invariant areas == old(areas)[k := old(areas[k]).(pages := areas[k].pages)]
        invariant forall j :: 0 <= j < i ==> areas[k].pages[j] != 0
        invariant forall j :: i <= j < |areas[k].pages| ==> areas[k].pages[j] == 0
        invariant FrameSet(areas[k].pages) <= old(mach.high)
        invariant mach.high == old(mach.high) - FrameSet(areas[k].pages)
        invariant |mach.high| == |old(mach.high)| - i
        decreases |areas[k].pages| - i
      {
        ghost var l := areas;
        var f := FillOne(k, i, x, y);
        if f == 0 {
          return false;
        }
        FrameSetAdd(l[k].pages, i, f);
        i := i + 1;
      }
      return true;
    }

    /** Body of the second loop of `vma_map_area`. */
    method MapOne(k: nat, i: nat, ghost x: nat, ghost y: nat) returns (ok: bool)
      requires Busy(x, y) && Working(areas, k, x, y) && i < |areas[k].pages| && areas[k].pages[i] != 0
      modifies mach`low, mach.mmu`tables
      ensures Busy(x, y)
      ensures SameOutside(old(mach.mmu.tables), mach.mmu.tables, mach.mmu.dirs, pd, x, y)
      ensures Steady(old(mach.mmu.tables), old(mach.low), mach.mmu.tables, mach.low, mach.mmu.dirs, pd)
      ensures Balanced(old(mach.mmu.tables), old(mach.low), mach.mmu.tables, mach.low, pd, x / 1024, (y + 1023) / 1024)
      ensures ok ==> P.Updated(old(mach.mmu.tables), mach.mmu.tables, mach.mmu.dirs, pd, areas[k].start / PAGE_SIZE + i,
                               P.Some(P.Entry(areas[k].pages[i], areas[k].flags)))
      ensures !ok ==> mach.low == {} && |Unbuilt(mach.mmu.tables, pd, x / 1024, (y + 1023) / 1024)| >= 1
    {
      hide Coherent, P.DirsOk, P.Lookup, P.KeepsNonEmpty, P.SameEntries, Steady, Unbuilt, SameOutside, P.SameElsewhere,
        P.SlotPresent, P.Updated, P.NeedsGrant, P.Granted, P.Owned;
      SameOutsideRefl(mach.mmu.tables, mach.mmu.dirs, pd, x, y);
      ghost var t: P.Tables := mach.mmu.tables;
      var v := areas[k].start / PAGE_SIZE + i;
      WorkingPage(areas, t, pd, mach.high, lo, hi, x, y, k, i);
      ok := mach.Map(pd, v, areas[k].pages[i], areas[k].flags);
      if !ok {
        UnbuiltSome(t, pd, v, x, y);
        return false;
      }
      UnbuiltStep(t, mach.mmu.tables, mach.mmu.dirs, pd, v / 1024, x / 1024, (y + 1023) / 1024);
      ghost var e := P.Some(P.Entry(areas[k].pages[i], areas[k].flags));
      MapCoherent(areas, t, mach.mmu.tables, mach.mmu.dirs, pd, mach.high, lo, hi, x, y, k, i, e);
      OutsideStep(t, t, mach.mmu.tables, mach.mmu.dirs, pd, x, y, v, e);
    }

    /** Second loop of `vma_map_area`: map every page to its frame. It fails exactly when low memory
        cannot give all the tables that are missing. */
    method MapPages(k: nat, ghost x: nat, ghost y: nat) returns (ok: bool)
      requires Busy(x, y) && Working(areas, k, x, y)
      requires forall i :: 0 <= i < |areas[k].pages| ==> areas[k].pages[i] != 0
      modifies mach`low, mach.mmu`tables
      ensures Busy(x, y)
      ensures SameOutside(old(mach.mmu.tables), mach.mmu.tables, mach.mmu.dirs, pd, x, y)
      ensures Steady(old(mach.mmu.tables), old(mach.low), mach.mmu.tables, mach.low, mach.mmu.dirs, pd)
      ensures ok ==> forall i: nat :: i < |areas[k].pages| ==> Mapped(areas, mach.mmu.tables, pd, k, i)
      ensures ok <==> |Unbuilt(old(mach.mmu.tables), pd, x / 1024, (y + 1023) / 1024)| <= |old(mach.low)|
    {
      hide Coherent, P.DirsOk, P.Lookup, Steady, Unbuilt, SameOutside, P.Updated, Mapped;
      SteadyRefl(mach.mmu.tables, mach.low, mach.mmu.dirs, pd);
      SameOutsideRefl(mach.mmu.tables, mach.mmu.dirs, pd, x, y);
      var n := |areas[k].pages|;
      var i := 0;
      while i < n
        invariant Busy(x, y) && 0 <= i <= n
        invariant SameOutside(old(mach.mmu.tables), mach.mmu.tables, mach.mmu.dirs, pd, x, y)
        invariant Steady(old(mach.mmu.tables), old(mach.low), mach.mmu.tables, mach.low, mach.mmu.dirs, pd)
        invariant Balanced(old(mach.mmu.tables), old(mach.low), mach.mmu.tables, mach.low, pd, x / 1024, (y + 1023) / 1024)
        invariant forall j: nat :: j < i ==> Mapped(areas, mach.mmu.tables, pd, k, j)
      {
        ghost var t: P.Tables, low := mach.mmu.tables, mach.low;
        ok := MapOne(k, i, x, y);
        SteadyTrans(old(mach.mmu.tables), old(mach.low), t, low, mach.mmu.tables, mach.low, mach.mmu.dirs, pd);
        SameOutsideTrans(old(mach.mmu.tables), t, mach.mmu.tables, mach.mmu.dirs, pd, x, y);
        if !ok {
          return false;
        }
        forall j: nat | j < i + 1 ensures Mapped(areas, mach.mmu.tables, pd, k, j) {
          WorkingPage(areas, t, pd, mach.high, lo, hi, x, y, k, j);
          MappedStays(areas, t, mach.mmu.tables, mach.mmu.dirs, pd, k, j, i);
        }
        i := i + 1;
      }
      WorkingWhole(areas, mach.mmu.tables, pd, mach.high, lo, hi, x, y, k);
      UnbuiltNone(areas, mach.mmu.tables, pd, k, x, y);
      return true;
    }

    /** One round of the unmapping loop, for a page that has a frame. */
    method ReleasePage(k: nat, i: nat, ghost l: seq<Area>, ghost x: nat, ghost y: nat)
      requires mach.Valid() && pd in mach.mmu.dirs && Coherent(l, mach.mmu.tables, pd, mach.high, lo, hi, x, y)
      requires Working(l, k, x, y) && i < |l[k].pages| && l[k].pages[i] != 0
      requires k < |areas| && i < |areas[k].pages| && areas[k].pages[i] == l[k].pages[i] && areas[k].start == l[k].start
      modifies mach`low, mach`high, mach.mmu`tables
      ensures mach.Valid() && Coherent(WithPage(l, k, i, 0), mach.mmu.tables, pd, mach.high, lo, hi, x, y)
      ensures Working(WithPage(l, k, i, 0), k, x, y)
      ensures mach.high == old(mach.high) + {l[k].pages[i]}
      ensures SameOutside(old(mach.mmu.tables), mach.mmu.tables, mach.mmu.dirs, pd, x, y)
      ensures Steady(old(mach.mmu.tables), old(mach.low), mach.mmu.tables, mach.low, mach.mmu.dirs, pd)
    {
      hide Coherent, P.DirsOk, P.Lookup, P.Updated, P.SameEntries, P.SlotPresent, SameOutside, Working, WithPage, Steady;
      ghost var t: P.Tables, high := mach.mmu.tables, mach.high;
      var v := areas[k].start / PAGE_SIZE + i;
      WorkingPage(l, t, pd, high, lo, hi, x, y, k, i);
      mach.Unmap(pd, v);
      ReleasedCoherent(l, t, mach.mmu.tables, mach.mmu.dirs, pd, high, lo, hi, x, y, k, i, v);
      mach.FreePage(areas[k].pages[i]);
    }

    /** The unmapping loop of `vma_destroy_area`: every frame of the area goes back. `l` is the list
        with the pages of the area struck out. */
    method ReleasePages(k: nat, ghost x: nat, ghost y: nat) returns (ghost l: seq<Area>)
      requires Busy(x, y) && Working(areas, k, x, y)
      modifies mach`low, mach`high, mach.mmu`tables
      ensures mach.Valid() && Coherent(l, mach.mmu.tables, pd, mach.high, lo, hi, x, y) && Working(l, k, x, y)
      ensures l == areas[k := areas[k].(pages := l[k].pages)]
      ensures forall j :: 0 <= j < |l[k].pages| ==> l[k].pages[j] == 0
      ensures mach.high == old(mach.high) + FrameSet(areas[k].pages)
      ensures SameOutside(old(mach.mmu.tables), mach.mmu.tables, mach.mmu.dirs, pd, x, y)
      ensures Steady(old(mach.mmu.tables), old(mach.low), mach.mmu.tables, mach.low, mach.mmu.dirs, pd)
    {
      hide Coherent;
      hide P.DirsOk;
      hide P.Lookup;
      hide P.KeepsNonEmpty;
      hide SameOutside;
      hide Steady;
      SameOutsideRefl(mach.mmu.tables, mach.mmu.dirs, pd, x, y);
      SteadyRefl(mach.mmu.tables, mach.low, mach.mmu.dirs, pd);
      var n := |areas[k].pages|;
      l := areas;
      var i := 0;
      while i < n
        invariant 0 <= i <= n
        invariant mach.Valid() && Coherent(l, mach.mmu.tables, pd, mach.high, lo, hi, x, y)
        invariant Working(l, k, x, y) && |l[k].pages| == n
        invariant l == areas[k := areas[k].(pages := l[k].pages)]
        invariant forall j :: 0 <= j < i ==> l[k].pages[j] == 0
        invariant forall j :: i <= j < n ==> l[k].pages[j] == areas[k].pages[j]
        invariant mach.high == old(mach.high) + FrameSet(areas[k].pages[..i])
        invariant SameOutside(old(mach.mmu.tables), mach.mmu.tables, mach.mmu.dirs, pd, x, y)
        invariant Steady(old(mach.mmu.tables), old(mach.low), mach.mmu.tables, mach.low, mach.mmu.dirs, pd)
      {
        FrameSetNext(areas[k].pages, i);
        if areas[k].pages[i] != 0 {
          ghost var t: P.Tables, low := mach.mmu.tables, mach.low;
          ReleasePage(k, i, l, x, y);
          SteadyTrans(old(mach.mmu.tables), old(mach.low), t, low, mach.mmu.tables, mach.low, mach.mmu.dirs, pd);
          SameOutsideTrans(old(mach.mmu.tables), t, mach.mmu.tables, mach.mmu.dirs, pd, x, y);
          l := WithPage(l, k, i, 0);
        }
        i := i + 1;
      }
      assert areas[k].pages[..n] == areas[k].pages;
    }

    /** `vma_destroy_area`: every frame goes back, nothing stays mapped, and the hole merges with its
        free neighbours. */
    method DestroyArea(k: nat, ghost x: nat, ghost y: nat)
      requires Busy(x, y) && Working(areas, k, x, y)
      modifies this`areas, mach`low, mach`high, mach.mmu`tables
      ensures Valid() && areas == DestroyAt(old(areas), k)
      ensures mach.high == old(mach.high) + FrameSet(old(areas[k].pages))
      ensures SameOutside(old(mach.mmu.tables), mach.mmu.tables, mach.mmu.dirs, pd, x, y)
      ensures Steady(old(mach.mmu.tables), old(mach.low), mach.mmu.tables, mach.low, mach.mmu.dirs, pd)
    {
      hide Coherent;
      hide P.DirsOk;
      hide SameOutside;
      hide DestroyAt;
      hide Steady;
      ghost var l := ReleasePages(k, x, y);
      DropCoherent(l, mach.mmu.tables, pd, mach.high, lo, hi, x, y, k);
      SameDestroy(areas, l, k);
      BusyLayout(l, mach.mmu.tables, pd, mach.high, lo, hi, x, y, areas, k);
      FreeAndMerge(k);
    }

    /** `merge_neighbor` on areas `i` and `i + 1`. */
    method MergeNeighbour(i: nat)
      requires i + 1 < |areas|
      modifies this`areas
      ensures areas == Merged(old(areas), i)
    {
      var a, b := areas[i], areas[i + 1];
      if a.state != Free || b.state != Free {
        return;
      }
      if a.start + a.size == b.start {
        areas := areas[..i] + [a.(size := a.size + b.size)] + areas[i + 2..];
      }
    }

    /** The end of `vma_destroy_area`, with `vma_merge_area`. */
    method FreeAndMerge(k: nat)
      requires k < |areas| && Contiguous(areas, lo)
      modifies this`areas
      ensures areas == DestroyAt(old(areas), k)
    {
      hide Contiguous;
      hide DestroyAt;
      hide Merged;
      ghost var l := areas;
      MergesDestroy(l, k, lo);
      areas := areas[k := FreeArea(areas[k].start, areas[k].size)];
      if k + 1 < |areas| {
        MergeNeighbour(k);
      }
      if k > 0 {
        MergeNeighbour(k - 1);
      }
    }

    /** `vma_map_area`: frames for all pages, then all mappings. Without success the area is left
        partly filled or partly mapped. */
    method MapArea(k: nat, ghost x: nat, ghost y: nat) returns (ok: bool)
      requires Busy(x, y) && Working(areas, k, x, y)
      requires forall i :: 0 <= i < |areas[k].pages| ==> areas[k].pages[i] == 0
      modifies this`areas, mach`low, mach`high, mach.mmu`tables
      ensures Busy(x, y) && Working(areas, k, x, y)
      ensures areas == old(areas)[k := old(areas[k]).(pages := areas[k].pages)]
      ensures mach.high == old(mach.high) - FrameSet(areas[k].pages) && FrameSet(areas[k].pages) <= old(mach.high)
      ensures SameOutside(old(mach.mmu.tables), mach.mmu.tables, mach.mmu.dirs, pd, x, y)
      ensures ok ==> forall i: nat :: i < |areas[k].pages| ==> Mapped(areas, mach.mmu.tables, pd, k, i)
      ensures Steady(old(mach.mmu.tables), old(mach.low), mach.mmu.tables, mach.low, mach.mmu.dirs, pd)
      ensures ok <==> Suffices(old(mach.mmu.tables), old(mach.low), old(mach.high), pd, x, y)
    {
      hide Coherent;
      hide P.DirsOk;
      hide P.Lookup;
      hide SameOutside, Steady, Unbuilt, Mapped, FrameSet, Working;
      SameOutsideRefl(mach.mmu.tables, mach.mmu.dirs, pd, x, y);
      SteadyRefl(mach.mmu.tables, mach.low, mach.mmu.dirs, pd);
      WorkingWhole(areas, mach.mmu.tables, pd, mach.high, lo, hi, x, y, k);
      ok := FillArea(k, x, y);
      if !ok {
        return false;
      }
      ok := MapPages(k, x, y);
    }

    /** Which free area `vma_alloc` picks: the one at the hint if it fits, else the first fit. */
    method Pick(hint: nat, size: nat) returns (r: int)
      ensures r == PickIndex(areas, hint, size)
      ensures HintFits(areas, hint, size) && StartsApart(areas) ==> r >= 0 && areas[r].start == hint
    {
      PickFits(areas, hint, size);
      r := -1;
      if hint != 0 {
        r := FindByStart(hint);
      }
      if r == -1 || areas[r].state != Free || areas[r].size < size {
        r := FirstFit(size);
      }
    }

    /** `vma_alloc`, for a task window. `nodeOk` and `pagesOk` tell whether the two small allocations
        of the kernel heap succeed. It fails exactly when one of those fails, no free area fits, or
        an eager request lacks frames for its pages or tables; list, mappings, page frames and the
        amount of low memory are then as they were. */
    method Alloc(size: nat, flags: bv12, hint: nat, mode: Mode, nodeOk: bool, pagesOk: bool) returns (r: P.Option<nat>)
      requires Valid() && size > 0 && flags & P.PRESENT != 0
      modifies this`areas, mach`low, mach`high, mach.mmu`tables
      ensures Valid() && Steady(old(mach.mmu.tables), old(mach.low), mach.mmu.tables, mach.low, mach.mmu.dirs, pd)
      ensures var k := PickIndex(old(areas), hint, size);
              && (r.Some? <==> k >= 0 && MayPlace(old(areas), k, size, nodeOk, pagesOk)
                               && (mode == Eager ==> Suffices(old(mach.mmu.tables), old(mach.low), old(mach.high), pd,
                                                              FirstPage(old(areas), k), LastPage(old(areas), k, size))))
              && (r.Some? ==>
                    && Placed(old(areas), areas, k, size, flags, mode) && r.value == old(areas)[k].start
                    && mach.high == old(mach.high) - FrameSet(areas[k].pages) && FrameSet(areas[k].pages) <= old(mach.high)
                    && SameOutside(old(mach.mmu.tables), mach.mmu.tables, mach.mmu.dirs, pd,
                                   FirstPage(old(areas), k), LastPage(old(areas), k, size)))
      ensures r.Some? && HintFits(old(areas), hint, size) ==> r.value == hint
      ensures r.Some? && mode == Deferred ==> mach.mmu.tables == old(mach.mmu.tables) && mach.low == old(mach.low)
      ensures r.None? ==> areas == old(areas) && mach.high == old(mach.high)
      ensures r.None? ==> SameOutside(old(mach.mmu.tables), mach.mmu.tables, mach.mmu.dirs, pd, 0, 0)
      ensures r.None? && P.Tight(old(mach.mmu.tables), mach.mmu.dirs) ==> |mach.low| == |old(mach.low)|
    {
      hide Coherent, P.DirsOk, P.Lookup, SameOutside, AllocAt, DestroyAt, Steady, Suffices, P.Tight, HintFits, StartsApart, PickIndex;
      ghost var l, t: P.Tables := areas, mach.mmu.tables;
      SameOutsideRefl(t, mach.mmu.dirs, pd, 0, 0);
      SteadyRefl(t, mach.low, mach.mmu.dirs, pd);
      PickFits(areas, hint, size);
      CoherentLayout(areas, t, pd, mach.high, lo, hi, 0, 0);
      StartsDiffer(areas, lo, hi);
      var p := Pick(hint, size);
      if p == -1 {
        return P.None;
      }
      var needed := (size + PAGE_SIZE - 1) / PAGE_SIZE * PAGE_SIZE;
      CoherentLayout(areas, t, pd, mach.high, lo, hi, 0, 0);
      LayoutAt(areas, p, lo, hi);
      RoundUp(size, areas[p].size);
      if needed != areas[p].size && !nodeOk {
        return P.None;
      }
      var start := areas[p].start;
      ghost var x, y := FirstPage(l, p), LastPage(l, p, size);
      SameOutsideRefl(t, mach.mmu.dirs, pd, x, y);
      if !pagesOk {
        AllocThenDestroy(areas, p, needed, Allocated, 0, [], lo, hi);
        AllocLayout(areas, p, needed, Allocated, 0, [], lo, hi);
        areas := AllocAt(areas, p, needed, Allocated, 0, []);
        FreeAndMerge(p);
        return P.None;
      }
      var zeros := seq(needed / PAGE_SIZE, _ => 0);
      var state := if mode == Eager then Allocated else Lazy;
      ReserveCoherent(areas, t, pd, mach.high, lo, hi, p, needed, state, flags, zeros);
      AllocParts(areas, p, needed, state, flags, zeros);
      areas := AllocAt(areas, p, needed, state, flags, zeros);
      if mode == Deferred {
        assert FrameSet(areas[p].pages) == {};
        return P.Some(start);
      }
      var ok := Populate(l, p, size, flags, zeros);
      return if ok then P.Some(start) else P.None;
    }

    /** The end of an eager allocation, once the area is reserved: all of it is mapped, or all is undone. */
    method Populate(ghost l: seq<Area>, p: nat, ghost size: nat, ghost flags: bv12, ghost zeros: seq<nat>)
      returns (ok: bool)
      requires p < |l| && l[p].state == Free && 0 < size && Rounded(size) <= l[p].size
      requires mach.Valid() && pd in mach.mmu.dirs && Coherent(l, mach.mmu.tables, pd, mach.high, lo, hi, 0, 0)
      requires p < |areas| && areas == AllocAt(l, p, Rounded(size), Allocated, flags, zeros)
      requires forall i :: 0 <= i < |areas[p].pages| ==> areas[p].pages[i] == 0
      requires Busy(FirstPage(l, p), LastPage(l, p, size)) && Working(areas, p, FirstPage(l, p), LastPage(l, p, size))
      modifies this`areas, mach`low, mach`high, mach.mmu`tables
      ensures Valid() && Steady(old(mach.mmu.tables), old(mach.low), mach.mmu.tables, mach.low, mach.mmu.dirs, pd)
      ensures ok <==> Suffices(old(mach.mmu.tables), old(mach.low), old(mach.high), pd, FirstPage(l, p), LastPage(l, p, size))
      ensures ok ==> Placed(l, areas, p, size, flags, Eager) && mach.high == old(mach.high) - FrameSet(areas[p].pages)
                     && FrameSet(areas[p].pages) <= old(mach.high)
      ensures ok ==> SameOutside(old(mach.mmu.tables), mach.mmu.tables, mach.mmu.dirs, pd, FirstPage(l, p), LastPage(l, p, size))
      ensures !ok ==> areas == l && mach.high == old(mach.high)
      ensures !ok ==> SameOutside(old(mach.mmu.tables), mach.mmu.tables, mach.mmu.dirs, pd, 0, 0)
      ensures !ok && P.Tight(old(mach.mmu.tables), mach.mmu.dirs) ==> |mach.low| == |old(mach.low)|
    {
      hide Coherent, P.DirsOk, P.Lookup, SameOutside, AllocAt, Steady, Suffices, P.Tight, Unbuilt, FrameSet;
      ghost var t: P.Tables, low, high := mach.mmu.tables, mach.low, mach.high;
      ghost var x, y := FirstPage(l, p), LastPage(l, p, size);
      ok := MapArea(p, x, y);
      PlacedPages(l, p, Rounded(size), flags, zeros, areas[p].pages);
      if ok {
        FinishCoherent(areas, mach.mmu.tables, pd, mach.high, lo, hi, x, y, p);
        AllocParts(l, p, Rounded(size), Allocated, flags, zeros);
        assert areas[p := areas[p].(state := Allocated)] == areas;
      } else {
        Undo(l, p, size, flags, zeros, t, low, high);
      }
    }

    /** The end of a failed eager allocation: the half-made area is destroyed, and everything is as it
        was before. */
    method Undo(ghost l: seq<Area>, p: nat, ghost size: nat, ghost flags: bv12, ghost zeros: seq<nat>,
                ghost t: P.Tables, ghost low: set<nat>, ghost high: set<nat>)
      requires p < |l| && l[p].state == Free && 0 < size && Rounded(size) <= l[p].size && pd in mach.mmu.dirs
      requires Coherent(l, t, pd, high, lo, hi, 0, 0) && P.DirsOk(t, mach.mmu.dirs)
      requires p < |areas| && areas == AllocAt(l, p, Rounded(size), Allocated, flags, zeros)
                        [p := AllocAt(l, p, Rounded(size), Allocated, flags, zeros)[p].(pages := areas[p].pages)]
      requires Busy(FirstPage(l, p), LastPage(l, p, size)) && Working(areas, p, FirstPage(l, p), LastPage(l, p, size))
      requires mach.high == high - FrameSet(areas[p].pages) && FrameSet(areas[p].pages) <= high
      requires Steady(t, low, mach.mmu.tables, mach.low, mach.mmu.dirs, pd)
      requires SameOutside(t, mach.mmu.tables, mach.mmu.dirs, pd, FirstPage(l, p), LastPage(l, p, size))
      modifies this`areas, mach`low, mach`high, mach.mmu`tables
      ensures Valid() && areas == l && mach.high == high
      ensures Steady(t, low, mach.mmu.tables, mach.low, mach.mmu.dirs, pd)
      ensures SameOutside(t, mach.mmu.tables, mach.mmu.dirs, pd, 0, 0)
      ensures P.Tight(t, mach.mmu.dirs) ==> |mach.low| == |low|
    {
      hide Coherent, P.DirsOk, P.Lookup, SameOutside, AllocAt, DestroyAt, Steady, P.Tight;
      ghost var x, y, needed := FirstPage(l, p), LastPage(l, p, size), Rounded(size);
      ghost var t1: P.Tables, low1 := mach.mmu.tables, mach.low;
      CoherentLayout(l, t, pd, high, lo, hi, 0, 0);
      LayoutAt(l, p, lo, hi);
      RoundUp(size, l[p].size);
      PlacedPages(l, p, needed, flags, zeros, areas[p].pages);
      AllocThenDestroy(l, p, needed, Allocated, flags, areas[p].pages, lo, hi);
      DestroyArea(p, x, y);
      SteadyTrans(t, low, t1, low1, mach.mmu.tables, mach.low, mach.mmu.dirs, pd);
      SameOutsideTrans(t, t1, mach.mmu.tables, mach.mmu.dirs, pd, x, y);
      SameListSameMap(l, t, mach.mmu.tables, mach.mmu.dirs, pd, high, mach.high, lo, hi, x, y);
      if P.Tight(t, mach.mmu.dirs) {
        SameEverywhere(t, mach.mmu.tables, mach.mmu.dirs, pd);
        SteadySame(t, low, mach.mmu.tables, mach.low, mach.mmu.dirs, pd);
      }
    }

    /** `vma_find_by_addr`. */
    method FindByAddr(ptr: nat) returns (r: int)
      ensures r == -1 || (0 <= r < |areas| && areas[r].start <= ptr < areas[r].start + areas[r].size)
      ensures r == -1 ==> forall i :: 0 <= i < |areas| ==> !(areas[i].start <= ptr < areas[i].start + areas[i].size)
    {
      var i := 0;
      while i < |areas|
        invariant 0 <= i <= |areas|
        invariant forall j :: 0 <= j < i ==> !(areas[j].start <= ptr < areas[j].start + areas[j].size)
      {
        if areas[i].start <= ptr < areas[i].start + areas[i].size {
          return i;
        }
        i := i + 1;
      }
      return -1;
    }

    /** The lazy branch of `page_fault_handler`: a fault in a lazy area for which there are frames maps
        all of it and makes it allocated; every other fault is a panic. */
    method PageFault(addr: nat) returns (panic: bool)
      requires Valid()
      modifies this`areas, mach`low, mach`high, mach.mmu`tables
      ensures var a := AreaAt(old(areas), addr / PAGE_SIZE);
              && (panic <==> !(a.Some? && a.value.state == Lazy
                               && Suffices(old(mach.mmu.tables), old(mach.low), old(mach.high), pd,
                                           a.value.start / PAGE_SIZE, (a.value.start + a.value.size) / PAGE_SIZE)))
              && (!panic ==>
                    && Valid() && P.Lookup(mach.mmu.tables, pd, addr / PAGE_SIZE).Some?
                    && SameOutside(old(mach.mmu.tables), mach.mmu.tables, mach.mmu.dirs, pd,
                                   a.value.start / PAGE_SIZE, (a.value.start + a.value.size) / PAGE_SIZE))
              && (a.Some? && a.value.state != Lazy ==> areas == old(areas))
      ensures !panic ==> Steady(old(mach.mmu.tables), old(mach.low), mach.mmu.tables, mach.low, mach.mmu.dirs, pd)
      ensures !panic ==>
                exists k: nat ::
                  && Populated(old(areas), areas, k) && FrameSet(areas[k].pages) <= old(mach.high)
                  && mach.high == old(mach.high) - FrameSet(areas[k].pages)
    {
      hide Coherent, P.DirsOk, P.Lookup, SameOutside, AreaAt, Suffices, Steady;
      ghost var t, high := mach.mmu.tables, mach.high;
      var k := FindByAddr(addr);
      CoherentLayout(areas, t, pd, high, lo, hi, 0, 0);
      FoundArea(areas, lo, hi, addr, k);
      if k == -1 || areas[k].state != Lazy {
        return true;
      }
      ghost var x, y := areas[k].start / PAGE_SIZE, (areas[k].start + areas[k].size) / PAGE_SIZE;
      Loosen(areas, t, pd, high, lo, hi, x, y);
      LazyArea(areas, t, pd, high, lo, hi, k, x, y);
      var ok := MapArea(k, x, y);
      if !ok {
        return true;
      }
      FinishCoherent(areas, mach.mmu.tables, pd, mach.high, lo, hi, x, y, k);
      CoherentLayout(areas, mach.mmu.tables, pd, mach.high, lo, hi, x, y);
      LayoutAt(areas, k, lo, hi);
      assert Mapped(areas, mach.mmu.tables, pd, k, addr / PAGE_SIZE - x);
      areas := areas[k := areas[k].(state := Allocated)];
      CoherentLayout(areas, mach.mmu.tables, pd, mach.high, lo, hi, 0, 0);
      assert Populated(old(areas), areas, k);
      return false;
    }

    /** `munmap`: destroys the whole area in use that starts at the address, or changes nothing. */
    method Munmap(addr: nat, length: nat) returns (ok: bool)
      requires Valid()
      modifies this`areas, mach`low, mach`high, mach.mmu`tables
      ensures Valid() && areas == if ok then Destroy(old(areas), addr) else old(areas)
      ensures Steady(old(mach.mmu.tables), old(mach.low), mach.mmu.tables, mach.low, mach.mmu.dirs, pd)
      ensures !ok ==> mach.mmu.tables == old(mach.mmu.tables) && mach.low == old(mach.low)
      ensures var k := Find(old(areas), addr);
              && (ok <==> addr != 0 && length != 0 && k < |old(areas)| && old(areas)[k].state != Free)
              && mach.high == (if ok then old(mach.high) + FrameSet(old(areas)[k].pages) else old(mach.high))
              && (ok ==> SameOutside(old(mach.mmu.tables), mach.mmu.tables, mach.mmu.dirs, pd, old(areas)[k].start / PAGE_SIZE,
                                     (old(areas)[k].start + old(areas)[k].size) / PAGE_SIZE))
    {
      hide Coherent, P.DirsOk, SameOutside, AreaAt, Steady;
      SteadyRefl(mach.mmu.tables, mach.low, mach.mmu.dirs, pd);
      var k := FindByStart(addr);
      if addr == 0 || length == 0 || k == -1 || (areas[k].state != Allocated && areas[k].state != Lazy) {
        return false;
      }
      ghost var x, y := areas[k].start / PAGE_SIZE, (areas[k].start + areas[k].size) / PAGE_SIZE;
      Loosen(areas, mach.mmu.tables, pd, mach.high, lo, hi, x, y);
      UsedArea(areas, mach.mmu.tables, pd, mach.high, lo, hi, k, x, y);
      DestroyArea(k, x, y);
      return true;
    }
  }

  /** A window in which nothing is mapped is coherent with one free area. */
  lemma FirstCoherent(t: P.Tables, pd: nat, high: set<nat>, lo: nat, hi: nat)
    requires lo % PAGE_SIZE == 0 && hi % PAGE_SIZE == 0 && lo < hi <= USER_END && 0 !in high
    requires forall v: nat :: InWindow(v, lo, hi) ==> P.Lookup(t, pd, v) == P.None
    ensures Coherent([FreeArea(lo, hi - lo)], t, pd, high, lo, hi, 0, 0)
  {
    var a := FreeArea(lo, hi - lo);
    OneArea(a);
    forall v: nat ensures AreaAt([a], v) == if Contains(a, v) then P.Some(a) else P.None { OneAreaAt(a, v); }
  }

  /** Area `k` went from lazy to allocated; its place and flags and all other areas are as before. */
  ghost predicate Populated(l: seq<Area>, l': seq<Area>, k: nat) {
    && k < |l| && k < |l'| && l[k].state == Lazy
    && l' == l[k := l[k].(state := Allocated, pages := l'[k].pages)]
  }

  lemma FoundArea(l: seq<Area>, lo: nat, hi: nat, addr: nat, k: int)
    requires Layout(l, lo, hi)
    requires k == -1 || (0 <= k < |l| && l[k].start <= addr < l[k].start + l[k].size)
    requires k == -1 ==> forall i :: 0 <= i < |l| ==> !(l[i].start <= addr < l[i].start + l[i].size)
    ensures AreaAt(l, addr / PAGE_SIZE) == if k >= 0 then P.Some(l[k]) else P.None
  {
    hide AreaAt;
    if k >= 0 {
      LayoutAt(l, k, lo, hi);
      AreaAtIndexL(l, k, lo, hi, addr / PAGE_SIZE);
    } else if AreaAt(l, addr / PAGE_SIZE).Some? {
      var i := AreaAtFound(l, addr / PAGE_SIZE);
      LayoutAt(l, i, lo, hi);
    }
  }

  lemma {:induction false} AreaAtFound(l: seq<Area>, v: nat) returns (i: nat)
    requires AreaAt(l, v).Some?
    ensures i < |l| && Contains(l[i], v)
  {
    if Contains(l[0], v) {
      i := 0;
    } else {
      var j := AreaAtFound(l[1..], v);
      i := j + 1;
    }
  }

  lemma UsedArea(l: seq<Area>, t: P.Tables, pd: nat, high: set<nat>, lo: nat, hi: nat, k: nat, x: nat, y: nat)
    requires Coherent(l, t, pd, high, lo, hi, 0, 0) && k < |l| && l[k].state != Free
    requires x == l[k].start / PAGE_SIZE && y == (l[k].start + l[k].size) / PAGE_SIZE
    ensures Working(l, k, x, y)
  {
    hide AreaAt;
    LayoutAt(l, k, lo, hi);
    AreaAtIndexL(l, k, lo, hi, x);
    assert PageOk(l, t, pd, x, false);
  }

  lemma LazyArea(l: seq<Area>, t: P.Tables, pd: nat, high: set<nat>, lo: nat, hi: nat, k: nat, x: nat, y: nat)
    requires Coherent(l, t, pd, high, lo, hi, 0, 0) && k < |l| && l[k].state == Lazy
    requires x == l[k].start / PAGE_SIZE && y == (l[k].start + l[k].size) / PAGE_SIZE
    ensures Working(l, k, x, y) && forall i :: 0 <= i < |l[k].pages| ==> l[k].pages[i] == 0
  {
    hide AreaAt;
    UsedArea(l, t, pd, high, lo, hi, k, x, y);
    LayoutAt(l, k, lo, hi);
    forall i | 0 <= i < |l[k].pages| ensures l[k].pages[i] == 0 {
      AreaAtIndexL(l, k, lo, hi, x + i);
      assert PageOk(l, t, pd, x + i, false);
    }
  }

  /** The area list after a successful allocation: one new area of whole pages, carved from the
      bottom of a free area. */
  ghost predicate Placed(l: seq<Area>, l': seq<Area>, k: nat, size: nat, flags: bv12, mode: Mode) {
    && k < |l| && k < |l'| && l[k].state == Free
    && var needed := (size + PAGE_SIZE - 1) / PAGE_SIZE * PAGE_SIZE;
       && needed <= l[k].size
       && l' == AllocAt(l, k, needed, if mode == Eager then Allocated else Lazy, flags, l'[k].pages)
  }

  lemma CoherentLayout(l: seq<Area>, t: P.Tables, pd: nat, high: set<nat>, lo: nat, hi: nat, x: nat, y: nat)
    requires Coherent(l, t, pd, high, lo, hi, x, y)
    ensures Layout(l, lo, hi) && hi <= USER_END
  {
  }

  lemma PlacedPages(l: seq<Area>, k: nat, needed: nat, flags: bv12, pages: seq<nat>, pages': seq<nat>)
    requires k < |l| && needed <= l[k].size
    ensures var l1 := AllocAt(l, k, needed, Allocated, flags, pages);
            k < |l1| && l1[k := l1[k].(pages := pages')] == AllocAt(l, k, needed, Allocated, flags, pages')
  {
  }

  /** The same list, coherent with two directories that agree elsewhere, means the same mappings. */
  lemma SameListSameMap(l: seq<Area>, t: P.Tables, t': P.Tables, dirs: set<nat>, pd: nat,
                        high: set<nat>, high': set<nat>, lo: nat, hi: nat, x: nat, y: nat)
    requires Coherent(l, t, pd, high, lo, hi, 0, 0) && Coherent(l, t', pd, high', lo, hi, 0, 0)
    requires SameOutside(t, t', dirs, pd, x, y) && lo <= x * PAGE_SIZE && y * PAGE_SIZE <= hi
    ensures SameOutside(t, t', dirs, pd, 0, 0)
  {
    hide AreaAt;
    hide Layout;
    hide P.Lookup;
    forall d, v: nat | d in dirs && P.Owned(v / 1024) ensures P.Lookup(t', d, v) == P.Lookup(t, d, v) {
      if d == pd && x <= v < y {
        assert InWindow(v, lo, hi);
        assert PageOk(l, t, pd, v, false) && PageOk(l, t', pd, v, false);
      }
    }
  }

  lemma RoundUp(size: nat, areaSize: nat)
    requires 0 < size <= areaSize && areaSize % PAGE_SIZE == 0
    ensures var needed := (size + PAGE_SIZE - 1) / PAGE_SIZE * PAGE_SIZE;
            size <= needed <= areaSize && needed % PAGE_SIZE == 0 && needed < size + PAGE_SIZE
  {
  }

  /** Two neighbouring free areas become one. */
  function Merged(l: seq<Area>, i: nat): seq<Area>
    requires i + 1 < |l|
  {
    if l[i].state == Free && l[i + 1].state == Free && l[i].start + l[i].size == l[i + 1].start
    then l[..i] + [l[i].(size := l[i].size + l[i + 1].size)] + l[i + 2..]
    else l
  }

  /** Freeing an area and merging it with its next and previous neighbour. */
  lemma MergesDestroy(l: seq<Area>, k: nat, lo: nat)
    requires k < |l| && Contiguous(l, lo)
    ensures var l1 := l[k := FreeArea(l[k].start, l[k].size)];
            var l2 := if k + 1 < |l1| then Merged(l1, k) else l1;
            && k < |l2|
            && (if k > 0 then Merged(l2, k - 1) else l2) == DestroyAt(l, k)
  {
    hide Contiguous, Merged, DestroyAt;
    StartOf(l, k, lo);
    if k > 0 { StartOf(l, k - 1, lo); }
    if k + 1 < |l| { StartOf(l, k + 1, lo); }
    var j := if FreeAt(l, k + 1) then k + 2 else k + 1;
    var b := FreeArea(l[k].start, l[k].size + if FreeAt(l, k + 1) then l[k + 1].size else 0);
    DestroyForm(l, k, j, b);
    MergeNextIs(l, k, j, b);
    if k > 0 { MergePrevIs(l, k, j, b); }
  }

  lemma DestroyForm(l: seq<Area>, k: nat, j: nat, b: Area)
    requires k < |l| && j == (if FreeAt(l, k + 1) then k + 2 else k + 1)
    requires b == FreeArea(l[k].start, l[k].size + if FreeAt(l, k + 1) then l[k + 1].size else 0)
    ensures k < j <= |l|
    ensures DestroyAt(l, k) == if FreeAt(l, k - 1)
                               then l[..k - 1] + [FreeArea(l[k - 1].start, l[k - 1].size + b.size)] + l[j..]
                               else l[..k] + [b] + l[j..]
  {
  }

  lemma MergeNextIs(l: seq<Area>, k: nat, j: nat, b: Area)
    requires k < |l| && j == (if FreeAt(l, k + 1) then k + 2 else k + 1)
    requires b == FreeArea(l[k].start, l[k].size + if FreeAt(l, k + 1) then l[k + 1].size else 0)
    requires k + 1 < |l| ==> l[k].start + l[k].size == l[k + 1].start
    ensures var l1 := l[k := FreeArea(l[k].start, l[k].size)];
            (if k + 1 < |l1| then Merged(l1, k) else l1) == l[..k] + [b] + l[j..]
  {
  }

  lemma MergePrevIs(l: seq<Area>, k: nat, j: nat, b: Area)
    requires 0 < k < j <= |l| && AreaOk(l[k - 1]) && l[k - 1].start + l[k - 1].size == b.start
    requires b == FreeArea(b.start, b.size)
    ensures Merged(l[..k] + [b] + l[j..], k - 1)
            == if FreeAt(l, k - 1)
               then l[..k - 1] + [FreeArea(l[k - 1].start, l[k - 1].size + b.size)] + l[j..]
               else l[..k] + [b] + l[j..]
  {
  }

  lemma SameOutsideTrans(t: P.Tables, t1: P.Tables, t2: P.Tables, dirs: set<nat>, pd: nat, x: nat, y: nat)
    requires SameOutside(t, t1, dirs, pd, x, y) && SameOutside(t1, t2, dirs, pd, x, y)
    ensures SameOutside(t, t2, dirs, pd, x, y)
  {
  }

  lemma SameOutsideRefl(t: P.Tables, dirs: set<nat>, pd: nat, x: nat, y: nat)
    ensures SameOutside(t, t, dirs, pd, x, y)
  {
  }

  /** A page of the area being worked on is a user page. */
  lemma WorkingPage(l: seq<Area>, t: P.Tables, pd: nat, high: set<nat>, lo: nat, hi: nat, x: nat, y: nat, k: nat, i: nat)
    requires Coherent(l, t, pd, high, lo, hi, x, y) && Working(l, k, x, y) && i < |l[k].pages|
    ensures k < |l| && var v := l[k].start / PAGE_SIZE + i; x <= v < y && P.Owned(v / 1024)
    ensures l[k].flags & P.PRESENT != 0
  {
    LayoutAt(l, k, lo, hi);
    var v := l[k].start / PAGE_SIZE + i;
    assert Contains(l[k], v);
    AreaAtIndexL(l, k, lo, hi, v);
    assert PageOk(l, t, pd, v, x <= v < y);
    UserOwned(v, hi);
  }

  /** A page that has been unmapped, if it was mapped, can give its frame back. */
  lemma ReleasedCoherent(l: seq<Area>, t: P.Tables, t': P.Tables, dirs: set<nat>, pd: nat, high: set<nat>,
                         lo: nat, hi: nat, x: nat, y: nat, k: nat, i: nat, v: nat)
    requires Coherent(l, t, pd, high, lo, hi, x, y) && Working(l, k, x, y) && i < |l[k].pages| && l[k].pages[i] != 0
    requires v == l[k].start / PAGE_SIZE + i && pd in dirs
    requires if P.Lookup(t, pd, v).Some? then P.Updated(t, t', dirs, pd, v, P.None) else t' == t
    ensures Coherent(WithPage(l, k, i, 0), t', pd, high + {l[k].pages[i]}, lo, hi, x, y)
    ensures Working(WithPage(l, k, i, 0), k, x, y) && SameOutside(t, t', dirs, pd, x, y)
  {
    hide Coherent, P.Lookup, P.Updated, SameOutside, WithPage;
    WorkingPage(l, t, pd, high, lo, hi, x, y, k, i);
    SameOutsideRefl(t, dirs, pd, x, y);
    if P.Lookup(t, pd, v).Some? {
      UpdatedAt(t, t', dirs, pd, v, P.None);
      MapCoherent(l, t, t', dirs, pd, high, lo, hi, x, y, k, i, P.None);
      OutsideStep(t, t, t', dirs, pd, x, y, v, P.None);
    }
    UnfillCoherent(l, t', pd, high, lo, hi, x, y, k, i);
  }

  lemma UpdatedAt(t: P.Tables, t': P.Tables, dirs: set<nat>, pd: nat, v: nat, e: P.Option<Entry>)
    requires P.Updated(t, t', dirs, pd, v, e)
    ensures P.Lookup(t', pd, v) == e
  {
  }

  lemma MappedStays(l: seq<Area>, t: P.Tables, t': P.Tables, dirs: set<nat>, pd: nat, k: nat, j: nat, i: nat)
    requires k < |l| && j < |l[k].pages| && i < |l[k].pages| && l[k].pages[i] != 0 && pd in dirs
    requires P.Updated(t, t', dirs, pd, l[k].start / PAGE_SIZE + i, P.Some(P.Entry(l[k].pages[i], l[k].flags)))
    requires (j == i || Mapped(l, t, pd, k, j)) && P.Owned((l[k].start / PAGE_SIZE + j) / 1024)
    ensures Mapped(l, t', pd, k, j)
  {
    hide P.Lookup, P.DirsOk, P.KeepsNonEmpty;
  }

  lemma WorkingWhole(l: seq<Area>, t: P.Tables, pd: nat, high: set<nat>, lo: nat, hi: nat, x: nat, y: nat, k: nat)
    requires Coherent(l, t, pd, high, lo, hi, x, y) && Working(l, k, x, y)
    ensures k < |l| && y == x + |l[k].pages| && x < y
  {
    hide AreaAt;
    LayoutAt(l, k, lo, hi);
  }

  /** The slot of an area's page that has no table yet. */
  lemma UnbuiltSome(t: P.Tables, pd: nat, v: nat, x: nat, y: nat)
    requires x <= v < y && P.Owned(v / 1024) && !P.SlotPresent(t, pd, v / 1024)
    ensures |Unbuilt(t, pd, x / 1024, (y + 1023) / 1024)| >= 1
  {
    assert v / 1024 in Unbuilt(t, pd, x / 1024, (y + 1023) / 1024);
  }

  /** Once all pages of an area are mapped, no slot of it lacks a table. */
  lemma UnbuiltNone(l: seq<Area>, t: P.Tables, pd: nat, k: nat, x: nat, y: nat)
    requires k < |l| && x == l[k].start / PAGE_SIZE && y == x + |l[k].pages| && x < y
    requires forall i: nat :: i < |l[k].pages| ==> Mapped(l, t, pd, k, i)
    ensures Unbuilt(t, pd, x / 1024, (y + 1023) / 1024) == {}
  {
    forall s: nat | x / 1024 <= s < (y + 1023) / 1024 && P.Owned(s) ensures P.SlotPresent(t, pd, s) {
      var v := if s * 1024 < x then x else s * 1024;
      assert v / 1024 == s && v < y;
      assert Mapped(l, t, pd, k, v - x);
    }
  }

  /** Enough frames for the pages `x ..< y`, and for the tables that they still need. */
  ghost predicate Suffices(t: P.Tables, low: set<nat>, high: set<nat>, pd: nat, x: nat, y: nat) {
    y - x <= |high| && |Unbuilt(t, pd, x / 1024, (y + 1023) / 1024)| <= |low|
  }

  /** First free area from index `i` on that holds `size` bytes, or -1. */
  function FitFrom(l: seq<Area>, size: nat, i: nat): int
    decreases |l| - i
  {
    if i >= |l| then -1 else if l[i].state == Free && l[i].size >= size then i else FitFrom(l, size, i + 1)
  }

  /** The free area that an allocation takes: the one at the hint if it fits, else the first fit. */
  function PickIndex(l: seq<Area>, hint: nat, size: nat): int {
    var i := if hint == 0 then |l| else Find(l, hint);
    if i < |l| && l[i].state == Free && l[i].size >= size then i else FitFrom(l, size, 0)
  }

  /** An allocation finds a free area exactly when there is one that is large enough; without a fitting
      area at the hint it is the lowest one. */
  lemma PickFits(l: seq<Area>, hint: nat, size: nat)
    ensures var k := PickIndex(l, hint, size);
            && (k == -1 || (0 <= k < |l| && l[k].state == Free && l[k].size >= size))
            && (k == -1 || l[k].start != hint || hint == 0 ==>
                  forall j :: 0 <= j < (if k == -1 then |l| else k) ==> !(l[j].state == Free && l[j].size >= size))
            && (HintFits(l, hint, size) && StartsApart(l) ==> k >= 0 && l[k].start == hint)
  {
    FitFits(l, size, 0);
  }

  lemma StartsDiffer(l: seq<Area>, lo: nat, hi: nat)
    requires Layout(l, lo, hi)
    ensures StartsApart(l)
  {
    hide Contiguous, End, NoFreeNeighbours;
    forall i, j | 0 <= i < j < |l| ensures l[i].start != l[j].start { StartsDistinct(l, lo, i, j); }
  }

  /** The area at the hint is free and large enough. */
  ghost predicate HintFits(l: seq<Area>, hint: nat, size: nat) {
    hint != 0 && exists i :: 0 <= i < |l| && l[i].start == hint && l[i].state == Free && l[i].size >= size
  }

  ghost predicate StartsApart(l: seq<Area>) {
    forall i, j :: 0 <= i < j < |l| ==> l[i].start != l[j].start
  }

  lemma {:induction false} FitFits(l: seq<Area>, size: nat, i: nat)
    ensures var k := FitFrom(l, size, i);
            && (k == -1 || (0 <= k < |l| && l[k].state == Free && l[k].size >= size))
            && forall j :: i <= j < (if k == -1 then |l| else k) ==> !(l[j].state == Free && l[j].size >= size)
    decreases |l| - i
  {
    if i < |l| { FitFits(l, size, i + 1); }
  }

  /** The kernel-heap allocations that placing an area at index `k` needs have succeeded. */
  predicate MayPlace(l: seq<Area>, k: int, size: nat, nodeOk: bool, pagesOk: bool) {
    0 <= k < |l| && (Rounded(size) != l[k].size ==> nodeOk) && pagesOk
  }

  /** The pages of an area placed at the bottom of area `k`. */
  function FirstPage(l: seq<Area>, k: int): nat {
    if 0 <= k < |l| then l[k].start / PAGE_SIZE else 0
  }

  function LastPage(l: seq<Area>, k: int, size: nat): nat {
    if 0 <= k < |l| then (l[k].start + Rounded(size)) / PAGE_SIZE else 0
  }

  lemma SameEverywhere(t: P.Tables, t': P.Tables, dirs: set<nat>, pd: nat)
    requires SameOutside(t, t', dirs, pd, 0, 0) && pd in dirs
    ensures forall v: nat :: P.Owned(v / 1024) ==> P.Lookup(t', pd, v) == P.Lookup(t, pd, v)
  {
    hide P.Lookup;
  }

  function Rounded(size: nat): nat {
    (size + PAGE_SIZE - 1) / PAGE_SIZE * PAGE_SIZE
  }

  lemma NoFrames(pages: seq<nat>)
    requires forall i :: 0 <= i < |pages| ==> pages[i] == 0
    ensures FrameSet(pages) == {}
  {
  }

  lemma FrameSetNext(pages: seq<nat>, i: nat)
    requires i < |pages|
    ensures FrameSet(pages[..i + 1]) == FrameSet(pages[..i]) + (if pages[i] == 0 then {} else {pages[i]})
  {
  }

  lemma SameDestroy(l: seq<Area>, l': seq<Area>, k: nat)
    requires k < |l| && k < |l'| && l' == l[k := l[k].(pages := l'[k].pages)]
    ensures DestroyAt(l', k) == DestroyAt(l, k)
  {
  }

  lemma BusyLayout(l: seq<Area>, t: P.Tables, pd: nat, high: set<nat>, lo: nat, hi: nat, x: nat, y: nat,
                   l0: seq<Area>, k: nat)
    requires Coherent(l, t, pd, high, lo, hi, x, y) && k < |l| && k < |l0|
    requires l == l0[k := l0[k].(pages := l[k].pages)] && l[k].state != Free
    ensures Layout(l0, lo, hi)
  {
    hide AreaAt;
    UpdateLayout(l, k, l0[k], lo, hi);
    assert l0 == l[k := l0[k]];
  }

  lemma ZeroNotFree(l: seq<Area>, t: P.Tables, pd: nat, high: set<nat>, lo: nat, hi: nat, x: nat, y: nat)
    requires Coherent(l, t, pd, high, lo, hi, x, y)
    ensures 0 !in high
  {
  }

  lemma FrameSetAdd(pages: seq<nat>, i: nat, f: nat)
    requires i < |pages| && pages[i] == 0 && f != 0
    ensures FrameSet(pages[i := f]) == FrameSet(pages) + {f}
  {
    var p := pages[i := f];
    assert p[i] == f;
    forall g | g in FrameSet(pages) ensures g in FrameSet(p) {
      var j :| 0 <= j < |pages| && pages[j] == g;
      assert p[j] == g;
    }
  }
}
