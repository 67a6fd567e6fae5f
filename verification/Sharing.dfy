/** Tasks that share one machine: what one of them does to its own address space leaves the others' list,
    mappings and frames coherent. */
module Sharing {
  import opened VmaLayout
  import opened AddressSpace
  import opened Memory
  import opened Vma
  import P = Paging

  /** No frame is held in both windows. */
  ghost predicate NoCommon(l: seq<Area>, lo: nat, hi: nat, m: seq<Area>, lo': nat, hi': nat) {
    forall v: nat, w: nat :: InWindow(v, lo, hi) && InWindow(w, lo', hi') && Held(l, v) != 0 ==> Held(l, v) != Held(m, w)
  }

  ghost predicate Together(ts: seq<TaskMemory>)
    reads ts, set t | t in ts :: t.mach, set t | t in ts :: t.mach.mmu
  {
    && (forall i :: 0 <= i < |ts| ==> ts[i].mach == ts[0].mach && ts[i].Valid())
    && (forall i, j :: 0 <= i < |ts| && 0 <= j < |ts| && i != j ==>
          ts[i] != ts[j] && ts[i].pd != ts[j].pd && Apart(HolderOf(ts[i]), HolderOf(ts[j])))
  }

  ghost function HolderOf(t: TaskMemory): Holder
    reads t
  {
    Holder(t.areas, t.pd, t.lo, t.hi)
  }

  /** Every frame held after was held before at the same page, or comes from `frames`. */
  ghost predicate HeldFrom(l: seq<Area>, l': seq<Area>, lo: nat, hi: nat, frames: set<nat>) {
    forall v: nat :: InWindow(v, lo, hi) ==> Held(l', v) == 0 || Held(l', v) == Held(l, v) || Held(l', v) in frames
  }

  // ---------------------------------------------------------------- the task itself

  lemma HeldInFrames(a: Area, v: nat)
    ensures HeldIn(a, v) == 0 || HeldIn(a, v) in FrameSet(a.pages)
  {
  }

  lemma PlacedHeld(l: seq<Area>, l': seq<Area>, k: nat, size: nat, flags: bv12, mode: Mode, lo: nat, hi: nat)
    requires Layout(l, lo, hi) && 0 < size && Placed(l, l', k, size, flags, mode)
    ensures HeldFrom(l, l', lo, hi, FrameSet(l'[k].pages))
  {
    hide AreaAt, Layout, FrameSet;
    var needed := (size + PAGE_SIZE - 1) / PAGE_SIZE * PAGE_SIZE;
    var state := if mode == Eager then Allocated else Lazy;
    LayoutAt(l, k, lo, hi);
    AllocParts(l, k, needed, state, flags, l'[k].pages);
    var a := Area(l[k].start, needed, state, flags, l'[k].pages);
    forall v: nat | InWindow(v, lo, hi)
      ensures Held(l', v) == 0 || Held(l', v) == Held(l, v) || Held(l', v) in FrameSet(l'[k].pages)
    {
      AllocAreaAt(l, k, needed, state, flags, l'[k].pages, lo, hi, v);
      HeldInFrames(a, v);
    }
  }

  lemma PopulatedHeld(l: seq<Area>, l': seq<Area>, k: nat, lo: nat, hi: nat)
    requires Layout(l, lo, hi) && Populated(l, l', k)
    ensures HeldFrom(l, l', lo, hi, FrameSet(l'[k].pages))
  {
    hide AreaAt, Layout, FrameSet;
    UpdateLayout(l, k, l'[k], lo, hi);
    forall v: nat | InWindow(v, lo, hi)
      ensures Held(l', v) == 0 || Held(l', v) == Held(l, v) || Held(l', v) in FrameSet(l'[k].pages)
    {
      HeldInFrames(l'[k], v);
    }
  }

  lemma DestroyedHeld(l: seq<Area>, k: nat, lo: nat, hi: nat)
    requires Layout(l, lo, hi) && k < |l| && l[k].state != Free
    ensures HeldFrom(l, DestroyAt(l, k), lo, hi, {})
  {
    hide AreaAt, Layout, DestroyAt;
    forall v: nat | InWindow(v, lo, hi) ensures Held(DestroyAt(l, k), v) == 0 || Held(DestroyAt(l, k), v) == Held(l, v) {
      DropAt(l, k, lo, hi, v);
    }
  }

  /** A frame of an area is held at one of its pages. */
  lemma FramesAreHeld(l: seq<Area>, t: P.Tables, pd: nat, high: set<nat>, lo: nat, hi: nat, k: nat, f: nat) returns (v: nat)
    requires Coherent(l, t, pd, high, lo, hi, 0, 0) && k < |l| && l[k].state != Free && f in FrameSet(l[k].pages)
    ensures InWindow(v, lo, hi) && Held(l, v) == f && f != 0
  {
    hide AreaAt;
    UsedArea(l, t, pd, high, lo, hi, k, l[k].start / PAGE_SIZE, (l[k].start + l[k].size) / PAGE_SIZE);
    LayoutAt(l, k, lo, hi);
    var i :| 0 <= i < |l[k].pages| && l[k].pages[i] == f;
    v := l[k].start / PAGE_SIZE + i;
    AreaAtIndexL(l, k, lo, hi, v);
  }

  // ---------------------------------------------------------------- the other tasks

  /** Another directory, and frames that are still not free. */
  lemma OtherCoherent(l: seq<Area>, t: P.Tables, t': P.Tables, dirs: set<nat>, pd: nat, high: set<nat>, high': set<nat>,
                      lo: nat, hi: nat, other: nat, x: nat, y: nat)
    requires Coherent(l, t, pd, high, lo, hi, 0, 0) && pd in dirs && pd != other
    requires SameOutside(t, t', dirs, other, x, y)
    requires 0 !in high' && forall v: nat :: InWindow(v, lo, hi) ==> Held(l, v) !in high'
    ensures Coherent(l, t', pd, high', lo, hi, 0, 0)
  {
    hide Layout, AreaAt, P.Lookup;
    forall v: nat | InWindow(v, lo, hi) ensures PageOk(l, t', pd, v, false) {
      assert PageOk(l, t, pd, v, false);
      UserOwned(v, hi);
    }
  }

  lemma FrameFacts(l: seq<Area>, t: P.Tables, pd: nat, high: set<nat>, lo: nat, hi: nat)
    requires Coherent(l, t, pd, high, lo, hi, 0, 0)
    ensures 0 !in high && forall v: nat :: InWindow(v, lo, hi) ==> Held(l, v) !in high
  {
  }

  /** Frames that were free or held by the one task are not held by the other. */
  lemma NoCommonKept(l: seq<Area>, l': seq<Area>, lo: nat, hi: nat, m: seq<Area>, lo': nat, hi': nat, high: set<nat>, frames: set<nat>)
    requires NoCommon(l, lo, hi, m, lo', hi') && NoCommon(m, lo', hi', l, lo, hi) && HeldFrom(l, l', lo, hi, frames) && frames <= high
    requires 0 !in high && forall w: nat :: InWindow(w, lo', hi') ==> Held(m, w) !in high
    ensures NoCommon(l', lo, hi, m, lo', hi') && NoCommon(m, lo', hi', l', lo, hi)
  {
    hide Held;
  }

  // ---------------------------------------------------------------- operations of one task among many

  /** A task: its list, directory and window. */
  datatype Holder = Holder(l: seq<Area>, pd: nat, lo: nat, hi: nat)

  ghost predicate Apart(a: Holder, b: Holder) {
    NoCommon(a.l, a.lo, a.hi, b.l, b.lo, b.hi) && NoCommon(b.l, b.lo, b.hi, a.l, a.lo, a.hi)
  }

  /** What an operation of `a` may have done, as its contract says: it turned `a` into `a'`, took `frames` from
      the free ones and gave `back` some of its own. Then `b` is still coherent, and apart from `a'`. */
  lemma OtherStays(a: Holder, a': Holder, b: Holder, t: P.Tables, t': P.Tables, dirs: set<nat>,
                   high: set<nat>, high': set<nat>, x: nat, y: nat, frames: set<nat>, back: set<nat>)
    requires Apart(a, b) && a'.lo == a.lo && a'.hi == a.hi && b.pd in dirs && b.pd != a.pd
    requires Coherent(b.l, t, b.pd, high, b.lo, b.hi, 0, 0) && SameOutside(t, t', dirs, a.pd, x, y) && 0 !in high'
    requires frames <= high && high' <= high + back && HeldFrom(a.l, a'.l, a.lo, a.hi, frames)
    requires forall f :: f in back ==> exists v: nat :: InWindow(v, a.lo, a.hi) && Held(a.l, v) == f && f != 0
    ensures Coherent(b.l, t', b.pd, high', b.lo, b.hi, 0, 0) && Apart(a', b) && Apart(b, a')
  {
    hide Coherent, Held, SameOutside, HeldFrom;
    FrameFacts(b.l, t, b.pd, high, b.lo, b.hi);
    NoCommonKept(a.l, a'.l, a.lo, a.hi, b.l, b.lo, b.hi, high, frames);
    OtherCoherent(b.l, t, t', dirs, b.pd, high, high', b.lo, b.hi, a.pd, x, y);
  }

  method AllocAmong(ghost ts: seq<TaskMemory>, ghost i: nat, a: TaskMemory, size: nat, flags: bv12, hint: nat, mode: Mode, nodeOk: bool, pagesOk: bool)
    returns (r: P.Option<nat>)
    requires Together(ts) && i < |ts| && ts[i] == a && size > 0 && flags & P.PRESENT != 0
    modifies a`areas, a.mach`low, a.mach`high, a.mach.mmu`tables
    ensures Together(ts)
  {
    hide Coherent, Held, SameOutside, P.DirsOk, HeldFrom, Apart, Steady, Suffices, FrameSet, PickIndex;
    ghost var was, l, t: P.Tables, high := HolderOf(a), a.areas, a.mach.mmu.tables, a.mach.high;
    ghost var k := PickIndex(l, hint, size);
    CoherentLayout(l, t, a.pd, high, a.lo, a.hi, 0, 0);
    r := a.Alloc(size, flags, hint, mode, nodeOk, pagesOk);
    ghost var x, y, frames := 0, 0, {};
    if r.Some? {
      PlacedHeld(l, a.areas, k, size, flags, mode, a.lo, a.hi);
      x, y, frames := FirstPage(l, k), LastPage(l, k, size), FrameSet(a.areas[k].pages);
    } else {
      SameHeld(l, a.lo, a.hi);
    }
    ghost var t', high' := a.mach.mmu.tables, a.mach.high;
    FrameFacts(a.areas, t', a.pd, high', a.lo, a.hi);
    forall j | 0 <= j < |ts| && j != i
      ensures ts[j].Valid() && Apart(HolderOf(a), HolderOf(ts[j])) && Apart(HolderOf(ts[j]), HolderOf(a))
    {
      OtherStays(was, HolderOf(a), HolderOf(ts[j]), t, t', a.mach.mmu.dirs, high, high', x, y, frames, {});
    }
  }

  lemma SameHeld(l: seq<Area>, lo: nat, hi: nat)
    ensures HeldFrom(l, l, lo, hi, {})
  {
  }

  method PageFaultAmong(ghost ts: seq<TaskMemory>, ghost i: nat, a: TaskMemory, addr: nat) returns (panic: bool)
    requires Together(ts) && i < |ts| && ts[i] == a
    modifies a`areas, a.mach`low, a.mach`high, a.mach.mmu`tables
    ensures !panic ==> Together(ts)
  {
    hide Coherent, Held, SameOutside, P.DirsOk, HeldFrom, Apart, Steady, Suffices, FrameSet, AreaAt;
    ghost var was, l, t: P.Tables, high := HolderOf(a), a.areas, a.mach.mmu.tables, a.mach.high;
    CoherentLayout(l, t, a.pd, high, a.lo, a.hi, 0, 0);
    panic := a.PageFault(addr);
    if !panic {
      ghost var area := AreaAt(l, addr / PAGE_SIZE).value;
      ghost var k: nat :| Populated(l, a.areas, k) && FrameSet(a.areas[k].pages) <= old(a.mach.high)
                          && a.mach.high == old(a.mach.high) - FrameSet(a.areas[k].pages);
      PopulatedHeld(l, a.areas, k, a.lo, a.hi);
      ghost var t', high' := a.mach.mmu.tables, a.mach.high;
      FrameFacts(a.areas, t', a.pd, high', a.lo, a.hi);
      forall j | 0 <= j < |ts| && j != i
        ensures ts[j].Valid() && Apart(HolderOf(a), HolderOf(ts[j])) && Apart(HolderOf(ts[j]), HolderOf(a))
      {
        OtherStays(was, HolderOf(a), HolderOf(ts[j]), t, t', a.mach.mmu.dirs, high, high',
                   area.start / PAGE_SIZE, (area.start + area.size) / PAGE_SIZE, FrameSet(a.areas[k].pages), {});
      }
    }
  }

  method MunmapAmong(ghost ts: seq<TaskMemory>, ghost i: nat, a: TaskMemory, addr: nat, length: nat) returns (ok: bool)
    requires Together(ts) && i < |ts| && ts[i] == a
    modifies a`areas, a.mach`low, a.mach`high, a.mach.mmu`tables
    ensures Together(ts)
  {
    hide Coherent, Held, SameOutside, P.DirsOk, HeldFrom, Apart, Steady, FrameSet, AreaAt, DestroyAt;
    ghost var was, l, t: P.Tables, high := HolderOf(a), a.areas, a.mach.mmu.tables, a.mach.high;
    ghost var k := Find(l, addr);
    CoherentLayout(l, t, a.pd, high, a.lo, a.hi, 0, 0);
    ok := a.Munmap(addr, length);
    ghost var x, y, back := 0, 0, {};
    if ok {
      DestroyedHeld(l, k, a.lo, a.hi);
      back := FrameSet(l[k].pages);
      forall f | f in back ensures exists v: nat :: InWindow(v, a.lo, a.hi) && Held(l, v) == f && f != 0 {
        var v := FramesAreHeld(l, t, a.pd, high, a.lo, a.hi, k, f);
      }
      x, y := l[k].start / PAGE_SIZE, (l[k].start + l[k].size) / PAGE_SIZE;
    } else {
      SameHeld(l, a.lo, a.hi);
      SameOutsideRefl(t, a.mach.mmu.dirs, a.pd, 0, 0);
    }
    ghost var t', high' := a.mach.mmu.tables, a.mach.high;
    FrameFacts(a.areas, t', a.pd, high', a.lo, a.hi);
    forall j | 0 <= j < |ts| && j != i
      ensures ts[j].Valid() && Apart(HolderOf(a), HolderOf(ts[j])) && Apart(HolderOf(ts[j]), HolderOf(a))
    {
      OtherStays(was, HolderOf(a), HolderOf(ts[j]), t, t', a.mach.mmu.dirs, high, high', x, y, {}, back);
    }
  }
}
