/** Allocation at boot: blocks are carved out of the free regions of a zone and recorded as reserved. */
module BootZones {
  import opened BootRegions
  import Bits

  const LOWMEM: nat := 0
  const DMA: nat := 1
  const HIGHMEM: nat := 2
  const LOWMEM_START: nat := 0x0100_0000
  const HIGHMEM_START: nat := 0x3800_0000
  const HIGHMEM_END: nat := 0xFFFF_FFFF
  const TWO32: nat := 0x1_0000_0000
  const MAX_REGIONS: nat := 256
  const MAX_ZONE: nat := 3

  function ZoneOf(x: nat): (r: nat)
    ensures r < MAX_ZONE
  {
    if x >= HIGHMEM_START then HIGHMEM else if x >= LOWMEM_START then LOWMEM else DMA
  }

  function ZoneEnd(z: nat): nat {
    if z == HIGHMEM then HIGHMEM_END else if z == LOWMEM then HIGHMEM_START else LOWMEM_START
  }

  datatype Zone = Zone(free: seq<Region>, res: seq<Region>)

  predicate FreeOk(free: seq<Region>, id: nat) {
    Apart(free) && forall r :: r in free ==> r.start < r.end <= ZoneEnd(id) && ZoneOf(r.start) == id
  }

  /** Free regions are disjoint, inside the zone, and clear of the reserved ones. */
  ghost predicate ZoneOk(z: Zone, id: nat) {
    FreeOk(z.free, id) && Proper(z.res) && forall x :: Covers(z.free, x) ==> !Covers(z.res, x)
  }

  // ---------------------------------------------------------------- carving a block

  function SwapOut(s: seq<Region>, i: nat): seq<Region>
    requires i < |s|
  {
    s[i := s[|s| - 1]][..|s| - 1]
  }

  /** `[a, e)` leaves region `i`: what is right of it becomes a new entry, what is left of it stays in
      place, and an empty entry is replaced by the last one. */
  function CarveFree(free: seq<Region>, i: nat, a: nat, e: nat): seq<Region>
    requires i < |free|
  {
    var reg := free[i];
    var f := if e < reg.end then free + [Region(e, reg.end)] else free;
    if reg.start >= a then SwapOut(f, i) else f[i := Region(reg.start, a)]
  }

  function Reserve(res: seq<Region>, a: nat, e: nat): seq<Region> {
    Merged(Sorted(res + [Region(a, e)]))
  }

  ghost predicate Carvable(free: seq<Region>, i: nat, a: nat, e: nat) {
    i < |free| && free[i].start <= a <= e <= free[i].end
  }

  lemma SwapOutEntries(s: seq<Region>, i: nat)
    requires i < |s|
    ensures forall k :: 0 <= k < |s| - 1 ==> SwapOut(s, i)[k] == s[if k == i then |s| - 1 else k]
    ensures |SwapOut(s, i)| == |s| - 1
  {
  }

  lemma SwapOutApart(s: seq<Region>, i: nat)
    requires i < |s| && Apart(s)
    ensures Apart(SwapOut(s, i))
    ensures forall r :: r in SwapOut(s, i) ==> r in s
  {
  }

  lemma SwapOutCovers(s: seq<Region>, i: nat, x: nat)
    requires i < |s| && Apart(s)
    ensures Covers(SwapOut(s, i), x) <==> Covers(s, x) && !In(s[i], x)
  {
    hide SwapOut, Apart;
    var t := SwapOut(s, i);
    SwapOutEntries(s, i);
    if Covers(t, x) {
      var r :| r in t && In(r, x);
      var k :| 0 <= k < |t| && t[k] == r;
      var k' := if k == i then |s| - 1 else k;
      assert s[k'] == r && s[k'] in s;
      ApartAt(s, i, k', x);
    }
    if Covers(s, x) && !In(s[i], x) {
      var r :| r in s && In(r, x);
      var k :| 0 <= k < |s| && s[k] == r;
      assert k != i;
      var k' := if k == |s| - 1 then i else k;
      assert t[k'] == r && t[k'] in t;
    }
  }

  lemma ApartAt(s: seq<Region>, i: nat, k: nat, x: nat)
    requires Apart(s) && i < |s| && k < |s| && i != k && In(s[k], x)
    ensures !In(s[i], x)
  {
  }

  lemma UpdateApart(s: seq<Region>, i: nat, r: Region)
    requires i < |s| && Apart(s) && s[i].start <= r.start && r.end <= s[i].end
    ensures Apart(s[i := r])
  {
  }

  lemma UpdateCovers(s: seq<Region>, i: nat, r: Region, x: nat)
    requires i < |s| && Apart(s) && s[i].start <= r.start && r.end <= s[i].end
    ensures Covers(s[i := r], x) <==> Covers(s, x) && (In(s[i], x) ==> In(r, x))
  {
    hide Apart;
    var t := s[i := r];
    if Covers(t, x) {
      var q :| q in t && In(q, x);
      var k :| 0 <= k < |t| && t[k] == q;
      if k == i {
        assert s[i] in s && In(s[i], x);
      } else {
        assert s[k] == q && s[k] in s;
        ApartAt(s, i, k, x);
      }
    }
    if Covers(s, x) && (In(s[i], x) ==> In(r, x)) {
      var q :| q in s && In(q, x);
      var k :| 0 <= k < |s| && s[k] == q;
      assert t[i] == r && t[i] in t && (k != i ==> t[k] == q && t[k] in t);
    }
  }

  /** Splitting region `i` at `e` keeps the table disjoint. */
  lemma SplitApart(s: seq<Region>, i: nat, e: nat)
    requires i < |s| && Apart(s) && s[i].start <= e <= s[i].end
    ensures Apart(s[i := Region(s[i].start, e)] + [Region(e, s[i].end)])
  {
  }

  /** The table after the split, before the block itself is taken away. */
  ghost function Split(free: seq<Region>, i: nat, e: nat): seq<Region>
    requires i < |free|
  {
    if e < free[i].end then free[i := Region(free[i].start, e)] + [Region(e, free[i].end)] else free
  }

  lemma SplitCovers(s: seq<Region>, i: nat, e: nat, x: nat)
    requires i < |s| && Apart(s) && s[i].start <= e <= s[i].end
    ensures Apart(Split(s, i, e)) && i < |Split(s, i, e)|
    ensures Split(s, i, e)[i] == Region(s[i].start, e)
    ensures Covers(Split(s, i, e), x) <==> Covers(s, x)
  {
    hide Apart, Covers;
    if e < s[i].end {
      var l, r := Region(s[i].start, e), Region(e, s[i].end);
      SplitApart(s, i, e);
      UpdateCovers(s, i, l, x);
      CoversAppend(s[i := l], [r], x);
      CoversOne(r, x);
      EntryCovers(s, i, x);
    }
  }

  lemma EntryCovers(s: seq<Region>, i: nat, x: nat)
    requires i < |s|
    ensures In(s[i], x) ==> Covers(s, x)
  {
  }

  /** Carving takes away exactly the block. */
  lemma CarveCovers(free: seq<Region>, i: nat, a: nat, e: nat, x: nat)
    requires Apart(free) && Carvable(free, i, a, e)
    ensures Apart(CarveFree(free, i, a, e))
    ensures Covers(CarveFree(free, i, a, e), x) <==> Covers(free, x) && !(a <= x < e)
  {
    hide Apart, Covers, SwapOut;
    var reg := free[i];
    var s := Split(free, i, e);
    SplitCovers(free, i, e, x);
    EntryCovers(free, i, x);
    if reg.start >= a {
      SwapOutSplit(free, i, e);
      SwapOutApart(s, i);
      SwapOutCovers(s, i, x);
    } else {
      assert CarveFree(free, i, a, e) == s[i := Region(reg.start, a)];
      UpdateApart(s, i, Region(reg.start, a));
      UpdateCovers(s, i, Region(reg.start, a), x);
    }
  }

  lemma SwapOutSplit(free: seq<Region>, i: nat, e: nat)
    requires i < |free|
    ensures var f := if e < free[i].end then free + [Region(e, free[i].end)] else free;
            SwapOut(f, i) == SwapOut(Split(free, i, e), i)
  {
  }

  lemma CarveEntries(free: seq<Region>, i: nat, a: nat, e: nat, r: Region)
    requires Carvable(free, i, a, e) && r in CarveFree(free, i, a, e)
    ensures r in free || (free[i].start <= r.start < r.end <= free[i].end)
  {
  }

  lemma CarveFreeOk(free: seq<Region>, i: nat, a: nat, e: nat, id: nat)
    requires FreeOk(free, id) && Carvable(free, i, a, e)
    ensures FreeOk(CarveFree(free, i, a, e), id)
  {
    hide Apart, CarveFree;
    CarveCovers(free, i, a, e, 0);
    forall r | r in CarveFree(free, i, a, e) ensures r.start < r.end <= ZoneEnd(id) && ZoneOf(r.start) == id {
      CarveEntries(free, i, a, e, r);
      assert free[i] in free;
    }
  }

  lemma ReserveCovers(res: seq<Region>, a: nat, e: nat, x: nat)
    requires Proper(res) && a <= e
    ensures Proper(Reserve(res, a, e))
    ensures Covers(Reserve(res, a, e), x) <==> Covers(res, x) || a <= x < e
  {
    hide Covers, Merged, Sorted;
    var r := Region(a, e);
    SortMergeCovers(res + [r], x);
    CoversAppend(res, [r], x);
    CoversOne(r, x);
  }

  /** What every allocation does to its zone: the block moves from the free to the reserved addresses,
      and nothing else moves. */
  ghost predicate Moved(z: Zone, z': Zone, a: nat, e: nat) {
    && (forall x: nat :: Covers(z'.free, x) <==> Covers(z.free, x) && !(a <= x < e))
    && (forall x: nat :: Covers(z'.res, x) <==> Covers(z.res, x) || a <= x < e)
    && (forall x: nat :: a <= x < e ==> Covers(z.free, x))
  }

  lemma CarveMoves(z: Zone, id: nat, i: nat, a: nat, e: nat, sort: bool)
    requires ZoneOk(z, id) && Carvable(z.free, i, a, e)
    ensures var f := CarveFree(z.free, i, a, e);
            var z' := Zone(if sort then Sorted(f) else f, Reserve(z.res, a, e));
            ZoneOk(z', id) && Moved(z, z', a, e)
  {
    hide Apart, Covers, CarveFree, Reserve, Sorted, Proper;
    var f := CarveFree(z.free, i, a, e);
    CarveFreeOk(z.free, i, a, e, id);
    forall x: nat
      ensures Covers(f, x) <==> Covers(z.free, x) && !(a <= x < e)
      ensures Covers(Sorted(f), x) <==> Covers(f, x)
      ensures Covers(Reserve(z.res, a, e), x) <==> Covers(z.res, x) || a <= x < e
      ensures a <= x < e ==> Covers(z.free, x)
    {
      CarveCovers(z.free, i, a, e, x);
      ReserveCovers(z.res, a, e, x);
      EntryCovers(z.free, i, x);
      SortedFacts(f);
      CoversSameEntries(Sorted(f), f, x);
    }
    ReserveCovers(z.res, a, e, 0);
    SortedFacts(f);
    SortedApart(f);
  }

  // ---------------------------------------------------------------- the two searches

  /** The last of the first `n` regions that is large enough. */
  function LastFit(free: seq<Region>, size: nat, n: nat): (i: int)
    requires n <= |free|
    ensures -1 <= i < n
    ensures i >= 0 ==> free[i].start + size <= free[i].end
    ensures forall k :: i < k < n ==> free[k].start + size > free[k].end
  {
    if n == 0 then -1 else if free[n - 1].start + size <= free[n - 1].end then n - 1 else LastFit(free, size, n - 1)
  }

  /** Rounding up to a multiple of `2^order`; `-1` asks for none. */
  function AlignUp(a: nat, order: int): nat {
    if order < 0 then a else Bits.Base(a + Bits.Pow2(order) - 1, order)
  }

  predicate Aligned(a: nat, order: int) {
    order >= 0 ==> Bits.Base(a, order) == a
  }

  /** The least aligned address from `a` on. */
  lemma AlignUpLeast(a: nat, order: int)
    ensures a <= AlignUp(a, order) && Aligned(AlignUp(a, order), order)
    ensures AlignUp(a, order) < a + (if order < 0 then 1 else Bits.Pow2(order))
    ensures forall b :: a <= b && Aligned(b, order) ==> AlignUp(a, order) <= b
  {
    if order >= 0 {
      var q := a + Bits.Pow2(order) - 1;
      var u := Bits.Base(q, order);
      Bits.BaseContains(q, order);
      Bits.BaseNest(q, order, order);
      forall b | a <= b && Aligned(b, order) ensures u <= b {
        if b < u { Bits.BaseUnique(u, b, order); }
      }
    }
  }

  /** Where a block would start in region `r` under the window's lower bound. */
  function BlockAt(r: Region, start: nat, order: int): nat {
    AlignUp(if r.start >= start then r.start else start, order)
  }

  predicate FitsAt(r: Region, size: nat, start: nat, end: nat, order: int) {
    && !(r.start >= end || r.end <= start)
    && BlockAt(r, start, order) + size <= if r.end < end then r.end else end
  }

  function FirstFitAt(free: seq<Region>, size: nat, start: nat, end: nat, order: int, k: nat): (i: nat)
    requires k <= |free|
    ensures k <= i <= |free|
    ensures i < |free| ==> FitsAt(free[i], size, start, end, order)
    ensures forall j :: k <= j < i ==> !FitsAt(free[j], size, start, end, order)
    decreases |free| - k
  {
    if k == |free| || FitsAt(free[k], size, start, end, order) then k
    else FirstFitAt(free, size, start, end, order, k + 1)
  }

  /** A region is passed over only if no aligned block of that size lies in it and in the window. */
  lemma FitsAtIff(r: Region, size: nat, start: nat, end: nat, order: int)
    requires size > 0 && r.start < r.end
    ensures FitsAt(r, size, start, end, order) <==>
            exists b: nat :: Aligned(b, order) && r.start <= b && start <= b && b + size <= r.end && b + size <= end
  {
    hide AlignUp, Aligned;
    var lo := if r.start >= start then r.start else start;
    AlignUpLeast(lo, order);
    var u := AlignUp(lo, order);
    if b: nat :| Aligned(b, order) && r.start <= b && start <= b && b + size <= r.end && b + size <= end {
      assert u <= b;
    }
    if FitsAt(r, size, start, end, order) { assert Aligned(u, order) && r.start <= u; }
  }

  // ---------------------------------------------------------------- setting the zones up

  /** The part of the regions that lies in zone `id`, region by region. */
  function ZonePart(s: seq<Region>, id: nat): seq<Region> {
    if s == [] then []
    else
      var r := s[|s| - 1];
      ZonePart(s[..|s| - 1], id) + Clip(r.start, r.end, id)
  }

  function ZoneStart(id: nat): nat {
    if id == HIGHMEM then HIGHMEM_START else if id == LOWMEM then LOWMEM_START else 0
  }

  /** `[a, e)` within zone `id`, if anything of it is. */
  function Clip(a: nat, e: nat, id: nat): (r: seq<Region>)
    ensures |r| <= 1
  {
    var lo := if a < ZoneStart(id) then ZoneStart(id) else a;
    var hi := if e < ZoneEnd(id) then e else ZoneEnd(id);
    if lo < hi then [Region(lo, hi)] else []
  }

  lemma ClipCovers(a: nat, e: nat, id: nat, x: nat)
    requires id < MAX_ZONE && e <= HIGHMEM_END
    ensures Covers(Clip(a, e, id), x) <==> a <= x < e && ZoneOf(x) == id
  {
    if Clip(a, e, id) != [] { CoversOne(Clip(a, e, id)[0], x); }
  }

  /** Cutting regions at the zone boundaries loses and invents nothing. */
  lemma {:induction false} ZonePartCovers(s: seq<Region>, id: nat, x: nat)
    requires id < MAX_ZONE && forall r :: r in s ==> r.end <= HIGHMEM_END
    ensures Covers(ZonePart(s, id), x) <==> Covers(s, x) && ZoneOf(x) == id
  {
    hide Covers, Clip;
    if s == [] {
      CoversNone(x);
    } else {
      var front, r := s[..|s| - 1], s[|s| - 1];
      assert s == front + [r];
      ZonePartCovers(front, id, x);
      ClipCovers(r.start, r.end, id, x);
      CoversAppend(ZonePart(front, id), Clip(r.start, r.end, id), x);
      CoversAppend(front, [r], x);
      CoversOne(r, x);
    }
  }

  lemma CoversNone(x: nat)
    ensures !Covers([], x)
  {
  }

  lemma {:induction false} ZonePartEntries(s: seq<Region>, id: nat)
    requires id < MAX_ZONE
    ensures |ZonePart(s, id)| <= |s|
    ensures forall q :: q in ZonePart(s, id) ==>
      q.start < q.end <= ZoneEnd(id) && ZoneOf(q.start) == id && exists r :: r in s && Within(q, r)
  {
    if s != [] {
      var front, r := s[..|s| - 1], s[|s| - 1];
      ZonePartEntries(front, id);
      forall q | q in ZonePart(s, id)
        ensures q.start < q.end <= ZoneEnd(id) && ZoneOf(q.start) == id && exists p :: p in s && Within(q, p)
      {
        if q in ZonePart(front, id) {
          var p :| p in front && Within(q, p);
          assert p in s && Within(q, p);
        } else {
          assert r in s && Within(q, r);
        }
      }
    }
  }

  predicate Within(q: Region, r: Region) {
    r.start <= q.start && q.end <= r.end
  }

  lemma {:induction false} ZonePartApart(s: seq<Region>, id: nat)
    requires id < MAX_ZONE && Apart(s)
    ensures Apart(ZonePart(s, id))
  {
    hide ZoneOf, ZoneEnd;
    if s != [] {
      var front, r := s[..|s| - 1], s[|s| - 1];
      ZonePartApart(front, id);
      ZonePartEntries(front, id);
      var t, c := ZonePart(front, id), Clip(r.start, r.end, id);
      forall i, j | 0 <= i < |t| && 0 <= j < |c| ensures Disjoint(t[i], c[j]) {
        assert t[i] in t;
        var p :| p in front && Within(t[i], p);
        var k :| 0 <= k < |front| && front[k] == p;
        assert Disjoint(s[k], s[|s| - 1]);
      }
    }
  }

  lemma GappedApart(s: seq<Region>)
    requires Gapped(s)
    ensures Apart(s)
  {
  }

  /** Disjoint regions cut by zone, sorted and merged make a zone's free table. */
  lemma ZoneTableOk(s: seq<Region>, id: nat)
    requires id < MAX_ZONE && Apart(s) && forall r :: r in s ==> r.start < r.end <= HIGHMEM_END
    ensures FreeOk(Merged(Sorted(ZonePart(s, id))), id)
  {
    hide Apart, Covers, Merged, Sorted, ZonePart, Gapped;
    var p := ZonePart(s, id);
    var t := Merged(Sorted(p));
    ZonePartApart(s, id);
    ZonePartEntries(s, id);
    SortMergeGapped(p);
    GappedApart(t);
    forall r | r in t ensures r.start < r.end <= ZoneEnd(id) && ZoneOf(r.start) == id {
      GappedEntry(t, r);
      PartPoint(s, id, r.start);
      PartPoint(s, id, r.end - 1);
    }
  }

  lemma GappedEntry(t: seq<Region>, r: Region)
    requires Gapped(t) && r in t
    ensures r.start < r.end && Covers(t, r.start) && Covers(t, r.end - 1)
  {
  }

  lemma PartPoint(s: seq<Region>, id: nat, x: nat)
    requires id < MAX_ZONE && (forall r :: r in s ==> r.start < r.end <= HIGHMEM_END)
    requires Covers(Merged(Sorted(ZonePart(s, id))), x)
    ensures ZoneOf(x) == id && x < HIGHMEM_END
  {
    hide Apart, Covers, Merged, Sorted, ZonePart;
    ZonePartEntries(s, id);
    SortMergeCovers(ZonePart(s, id), x);
    ZonePartCovers(s, id, x);
    CoveredBelow(s, x);
  }

  lemma CoveredBelow(s: seq<Region>, x: nat)
    requires Covers(s, x) && forall r :: r in s ==> r.end <= HIGHMEM_END
    ensures x < HIGHMEM_END
  {
  }

  // ---------------------------------------------------------------- steps and runs

  datatype Option<T> = None | Some(value: T)

  /** The tables of the three zones, and the log of blocks handed out. */
  datatype Boot = Boot(zones: seq<Zone>, log: seq<Region>)

  datatype Op =
    | Alloc(size: nat, zone: nat)
    | AllocAt(size: nat, zone: nat, start: nat, end: nat, order: int)

  /** The block that a request gets in zone table `z`: the entry it comes from and its start. */
  function Chosen(z: Zone, op: Op): (r: Option<(nat, nat)>)
    ensures r.Some? ==> r.value.0 < |z.free|
  {
    match op
    case Alloc(size, _) =>
      var i := LastFit(z.free, size, |z.free|);
      if i < 0 then None else Some((i, z.free[i].end - size))
    case AllocAt(size, _, start, end, order) =>
      if size == 0 || start + size > end then None
      else
        var i := FirstFitAt(z.free, size, start, end, order, 0);
        if i == |z.free| then None else Some((i, BlockAt(z.free[i], start, order)))
  }

  function ZoneStep(z: Zone, op: Op): Zone {
    match Chosen(z, op)
    case None => z
    case Some((i, a)) =>
      var f := CarveFree(z.free, i, a, a + op.size);
      Zone(if op.AllocAt? then Sorted(f) else f, Reserve(z.res, a, a + op.size))
  }

  lemma ChosenCarvable(z: Zone, id: nat, op: Op)
    requires ZoneOk(z, id) && Chosen(z, op).Some?
    ensures Carvable(z.free, Chosen(z, op).value.0, Chosen(z, op).value.1, Chosen(z, op).value.1 + op.size)
  {
    hide Apart, Covers, Proper, AlignUp, Aligned;
    var (i, a) := Chosen(z, op).value;
    if op.AllocAt? {
      var r := z.free[i];
      AlignUpLeast(if r.start >= op.start then r.start else op.start, op.order);
    }
  }

  /** The block that a request must get from entry `i`. With a window: the least aligned address of that entry and
      of the window from which the block fits, and no entry before it has one. Without: the end of the last entry
      that is large enough. */
  ghost predicate RightBlock(z: Zone, op: Op, i: nat, a: nat) {
    && i < |z.free| && z.free[i].start <= a && a + op.size <= z.free[i].end
    && match op
       case Alloc(size, _) =>
         && a + size == z.free[i].end
         && forall k :: i < k < |z.free| ==> z.free[k].end < z.free[k].start + size
       case AllocAt(size, _, start, end, order) =>
         && MultipleOf(a, order) && start <= a && a + size <= end
         && (forall b: nat :: z.free[i].start <= b && start <= b && MultipleOf(b, order) ==> a <= b)
         && forall k, b: nat :: 0 <= k < i && MultipleOf(b, order) && z.free[k].start <= b && start <= b ==>
              z.free[k].end < b + size || end < b + size
  }

  predicate MultipleOf(a: nat, order: int) {
    order >= 0 ==> a % Bits.Pow2(order) == 0
  }

  lemma AlignedMeans(a: nat, order: int)
    ensures Aligned(a, order) <==> MultipleOf(a, order)
  {
    if order >= 0 { Bits.BaseMultiple(a, order); }
  }

  /** Whatever a request gets is the right block. */
  lemma ChosenRight(z: Zone, id: nat, op: Op)
    requires ZoneOk(z, id) && Chosen(z, op).Some?
    ensures RightBlock(z, op, Chosen(z, op).value.0, Chosen(z, op).value.1)
  {
    hide Apart, Covers, Proper, AlignUp, Aligned, MultipleOf;
    var order := if op.AllocAt? then op.order else -1;
    forall b: nat ensures Aligned(b, order) <==> MultipleOf(b, order) { AlignedMeans(b, order); }
    var (i, a) := Chosen(z, op).value;
    if op.AllocAt? {
      var r := z.free[i];
      AlignUpLeast(if r.start >= op.start then r.start else op.start, op.order);
      forall k | 0 <= k < i ensures !FitsAt(z.free[k], op.size, op.start, op.end, op.order) && z.free[k].start < z.free[k].end {
        assert z.free[k] in z.free;
      }
      forall k, b: nat | 0 <= k < i && MultipleOf(b, op.order) && z.free[k].start <= b && op.start <= b
        ensures z.free[k].end < b + op.size || op.end < b + op.size
      {
        FitsAtIff(z.free[k], op.size, op.start, op.end, op.order);
      }
    }
  }

  lemma ZoneStepMoves(z: Zone, id: nat, op: Op)
    requires ZoneOk(z, id)
    ensures ZoneOk(ZoneStep(z, op), id)
    ensures Chosen(z, op).Some? ==> var a := Chosen(z, op).value.1; Moved(z, ZoneStep(z, op), a, a + op.size)
  {
    hide ZoneOk, Moved, Chosen, CarveFree, Sorted, Reserve;
    if Chosen(z, op).Some? {
      var (i, a) := Chosen(z, op).value;
      ChosenCarvable(z, id, op);
      CarveMoves(z, id, i, a, a + op.size, op.AllocAt?);
    }
  }

  /** No address belongs to two blocks. */
  ghost predicate NoShare(log: seq<Region>) {
    forall i, j, x :: 0 <= i < j < |log| && In(log[i], x) ==> !In(log[j], x)
  }

  /** In each zone free and reserved addresses are disjoint; the blocks handed out are reserved, and
      share no address. */
  ghost predicate Good(b: Boot) {
    && |b.zones| == MAX_ZONE
    && (forall id :: 0 <= id < MAX_ZONE ==> ZoneOk(b.zones[id], id))
    && (forall r, x :: r in b.log && In(r, x) ==> Covers(b.zones[ZoneOf(x)].res, x))
    && NoShare(b.log)
  }

  function Next(b: Boot, op: Op): Boot
    requires op.zone < |b.zones|
  {
    match Chosen(b.zones[op.zone], op)
    case None => b
    case Some((i, a)) =>
      Boot(b.zones[op.zone := ZoneStep(b.zones[op.zone], op)], b.log + [Region(a, a + op.size)])
  }

  /** A block of free addresses misses every block handed out before. */
  lemma NewBlockApart(b: Boot, id: nat, r: Region, x: nat)
    requires Good(b) && id < MAX_ZONE && r in b.log && Covers(b.zones[id].free, x)
    ensures !In(r, x) && ZoneOf(x) == id
  {
  }

  lemma FreeInZone(z: Zone, id: nat, x: nat)
    requires ZoneOk(z, id) && Covers(z.free, x) && id < MAX_ZONE
    ensures ZoneOf(x) == id
  {
  }

  lemma NextLog(b: Boot, op: Op)
    requires Good(b) && op.zone < MAX_ZONE
    ensures NoShare(Next(b, op).log)
  {
    hide Covers, Chosen, ZoneStep, Moved, ZoneOk;
    var z := b.zones[op.zone];
    assert ZoneOk(z, op.zone);
    if Chosen(z, op).Some? {
      var a := Chosen(z, op).value.1;
      ZoneStepMoves(z, op.zone, op);
      var log, blk := Next(b, op).log, Region(a, a + op.size);
      forall i, x: nat | 0 <= i < |b.log| && In(b.log[i], x) ensures !In(blk, x) {
        MovedAt(z, ZoneStep(z, op), a, a + op.size, x);
        if In(blk, x) { NewBlockApart(b, op.zone, b.log[i], x); }
      }
    }
  }

  lemma MovedAt(z: Zone, z': Zone, a: nat, e: nat, x: nat)
    requires Moved(z, z', a, e)
    ensures Covers(z'.free, x) <==> Covers(z.free, x) && !(a <= x < e)
    ensures Covers(z'.res, x) <==> Covers(z.res, x) || a <= x < e
    ensures a <= x < e ==> Covers(z.free, x)
  {
  }

  lemma NextReserved(b: Boot, op: Op, r: Region, x: nat)
    requires Good(b) && op.zone < MAX_ZONE && r in Next(b, op).log && In(r, x)
    ensures Covers(Next(b, op).zones[ZoneOf(x)].res, x)
  {
    hide Covers, Chosen, ZoneStep, Moved, ZoneOk, NoShare;
    var id := op.zone;
    var z := b.zones[id];
    assert ZoneOk(z, id);
    if Chosen(z, op).Some? {
      var a := Chosen(z, op).value.1;
      ZoneStepMoves(z, id, op);
      MovedAt(z, ZoneStep(z, op), a, a + op.size, x);
      if a <= x < a + op.size { FreeInZone(z, id, x); }
    }
  }

  lemma NextGood(b: Boot, op: Op)
    requires Good(b) && op.zone < MAX_ZONE
    ensures Good(Next(b, op))
  {
    hide Covers, Chosen, ZoneStep, Moved, ZoneOk, NoShare;
    NextLog(b, op);
    assert ZoneOk(b.zones[op.zone], op.zone);
    ZoneStepMoves(b.zones[op.zone], op.zone, op);
    forall r, x | r in Next(b, op).log && In(r, x) ensures Covers(Next(b, op).zones[ZoneOf(x)].res, x) {
      NextReserved(b, op, r, x);
    }
  }

  /** Requests name a zone, and the plain form asks for at least one byte. */
  ghost predicate Requests(ops: seq<Op>) {
    forall i :: 0 <= i < |ops| ==> ops[i].zone < MAX_ZONE && (ops[i].Alloc? ==> ops[i].size > 0)
  }

  ghost function Exec(b: Boot, ops: seq<Op>): Boot
    requires Good(b) && Requests(ops)
    decreases |ops|
  {
    if ops == [] then b
    else
      NextGood(b, ops[0]);
      Exec(Next(b, ops[0]), ops[1..])
  }

  ghost predicate Known(z: Zone, x: nat) {
    Covers(z.free, x) || Covers(z.res, x)
  }

  lemma NextConserves(b: Boot, op: Op, id: nat, x: nat)
    requires Good(b) && op.zone < MAX_ZONE && id < MAX_ZONE
    ensures Known(Next(b, op).zones[id], x) <==> Known(b.zones[id], x)
    ensures Covers(b.zones[id].res, x) ==> Covers(Next(b, op).zones[id].res, x)
    ensures b.log <= Next(b, op).log
  {
    hide Covers, Chosen, ZoneStep, Moved, ZoneOk, NoShare;
    var z := b.zones[op.zone];
    assert ZoneOk(z, op.zone);
    if Chosen(z, op).Some? {
      var a := Chosen(z, op).value.1;
      ZoneStepMoves(z, op.zone, op);
      MovedAt(z, ZoneStep(z, op), a, a + op.size, x);
    }
  }

  /** Over any sequence of requests each zone knows the same addresses: free and reserved ones stay
      disjoint and their union constant, reserved addresses stay reserved, and all the blocks handed
      out, in whatever zones, are reserved and share no address. */
  lemma {:induction false} RunConserves(b: Boot, ops: seq<Op>, id: nat, x: nat)
    requires Good(b) && Requests(ops) && id < MAX_ZONE
    ensures Good(Exec(b, ops))
    ensures Known(Exec(b, ops).zones[id], x) <==> Known(b.zones[id], x)
    ensures Covers(b.zones[id].res, x) ==> Covers(Exec(b, ops).zones[id].res, x)
    ensures b.log <= Exec(b, ops).log
    decreases |ops|
  {
    hide Good, Known, Covers, Next, ZoneOk;
    if ops != [] {
      GoodZones(b);
      NextGood(b, ops[0]);
      GoodZones(Next(b, ops[0]));
      NextConserves(b, ops[0], id, x);
      RunConserves(Next(b, ops[0]), ops[1..], id, x);
    }
    GoodZones(Exec(b, ops));
  }

  lemma GoodZones(b: Boot)
    requires Good(b)
    ensures |b.zones| == MAX_ZONE && forall id :: 0 <= id < MAX_ZONE ==> ZoneOk(b.zones[id], id)
  {
  }

  /** A request fails exactly when no free region can hold an aligned block of that size inside the
      window (the whole memory for the plain form). */
  lemma FailsIffNoRoom(z: Zone, id: nat, op: Op)
    requires ZoneOk(z, id)
    ensures op.Alloc? ==> (Chosen(z, op).None? <==> forall r :: r in z.free ==> r.end - r.start < op.size)
    ensures op.AllocAt? && op.size > 0 ==>
              (Chosen(z, op).None? <==>
               forall r, b: nat :: r in z.free && Aligned(b, op.order) && r.start <= b && op.start <= b ==>
                 r.end < b + op.size || op.end < b + op.size)
  {
    hide Apart, Covers, Proper, AlignUp, Aligned;
    if op.Alloc? {
      var i := LastFit(z.free, op.size, |z.free|);
    } else if op.size > 0 {
      forall r | r in z.free {
        FitsAtIff(r, op.size, op.start, op.end, op.order);
      }
    }
  }
}
