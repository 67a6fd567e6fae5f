/** The boot allocator: its region tables, sorted, merged, split and swap-removed in place. */
module BootAllocator {
  import opened BootRegions
  import opened BootZones
  import Bits

  /** A table of at most `MAX_REGIONS` regions. */
  class Table {
    const regs: array<Region>
    var count: nat

    constructor ()
      ensures Valid() && fresh(regs) && View() == []
    {
      regs := new Region[MAX_REGIONS];
      count := 0;
    }

    ghost predicate Valid() reads this {
      regs.Length == MAX_REGIONS && count <= MAX_REGIONS
    }

    ghost function View(): (s: seq<Region>)
      requires Valid()
      reads this, regs
      ensures |s| == count
    {
      regs[..count]
    }

    method Add(r: Region)
      requires Valid() && count < MAX_REGIONS
      modifies this, regs
      ensures Valid() && View() == old(View()) + [r]
    {
      regs[count] := r;
      count := count + 1;
    }

    /** Insertion sort in place. */
    method Sort()
      requires Valid()
      modifies regs
      ensures View() == Sorted(old(View()))
    {
      hide Sorted;
      ghost var s := View();
      SortedShort(s);
      var i := 1;
      while i < count
        invariant 1 <= i && (i <= count || count == 0)
        invariant count > 0 ==> View() == Sorted(s[..i]) + s[i..]
      {
        InsertAt(i, s);
        i := i + 1;
      }
      assert s[..count] == s;
    }

    /** Moves entry `i` down to its place among the sorted ones before it. */
    method InsertAt(i: nat, ghost s: seq<Region>)
      requires Valid() && 1 <= i < count && |s| == count && View() == Sorted(s[..i]) + s[i..]
      modifies regs
      ensures View() == Sorted(s[..i + 1]) + s[i + 1..]
    {
      hide Sorted, Insert;
      ghost var v := View();
      var current := regs[i];
      assert current == v[i] == s[i];
      var j := i;
      assert v[..j] + [current] + v[j + 1..] == v;
      InsertStart(v, i, s);
      while j > 0 && regs[j - 1].start > current.start
        invariant 0 <= j <= i
        invariant Insert(View()[..j], current) + View()[j + 1..] == Sorted(s[..i + 1]) + s[i + 1..]
      {
        ghost var t := View();
        regs[j] := regs[j - 1];
        assert View() == t[j := t[j - 1]];
        InsertShift(t, j, current);
        j := j - 1;
      }
      ghost var t := View();
      regs[j] := current;
      assert View() == t[j := current];
      InsertDone(t, j, current);
    }

    /** Entries that touch are joined; the joined table is copied back over the old one. The first entry is
        picked up before the table is sorted. */
    method Merge()
      requires Valid()
      modifies this`count, regs
      ensures Valid() && View() == MergeRun(old(View()))
    {
      hide Sorted, MergeFrom;
      var cur := regs[0];
      var merged := new Region[MAX_REGIONS](_ => Region(0, 0));
      var n := 0;
      if count == 0 {
        return;
      }
      ghost var first := cur;
      Sort();
      ghost var s := View();
      var i := 1;
      assert merged[..n] == [];
      while i < count
        invariant Valid() && 1 <= i <= count && n < i && View() == s
        invariant MergeFrom(first, s[1..]) == merged[..n] + MergeFrom(cur, s[i..])
      {
        MergeStep(cur, s, i);
        if cur.end == regs[i].start {
          cur := Region(cur.start, regs[i].end);
        } else {
          ghost var done := merged[..n];
          merged[n] := cur;
          assert merged[..n + 1] == done + [cur];
          n := n + 1;
          cur := regs[i];
        }
        i := i + 1;
      }
      MergeEnd(cur);
      ghost var done := merged[..n];
      merged[n] := cur;
      assert merged[..n + 1] == done + [cur];
      n := n + 1;
      CopyBack(merged, n);
    }

    /** The two together, as the callers use them. */
    method SortAndMerge()
      requires Valid()
      modifies this`count, regs
      ensures Valid() && View() == Merged(Sorted(old(View())))
    {
      hide Sorted, Merged;
      ghost var s := View();
      Sort();
      SortedFacts(s);
      MergeRunSorted(Sorted(s));
      Merge();
    }

    method CopyBack(merged: array<Region>, n: nat)
      requires Valid() && merged.Length == MAX_REGIONS && n <= MAX_REGIONS
      modifies this`count, regs
      ensures Valid() && View() == old(merged[..n])
    {
      forall k | 0 <= k < MAX_REGIONS { regs[k] := merged[k]; }
      count := n;
    }
  }

  /** Takes `[a, e)` out of entry `i`, as `CarveFree` says. */
  method Carve(t: Table, i: nat, a: nat, e: nat)
    requires t.Valid() && i < t.count && (e < t.regs[i].end ==> t.count < MAX_REGIONS)
    modifies t, t.regs
    ensures t.Valid() && t.View() == CarveFree(old(t.View()), i, a, e)
  {
    var reg := t.regs[i];
    ghost var s := t.View();
    if e < reg.end { t.Add(Region(e, reg.end)); }
    ghost var f := t.View();
    if reg.start >= a {
      t.regs[i] := t.regs[t.count - 1];
      t.count := t.count - 1;
      assert t.View() == SwapOut(f, i);
    } else {
      t.regs[i] := Region(reg.start, a);
      assert t.View() == f[i := Region(reg.start, a)];
    }
  }

  /** Records `[start, start + size)` in the table of the zone of its first address. */
  method AddToZones(zones: seq<Table>, size: nat, start: nat)
    requires |zones| == MAX_ZONE && zones[ZoneOf(start)].Valid() && zones[ZoneOf(start)].count < MAX_REGIONS
    modifies zones[ZoneOf(start)], zones[ZoneOf(start)].regs
    ensures zones[ZoneOf(start)].Valid()
    ensures zones[ZoneOf(start)].View() == Reserve(old(zones[ZoneOf(start)].View()), start, start + size)
  {
    var t := zones[ZoneOf(start)];
    t.Add(Region(start, start + size));
    t.SortAndMerge();
  }

  class BootMemory {
    const free: seq<Table>
    const res: seq<Table>
    var log: seq<Region>
    var frozen: bool

    constructor (free: seq<Table>, res: seq<Table>)
      ensures this.free == free && this.res == res && log == [] && !frozen
    {
      this.free, this.res, log, frozen := free, res, [], false;
    }

    ghost predicate Valid()
      reads this, free, res
    {
      && |free| == MAX_ZONE && |res| == MAX_ZONE
      && (forall k :: 0 <= k < MAX_ZONE ==> free[k].Valid() && res[k].Valid())
      && Separate(free, res)
    }

    ghost function ZoneView(k: nat): Zone
      requires Valid() && k < MAX_ZONE
      reads this, free, res, set t | t in free :: t.regs, set t | t in res :: t.regs
    {
      Zone(free[k].View(), res[k].View())
    }

    ghost function View(): (b: Boot)
      requires Valid()
      reads this, free, res, set t | t in free :: t.regs, set t | t in res :: t.regs
      ensures |b.zones| == MAX_ZONE && b.log == log
      ensures forall k :: 0 <= k < MAX_ZONE ==> b.zones[k] == ZoneView(k)
    {
      Boot([ZoneView(0), ZoneView(1), ZoneView(2)], log)
    }

    /** Moves the block at `a` from entry `i` to the reserved table, and logs it. */
    method Commit(zone: nat, size: nat, i: nat, a: nat, sort: bool)
      requires Valid() && zone < MAX_ZONE && ZoneOf(a) == zone && i < free[zone].count
      requires res[zone].count < MAX_REGIONS
      requires a + size < free[zone].regs[i].end ==> free[zone].count < MAX_REGIONS
      modifies this`log, free[zone], free[zone].regs, res[zone], res[zone].regs
      ensures Valid() && log == old(log) + [Region(a, a + size)]
      ensures ZoneView(zone) == Carved(old(ZoneView(zone)), i, a, a + size, sort)
    {
      hide CarveFree, Reserve, Sorted;
      AddToZones(res, size, a);
      Carve(free[zone], i, a, a + size);
      if sort { free[zone].Sort(); }
      log := log + [Region(a, a + size)];
    }

    /** Only the tables of one zone have changed. */
    twostate lemma OneZone(zone: nat)
      requires old(Valid()) && Valid() && zone < MAX_ZONE
      requires forall k :: 0 <= k < MAX_ZONE && k != zone ==>
        unchanged(free[k]) && unchanged(res[k]) && unchanged(free[k].regs) && unchanged(res[k].regs)
      ensures View().zones == old(View()).zones[zone := ZoneView(zone)]
    {
      forall k | 0 <= k < MAX_ZONE && k != zone ensures ZoneView(k) == old(ZoneView(k)) {
        assert free[k].View() == old(free[k].View());
        assert res[k].View() == old(res[k].View());
      }
    }

    /** The block comes off the end of the last region that is large enough. */
    method BootAlloc(size: nat, zone: nat) returns (r: Option<nat>)
      requires Valid() && zone < MAX_ZONE && size > 0 && Good(View())
      requires frozen || RoomFor(ZoneView(zone), Alloc(size, zone))
      modifies this`log, free[zone], free[zone].regs, res[zone], res[zone].regs
      ensures Valid() && Good(View())
      ensures View() == if frozen then old(View()) else Next(old(View()), Alloc(size, zone))
      ensures r == if frozen then None else Start(Chosen(old(ZoneView(zone)), Alloc(size, zone)))
      ensures r.Some? ==> exists i :: RightBlock(old(ZoneView(zone)), Alloc(size, zone), i, r.value)
      ensures log == if r.Some? then old(log) + [Region(r.value, r.value + size)] else old(log)
    {
      hide Good, ZoneStep, ZoneOk, Covers, Chosen, Next, RightBlock;
      ghost var b, op := View(), Op.Alloc(size, zone);
      GoodZones(b);
      NextGood(b, op);
      NextForm(b, op);
      StartRight(b.zones[zone], zone, op);
      if frozen { return None; }
      r := AllocLast(size, zone);
      OneZone(zone);
    }

    method AllocLast(size: nat, zone: nat) returns (r: Option<nat>)
      requires Valid() && zone < MAX_ZONE && size > 0 && ZoneOk(ZoneView(zone), zone)
      requires RoomFor(ZoneView(zone), Alloc(size, zone))
      modifies this`log, free[zone], free[zone].regs, res[zone], res[zone].regs
      ensures Valid() && r == Start(Chosen(old(ZoneView(zone)), Alloc(size, zone)))
      ensures ZoneView(zone) == ZoneStep(old(ZoneView(zone)), Alloc(size, zone))
      ensures log == Logged(old(log), r, size)
    {
      hide CarveFree, Reserve, ZoneOk, Separate, Sorted;
      var i := FindLast(free[zone], size);
      if i < 0 { return None; }
      var a := free[zone].regs[i].end - size;
      BlockInZone(ZoneView(zone), zone, Alloc(size, zone));
      Commit(zone, size, i, a, false);
      return Some(a);
    }

    /** The block is the first aligned one that lies in the window and in a free region. All sums are
        32-bit ones; the callers keep them from wrapping. */
    method BootAllocAt(size: nat, zone: nat, start: nat, end: nat, order: int) returns (r: Option<nat>)
      requires Valid() && zone < MAX_ZONE && Good(View())
      requires start + size < TWO32 && end + size + (if order < 0 then 1 else Bits.Pow2(order)) <= TWO32
      requires frozen || RoomFor(ZoneView(zone), AllocAt(size, zone, start, end, order))
      modifies this`log, free[zone], free[zone].regs, res[zone], res[zone].regs
      ensures Valid() && Good(View())
      ensures View() == if frozen then old(View()) else Next(old(View()), AllocAt(size, zone, start, end, order))
      ensures r == if frozen then None else Start(Chosen(old(ZoneView(zone)), AllocAt(size, zone, start, end, order)))
      ensures r.Some? ==> exists i :: RightBlock(old(ZoneView(zone)), AllocAt(size, zone, start, end, order), i, r.value)
      ensures log == if r.Some? then old(log) + [Region(r.value, r.value + size)] else old(log)
    {
      hide Good, ZoneStep, ZoneOk, Covers, LastFit, FirstFitAt, Next, RightBlock;
      ghost var b, op := View(), Op.AllocAt(size, zone, start, end, order);
      GoodZones(b);
      NextGood(b, op);
      NextForm(b, op);
      StartRight(b.zones[zone], zone, op);
      if frozen || size == 0 || (start + size) % TWO32 > end { return None; }
      r := AllocFirst(size, zone, start, end, order);
      OneZone(zone);
    }

    method AllocFirst(size: nat, zone: nat, start: nat, end: nat, order: int) returns (r: Option<nat>)
      requires Valid() && zone < MAX_ZONE && 0 < size && start + size <= end && ZoneOk(ZoneView(zone), zone)
      requires end + size + (if order < 0 then 1 else Bits.Pow2(order)) <= TWO32
      requires RoomFor(ZoneView(zone), AllocAt(size, zone, start, end, order))
      modifies this`log, free[zone], free[zone].regs, res[zone], res[zone].regs
      ensures Valid() && r == Start(Chosen(old(ZoneView(zone)), AllocAt(size, zone, start, end, order)))
      ensures ZoneView(zone) == ZoneStep(old(ZoneView(zone)), AllocAt(size, zone, start, end, order))
      ensures log == Logged(old(log), r, size)
    {
      hide CarveFree, Reserve, ZoneOk, Separate, Sorted, AlignUp;
      var i := FindFirst(free[zone], size, start, end, order);
      if i == free[zone].count { return None; }
      var a := BlockAt(free[zone].regs[i], start, order);
      BlockInZone(ZoneView(zone), zone, AllocAt(size, zone, start, end, order));
      Commit(zone, size, i, a, true);
      return Some(a);
    }
  }

  method FindLast(t: Table, size: nat) returns (i: int)
    requires t.Valid()
    ensures i == LastFit(t.View(), size, t.count)
  {
    i := t.count - 1;
    while i >= 0
      invariant -1 <= i < t.count && LastFit(t.View(), size, t.count) == LastFit(t.View(), size, i + 1)
    {
      if t.regs[i].end - t.regs[i].start >= size { return i; }
      i := i - 1;
    }
  }

  /** Whether a block fits in `reg` and the window, in 32-bit arithmetic that does not wrap. */
  method Fits(reg: Region, size: nat, start: nat, end: nat, order: int) returns (r: bool)
    requires start <= end && end + size + (if order < 0 then 1 else Bits.Pow2(order)) <= TWO32
    ensures r <==> FitsAt(reg, size, start, end, order)
  {
    hide AlignUp, Aligned;
    if reg.start >= end || reg.end <= start { return false; }
    var lo := if reg.start >= start then reg.start else start;
    AlignUpLeast(lo, order);
    var sum := AlignUp(lo, order) + size;
    var limit := if reg.end < end then reg.end else end;
    assert sum < TWO32;
    return sum % TWO32 <= limit;
  }

  method FindFirst(t: Table, size: nat, start: nat, end: nat, order: int) returns (i: nat)
    requires t.Valid() && start <= end && end + size + (if order < 0 then 1 else Bits.Pow2(order)) <= TWO32
    ensures i == FirstFitAt(t.View(), size, start, end, order, 0)
  {
    hide FitsAt;
    i := 0;
    while i < t.count
      invariant 0 <= i <= t.count
      invariant FirstFitAt(t.View(), size, start, end, order, 0) == FirstFitAt(t.View(), size, start, end, order, i)
    {
      var fits := Fits(t.regs[i], size, start, end, order);
      if fits { return i; }
      i := i + 1;
    }
  }

  /** The tables can take the block that the request gets, if it gets one. */
  ghost predicate RoomFor(z: Zone, op: Op) {
    match Chosen(z, op)
    case None => true
    case Some((i, a)) => |z.res| < MAX_REGIONS && (a + op.size < z.free[i].end ==> |z.free| < MAX_REGIONS)
  }

  function Start(c: Option<(nat, nat)>): Option<nat> {
    match c case None => None case Some((_, a)) => Some(a)
  }

  lemma StartRight(z: Zone, id: nat, op: Op)
    requires ZoneOk(z, id)
    ensures Start(Chosen(z, op)).Some? ==> exists i :: RightBlock(z, op, i, Start(Chosen(z, op)).value)
  {
    hide ZoneOk, RightBlock, Chosen;
    if Chosen(z, op).Some? { ChosenRight(z, id, op); }
  }

  lemma NextForm(b: Boot, op: Op)
    requires op.zone < |b.zones|
    ensures var z := b.zones[op.zone];
            Next(b, op) == Boot(b.zones[op.zone := ZoneStep(z, op)], Logged(b.log, Start(Chosen(z, op)), op.size))
    ensures Chosen(b.zones[op.zone], op).None? ==> Next(b, op) == b
  {
    hide Chosen;
  }

  function Logged(log: seq<Region>, r: Option<nat>, size: nat): seq<Region> {
    match r case None => log case Some(a) => log + [Region(a, a + size)]
  }

  function Carved(z: Zone, i: nat, a: nat, e: nat, sort: bool): Zone
    requires i < |z.free|
  {
    var f := CarveFree(z.free, i, a, e);
    Zone(if sort then Sorted(f) else f, Reserve(z.res, a, e))
  }

  lemma BlockInZone(z: Zone, id: nat, op: Op)
    requires ZoneOk(z, id) && id < MAX_ZONE && op.size > 0 && Chosen(z, op).Some?
    ensures ZoneOf(Chosen(z, op).value.1) == id
  {
    hide Chosen, CarveFree, Reserve, Covers;
    var (i, a) := Chosen(z, op).value;
    ChosenCarvable(z, id, op);
    EntryCovers(z.free, i, a);
    FreeInZone(z, id, a);
  }

  /** Different tables, different arrays. */
  ghost predicate Separate(free: seq<Table>, res: seq<Table>) {
    && (forall i, j :: 0 <= i < |free| && 0 <= j < |res| ==> free[i] != res[j] && free[i].regs != res[j].regs)
    && (forall i, j :: 0 <= i < j < |free| ==> free[i] != free[j] && free[i].regs != free[j].regs)
    && (forall i, j :: 0 <= i < j < |res| ==> res[i] != res[j] && res[i].regs != res[j].regs)
  }

  lemma SortedShort(s: seq<Region>)
    ensures |s| <= 1 ==> Sorted(s) == s
    ensures |s| >= 1 ==> Sorted(s[..1]) + s[1..] == s
  {
  }

  lemma MergeStep(cur: Region, s: seq<Region>, i: nat)
    requires i < |s|
    ensures MergeFrom(cur, s[i..]) ==
            if cur.end == s[i].start then MergeFrom(Region(cur.start, s[i].end), s[i + 1..])
            else [cur] + MergeFrom(s[i], s[i + 1..])
  {
  }

  lemma MergeEnd(cur: Region)
    ensures MergeFrom(cur, []) == [cur]
  {
  }

  lemma InsertStart(v: seq<Region>, i: nat, s: seq<Region>)
    requires i < |s| && v == Sorted(s[..i]) + s[i..]
    ensures Insert(v[..i], s[i]) + v[i + 1..] == Sorted(s[..i + 1]) + s[i + 1..]
  {
    assert s[..i + 1][..i] == s[..i] && v[..i] == Sorted(s[..i]) && v[i + 1..] == s[i + 1..];
  }

  lemma InsertShift(t: seq<Region>, j: nat, r: Region)
    requires 0 < j < |t| && t[j - 1].start > r.start
    ensures var u := t[j := t[j - 1]]; Insert(t[..j], r) + t[j + 1..] == Insert(u[..j - 1], r) + u[j..]
  {
    var u := t[j := t[j - 1]];
    assert t[..j][..j - 1] == u[..j - 1];
    assert u[j..] == [t[j - 1]] + t[j + 1..];
  }

  lemma InsertDone(t: seq<Region>, j: nat, r: Region)
    requires j < |t| && (j == 0 || t[j - 1].start <= r.start)
    ensures Insert(t[..j], r) + t[j + 1..] == t[j := r]
  {
  }
}
