/** Setting up the boot allocator: the available ranges of the memory map, minus everything reserved,
    cut into zones. */
module BootSetup {
  import opened BootRegions
  import opened BootZones
  import opened BootAllocator

  predicate Overlaps(s: seq<Region>, a: nat, e: nat) {
    exists r :: r in s && !(e <= r.start || a >= r.end)
  }

  predicate NonEmpty(s: seq<Region>) {
    forall r :: r in s ==> r.start < r.end
  }

  /** A gap is added unless it overlaps what is already there. */
  function AddFree(avail: seq<Region>, a: nat, e: nat): seq<Region> {
    if a < e && !Overlaps(avail, a, e) then avail + [Region(a, e)] else avail
  }

  /** The walk along the reserved regions: the gaps between them are added. */
  function Filled(avail: seq<Region>, res: seq<Region>, cur: nat, end: nat): seq<Region>
    decreases |res|
  {
    if res == [] then AddFree(avail, cur, end)
    else
      var r := res[0];
      if r.end <= cur || r.start >= end then Filled(avail, res[1..], cur, end)
      else
        var av := AddFree(avail, cur, r.start);
        if r.end >= end then av else Filled(av, res[1..], r.end, end)
  }

  lemma NoOverlap(s: seq<Region>, a: nat, e: nat)
    requires NonEmpty(s) && a < e && forall x: nat :: a <= x < e ==> !Covers(s, x)
    ensures !Overlaps(s, a, e)
  {
    forall r | r in s ensures e <= r.start || a >= r.end {
      var x := if r.start <= a then a else r.start;
      assert In(r, x) ==> Covers(s, x);
    }
  }

  /** Adding a gap keeps the table disjoint and only adds addresses of the gap. */
  lemma AddFreeKeeps(avail: seq<Region>, a: nat, e: nat)
    requires NonEmpty(avail) && Apart(avail)
    ensures NonEmpty(AddFree(avail, a, e)) && Apart(AddFree(avail, a, e)) && avail <= AddFree(avail, a, e)
    ensures forall x: nat :: Covers(AddFree(avail, a, e), x) ==> Covers(avail, x) || a <= x < e
  {
  }

  lemma HeadTail(res: seq<Region>, x: nat)
    requires res != []
    ensures Covers(res, x) <==> In(res[0], x) || Covers(res[1..], x)
  {
  }

  lemma BeforeFirst(res: seq<Region>, x: nat)
    requires SortedStarts(res) && res != [] && x < res[0].start
    ensures !Covers(res, x)
  {
  }

  lemma TailSorted(res: seq<Region>)
    requires SortedStarts(res) && res != []
    ensures SortedStarts(res[1..])
  {
  }

  /** Only unreserved addresses of the range are added, and the table stays disjoint. */
  lemma {:induction false} FilledKeeps(avail: seq<Region>, res: seq<Region>, cur: nat, end: nat)
    requires NonEmpty(avail) && Apart(avail) && SortedStarts(res)
    ensures var t := Filled(avail, res, cur, end); NonEmpty(t) && Apart(t) && avail <= t
    ensures forall x: nat :: Covers(Filled(avail, res, cur, end), x) ==> Covers(avail, x) || (cur <= x < end && !Covers(res, x))
    decreases |res|
  {
    hide Covers, NonEmpty, Apart, SortedStarts, AddFree;
    if res == [] {
      AddFreeKeeps(avail, cur, end);
      forall x: nat ensures !Covers(res, x) { CoversNone(x); }
    } else {
      var r := res[0];
      TailSorted(res);
      forall x: nat ensures Covers(res, x) <==> In(r, x) || Covers(res[1..], x) { HeadTail(res, x); }
      if r.end <= cur || r.start >= end {
        FilledKeeps(avail, res[1..], cur, end);
      } else {
        AddFreeKeeps(avail, cur, r.start);
        forall x: nat | x < r.start ensures !Covers(res, x) { BeforeFirst(res, x); }
        if r.end < end { FilledKeeps(AddFree(avail, cur, r.start), res[1..], r.end, end); }
      }
    }
  }

  /** The gaps that the walk meets. */
  function Gaps(res: seq<Region>, cur: nat, end: nat): seq<Region>
    decreases |res|
  {
    if res == [] then Gap(cur, end)
    else
      var r := res[0];
      if r.end <= cur || r.start >= end then Gaps(res[1..], cur, end)
      else if r.end >= end then Gap(cur, r.start)
      else Gap(cur, r.start) + Gaps(res[1..], r.end, end)
  }

  function Gap(a: nat, e: nat): seq<Region> {
    if a < e then [Region(a, e)] else []
  }

  lemma GapCovers(a: nat, e: nat, x: nat)
    ensures Covers(Gap(a, e), x) <==> a <= x < e
  {
    if a < e { CoversOne(Region(a, e), x); }
  }

  lemma {:induction false} GapsWithin(res: seq<Region>, cur: nat, end: nat)
    ensures forall g :: g in Gaps(res, cur, end) ==> cur <= g.start < g.end <= end
    decreases |res|
  {
    if res != [] {
      var r := res[0];
      if r.end <= cur || r.start >= end {
        GapsWithin(res[1..], cur, end);
      } else if r.end < end {
        GapsWithin(res[1..], r.end, end);
      }
    }
  }

  /** The gaps are exactly the range minus the reserved regions, which may overlap and nest. */
  lemma {:induction false} GapsCover(res: seq<Region>, cur: nat, end: nat, x: nat)
    requires SortedStarts(res) && Proper(res)
    ensures Covers(Gaps(res, cur, end), x) <==> cur <= x < end && !Covers(res, x)
    decreases |res|
  {
    hide Covers, SortedStarts, Gap;
    GapCovers(cur, end, x);
    if res == [] {
      CoversNone(x);
    } else {
      var r := res[0];
      TailSorted(res);
      HeadTail(res, x);
      GapCovers(cur, r.start, x);
      if x < r.start { BeforeFirst(res, x); }
      if r.end <= cur || r.start >= end {
        GapsCover(res[1..], cur, end, x);
      } else if r.end < end {
        GapsCover(res[1..], r.end, end, x);
        CoversAppend(Gap(cur, r.start), Gaps(res[1..], r.end, end), x);
      }
    }
  }

  ghost predicate Added(avail: seq<Region>, gaps: seq<Region>, x: nat) {
    exists g :: g in gaps && In(g, x) && !Overlaps(avail, g.start, g.end)
  }

  /** What the handler adds, for every input: the gaps that overlap nothing available yet. */
  lemma {:induction false} FilledCovers(avail: seq<Region>, res: seq<Region>, cur: nat, end: nat, x: nat)
    requires Proper(res)
    ensures Covers(Filled(avail, res, cur, end), x) <==> Covers(avail, x) || Added(avail, Gaps(res, cur, end), x)
    decreases |res|
  {
    hide Covers, Overlaps, Added;
    if res == [] {
      AddFreeAdded(avail, cur, end, x);
    } else {
      var r := res[0];
      if r.end <= cur || r.start >= end {
        FilledCovers(avail, res[1..], cur, end, x);
      } else {
        AddFreeAdded(avail, cur, r.start, x);
        if r.end < end {
          var av, rest := AddFree(avail, cur, r.start), Gaps(res[1..], r.end, end);
          FilledCovers(av, res[1..], r.end, end, x);
          GapsWithin(res[1..], r.end, end);
          LaterGaps(avail, cur, r.start, rest, x);
          AddedAppend(avail, Gap(cur, r.start), rest, x);
        }
      }
    }
  }

  lemma AddFreeAdded(avail: seq<Region>, a: nat, e: nat, x: nat)
    ensures Covers(AddFree(avail, a, e), x) <==> Covers(avail, x) || Added(avail, Gap(a, e), x)
  {
  }

  lemma AddedAppend(avail: seq<Region>, s: seq<Region>, t: seq<Region>, x: nat)
    ensures Added(avail, s + t, x) <==> Added(avail, s, x) || Added(avail, t, x)
  {
  }

  /** A gap that was just added is in the way of no later one. */
  lemma LaterGaps(avail: seq<Region>, a: nat, e: nat, gaps: seq<Region>, x: nat)
    requires forall g :: g in gaps ==> e <= g.start
    ensures Added(AddFree(avail, a, e), gaps, x) <==> Added(avail, gaps, x)
  {
  }

  ghost predicate AllAdded(avail: seq<Region>, res: seq<Region>, cur: nat, end: nat) {
    forall x: nat :: Covers(Filled(avail, res, cur, end), x) <==> Covers(avail, x) || (cur <= x < end && !Covers(res, x))
  }

  /** The range minus the reserved regions is added exactly, if and only if every gap that overlaps
      something available is available altogether. */
  lemma FilledExactIff(avail: seq<Region>, res: seq<Region>, cur: nat, end: nat)
    requires SortedStarts(res) && Proper(res)
    ensures AllAdded(avail, res, cur, end) <==>
            forall g, x :: g in Gaps(res, cur, end) && Overlaps(avail, g.start, g.end) && In(g, x) ==> Covers(avail, x)
  {
    hide Covers, SortedStarts, Proper, Overlaps, Filled, Gaps;
    var gaps := Gaps(res, cur, end);
    forall x: nat
      ensures Covers(Filled(avail, res, cur, end), x) <==> Covers(avail, x) || Added(avail, gaps, x)
      ensures Covers(gaps, x) <==> cur <= x < end && !Covers(res, x)
    {
      FilledCovers(avail, res, cur, end, x);
      GapsCover(res, cur, end, x);
    }
    GapsApart(res, cur, end);
    ExactIff(avail, gaps);
  }

  lemma {:induction false} GapsApart(res: seq<Region>, cur: nat, end: nat)
    requires Proper(res)
    ensures Apart(Gaps(res, cur, end))
    decreases |res|
  {
    if res != [] {
      var r := res[0];
      if r.end <= cur || r.start >= end {
        GapsApart(res[1..], cur, end);
      } else if r.end < end {
        GapsApart(res[1..], r.end, end);
        GapsWithin(res[1..], r.end, end);
        var rest := Gaps(res[1..], r.end, end);
        forall i | 0 <= i < |rest| ensures r.start <= rest[i].start { assert rest[i] in rest; }
      }
    }
  }

  lemma ExactIff(avail: seq<Region>, gaps: seq<Region>)
    requires Apart(gaps)
    ensures forall x: nat :: Added(avail, gaps, x) ==> Covers(gaps, x)
    ensures (forall x: nat :: Covers(gaps, x) ==> Covers(avail, x) || Added(avail, gaps, x)) <==>
            forall g, x :: g in gaps && Overlaps(avail, g.start, g.end) && In(g, x) ==> Covers(avail, x)
  {
  }

  /** When the range is new, all its unreserved addresses are added. */
  lemma FilledExact(avail: seq<Region>, res: seq<Region>, cur: nat, end: nat)
    requires NonEmpty(avail) && SortedStarts(res) && Proper(res)
    requires forall y: nat :: cur <= y < end ==> !Covers(avail, y)
    ensures AllAdded(avail, res, cur, end)
  {
    hide Covers, NonEmpty, SortedStarts, AddFree, Filled, Overlaps;
    FilledExactIff(avail, res, cur, end);
    GapsWithin(res, cur, end);
    forall g | g in Gaps(res, cur, end) ensures !Overlaps(avail, g.start, g.end) {
      NoOverlap(avail, g.start, g.end);
    }
  }

  // ---------------------------------------------------------------- the whole memory map

  function FilledAll(ranges: seq<Region>, res: seq<Region>): seq<Region> {
    if ranges == [] then []
    else
      var r := ranges[|ranges| - 1];
      Filled(FilledAll(ranges[..|ranges| - 1], res), res, r.start, r.end)
  }

  lemma {:induction false} FilledAllKeeps(ranges: seq<Region>, res: seq<Region>)
    requires SortedStarts(res)
    ensures var t := FilledAll(ranges, res); NonEmpty(t) && Apart(t)
    ensures forall x :: Covers(FilledAll(ranges, res), x) ==> Covers(ranges, x) && !Covers(res, x)
  {
    hide Filled, SortedStarts;
    if ranges != [] {
      var front, r := ranges[..|ranges| - 1], ranges[|ranges| - 1];
      assert ranges == front + [r];
      FilledAllKeeps(front, res);
      FilledKeeps(FilledAll(front, res), res, r.start, r.end);
      forall x | Covers(FilledAll(ranges, res), x) ensures Covers(ranges, x) && !Covers(res, x) {
        CoversAppend(front, [r], x);
        CoversOne(r, x);
      }
    }
  }

  /** Ranges that do not overlap give exactly their unreserved addresses. */
  lemma {:induction false} FilledAllExact(ranges: seq<Region>, res: seq<Region>, x: nat)
    requires SortedStarts(res) && Proper(res) && Apart(ranges)
    ensures Covers(FilledAll(ranges, res), x) <==> Covers(ranges, x) && !Covers(res, x)
  {
    hide Filled, SortedStarts, Covers;
    if ranges == [] {
      CoversNone(x);
    } else {
      var front, r := ranges[..|ranges| - 1], ranges[|ranges| - 1];
      assert ranges == front + [r];
      FilledAllExact(front, res, x);
      FilledAllKeeps(front, res);
      forall y: nat | r.start <= y < r.end ensures !Covers(FilledAll(front, res), y) {
        FrontMisses(ranges, y);
      }
      FilledExact(FilledAll(front, res), res, r.start, r.end);
      CoversAppend(front, [r], x);
      CoversOne(r, x);
    }
  }

  lemma FrontMisses(ranges: seq<Region>, y: nat)
    requires Apart(ranges) && ranges != [] && In(ranges[|ranges| - 1], y)
    ensures !Covers(ranges[..|ranges| - 1], y)
  {
  }

  // ---------------------------------------------------------------- in place

  /** Empty regions are not recorded; an end of 0 stands for the end of the address space. */
  method AddRegion(t: Table, start: nat, end: nat)
    requires t.Valid() && (start <= end || end == 0) && (start != end ==> t.count < MAX_REGIONS)
    modifies t, t.regs
    ensures t.Valid() && t.View() == old(t.View()) + if start == end then [] else [Region(start, end)]
  {
    if start != end { t.Add(Region(start, end)); }
  }

  method RangeOverlaps(t: Table, start: nat, end: nat) returns (r: bool)
    requires t.Valid()
    ensures r <==> Overlaps(t.View(), start, end)
  {
    var i := 0;
    while i < t.count
      invariant 0 <= i <= t.count
      invariant forall k :: 0 <= k < i ==> end <= t.regs[k].start || start >= t.regs[k].end
    {
      if !(end <= t.regs[i].start || start >= t.regs[i].end) {
        assert t.View()[i] in t.View();
        return true;
      }
      i := i + 1;
    }
    return false;
  }

  /** Adds the gap unless it overlaps something available. */
  method AddGap(avail: Table, a: nat, e: nat)
    requires avail.Valid() && |AddFree(avail.View(), a, e)| <= MAX_REGIONS
    modifies avail, avail.regs
    ensures avail.Valid() && avail.View() == AddFree(old(avail.View()), a, e)
  {
    if a < e {
      var over := RangeOverlaps(avail, a, e);
      if !over { AddRegion(avail, a, e); }
    }
  }

  lemma {:induction false} FilledGrows(avail: seq<Region>, res: seq<Region>, cur: nat, end: nat)
    ensures |avail| <= |Filled(avail, res, cur, end)|
    decreases |res|
  {
    if res != [] {
      var r := res[0];
      if r.end <= cur || r.start >= end {
        FilledGrows(avail, res[1..], cur, end);
      } else if r.end < end {
        FilledGrows(AddFree(avail, cur, r.start), res[1..], r.end, end);
      }
    }
  }

  /** One available range of the memory map; the table has room for what is added. */
  method FreeHandler(avail: Table, reserved: Table, start: nat, end: nat)
    requires avail.Valid() && reserved.Valid() && avail != reserved && avail.regs != reserved.regs
    requires |Filled(avail.View(), reserved.View(), start, end)| <= MAX_REGIONS
    modifies avail, avail.regs
    ensures avail.Valid() && avail.View() == Filled(old(avail.View()), reserved.View(), start, end)
  {
    hide AddFree, Overlaps;
    ghost var goal, rs := Filled(avail.View(), reserved.View(), start, end), reserved.View();
    var cur: nat, i := start, 0;
    while i < reserved.count
      invariant 0 <= i <= reserved.count && avail.Valid() && reserved.Valid() && reserved.View() == rs
      invariant Filled(avail.View(), rs[i..], cur, end) == goal
    {
      var r := reserved.regs[i];
      ghost var v := avail.View();
      assert rs[i..][0] == r && rs[i..][1..] == rs[i + 1..];
      if !(r.end <= cur || r.start >= end) {
        FilledGrows(AddFree(v, cur, r.start), rs[i + 1..], r.end, end);
        AddGap(avail, cur, r.start);
        cur := r.end;
        if cur >= end { return; }
      }
      i := i + 1;
    }
    AddGap(avail, cur, end);
  }

  /** One more piece of `[a, e)`: up to the end of the zone of `cur`. */
  lemma ClipStep(a: nat, cur: nat, next: nat, z: nat)
    requires z < MAX_ZONE && a <= cur < next <= ZoneEnd(ZoneOf(cur))
    requires cur == a || cur == ZoneStart(ZoneOf(cur))
    ensures Clip(a, next, z) == Clip(a, cur, z) + if z == ZoneOf(cur) then [Region(cur, next)] else []
  {
  }

  lemma ClipNone(a: nat, e: nat, z: nat)
    requires e <= a
    ensures Clip(a, e, z) == []
  {
  }

  lemma PartNone(z: nat)
    ensures ZonePart([], z) == []
  {
  }

  lemma PartStep(s: seq<Region>, i: nat, z: nat)
    requires i < |s| && z < MAX_ZONE
    ensures |ZonePart(s[..i], z)| <= i
    ensures ZonePart(s[..i + 1], z) == ZonePart(s[..i], z) + Clip(s[i].start, s[i].end, z)
  {
    ZonePartEntries(s[..i], z);
    assert s[..i + 1][..i] == s[..i];
  }

  /** Cuts every region at the zone boundaries and files the pieces by zone. */
  method InitZones(zones: seq<Table>, regs: Table)
    requires |zones| == MAX_ZONE && regs.Valid() && Distinct(zones + [regs])
    requires forall z :: 0 <= z < MAX_ZONE ==> zones[z].Valid() && zones[z].count + regs.count <= MAX_REGIONS
    requires forall r :: r in regs.View() ==> r.end <= HIGHMEM_END
    modifies zones, set t | t in zones :: t.regs
    ensures forall z :: 0 <= z < MAX_ZONE ==>
      zones[z].Valid() && zones[z].View() == old(zones[z].View()) + ZonePart(old(regs.View()), z)
  {
    hide ZonePart, Clip, Distinct;
    ghost var s := regs.View();
    assert s[..0] == [] && s[..|s|] == s;
    forall z ensures ZonePart([], z) == [] { PartNone(z); }
    var i := 0;
    while i < regs.count
      invariant 0 <= i <= regs.count && regs.Valid() && regs.View() == s
      invariant forall z :: 0 <= z < MAX_ZONE ==>
        zones[z].Valid() && zones[z].View() == old(zones[z].View()) + ZonePart(s[..i], z)
      decreases |s| - i
    {
      forall z | 0 <= z < MAX_ZONE
        ensures |ZonePart(s[..i], z)| <= i
        ensures ZonePart(s[..i + 1], z) == ZonePart(s[..i], z) + Clip(s[i].start, s[i].end, z)
      {
        PartStep(s, i, z);
      }
      assert s[i] in s;
      FileRegion(zones, regs, regs.regs[i]);
      i := i + 1;
    }
  }

  ghost predicate Distinct(ts: seq<Table>) {
    forall i, j :: 0 <= i < j < |ts| ==> ts[i] != ts[j] && ts[i].regs != ts[j].regs
  }

  method FilePiece(zones: seq<Table>, ghost regs: Table, z: nat, r: Region)
    requires |zones| == MAX_ZONE && z < MAX_ZONE && Distinct(zones + [regs]) && regs.Valid()
    requires (forall k :: 0 <= k < MAX_ZONE ==> zones[k].Valid()) && zones[z].count < MAX_REGIONS
    modifies zones[z], zones[z].regs
    ensures forall k :: 0 <= k < MAX_ZONE ==>
      zones[k].Valid() && zones[k].View() == old(zones[k].View()) + if k == z then [r] else []
    ensures regs.Valid() && regs.View() == old(regs.View())
  {
    assert (zones + [regs])[MAX_ZONE] == regs && forall k :: 0 <= k < MAX_ZONE ==> (zones + [regs])[k] == zones[k];
    zones[z].Add(r);
  }

  method FileRegion(zones: seq<Table>, ghost regs: Table, r: Region)
    requires |zones| == MAX_ZONE && Distinct(zones + [regs]) && r.end <= HIGHMEM_END && regs.Valid()
    requires forall z :: 0 <= z < MAX_ZONE ==> zones[z].Valid() && zones[z].count < MAX_REGIONS
    modifies zones, set t | t in zones :: t.regs
    ensures forall z :: 0 <= z < MAX_ZONE ==>
      zones[z].Valid() && zones[z].View() == old(zones[z].View()) + Clip(r.start, r.end, z)
    ensures regs.Valid() && regs.View() == old(regs.View())
  {
    hide Clip, Distinct;
    forall z | 0 <= z < MAX_ZONE
      ensures Clip(r.start, r.start, z) == [] && (r.end <= r.start ==> Clip(r.start, r.end, z) == [])
    {
      ClipNone(r.start, r.start, z);
      if r.end <= r.start { ClipNone(r.start, r.end, z); }
    }
    var cur := r.start;
    while cur < r.end
      invariant r.start <= cur
      invariant cur < r.end ==> cur == r.start || cur == ZoneStart(ZoneOf(cur))
      invariant cur == r.start || cur <= r.end
      invariant regs.Valid() && regs.View() == old(regs.View())
      invariant forall z :: 0 <= z < MAX_ZONE ==>
        zones[z].Valid() && zones[z].View() == old(zones[z].View()) + Clip(r.start, cur, z)
      decreases r.end - cur
    {
      var z := ZoneOf(cur);
      var next := if r.end < ZoneEnd(z) then r.end else ZoneEnd(z);
      forall k | 0 <= k < MAX_ZONE
        ensures Clip(r.start, next, k) == Clip(r.start, cur, k) + if k == z then [Region(cur, next)] else []
      {
        ClipStep(r.start, cur, next, k);
      }
      FilePiece(zones, regs, z, Region(cur, next));
      cur := next;
    }
  }

  // ---------------------------------------------------------------- initialisation

  function Recorded(s: seq<Region>): seq<Region> {
    if s == [] then [] else Recorded(s[..|s| - 1]) + Gap(s[|s| - 1].start, s[|s| - 1].end)
  }

  /** The tables that `boot_allocator_init` ends up with. */
  function ReservedTable(fixed: seq<Region>): seq<Region> {
    Merged(Sorted(Recorded(fixed)))
  }

  function FreeTable(fixed: seq<Region>, ranges: seq<Region>): seq<Region> {
    Merged(Sorted(FilledAll(ranges, ReservedTable(fixed))))
  }

  function ZoneTable(s: seq<Region>, z: nat): seq<Region> {
    Merged(Sorted(ZonePart(s, z)))
  }

  function InitZone(fixed: seq<Region>, ranges: seq<Region>, z: nat): Zone {
    Zone(ZoneTable(FreeTable(fixed, ranges), z), ZoneTable(ReservedTable(fixed), z))
  }

  predicate Below(s: seq<Region>) {
    forall r :: r in s ==> r.end <= HIGHMEM_END
  }

  lemma {:induction false} RecordedFacts(s: seq<Region>)
    ensures NonEmpty(Recorded(s)) && |Recorded(s)| <= |s| && (Below(s) ==> Below(Recorded(s)))
    ensures forall x: nat :: Covers(Recorded(s), x) <==> Covers(s, x)
  {
    if s != [] {
      var front, r := s[..|s| - 1], s[|s| - 1];
      assert s == front + [r];
      RecordedFacts(front);
      forall x: nat ensures Covers(Recorded(s), x) <==> Covers(s, x) {
        CoversAppend(Recorded(front), Gap(r.start, r.end), x);
        CoversAppend(front, [r], x);
        CoversOne(r, x);
        GapCovers(r.start, r.end, x);
      }
    }
  }

  lemma {:induction false} MergeFromFacts(cur: Region, s: seq<Region>)
    requires cur.end <= HIGHMEM_END && Below(s) && SortedStarts([cur] + s)
    ensures Below(MergeFrom(cur, s)) && SortedStarts(MergeFrom(cur, s)) && MergeFrom(cur, s)[0].start == cur.start
    decreases |s|
  {
    hide SortedStarts;
    if s == [] {
      assert [cur] + s == [cur];
    } else {
      SortedSteps(cur, s);
      if cur.end == s[0].start {
        MergeFromFacts(Region(cur.start, s[0].end), s[1..]);
      } else {
        MergeFromFacts(s[0], s[1..]);
        SortedPush(cur, MergeFrom(s[0], s[1..]));
      }
    }
  }

  lemma SortedSteps(cur: Region, s: seq<Region>)
    requires SortedStarts([cur] + s) && s != []
    ensures cur.start <= s[0].start
    ensures SortedStarts([s[0]] + s[1..]) && SortedStarts([Region(cur.start, s[0].end)] + s[1..])
  {
    var cs := [cur] + s;
    assert cs[0] == cur && cs[1] == s[0] && forall k :: 1 <= k < |cs| ==> cs[k] == s[k - 1];
    assert [s[0]] + s[1..] == cs[1..];
  }

  lemma SortedPush(cur: Region, t: seq<Region>)
    requires SortedStarts(t) && t != [] && cur.start <= t[0].start
    ensures SortedStarts([cur] + t)
  {
  }

  /** Merging keeps the table sorted and below the end of memory. */
  lemma SortMergeFacts(s: seq<Region>)
    requires Below(s)
    ensures Below(Merged(Sorted(s))) && SortedStarts(Merged(Sorted(s)))
  {
    hide Sorted, MergeFrom, SortedStarts;
    SortedFacts(s);
    var t := Sorted(s);
    if t == [] {
      NoneSortedStarts();
    } else {
      assert t == [t[0]] + t[1..];
      MergeFromFacts(t[0], t[1..]);
    }
  }

  lemma NoneSortedStarts()
    ensures SortedStarts([])
  {
  }

  lemma ReservedTableFacts(fixed: seq<Region>)
    requires Below(fixed)
    ensures var t := ReservedTable(fixed); Proper(t) && Below(t) && SortedStarts(t)
    ensures forall x: nat :: Covers(ReservedTable(fixed), x) <==> Covers(fixed, x)
  {
    hide Covers, Sorted, Merged, SortedStarts, Recorded;
    var s := Recorded(fixed);
    RecordedFacts(fixed);
    SortMergeFacts(s);
    SortMergeCovers(s, 0);
    forall x: nat ensures Covers(Merged(Sorted(s)), x) <==> Covers(fixed, x) { SortMergeCovers(s, x); }
  }

  lemma FreeTableFacts(fixed: seq<Region>, ranges: seq<Region>)
    requires Below(fixed) && Below(ranges)
    ensures var t := FreeTable(fixed, ranges); Apart(t) && NonEmpty(t) && Below(t)
    ensures forall x: nat :: Covers(FreeTable(fixed, ranges), x) ==> Covers(ranges, x) && !Covers(fixed, x)
    ensures Apart(ranges) ==>
              forall x: nat :: Covers(FreeTable(fixed, ranges), x) <==> Covers(ranges, x) && !Covers(fixed, x)
  {
    hide Covers, Sorted, Merged, SortedStarts, ReservedTable, FilledAll, Apart, Gapped;
    var res := ReservedTable(fixed);
    var s := FilledAll(ranges, res);
    ReservedTableFacts(fixed);
    FilledAllKeeps(ranges, res);
    SortMergeGapped(s);
    GappedApart(Merged(Sorted(s)));
    forall x: nat
      ensures Covers(Merged(Sorted(s)), x) <==> Covers(s, x)
      ensures Apart(ranges) ==> (Covers(s, x) <==> Covers(ranges, x) && !Covers(fixed, x))
    {
      SortMergeCovers(s, x);
      if Apart(ranges) { FilledAllExact(ranges, res, x); }
    }
    forall r | r in Merged(Sorted(s)) ensures r.start < r.end <= HIGHMEM_END {
      GappedEntry(Merged(Sorted(s)), r);
      CoveredBelow(ranges, r.end - 1);
    }
  }

  /** The regions that `boot_allocator_init` reserves itself, in its order; the addresses of the descriptor
      tables, the kernel and the boot information are those of the machine. */
  function FixedRegions(gdt: Region, idt: Region, kernel: Region, info: Region): seq<Region> {
    [Region(0xA_0000, 0x10_0000), gdt, idt, Region(0, 0x1000), Region(0x1000, 0x9_FC00), kernel, info]
  }

  /** A memory map whose second range overlaps the first: with kernel, tables and boot information below
      16 MiB, the memory from 16 MiB on is available and unreserved, and yet not free. */
  lemma OverlapLosesMemory(gdt: Region, idt: Region, kernel: Region, info: Region)
    requires gdt.end <= 0x100_0000 && idt.end <= 0x100_0000 && kernel.end <= 0x100_0000 && info.end <= 0x100_0000
    ensures var fixed := FixedRegions(gdt, idt, kernel, info);
            var ranges := [Region(0x200_0000, 0x300_0000), Region(0x100_0000, 0x400_0000)];
            && Below(fixed) && Covers(ranges, 0x100_0000) && !Covers(fixed, 0x100_0000)
            && !Covers(FreeTable(fixed, ranges), 0x100_0000)
  {
    hide ReservedTable, FilledAll, Merged, Sorted;
    var fixed, x := FixedRegions(gdt, idt, kernel, info), 0x100_0000;
    var a, b := Region(0x200_0000, 0x300_0000), Region(0x100_0000, 0x400_0000);
    var ranges := [a, b];
    assert b in ranges && In(b, x);
    var res := ReservedTable(fixed);
    ReservedEnds(fixed, x);
    InsideIsLost(a, b, res);
    assert NonEmpty([a]);
    SortMergeCovers([a], x);
    CoversOne(a, x);
  }

  /** A range that contains the one before it, with everything reserved below it, adds nothing. */
  lemma InsideIsLost(a: Region, b: Region, res: seq<Region>)
    requires b.start <= a.start < a.end <= b.end && forall r :: r in res ==> r.end <= b.start
    ensures FilledAll([a, b], res) == [a]
  {
    hide Filled;
    assert [a, b][..1] == [a] && [a][..0] == [];
    FilledSkips([], res, a.start, a.end);
    FilledSkips([a], res, b.start, b.end);
    assert AddFree([], a.start, a.end) == [a];
    assert FilledAll([a], res) == Filled([], res, a.start, a.end);
    assert a in [a] && Overlaps([a], b.start, b.end);
    assert FilledAll([a, b], res) == Filled(FilledAll([a], res), res, b.start, b.end);
  }

  lemma {:induction false} FilledSkips(avail: seq<Region>, res: seq<Region>, cur: nat, end: nat)
    requires forall r :: r in res ==> r.end <= cur
    ensures Filled(avail, res, cur, end) == AddFree(avail, cur, end)
    decreases |res|
  {
    if res != [] {
      assert res[0] in res;
      FilledSkips(avail, res[1..], cur, end);
    }
  }

  lemma ReservedEnds(fixed: seq<Region>, bound: nat)
    requires forall r :: r in fixed ==> r.end <= bound
    ensures forall r :: r in ReservedTable(fixed) ==> r.end <= bound
  {
    hide Sorted, MergeFrom;
    RecordedEnds(fixed, bound);
    var s := Recorded(fixed);
    SortedFacts(s);
    var t := Sorted(s);
    if t != [] {
      assert t[0] in t;
      MergeFromEnds(t[0], t[1..], bound);
    }
  }

  lemma {:induction false} RecordedEnds(s: seq<Region>, bound: nat)
    requires forall r :: r in s ==> r.end <= bound
    ensures forall r :: r in Recorded(s) ==> r.end <= bound
  {
    if s != [] {
      var last := s[|s| - 1];
      assert last in s;
      RecordedEnds(s[..|s| - 1], bound);
    }
  }

  lemma {:induction false} MergeFromEnds(cur: Region, s: seq<Region>, bound: nat)
    requires cur.end <= bound && forall r :: r in s ==> r.end <= bound
    ensures forall r :: r in MergeFrom(cur, s) ==> r.end <= bound
    decreases |s|
  {
    if s != [] {
      assert s[0] in s;
      MergeFromEnds(if cur.end == s[0].start then Region(cur.start, s[0].end) else s[0], s[1..], bound);
    }
  }

  lemma ZoneTableCovers(s: seq<Region>, z: nat, x: nat)
    requires Below(s) && z < MAX_ZONE
    ensures Proper(ZoneTable(s, z)) && (Covers(ZoneTable(s, z), x) <==> Covers(s, x) && ZoneOf(x) == z)
  {
    hide Covers, Sorted, Merged, ZonePart;
    ZonePartEntries(s, z);
    SortMergeCovers(ZonePart(s, z), x);
    ZonePartCovers(s, z, x);
  }

  /** The zone tables after initialisation: nothing is both free and reserved, exactly the fixed regions
      are reserved, only available memory is free, and all of it when the map's ranges do not overlap. */
  lemma InitZoneOk(fixed: seq<Region>, ranges: seq<Region>, z: nat)
    requires Below(fixed) && Below(ranges) && z < MAX_ZONE
    ensures ZoneOk(InitZone(fixed, ranges, z), z)
    ensures forall x: nat :: Covers(InitZone(fixed, ranges, z).res, x) <==> Covers(fixed, x) && ZoneOf(x) == z
    ensures forall x: nat :: Covers(InitZone(fixed, ranges, z).free, x) ==>
                             Covers(ranges, x) && !Covers(fixed, x) && ZoneOf(x) == z
    ensures Apart(ranges) ==>
              forall x: nat :: Covers(InitZone(fixed, ranges, z).free, x) <==>
                               Covers(ranges, x) && !Covers(fixed, x) && ZoneOf(x) == z
  {
    hide Covers, FreeTable, ReservedTable, ZoneTable, Apart, FreeOk, Proper;
    ReservedTableFacts(fixed);
    FreeTableFacts(fixed, ranges);
    ZoneTableFreeOk(FreeTable(fixed, ranges), z);
    ZoneTableCovers(ReservedTable(fixed), z, 0);
    forall x: nat
      ensures Covers(ZoneTable(FreeTable(fixed, ranges), z), x) <==> Covers(FreeTable(fixed, ranges), x) && ZoneOf(x) == z
      ensures Covers(ZoneTable(ReservedTable(fixed), z), x) <==> Covers(ReservedTable(fixed), x) && ZoneOf(x) == z
    {
      ZoneTableCovers(FreeTable(fixed, ranges), z, x);
      ZoneTableCovers(ReservedTable(fixed), z, x);
    }
  }

  lemma ZoneTableFreeOk(s: seq<Region>, z: nat)
    requires Apart(s) && NonEmpty(s) && Below(s) && z < MAX_ZONE
    ensures FreeOk(ZoneTable(s, z), z)
  {
    hide Apart, FreeOk;
    ZoneTableOk(s, z);
  }

  method LoadReserved(t: Table, fixed: seq<Region>)
    requires t.Valid() && t.View() == [] && |fixed| <= MAX_REGIONS && Proper(fixed)
    modifies t, t.regs
    ensures t.Valid() && t.View() == ReservedTable(fixed)
  {
    hide Sorted, Merged;
    for i := 0 to |fixed|
      invariant t.Valid() && t.View() == Recorded(fixed[..i])
    {
      RecordedFacts(fixed[..i]);
      assert fixed[..i + 1][..i] == fixed[..i] && fixed[i] in fixed;
      AddRegion(t, fixed[i].start, fixed[i].end);
    }
    assert fixed[..|fixed|] == fixed;
    t.SortAndMerge();
  }

  method LoadAvailable(t: Table, reserved: Table, ranges: seq<Region>)
    requires t.Valid() && t.View() == [] && reserved.Valid() && t != reserved && t.regs != reserved.regs
    requires |FilledAll(ranges, reserved.View())| <= MAX_REGIONS
    modifies t, t.regs
    ensures t.Valid() && t.View() == Merged(Sorted(FilledAll(ranges, old(reserved.View()))))
  {
    hide Sorted, Merged, Filled;
    ghost var rs := reserved.View();
    for i := 0 to |ranges|
      invariant t.Valid() && reserved.Valid() && reserved.View() == rs && t.View() == FilledAll(ranges[..i], rs)
    {
      assert ranges[..i + 1][..i] == ranges[..i];
      FilledAllGrows(ranges, rs, i + 1);
      FreeHandler(t, reserved, ranges[i].start, ranges[i].end);
    }
    assert ranges[..|ranges|] == ranges;
    t.SortAndMerge();
  }

  lemma {:induction false} FilledAllGrows(ranges: seq<Region>, res: seq<Region>, i: nat)
    requires i <= |ranges|
    ensures |FilledAll(ranges[..i], res)| <= |FilledAll(ranges, res)|
    decreases |ranges|
  {
    if i == |ranges| {
      assert ranges[..i] == ranges;
    } else {
      var front, r := ranges[..|ranges| - 1], ranges[|ranges| - 1];
      FilledAllGrows(front, res, i);
      assert front[..i] == ranges[..i];
      FilledGrows(FilledAll(front, res), res, r.start, r.end);
    }
  }

  /** Files the regions of `regs` into three empty zone tables, and sorts and merges each of them. */
  method LoadZones(zones: seq<Table>, regs: Table)
    requires |zones| == MAX_ZONE && regs.Valid() && Distinct(zones + [regs]) && Below(regs.View())
    requires forall z :: 0 <= z < MAX_ZONE ==> zones[z].Valid() && zones[z].View() == []
    modifies zones, set t | t in zones :: t.regs
    ensures forall z :: 0 <= z < MAX_ZONE ==> zones[z].Valid() && zones[z].View() == ZoneTable(old(regs.View()), z)
  {
    hide Sorted, Merged, ZonePart, Distinct;
    ghost var s := regs.View();
    InitZones(zones, regs);
    for i := 0 to MAX_ZONE
      invariant forall z :: 0 <= z < MAX_ZONE ==>
        zones[z].Valid() && zones[z].View() == if z < i then ZoneTable(s, z) else ZonePart(s, z)
    {
      TidyZone(zones, regs, i);
    }
  }

  method TidyZone(zones: seq<Table>, ghost regs: Table, z: nat)
    requires |zones| == MAX_ZONE && z < MAX_ZONE && Distinct(zones + [regs])
    requires forall k :: 0 <= k < MAX_ZONE ==> zones[k].Valid()
    modifies zones[z], zones[z].regs
    ensures forall k :: 0 <= k < MAX_ZONE ==>
      zones[k].Valid() && zones[k].View() == if k == z then Merged(Sorted(old(zones[k].View()))) else old(zones[k].View())
  {
    hide Sorted, Merged;
    assert forall k :: 0 <= k < MAX_ZONE ==> (zones + [regs])[k] == zones[k];
    zones[z].SortAndMerge();
  }

  /** Boot memory from the fixed reserved regions and the available ranges of the memory map, when the
      tables hold them. */
  method BootAllocatorInit(fixed: seq<Region>, ranges: seq<Region>) returns (m: BootMemory)
    requires Proper(fixed) && Below(fixed) && Below(ranges) && |fixed| <= MAX_REGIONS
    requires |FilledAll(ranges, ReservedTable(fixed))| <= MAX_REGIONS
    ensures m.Valid() && Good(m.View()) && m.log == [] && !m.frozen
    ensures forall z :: 0 <= z < MAX_ZONE ==> m.ZoneView(z) == InitZone(fixed, ranges, z)
  {
    hide Merged, Sorted, ReservedTable, FilledAll, ZoneTable, Good, Covers, Apart, Proper, NonEmpty;
    var reserved := new Table();
    var avail := new Table();
    LoadReserved(reserved, fixed);
    LoadAvailable(avail, reserved, ranges);
    ReservedTableFacts(fixed);
    FreeTableFacts(fixed, ranges);
    var free := NewZones(avail);
    var res := NewZones(reserved);
    m := new BootMemory(free, res);
    InitGood(m.View(), fixed, ranges);
  }

  lemma InitGood(b: Boot, fixed: seq<Region>, ranges: seq<Region>)
    requires Below(fixed) && Below(ranges) && b.log == [] && |b.zones| == MAX_ZONE
    requires forall z :: 0 <= z < MAX_ZONE ==> b.zones[z] == InitZone(fixed, ranges, z)
    ensures Good(b)
  {
    hide InitZone, ZoneOk;
    forall z | 0 <= z < MAX_ZONE ensures ZoneOk(b.zones[z], z) { InitZoneOk(fixed, ranges, z); }
  }

  method NewZones(regs: Table) returns (zones: seq<Table>)
    requires regs.Valid() && Below(regs.View())
    ensures |zones| == MAX_ZONE && Distinct(zones)
    ensures forall z :: 0 <= z < MAX_ZONE ==> fresh(zones[z]) && fresh(zones[z].regs)
    ensures forall z :: 0 <= z < MAX_ZONE ==> zones[z].Valid() && zones[z].View() == ZoneTable(old(regs.View()), z)
  {
    hide ZoneTable, Below;
    var t0 := new Table();
    var t1 := new Table();
    var t2 := new Table();
    zones := [t0, t1, t2];
    LoadZones(zones, regs);
  }
}
