/** Tables of physical memory regions at boot: sorting, merging, and the addresses they cover. */
module BootRegions {

  datatype Region = Region(start: nat, end: nat)

  predicate In(r: Region, x: nat) {
    r.start <= x < r.end
  }

  predicate Covers(s: seq<Region>, x: nat) {
    exists r :: r in s && In(r, x)
  }

  predicate Proper(s: seq<Region>) {
    forall r :: r in s ==> r.start <= r.end
  }

  predicate Disjoint(r: Region, q: Region) {
    r.end <= q.start || q.end <= r.start
  }

  /** No two entries share an address. */
  predicate Apart(s: seq<Region>) {
    forall i, j :: 0 <= i < j < |s| ==> Disjoint(s[i], s[j])
  }

  predicate SortedStarts(s: seq<Region>) {
    forall i, j :: 0 <= i < j < |s| ==> s[i].start <= s[j].start
  }

  lemma CoversAppend(s: seq<Region>, t: seq<Region>, x: nat)
    ensures Covers(s + t, x) <==> Covers(s, x) || Covers(t, x)
  {
  }

  lemma CoversOne(r: Region, x: nat)
    ensures Covers([r], x) <==> In(r, x)
  {
  }

  lemma CoversSameEntries(s: seq<Region>, t: seq<Region>, x: nat)
    requires forall r :: r in s <==> r in t
    ensures Covers(s, x) <==> Covers(t, x)
  {
  }

  // ---------------------------------------------------------------- sorting

  /** Moves `r` down from the end of `s`, past the entries that start later. */
  function Insert(s: seq<Region>, r: Region): (t: seq<Region>)
    ensures |t| == |s| + 1
  {
    if s != [] && s[|s| - 1].start > r.start then Insert(s[..|s| - 1], r) + [s[|s| - 1]] else s + [r]
  }

  function Sorted(s: seq<Region>): (t: seq<Region>)
    ensures |t| == |s|
  {
    if s == [] then [] else Insert(Sorted(s[..|s| - 1]), s[|s| - 1])
  }

  lemma {:induction false} InsertFacts(s: seq<Region>, r: Region)
    ensures multiset(Insert(s, r)) == multiset(s) + multiset{r}
    ensures forall q :: q in Insert(s, r) <==> q in s || q == r
    ensures SortedStarts(s) ==> SortedStarts(Insert(s, r))
  {
    if s != [] && s[|s| - 1].start > r.start {
      var front, last := s[..|s| - 1], s[|s| - 1];
      assert s == front + [last];
      InsertFacts(front, r);
      var t := Insert(front, r);
      if SortedStarts(s) {
        forall i | 0 <= i < |t| ensures t[i].start <= last.start { assert t[i] in t; }
      }
    }
  }

  /** Insertion sort orders the entries by start and keeps them all. */
  lemma {:induction false} SortedFacts(s: seq<Region>)
    ensures multiset(Sorted(s)) == multiset(s) && SortedStarts(Sorted(s))
    ensures forall q :: q in Sorted(s) <==> q in s
  {
    if s != [] {
      var front, last := s[..|s| - 1], s[|s| - 1];
      assert s == front + [last];
      SortedFacts(front);
      InsertFacts(Sorted(front), last);
    }
  }

  lemma {:induction false} InsertApart(s: seq<Region>, r: Region)
    requires Apart(s) && forall q :: q in s ==> Disjoint(q, r)
    ensures Apart(Insert(s, r))
  {
    if s != [] && s[|s| - 1].start > r.start {
      var front, last := s[..|s| - 1], s[|s| - 1];
      InsertApart(front, r);
      InsertFacts(front, r);
      var t := Insert(front, r);
      forall i | 0 <= i < |t| ensures Disjoint(t[i], last) {
        assert t[i] in t && last in s;
        if t[i] != r {
          var k :| 0 <= k < |front| && front[k] == t[i];
          assert Disjoint(s[k], s[|s| - 1]);
        }
      }
    }
  }

  lemma {:induction false} SortedApart(s: seq<Region>)
    requires Apart(s)
    ensures Apart(Sorted(s))
  {
    if s != [] {
      var front, last := s[..|s| - 1], s[|s| - 1];
      SortedApart(front);
      SortedFacts(front);
      InsertApart(Sorted(front), last);
    }
  }

  // ---------------------------------------------------------------- merging

  /** The scan over the entries after `cur`: an entry that starts where `cur` ends extends it. */
  function MergeFrom(cur: Region, s: seq<Region>): (t: seq<Region>)
    ensures 1 <= |t| <= |s| + 1
    decreases |s|
  {
    if s == [] then [cur]
    else if cur.end == s[0].start then MergeFrom(Region(cur.start, s[0].end), s[1..])
    else [cur] + MergeFrom(s[0], s[1..])
  }

  function Merged(s: seq<Region>): (t: seq<Region>)
    ensures |t| <= |s|
  {
    if s == [] then [] else MergeFrom(s[0], s[1..])
  }

  /** What the merging function computes from any table: it picks up the first entry before it sorts. */
  function MergeRun(s: seq<Region>): seq<Region> {
    if s == [] then [] else MergeFrom(s[0], Sorted(s)[1..])
  }

  lemma {:induction false} MergeFromStart(cur: Region, s: seq<Region>)
    ensures MergeFrom(cur, s)[0].start == cur.start
    decreases |s|
  {
    if s != [] && cur.end == s[0].start { MergeFromStart(Region(cur.start, s[0].end), s[1..]); }
  }

  lemma MergeFromLength(c: Region, d: Region, s: seq<Region>)
    requires c.end == d.end
    ensures |MergeFrom(c, s)| == |MergeFrom(d, s)|
    decreases |s|
  {
    if s != [] && c.end == s[0].start { MergeFromLength(Region(c.start, s[0].end), Region(d.start, s[0].end), s[1..]); }
  }

  /** Starting from another region gives another table. */
  lemma MergeFromInjective(c: Region, d: Region, s: seq<Region>)
    requires MergeFrom(c, s) == MergeFrom(d, s)
    ensures c == d
  {
    MergeFromStart(c, s);
    MergeFromStart(d, s);
    if s != [] {
      MergeFromLength(Region(c.start, s[0].end), s[0], s[1..]);
      MergeFromLength(Region(d.start, s[0].end), s[0], s[1..]);
    }
  }

  /** The sort keeps the first entry in front exactly when it has the least start. */
  lemma SortedFirst(s: seq<Region>)
    requires s != []
    ensures Sorted(s)[0] == s[0] <==> forall r :: r in s ==> s[0].start <= r.start
  {
    hide Sorted;
    FirstLeast(s);
    if forall r :: r in s ==> s[0].start <= r.start { FirstStays(s); }
  }

  lemma {:induction false} FirstStays(s: seq<Region>)
    requires s != [] && forall r :: r in s ==> s[0].start <= r.start
    ensures Sorted(s)[0] == s[0]
    decreases |s|
  {
    hide Sorted, Insert;
    var front, last := s[..|s| - 1], s[|s| - 1];
    SortedLast(s);
    if front == [] {
      SortedEmpty();
      InsertNone(last);
    } else {
      FirstStays(front);
      SortedFacts(front);
      InsertFirst(Sorted(front), last);
      assert last in s;
    }
  }

  lemma SortedLast(s: seq<Region>)
    requires s != []
    ensures Sorted(s) == Insert(Sorted(s[..|s| - 1]), s[|s| - 1])
  {
  }

  lemma InsertNone(r: Region)
    ensures Insert([], r) == [r]
  {
  }

  /** The first entry of a sorted table starts first. */
  lemma FirstLeast(s: seq<Region>)
    requires s != []
    ensures |Sorted(s)| == |s| && forall r :: r in s ==> Sorted(s)[0].start <= r.start
  {
    hide Sorted;
    SortedFacts(s);
    var t := Sorted(s);
    forall r | r in s ensures t[0].start <= r.start {
      assert r in t;
      var k :| 0 <= k < |t| && t[k] == r;
    }
  }

  lemma {:induction false} InsertFirst(s: seq<Region>, r: Region)
    requires s != [] && SortedStarts(s)
    ensures Insert(s, r)[0] == if s[0].start > r.start then r else s[0]
  {
    if s[|s| - 1].start > r.start && |s| > 1 {
      InsertFirst(s[..|s| - 1], r);
    } else if |s| == 1 {
      assert s[..0] == [];
    }
  }

  /** The merging function gives the merged table if and only if the first entry has the least start. */
  lemma MergeRunIff(s: seq<Region>)
    ensures MergeRun(s) == Merged(Sorted(s)) <==> (s == [] || forall r :: r in s ==> s[0].start <= r.start)
  {
    hide MergeFrom, Sorted;
    if s == [] {
      SortedEmpty();
    } else {
      SortedFirst(s);
      var t := Sorted(s);
      if MergeFrom(s[0], t[1..]) == MergeFrom(t[0], t[1..]) { MergeFromInjective(s[0], t[0], t[1..]); }
    }
  }

  lemma SortedEmpty()
    ensures Sorted([]) == []
  {
  }

  /** Called on an unsorted table it loses a region. */
  lemma UnsortedLosesRegion()
    ensures MergeRun([Region(5, 6), Region(1, 2)]) == [Region(5, 6), Region(5, 6)]
    ensures Merged(Sorted([Region(5, 6), Region(1, 2)])) == [Region(1, 2), Region(5, 6)]
  {
    hide Sorted, Insert;
    var a, b := Region(5, 6), Region(1, 2);
    var s := [a, b];
    SortedLast(s);
    assert s[..1] == [a];
    SortedLast([a]);
    assert [a][..0] == [];
    SortedEmpty();
    InsertNone(a);
    InsertBefore(a, b);
    assert [b, a][1..] == [a] && [a][1..] == [];
  }

  lemma InsertBefore(a: Region, b: Region)
    requires b.start < a.start
    ensures Insert([a], b) == [b, a]
  {
    assert [a][..0] == [];
  }

  /** On a sorted table it is the merge. */
  lemma MergeRunSorted(s: seq<Region>)
    requires SortedStarts(s)
    ensures MergeRun(s) == Merged(s) && Sorted(s) == s
  {
    SortedFixed(s);
  }

  lemma {:induction false} SortedFixed(s: seq<Region>)
    requires SortedStarts(s)
    ensures Sorted(s) == s
  {
    if s != [] {
      SortedFixed(s[..|s| - 1]);
      assert s == s[..|s| - 1] + [s[|s| - 1]];
    }
  }

  lemma {:induction false} MergeFromCovers(cur: Region, s: seq<Region>, x: nat)
    requires cur.start <= cur.end && Proper(s)
    ensures Covers(MergeFrom(cur, s), x) <==> In(cur, x) || Covers(s, x)
    ensures Proper(MergeFrom(cur, s))
    decreases |s|
  {
    if s == [] {
      CoversOne(cur, x);
    } else {
      assert s == [s[0]] + s[1..];
      CoversAppend([s[0]], s[1..], x);
      CoversOne(s[0], x);
      if cur.end == s[0].start {
        MergeFromCovers(Region(cur.start, s[0].end), s[1..], x);
      } else {
        MergeFromCovers(s[0], s[1..], x);
        CoversAppend([cur], MergeFrom(s[0], s[1..]), x);
        CoversOne(cur, x);
      }
    }
  }

  /** Sorting and merging keep the covered addresses. */
  lemma SortMergeCovers(s: seq<Region>, x: nat)
    requires Proper(s)
    ensures Covers(Merged(Sorted(s)), x) <==> Covers(s, x)
    ensures Proper(Merged(Sorted(s)))
  {
    SortedFacts(s);
    var t := Sorted(s);
    CoversSameEntries(s, t, x);
    if t != [] {
      assert t == [t[0]] + t[1..];
      CoversAppend([t[0]], t[1..], x);
      CoversOne(t[0], x);
      MergeFromCovers(t[0], t[1..], x);
    }
  }

  /** Entries in order, each non-empty, with a gap before the next. */
  predicate Gapped(s: seq<Region>) {
    && (forall r :: r in s ==> r.start < r.end)
    && forall i, j :: 0 <= i < j < |s| ==> s[i].end < s[j].start
  }

  predicate Ordered(s: seq<Region>) {
    && (forall r :: r in s ==> r.start < r.end)
    && forall i, j :: 0 <= i < j < |s| ==> s[i].end <= s[j].start
  }

  lemma {:induction false} MergeFromGapped(cur: Region, s: seq<Region>)
    requires Ordered([cur] + s)
    ensures Gapped(MergeFrom(cur, s)) && MergeFrom(cur, s)[0].start == cur.start
    decreases |s|
  {
    hide Ordered, Gapped;
    if s == [] {
      assert [cur] + s == [cur];
      OneGapped(cur);
    } else {
      OrderedSteps(cur, s);
      if cur.end == s[0].start {
        MergeFromGapped(Region(cur.start, s[0].end), s[1..]);
      } else {
        MergeFromGapped(s[0], s[1..]);
        StartsAfter(MergeFrom(s[0], s[1..]), cur);
      }
    }
  }

  lemma OneGapped(cur: Region)
    requires Ordered([cur])
    ensures Gapped([cur])
  {
  }

  lemma OrderedSteps(cur: Region, s: seq<Region>)
    requires Ordered([cur] + s) && s != []
    ensures cur.start < cur.end <= s[0].start && Ordered([s[0]] + s[1..])
    ensures cur.end == s[0].start ==> Ordered([Region(cur.start, s[0].end)] + s[1..])
  {
    var cs := [cur] + s;
    assert cs[0] == cur && cs[1] == s[0] && cur in cs && s[0] in cs;
    assert [s[0]] + s[1..] == cs[1..];
    JoinOrdered(cs);
    assert cs[2..] == s[1..];
  }

  lemma JoinOrdered(s: seq<Region>)
    requires Ordered(s) && |s| >= 2
    ensures Ordered(s[1..]) && Ordered([Region(s[0].start, s[1].end)] + s[2..])
  {
  }

  lemma StartsAfter(t: seq<Region>, cur: Region)
    requires Gapped(t) && t != [] && cur.start < cur.end < t[0].start
    ensures Gapped([cur] + t)
  {
  }

  lemma ApartOrdered(t: seq<Region>)
    requires Apart(t) && SortedStarts(t) && forall r :: r in t ==> r.start < r.end
    ensures Ordered(t)
  {
  }

  /** Merging a table of disjoint regions leaves none that touch. */
  lemma SortMergeGapped(s: seq<Region>)
    requires Apart(s) && forall r :: r in s ==> r.start < r.end
    ensures Gapped(Merged(Sorted(s)))
  {
    hide Apart, Ordered, Gapped, SortedStarts, Sorted, MergeFrom;
    SortedFacts(s);
    SortedApart(s);
    var t := Sorted(s);
    ApartOrdered(t);
    if t == [] {
      NoneGapped();
    } else {
      assert t == [t[0]] + t[1..];
      MergeFromGapped(t[0], t[1..]);
    }
  }

  lemma NoneGapped()
    ensures Gapped([])
  {
  }

  /** The merged table of a set of addresses is unique: it depends on what is covered, not on the
      order or the cuts of the entries. */
  lemma {:induction false} GappedDetermined(s: seq<Region>, t: seq<Region>)
    requires Gapped(s) && Gapped(t) && forall x :: Covers(s, x) <==> Covers(t, x)
    ensures s == t
  {
    if s == [] || t == [] {
      if s != [] { FirstCovered(s); assert In(s[0], s[0].start); }
      if t != [] { FirstCovered(t); assert In(t[0], t[0].start); }
    } else {
      FirstCovered(s);
      FirstCovered(t);
      assert Covers(t, s[0].start) && Covers(s, t[0].start);
      assert !Covers(t, s[0].end) && !Covers(s, t[0].end);
      FirstEnds(s, t);
      FirstEnds(t, s);
      assert s[0] == t[0];
      forall x ensures Covers(s[1..], x) <==> Covers(t[1..], x) {
        TailCovers(s, x);
        TailCovers(t, x);
      }
      TailGapped(s);
      TailGapped(t);
      GappedDetermined(s[1..], t[1..]);
      assert s == [s[0]] + s[1..] && t == [t[0]] + t[1..];
    }
  }

  lemma TailGapped(s: seq<Region>)
    requires Gapped(s) && s != []
    ensures Gapped(s[1..])
  {
  }

  lemma TailCovers(s: seq<Region>, x: nat)
    requires Gapped(s) && s != []
    ensures Covers(s[1..], x) <==> Covers(s, x) && !In(s[0], x)
  {
  }

  /** Covered addresses begin with the first region, and its end is not covered. */
  lemma FirstCovered(s: seq<Region>)
    requires Gapped(s) && s != []
    ensures forall x: nat :: In(s[0], x) ==> Covers(s, x)
    ensures forall x: nat :: Covers(s, x) ==> s[0].start <= x
    ensures !Covers(s, s[0].end) && s[0].start < s[0].end
  {
  }

  lemma FirstEnds(s: seq<Region>, t: seq<Region>)
    requires Gapped(s) && Gapped(t) && s != [] && t != [] && s[0].start == t[0].start
    requires forall x :: Covers(s, x) <==> Covers(t, x)
    ensures s[0].end <= t[0].end
  {
    var first, e := s[0], t[0].end;
    assert first.start <= e < first.end ==> In(first, e);
    FirstCovered(s);
    FirstCovered(t);
  }
}
