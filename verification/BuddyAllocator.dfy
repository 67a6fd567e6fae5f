/** The buddy allocator itself: `buddy_init`, `buddy_alloc_pages` and `buddy_free_block` on the
    descriptor array and the free areas, proved against a heap of free pages and live blocks. */
module BuddyAllocator {
  import opened Bits
  import opened Lists
  import opened BuddyState
  import opened BuddySteps

  const WORD: nat := 0x1_0000_0000

  /** What a client sees: the free pages, and the order of each block handed out. */
  datatype Heap = Heap(free: set<nat>, live: map<nat, nat>)

  ghost function Block(b: nat, o: nat): set<nat> {
    set q: nat | q < b + Pow2(o) && InBlock(q, b, o)
  }

  ghost function Live(pg: seq<Page>): map<nat, nat> {
    map b: nat | b < |pg| && pg[b].state == Allocated && pg[b].data <= MAX_ORDER :: pg[b].data
  }

  ghost function HeapOf(pg: seq<Page>): Heap {
    Heap(FreePages(pg), Live(pg))
  }

  ghost predicate AllocStep(h: Heap, h': Heap, zone: Zone, b: nat, o: nat) {
    && Base(b, o) == b && ZoneOf(b) == zone
    && Block(b, o) <= h.free && b !in h.live
    && h' == Heap(h.free - Block(b, o), h.live[b := o])
  }

  ghost predicate FreeStep(h: Heap, h': Heap, b: nat) {
    && b in h.live
    && h' == Heap(h.free + Block(b, h.live[b]), h.live - {b})
  }

  /** An aligned run of `2^o` free pages in the zone. */
  ghost predicate RunAt(pg: seq<Page>, zone: Zone, b: nat, o: nat) {
    Base(b, o) == b && ZoneOf(b) == zone && AllFree(pg, b, o)
  }

  /** The block at `addr` was the first of the list of order `k`, and no list from `order` up to `k` had one. */
  ghost predicate SmallestFit(ar: Areas, zone: Zone, order: nat, k: nat, addr: nat) {
    && order <= k <= MAX_ORDER && Area(zone, k) in ar
    && ar[Area(zone, k)].list != [] && addr == PAGE_SIZE * ar[Area(zone, k)].list[0]
    && forall j: nat :: order <= j < k ==> Area(zone, j) in ar && ar[Area(zone, j)].list == []
  }

  // ---------------------------------------------------------------- sizes and orders

  /** DIV_ROUND_UP(size, PAGE_SIZE) in 32-bit unsigned arithmetic. */
  function PagesFor(size: nat): nat {
    (size + PAGE_SIZE - 1) % WORD / PAGE_SIZE
  }

  ghost predicate IsOrderFor(size: nat, o: nat) {
    && o <= BAD_ORDER
    && (o <= MAX_ORDER ==> PagesFor(size) <= Pow2(o))
    && forall k: nat :: k < o ==> Pow2(k) < PagesFor(size)
  }

  method SizeToOrder(size: nat) returns (order: nat)
    requires size < WORD
    ensures IsOrderFor(size, order)
  {
    var totalPages := PagesFor(size);
    order := 0;
    while order <= MAX_ORDER
      invariant order <= BAD_ORDER
      invariant forall k: nat :: k < order ==> Pow2(k) < totalPages
    {
      if totalPages <= Pow2(order) { return; }
      order := order + 1;
    }
  }

  lemma PagesForFacts(size: nat)
    requires size < WORD
    ensures size + PAGE_SIZE - 1 >= WORD ==> PagesFor(size) == 0
    ensures size + PAGE_SIZE - 1 < WORD ==>
              PagesFor(size) * PAGE_SIZE >= size && (PagesFor(size) - 1) * PAGE_SIZE < size
  {
  }

  /** The chosen block covers the request exactly when rounding up does not wrap; it is then the
      smallest that does. */
  lemma OrderCovers(size: nat, o: nat)
    requires size < WORD && IsOrderFor(size, o) && o <= MAX_ORDER
    ensures size <= Pow2(o) * PAGE_SIZE <==> size + PAGE_SIZE - 1 < WORD
    ensures size + PAGE_SIZE - 1 < WORD ==> forall k: nat :: k < o ==> Pow2(k) * PAGE_SIZE < size
  {
    hide PagesFor;
    hide Pow2;
    PowMonotone(o, 10);
    Base1024(0);
    PagesForFacts(size);
    forall k: nat | k < o && size + PAGE_SIZE - 1 < WORD ensures Pow2(k) * PAGE_SIZE < size {
      assert Pow2(k) <= PagesFor(size) - 1;
    }
  }

  /** A request within a page of 4 GiB wraps to zero pages and is served by one page. */
  lemma HugeRequestWraps()
    ensures IsOrderFor(0xFFFF_FFFF, 0) && Pow2(0) * PAGE_SIZE < 0xFFFF_FFFF
  {
  }

  // ---------------------------------------------------------------- buddy addresses

  /** WHO_IS_MY_BUDDY on byte addresses. */
  function WhoIsMyBuddy(addr: nat, o: nat, base: nat): nat
    requires base <= addr
  {
    Xor(addr - base, Pow2(o) * PAGE_SIZE) + base
  }

  lemma {:induction false} BaseMinus(b: nat, o: nat, k: nat)
    requires Base(k, o) == k <= b
    ensures Base(b, o) == Base(b - k, o) + k
    decreases o
  {
    if o > 0 {
      BaseMinus(b / 2, o - 1, k / 2);
      assert (b - k) / 2 == b / 2 - k / 2;
    }
  }

  lemma ZoneBaseAligned(z: Zone, o: nat)
    requires o <= MAX_ORDER
    ensures Base(ZoneBase(z), o) == ZoneBase(z)
    decreases MAX_ORDER - o
  {
    hide Base;
    if o == MAX_ORDER {
      Base1024(ZoneBase(z));
    } else {
      ZoneBaseAligned(z, o + 1);
      BaseDown(ZoneBase(z), o);
    }
  }

  /** The exclusive-or on byte addresses, relative to the zone base, lands in the sibling block. */
  lemma BuddyAddress(addr: nat, p: nat, o: nat, z: Zone)
    requires o < MAX_ORDER && p == addr / PAGE_SIZE && Base(p, o) == p && ZoneOf(p) == z
    ensures PAGE_SIZE * ZoneBase(z) <= addr
    ensures WhoIsMyBuddy(addr, o, PAGE_SIZE * ZoneBase(z)) / PAGE_SIZE == Sibling(p, o)
  {
    hide Xor;
    hide Sibling;
    hide Base;
    hide Pow2;
    var k := ZoneBase(z);
    var x, r := p - k, addr % PAGE_SIZE;
    SiblingShift(p, o, z);
    XorSibling(x, o);
    assert addr - PAGE_SIZE * k == 4096 * x + r;
    XorPages(x, r, Pow2(o));
  }

  lemma SiblingShift(p: nat, o: nat, z: Zone)
    requires o < MAX_ORDER && Base(p, o) == p && ZoneOf(p) == z
    ensures var x := p - ZoneBase(z); x >= 0 && Base(x, o) == x
    ensures Sibling(p - ZoneBase(z), o) + ZoneBase(z) == Sibling(p, o)
  {
    hide Base, Pow2;
    var k := ZoneBase(z);
    ZoneBaseAligned(z, o);
    ZoneBaseAligned(z, o + 1);
    BaseMinus(p, o, k);
    BaseMinus(p, o + 1, k);
    BaseStep(p - k, o);
  }

  // ---------------------------------------------------------------- effects on the heap

  lemma MarkFreeKeepsHeap(pg: seq<Page>, b: nat, o: nat)
    requires AllFree(pg, b, o)
    ensures HeapOf(Marked(pg, b, o, Free)) == HeapOf(pg)
    ensures forall q :: 0 <= q < |pg| ==> Marked(pg, b, o, Free)[q].state == pg[q].state
  {
  }

  lemma ClaimHeap(pg: seq<Page>, b: nat, o: nat, zone: Zone)
    requires RunAt(pg, zone, b, o) && o <= MAX_ORDER
    ensures AllocStep(HeapOf(pg), HeapOf(Marked(pg, b, o, Allocated)), zone, b, o)
  {
  }

  /** The descriptors inside `(p, n)` hold no order but at the head, or the page was never handed
      out. */
  ghost predicate Released(pg: seq<Page>, p: nat, n: nat) {
    || BlockOk(pg, p, n, Allocated)
    || (n == 0 && p < |pg| && pg[p] == Page(Available, 0))
  }

  lemma ReleaseHeap(pg: seq<Page>, b: nat, o: nat, p: nat, n: nat)
    requires Released(pg, p, n)
    requires b <= p && p + Pow2(n) <= b + Pow2(o) <= |pg|
    requires forall q :: b <= q < b + Pow2(o) && !InBlock(q, p, n) ==> pg[q].state == Free
    ensures FreePages(Marked(pg, b, o, Free)) == FreePages(pg) + Block(p, n)
    ensures Live(Marked(pg, b, o, Free)) == Live(pg) - {p}
  {
    var pg' := Marked(pg, b, o, Free);
    forall q: nat | q < |pg| ensures pg'[q].state == Free <==> pg[q].state == Free || q in Block(p, n) {
      if b <= q < b + Pow2(o) && !InBlock(q, p, n) { assert pg[q].state == Free; }
    }
    assert FreePages(pg') == FreePages(pg) + Block(p, n);
    forall q: nat | q < |pg| && pg[q].state == Allocated && pg[q].data <= MAX_ORDER && q != p
      ensures pg'[q] == pg[q]
    {
      assert !InBlock(q, p, n);
    }
    assert Live(pg') == Live(pg) - {p};
  }

  /** A live block can be taken in flight: nothing else touches its pages. */
  lemma ReleaseLive(pg: seq<Page>, ar: Areas, p: nat, n: nat)
    requires Valid(pg, ar) && Released(pg, p, n)
    ensures Coherent(pg, ar, p, p + Pow2(n))
  {
    forall c: nat, k: nat | Listed(ar, c, k)
      ensures BlockOk(pg, c, k, Free) && Apart(c, k, p, p + Pow2(n))
    {
      var q := if p < c then c else p;
      assert BlockOk(pg, c, k, Free);
      assert InBlock(q, c, k) ==> pg[q].state == Free;
    }
    forall q | 0 <= q < |pg| && pg[q].state == Free && Outside(q, p, p + Pow2(n))
      ensures CoveredFree(ar, q)
    {
    }
    forall q | 0 <= q < |pg| && pg[q].state == Allocated && Outside(q, p, p + Pow2(n))
      ensures CoveredLive(pg, q, p, p + Pow2(n))
    {
      assert CoveredLive(pg, q, 0, 0);
      var k: nat :| BlockOk(pg, Base(q, k), k, Allocated) && Apart(Base(q, k), k, 0, 0);
      BaseContains(q, k);
      LiveBlocksApart(pg, p, n, Base(q, k), k, q);
      assert Apart(Base(q, k), k, p, p + Pow2(n));
    }
  }

  lemma LiveBlocksApart(pg: seq<Page>, p: nat, n: nat, c: nat, k: nat, q: nat)
    requires Released(pg, p, n) && BlockOk(pg, c, k, Allocated)
    requires InBlock(q, c, k) && !InBlock(q, p, n)
    ensures Apart(c, k, p, p + Pow2(n))
  {
  }

  lemma {:induction false} BaseDownTo(p: nat, o: nat, o': nat)
    requires o <= o' && Base(p, o') == p
    ensures Base(p, o) == p
    decreases o' - o
  {
    if o < o' {
      BaseDown(p, o' - 1);
      BaseDownTo(p, o, o' - 1);
    }
  }

  /** Empty lists from the needed order up leave no aligned run of free pages in the zone. */
  lemma NoRun(pg: seq<Page>, ar: Areas, zone: Zone, o: nat)
    requires Valid(pg, ar) && o <= MAX_ORDER
    requires forall k: nat :: o <= k <= MAX_ORDER ==> ar[Area(zone, k)].list == []
    ensures !exists b: nat :: RunAt(pg, zone, b, o)
  {
    forall b: nat ensures !RunAt(pg, zone, b, o) {
      if RunAt(pg, zone, b, o) {
        var k := RunInListed(pg, ar, b, o);
        BlockInside(b, k);
      }
    }
  }

  /** The first entry of a non-empty list is an aligned free block of the zone, and not page 0. */
  lemma HeadListed(pg: seq<Page>, ar: Areas, zone: Zone, o: nat)
    requires Valid(pg, ar) && pg[0].state == Reserved && o <= MAX_ORDER
    requires ar[Area(zone, o)].nrFree != 0
    ensures var l := ar[Area(zone, o)];
            && l.list != [] && l.list[0] != 0 && ZoneOf(l.list[0]) == zone
            && Listed(ar, l.list[0], o) && BlockOk(pg, l.list[0], o, Free)
            && Unlink(ar, l.list[0], o) == ar[Area(zone, o) := FreeArea(l.list[1..], l.nrFree - 1)]
  {
    var l := ar[Area(zone, o)];
    assert AreaOk(Area(zone, o), l);
    var b := l.list[0];
    assert b in l.list;
    assert Listed(ar, b, o);
    assert BlockOk(pg, b, o, Free);
  }

  /** An allocated page that holds an order is the head of a live block of that order. */
  lemma LiveHead(pg: seq<Page>, ar: Areas, p: nat)
    requires Valid(pg, ar) && p < MAX_PAGES && pg[p].state == Allocated && pg[p].data <= MAX_ORDER
    ensures BlockOk(pg, p, pg[p].data, Allocated)
  {
    hide Pow2, Base, ListedOk, FreeOk, Merged, AreasOk;
    assert CoveredLive(pg, p, 0, 0);
    var k: nat :| BlockOk(pg, Base(p, k), k, Allocated) && Apart(Base(p, k), k, 0, 0);
    BaseContains(p, k);
  }

  ghost predicate SameButFree(pg: seq<Page>, pg': seq<Page>) {
    && |pg'| == |pg|
    && forall q :: 0 <= q < |pg| ==> pg'[q].state == pg[q].state && (pg[q].state == Free || pg'[q] == pg[q])
  }

  /** One round of splitting: the upper half goes on the list of the order below. */
  lemma SplitOnce(pg: seq<Page>, ar: Areas, p: nat, o: nat)
    requires o < MAX_ORDER && Base(p, o + 1) == p && p + Pow2(o + 1) <= MAX_PAGES
    requires Coherent(pg, ar, p, p + Pow2(o + 1)) && AllFree(pg, p, o + 1)
    ensures Base(p, o) == p && ZoneOf(p + Pow2(o)) == ZoneOf(p)
    ensures Coherent(Marked(pg, p + Pow2(o), o, Free), Link(ar, p + Pow2(o), o), p, p + Pow2(o))
    ensures HeapOf(Marked(pg, p + Pow2(o), o, Free)) == HeapOf(pg)
    ensures SameButFree(pg, Marked(pg, p + Pow2(o), o, Free))
  {
    hide Coherent, Link, Listed, HeapOf, Base;
    var upper := p + Pow2(o);
    BaseDown(p, o);
    BaseAdd(p, o);
    SiblingFacts(p, o);
    BlockInZone(upper, p, o + 1);
    InFlightUnlisted(pg, ar, p, o);
    MarkFreeKeepsHeap(pg, upper, o);
    PutBlock(pg, ar, p, p + Pow2(o + 1), upper, o);
  }

  /** Nothing inside a block in flight is listed. */
  lemma InFlightUnlisted(pg: seq<Page>, ar: Areas, p: nat, o: nat)
    requires Coherent(pg, ar, p, p + Pow2(o + 1))
    ensures !Listed(ar, p, o) && |pg| == MAX_PAGES
  {
    assert !Apart(p, o, p, p + Pow2(o + 1));
  }

  lemma CoherentShape(pg: seq<Page>, ar: Areas, lo: nat, hi: nat)
    requires Coherent(pg, ar, lo, hi)
    ensures |pg| == MAX_PAGES
    ensures forall a :: a in ar <==> a.order <= MAX_ORDER
    ensures forall a :: a in ar ==> ar[a].nrFree == |ar[a].list|
  {
  }

  /** Taking the first block of a non-empty list for a smaller request. */
  lemma TakeForRequest(pg: seq<Page>, ar: Areas, zone: Zone, cur: nat, order: nat)
    requires PagesOk(pg) && Valid(pg, ar) && order <= cur <= MAX_ORDER
    requires ar[Area(zone, cur)].nrFree != 0
    ensures var l := ar[Area(zone, cur)];
            && l.list != [] && l.list[0] != 0
            && var p := l.list[0];
               var ar' := ar[Area(zone, cur) := FreeArea(l.list[1..], l.nrFree - 1)];
               && ZoneOf(p) == zone && Base(p, cur) == p && p + Pow2(cur) <= MAX_PAGES
               && Coherent(pg, ar', p, p + Pow2(cur)) && AllFree(pg, p, cur)
               && RunAt(pg, zone, p, order)
  {
    hide Coherent;
    hide Listed;
    hide Unlink;
    HeadListed(pg, ar, zone, cur);
    var p := ar[Area(zone, cur)].list[0];
    TakeBlock(pg, ar, 0, 0, p, cur, p, p + Pow2(cur));
    BaseDownTo(p, order, cur);
    PowMonotone(order, cur);
  }

  /** Handing the split block out completes the allocation. */
  lemma FinishAlloc(pg: seq<Page>, mid: seq<Page>, ar: Areas, p: nat, order: nat, zone: Zone)
    requires PagesOk(pg) && SameButFree(pg, mid) && HeapOf(mid) == HeapOf(pg)
    requires Coherent(mid, ar, p, p + Pow2(order)) && order <= MAX_ORDER
    requires Base(p, order) == p && AllFree(mid, p, order) && ZoneOf(p) == zone
    ensures var pg' := Marked(mid, p, order, Allocated);
            && PagesOk(pg') && Valid(pg', ar)
            && AllocStep(HeapOf(pg), HeapOf(pg'), zone, p, order)
  {
    hide Coherent, AllocStep, HeapOf;
    ClaimBlock(mid, ar, p, order);
    ClaimHeap(mid, p, order, zone);
    assert mid[0].state == Reserved;
  }

  /** The block `(p0, n)` being freed has grown to the block `(p, o)`, which is on no list. */
  ghost predicate InFlight(pg: seq<Page>, ar: Areas, p: nat, o: nat, p0: nat, n: nat) {
    && n <= o <= MAX_ORDER && Base(p, o) == p && p + Pow2(o) <= MAX_PAGES
    && p <= p0 && p0 + Pow2(n) <= p + Pow2(o) && ZoneOf(p) == ZoneOf(p0)
    && Released(pg, p0, n)
    && Coherent(pg, ar, p, p + Pow2(o))
    && forall q :: p <= q < p + Pow2(o) && !InBlock(q, p0, n) ==> pg[q].state == Free
  }

  lemma StartFree(pg: seq<Page>, ar: Areas, p0: nat)
    requires Valid(pg, ar) && p0 < MAX_PAGES && pg[p0].data <= MAX_ORDER
    requires pg[p0].state == Allocated || (pg[p0].state == Available && pg[p0].data == 0)
    ensures InFlight(pg, ar, p0, pg[p0].data, p0, pg[p0].data)
  {
    if pg[p0].state == Allocated { LiveHead(pg, ar, p0); }
    ReleaseLive(pg, ar, p0, pg[p0].data);
  }

  /** `get_buddy_page` finds a block exactly when the sibling is listed. */
  lemma FindBuddy(pg: seq<Page>, ar: Areas, addr: nat, o: nat, p0: nat, n: nat)
    requires o < MAX_ORDER && InFlight(pg, ar, addr / PAGE_SIZE, o, p0, n)
    ensures var z, s := ZoneOf(p0), Sibling(addr / PAGE_SIZE, o);
            && PAGE_SIZE * ZoneBase(z) <= addr
            && WhoIsMyBuddy(addr, o, PAGE_SIZE * ZoneBase(z)) / PAGE_SIZE == s < |pg|
            && ZoneOf(s) == z && Area(z, o) in ar
            && (pg[s] == Page(Free, o) <==> Listed(ar, s, o))
  {
    var p := addr / PAGE_SIZE;
    BuddyAddress(addr, p, o, ZoneOf(p));
    SiblingInZone(p, o);
    SiblingFacts(p, o);
    FreeHeadListed(pg, ar, p, p + Pow2(o), Sibling(p, o), o);
  }

  lemma MergeShape(p: nat, o: nat)
    requires o < MAX_ORDER && Base(p, o) == p && p + Pow2(o) <= MAX_PAGES
    ensures var s := Sibling(p, o);
            var p' := if s < p then s else p;
            && Base(p', o + 1) == p' && p' + Pow2(o + 1) <= MAX_PAGES && ZoneOf(p') == ZoneOf(p)
            && Joined(p, p + Pow2(o), s, o, p', p' + Pow2(o + 1))
            && forall q {:trigger InBlock(q, p, o)} ::
                 p' <= q < p' + Pow2(o + 1) ==> InBlock(q, p, o) || InBlock(q, s, o)
  {
    SiblingFacts(p, o);
    SiblingInZone(p, o);
    BaseNest(p, o + 1, o + 1);
    BlockInside(p, o + 1);
  }

  lemma ListedFree(pg: seq<Page>, ar: Areas, lo: nat, hi: nat, b: nat, o: nat)
    requires Coherent(pg, ar, lo, hi) && Listed(ar, b, o)
    ensures AllFree(pg, b, o) && Area(ZoneOf(b), o) in ar
  {
  }

  lemma MergeBuddy(pg: seq<Page>, ar: Areas, p: nat, o: nat, p0: nat, n: nat)
    requires o < MAX_ORDER && InFlight(pg, ar, p, o, p0, n) && Listed(ar, Sibling(p, o), o)
    ensures var s := Sibling(p, o);
            InFlight(pg, Unlink(ar, s, o), if s < p then s else p, o + 1, p0, n)
  {
    hide Coherent, Listed, Base, Sibling, Released, Unlink;
    var s := Sibling(p, o);
    var p' := if s < p then s else p;
    MergeShape(p, o);
    ListedFree(pg, ar, p, p + Pow2(o), s, o);
    TakeBlock(pg, ar, p, p + Pow2(o), s, o, p', p' + Pow2(o + 1));
    forall q | p' <= q < p' + Pow2(o + 1) && !InBlock(q, p0, n) ensures pg[q].state == Free {
      assert InBlock(q, p, o) || InBlock(q, s, o);
    }
  }

  lemma FlightShape(pg: seq<Page>, ar: Areas, p: nat, o: nat, p0: nat, n: nat)
    requires InFlight(pg, ar, p, o, p0, n)
    ensures p + Pow2(o) <= |pg| == MAX_PAGES && o <= MAX_ORDER && Area(ZoneOf(p), o) in ar
  {
  }

  lemma FinishFree(pg: seq<Page>, ar: Areas, p: nat, o: nat, p0: nat, n: nat)
    requires InFlight(pg, ar, p, o, p0, n)
    requires o < MAX_ORDER ==> !Listed(ar, Sibling(p, o), o)
    ensures Valid(Marked(pg, p, o, Free), Link(ar, p, o))
    ensures FreedFrom(pg, Marked(pg, p, o, Free), p0, n)
  {
    hide Coherent;
    hide Listed;
    hide Base;
    hide Released;
    FlightShape(pg, ar, p, o, p0, n);
    var pg' := Marked(pg, p, o, Free);
    PutBlock(pg, ar, p, p + Pow2(o), p, o);
    NothingInFlight(pg', Link(ar, p, o), p, 0);
    ReleaseHeap(pg, p, o, p0, n);
  }

  /** Effect of freeing the block `(p, n)` on the descriptors. */
  ghost predicate FreedFrom(pg: seq<Page>, pg': seq<Page>, p: nat, n: nat) {
    && |pg'| == |pg|
    && FreePages(pg') == FreePages(pg) + Block(p, n)
    && Live(pg') == Live(pg) - {p}
    && forall q :: 0 <= q < |pg| && pg[q].state != Free && !InBlock(q, p, n) ==> pg'[q] == pg[q]
  }

  /** What a client gets from freeing page `p`: a panic that changes nothing exactly when `p` does
      not head a live block, and otherwise that block joins the free pages. */
  ghost predicate Freed(pg: seq<Page>, pg': seq<Page>, p: nat, panic: bool) {
    && PagesOk(pg')
    && (panic <==> p !in Live(pg))
    && (if panic then pg' == pg else FreeStep(HeapOf(pg), HeapOf(pg'), p))
  }

  lemma NotFreed(pg: seq<Page>, p: nat)
    requires PagesOk(pg) && p < |pg|
    requires !((pg[p].state == Allocated || pg[p].state == Available) && pg[p].data <= MAX_ORDER)
    ensures Freed(pg, pg, p, true)
  {
  }

  lemma FreedStep(pg: seq<Page>, pg': seq<Page>, p: nat)
    requires PagesOk(pg) && p < |pg| && pg[p].data <= MAX_ORDER
    requires pg[p].state == Allocated || pg[p].state == Available
    requires FreedFrom(pg, pg', p, pg[p].data)
    ensures Freed(pg, pg', p, false)
  {
    assert p in Live(pg);
    assert !InBlock(0, p, pg[p].data);
    forall q | 0 <= q < |pg'| && pg'[q].state == Available ensures pg'[q].data > MAX_ORDER {
      assert q !in FreePages(pg') && q !in FreePages(pg) && q !in Block(p, pg[p].data);
    }
  }

  lemma EmptyValid(pg: seq<Page>, ar: Areas)
    requires |pg| == MAX_PAGES
    requires forall q :: 0 <= q < |pg| ==> pg[q].state != Free && pg[q].state != Allocated
    requires forall a :: a in ar <==> a.order <= MAX_ORDER
    requires forall a :: a in ar ==> ar[a] == FreeArea([], 0)
    ensures Valid(pg, ar)
  {
  }

  /** After the pages below `i` have been visited: the available ones among them are free, the
      descriptors from `i` on are as they were. */
  ghost predicate InitDone(pg0: seq<Page>, pg: seq<Page>, ar: Areas, i: nat) {
    && |pg0| == |pg| == MAX_PAGES && i <= |pg|
    && Valid(pg, ar) && Live(pg) == map[] && pg0[0].state == Reserved
    && (forall q :: 0 <= q < |pg0| ==>
          pg0[q].state != Free && pg0[q].state != Allocated && pg0[q].data == PAGE_MAGIC)
    && (forall q :: 0 <= q < i && pg0[q].state == Available ==> pg[q].state == Free)
    && forall q :: 0 <= q < |pg| && (i <= q || pg0[q].state != Available) ==> pg[q] == pg0[q]
  }

  lemma PrepareAvailable(pg: seq<Page>, ar: Areas, i: nat)
    requires Valid(pg, ar) && i < |pg| && pg[i].state == Available
    ensures var pg' := pg[i := Page(Available, 0)];
            Valid(pg', ar) && Live(pg') == Live(pg) && FreePages(pg') == FreePages(pg)
  {
    var pg' := pg[i := Page(Available, 0)];
    forall b: nat, o: nat | Listed(ar, b, o) ensures BlockOk(pg', b, o, Free) && Apart(b, o, 0, 0) {
      assert BlockOk(pg, b, o, Free);
    }
    forall q | 0 <= q < |pg'| && pg'[q].state == Free && Outside(q, 0, 0) ensures CoveredFree(ar, q) {
    }
    forall q | 0 <= q < |pg'| && pg'[q].state == Allocated && Outside(q, 0, 0)
      ensures CoveredLive(pg', q, 0, 0)
    {
      assert CoveredLive(pg, q, 0, 0);
      var k: nat :| BlockOk(pg, Base(q, k), k, Allocated) && Apart(Base(q, k), k, 0, 0);
      assert BlockOk(pg', Base(q, k), k, Allocated);
    }
    assert Live(pg') == Live(pg);
    assert FreePages(pg') == FreePages(pg);
  }

  lemma InitStep(pg0: seq<Page>, pg: seq<Page>, ar: Areas, pg': seq<Page>, ar': Areas, i: nat)
    requires InitDone(pg0, pg, ar, i) && i < |pg| && pg0[i].state == Available
    requires Valid(pg', ar') && FreedFrom(pg[i := Page(Available, 0)], pg', i, 0)
    ensures InitDone(pg0, pg', ar', i + 1)
  {
    var mid := pg[i := Page(Available, 0)];
    assert Live(mid) == map[];
    forall q | 0 <= q < i + 1 && pg0[q].state == Available ensures pg'[q].state == Free {
      if q == i { assert InBlock(i, i, 0); } else { assert q in FreePages(mid); }
      assert q in FreePages(pg');
    }
    assert Live(pg') == map[];
  }

  lemma InitFinished(pg0: seq<Page>, pg: seq<Page>, ar: Areas, total: nat)
    requires InitDone(pg0, pg, ar, total)
    ensures PagesOk(pg)
    ensures HeapOf(pg) == Heap(set q: nat | q < total && pg0[q].state == Available, map[])
  {
  }

  // ---------------------------------------------------------------- the allocator

  class Buddy {
    const pages: array<Page>
    var areas: Areas

    ghost predicate Valid()
      reads this, pages
    {
      PagesOk(pages[..]) && BuddyState.Valid(pages[..], areas)
    }

    ghost function Contents(): Heap
      reads this, pages
    {
      HeapOf(pages[..])
    }

    method SetBlockMetadata(first: nat, order: nat, state: PageState)
      requires first + Pow2(order) <= pages.Length
      modifies pages
      ensures pages[..] == Marked(old(pages[..]), first, order, state)
    {
      var n := Pow2(order);
      pages[first] := pages[first].(data := order);
      for i := 0 to n
        invariant pages[first] == Page(if i > 0 then state else old(pages[first]).state, order)
        invariant forall q :: first < q < first + i ==> pages[q] == Page(state, PAGE_MAGIC)
        invariant forall q :: 0 <= q < pages.Length && q != first && !(first < q < first + i)
                              ==> pages[q] == old(pages[q])
      {
        pages[first + i] := pages[first + i].(state := state);
        if i > 0 {
          pages[first + i] := pages[first + i].(data := PAGE_MAGIC);
        }
      }
    }

    /** Returns the address of the first block on the list, 0 when the list is empty. */
    method PopFirstBlock(order: nat, zone: Zone) returns (addr: nat)
      requires Area(zone, order) in areas
      modifies this
      ensures var l := old(areas)[Area(zone, order)];
              if l.list == [] then addr == 0 && areas == old(areas)
              else addr == PAGE_SIZE * l.list[0] &&
                   areas == old(areas)[Area(zone, order) := FreeArea(l.list[1..], l.nrFree - 1)]
    {
      var a := Area(zone, order);
      if areas[a].list == [] {
        return 0;
      }
      var first := areas[a].list[0];
      areas := areas[a := FreeArea(areas[a].list[1..], areas[a].nrFree - 1)];
      return PAGE_SIZE * first;
    }

    /** Keeps the lower half of the block in flight and lists the upper half, down to the order
        needed. */
    method SplitBlockToOrder(needed: nat, cur: nat, p: nat, zone: Zone)
      requires needed <= cur <= MAX_ORDER && Base(p, cur) == p && p + Pow2(cur) <= MAX_PAGES
      requires Coherent(pages[..], areas, p, p + Pow2(cur)) && ZoneOf(p) == zone
      requires AllFree(pages[..], p, cur)
      modifies this, pages
      ensures Coherent(pages[..], areas, p, p + Pow2(needed))
      ensures Base(p, needed) == p && AllFree(pages[..], p, needed)
      ensures HeapOf(pages[..]) == old(HeapOf(pages[..]))
      ensures SameButFree(old(pages[..]), pages[..])
      decreases cur
    {
      hide Coherent;
      hide HeapOf;
      if cur == needed {
        return;
      }
      var o := cur - 1;
      var upper := p + Pow2(o);
      ghost var pg, ar := pages[..], areas;
      SplitOnce(pg, ar, p, o);
      CoherentShape(pg, ar, p, p + Pow2(cur));
      SetBlockMetadata(upper, o, Free);
      var a := Area(zone, o);
      areas := areas[a := FreeArea([upper] + areas[a].list, areas[a].nrFree + 1)];
      assert areas == Link(ar, upper, o);
      SplitBlockToOrder(needed, o, p, zone);
    }

    /** `buddy_alloc_pages`: address of a block of the least order covering the size, or 0 exactly
        when no such order exists or the zone has no aligned run of that many free pages. */
    method AllocPages(size: nat, zone: Zone) returns (addr: nat, order: nat)
      requires Valid() && size < WORD
      modifies this, pages
      ensures Valid() && IsOrderFor(size, order)
      ensures addr == 0 <==> order > MAX_ORDER || !exists b: nat :: RunAt(old(pages[..]), zone, b, order)
      ensures addr == 0 ==> pages[..] == old(pages[..]) && areas == old(areas)
      ensures addr != 0 ==> addr % PAGE_SIZE == 0
                            && AllocStep(old(Contents()), Contents(), zone, addr / PAGE_SIZE, order)
      ensures addr != 0 ==> exists k: nat :: SmallestFit(old(areas), zone, order, k, addr)
    {
      hide Coherent;
      hide AllocStep;
      hide RunAt;
      hide HeapOf;
      ghost var ar := areas;
      order := SizeToOrder(size);
      if order > MAX_ORDER {
        return 0, order;
      }
      CoherentShape(pages[..], areas, 0, 0);
      var cur := order;
      while cur != BAD_ORDER && areas[Area(zone, cur)].nrFree == 0
        invariant order <= cur <= BAD_ORDER
        invariant forall o: nat :: order <= o < cur ==> areas[Area(zone, o)].list == []
      {
        cur := cur + 1;
      }
      if cur == BAD_ORDER {
        NoRun(pages[..], areas, zone, order);
        return 0, order;
      }
      ghost var pg := pages[..];
      TakeForRequest(pg, areas, zone, cur, order);
      addr := PopFirstBlock(cur, zone);
      assert exists b: nat :: RunAt(pg, zone, b, order) by { assert RunAt(pg, zone, addr / PAGE_SIZE, order); }
      if addr == 0 {
        assert false;  // "nr_free mismatch" is unreachable
      }
      assert SmallestFit(ar, zone, order, cur, addr);
      var p := addr / PAGE_SIZE;
      SplitBlockToOrder(order, cur, p, zone);
      FinishAlloc(pg, pages[..], areas, p, order, zone);
      SetBlockMetadata(p, order, Allocated);
    }

    /** The merging loop of `buddy_free_block`: the block in flight takes in its buddy as long as
        that buddy is listed at the same order. */
    method Coalesce(ptr: nat, blockOrder: nat) returns (addr: nat, order: nat)
      requires pages.Length == MAX_PAGES
      requires InFlight(pages[..], areas, ptr / PAGE_SIZE, blockOrder, ptr / PAGE_SIZE, blockOrder)
      modifies this
      ensures InFlight(pages[..], areas, addr / PAGE_SIZE, order, ptr / PAGE_SIZE, blockOrder)
      ensures order < MAX_ORDER ==> !Listed(areas, Sibling(addr / PAGE_SIZE, order), order)
    {
      hide Coherent;
      hide InFlight;
      hide Listed;
      hide Xor;
      hide Pow2;
      hide Base;
      ghost var p0 := ptr / PAGE_SIZE;
      FlightShape(pages[..], areas, p0, blockOrder, p0, blockOrder);
      var zone := ZoneOf(ptr / PAGE_SIZE);
      addr, order := ptr, blockOrder;
      while order < MAX_ORDER
        invariant order <= MAX_ORDER
        invariant InFlight(pages[..], areas, addr / PAGE_SIZE, order, p0, blockOrder)
      {
        FindBuddy(pages[..], areas, addr, order, p0, blockOrder);
        var buddy := WhoIsMyBuddy(addr, order, PAGE_SIZE * ZoneBase(zone)) / PAGE_SIZE;
        if !(pages[buddy].state == Free && pages[buddy].data == order) {
          break;
        }
        MergeBuddy(pages[..], areas, addr / PAGE_SIZE, order, p0, blockOrder);
        areas := Unlink(areas, buddy, order);
        addr := if addr < PAGE_SIZE * buddy then addr else PAGE_SIZE * buddy;
        order := order + 1;
      }
    }

    /** `buddy_free_block`, for a block handed out earlier or a page never handed out. It panics,
        changing nothing, exactly when the descriptor is not the head of such a block. */
    method FreeBlock(ptr: nat) returns (panic: bool)
      requires pages.Length == MAX_PAGES && ptr < WORD && pages[0].state == Reserved
      requires BuddyState.Valid(pages[..], areas)
      requires pages[ptr / PAGE_SIZE].state == Available && pages[ptr / PAGE_SIZE].data <= MAX_ORDER
               ==> pages[ptr / PAGE_SIZE].data == 0
      modifies this, pages
      ensures BuddyState.Valid(pages[..], areas)
      ensures var page := old(pages[ptr / PAGE_SIZE]);
              panic <==> !((page.state == Allocated || page.state == Available)
                           && page.data <= MAX_ORDER)
      ensures panic ==> pages[..] == old(pages[..]) && areas == old(areas)
      ensures !panic ==> FreedFrom(old(pages[..]), pages[..], ptr / PAGE_SIZE,
                                   old(pages[ptr / PAGE_SIZE].data))
      ensures old(Valid()) ==> Freed(old(pages[..]), pages[..], ptr / PAGE_SIZE, panic)
    {
      hide Coherent;
      hide Freed;
      hide PagesOk;
      hide InFlight;
      hide FreedFrom;
      hide Listed;
      var page := pages[ptr / PAGE_SIZE];
      ghost var pg, p0 := pages[..], ptr / PAGE_SIZE;
      if (page.state != Allocated && page.state != Available) || page.data > MAX_ORDER {
        if PagesOk(pg) { NotFreed(pg, p0); }
        return true;
      }
      StartFree(pg, areas, p0);
      var addr, order := Coalesce(ptr, page.data);
      var p := addr / PAGE_SIZE;
      FlightShape(pg, areas, p, order, p0, page.data);
      FinishFree(pg, areas, p, order, p0, page.data);
      if PagesOk(pg) { FreedStep(pg, Marked(pg, p, order, Free), p0); }
      SetBlockMetadata(p, order, Free);
      areas := Link(areas, p, order);
      return false;
    }

    method ResetAreas()
      modifies this
      ensures forall a :: a in areas <==> a.order <= MAX_ORDER
      ensures forall a :: a in areas ==> areas[a] == FreeArea([], 0)
    {
      var zones := [Lowmem, Dma, Highmem];
      areas := map[];
      for z := 0 to |zones|
        invariant forall a :: a in areas <==> a.zone in zones[..z] && a.order <= MAX_ORDER
        invariant forall a :: a in areas ==> areas[a] == FreeArea([], 0)
      {
        for order := 0 to MAX_ORDER + 1
          invariant forall a :: a in areas <==>
              (a.zone in zones[..z] && a.order <= MAX_ORDER) || (a.zone == zones[z] && a.order < order)
          invariant forall a :: a in areas ==> areas[a] == FreeArea([], 0)
        {
          areas := areas[Area(zones[z], order) := FreeArea([], 0)];
        }
        assert zones[..z + 1] == zones[..z] + [zones[z]];
      }
      assert zones[..|zones|] == zones;
      forall zone: Zone ensures zone in zones {
        match zone
        case Lowmem => assert zones[0] == zone;
        case Dma => assert zones[1] == zone;
        case Highmem => assert zones[2] == zone;
      }
    }

    /** `buddy_init`: every available page below `total` becomes free, and nothing is live. */
    method Init(total: nat)
      requires pages.Length == MAX_PAGES && total <= MAX_PAGES && pages[0].state == Reserved
      requires forall q :: 0 <= q < pages.Length ==>
                 pages[q].state != Free && pages[q].state != Allocated && pages[q].data == PAGE_MAGIC
      modifies this, pages
      ensures Valid()
      ensures Contents() == Heap(set q: nat | q < total && old(pages[q].state) == Available, map[])
    {
      ResetAreas();
      EmptyValid(pages[..], areas);
      ghost var pg0 := pages[..];
      for i := 0 to total
        invariant InitDone(pg0, pages[..], areas, i)
      {
        hide Coherent;
        if pages[i].state == Available {
          PrepareAvailable(pages[..], areas, i);
          ghost var pg, ar := pages[..], areas;
          pages[i] := pages[i].(data := 0);
          assert pages[..] == pg[i := Page(Available, 0)];
          var panic := FreeBlock(PAGE_SIZE * i);
          InitStep(pg0, pg, ar, pages[..], areas, i);
        }
      }
      InitFinished(pg0, pages[..], areas, total);
    }
  }
}
