/** State of the buddy allocator: page descriptors, per-zone free areas, and the coherence between
    them. The descriptor of page `q` describes physical addresses `4096 * q ..< 4096 * (q + 1)`. */
module BuddyState {
  import opened Bits
  import opened Lists

  const MAX_ORDER: nat := 10
  const BAD_ORDER: nat := 11
  const MAX_PAGES: nat := 0x100000
  const PAGE_MAGIC: nat := 0xDEADBEEF
  const PAGE_SIZE: nat := 4096

  datatype Zone = Lowmem | Dma | Highmem

  datatype PageState = Unusable | Reserved | Available | Free | Allocated | Slab

  datatype Page = Page(state: PageState, data: nat)

  datatype Area = Area(zone: Zone, order: nat)

  datatype FreeArea = FreeArea(list: seq<nat>, nrFree: int)

  type Areas = map<Area, FreeArea>

  /** The zone bits that the descriptor of page `q` carries. */
  function ZoneOf(q: nat): Zone {
    if q >= 0x38000 then Highmem else if q >= 0x1000 then Lowmem else Dma
  }

  /** First page of a zone. */
  function ZoneBase(z: Zone): nat {
    match z
    case Dma => 0
    case Lowmem => 0x1000
    case Highmem => 0x38000
  }

  /** Block `(b, o)` is on the free list of its order, in the zone of its first page. */
  ghost predicate Listed(ar: Areas, b: nat, o: nat) {
    var a := Area(ZoneOf(b), o);
    a in ar && b in ar[a].list
  }

  ghost predicate AreaOk(a: Area, f: FreeArea) {
    && NoDup(f.list)
    && f.nrFree == |f.list|
    && forall b :: b in f.list ==> ZoneOf(b) == a.zone
  }

  ghost predicate AreasOk(ar: Areas) {
    && (forall a :: a in ar <==> a.order <= MAX_ORDER)
    && (forall a :: a in ar ==> AreaOk(a, ar[a]))
  }

  /** The descriptors `b ..< b + 2^o` describe one block: the head holds the order, the other pages
      hold PAGE_MAGIC, and all of them have state `st`. */
  ghost predicate BlockOk(pg: seq<Page>, b: nat, o: nat, st: PageState) {
    && o <= MAX_ORDER
    && Base(b, o) == b
    && b + Pow2(o) <= |pg|
    && pg[b] == Page(st, o)
    && forall q :: b < q < b + Pow2(o) ==> pg[q] == Page(st, PAGE_MAGIC)
  }

  ghost predicate Apart(b: nat, o: nat, lo: nat, hi: nat) {
    hi <= lo || b + Pow2(o) <= lo || hi <= b
  }

  ghost predicate Outside(q: nat, lo: nat, hi: nat) {
    q < lo || hi <= q
  }

  ghost predicate CoveredFree(ar: Areas, q: nat) {
    exists o: nat :: o <= MAX_ORDER && Listed(ar, Base(q, o), o)
  }

  ghost predicate CoveredLive(pg: seq<Page>, q: nat, lo: nat, hi: nat) {
    exists o: nat :: BlockOk(pg, Base(q, o), o, Allocated) && Apart(Base(q, o), o, lo, hi)
  }

  ghost predicate ListedOk(pg: seq<Page>, ar: Areas, lo: nat, hi: nat) {
    forall b: nat, o: nat :: Listed(ar, b, o) ==> BlockOk(pg, b, o, Free) && Apart(b, o, lo, hi)
  }

  ghost predicate FreeOk(pg: seq<Page>, ar: Areas, lo: nat, hi: nat) {
    forall q {:trigger CoveredFree(ar, q)} ::
      0 <= q < |pg| && pg[q].state == Free && Outside(q, lo, hi) ==> CoveredFree(ar, q)
  }

  ghost predicate LiveOk(pg: seq<Page>, lo: nat, hi: nat) {
    forall q {:trigger CoveredLive(pg, q, lo, hi)} ::
      0 <= q < |pg| && pg[q].state == Allocated && Outside(q, lo, hi)
      ==> CoveredLive(pg, q, lo, hi)
  }

  /** No two buddies below the top order are both free: everything that can be merged is merged. */
  ghost predicate Merged(ar: Areas) {
    forall b: nat, o: nat {:trigger Sibling(b, o)} ::
      Listed(ar, b, o) && o < MAX_ORDER ==> !Listed(ar, Sibling(b, o), o)
  }

  ghost predicate PagesOk(pg: seq<Page>) {
    && |pg| == MAX_PAGES
    && pg[0].state == Reserved
    && forall q :: 0 <= q < |pg| && pg[q].state == Available ==> pg[q].data > MAX_ORDER
  }

  /** Coherence of descriptors and lists, except for the pages `lo ..< hi` that an operation holds
      in flight. */
  ghost predicate Coherent(pg: seq<Page>, ar: Areas, lo: nat, hi: nat) {
    && |pg| == MAX_PAGES
    && AreasOk(ar)
    && ListedOk(pg, ar, lo, hi)
    && FreeOk(pg, ar, lo, hi)
    && LiveOk(pg, lo, hi)
    && Merged(ar)
  }

  ghost predicate Valid(pg: seq<Page>, ar: Areas) {
    Coherent(pg, ar, 0, 0)
  }

  /** `set_block_metadata` on the block `(b, o)`. */
  function Marked(pg: seq<Page>, b: nat, o: nat, st: PageState): (r: seq<Page>)
    ensures |r| == |pg|
  {
    seq(|pg|, q requires 0 <= q < |pg| =>
      if q == b then Page(st, o)
      else if b < q < b + Pow2(o) then Page(st, PAGE_MAGIC)
      else pg[q])
  }

  // ---------------------------------------------------------------- the canonical free lists

  ghost predicate AllFree(pg: seq<Page>, b: nat, o: nat) {
    && b + Pow2(o) <= |pg|
    && forall q :: b <= q < b + Pow2(o) ==> pg[q].state == Free
  }

  /** `(b, o)` is an aligned run of free pages that no larger such run contains. */
  ghost predicate MaximalFree(pg: seq<Page>, b: nat, o: nat) {
    && o <= MAX_ORDER
    && Base(b, o) == b
    && AllFree(pg, b, o)
    && (o < MAX_ORDER ==> !AllFree(pg, Base(b, o + 1), o + 1))
  }

  lemma SameChunk(q: nat, b: nat, k: nat)
    requires q < MAX_PAGES && 1024 * k <= b <= q < 1024 * (k + 1)
    ensures 1024 * (k + 1) <= MAX_PAGES && ZoneOf(b) == ZoneOf(q)
  {
  }

  lemma BlockInside(q: nat, o: nat)
    requires q < MAX_PAGES && o <= MAX_ORDER
    ensures Base(q, o) + Pow2(o) <= MAX_PAGES
    ensures ZoneOf(Base(q, o)) == ZoneOf(q)
  {
    BlockNest(q, o, 10);
    Base1024(q);
    BaseContains(q, o);
    SameChunk(q, Base(q, o), q / 1024);
  }

  /** Zone bases are multiples of the largest block, so a block lies in one zone. */
  lemma BlockInZone(q: nat, b: nat, o: nat)
    requires o <= MAX_ORDER && Base(b, o) == b && InBlock(q, b, o) && b < MAX_PAGES
    ensures q < MAX_PAGES && ZoneOf(q) == ZoneOf(b)
  {
    BaseUnique(q, b, o);
    BlockInside(b, o);
    BlockInside(q, o);
  }

  lemma SiblingInZone(b: nat, o: nat)
    requires o < MAX_ORDER && Base(b, o) == b && b < MAX_PAGES
    ensures Sibling(b, o) + Pow2(o) <= MAX_PAGES
    ensures ZoneOf(Sibling(b, o)) == ZoneOf(b)
  {
    SiblingFacts(b, o);
    var s := Sibling(b, o);
    BlockInside(b, o + 1);
    BaseStep(b, o);
    assert InBlock(s, Base(b, o + 1), o + 1);
    BaseNest(b, o + 1, o + 1);
    BlockInZone(s, Base(b, o + 1), o + 1);
    BlockInside(s, o);
  }

  /** A free page holding a valid order is the head of a listed block of that order: this is the
      test that `get_buddy_page` makes. */
  lemma FreeHeadListed(pg: seq<Page>, ar: Areas, lo: nat, hi: nat, s: nat, o: nat)
    requires Coherent(pg, ar, lo, hi)
    requires s < MAX_PAGES && Outside(s, lo, hi) && o <= MAX_ORDER
    ensures (pg[s] == Page(Free, o)) <==> Listed(ar, s, o)
  {
    if pg[s] == Page(Free, o) {
      assert CoveredFree(ar, s);
      var o': nat :| o' <= MAX_ORDER && Listed(ar, Base(s, o'), o');
      BaseContains(s, o');
      assert BlockOk(pg, Base(s, o'), o', Free);
    }
  }

  /** Every aligned run of free pages is inside one listed block. */
  lemma {:induction false} RunInListed(pg: seq<Page>, ar: Areas, b: nat, o: nat) returns (o': nat)
    requires Valid(pg, ar) && o <= MAX_ORDER && Base(b, o) == b && AllFree(pg, b, o)
    ensures o <= o' <= MAX_ORDER && Listed(ar, Base(b, o'), o')
    decreases o
  {
    if o == 0 {
      assert pg[b].state == Free;
      assert CoveredFree(ar, b);
      o' :| o' <= MAX_ORDER && Listed(ar, Base(b, o'), o');
    } else {
      BaseDown(b, o - 1);
      o' := RunInListed(pg, ar, b, o - 1);
      if o' == o - 1 {
        SiblingFacts(b, o - 1);
        var s := Sibling(b, o - 1);
        var os := RunInListed(pg, ar, s, o - 1);
        if os == o - 1 { assert false; }
        BaseNest(s, o, os);
        BaseNest(b, o, os);
        o' := os;
      }
    }
  }

  lemma ListedIsBlock(pg: seq<Page>, ar: Areas, b: nat, o: nat)
    requires Valid(pg, ar) && Listed(ar, b, o)
    ensures BlockOk(pg, b, o, Free)
  {
  }

  lemma GrownFree(pg: seq<Page>, b: nat, o: nat, o': nat)
    requires o < o' && BlockOk(pg, Base(b, o'), o', Free)
    ensures AllFree(pg, Base(b, o + 1), o + 1)
  {
    BlockNest(b, o + 1, o');
  }

  lemma MaximalListed(pg: seq<Page>, ar: Areas, b: nat, o: nat)
    requires Valid(pg, ar) && MaximalFree(pg, b, o)
    ensures Listed(ar, b, o)
  {
    hide Coherent;
    hide Listed;
    var o' := RunInListed(pg, ar, b, o);
    ListedIsBlock(pg, ar, Base(b, o'), o');
    if o < o' { GrownFree(pg, b, o, o'); }
  }

  /** Main theorem: the free lists hold exactly the maximal aligned runs of free pages, so they are
      a function of the set of free pages. */
  lemma Canonical(pg: seq<Page>, ar: Areas, b: nat, o: nat)
    requires Valid(pg, ar)
    ensures Listed(ar, b, o) <==> MaximalFree(pg, b, o)
  {
    hide Coherent;
    if Listed(ar, b, o) {
      ListedIsBlock(pg, ar, b, o);
      if o < MAX_ORDER { ListedNotGrowable(pg, ar, b, o); }
    }
    if MaximalFree(pg, b, o) { MaximalListed(pg, ar, b, o); }
  }

  lemma ListedNotGrowable(pg: seq<Page>, ar: Areas, b: nat, o: nat)
    requires Valid(pg, ar) && Listed(ar, b, o) && o < MAX_ORDER
    ensures !AllFree(pg, Base(b, o + 1), o + 1)
  {
    if AllFree(pg, Base(b, o + 1), o + 1) {
      assert BlockOk(pg, b, o, Free);
      var p := Base(b, o + 1);
      BaseNest(b, o + 1, o + 1);
      var o' := RunInListed(pg, ar, p, o + 1);
      BaseNest(b, o + 1, o');
      ListedUnique(pg, ar, b, o, o');
    }
  }

  /** Listed blocks are pairwise disjoint: a page is in at most one. */
  lemma ListedUnique(pg: seq<Page>, ar: Areas, q: nat, o: nat, o': nat)
    requires Valid(pg, ar)
    requires Listed(ar, Base(q, o), o) && Listed(ar, Base(q, o'), o')
    ensures o == o'
  {
    assert BlockOk(pg, Base(q, o), o, Free);
    assert BlockOk(pg, Base(q, o'), o', Free);
    if o < o' {
      BlockNest(q, o, o');
    } else if o' < o {
      BlockNest(q, o', o);
    }
    BaseContains(q, o);
    BaseContains(q, o');
  }

  ghost function FreePages(pg: seq<Page>): set<nat> {
    set q: nat | q < |pg| && pg[q].state == Free
  }

  /** Two coherent states with the same free pages have the same free blocks, area by area, and the
      same counters, whatever sequence of operations led to them. */
  lemma SameFreePagesSameLists(pg: seq<Page>, ar: Areas, pg': seq<Page>, ar': Areas, a: Area)
    requires Valid(pg, ar) && Valid(pg', ar')
    requires FreePages(pg) == FreePages(pg')
    requires a.order <= MAX_ORDER
    ensures Elems(ar[a].list) == Elems(ar'[a].list)
    ensures ar[a].nrFree == ar'[a].nrFree
  {
    forall q: nat | q < MAX_PAGES ensures (pg[q].state == Free) == (pg'[q].state == Free) {
      assert q in FreePages(pg) <==> q in FreePages(pg');
    }
    forall b: nat ensures b in ar[a].list <==> b in ar'[a].list {
      if ZoneOf(b) == a.zone {
        Canonical(pg, ar, b, a.order);
        Canonical(pg', ar', b, a.order);
        SameMaximal(pg, pg', b, a.order);
      }
    }
    ElemsCard(ar[a].list);
    ElemsCard(ar'[a].list);
  }

  lemma SameMaximal(pg: seq<Page>, pg': seq<Page>, b: nat, o: nat)
    requires |pg| == |pg'|
    requires forall q :: 0 <= q < |pg| ==> (pg[q].state == Free) == (pg'[q].state == Free)
    ensures MaximalFree(pg, b, o) == MaximalFree(pg', b, o)
  {
  }
}
