/** The slab allocator: caches of slabs, each on the list that its number of live objects calls for. */
module SlabAllocator {
  import opened Lists
  import opened SlabState
  import Bits

  datatype Place = Full | Partial | Empty

  datatype Cache = Cache(full: seq<nat>, partial: seq<nat>, empty: seq<nat>)

  /** A slab goes by the address of its page; `slabs` is the private data of the pages in state SLAB. */
  datatype State = State(caches: seq<Cache>, slabs: map<nat, Slab>, words: Words)

  // ---------------------------------------------------------------- lists of slabs

  function On(ch: Cache, pl: Place): seq<nat> {
    match pl case Full => ch.full case Partial => ch.partial case Empty => ch.empty
  }

  function Pop(ch: Cache, p: nat): Cache {
    Cache(Remove(ch.full, p), Remove(ch.partial, p), Remove(ch.empty, p))
  }

  function Push(ch: Cache, p: nat, pl: Place): Cache {
    match pl
    case Full => ch.(full := [p] + ch.full)
    case Partial => ch.(partial := [p] + ch.partial)
    case Empty => ch.(empty := [p] + ch.empty)
  }

  function Move(ch: Cache, p: nat, pl: Place): Cache {
    Push(Pop(ch, p), p, pl)
  }

  ghost predicate CacheNoDup(ch: Cache) {
    NoDup(ch.full) && NoDup(ch.partial) && NoDup(ch.empty)
  }

  lemma PushOn(ch: Cache, p: nat, pl: Place)
    requires CacheNoDup(ch) && forall q :: p !in On(ch, q)
    ensures CacheNoDup(Push(ch, p, pl))
    ensures forall x, q :: x in On(Push(ch, p, pl), q) <==> if x == p then q == pl else x in On(ch, q)
  {
    hide NoDup;
    assert p !in On(ch, pl);
    PushFacts(On(ch, pl), p);
    assert On(Push(ch, p, pl), pl) == [p] + On(ch, pl);
    assert forall q :: q != pl ==> On(Push(ch, p, pl), q) == On(ch, q);
  }

  lemma MoveOn(ch: Cache, p: nat, pl: Place)
    requires CacheNoDup(ch)
    ensures CacheNoDup(Move(ch, p, pl))
    ensures forall x, q :: x in On(Move(ch, p, pl), q) <==> if x == p then q == pl else x in On(ch, q)
  {
    hide NoDup, Remove;
    RemoveFacts(ch.full, p);
    RemoveFacts(ch.partial, p);
    RemoveFacts(ch.empty, p);
    PushOn(Pop(ch, p), p, pl);
  }

  // ---------------------------------------------------------------- the invariant

  function PlaceOf(sl: Slab): Place {
    if sl.inuse == PerSlab(sl.cache) then Full else if sl.inuse == 0 then Empty else Partial
  }

  /** Where page `p` is listed: by its use, except for the slab that the current call has picked,
      which is on the partial list. */
  ghost predicate Listed(st: State, p: nat, c: nat, pl: Place, picked: int) {
    && p in st.slabs && st.slabs[p].cache == c
    && pl == if p == picked then Partial else PlaceOf(st.slabs[p])
  }

  ghost predicate ListsOk(st: State, picked: int) {
    && |st.caches| == NUM_CACHES
    && (forall c :: 0 <= c < NUM_CACHES ==> CacheNoDup(st.caches[c]))
    && forall c, p, pl :: 0 <= c < NUM_CACHES ==> (p in On(st.caches[c], pl) <==> Listed(st, p, c, pl, picked))
  }

  ghost predicate SlabsOk(st: State) {
    forall p :: p in st.slabs ==> SlabOk(st.words, p, st.slabs[p])
  }

  ghost predicate Inv(st: State) {
    ListsOk(st, -1) && SlabsOk(st)
  }

  ghost predicate Live(st: State, a: nat) {
    PageOf(a) in st.slabs && LiveIn(st.words, PageOf(a), st.slabs[PageOf(a)], a)
  }

  ghost function SizeAt(st: State, a: nat): nat
    requires Live(st, a)
  {
    Size(st.slabs[PageOf(a)].cache)
  }

  /** Live objects never share a byte, wherever they are, and stay in their pages, clear of the
      descriptors kept there. */
  lemma LiveApart(st: State, a: nat, b: nat)
    requires Inv(st) && Live(st, a) && Live(st, b) && a != b
    ensures a + SizeAt(st, a) <= b || b + SizeAt(st, b) <= a
    ensures PageOf(a) + Header(st.slabs[PageOf(a)].cache) <= a && a + SizeAt(st, a) <= PageOf(a) + PAGE_SIZE
  {
    hide Size, Header, PerSlab, PageOf, ListsOk, FreeObjs, IsObj;
    var p, q := PageOf(a), PageOf(b);
    ObjBounds(p, st.slabs[p].cache, a);
    ObjBounds(q, st.slabs[q].cache, b);
    if p == q { ObjsApart(p, st.slabs[p].cache, a, b); } else { PagesApart(p, q); }
  }

  lemma PagesApart(p: nat, q: nat)
    requires p % PAGE_SIZE == 0 && q % PAGE_SIZE == 0 && p != q
    ensures p + PAGE_SIZE <= q || q + PAGE_SIZE <= p
  {
  }

  // ---------------------------------------------------------------- allocation

  /** The least class whose objects are large enough, or `NUM_CLASSES`. */
  function ClassFrom(k: nat, size: nat): (r: nat)
    requires k <= NUM_CLASSES
    ensures k <= r <= NUM_CLASSES
    ensures r < NUM_CLASSES ==> size <= Sizes[r]
    ensures forall j :: k <= j < r ==> Sizes[j] < size
    decreases NUM_CLASSES - k
  {
    if k == NUM_CLASSES || size <= Sizes[k] then k else ClassFrom(k + 1, size)
  }

  function ClassOf(size: nat): (r: nat)
    ensures r <= NUM_CLASSES
  {
    ClassFrom(0, size)
  }

  /** The object size that a request gets is the smallest power of two that is at least 8 and at least
      the request; requests over 2048 bytes get none. */
  lemma ClassIsLeastPower(size: nat)
    ensures ClassOf(size) == NUM_CLASSES <==> size > 2048
    ensures ClassOf(size) < NUM_CLASSES ==>
              var e := ClassOf(size) + 3;
              && Sizes[ClassOf(size)] == Bits.Pow2(e) && size <= Bits.Pow2(e)
              && forall f :: 3 <= f < e ==> Bits.Pow2(f) < size
  {
    var r := ClassOf(size);
    SizesArePowers();
    forall f | 3 <= f < r + 3 ensures Bits.Pow2(f) < size {
      assert Sizes[f - 3] < size;
    }
    assert Sizes[8] == 2048;
    if r == NUM_CLASSES { assert Sizes[8] < size; } else { SizesBelow(r); }
  }

  lemma SizesBelow(k: nat)
    requires k < NUM_CLASSES
    ensures Sizes[k] <= 2048
  {
  }

  lemma SizesArePowers()
    ensures forall k :: 0 <= k < NUM_CLASSES ==> Sizes[k] == Bits.Pow2(k + 3)
  {
    forall k | 0 <= k < NUM_CLASSES ensures Sizes[k] == Bits.Pow2(k + 3) { PowerOfClass(k); }
  }

  lemma {:induction false} PowerOfClass(k: nat)
    requires k < NUM_CLASSES
    ensures Sizes[k] == Bits.Pow2(k + 3)
  {
    if k == 0 {
      assert Bits.Pow2(3) == 2 * Bits.Pow2(2) && Bits.Pow2(2) == 2 * Bits.Pow2(1) && Bits.Pow2(1) == 2 * Bits.Pow2(0);
    } else {
      PowerOfClass(k - 1);
      assert Bits.Pow2(k + 3) == 2 * Bits.Pow2(k + 2);
    }
  }

  /** The slab to allocate from: the first partial one, else the first empty one, else a new one in
      `page` (0 when the zone has no page left, as is then the result). */
  function Pick(st: State, c: nat, page: nat): (State, nat)
    requires c < |st.caches|
  {
    var ch := st.caches[c];
    if ch.partial != [] then (st, ch.partial[0])
    else if ch.empty != [] then
      (st.(caches := st.caches[c := Move(ch, ch.empty[0], Partial)]), ch.empty[0])
    else if page == 0 then (st, 0)
    else (State(st.caches[c := Push(ch, page, Partial)], st.slabs[page := NewSlab(page, c)],
                NewWords(st.words, page, c)), page)
  }

  function Take(st: State, p: nat): State
    requires p in st.slabs && st.slabs[p].cache < |st.caches|
  {
    var sl := TakeObj(st.words, st.slabs[p]);
    var st' := st.(slabs := st.slabs[p := sl]);
    if sl.freelist == 0 then st'.(caches := st.caches[sl.cache := Move(st.caches[sl.cache], p, Full)]) else st'
  }

  ghost predicate FreshPage(st: State, page: nat) {
    page % PAGE_SIZE == 0 && (page != 0 ==> page !in st.slabs)
  }

  ghost predicate Picked(st: State, c: nat, st1: State, p: nat) {
    && ListsOk(st1, p) && SlabsOk(st1)
    && p > 0 && p in st1.slabs && st1.slabs[p].cache == c && st1.slabs[p].inuse < PerSlab(c)
    && (forall a :: Live(st1, a) <==> Live(st, a))
  }

  lemma PickOld(st: State, c: nat, page: nat)
    requires Inv(st) && c < NUM_CACHES && (st.caches[c].partial != [] || st.caches[c].empty != [])
    ensures Picked(st, c, Pick(st, c, page).0, Pick(st, c, page).1)
  {
    hide NoDup, CacheNoDup, PerSlab, LiveIn, Move;
    var ch := st.caches[c];
    Geometry(c);
    if ch.partial != [] {
      var p := ch.partial[0];
      assert p in On(ch, Partial) && Listed(st, p, c, Partial, -1);
      assert SlabOk(st.words, p, st.slabs[p]);
    } else {
      var p := ch.empty[0];
      assert p in On(ch, Empty) && Listed(st, p, c, Empty, -1);
      assert SlabOk(st.words, p, st.slabs[p]);
      MoveOn(ch, p, Partial);
    }
  }

  /** Nothing that was in the caches lies in the new page. */
  lemma NewPageKeepsSlab(st: State, c: nat, page: nat, q: nat)
    requires SlabsOk(st) && q in st.slabs && c < NUM_CACHES && q != page && page % PAGE_SIZE == 0
    ensures SlabOk(NewWords(st.words, page, c), q, st.slabs[q])
    ensures FreeObjs(NewWords(st.words, page, c), st.slabs[q]) == FreeObjs(st.words, st.slabs[q])
  {
    hide NoDup, PerSlab, Size, Header, IsObj, NewWords, FreeObjs, Link;
    var sl := st.slabs[q];
    forall a | a in FreeObjs(st.words, sl) ensures Link(NewWords(st.words, page, c), a) == Link(st.words, a) {
      ObjBounds(q, sl.cache, a);
      PagesApart(page, q);
      NewWordsFrame(st.words, page, c, a);
    }
    SlabFrame(st.words, NewWords(st.words, page, c), q, sl);
  }

  lemma PickNew(st: State, c: nat, page: nat)
    requires Inv(st) && c < NUM_CACHES && st.caches[c].partial == [] && st.caches[c].empty == []
    requires FreshPage(st, page) && page != 0
    ensures Picked(st, c, Pick(st, c, page).0, page)
  {
    hide NoDup, CacheNoDup, PerSlab, IsObj, SlabOk, NewWords, FreeObjs, Push;
    var ch, st1 := st.caches[c], Pick(st, c, page).0;
    Geometry(c);
    assert forall q :: page !in On(ch, q);
    PushOn(ch, page, Partial);
    NewSlabOk(st.words, page, c);
    forall q | q in st.slabs
      ensures SlabOk(st1.words, q, st.slabs[q]) && FreeObjs(st1.words, st.slabs[q]) == FreeObjs(st.words, st.slabs[q])
    {
      NewPageKeepsSlab(st, c, page, q);
    }
  }

  lemma TakeOk(st: State, p: nat)
    requires ListsOk(st, p) && SlabsOk(st) && p > 0 && p in st.slabs && st.slabs[p].inuse < PerSlab(st.slabs[p].cache)
    requires st.slabs[p].cache < NUM_CACHES
    ensures Inv(Take(st, p)) && PageOf(st.slabs[p].freelist) == p
    ensures forall a :: Live(Take(st, p), a) <==> Live(st, a) || a == st.slabs[p].freelist
  {
    hide NoDup, CacheNoDup, PerSlab, Size, Header, IsObj, SlabOk, LiveIn, PageOf, Move;
    var sl := st.slabs[p];
    var c, sl' := sl.cache, TakeObj(st.words, sl);
    Geometry(c);
    TakeObjOk(st.words, p, sl);
    NullIffFull(st.words, p, sl');
    FreeHeadPage(st.words, p, sl);
    MoveOn(st.caches[c], p, Full);
  }

  lemma FreeHeadPage(w: Words, p: nat, sl: Slab)
    requires SlabOk(w, p, sl) && sl.inuse < PerSlab(sl.cache)
    ensures IsObj(sl.freelist, p, sl.cache) && PageOf(sl.freelist) == p && sl.freelist > 0
  {
    hide NoDup, PerSlab, Size, Header, IsObj, FreeObjs, PageOf;
    NullIffFull(w, p, sl);
    ObjBounds(p, sl.cache, sl.freelist);
  }

  ghost function AllocStep(st: State, size: nat, zone: nat, page: nat): (r: (State, nat))
    requires Inv(st) && FreshPage(st, page)
  {
    var k := ClassOf(size);
    if k == NUM_CLASSES || zone > 1 then (st, 0)
    else
      var c := zone * NUM_CLASSES + k;
      PickCases(st, c, page);
      var (st1, p) := Pick(st, c, page);
      if p == 0 then (st, 0) else (Take(st1, p), st1.slabs[p].freelist)
  }

  /** Allocation fails exactly for requests that no class serves and when every object of the cache
      is in use and no page is left; otherwise it hands out an object of the right class that nobody
      holds. The invariant stays. */
  lemma AllocKeeps(st: State, size: nat, zone: nat, page: nat)
    requires Inv(st) && FreshPage(st, page)
    ensures var (st', r) := AllocStep(st, size, zone, page);
            && Inv(st')
            && (r == 0 <==> size > 2048 || zone > 1 || (page == 0 && AllUsed(st, zone * NUM_CLASSES + ClassOf(size))))
            && (r == 0 ==> st' == st)
            && (r != 0 ==>
                  && !Live(st, r) && Live(st', r)
                  && st'.slabs[PageOf(r)].cache == zone * NUM_CLASSES + ClassOf(size)
                  && forall a :: Live(st', a) <==> Live(st, a) || a == r)
  {
    hide NoDup, CacheNoDup, PerSlab, Size, Header, IsObj, SlabOk, LiveIn, FreeObjs, PageOf, Pick, Take, ClassOf, ListsOk, SlabsOk, Live;
    ClassIsLeastPower(size);
    ListsLength(st, -1);
    var k := ClassOf(size);
    if k < NUM_CLASSES && zone <= 1 {
      var c := zone * NUM_CLASSES + k;
      AllUsedIffNoList(st, c);
      PickCases(st, c, page);
      var (st1, p) := Pick(st, c, page);
      if p != 0 {
        ListsLength(st1, p);
        TakeOk(st1, p);
        HandedOut(st, c, st1, p);
      }
    }
  }

  /** A page is only taken from the page allocator when every object of the cache is in use; and an empty slab is
      only broken into when no slab is partly used. */
  lemma AllocReuses(st: State, size: nat, zone: nat, page: nat)
    requires Inv(st) && FreshPage(st, page) && size <= 2048 && zone <= 1
    ensures var (st', r) := AllocStep(st, size, zone, page);
            var c := zone * NUM_CLASSES + ClassOf(size);
            && (!AllUsed(st, c) ==> st'.slabs.Keys == st.slabs.Keys && st'.words == st.words)
            && (PartlyUsed(st, c) ==> PageOf(r) in st.slabs && st.slabs[PageOf(r)].cache == c
                                      && 0 < st.slabs[PageOf(r)].inuse < PerSlab(c))
            && (AllUsed(st, c) && page != 0 ==> PageOf(r) == page && st'.slabs.Keys == st.slabs.Keys + {page})
  {
    hide NoDup, CacheNoDup, PerSlab, Size, Header, IsObj, SlabOk, LiveIn, FreeObjs, PageOf, ClassOf, ListsOk, SlabsOk, Live, Move, Push;
    ClassIsLeastPower(size);
    var c := zone * NUM_CLASSES + ClassOf(size);
    ListsLength(st, -1);
    AllUsedIffNoList(st, c);
    PickCases(st, c, page);
    PartialListed(st, c);
    var (st1, p) := Pick(st, c, page);
    if p != 0 {
      ListsLength(st1, p);
      TakeOk(st1, p);
    }
  }

  ghost predicate PartlyUsed(st: State, c: nat) {
    exists p :: p in st.slabs && st.slabs[p].cache == c && 0 < st.slabs[p].inuse < PerSlab(c)
  }

  lemma PartialListed(st: State, c: nat)
    requires Inv(st) && c < NUM_CACHES && |st.caches| == NUM_CACHES
    ensures PartlyUsed(st, c) <==> st.caches[c].partial != []
    ensures st.caches[c].partial != [] ==>
              var p := st.caches[c].partial[0]; p in st.slabs && st.slabs[p].cache == c && 0 < st.slabs[p].inuse < PerSlab(c)
  {
    hide NoDup, CacheNoDup, PerSlab;
    var ch := st.caches[c];
    if ch.partial != [] {
      var p := ch.partial[0];
      assert p in On(ch, Partial);
      assert SlabOk(st.words, p, st.slabs[p]);
    }
    if p :| p in st.slabs && st.slabs[p].cache == c && 0 < st.slabs[p].inuse < PerSlab(c) {
      assert p in On(ch, Partial) by { assert Listed(st, p, c, Partial, -1); }
    }
  }

  lemma ListsLength(st: State, p: int)
    requires ListsOk(st, p)
    ensures |st.caches| == NUM_CACHES
  {
  }

  lemma HandedOut(st: State, c: nat, st1: State, p: nat)
    requires Picked(st, c, st1, p) && c < NUM_CACHES && |st1.caches| == NUM_CACHES
    ensures var r := st1.slabs[p].freelist;
            r != 0 && !Live(st, r) && PageOf(r) == p && Take(st1, p).slabs[p].cache == c
  {
    hide NoDup, ListsOk, PerSlab, Size, Header, IsObj, FreeObjs, PageOf;
    assert SlabOk(st1.words, p, st1.slabs[p]);
    FreeHeadPage(st1.words, p, st1.slabs[p]);
    NullIffFull(st1.words, p, st1.slabs[p]);
    assert !Live(st1, st1.slabs[p].freelist);
  }

  ghost predicate AllUsed(st: State, c: nat) {
    forall p :: p in st.slabs && st.slabs[p].cache == c ==> st.slabs[p].inuse == PerSlab(c)
  }

  lemma AllUsedIffNoList(st: State, c: nat)
    requires Inv(st) && c < NUM_CACHES
    ensures AllUsed(st, c) <==> st.caches[c].partial == [] && st.caches[c].empty == []
  {
    hide NoDup, CacheNoDup, PerSlab, SlabOk;
    var ch := st.caches[c];
    Geometry(c);
    if ch.partial != [] { assert ch.partial[0] in On(ch, Partial); }
    if ch.empty != [] { assert ch.empty[0] in On(ch, Empty); }
    if p :| p in st.slabs && st.slabs[p].cache == c && st.slabs[p].inuse != PerSlab(c) {
      assert p in On(ch, PlaceOf(st.slabs[p])) by {
        assert Listed(st, p, c, PlaceOf(st.slabs[p]), -1);
      }
    }
  }

  lemma PickCases(st: State, c: nat, page: nat)
    requires Inv(st) && c < NUM_CACHES && FreshPage(st, page)
    ensures var (st1, p) := Pick(st, c, page);
            if page == 0 && st.caches[c].partial == [] && st.caches[c].empty == [] then st1 == st && p == 0
            else Picked(st, c, st1, p)
  {
    hide NoDup, CacheNoDup, Picked, SlabsOk;
    if st.caches[c].partial != [] || st.caches[c].empty != [] {
      PickOld(st, c, page);
    } else if page != 0 {
      PickNew(st, c, page);
    }
  }

  // ---------------------------------------------------------------- release and use

  ghost function FreeStep(st: State, a: nat): State
    requires Inv(st) && Live(st, a)
  {
    CanFree(st, a);
    var p := PageOf(a);
    var sl := PutObj(st.slabs[p], a);
    var c := sl.cache;
    var ch := st.caches[c];
    State(if sl.inuse == PerSlab(c) - 1 then st.caches[c := Move(ch, p, Partial)]
          else if sl.inuse == 0 then st.caches[c := Move(ch, p, Empty)]
          else st.caches,
          st.slabs[p := sl],
          st.words[a := st.slabs[p].freelist])
  }

  /** A write to `a` leaves the chains of the other slabs alone. */
  lemma OtherSlab(w: Words, w': Words, p: nat, q: nat, sl: Slab)
    requires SlabOk(w, q, sl) && p != q && p % PAGE_SIZE == 0
    requires forall a: nat :: !(p <= a < p + PAGE_SIZE) ==> Link(w', a) == Link(w, a)
    ensures SlabOk(w', q, sl) && FreeObjs(w', sl) == FreeObjs(w, sl)
  {
    hide NoDup, PerSlab, Size, Header, IsObj, FreeObjs, Link;
    forall a | a in FreeObjs(w, sl) ensures Link(w', a) == Link(w, a) {
      ObjBounds(q, sl.cache, a);
      PagesApart(p, q);
    }
    SlabFrame(w, w', q, sl);
  }

  lemma CanFree(st: State, a: nat)
    requires Inv(st) && Live(st, a)
    ensures |st.caches| == NUM_CACHES && st.slabs[PageOf(a)].inuse > 0 && st.slabs[PageOf(a)].cache < NUM_CACHES
  {
    hide NoDup, CacheNoDup, PerSlab, Size, Header, IsObj, LiveIn, FreeObjs, PageOf;
    LiveMeansUsed(st.words, PageOf(a), st.slabs[PageOf(a)], a);
  }

  /** Releasing a live object removes it, and it alone, from the live objects. The invariant stays. */
  lemma FreeKeeps(st: State, a: nat)
    requires Inv(st) && Live(st, a)
    ensures Inv(FreeStep(st, a))
    ensures forall b :: Live(FreeStep(st, a), b) <==> Live(st, b) && b != a
  {
    hide NoDup, CacheNoDup, PerSlab, Size, Header, IsObj, FreeObjs, PageOf, ListsOk, SlabOk, LiveIn, Move, Link;
    CanFree(st, a);
    FreeLists(st, a);
    FreeSlabs(st, a);
    var p, st' := PageOf(a), FreeStep(st, a);
    PutObjOk(st.words, p, st.slabs[p], a);
    forall q, b | q in st.slabs && q != p ensures LiveIn(st'.words, q, st.slabs[q], b) <==> LiveIn(st.words, q, st.slabs[q], b) {
      FreeOther(st, a, q);
      SameLive(st.words, st'.words, q, st.slabs[q], b);
    }
  }

  lemma SameLive(w: Words, w': Words, q: nat, sl: Slab, b: nat)
    requires FreeObjs(w', sl) == FreeObjs(w, sl)
    ensures LiveIn(w', q, sl, b) <==> LiveIn(w, q, sl, b)
  {
  }

  lemma FreeOther(st: State, a: nat, q: nat)
    requires SlabsOk(st) && Live(st, a) && q in st.slabs && q != PageOf(a)
    ensures var w' := st.words[a := st.slabs[PageOf(a)].freelist];
            SlabOk(w', q, st.slabs[q]) && FreeObjs(w', st.slabs[q]) == FreeObjs(st.words, st.slabs[q])
  {
    hide NoDup, PerSlab, Size, Header, IsObj, FreeObjs, PageOf;
    var p := PageOf(a);
    ObjBounds(p, st.slabs[p].cache, a);
    OtherSlab(st.words, st.words[a := st.slabs[p].freelist], p, q, st.slabs[q]);
  }

  lemma FreeSlabs(st: State, a: nat)
    requires Inv(st) && Live(st, a)
    ensures SlabsOk(FreeStep(st, a))
  {
    hide NoDup, PerSlab, Size, Header, IsObj, FreeObjs, PageOf, SlabOk, Move, LiveIn, ListsOk;
    CanFree(st, a);
    var p, st' := PageOf(a), FreeStep(st, a);
    forall q | q in st'.slabs ensures SlabOk(st'.words, q, st'.slabs[q]) {
      if q == p { PutObjOk(st.words, p, st.slabs[p], a); } else { FreeOther(st, a, q); }
    }
  }

  lemma FreeLists(st: State, a: nat)
    requires Inv(st) && Live(st, a)
    ensures ListsOk(FreeStep(st, a), -1)
  {
    hide NoDup, CacheNoDup, PerSlab, Size, Header, IsObj, FreeObjs, PageOf, Move, LiveIn;
    var p := PageOf(a);
    var c := st.slabs[p].cache;
    CanFree(st, a);
    Geometry(c);
    assert SlabOk(st.words, p, st.slabs[p]);
    MoveOn(st.caches[c], p, Partial);
    MoveOn(st.caches[c], p, Empty);
  }

  /** The holder of a live object may store anything in it. */
  ghost predicate Stores(st: State, a: nat, w': Words) {
    Live(st, a) && forall x: nat :: !(a <= x < a + SizeAt(st, a)) ==> Link(w', x) == Link(st.words, x)
  }

  lemma StoreSlab(st: State, a: nat, w': Words, q: nat)
    requires SlabsOk(st) && Stores(st, a, w') && q in st.slabs
    ensures SlabOk(w', q, st.slabs[q]) && FreeObjs(w', st.slabs[q]) == FreeObjs(st.words, st.slabs[q])
  {
    hide NoDup, PerSlab, Size, Header, IsObj, FreeObjs, PageOf, Link;
    var p, sl := PageOf(a), st.slabs[q];
    ObjBounds(p, st.slabs[p].cache, a);
    if p == q {
      forall x | x in FreeObjs(st.words, sl) ensures Link(w', x) == Link(st.words, x) {
        ObjsApart(p, sl.cache, a, x);
      }
      SlabFrame(st.words, w', q, sl);
    } else {
      OtherSlab(st.words, w', p, q, sl);
    }
  }

  lemma StoreKeeps(st: State, a: nat, w': Words)
    requires Inv(st) && Stores(st, a, w')
    ensures Inv(st.(words := w')) && forall b :: Live(st.(words := w'), b) <==> Live(st, b)
  {
    hide NoDup, CacheNoDup, PerSlab, Size, Header, IsObj, FreeObjs, PageOf, SlabOk, Stores;
    forall q | q in st.slabs
      ensures SlabOk(w', q, st.slabs[q]) && FreeObjs(w', st.slabs[q]) == FreeObjs(st.words, st.slabs[q])
    {
      StoreSlab(st, a, w', q);
    }
  }

  // ---------------------------------------------------------------- contents

  ghost predicate SameContents(st: State, st': State, a: nat)
    requires Live(st, a)
  {
    && Live(st', a) && SizeAt(st', a) == SizeAt(st, a)
    && forall x: nat :: a <= x < a + SizeAt(st, a) ==> Link(st'.words, x) == Link(st.words, x)
  }

  /** Allocation writes nothing but a page that held no object. */
  lemma AllocLeavesContents(st: State, size: nat, zone: nat, page: nat, a: nat)
    requires Inv(st) && FreshPage(st, page) && Live(st, a)
    ensures SameContents(st, AllocStep(st, size, zone, page).0, a)
  {
    hide NoDup, CacheNoDup, PerSlab, Size, Header, IsObj, FreeObjs, PageOf, Link, ListsOk, Live;
    LiveBounds(st, a);
    AllocKeeps(st, size, zone, page);
    AllocSlabs(st, size, zone, page, a);
    var st' := AllocStep(st, size, zone, page).0;
    assert Live(st', a);
    forall x: nat | a <= x < a + SizeAt(st, a) ensures Link(st'.words, x) == Link(st.words, x) {
      AllocWords(st, size, zone, page, a, x);
    }
  }

  lemma LiveBounds(st: State, a: nat)
    requires SlabsOk(st) && Live(st, a)
    ensures PageOf(a) <= a && a + SizeAt(st, a) <= PageOf(a) + PAGE_SIZE && PageOf(a) in st.slabs
  {
    hide NoDup, PerSlab, Size, Header, IsObj, FreeObjs, PageOf;
    ObjBounds(PageOf(a), st.slabs[PageOf(a)].cache, a);
  }

  lemma AllocSlabs(st: State, size: nat, zone: nat, page: nat, a: nat)
    requires Inv(st) && FreshPage(st, page) && PageOf(a) in st.slabs
    ensures PageOf(a) in AllocStep(st, size, zone, page).0.slabs
    ensures AllocStep(st, size, zone, page).0.slabs[PageOf(a)].cache == st.slabs[PageOf(a)].cache
  {
    hide NoDup, CacheNoDup, PerSlab, Size, Header, IsObj, FreeObjs, PageOf, Link, ListsOk, SlabsOk, SlabOk, Move, Push;
    PickedCaches(st, zone * NUM_CLASSES + ClassOf(size), page);
  }

  lemma PickedCaches(st: State, c: nat, page: nat)
    requires FreshPage(st, page)
    ensures c < |st.caches| ==> forall q :: q in st.slabs ==>
      q in Pick(st, c, page).0.slabs && Pick(st, c, page).0.slabs[q] == st.slabs[q]
  {
  }

  lemma AllocWords(st: State, size: nat, zone: nat, page: nat, a: nat, x: nat)
    requires Inv(st) && FreshPage(st, page) && PageOf(a) in st.slabs && PageOf(a) <= x < PageOf(a) + PAGE_SIZE
    ensures Link(AllocStep(st, size, zone, page).0.words, x) == Link(st.words, x)
  {
    hide NoDup, CacheNoDup, PerSlab, Size, Header, IsObj, FreeObjs, PageOf, Link, NewWords, ListsOk, Move, Push;
    var c := zone * NUM_CLASSES + ClassOf(size);
    var p := PageOf(a);
    assert SlabOk(st.words, p, st.slabs[p]);
    if page != 0 {
      PagesApart(p, page);
      NewWordsFrame(st.words, page, c, x);
    }
  }

  /** Releasing an object writes nothing but that object. */
  lemma FreeLeavesContents(st: State, a: nat, b: nat)
    requires Inv(st) && Live(st, a) && Live(st, b) && a != b
    ensures SameContents(st, FreeStep(st, a), b)
  {
    hide NoDup, CacheNoDup, PerSlab, Size, Header, IsObj, FreeObjs, PageOf, ListsOk, Move;
    FreeKeeps(st, a);
    LiveApart(st, a, b);
  }
}
