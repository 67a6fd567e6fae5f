/** Runs of the slab allocator under its clients, and the allocator itself. */
module SlabRuns {
  import opened Lists
  import opened SlabState
  import opened SlabAllocator
  import Bits

  // ---------------------------------------------------------------- runs

  datatype Op = Alloc(size: nat, zone: nat, page: nat) | Free(obj: nat) | Store(obj: nat, words: Words)

  /** The allocator, and the objects that it has handed out and not got back. */
  datatype World = World(st: State, held: set<nat>)

  ghost predicate Good(w: World) {
    Inv(w.st) && forall a :: Live(w.st, a) <==> a in w.held
  }

  /** What clients and the page allocator owe: pages not already used as slabs, releases and stores by
      holders only. */
  ghost predicate Enabled(w: World, op: Op) {
    match op
    case Alloc(_, _, page) => FreshPage(w.st, page)
    case Free(obj) => obj in w.held
    case Store(obj, words) => obj in w.held && Stores(w.st, obj, words)
  }

  ghost function Next(w: World, op: Op): (r: World)
    requires Good(w) && Enabled(w, op)
    ensures Good(r)
  {
    match op
    case Alloc(size, zone, page) =>
      AllocGood(w, size, zone, page);
      var (st', obj) := AllocStep(w.st, size, zone, page);
      World(st', if obj == 0 then w.held else w.held + {obj})
    case Free(obj) =>
      FreeGood(w, obj);
      World(FreeStep(w.st, obj), w.held - {obj})
    case Store(obj, words) =>
      StoreGood(w, obj, words);
      World(w.st.(words := words), w.held)
  }

  lemma AllocGood(w: World, size: nat, zone: nat, page: nat)
    requires Good(w) && FreshPage(w.st, page)
    ensures var (st', obj) := AllocStep(w.st, size, zone, page);
            Good(World(st', if obj == 0 then w.held else w.held + {obj}))
  {
    hide Inv, FreshPage, Live, AllocStep;
    AllocKeeps(w.st, size, zone, page);
  }

  lemma FreeGood(w: World, obj: nat)
    requires Good(w) && obj in w.held
    ensures Live(w.st, obj) && Good(World(FreeStep(w.st, obj), w.held - {obj}))
  {
    hide Inv, Live, FreeStep;
    FreeKeeps(w.st, obj);
  }

  lemma StoreGood(w: World, obj: nat, words: Words)
    requires Good(w) && obj in w.held && Stores(w.st, obj, words)
    ensures Good(World(w.st.(words := words), w.held))
  {
    hide Inv, Live, Stores;
    StoreKeeps(w.st, obj, words);
  }

  ghost predicate Allowed(w: World, ops: seq<Op>)
    requires Good(w)
    decreases |ops|
  {
    ops == [] || (Enabled(w, ops[0]) && Allowed(Next(w, ops[0]), ops[1..]))
  }

  ghost function Exec(w: World, ops: seq<Op>): (r: World)
    requires Good(w) && Allowed(w, ops)
    ensures Good(r)
    decreases |ops|
  {
    if ops == [] then w else Exec(Next(w, ops[0]), ops[1..])
  }

  /** In every run, objects held at the same time never share a byte. */
  lemma RunHeldApart(w: World, ops: seq<Op>, a: nat, b: nat)
    requires Good(w) && Allowed(w, ops)
    requires a in Exec(w, ops).held && b in Exec(w, ops).held && a != b
    ensures var st := Exec(w, ops).st;
            && Live(st, a) && Live(st, b)
            && (a + SizeAt(st, a) <= b || b + SizeAt(st, b) <= a)
  {
    hide Inv, Live, Exec, Allowed;
    LiveApart(Exec(w, ops).st, a, b);
  }

  predicate Touches(op: Op, a: nat) {
    (op.Free? || op.Store?) && op.obj == a
  }

  /** What an object holds stays there until its holder stores into it or gives it back, whatever
      else the allocator and the other holders do. */
  lemma {:induction false} RunKeepsContents(w: World, ops: seq<Op>, a: nat)
    requires Good(w) && Allowed(w, ops) && a in w.held && Live(w.st, a)
    requires forall i :: 0 <= i < |ops| ==> !Touches(ops[i], a)
    ensures a in Exec(w, ops).held && SameContents(w.st, Exec(w, ops).st, a)
    decreases |ops|
  {
    hide Inv, Live, SizeAt, Enabled, Next;
    if ops != [] {
      var w1 := Next(w, ops[0]);
      NextKeepsContents(w, ops[0], a);
      RunKeepsContents(w1, ops[1..], a);
    }
  }

  lemma NextKeepsContents(w: World, op: Op, a: nat)
    requires Good(w) && Enabled(w, op) && a in w.held && Live(w.st, a) && !Touches(op, a)
    ensures a in Next(w, op).held && Live(Next(w, op).st, a) && SameContents(w.st, Next(w, op).st, a)
  {
    hide Inv, Live, SizeAt, AllocStep, FreeStep, FreshPage;
    match op
    case Alloc(size, zone, page) => AllocLeavesContents(w.st, size, zone, page, a);
    case Free(obj) => FreeLeavesContents(w.st, obj, a);
    case Store(obj, words) => StoreLeavesContents(w.st, obj, words, a);
  }

  lemma StoreLeavesContents(st: State, a: nat, words: Words, b: nat)
    requires Inv(st) && Stores(st, a, words) && Live(st, b) && a != b
    ensures SameContents(st, st.(words := words), b)
  {
    hide Inv, PageOf, Size, LiveIn;
    StoreKeeps(st, a, words);
    LiveApart(st, a, b);
  }

  // ---------------------------------------------------------------- the allocator

  const NoSlabs: Cache := Cache([], [], [])

  class Slabs {
    var caches: seq<Cache>
    var slabs: map<nat, Slab>
    var words: Words

    ghost function View(): State reads this {
      State(caches, slabs, words)
    }

    /** All caches start without slabs. */
    constructor (words0: Words)
      ensures Inv(View()) && forall a :: !Live(View(), a)
    {
      caches, slabs, words := [], map[], words0;
      new;
      for c := 0 to NUM_CACHES
        modifies this`caches
        invariant |caches| == c && forall d :: 0 <= d < c ==> caches[d] == NoSlabs
      {
        caches := caches + [NoSlabs];
      }
    }

    /** The doubling loop finds the least class that is large enough; over 2^31 the doubled size would
        wrap to zero and the loop would not end. */
    static method SizeToCacheSize(size: nat) returns (r: nat)
      requires size <= 0x8000_0000
      ensures r == ClassOf(size)
    {
      SizesArePowers();
      assert Sizes[0] == 8 && Sizes[1] == 16;
      if size <= 8 { return 0; }
      var idx, cacheSize := 1, 16;
      while cacheSize < size
        invariant 1 <= idx && cacheSize == Bits.Pow2(idx + 3) && Bits.Pow2(idx + 2) < size
        invariant ClassOf(size) >= if idx < NUM_CLASSES then idx else NUM_CLASSES
        decreases size - cacheSize
      {
        assert cacheSize * 2 < 0x1_0000_0000;
        ghost var k := ClassOf(size);
        assert k < NUM_CLASSES ==> size <= Sizes[k];
        idx, cacheSize := idx + 1, cacheSize * 2;
      }
      if idx >= NUM_CLASSES { return NUM_CLASSES; }
      assert Sizes[idx] == Bits.Pow2(idx + 3);
      return idx;
    }

    method InitIntrusiveFreelist(firstObj: nat, objSize: nat, space: nat) returns (freelist: nat)
      requires objSize > 0 && space / objSize > 0
      modifies this`words
      ensures words == Chained(old(words), firstObj, objSize, space / objSize) && freelist == firstObj
    {
      var current: nat := firstObj;
      var n := space / objSize;
      for i := 0 to n - 1
        invariant Chained(words, current, objSize, n - i) == Chained(old(words), firstObj, objSize, n)
      {
        words := words[current := current + objSize];
        current := current + objSize;
      }
      words := words[current := 0];
      return firstObj;
    }

    /** `page` is what the page allocator gave; the descriptor of a slab of large objects is assumed
        to be there. */
    method SlabCreate(c: nat, page: nat) returns (ok: bool)
      modifies this`slabs, this`words
      ensures ok <==> page != 0
      ensures words == if ok then NewWords(old(words), page, c) else old(words)
      ensures slabs == if ok then old(slabs)[page := NewSlab(page, c)] else old(slabs)
    {
      if page == 0 { return false; }
      Geometry(c);
      var first := page + Header(c);
      var freelist := InitIntrusiveFreelist(first, Size(c), PAGE_SIZE - Header(c));
      slabs := slabs[page := Slab(c, freelist, 0)];
      return true;
    }

    method PickSlab(c: nat, page: nat) returns (p: nat)
      requires c < |caches|
      modifies this
      ensures (View(), p) == Pick(old(View()), c, page)
    {
      hide NewWords, Move, Push, NewSlab;
      if caches[c].partial != [] {
        p := caches[c].partial[0];
      } else if caches[c].empty != [] {
        p := caches[c].empty[0];
        caches := caches[c := Move(caches[c], p, Partial)];
      } else {
        var ok := SlabCreate(c, page);
        if !ok { return 0; }
        p := page;
        caches := caches[c := Push(caches[c], p, Partial)];
      }
    }

    method TakeObject(p: nat) returns (r: nat)
      requires p in slabs && slabs[p].cache < |caches|
      modifies this
      ensures View() == Take(old(View()), p) && r == old(slabs[p].freelist)
    {
      hide Move, Link;
      var sl := slabs[p];
      r := sl.freelist;
      sl := sl.(freelist := Link(words, r), inuse := sl.inuse + 1);
      slabs := slabs[p := sl];
      if sl.freelist == 0 { caches := caches[sl.cache := Move(caches[sl.cache], p, Full)]; }
    }

    method SlabAlloc(size: nat, zone: nat, page: nat) returns (r: nat)
      requires Inv(View()) && FreshPage(View(), page) && size <= 0x8000_0000
      modifies this
      ensures (View(), r) == AllocStep(old(View()), size, zone, page)
      ensures Inv(View())
    {
      hide Inv, FreshPage, Pick, Take, Live, ClassOf, SlabsOk, ListsOk;
      ghost var st := View();
      AllocKeeps(st, size, zone, page);
      var k := SizeToCacheSize(size);
      if k == NUM_CLASSES || zone > 1 { return 0; }
      var c := zone * NUM_CLASSES + k;
      InvLength(st);
      PickCases(st, c, page);
      var p := PickSlab(c, page);
      if p == 0 { return 0; }
      ListsLength(View(), p);
      r := TakeObject(p);
    }

    /** Only a holder may release an object; then the count of objects in use never underflows. */
    method SlabFree(ptr: nat)
      requires Inv(View()) && Live(View(), ptr)
      modifies this
      ensures View() == FreeStep(old(View()), ptr)
      ensures Inv(View())
    {
      hide Inv, Move, PerSlab;
      CanFree(View(), ptr);
      FreeKeeps(View(), ptr);
      var p := PageOf(ptr);
      var sl := slabs[p];
      words := words[ptr := sl.freelist];
      sl := sl.(freelist := ptr, inuse := sl.inuse - 1);
      slabs := slabs[p := sl];
      if sl.inuse == PerSlab(sl.cache) - 1 {
        caches := caches[sl.cache := Move(caches[sl.cache], p, Partial)];
      } else if sl.inuse == 0 {
        caches := caches[sl.cache := Move(caches[sl.cache], p, Empty)];
      }
    }
  }

  lemma InvLength(st: State)
    requires Inv(st)
    ensures |st.caches| == NUM_CACHES
  {
  }
}
