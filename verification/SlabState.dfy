/** Slabs: pages cut into objects of one size, whose free objects are chained through their own first
    words. */
module SlabState {
  import opened Lists

  const PAGE_SIZE: nat := 4096
  const NUM_CLASSES: nat := 9
  const NUM_ZONES: nat := 3
  const NUM_CACHES: nat := 27
  const SLAB_BYTES: nat := 32
  const INTRUSIVE_THRESHOLD: nat := 512

  // ---------------------------------------------------------------- geometry of a slab

  const Sizes: seq<nat> := [8, 16, 32, 64, 128, 256, 512, 1024, 2048]

  /** Object size of a cache; cache `zone * NUM_CLASSES + class`. */
  function Size(c: nat): (r: nat)
    ensures r >= 8
  {
    assert |Sizes| == 9;
    Sizes[c % 9]
  }

  /** Large objects leave the whole page to the objects; small ones share it with the descriptor. */
  function Header(c: nat): nat {
    if Size(c) > INTRUSIVE_THRESHOLD then 0 else SLAB_BYTES
  }

  function PerSlab(c: nat): nat {
    (PAGE_SIZE - Header(c)) / Size(c)
  }

  lemma Geometry(c: nat)
    ensures PerSlab(c) >= 2 && Header(c) + PerSlab(c) * Size(c) <= PAGE_SIZE < Header(c) + PerSlab(c) * Size(c) + Size(c)
    ensures Header(c) == if Size(c) > 512 then 0 else 32
  {
  }

  /** The `k`th object of the slab in page `p`. */
  function ObjAt(p: nat, c: nat, k: nat): nat {
    p + Header(c) + k * Size(c)
  }

  ghost predicate IsObj(a: nat, p: nat, c: nat) {
    exists k :: 0 <= k < PerSlab(c) && a == ObjAt(p, c, k)
  }

  function PageOf(a: nat): nat {
    a / PAGE_SIZE * PAGE_SIZE
  }

  lemma {:induction false} TimesMono(j: nat, k: nat, s: nat)
    requires j < k
    ensures j * s + s <= k * s
    decreases k
  {
    assert k * s == (k - 1) * s + s;
    if j < k - 1 { TimesMono(j, k - 1, s); }
  }

  /** An object lies inside its page, behind the descriptor, and two of them never share a byte. */
  lemma ObjBounds(p: nat, c: nat, a: nat)
    requires p % PAGE_SIZE == 0 && IsObj(a, p, c)
    ensures p + Header(c) <= a && a + Size(c) <= p + PAGE_SIZE && PageOf(a) == p
  {
  }

  lemma ObjsApart(p: nat, c: nat, a: nat, b: nat)
    requires IsObj(a, p, c) && IsObj(b, p, c) && a != b
    ensures a + Size(c) <= b || b + Size(c) <= a
  {
    hide Size, Header, PerSlab;
    var j :| 0 <= j < PerSlab(c) && a == ObjAt(p, c, j);
    var k :| 0 <= k < PerSlab(c) && b == ObjAt(p, c, k);
    if j < k { TimesMono(j, k, Size(c)); } else { TimesMono(k, j, Size(c)); }
  }

  ghost function Objs(p: nat, c: nat, n: nat): set<nat> {
    set k | 0 <= k < n :: ObjAt(p, c, k)
  }

  lemma {:induction false} ObjsCard(p: nat, c: nat, n: nat)
    ensures |Objs(p, c, n)| == n
    decreases n
  {
    hide Size, Header;
    if n > 0 {
      ObjsCard(p, c, n - 1);
      var last := ObjAt(p, c, n - 1);
      assert Objs(p, c, n) == Objs(p, c, n - 1) + {last};
      forall k | 0 <= k < n - 1 ensures ObjAt(p, c, k) != last { TimesMono(k, n - 1, Size(c)); }
    }
  }

  // ---------------------------------------------------------------- the intrusive freelist

  type Words = map<nat, nat>

  function Link(w: Words, a: nat): nat {
    if a in w then w[a] else 0
  }

  /** The first `n` entries of the chain from `h`, and what comes after them. */
  function Nodes(w: Words, h: nat, n: nat): (r: seq<nat>)
    ensures |r| == n
    decreases n
  {
    if n == 0 then [] else [h] + Nodes(w, Link(w, h), n - 1)
  }

  function After(w: Words, h: nat, n: nat): nat
    decreases n
  {
    if n == 0 then h else After(w, Link(w, h), n - 1)
  }

  lemma {:induction false} ChainFrame(w: Words, w': Words, h: nat, n: nat)
    requires forall a :: a in Nodes(w, h, n) ==> Link(w', a) == Link(w, a)
    ensures Nodes(w', h, n) == Nodes(w, h, n) && After(w', h, n) == After(w, h, n)
    decreases n
  {
    if n > 0 {
      assert h in Nodes(w, h, n);
      ChainFrame(w, w', Link(w, h), n - 1);
    }
  }

  /** The loop that chains the objects of a new slab. */
  function Chained(w: Words, first: nat, size: nat, n: nat): Words
    requires n > 0
    decreases n
  {
    if n == 1 then w[first := 0] else Chained(w[first := first + size], first + size, size, n - 1)
  }

  lemma {:induction false} ChainedFrame(w: Words, first: nat, size: nat, n: nat, a: nat)
    requires n > 0 && (a < first || first + n * size <= a) && size > 0
    ensures Link(Chained(w, first, size, n), a) == Link(w, a)
    ensures a in Chained(w, first, size, n) <==> a in w
    decreases n
  {
    TimesMono(0, n, size);
    if n > 1 {
      assert first + size + (n - 1) * size == first + n * size;
      ChainedFrame(w[first := first + size], first + size, size, n - 1, a);
    }
  }

  lemma {:induction false} ChainedNodes(w: Words, first: nat, size: nat, n: nat)
    requires n > 0 && size > 0
    ensures After(Chained(w, first, size, n), first, n) == 0
    ensures forall k :: 0 <= k < n ==> Nodes(Chained(w, first, size, n), first, n)[k] == first + k * size
    decreases n
  {
    var w' := Chained(w, first, size, n);
    if n == 1 {
      assert Link(w', first) == 0;
      assert Nodes(w', first, 1) == [first] + Nodes(w', 0, 0);
    } else {
      var w1 := w[first := first + size];
      ChainedNodes(w1, first + size, size, n - 1);
      ChainedFrame(w1, first + size, size, n - 1, first);
      var t := Nodes(w', first + size, n - 1);
      forall k | 0 <= k < n ensures Nodes(w', first, n)[k] == first + k * size {
        if k > 0 {
          assert Nodes(w', first, n)[k] == t[k - 1];
          assert first + size + (k - 1) * size == first + k * size;
        }
      }
    }
  }

  // ---------------------------------------------------------------- one slab

  datatype Slab = Slab(cache: nat, freelist: nat, inuse: nat)

  function FreeObjs(w: Words, sl: Slab): (r: seq<nat>) {
    if sl.inuse <= PerSlab(sl.cache) then Nodes(w, sl.freelist, PerSlab(sl.cache) - sl.inuse) else []
  }

  /** Free objects and objects in use make up the slab: the chain holds exactly the free ones, each
      once, and ends with NULL. */
  ghost predicate SlabOk(w: Words, p: nat, sl: Slab) {
    && p > 0 && p % PAGE_SIZE == 0 && sl.cache < NUM_CACHES && sl.inuse <= PerSlab(sl.cache)
    && After(w, sl.freelist, PerSlab(sl.cache) - sl.inuse) == 0
    && NoDup(FreeObjs(w, sl))
    && forall a :: a in FreeObjs(w, sl) ==> IsObj(a, p, sl.cache)
  }

  ghost predicate LiveIn(w: Words, p: nat, sl: Slab, a: nat) {
    IsObj(a, p, sl.cache) && a !in FreeObjs(w, sl)
  }

  /** `inuse` counts the live objects. */
  lemma LiveCount(w: Words, p: nat, sl: Slab)
    requires SlabOk(w, p, sl)
    ensures |set a | a in Objs(p, sl.cache, PerSlab(sl.cache)) && LiveIn(w, p, sl, a)| == sl.inuse
  {
    hide Size, Header, PerSlab, ObjAt, NoDup;
    var n := PerSlab(sl.cache);
    var all, free := Objs(p, sl.cache, n), Elems(FreeObjs(w, sl));
    ObjsCard(p, sl.cache, n);
    ElemsCard(FreeObjs(w, sl));
    assert free <= all;
    assert (set a | a in all && LiveIn(w, p, sl, a)) == all - free;
  }

  lemma LiveMeansUsed(w: Words, p: nat, sl: Slab, a: nat)
    requires SlabOk(w, p, sl) && LiveIn(w, p, sl, a)
    ensures sl.inuse > 0
  {
    hide Size, Header, PerSlab, SlabOk;
    LiveCount(w, p, sl);
    var live := set b | b in Objs(p, sl.cache, PerSlab(sl.cache)) && LiveIn(w, p, sl, b);
    assert a in live;
  }

  /** A chain runs out exactly when the slab is full. */
  lemma NullIffFull(w: Words, p: nat, sl: Slab)
    requires SlabOk(w, p, sl)
    ensures sl.freelist == 0 <==> sl.inuse == PerSlab(sl.cache)
    ensures sl.inuse < PerSlab(sl.cache) ==> sl.freelist in FreeObjs(w, sl)
  {
    hide Size, Header, PerSlab, NoDup;
    if sl.inuse < PerSlab(sl.cache) {
      var s := FreeObjs(w, sl);
      assert s[0] == sl.freelist && s[0] in s;
      ObjBounds(p, sl.cache, s[0]);
    }
  }

  function TakeObj(w: Words, sl: Slab): Slab {
    sl.(freelist := Link(w, sl.freelist), inuse := sl.inuse + 1)
  }

  lemma TakeObjOk(w: Words, p: nat, sl: Slab)
    requires SlabOk(w, p, sl) && sl.inuse < PerSlab(sl.cache)
    ensures SlabOk(w, p, TakeObj(w, sl)) && LiveIn(w, p, TakeObj(w, sl), sl.freelist)
    ensures forall a :: LiveIn(w, p, TakeObj(w, sl), a) <==> LiveIn(w, p, sl, a) || a == sl.freelist
  {
    hide Size, Header, PerSlab, NoDup, IsObj;
    var s := FreeObjs(w, sl);
    assert s[0] == sl.freelist && s[0] in s;
    TailFacts(s);
    assert FreeObjs(w, TakeObj(w, sl)) == s[1..];
  }

  function PutObj(sl: Slab, a: nat): Slab
    requires sl.inuse > 0
  {
    sl.(freelist := a, inuse := sl.inuse - 1)
  }

  lemma PutObjOk(w: Words, p: nat, sl: Slab, a: nat)
    requires SlabOk(w, p, sl) && LiveIn(w, p, sl, a) && sl.inuse > 0
    ensures SlabOk(w[a := sl.freelist], p, PutObj(sl, a))
    ensures forall b :: LiveIn(w[a := sl.freelist], p, PutObj(sl, a), b) <==> LiveIn(w, p, sl, b) && b != a
  {
    hide Size, Header, PerSlab, NoDup, IsObj;
    var s, w' := FreeObjs(w, sl), w[a := sl.freelist];
    PushFacts(s, a);
    ChainFrame(w, w', sl.freelist, PerSlab(sl.cache) - sl.inuse);
    assert FreeObjs(w', PutObj(sl, a)) == [a] + s;
  }

  /** A slab depends only on the words of its free objects. */
  lemma SlabFrame(w: Words, w': Words, p: nat, sl: Slab)
    requires SlabOk(w, p, sl)
    requires forall a :: a in FreeObjs(w, sl) ==> Link(w', a) == Link(w, a)
    ensures SlabOk(w', p, sl) && FreeObjs(w', sl) == FreeObjs(w, sl)
  {
    hide Size, Header, PerSlab, NoDup, IsObj;
    ChainFrame(w, w', sl.freelist, PerSlab(sl.cache) - sl.inuse);
  }

  function NewWords(w: Words, p: nat, c: nat): Words {
    Geometry(c);
    Chained(w, p + Header(c), Size(c), PerSlab(c))
  }

  function NewSlab(p: nat, c: nat): Slab {
    Slab(c, p + Header(c), 0)
  }

  /** A new slab chains every object of its page, and no word outside the page changes. */
  lemma NewSlabOk(w: Words, p: nat, c: nat)
    requires p > 0 && p % PAGE_SIZE == 0 && c < NUM_CACHES
    ensures SlabOk(NewWords(w, p, c), p, NewSlab(p, c))
    ensures forall a :: !LiveIn(NewWords(w, p, c), p, NewSlab(p, c), a)
  {
    hide Size, Header, PerSlab, Chained, SlabOk, LiveIn;
    var n, f, s := PerSlab(c), p + Header(c), FreeObjs(NewWords(w, p, c), NewSlab(p, c));
    Geometry(c);
    ChainedNodes(w, f, Size(c), n);
    forall k | 0 <= k < n ensures s[k] == ObjAt(p, c, k) {}
    NewChainOk(NewWords(w, p, c), p, c, s);
  }

  lemma NewChainOk(w: Words, p: nat, c: nat, s: seq<nat>)
    requires p > 0 && p % PAGE_SIZE == 0 && c < NUM_CACHES
    requires s == FreeObjs(w, NewSlab(p, c)) && |s| == PerSlab(c) && After(w, p + Header(c), PerSlab(c)) == 0
    requires forall k :: 0 <= k < PerSlab(c) ==> s[k] == ObjAt(p, c, k)
    ensures SlabOk(w, p, NewSlab(p, c))
    ensures forall a :: !LiveIn(w, p, NewSlab(p, c), a)
  {
  }

  lemma NewWordsFrame(w: Words, p: nat, c: nat, a: nat)
    requires a < p + Header(c) || p + PAGE_SIZE <= a
    ensures Link(NewWords(w, p, c), a) == Link(w, a)
  {
    hide Size, Header, PerSlab, Chained, Link;
    Geometry(c);
    ChainedFrame(w, p + Header(c), Size(c), PerSlab(c), a);
  }
}
