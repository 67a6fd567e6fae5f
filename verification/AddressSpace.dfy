/** Coherence of a task's area list, its page directory and the frames it holds. */
module AddressSpace {
  import opened VmaLayout
  import P = Paging

  type Entry = P.Entry

  // ---------------------------------------------------------------- what the list says of a page

  ghost predicate Contains(a: Area, v: nat) {
    a.start <= v * PAGE_SIZE < a.start + a.size
  }

  /** The area that holds virtual page `v`. */
  ghost function AreaAt(l: seq<Area>, v: nat): P.Option<Area> {
    if l == [] then P.None
    else if Contains(l[0], v) then P.Some(l[0])
    else AreaAt(l[1..], v)
  }

  /** The frame that the area holds for page `v`, or 0. */
  ghost function HeldIn(a: Area, v: nat): nat {
    if a.state == Free || v < a.start / PAGE_SIZE || v - a.start / PAGE_SIZE >= |a.pages| then 0
    else a.pages[v - a.start / PAGE_SIZE]
  }

  ghost function Held(l: seq<Area>, v: nat): nat {
    match AreaAt(l, v)
    case None => 0
    case Some(a) => HeldIn(a, v)
  }

  /** The mapping that the list promises for page `v`. */
  ghost function Expected(l: seq<Area>, v: nat): P.Option<Entry> {
    match AreaAt(l, v)
    case None => P.None
    case Some(a) => if HeldIn(a, v) == 0 then P.None else P.Some(P.Entry(HeldIn(a, v), a.flags))
  }

  lemma {:induction false} AreaAtConcat(a: seq<Area>, b: seq<Area>, lo: nat, v: nat)
    requires Contiguous(a + b, lo) && lo <= v * PAGE_SIZE
    ensures AreaAt(a + b, v) == if v * PAGE_SIZE < End(a, lo) then AreaAt(a, v) else AreaAt(b, v)
    decreases |a|
  {
    if a == [] {
      assert a + b == b;
    } else {
      assert (a + b)[1..] == a[1..] + b;
      EndGrows(a[1..], lo + a[0].size);
      if !Contains(a[0], v) { AreaAtConcat(a[1..], b, lo + a[0].size, v); }
    }
  }

  /** Replacing areas changes what is said of the pages they cover, and of no other. */
  lemma ReplaceAreaAt(l: seq<Area>, i: nat, j: nat, b: seq<Area>, lo: nat, v: nat)
    requires i <= j <= |l| && Contiguous(l, lo) && lo <= v * PAGE_SIZE
    requires Contiguous(b, End(l[..i], lo)) && End(b, End(l[..i], lo)) == End(l[..j], lo)
    ensures AreaAt(Replace(l, i, j, b), v)
            == if End(l[..i], lo) <= v * PAGE_SIZE < End(l[..j], lo) then AreaAt(b, v) else AreaAt(l, v)
  {
    hide AreaAt;
    ReplaceFacts(l, i, j, b, lo);
    assert l == l[..j] + l[j..] && l[..j] == l[..i] + l[i..j];
    Concat(l[..i], l[i..j], lo);
    Concat(l[..j], l[j..], lo);
    Concat(l[..i], b, lo);
    EndGrows(l[i..j], End(l[..i], lo));
    AreaAtConcat(l[..i] + b, l[j..], lo, v);
    AreaAtConcat(l[..j], l[j..], lo, v);
    if v * PAGE_SIZE < End(l[..j], lo) {
      AreaAtConcat(l[..i], b, lo, v);
      AreaAtConcat(l[..i], l[i..j], lo, v);
    }
  }

  lemma AreaAtIndex(l: seq<Area>, k: nat, lo: nat, v: nat)
    requires Contiguous(l, lo) && k < |l| && Contains(l[k], v)
    ensures AreaAt(l, v) == P.Some(l[k]) && lo <= v * PAGE_SIZE < End(l, lo)
  {
    StartOf(l, k, lo);
    SplitAt(l, k);
    assert l[k + 1..] == l[k + 1..];
    Concat(l[..k], [l[k]] + l[k + 1..], lo);
    assert l[..k] + ([l[k]] + l[k + 1..]) == l;
    EndGrows(l[..k], lo);
    AreaAtConcat(l[..k], [l[k]] + l[k + 1..], lo, v);
  }

  // ---------------------------------------------------------------- coherence

  const USER_END: nat := 0xC000_0000

  ghost predicate InWindow(v: nat, lo: nat, hi: nat) {
    lo <= v * PAGE_SIZE < hi
  }

  /** Page `v` is mapped exactly as its area says: an allocated area maps every page to the frame it
      holds, a free or lazy one maps nothing and holds no frame. While an operation works on the
      page (`loose`), it may not be mapped or not hold a frame yet. */
  ghost predicate PageOk(l: seq<Area>, t: P.Tables, pd: nat, v: nat, loose: bool) {
    && AreaAt(l, v).Some?
    && var a := AreaAt(l, v).value;
       && (a.state != Free ==> |a.pages| == a.size / PAGE_SIZE && a.flags & P.PRESENT != 0)
       && (a.state == Lazy && !loose ==> HeldIn(a, v) == 0)
       && (a.state == Allocated && !loose ==> HeldIn(a, v) != 0)
       && (P.Lookup(t, pd, v) == Expected(l, v) || (loose && P.Lookup(t, pd, v) == P.None))
  }

  /** No frame is held twice, and no held frame is free. */
  ghost predicate FramesOk(l: seq<Area>, high: set<nat>, lo: nat, hi: nat) {
    && 0 !in high
    && (forall v: nat :: InWindow(v, lo, hi) ==> Held(l, v) !in high)
    && forall v: nat, w: nat :: v < w && InWindow(v, lo, hi) && InWindow(w, lo, hi) && Held(l, v) != 0
                                ==> Held(l, v) != Held(l, w)
  }

  /** Area list, page directory and frames agree on the whole window, except that the pages
      `x ..< y` are being worked on. */
  ghost predicate Coherent(l: seq<Area>, t: P.Tables, pd: nat, high: set<nat>, lo: nat, hi: nat, x: nat, y: nat) {
    && Layout(l, lo, hi) && hi <= USER_END
    && (forall v: nat :: InWindow(v, lo, hi) ==> PageOk(l, t, pd, v, x <= v < y))
    && FramesOk(l, high, lo, hi)
  }

  /** Between operations a mapped page belongs to an allocated area, and no frame backs two pages of
      the window. */
  lemma NoSharedFrames(l: seq<Area>, t: P.Tables, pd: nat, high: set<nat>, lo: nat, hi: nat, v: nat, w: nat)
    requires Coherent(l, t, pd, high, lo, hi, 0, 0) && InWindow(v, lo, hi) && InWindow(w, lo, hi) && v != w
    ensures P.Lookup(t, pd, v).Some? <==> AreaAt(l, v).Some? && AreaAt(l, v).value.state == Allocated
    ensures P.Lookup(t, pd, v).Some? && P.Lookup(t, pd, w).Some? ==>
              && P.Lookup(t, pd, v).value.frame != P.Lookup(t, pd, w).value.frame
              && P.Lookup(t, pd, v).value.frame !in high
  {
  }

  // ---------------------------------------------------------------- reserving an area

  lemma AllocAreaAt(l: seq<Area>, k: nat, needed: nat, state: AreaState, flags: bv12, pages: seq<nat>,
                    lo: nat, hi: nat, v: nat)
    requires Layout(l, lo, hi) && k < |l| && l[k].state == Free && state != Free && InWindow(v, lo, hi)
    requires 0 < needed <= l[k].size && needed % PAGE_SIZE == 0
    ensures var l', a := AllocAt(l, k, needed, state, flags, pages), Area(l[k].start, needed, state, flags, pages);
            AreaAt(l', v) == if Contains(a, v) then P.Some(a)
                             else if Contains(l[k], v) then P.Some(FreeArea(l[k].start + needed, l[k].size - needed))
                             else AreaAt(l, v)
    ensures Contains(l[k], v) ==> AreaAt(l, v) == P.Some(l[k])
  {
    hide Contiguous;
    hide End;
    StartOf(l, k, lo);
    if Contains(l[k], v) { AreaAtIndex(l, k, lo, v); }
    var a := Area(l[k].start, needed, state, flags, pages);
    var rest := if needed < l[k].size then FreeArea(l[k].start + needed, l[k].size - needed) else a;
    var b := if needed == l[k].size then [a] else [a, rest];
    AllocBlock(a, rest, needed == l[k].size);
    ReplaceAreaAt(l, k, k + 1, b, lo, v);
    assert b[1..] == if needed == l[k].size then [] else [rest];
    if needed < l[k].size { assert b[1..][1..] == [] && b[1..][0] == rest; }
  }

  /** Reserving an area: lazily it is coherent at once, eagerly its pages are still to be mapped. */
  lemma ReserveCoherent(l: seq<Area>, t: P.Tables, pd: nat, high: set<nat>, lo: nat, hi: nat,
                        k: nat, needed: nat, state: AreaState, flags: bv12, pages: seq<nat>)
    requires Coherent(l, t, pd, high, lo, hi, 0, 0) && k < |l| && l[k].state == Free && state != Free
    requires 0 < needed <= l[k].size && needed % PAGE_SIZE == 0 && flags & P.PRESENT != 0
    requires |pages| == needed / PAGE_SIZE && forall i :: 0 <= i < |pages| ==> pages[i] == 0
    ensures var l' := AllocAt(l, k, needed, state, flags, pages);
            var x := if state == Lazy then 0 else l[k].start / PAGE_SIZE;
            var y := if state == Lazy then 0 else (l[k].start + needed) / PAGE_SIZE;
            Coherent(l', t, pd, high, lo, hi, x, y)
  {
    hide Contiguous;
    hide End;
    hide NoFreeNeighbours;
    hide AreaAt;
    AllocLayout(l, k, needed, state, flags, pages, lo, hi);
    StartOf(l, k, lo);
    var l' := AllocAt(l, k, needed, state, flags, pages);
    var x := if state == Lazy then 0 else l[k].start / PAGE_SIZE;
    var y := if state == Lazy then 0 else (l[k].start + needed) / PAGE_SIZE;
    forall v: nat | InWindow(v, lo, hi)
      ensures Held(l', v) == Held(l, v) && PageOk(l', t, pd, v, x <= v < y)
    {
      AllocAreaAt(l, k, needed, state, flags, pages, lo, hi, v);
      assert PageOk(l, t, pd, v, false);
    }
  }

  // ---------------------------------------------------------------- changing one area

  /** An area with other pages, flags or use, at the same place. */
  ghost predicate SamePlace(a: Area, a': Area) {
    a'.start == a.start && a'.size == a.size && a.state != Free && a'.state != Free
  }

  lemma UpdateLayout(l: seq<Area>, k: nat, a: Area, lo: nat, hi: nat)
    requires Layout(l, lo, hi) && k < |l| && SamePlace(l[k], a)
    ensures Layout(l[k := a], lo, hi)
    ensures forall v: nat :: InWindow(v, lo, hi) ==>
              AreaAt(l[k := a], v) == (if Contains(a, v) then P.Some(a) else AreaAt(l, v))
              && (Contains(a, v) ==> AreaAt(l, v) == P.Some(l[k]))
  {
    hide Contiguous;
    hide End;
    hide AreaAt;
    hide InUse;
    assert l[k := a] == Replace(l, k, k + 1, [a]);
    StartOf(l, k, lo);
    OneArea(a);
    ReplaceFacts(l, k, k + 1, [a], lo);
    forall v: nat | InWindow(v, lo, hi)
      ensures AreaAt(l[k := a], v) == (if Contains(a, v) then P.Some(a) else AreaAt(l, v))
      ensures Contains(a, v) ==> AreaAt(l, v) == P.Some(l[k])
    {
      ReplaceAreaAt(l, k, k + 1, [a], lo, v);
      OneAreaAt(a, v);
      if Contains(a, v) { AreaAtIndex(l, k, lo, v); }
    }
  }

  lemma OneAreaAt(a: Area, v: nat)
    ensures AreaAt([a], v) == if Contains(a, v) then P.Some(a) else P.None
  {
  }

  /** Area `k` with page `i` held by frame `f`. */
  function WithPage(l: seq<Area>, k: nat, i: nat, f: nat): seq<Area>
    requires k < |l| && i < |l[k].pages|
  {
    l[k := l[k].(pages := l[k].pages[i := f])]
  }

  lemma WithPageFacts(l: seq<Area>, k: nat, i: nat, f: nat, lo: nat, hi: nat)
    requires Layout(l, lo, hi) && k < |l| && l[k].state != Free && |l[k].pages| == l[k].size / PAGE_SIZE
    requires i < |l[k].pages|
    ensures var l', u := WithPage(l, k, i, f), l[k].start / PAGE_SIZE + i;
            && Layout(l', lo, hi) && InWindow(u, lo, hi) && Contains(l[k], u)
            && forall v: nat :: InWindow(v, lo, hi) ==>
                 && AreaAt(l', v) == (if Contains(l[k], v) then P.Some(l'[k]) else AreaAt(l, v))
                 && (Contains(l[k], v) ==> AreaAt(l, v) == P.Some(l[k]))
                 && Held(l', v) == (if v == u then f else Held(l, v))
  {
    hide Contiguous;
    hide End;
    hide AreaAt;
    var l', u := WithPage(l, k, i, f), l[k].start / PAGE_SIZE + i;
    UpdateLayout(l, k, l'[k], lo, hi);
    StartOf(l, k, lo);
    EndWindow(l, k, lo);
    assert Contains(l[k], u);
    forall v: nat | InWindow(v, lo, hi) ensures Held(l', v) == (if v == u then f else Held(l, v)) {
    }
  }

  lemma EndWindow(l: seq<Area>, k: nat, lo: nat)
    requires Contiguous(l, lo) && k < |l|
    ensures lo <= l[k].start && l[k].start + l[k].size <= End(l, lo)
  {
    StartOf(l, k, lo);
    EndGrows(l[..k], lo);
  }

  /** The pages of area `k`, as a range of page numbers. */
  ghost predicate Working(l: seq<Area>, k: nat, x: nat, y: nat) {
    && k < |l| && l[k].state != Free && |l[k].pages| == l[k].size / PAGE_SIZE
    && x == l[k].start / PAGE_SIZE && y == (l[k].start + l[k].size) / PAGE_SIZE
  }

  /** A fresh frame for page `i` of the area being worked on. */
  lemma FillCoherent(l: seq<Area>, t: P.Tables, pd: nat, high: set<nat>, lo: nat, hi: nat, x: nat, y: nat,
                     k: nat, i: nat, f: nat)
    requires Coherent(l, t, pd, high, lo, hi, x, y) && Working(l, k, x, y) && i < |l[k].pages|
    requires f in high && l[k].pages[i] == 0
    ensures Coherent(WithPage(l, k, i, f), t, pd, high - {f}, lo, hi, x, y)
    ensures Working(WithPage(l, k, i, f), k, x, y)
  {
    hide Layout;
    hide AreaAt;
    WithPageFacts(l, k, i, f, lo, hi);
    LayoutAt(l, k, lo, hi);
    var l', u := WithPage(l, k, i, f), l[k].start / PAGE_SIZE + i;
    forall v: nat | InWindow(v, lo, hi) ensures PageOk(l', t, pd, v, x <= v < y) {
      assert PageOk(l, t, pd, v, x <= v < y);
    }
  }

  lemma LayoutAt(l: seq<Area>, k: nat, lo: nat, hi: nat)
    requires Layout(l, lo, hi) && k < |l|
    ensures AreaOk(l[k]) && lo <= l[k].start && l[k].start + l[k].size <= hi
  {
    StartOf(l, k, lo);
    EndWindow(l, k, lo);
  }

  /** Mapping page `i` of that area to the frame it holds, or unmapping it. */
  lemma MapCoherent(l: seq<Area>, t: P.Tables, t': P.Tables, dirs: set<nat>, pd: nat, high: set<nat>,
                    lo: nat, hi: nat, x: nat, y: nat, k: nat, i: nat, e: P.Option<Entry>)
    requires Coherent(l, t, pd, high, lo, hi, x, y) && Working(l, k, x, y) && i < |l[k].pages| && pd in dirs
    requires P.Updated(t, t', dirs, pd, l[k].start / PAGE_SIZE + i, e)
    requires e == P.None || (e == P.Some(P.Entry(l[k].pages[i], l[k].flags)) && l[k].pages[i] != 0)
    ensures Coherent(l, t', pd, high, lo, hi, x, y)
  {
    hide Layout;
    hide AreaAt;
    hide P.DirsOk;
    hide P.Lookup;
    hide P.KeepsNonEmpty;
    LayoutAt(l, k, lo, hi);
    var u := l[k].start / PAGE_SIZE + i;
    AreaAtIndexL(l, k, lo, hi, u);
    forall v: nat | InWindow(v, lo, hi) ensures PageOk(l, t', pd, v, x <= v < y) {
      assert PageOk(l, t, pd, v, x <= v < y);
      UserOwned(v, hi);
      if v != u { assert P.Lookup(t', pd, v) == P.Lookup(t, pd, v); }
    }
  }

  lemma UserOwned(v: nat, hi: nat)
    requires v * PAGE_SIZE < hi <= USER_END
    ensures P.Owned(v / 1024)
  {
  }

  lemma AreaAtIndexL(l: seq<Area>, k: nat, lo: nat, hi: nat, v: nat)
    requires Layout(l, lo, hi) && k < |l| && Contains(l[k], v)
    ensures AreaAt(l, v) == P.Some(l[k]) && InWindow(v, lo, hi)
  {
    AreaAtIndex(l, k, lo, v);
  }

  lemma Loosen(l: seq<Area>, t: P.Tables, pd: nat, high: set<nat>, lo: nat, hi: nat, x: nat, y: nat)
    requires Coherent(l, t, pd, high, lo, hi, 0, 0)
    ensures Coherent(l, t, pd, high, lo, hi, x, y)
  {
  }

  ghost predicate Mapped(l: seq<Area>, t: P.Tables, pd: nat, k: nat, i: nat)
    requires k < |l| && i < |l[k].pages|
  {
    l[k].pages[i] != 0
    && P.Lookup(t, pd, l[k].start / PAGE_SIZE + i) == P.Some(P.Entry(l[k].pages[i], l[k].flags))
  }

  /** Once every page is mapped, the area is allocated and everything is coherent. */
  lemma FinishCoherent(l: seq<Area>, t: P.Tables, pd: nat, high: set<nat>, lo: nat, hi: nat, x: nat, y: nat, k: nat)
    requires Coherent(l, t, pd, high, lo, hi, x, y) && Working(l, k, x, y)
    requires forall i: nat :: i < |l[k].pages| ==> Mapped(l, t, pd, k, i)
    ensures Coherent(l[k := l[k].(state := Allocated)], t, pd, high, lo, hi, 0, 0)
  {
    hide Layout;
    hide AreaAt;
    hide P.Lookup;
    var a := l[k].(state := Allocated);
    var l' := l[k := a];
    UpdateLayout(l, k, a, lo, hi);
    LayoutAt(l, k, lo, hi);
    forall v: nat | InWindow(v, lo, hi) ensures Held(l', v) == Held(l, v) && PageOk(l', t, pd, v, false) {
      assert PageOk(l, t, pd, v, x <= v < y);
      if x <= v < y {
        assert Contains(a, v);
        assert Mapped(l, t, pd, k, v - x);
      }
    }
  }

  /** Giving the frame of page `i` back, once the page is not mapped. */
  lemma UnfillCoherent(l: seq<Area>, t: P.Tables, pd: nat, high: set<nat>, lo: nat, hi: nat, x: nat, y: nat,
                       k: nat, i: nat)
    requires Coherent(l, t, pd, high, lo, hi, x, y) && Working(l, k, x, y) && i < |l[k].pages|
    requires l[k].pages[i] != 0 && P.Lookup(t, pd, l[k].start / PAGE_SIZE + i) == P.None
    ensures Coherent(WithPage(l, k, i, 0), t, pd, high + {l[k].pages[i]}, lo, hi, x, y)
    ensures Working(WithPage(l, k, i, 0), k, x, y)
  {
    hide Layout;
    hide AreaAt;
    hide P.Lookup;
    WithPageFacts(l, k, i, 0, lo, hi);
    LayoutAt(l, k, lo, hi);
    var l', u := WithPage(l, k, i, 0), l[k].start / PAGE_SIZE + i;
    assert Held(l, u) == l[k].pages[i];
    forall v: nat | InWindow(v, lo, hi) ensures PageOk(l', t, pd, v, x <= v < y) {
      assert PageOk(l, t, pd, v, x <= v < y);
    }
    forall v: nat | InWindow(v, lo, hi) ensures Held(l', v) !in high + {l[k].pages[i]} {
      if v < u { assert Held(l, v) != 0 ==> Held(l, v) != Held(l, u); }
      if u < v { assert Held(l, u) != Held(l, v); }
    }
  }

  /** An area that holds and maps nothing any more can be dropped from the list. */
  lemma DropCoherent(l: seq<Area>, t: P.Tables, pd: nat, high: set<nat>, lo: nat, hi: nat, x: nat, y: nat, k: nat)
    requires Coherent(l, t, pd, high, lo, hi, x, y) && Working(l, k, x, y)
    requires forall i :: 0 <= i < |l[k].pages| ==> l[k].pages[i] == 0
    ensures Coherent(DestroyAt(l, k), t, pd, high, lo, hi, 0, 0)
  {
    hide Contiguous;
    hide End;
    hide NoFreeNeighbours;
    hide AreaAt;
    hide P.Lookup;
    hide DestroyAt;
    hide InUse;
    DestroyLayout(l, k, lo, hi);
    var l' := DestroyAt(l, k);
    forall v: nat | InWindow(v, lo, hi) ensures Held(l', v) == Held(l, v) && PageOk(l', t, pd, v, false) {
      assert PageOk(l, t, pd, v, x <= v < y);
      DropAt(l, k, lo, hi, v);
      LayoutAt(l, k, lo, hi);
    }
  }

  /** What the list says of a page after the area is dropped: free if it was free or in the area. */
  lemma DropAt(l: seq<Area>, k: nat, lo: nat, hi: nat, v: nat)
    requires Layout(l, lo, hi) && k < |l| && l[k].state != Free && InWindow(v, lo, hi)
    ensures AreaAt(DestroyAt(l, k), v) == AreaAt(l, v)
            || (AreaAt(DestroyAt(l, k), v).Some? && AreaAt(DestroyAt(l, k), v).value.state == Free
                && AreaAt(l, v).Some? && (AreaAt(l, v).value.state == Free || AreaAt(l, v) == P.Some(l[k])))
    ensures Contains(l[k], v) ==> AreaAt(DestroyAt(l, k), v) != AreaAt(l, v)
    ensures Contains(l[k], v) <==> AreaAt(l, v) == P.Some(l[k])
  {
    hide Contiguous;
    hide End;
    hide AreaAt;
    hide DestroyAt;
    var i := if FreeAt(l, k - 1) then k - 1 else k;
    var j := if FreeAt(l, k + 1) then k + 2 else k + 1;
    MergedHole(l, k, lo);
    var b := DestroyAt(l, k)[i];
    OneArea(b);
    OneAreaAt(b, v);
    ReplaceAreaAt(l, i, j, [b], lo, v);
    StartOf(l, k, lo);
    if Contains(l[k], v) { AreaAtIndex(l, k, lo, v); }
    AreaAtContains(l, v);
    if FreeAt(l, k - 1) {
      StartOf(l, k - 1, lo);
      if Contains(l[k - 1], v) { AreaAtIndex(l, k - 1, lo, v); }
    }
    if FreeAt(l, k + 1) {
      StartOf(l, k + 1, lo);
      if Contains(l[k + 1], v) { AreaAtIndex(l, k + 1, lo, v); }
    }
  }

  lemma {:induction false} AreaAtContains(l: seq<Area>, v: nat)
    ensures AreaAt(l, v).Some? ==> Contains(AreaAt(l, v).value, v)
  {
    if l != [] && !Contains(l[0], v) { AreaAtContains(l[1..], v); }
  }
}
