/** The list of virtual memory areas of a task: it tiles the task's window in address order, with no
    two free neighbours, and is therefore determined by its areas in use. */
module VmaLayout {

  const PAGE_SIZE: nat := 4096

  datatype AreaState = Free | Allocated | Lazy

  /** `pages` is the frame of each page, 0 where there is none yet; it is empty for a free area. */
  datatype Area = Area(start: nat, size: nat, state: AreaState, flags: bv12, pages: seq<nat>)

  function FreeArea(start: nat, size: nat): Area {
    Area(start, size, Free, 0, [])
  }

  // ---------------------------------------------------------------- tiling

  /** Each area starts where the one before ends; sizes are positive multiples of the page size. */
  ghost predicate Contiguous(l: seq<Area>, lo: nat) {
    l == [] || (l[0].start == lo && AreaOk(l[0]) && Contiguous(l[1..], lo + l[0].size))
  }

  ghost predicate AreaOk(a: Area) {
    && a.size > 0 && a.size % PAGE_SIZE == 0 && a.start % PAGE_SIZE == 0
    && (a.state == Free ==> a == FreeArea(a.start, a.size))
  }

  ghost function End(l: seq<Area>, lo: nat): nat {
    if l == [] then lo else End(l[1..], lo + l[0].size)
  }

  ghost predicate NoFreeNeighbours(l: seq<Area>) {
    forall i :: 0 <= i < |l| - 1 ==> !(l[i].state == Free && l[i + 1].state == Free)
  }

  ghost predicate Layout(l: seq<Area>, lo: nat, hi: nat) {
    Contiguous(l, lo) && End(l, lo) == hi && NoFreeNeighbours(l)
  }

  lemma {:induction false} Concat(a: seq<Area>, b: seq<Area>, lo: nat)
    ensures End(a + b, lo) == End(b, End(a, lo))
    ensures Contiguous(a + b, lo) <==> Contiguous(a, lo) && Contiguous(b, End(a, lo))
    decreases |a|
  {
    if a == [] {
      assert a + b == b;
    } else {
      assert (a + b)[1..] == a[1..] + b;
      Concat(a[1..], b, lo + a[0].size);
    }
  }

  lemma {:induction false} EndGrows(l: seq<Area>, lo: nat)
    ensures End(l, lo) >= lo
    ensures Contiguous(l, lo) && l != [] ==> End(l, lo) > lo
  {
    if l != [] { EndGrows(l[1..], lo + l[0].size); }
  }

  // ---------------------------------------------------------------- areas in use

  ghost function InUse(l: seq<Area>): seq<Area> {
    if l == [] then []
    else if l[0].state == Free then InUse(l[1..])
    else [l[0]] + InUse(l[1..])
  }

  lemma {:induction false} InUseConcat(a: seq<Area>, b: seq<Area>)
    ensures InUse(a + b) == InUse(a) + InUse(b)
    decreases |a|
  {
    if a == [] {
      assert a + b == b;
    } else {
      assert (a + b)[1..] == a[1..] + b;
      InUseConcat(a[1..], b);
    }
  }

  lemma {:induction false} FirstInUse(l: seq<Area>, lo: nat)
    requires Contiguous(l, lo) && NoFreeNeighbours(l) && l != []
    ensures l[0].state != Free ==> InUse(l) != [] && InUse(l)[0].start == lo
    ensures l[0].state == Free && |l| > 1 ==> InUse(l) != [] && InUse(l)[0].start == lo + l[0].size
    ensures l[0].state == Free && |l| == 1 ==> InUse(l) == []
  {
  }

  /** Two layouts of the same window with the same areas in use are equal. */
  lemma {:induction false} LayoutDetermined(l: seq<Area>, l': seq<Area>, lo: nat, hi: nat)
    requires Layout(l, lo, hi) && Layout(l', lo, hi) && InUse(l) == InUse(l')
    ensures l == l'
    decreases |l| + |l'|
  {
    EndGrows(l, lo);
    EndGrows(l', lo);
    if l != [] && l' != [] {
      FirstInUse(l, lo);
      FirstInUse(l', lo);
      EndGrows(l[1..], lo + l[0].size);
      EndGrows(l'[1..], lo + l'[0].size);
      assert l[0].size == l'[0].size && l[0].state == Free <==> l'[0].state == Free;
      assert l[0] == l'[0] by { assert InUse(l) == InUse(l'); }
      assert InUse(l[1..]) == if l[0].state == Free then InUse(l) else InUse(l)[1..];
      assert InUse(l'[1..]) == if l'[0].state == Free then InUse(l') else InUse(l')[1..];
      TailLayout(l, lo, hi);
      TailLayout(l', lo, hi);
      LayoutDetermined(l[1..], l'[1..], lo + l[0].size, hi);
      assert l == [l[0]] + l[1..] && l' == [l'[0]] + l'[1..];
    }
  }

  lemma TailLayout(l: seq<Area>, lo: nat, hi: nat)
    requires Layout(l, lo, hi) && l != []
    ensures Layout(l[1..], lo + l[0].size, hi)
  {
  }

  // ---------------------------------------------------------------- replacing areas

  /** Areas `i` to `j - 1` replaced by `b`. */
  function Replace(l: seq<Area>, i: nat, j: nat, b: seq<Area>): seq<Area>
    requires i <= j <= |l|
  {
    l[..i] + b + l[j..]
  }

  lemma ReplaceFacts(l: seq<Area>, i: nat, j: nat, b: seq<Area>, lo: nat)
    requires i <= j <= |l| && Contiguous(l, lo)
    requires Contiguous(b, End(l[..i], lo)) && End(b, End(l[..i], lo)) == End(l[..j], lo)
    ensures Contiguous(Replace(l, i, j, b), lo) && End(Replace(l, i, j, b), lo) == End(l, lo)
    ensures InUse(Replace(l, i, j, b)) == InUse(l[..i]) + InUse(b) + InUse(l[j..])
  {
    assert l == l[..j] + l[j..] && l[..j] == l[..i] + l[i..j];
    Concat(l[..j], l[j..], lo);
    Concat(l[..i], l[i..j], lo);
    Concat(l[..i], b, lo);
    Concat(l[..i] + b, l[j..], lo);
    InUseConcat(l[..i], b);
    InUseConcat(l[..i] + b, l[j..]);
  }

  /** Where the areas lie: area `k` starts at the end of those before it. */
  lemma StartOf(l: seq<Area>, k: nat, lo: nat)
    requires Contiguous(l, lo) && k < |l|
    ensures l[k].start == End(l[..k], lo) && AreaOk(l[k])
    ensures End(l[..k + 1], lo) == l[k].start + l[k].size
    ensures l[k].start + l[k].size <= End(l, lo)
    ensures k + 1 < |l| ==> l[k + 1].start == l[k].start + l[k].size
  {
    assert l == l[..k] + l[k..];
    Concat(l[..k], l[k..], lo);
    assert l[..k + 1] == l[..k] + [l[k]];
    Concat(l[..k], [l[k]], lo);
    assert End([l[k]], End(l[..k], lo)) == End(l[..k], lo) + l[k].size;
    EndGrows(l[k..][1..], l[k].start + l[k].size);
    if k + 1 < |l| {
      assert l[k..][1..] == l[k + 1..];
      assert l[k + 1..][0] == l[k + 1];
    }
  }

  // ---------------------------------------------------------------- allocation

  /** The list after `vma_split_area` on the free area `k`, and the fields filled in afterwards. */
  function AllocAt(l: seq<Area>, k: nat, needed: nat, state: AreaState, flags: bv12, pages: seq<nat>): seq<Area>
    requires k < |l| && needed <= l[k].size
  {
    var a := Area(l[k].start, needed, state, flags, pages);
    if needed == l[k].size then Replace(l, k, k + 1, [a])
    else Replace(l, k, k + 1, [a, FreeArea(l[k].start + needed, l[k].size - needed)])
  }

  lemma AllocNeighbours(l: seq<Area>, k: nat, needed: nat, state: AreaState, flags: bv12, pages: seq<nat>)
    requires NoFreeNeighbours(l) && k < |l| && l[k].state == Free && state != Free && needed <= l[k].size
    ensures NoFreeNeighbours(AllocAt(l, k, needed, state, flags, pages))
  {
  }

  lemma AllocParts(l: seq<Area>, k: nat, needed: nat, state: AreaState, flags: bv12, pages: seq<nat>)
    requires k < |l| && needed <= l[k].size
    ensures var l' := AllocAt(l, k, needed, state, flags, pages);
            && k < |l'| && l'[k] == Area(l[k].start, needed, state, flags, pages)
            && l'[..k] == l[..k]
  {
  }

  /** Allocating in a free area keeps the layout, and adds exactly the new area. */
  lemma AllocLayout(l: seq<Area>, k: nat, needed: nat, state: AreaState, flags: bv12, pages: seq<nat>,
                    lo: nat, hi: nat)
    requires Layout(l, lo, hi) && k < |l| && l[k].state == Free && state != Free
    requires 0 < needed <= l[k].size && needed % PAGE_SIZE == 0
    ensures var l' := AllocAt(l, k, needed, state, flags, pages);
            && Layout(l', lo, hi)
            && InUse(l') == InUse(l[..k]) + [Area(l[k].start, needed, state, flags, pages)] + InUse(l[k + 1..])
  {
    hide Contiguous;
    hide End;
    hide InUse;
    hide NoFreeNeighbours;
    StartOf(l, k, lo);
    var a := Area(l[k].start, needed, state, flags, pages);
    var rest := if needed < l[k].size then FreeArea(l[k].start + needed, l[k].size - needed) else a;
    var b := if needed == l[k].size then [a] else [a, rest];
    AllocBlock(a, rest, needed == l[k].size);
    ReplaceFacts(l, k, k + 1, b, lo);
    AllocNeighbours(l, k, needed, state, flags, pages);
  }

  lemma AllocBlock(a: Area, rest: Area, whole: bool)
    requires AreaOk(a) && a.state != Free
    requires !whole ==> AreaOk(rest) && rest.state == Free && rest.start == a.start + a.size
    ensures var b := if whole then [a] else [a, rest];
            && Contiguous(b, a.start) && InUse(b) == [a]
            && End(b, a.start) == a.start + a.size + if whole then 0 else rest.size
  {
    OneArea(a);
    if !whole {
      OneArea(rest);
      assert [a, rest] == [a] + [rest];
      Concat([a], [rest], a.start);
      InUseConcat([a], [rest]);
    }
  }

  lemma OneArea(a: Area)
    ensures InUse([a]) == if a.state == Free then [] else [a]
    ensures End([a], a.start) == a.start + a.size
    ensures AreaOk(a) ==> Contiguous([a], a.start)
  {
  }

  lemma InUseSplit(l: seq<Area>, k: nat)
    requires k < |l|
    ensures InUse(l) == InUse(l[..k]) + (if l[k].state == Free then [] else [l[k]]) + InUse(l[k + 1..])
  {
    hide InUse;
    SplitAt(l, k);
    InUseConcat(l[..k] + [l[k]], l[k + 1..]);
    InUseConcat(l[..k], [l[k]]);
    OneArea(l[k]);
  }

  lemma SplitAt(l: seq<Area>, k: nat)
    requires k < |l|
    ensures l[..k] + [l[k]] + l[k + 1..] == l
  {
  }

  // ---------------------------------------------------------------- destruction

  predicate FreeAt(l: seq<Area>, i: int) {
    0 <= i < |l| && l[i].state == Free
  }

  /** The hole that the destruction of area `k` leaves: the area with its free neighbours. */
  function Hole(l: seq<Area>, k: nat): Area
    requires k < |l|
  {
    var i := if FreeAt(l, k - 1) then k - 1 else k;
    var size := l[k].size + (if FreeAt(l, k - 1) then l[k - 1].size else 0)
                          + (if FreeAt(l, k + 1) then l[k + 1].size else 0);
    FreeArea(l[i].start, size)
  }

  /** The list after `vma_destroy_area` on area `k`: it is free and merged with free neighbours. */
  function DestroyAt(l: seq<Area>, k: nat): seq<Area>
    requires k < |l|
  {
    var i := if FreeAt(l, k - 1) then k - 1 else k;
    var j := if FreeAt(l, k + 1) then k + 2 else k + 1;
    Replace(l, i, j, [Hole(l, k)])
  }

  lemma HoleStarts(l: seq<Area>, k: nat, lo: nat)
    requires Contiguous(l, lo) && k < |l|
    ensures var i := if FreeAt(l, k - 1) then k - 1 else k;
            Hole(l, k).start == l[i].start == End(l[..i], lo) && Hole(l, k).start % PAGE_SIZE == 0
  {
    hide Contiguous, End;
    StartOf(l, k, lo);
    if FreeAt(l, k - 1) { StartOf(l, k - 1, lo); }
  }

  lemma HoleEnds(l: seq<Area>, k: nat, lo: nat)
    requires Contiguous(l, lo) && k < |l|
    ensures var j := if FreeAt(l, k + 1) then k + 2 else k + 1;
            Hole(l, k).start + Hole(l, k).size == End(l[..j], lo) && AreaOk(Hole(l, k))
  {
    hide Contiguous, End;
    StartOf(l, k, lo);
    if FreeAt(l, k - 1) { StartOf(l, k - 1, lo); }
    if FreeAt(l, k + 1) { StartOf(l, k + 1, lo); }
  }

  /** The merged hole covers the destroyed area and its free neighbours. */
  lemma MergedHole(l: seq<Area>, k: nat, lo: nat)
    requires Contiguous(l, lo) && k < |l|
    ensures var i := if FreeAt(l, k - 1) then k - 1 else k;
            var j := if FreeAt(l, k + 1) then k + 2 else k + 1;
            var b := Hole(l, k);
            && DestroyAt(l, k) == Replace(l, i, j, [b]) && DestroyAt(l, k)[i] == b && b.state == Free && AreaOk(b)
            && b.start == l[i].start == End(l[..i], lo) && b.start + b.size == End(l[..j], lo)
  {
    hide Contiguous, End, Hole, AreaOk;
    HoleStarts(l, k, lo);
    HoleEnds(l, k, lo);
    HoleFree(l, k);
  }

  lemma HoleFree(l: seq<Area>, k: nat)
    requires k < |l|
    ensures Hole(l, k).state == Free
  {
  }

  /** Destroying an area in use keeps the layout, and drops exactly that area. */
  lemma DestroyLayout(l: seq<Area>, k: nat, lo: nat, hi: nat)
    requires Layout(l, lo, hi) && k < |l| && l[k].state != Free
    ensures Layout(DestroyAt(l, k), lo, hi)
    ensures InUse(DestroyAt(l, k)) == InUse(l[..k]) + InUse(l[k + 1..])
  {
    hide Contiguous;
    hide InUse;
    hide End;
    hide NoFreeNeighbours;
    hide DestroyAt;
    hide AreaOk;
    var i := if FreeAt(l, k - 1) then k - 1 else k;
    var j := if FreeAt(l, k + 1) then k + 2 else k + 1;
    MergedHole(l, k, lo);
    var b := DestroyAt(l, k)[i];
    OneArea(b);
    ReplaceFacts(l, i, j, [b], lo);
    DestroyInUse(l, k);
    DestroyNeighbours(l, k);
  }

  lemma DestroyNeighbours(l: seq<Area>, k: nat)
    requires NoFreeNeighbours(l) && k < |l| && l[k].state != Free
    ensures NoFreeNeighbours(DestroyAt(l, k))
  {
  }

  lemma DestroyInUse(l: seq<Area>, k: nat)
    requires k < |l|
    ensures InUse(l[..if FreeAt(l, k - 1) then k - 1 else k]) == InUse(l[..k])
    ensures InUse(l[if FreeAt(l, k + 1) then k + 2 else k + 1..]) == InUse(l[k + 1..])
  {
    if FreeAt(l, k - 1) {
      assert l[..k] == l[..k - 1] + [l[k - 1]];
      InUseConcat(l[..k - 1], [l[k - 1]]);
      OneArea(l[k - 1]);
    }
    if FreeAt(l, k + 1) {
      assert l[k + 1..] == [l[k + 1]] + l[k + 2..];
      InUseConcat([l[k + 1]], l[k + 2..]);
      OneArea(l[k + 1]);
    }
  }

  // ---------------------------------------------------------------- consequences

  /** Destroying what was just allocated restores the list. */
  lemma AllocThenDestroy(l: seq<Area>, k: nat, needed: nat, state: AreaState, flags: bv12, pages: seq<nat>,
                         lo: nat, hi: nat)
    requires Layout(l, lo, hi) && k < |l| && l[k].state == Free && state != Free
    requires 0 < needed <= l[k].size && needed % PAGE_SIZE == 0
    ensures var l' := AllocAt(l, k, needed, state, flags, pages);
            k < |l'| && DestroyAt(l', k) == l
  {
    hide Contiguous;
    hide End;
    hide InUse;
    hide NoFreeNeighbours;
    hide AllocAt;
    hide DestroyAt;
    AllocLayout(l, k, needed, state, flags, pages, lo, hi);
    AllocParts(l, k, needed, state, flags, pages);
    var l' := AllocAt(l, k, needed, state, flags, pages);
    DestroyLayout(l', k, lo, hi);
    InUseSplit(l', k);
    InUseSplit(l, k);
    var a, c, c' := InUse(l[..k]), InUse(l[k + 1..]), InUse(l'[k + 1..]);
    assert (a + [l'[k]] + c)[|a| + 1..] == c && (a + [l'[k]] + c')[|a| + 1..] == c';
    assert a + [] == a;
    LayoutDetermined(DestroyAt(l', k), l, lo, hi);
  }

  /** Index of the area starting at `x`, as `vma_find_by_start` finds it, or the list length. */
  function Find(l: seq<Area>, x: nat): (k: nat)
    ensures k <= |l| && (k < |l| ==> l[k].start == x) && forall i :: 0 <= i < k ==> l[i].start != x
  {
    if l == [] || l[0].start == x then 0
    else
      var k := Find(l[1..], x);
      assert forall i :: 0 < i < k + 1 ==> l[i] == l[1..][i - 1];
      k + 1
  }

  /** `munmap` on the list: destroys the area in use that starts at `x`, if there is one. */
  function Destroy(l: seq<Area>, x: nat): seq<Area> {
    var k := Find(l, x);
    if k < |l| && l[k].state != Free then DestroyAt(l, k) else l
  }

  function Without(u: seq<Area>, x: nat): seq<Area> {
    if u == [] then [] else if u[0].start == x then Without(u[1..], x) else [u[0]] + Without(u[1..], x)
  }

  lemma {:induction false} WithoutConcat(a: seq<Area>, b: seq<Area>, x: nat)
    ensures Without(a + b, x) == Without(a, x) + Without(b, x)
    decreases |a|
  {
    if a == [] {
      assert a + b == b;
    } else {
      assert (a + b)[1..] == a[1..] + b;
      WithoutConcat(a[1..], b, x);
    }
  }

  lemma {:induction false} WithoutAbsent(l: seq<Area>, x: nat)
    requires forall i :: 0 <= i < |l| ==> l[i].start != x
    ensures Without(InUse(l), x) == InUse(l)
  {
    if l != [] {
      WithoutAbsent(l[1..], x);
      if l[0].state != Free { assert InUse(l)[1..] == InUse(l[1..]); }
    }
  }

  lemma {:induction false} WithoutSwap(u: seq<Area>, x: nat, y: nat)
    ensures Without(Without(u, x), y) == Without(Without(u, y), x)
  {
    if u != [] {
      WithoutSwap(u[1..], x, y);
      WithoutHead(u[0], Without(u[1..], x), y);
      WithoutHead(u[0], Without(u[1..], y), x);
    }
  }

  lemma WithoutHead(a: Area, u: seq<Area>, x: nat)
    ensures Without([a] + u, x) == if a.start == x then Without(u, x) else [a] + Without(u, x)
  {
  }

  lemma {:induction false} StartsIncrease(l: seq<Area>, lo: nat, i: nat)
    requires Contiguous(l, lo) && i < |l|
    ensures l[i].start >= lo && (i > 0 ==> l[i].start > lo)
  {
    if i > 0 { StartsIncrease(l[1..], lo + l[0].size, i - 1); }
  }

  lemma StartsDistinct(l: seq<Area>, lo: nat, i: nat, j: nat)
    requires Contiguous(l, lo) && i < j < |l|
    ensures l[i].start < l[j].start
  {
    assert l == l[..i] + l[i..];
    Concat(l[..i], l[i..], lo);
    StartOf(l, i, lo);
    StartsIncrease(l[i..], l[i].start, j - i);
  }

  /** Destroying by address keeps the layout and removes that address from the areas in use. */
  lemma DestroyEffect(l: seq<Area>, x: nat, lo: nat, hi: nat)
    requires Layout(l, lo, hi)
    ensures Layout(Destroy(l, x), lo, hi) && InUse(Destroy(l, x)) == Without(InUse(l), x)
  {
    hide Contiguous;
    hide End;
    hide InUse;
    hide Without;
    hide NoFreeNeighbours;
    hide DestroyAt;
    var k := Find(l, x);
    if k < |l| {
      forall i | k < i < |l| ensures l[i].start != x { StartsDistinct(l, lo, k, i); }
      InUseSplit(l, k);
      WithoutAbsent(l[..k], x);
      WithoutAbsent(l[k + 1..], x);
      var a, mid, c := InUse(l[..k]), if l[k].state == Free then [] else [l[k]], InUse(l[k + 1..]);
      WithoutConcat(a + mid, c, x);
      WithoutConcat(a, mid, x);
      WithoutMid(mid, x);
      assert a + [] == a;
      if l[k].state != Free { DestroyLayout(l, k, lo, hi); }
      else { assert mid == []; }
    } else {
      WithoutAbsent(l, x);
    }
  }

  lemma WithoutMid(mid: seq<Area>, x: nat)
    requires mid == [] || (|mid| == 1 && mid[0].start == x)
    ensures Without(mid, x) == []
  {
  }

  /** Destroys commute. */
  lemma DestroysCommute(l: seq<Area>, x: nat, y: nat, lo: nat, hi: nat)
    requires Layout(l, lo, hi)
    ensures Destroy(Destroy(l, x), y) == Destroy(Destroy(l, y), x)
  {
    DestroyEffect(l, x, lo, hi);
    DestroyEffect(l, y, lo, hi);
    DestroyEffect(Destroy(l, x), y, lo, hi);
    DestroyEffect(Destroy(l, y), x, lo, hi);
    WithoutSwap(InUse(l), x, y);
    LayoutDetermined(Destroy(Destroy(l, x), y), Destroy(Destroy(l, y), x), lo, hi);
  }
}
