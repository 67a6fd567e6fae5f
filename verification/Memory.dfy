/** Physical memory as the virtual-memory code sees it: page tables, frame contents, and the frames
    that the page allocator has left, low memory for tables and high memory for pages. */
module Memory {
  import opened Paging
  import opened PageDirectory

  type Content = seq<bv8>

  datatype Space = Space(tables: Tables, memory: map<nat, Content>, low: set<nat>, high: set<nat>)

  /** The slots `a ..< b` of a directory that still need a table. */
  ghost function Unbuilt(t: Tables, pd: nat, a: nat, b: nat): set<nat> {
    set k: nat | a <= k < b && Owned(k) && !SlotPresent(t, pd, k)
  }

  /** Every table that a slot has gained was taken from low memory, and every one lost went back. */
  ghost predicate Balanced(t: Tables, low: set<nat>, t': Tables, low': set<nat>, pd: nat, a: nat, b: nat) {
    |low'| - |Unbuilt(t', pd, a, b)| == |low| - |Unbuilt(t, pd, a, b)|
  }

  /** Tables are built for other slots of the directory, or for none. */
  lemma UnbuiltStep(t: Tables, t': Tables, dirs: set<nat>, pd: nat, i: nat, a: nat, b: nat)
    requires SameEntries(t, t', dirs, pd, i) && pd in dirs && Owned(i) && a <= i < b
    ensures |Unbuilt(t', pd, a, b)| == |Unbuilt(t, pd, a, b)| + (if SlotPresent(t, pd, i) then 1 else 0)
                                       - (if SlotPresent(t', pd, i) then 1 else 0)
  {
    var u, u' := Unbuilt(t, pd, a, b), Unbuilt(t', pd, a, b);
    forall k: nat | Owned(k) && k != i ensures SlotPresent(t', pd, k) == SlotPresent(t, pd, k) {}
    assert u - {i} == u' - {i};
    assert |u - {i}| == |u| - (if i in u then 1 else 0) && |u' - {i}| == |u'| - (if i in u' then 1 else 0);
  }

  /** Between two states nothing was lost: low frames and tables are the same together, directory `pd` has
      as many more tables as low memory has fewer frames, and no table was left empty. */
  ghost predicate Steady(t: Tables, low: set<nat>, t': Tables, low': set<nat>, dirs: set<nat>, pd: nat) {
    && low' + t'.Keys == low + t.Keys && Balanced(t, low, t', low', pd, 0, 1024)
    && (Tight(t, dirs) ==> Tight(t', dirs))
  }

  lemma SteadyRefl(t: Tables, low: set<nat>, dirs: set<nat>, pd: nat)
    ensures Steady(t, low, t, low, dirs, pd)
  {
  }

  lemma SteadyTrans(t: Tables, low: set<nat>, t1: Tables, low1: set<nat>, t2: Tables, low2: set<nat>, dirs: set<nat>, pd: nat)
    requires Steady(t, low, t1, low1, dirs, pd) && Steady(t1, low1, t2, low2, dirs, pd)
    ensures Steady(t, low, t2, low2, dirs, pd)
  {
    hide Tight, Unbuilt;
  }

  /** Equal mappings and no empty tables mean equally many tables, hence equally much low memory. */
  lemma SteadySame(t: Tables, low: set<nat>, t': Tables, low': set<nat>, dirs: set<nat>, pd: nat)
    requires Steady(t, low, t', low', dirs, pd) && Tight(t, dirs) && DirsOk(t, dirs) && DirsOk(t', dirs) && pd in dirs
    requires forall v: nat :: Owned(v / 1024) ==> Lookup(t', pd, v) == Lookup(t, pd, v)
    ensures |low'| == |low|
  {
    hide DirsOk;
    forall k: nat | Owned(k) ensures SlotPresent(t', pd, k) == SlotPresent(t, pd, k) {
      if SlotPresent(t, pd, k) { SlotFromMap(t, t', dirs, pd, k); }
      if SlotPresent(t', pd, k) { SlotFromMap(t', t, dirs, pd, k); }
    }
    assert Unbuilt(t', pd, 0, 1024) == Unbuilt(t, pd, 0, 1024);
  }

  lemma SlotFromMap(t: Tables, t': Tables, dirs: set<nat>, pd: nat, k: nat)
    requires Tight(t, dirs) && DirsOk(t, dirs) && pd in dirs && SlotPresent(t, pd, k)
    requires forall v: nat :: Owned(v / 1024) ==> Lookup(t', pd, v) == Lookup(t, pd, v)
    ensures SlotPresent(t', pd, k)
  {
    assert NonEmpty(t, pd, k);
    var j :| 0 <= j < 1024 && Present(t[t[pd][k].frame][j]);
    var v := k * 1024 + j;
    assert v / 1024 == k && v % 1024 == j;
    assert Lookup(t, pd, v).Some?;
  }

  lemma MapSteady(t: Tables, low: set<nat>, t': Tables, low': set<nat>, dirs: set<nat>, pd: nat, v: nat, e: Option<Entry>)
    requires Updated(t, t', dirs, pd, v, e) && SameEntries(t, t', dirs, pd, v / 1024) && pd in dirs && Owned(v / 1024)
    requires low' + t'.Keys == low + t.Keys
    requires |low'| - |low| == (if SlotPresent(t, pd, v / 1024) then 1 else 0) - (if SlotPresent(t', pd, v / 1024) then 1 else 0)
    ensures Steady(t, low, t', low', dirs, pd)
  {
    hide Tight, Updated, SameEntries, Unbuilt;
    UnbuiltStep(t, t', dirs, pd, v / 1024, 0, 1024);
    if Tight(t, dirs) { UpdatedTight(t, t', dirs, pd, v, e); }
  }

  lemma UpdatedDirs(t: Tables, t': Tables, dirs: set<nat>, pd: nat, v: nat, e: Option<Entry>)
    requires Updated(t, t', dirs, pd, v, e)
    ensures DirsOk(t', dirs)
  {
  }

  lemma TakenAway(keys: set<nat>, low: set<nat>, pt: nat)
    requires pt in low && keys !! low
    ensures (low - {pt}) + (keys + {pt}) == low + keys && |low - {pt}| == |low| - 1 && (keys + {pt}) !! (low - {pt})
  {
  }

  lemma GivenBack(before: set<nat>, after: set<nat>, low: set<nat>, pt: nat)
    requires pt in before && after == before - {pt} && before !! low
    ensures var low' := low + (before - after);
            |low'| == |low| + 1 && low' + after == low + before && after !! low'
  {
    assert before - after == {pt};
  }

  class Machine {
    const mmu: Mmu
    var low: set<nat>
    var high: set<nat>
    var memory: map<nat, Content>

    constructor (mmu: Mmu, low: set<nat>, high: set<nat>, memory: map<nat, Content>)
      ensures this.mmu == mmu && this.low == low && this.high == high && this.memory == memory
    {
      this.mmu, this.low, this.high, this.memory := mmu, low, high, memory;
    }

    ghost function View(): Space
      reads this, mmu
    {
      Space(mmu.tables, memory, low, high)
    }

    ghost predicate Valid()
      reads this, mmu
    {
      mmu.Valid() && mmu.tables.Keys !! low
    }

    /** `vmm_map_page` with its own table allocation: it fails, changing nothing, exactly when the slot
        has no table and low memory has no frame. */
    method Map(pd: nat, v: nat, frame: nat, flags: bv12) returns (ok: bool)
      requires Valid() && pd in mmu.dirs && Owned(v / 1024) && flags & PRESENT != 0
      modifies this`low, mmu`tables
      ensures Valid() && low + mmu.tables.Keys == old(low + mmu.tables.Keys)
      ensures ok <==> SlotPresent(old(mmu.tables), pd, v / 1024) || old(low) != {}
      ensures !ok ==> mmu.tables == old(mmu.tables) && low == old(low)
      ensures ok ==> Updated(old(mmu.tables), mmu.tables, mmu.dirs, pd, v, Some(Entry(frame, flags)))
      ensures ok ==> SameEntries(old(mmu.tables), mmu.tables, mmu.dirs, pd, v / 1024)
                     && SlotPresent(mmu.tables, pd, v / 1024)
      ensures ok && SlotPresent(old(mmu.tables), pd, v / 1024) ==>
                var pde := old(mmu.tables)[pd][v / 1024];
                mmu.tables[pd][v / 1024] == if NeedsGrant(pde, flags) then Granted(pde) else pde
      ensures |low| == |old(low)| - (if ok && !SlotPresent(old(mmu.tables), pd, v / 1024) then 1 else 0)
      ensures Steady(old(mmu.tables), old(low), mmu.tables, low, mmu.dirs, pd)
    {
      hide DirsOk, Lookup, SameEntries, KeepsNonEmpty, SameElsewhere, Steady, Updated;
      SteadyRefl(mmu.tables, low, mmu.dirs, pd);
      DirShape(mmu.tables, mmu.dirs, pd, v / 1024);
      var table: Option<nat> := None;
      if !Present(mmu.tables[pd][v / 1024]) && low != {} {
        var f :| f in low;
        TakenAway(mmu.tables.Keys, low, f);
        low := low - {f};
        table := Some(f);
      }
      ok := mmu.MapPage(pd, v, frame, flags, table);
      if ok {
        UpdatedDirs(old(mmu.tables), mmu.tables, mmu.dirs, pd, v, Some(Entry(frame, flags)));
        MapSteady(old(mmu.tables), old(low), mmu.tables, low, mmu.dirs, pd, v, Some(Entry(frame, flags)));
      }
    }

    /** `vmm_unmap_page`, giving an emptied table back; nothing happens to an unmapped page. */
    method Unmap(pd: nat, v: nat)
      requires Valid() && pd in mmu.dirs && Owned(v / 1024)
      modifies this`low, mmu`tables
      ensures Valid() && low + mmu.tables.Keys == old(low + mmu.tables.Keys)
      ensures if old(Lookup(mmu.tables, pd, v)).Some? then
                && Updated(old(mmu.tables), mmu.tables, mmu.dirs, pd, v, None)
                && SameEntries(old(mmu.tables), mmu.tables, mmu.dirs, pd, v / 1024)
                && SlotPresent(old(mmu.tables), pd, v / 1024)
                && (SlotPresent(mmu.tables, pd, v / 1024) ==> mmu.tables[pd][v / 1024] == old(mmu.tables)[pd][v / 1024])
                && |low| == |old(low)| + (if SlotPresent(mmu.tables, pd, v / 1024) then 0 else 1)
              else mmu.tables == old(mmu.tables) && low == old(low)
      ensures Steady(old(mmu.tables), old(low), mmu.tables, low, mmu.dirs, pd)
    {
      hide DirsOk, Lookup, SameEntries, KeepsNonEmpty, SameElsewhere, SlotPresent, Updated, Steady;
      SteadyRefl(mmu.tables, low, mmu.dirs, pd);
      ghost var t: Tables := mmu.tables;
      var before := mmu.tables.Keys;
      var ok := mmu.UnmapPage(pd, v);
      if ok && !SlotPresent(mmu.tables, pd, v / 1024) {
        GivenBack(before, mmu.tables.Keys, low, t[pd][v / 1024].frame);
      } else {
        assert before - mmu.tables.Keys == {};
      }
      low := low + (before - mmu.tables.Keys);
      if ok {
        UpdatedDirs(t, mmu.tables, mmu.dirs, pd, v, None);
        MapSteady(t, old(low), mmu.tables, low, mmu.dirs, pd, v, None);
      }
    }

    /** `buddy_alloc_pages` of one page in high memory. */
    method AllocPage() returns (r: Option<nat>)
      modifies this`high
      ensures r.None? ==> high == old(high) == {}
      ensures r.Some? ==> r.value in old(high) && high == old(high) - {r.value}
    {
      if high == {} {
        return None;
      }
      var f :| f in high;
      high := high - {f};
      return Some(f);
    }

    method FreePage(f: nat)
      modifies this`high
      ensures high == old(high) + {f}
    {
      high := high + {f};
    }
  }
}
