/** The page-table operations of the kernel on the frames that hold directories and tables. Virtual
    addresses are given by their page number; frames stand for page-aligned physical addresses. */
module PageDirectory {
  import opened Paging

  const PAGE_SIZE: nat := 4096
  const KERNEL_BASE: nat := 0xC000_0000

  /** The page overlapping the range passes the test of `vmm_verify_range_flags`. */
  ghost predicate PageOk(t: Tables, pd: nat, v: nat, pdeFlags: bv12, pteFlags: bv12) {
    && pd in t && |t[pd]| == 1024 && v / 1024 < 1024
    && Has(t[pd][v / 1024], pdeFlags | PRESENT)
    && var pt := t[pd][v / 1024].frame;
       pt in t && |t[pt]| == 1024 && Has(t[pt][v % 1024], pteFlags | PRESENT)
  }

  /** A kernel slot of the directory that is present holds a table. */
  ghost predicate SharedOk(t: Tables, pd: nat, i: nat) {
    pd in t && |t[pd]| == 1024 && i < 1024
    && (Present(t[pd][i]) ==> t[pd][i].frame in t && |t[t[pd][i].frame]| == 1024)
  }

  class Mmu {
    var tables: Tables
    ghost var dirs: set<nat>

    ghost predicate Valid()
      reads this
    {
      DirsOk(tables, dirs)
    }

    /** `vmm_map_page`. `alloc` is what the page allocator would return if a table is needed. */
    method MapPage(pd: nat, v: nat, frame: nat, flags: bv12, alloc: Option<nat>) returns (ok: bool)
      requires Valid() && pd in dirs && Owned(v / 1024) && flags & PRESENT != 0
      requires alloc.Some? ==> alloc.value !in tables
      modifies this`tables
      ensures ok <==> SlotPresent(old(tables), pd, v / 1024) || alloc.Some?
      ensures ok ==> Updated(old(tables), tables, dirs, pd, v, Some(Entry(frame, flags)))
      ensures ok && flags & US == US ==> SlotPresent(tables, pd, v / 1024) && Has(tables[pd][v / 1024], US)
      ensures ok ==> tables.Keys == if SlotPresent(old(tables), pd, v / 1024) then old(tables).Keys
                                    else old(tables).Keys + {alloc.value}
      ensures !ok ==> tables == old(tables)
      ensures ok ==> SameEntries(old(tables), tables, dirs, pd, v / 1024) && SlotPresent(tables, pd, v / 1024)
      ensures ok && SlotPresent(old(tables), pd, v / 1024) ==>
                var pde := old(tables)[pd][v / 1024];
                tables[pd][v / 1024] == if NeedsGrant(pde, flags) then Granted(pde) else pde
      ensures ok && !SlotPresent(old(tables), pd, v / 1024) ==>
                && tables[pd][v / 1024].frame == alloc.value
                && tables[pd][v / 1024].flags == 3 | (if flags & 4 != 0 then 4 else 0)
    {
      hide DirsOk;
      hide SameElsewhere;
      hide KeepsNonEmpty;
      hide Lookup;
      hide Present;
      hide NeedsGrant;
      hide SameEntries;
      hide Granted;
      hide Has;
      ghost var t := tables;
      PresentEntry(frame, flags);
      DirShape(t, dirs, pd, v / 1024);
      var i, j := v / 1024, v % 1024;
      var e := Entry(frame, flags);
      var pt: nat;
      if !Present(tables[pd][i]) {
        if alloc.None? {
          return false;
        }
        pt := alloc.value;
        MapNewOk(t, dirs, pd, v, e, pt);
        MapEntries(t, dirs, pd, v, e, pt);
        NewDirFacts(pt, flags);
        tables := tables[pd := tables[pd][i := NewDirEntry(pt, flags)]];
        tables := tables[pt := seq(1024, _ => ZERO)];
        tables := tables[pt := tables[pt][j := e]];
        assert tables == MapNew(t, pd, v, e, pt);
      } else {
        MapPresentOk(t, dirs, pd, v, e);
        MapEntries(t, dirs, pd, v, e, 0);
        GrantFacts(t[pd][i], flags);
        if NeedsGrant(tables[pd][i], flags) {
          tables := tables[pd := tables[pd][i := Granted(tables[pd][i])]];
        }
        pt := tables[pd][i].frame;
        assert pt == t[pd][i].frame && tables[pt] == t[pt];
        tables := tables[pt := tables[pt][j := e]];
      }
      return true;
    }

    /** `vmm_unmap_page`: reports whether the page was mapped; a table left empty is freed. */
    method UnmapPage(pd: nat, v: nat) returns (ok: bool)
      requires Valid() && pd in dirs && Owned(v / 1024)
      modifies this`tables
      ensures ok <==> Lookup(old(tables), pd, v).Some?
      ensures ok ==> Updated(old(tables), tables, dirs, pd, v, None)
      ensures tables.Keys <= old(tables).Keys && (!ok ==> tables == old(tables))
      ensures ok ==> SameEntries(old(tables), tables, dirs, pd, v / 1024) && SlotPresent(old(tables), pd, v / 1024)
                     && pd in old(tables) && |old(tables)[pd]| == 1024
      ensures ok && SlotPresent(tables, pd, v / 1024) ==>
                pd in tables && |tables[pd]| == 1024 && tables.Keys == old(tables).Keys && tables[pd][v / 1024] == old(tables)[pd][v / 1024]
      ensures ok && !SlotPresent(tables, pd, v / 1024) ==>
                var pt := old(tables)[pd][v / 1024].frame;
                pt in old(tables) && tables.Keys == old(tables).Keys - {pt}
    {
      ghost var t := tables;
      var i, j := v / 1024, v % 1024;
      if !Present(tables[pd][i]) {
        return false;
      }
      assert SlotOk(t, dirs, pd, i);
      var pt := tables[pd][i].frame;
      if !Present(tables[pt][j]) {
        return false;
      }
      tables := tables[pt := tables[pt][j := ZERO]];
      var empty := true;
      var k := 0;
      while k < 1024
        invariant 0 <= k <= 1024 && empty
        invariant forall m :: 0 <= m < k ==> !Present(tables[pt][m])
      {
        if Present(tables[pt][k]) {
          empty := false;
          break;
        }
        k := k + 1;
      }
      UnmappedOk(t, dirs, pd, v);
      assert empty <==> Empty(t[pt][j := ZERO]);
      if empty {
        tables := tables[pd := tables[pd][i := ZERO]] - {pt};
        assert tables == Unmapped(t, pd, v);
      } else {
        assert tables == Unmapped(t, pd, v);
      }
      return true;
    }

    /** `vmm_get_mapping`: frame and offset for a byte address, or nothing (0 in the source). */
    method GetMapping(pd: nat, vaddr: nat) returns (r: Option<(nat, nat)>)
      requires Valid() && pd in dirs && vaddr < 0x1_0000_0000
      requires Owned(vaddr / PAGE_SIZE / 1024) || SharedOk(tables, pd, vaddr / PAGE_SIZE / 1024)
      ensures match Lookup(tables, pd, vaddr / PAGE_SIZE)
              case None => r == None
              case Some(e) => r == Some((e.frame, vaddr % PAGE_SIZE))
    {
      var v := vaddr / PAGE_SIZE;
      var pde := tables[pd][v / 1024];
      if !Present(pde) {
        return None;
      }
      if Owned(v / 1024) { assert SlotOk(tables, dirs, pd, v / 1024); }
      var pte := tables[pde.frame][v % 1024];
      if !Present(pte) {
        return None;
      }
      return Some((pte.frame, vaddr % PAGE_SIZE));
    }

    /** `vmm_free_pt_range`: the pages below these slots are no longer mapped, all others are. */
    method FreePtRange(pd: nat, start: nat, end: nat)
      requires Valid() && pd in dirs && start <= end <= 768
      modifies this`tables
      ensures Valid()
      ensures forall d, u: nat :: d in dirs && Owned(u / 1024) ==>
                Lookup(tables, d, u)
                == if d == pd && start <= u / 1024 < end then None else Lookup(old(tables), d, u)
    {
      var i := start;
      while i < end
        invariant start <= i <= end && Valid()
        invariant forall d, u: nat :: d in dirs && Owned(u / 1024) ==>
                    Lookup(tables, d, u)
                    == if d == pd && start <= u / 1024 < i then None else Lookup(old(tables), d, u)
      {
        ghost var t := tables;
        if Present(tables[pd][i]) {
          SlotFreedOk(tables, dirs, pd, i);
          var pt := tables[pd][i].frame;
          tables := tables[pd := tables[pd][i := ZERO]] - {pt};
          assert tables == SlotFreed(t, pd, i);
        }
        i := i + 1;
      }
    }

    /** `vmm_verify_range_flags` on a non-wrapping user range: 0 exactly when every page that the
        range touches has the flags at both levels. */
    method VerifyRangeFlags(pd: nat, vaddr: nat, n: nat, pdeFlags: bv12, pteFlags: bv12) returns (r: int)
      requires Valid() && pd in dirs && vaddr + n <= KERNEL_BASE
      ensures r == 0 || r == -1
      ensures r == 0 <==> forall v :: vaddr / PAGE_SIZE <= v && v * PAGE_SIZE < vaddr + n && n > 0
                                      ==> PageOk(tables, pd, v, pdeFlags, pteFlags)
    {
      if n == 0 {
        return 0;
      }
      var first := vaddr / PAGE_SIZE;
      var pdeStart := first / 1024;
      var pdeRange := (vaddr + n - 1) / PAGE_SIZE / 1024 - pdeStart + 1;
      var total := (vaddr % PAGE_SIZE + n + PAGE_SIZE - 1) / PAGE_SIZE;
      var remaining := total;
      ghost var last := (vaddr + n - 1) / PAGE_SIZE;
      assert first + total == last + 1;
      assert forall v :: first <= v && v * PAGE_SIZE < vaddr + n <==> first <= v <= last;
      var i := 0;
      while i < pdeRange
        invariant 0 <= i <= pdeRange && 0 <= remaining <= total
        invariant i == 0 ==> remaining == total
        invariant remaining == 0 ==> last < (pdeStart + i) * 1024
        invariant remaining > 0 && i > 0 ==> first + (total - remaining) == (pdeStart + i) * 1024
        invariant forall v :: first <= v < first + (total - remaining) ==>
                    PageOk(tables, pd, v, pdeFlags, pteFlags)
      {
        var slot := pdeStart + i;
        var pde := tables[pd][slot];
        if !Has(pde, pdeFlags | PRESENT) {
          ghost var v := first + (total - remaining);
          assert remaining > 0 && v / 1024 == slot;
          assert !PageOk(tables, pd, v, pdeFlags, pteFlags);
          return -1;
        }
        HasPresent(pde, pdeFlags);
        assert SlotOk(tables, dirs, pd, slot);
        var j := if i == 0 then first % 1024 else 0;
        while remaining > 0 && j < 1024
          invariant 0 <= j <= 1024 && 0 <= remaining <= total
          invariant remaining == 0 ==> last < (slot + 1) * 1024
          invariant remaining > 0 ==> first + (total - remaining) == slot * 1024 + j
          invariant forall v :: first <= v < first + (total - remaining) ==>
                      PageOk(tables, pd, v, pdeFlags, pteFlags)
        {
          ghost var v := first + (total - remaining);
          assert v / 1024 == slot && v % 1024 == j;
          if !Has(tables[pde.frame][j], pteFlags | PRESENT) {
            assert !PageOk(tables, pd, v, pdeFlags, pteFlags);
            return -1;
          }
          assert PageOk(tables, pd, v, pdeFlags, pteFlags);
          j := j + 1;
          remaining := remaining - 1;
        }
        i := i + 1;
      }
      return 0;
    }
  }

  lemma PresentEntry(frame: nat, flags: bv12)
    requires flags & PRESENT != 0
    ensures Present(Entry(frame, flags))
  {
  }

  lemma NewDirFacts(pt: nat, flags: bv12)
    ensures NewDirEntry(pt, flags).frame == pt && NewDirEntry(pt, flags).flags == 3 | (if flags & 4 != 0 then 4 else 0)
    ensures Present(NewDirEntry(pt, flags)) && (flags & US == US ==> Has(NewDirEntry(pt, flags), US))
  {
  }

  lemma DirShape(t: Tables, dirs: set<nat>, pd: nat, i: nat)
    requires DirsOk(t, dirs) && pd in dirs && Owned(i)
    ensures pd in t && |t[pd]| == 1024
    ensures SlotPresent(t, pd, i) ==> SlotOk(t, dirs, pd, i) && t[pd][i].frame != pd
  {
  }
}
