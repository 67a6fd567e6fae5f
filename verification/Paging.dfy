/** Two-level page tables of 32-bit paging (Intel SDM volume 3A, section 4.3), and the finite map
    from virtual pages to entries that they represent. */
module Paging {

  /** A directory or table entry: bits 12-31 hold a page frame number, bits 0-11 hold flags. */
  datatype Entry = Entry(frame: nat, flags: bv12)

  /** The frames in use as directories or tables, 1024 entries each. */
  type Tables = map<nat, seq<Entry>>

  datatype Option<+T> = None | Some(value: T)

  const PRESENT: bv12 := 1
  const RW: bv12 := 2
  const US: bv12 := 4
  const ZERO: Entry := Entry(0, 0)

  predicate Present(e: Entry) { e.flags & PRESENT != 0 }

  predicate Has(e: Entry, flags: bv12) { e.flags & flags == flags }

  lemma HasPresent(e: Entry, flags: bv12)
    requires Has(e, flags | PRESENT)
    ensures Present(e)
  {
  }

  lemma FlagFacts(flags: bv12, f: bv12)
    ensures (PRESENT | RW | (flags & US)) & PRESENT != 0
    ensures (f | US) & PRESENT == f & PRESENT
    ensures flags & US == US ==> (PRESENT | RW | (flags & US)) & US == US
    ensures (f | US) & US == US
  {
  }

  // ---------------------------------------------------------------- lookup

  /** Slots 768 to 991 of every directory hold the shared tables of the kernel's linear mapping; a
      directory owns the tables in its other slots. */
  predicate Owned(i: nat) {
    i < 768 || 992 <= i < 1024
  }

  /** The entry for virtual page `v`, when both levels are present. */
  ghost function Lookup(t: Tables, pd: nat, v: nat): Option<Entry> {
    if pd !in t || |t[pd]| != 1024 || v / 1024 >= 1024 || !Present(t[pd][v / 1024]) then None
    else
      var pt := t[pd][v / 1024].frame;
      if pt !in t || |t[pt]| != 1024 || !Present(t[pt][v % 1024]) then None
      else Some(t[pt][v % 1024])
  }

  // ---------------------------------------------------------------- invariant

  ghost predicate SlotPresent(t: Tables, pd: nat, i: nat) {
    pd in t && |t[pd]| == 1024 && Owned(i) && Present(t[pd][i])
  }

  /** The table in an owned slot exists and is no directory. */
  ghost predicate SlotOk(t: Tables, dirs: set<nat>, pd: nat, i: nat)
    requires SlotPresent(t, pd, i)
  {
    var pt := t[pd][i].frame;
    pt in t && |t[pt]| == 1024 && pt !in dirs
  }

  /** The table in an owned slot holds at least one present entry. */
  ghost predicate NonEmpty(t: Tables, pd: nat, i: nat)
    requires SlotPresent(t, pd, i)
  {
    var pt := t[pd][i].frame;
    pt in t && |t[pt]| == 1024 && exists j :: 0 <= j < 1024 && Present(t[pt][j])
  }

  /** An owned directory entry is present only while its table maps something. */
  ghost predicate Tight(t: Tables, dirs: set<nat>) {
    forall pd, i: nat :: pd in dirs && SlotPresent(t, pd, i) ==> NonEmpty(t, pd, i)
  }

  /** Only slot `i0` of `pd0` may have become present or absent; it and the slots whose table was not
      empty have a table that is not empty. */
  ghost predicate KeepsNonEmpty(t: Tables, t': Tables, dirs: set<nat>, pd0: nat, i0: nat) {
    forall pd, i: nat :: pd in dirs && Owned(i) ==>
      if pd == pd0 && i == i0 then SlotPresent(t', pd, i) ==> NonEmpty(t', pd, i)
      else && SlotPresent(t', pd, i) == SlotPresent(t, pd, i)
           && (SlotPresent(t, pd, i) && NonEmpty(t, pd, i) ==> NonEmpty(t', pd, i))
  }

  ghost predicate Distinct(t: Tables, dirs: set<nat>) {
    forall pd, i: nat, pd', i': nat :: (
        && pd in dirs && pd' in dirs && SlotPresent(t, pd, i) && SlotPresent(t, pd', i')
        && (pd != pd' || i != i')
      ) ==> t[pd][i].frame != t[pd'][i'].frame
  }

  ghost predicate DirsOk(t: Tables, dirs: set<nat>) {
    && (forall pd :: pd in dirs ==> pd in t && |t[pd]| == 1024)
    && (forall pd, i: nat :: pd in dirs && SlotPresent(t, pd, i) ==> SlotOk(t, dirs, pd, i))
    && Distinct(t, dirs)
  }

  // ---------------------------------------------------------------- mapping one page

  /** The directory entry for a new table. */
  function NewDirEntry(pt: nat, flags: bv12): Entry {
    Entry(pt, PRESENT | RW | (flags & US))
  }

  /** A user page below a directory entry that does not grant user access yet. */
  predicate NeedsGrant(pde: Entry, flags: bv12) {
    flags & US != 0 && pde.flags & US == 0
  }

  function Granted(pde: Entry): Entry {
    pde.(flags := pde.flags | US)
  }

  lemma GrantFacts(pde: Entry, flags: bv12)
    ensures Present(Granted(pde)) == Present(pde) && Granted(pde).frame == pde.frame
    ensures flags & US == US ==> Has(if NeedsGrant(pde, flags) then Granted(pde) else pde, US)
  {
  }

  /** The tables after `vmm_map_page`, when the slot already has a table. */
  function MapPresent(t: Tables, pd: nat, v: nat, e: Entry): Tables
    requires SlotPresent(t, pd, v / 1024) && t[pd][v / 1024].frame in t
    requires |t[t[pd][v / 1024].frame]| == 1024
  {
    var i := v / 1024;
    var pt := t[pd][i].frame;
    var t1 := if NeedsGrant(t[pd][i], e.flags) then t[pd := t[pd][i := Granted(t[pd][i])]] else t;
    t1[pt := t[pt][v % 1024 := e]]
  }

  /** The tables after `vmm_map_page`, when a new table `pt` is put in the slot. */
  function MapNew(t: Tables, pd: nat, v: nat, e: Entry, pt: nat): Tables
    requires pd in t && |t[pd]| == 1024 && v / 1024 < 1024
  {
    var t1 := t[pd := t[pd][v / 1024 := NewDirEntry(pt, e.flags)]];
    t1[pt := seq(1024, _ => ZERO)[v % 1024 := e]]
  }

  ghost predicate SameElsewhere(t: Tables, t': Tables, dirs: set<nat>, pd: nat, v: nat) {
    forall d, u: nat :: d in dirs && Owned(u / 1024) && (d != pd || u != v)
                        ==> Lookup(t', d, u) == Lookup(t, d, u)
  }

  /** All directory entries but entry `i` of `pd` are as before. */
  ghost predicate SameEntries(t: Tables, t': Tables, dirs: set<nat>, pd: nat, i: nat) {
    forall d, k: nat :: d in dirs && Owned(k) && (d != pd || k != i) ==>
      d in t && d in t' && |t[d]| == |t'[d]| == 1024 && t'[d][k] == t[d][k]
  }

  /** Directories keep their tables: only flags of one directory entry may change. */
  lemma MapPresentSlots(t: Tables, dirs: set<nat>, pd: nat, v: nat, e: Entry, d: nat, k: nat)
    requires DirsOk(t, dirs) && pd in dirs && d in dirs && SlotPresent(t, pd, v / 1024) && Owned(k)
    ensures SlotOk(t, dirs, pd, v / 1024)
    ensures var t' := MapPresent(t, pd, v, e);
            && d in t' && |t'[d]| == 1024 && d in t && |t[d]| == 1024
            && t'[d][k].frame == t[d][k].frame && Present(t'[d][k]) == Present(t[d][k])
            && SlotPresent(t', d, k) == SlotPresent(t, d, k)
  {
  }

  lemma MapPresentLookup(t: Tables, dirs: set<nat>, pd: nat, v: nat, e: Entry, d: nat, u: nat)
    requires DirsOk(t, dirs) && pd in dirs && d in dirs && SlotPresent(t, pd, v / 1024)
    requires Owned(u / 1024) && Present(e)
    ensures SlotOk(t, dirs, pd, v / 1024)
    ensures Lookup(MapPresent(t, pd, v, e), d, u)
            == if d == pd && u == v then Some(e) else Lookup(t, d, u)
  {
    MapPresentSlots(t, dirs, pd, v, e, d, u / 1024);
    if SlotPresent(t, d, u / 1024) {
      assert SlotOk(t, dirs, d, u / 1024);
    }
  }

  lemma MapPresentOk(t: Tables, dirs: set<nat>, pd: nat, v: nat, e: Entry)
    requires DirsOk(t, dirs) && pd in dirs && SlotPresent(t, pd, v / 1024) && Present(e)
    ensures SlotOk(t, dirs, pd, v / 1024) && DirsOk(MapPresent(t, pd, v, e), dirs)
    ensures Lookup(MapPresent(t, pd, v, e), pd, v) == Some(e)
    ensures SameElsewhere(t, MapPresent(t, pd, v, e), dirs, pd, v)
    ensures KeepsNonEmpty(t, MapPresent(t, pd, v, e), dirs, pd, v / 1024)
  {
    MapPresentLookup(t, dirs, pd, v, e, pd, v);
    var t' := MapPresent(t, pd, v, e);
    var pt := t[pd][v / 1024].frame;
    forall d, u: nat | d in dirs && Owned(u / 1024) && (d != pd || u != v)
      ensures Lookup(t', d, u) == Lookup(t, d, u)
    {
      MapPresentLookup(t, dirs, pd, v, e, d, u);
    }
    forall d, k: nat | d in dirs && SlotPresent(t', d, k)
      ensures SlotPresent(t, d, k) && SlotOk(t', dirs, d, k)
      ensures (d == pd && k == v / 1024) || NonEmpty(t, d, k) ==> NonEmpty(t', d, k)
    {
      MapPresentSlots(t, dirs, pd, v, e, d, k);
      assert SlotOk(t, dirs, d, k);
      if t[d][k].frame == pt { assert Present(t'[pt][v % 1024]); }
    }
    forall d, k: nat, d', k': nat | d in dirs && d' in dirs && SlotPresent(t', d, k)
        && SlotPresent(t', d', k') && (d != d' || k != k')
      ensures t'[d][k].frame != t'[d'][k'].frame
    {
      MapPresentSlots(t, dirs, pd, v, e, d, k);
      MapPresentSlots(t, dirs, pd, v, e, d', k');
    }
  }

  lemma MapEntries(t: Tables, dirs: set<nat>, pd: nat, v: nat, e: Entry, pt: nat)
    requires DirsOk(t, dirs) && pd in dirs && Owned(v / 1024)
    ensures SlotPresent(t, pd, v / 1024) ==>
              SlotOk(t, dirs, pd, v / 1024) && SameEntries(t, MapPresent(t, pd, v, e), dirs, pd, v / 1024)
    ensures pt !in t ==> SameEntries(t, MapNew(t, pd, v, e, pt), dirs, pd, v / 1024)
  {
    if SlotPresent(t, pd, v / 1024) { assert SlotOk(t, dirs, pd, v / 1024); }
  }

  // ---------------------------------------------------------------- a new table

  lemma MapNewLookup(t: Tables, dirs: set<nat>, pd: nat, v: nat, e: Entry, pt: nat, d: nat, u: nat)
    requires DirsOk(t, dirs) && pd in dirs && d in dirs && Owned(v / 1024) && Owned(u / 1024)
    requires !SlotPresent(t, pd, v / 1024) && pt !in t && Present(e)
    ensures Lookup(MapNew(t, pd, v, e, pt), d, u)
            == if d == pd && u == v then Some(e) else Lookup(t, d, u)
  {
    FlagFacts(e.flags, 0);
    if SlotPresent(t, d, u / 1024) {
      assert SlotOk(t, dirs, d, u / 1024);
    }
  }

  lemma MapNewOk(t: Tables, dirs: set<nat>, pd: nat, v: nat, e: Entry, pt: nat)
    requires DirsOk(t, dirs) && pd in dirs && Owned(v / 1024) && !SlotPresent(t, pd, v / 1024)
    requires pt !in t && Present(e)
    ensures DirsOk(MapNew(t, pd, v, e, pt), dirs)
    ensures Lookup(MapNew(t, pd, v, e, pt), pd, v) == Some(e)
    ensures SameElsewhere(t, MapNew(t, pd, v, e, pt), dirs, pd, v)
    ensures KeepsNonEmpty(t, MapNew(t, pd, v, e, pt), dirs, pd, v / 1024)
  {
    MapNewLookup(t, dirs, pd, v, e, pt, pd, v);
    var t' := MapNew(t, pd, v, e, pt);
    forall d, u: nat | d in dirs && Owned(u / 1024) && (d != pd || u != v)
      ensures Lookup(t', d, u) == Lookup(t, d, u)
    {
      MapNewLookup(t, dirs, pd, v, e, pt, d, u);
    }
    forall d, k: nat | d in dirs && SlotPresent(t', d, k) ensures SlotOk(t', dirs, d, k) {
      MapNewSlots(t, dirs, pd, v, e, pt, d, k);
      if d == pd && k == v / 1024 { assert Present(t'[pt][v % 1024]); }
    }
    forall d, k: nat, d', k': nat | d in dirs && d' in dirs && SlotPresent(t', d, k)
        && SlotPresent(t', d', k') && (d != d' || k != k')
      ensures t'[d][k].frame != t'[d'][k'].frame
    {
      MapNewSlots(t, dirs, pd, v, e, pt, d, k);
      MapNewSlots(t, dirs, pd, v, e, pt, d', k');
    }
  }

  lemma MapNewSlots(t: Tables, dirs: set<nat>, pd: nat, v: nat, e: Entry, pt: nat, d: nat, k: nat)
    requires DirsOk(t, dirs) && pd in dirs && d in dirs && Owned(v / 1024) && pt !in t
    requires SlotPresent(MapNew(t, pd, v, e, pt), d, k)
    ensures var t' := MapNew(t, pd, v, e, pt);
            if d == pd && k == v / 1024 then t'[d][k].frame == pt
            else SlotPresent(t, d, k) && SlotOk(t, dirs, d, k) && t'[d][k] == t[d][k]
                 && t[d][k].frame != pt && t'[t[d][k].frame] == t[t[d][k].frame]
  {
  }

  // ---------------------------------------------------------------- unmapping one page

  ghost predicate Empty(table: seq<Entry>) {
    forall j :: 0 <= j < |table| ==> !Present(table[j])
  }

  /** The tables after `vmm_unmap_page` of a mapped page: a table left empty is given back. */
  ghost function Unmapped(t: Tables, pd: nat, v: nat): Tables
    requires SlotPresent(t, pd, v / 1024) && t[pd][v / 1024].frame in t
    requires |t[t[pd][v / 1024].frame]| == 1024
  {
    var pt := t[pd][v / 1024].frame;
    var table := t[pt][v % 1024 := ZERO];
    if Empty(table) then t[pd := t[pd][v / 1024 := ZERO]] - {pt}
    else t[pt := table]
  }

  lemma UnmappedSlots(t: Tables, dirs: set<nat>, pd: nat, v: nat, d: nat, k: nat)
    requires DirsOk(t, dirs) && pd in dirs && d in dirs && SlotPresent(t, pd, v / 1024) && Owned(k)
    ensures SlotOk(t, dirs, pd, v / 1024)
    ensures var t', pt := Unmapped(t, pd, v), t[pd][v / 1024].frame;
            && d in t' && |t'[d]| == 1024 && d in t && |t[d]| == 1024
            && (if d == pd && k == v / 1024 && Empty(t[pt][v % 1024 := ZERO]) then !SlotPresent(t', d, k)
                else t'[d][k] == t[d][k] && SlotPresent(t', d, k) == SlotPresent(t, d, k)
                     && (SlotPresent(t, d, k) && (d != pd || k != v / 1024) ==>
                           SlotOk(t, dirs, d, k) && t[d][k].frame != pt
                           && t[d][k].frame in t' && t'[t[d][k].frame] == t[t[d][k].frame]))
  {
  }

  lemma UnmappedLookup(t: Tables, dirs: set<nat>, pd: nat, v: nat, d: nat, u: nat)
    requires DirsOk(t, dirs) && pd in dirs && d in dirs && SlotPresent(t, pd, v / 1024) && Owned(u / 1024)
    ensures SlotOk(t, dirs, pd, v / 1024)
    ensures Lookup(Unmapped(t, pd, v), d, u) == if d == pd && u == v then None else Lookup(t, d, u)
  {
    UnmappedSlots(t, dirs, pd, v, d, u / 1024);
    var pt := t[pd][v / 1024].frame;
    if d == pd && u / 1024 == v / 1024 && u != v && Empty(t[pt][v % 1024 := ZERO]) {
      assert !Present(t[pt][v % 1024 := ZERO][u % 1024]);
    }
  }

  lemma UnmappedOk(t: Tables, dirs: set<nat>, pd: nat, v: nat)
    requires DirsOk(t, dirs) && pd in dirs && SlotPresent(t, pd, v / 1024)
    ensures SlotOk(t, dirs, pd, v / 1024) && DirsOk(Unmapped(t, pd, v), dirs)
    ensures Lookup(Unmapped(t, pd, v), pd, v) == None
    ensures SameElsewhere(t, Unmapped(t, pd, v), dirs, pd, v)
    ensures KeepsNonEmpty(t, Unmapped(t, pd, v), dirs, pd, v / 1024)
  {
    UnmappedLookup(t, dirs, pd, v, pd, v);
    var t', pt := Unmapped(t, pd, v), t[pd][v / 1024].frame;
    forall d, u: nat | d in dirs && Owned(u / 1024) && (d != pd || u != v)
      ensures Lookup(t', d, u) == Lookup(t, d, u)
    {
      UnmappedLookup(t, dirs, pd, v, d, u);
    }
    forall d | d in dirs ensures d in t' && |t'[d]| == 1024 { UnmappedSlots(t, dirs, pd, v, d, 0); }
    forall d, k: nat | d in dirs && SlotPresent(t', d, k) ensures SlotOk(t', dirs, d, k) {
      UnmappedSlots(t, dirs, pd, v, d, k);
    }
    forall d, k: nat, d', k': nat | d in dirs && d' in dirs && SlotPresent(t', d, k)
        && SlotPresent(t', d', k') && (d != d' || k != k')
      ensures t'[d][k].frame != t'[d'][k'].frame
    {
      UnmappedSlots(t, dirs, pd, v, d, k);
      UnmappedSlots(t, dirs, pd, v, d', k');
    }
  }

  /** What mapping and unmapping mean for the finite map of one directory. */
  ghost predicate Updated(t: Tables, t': Tables, dirs: set<nat>, pd: nat, v: nat, e: Option<Entry>) {
    && DirsOk(t', dirs) && Lookup(t', pd, v) == e && SameElsewhere(t, t', dirs, pd, v)
    && KeepsNonEmpty(t, t', dirs, pd, v / 1024)
  }

  // ---------------------------------------------------------------- giving tables back

  /** The tables after `vmm_free_pt_range` on one slot. */
  function SlotFreed(t: Tables, pd: nat, i: nat): Tables
    requires SlotPresent(t, pd, i)
  {
    t[pd := t[pd][i := ZERO]] - {t[pd][i].frame}
  }

  lemma SlotFreedOk(t: Tables, dirs: set<nat>, pd: nat, i: nat)
    requires DirsOk(t, dirs) && pd in dirs && SlotPresent(t, pd, i)
    ensures DirsOk(SlotFreed(t, pd, i), dirs) && (Tight(t, dirs) ==> Tight(SlotFreed(t, pd, i), dirs))
    ensures forall d, u: nat :: d in dirs && Owned(u / 1024) ==>
              Lookup(SlotFreed(t, pd, i), d, u)
              == if d == pd && u / 1024 == i then None else Lookup(t, d, u)
  {
    var t' := SlotFreed(t, pd, i);
    assert SlotOk(t, dirs, pd, i);
    forall d, k: nat | d in dirs && Owned(k)
      ensures d in t' && |t'[d]| == 1024
      ensures if d == pd && k == i then !SlotPresent(t', d, k)
              else t'[d][k] == t[d][k] && (SlotPresent(t, d, k) ==>
                     SlotOk(t, dirs, d, k) && t[d][k].frame in t' && t'[t[d][k].frame] == t[t[d][k].frame])
    {
      if SlotPresent(t, d, k) { assert SlotOk(t, dirs, d, k); }
    }
    if Tight(t, dirs) {
      forall d, k: nat | d in dirs && SlotPresent(t', d, k) ensures NonEmpty(t', d, k) {
        assert SlotPresent(t, d, k) && NonEmpty(t, d, k);
      }
    }
    assert forall d :: d in dirs ==> Owned(0) && d in t' && |t'[d]| == 1024;
  }

  /** Mapping and unmapping keep directory entries present exactly while their table is in use. */
  lemma UpdatedTight(t: Tables, t': Tables, dirs: set<nat>, pd: nat, v: nat, e: Option<Entry>)
    requires Updated(t, t', dirs, pd, v, e) && Tight(t, dirs)
    ensures Tight(t', dirs)
  {
  }
}
