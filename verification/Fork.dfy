/** The address-space copy of `fork`, on the success path: every present user page of the parent is
    copied eagerly to a frame of its own. */
module ForkCopy {
  import opened Paging
  import opened PageDirectory
  import opened Memory

  const USER_SLOTS: nat := 768
  const USER_PAGES: nat := 768 * 1024

  /** Virtual page of the kernel's temporary mapping window, 0xFFFFE000, and its directory slot. */
  const WINDOW: nat := 0xFFFFE
  const WINDOW_SLOT: nat := 1023

  // ---------------------------------------------------------------- what a copy is

  /** Virtual page `u` of the child is a copy of the parent's: unmapped, or mapped with the same
      flags to a frame that was free, with the same contents. */
  ghost predicate CopyOf(s0: Space, s: Space, parent: nat, child: nat, u: nat) {
    match Lookup(s0.tables, parent, u)
    case None => Lookup(s.tables, child, u) == None
    case Some(e) =>
      && Lookup(s.tables, child, u).Some?
      && var f := Lookup(s.tables, child, u).value;
         && f.flags == e.flags && f.frame in s0.high && f.frame !in s.high
         && f.frame in s.memory && e.frame in s0.memory && s.memory[f.frame] == s0.memory[e.frame]
  }

  /** No frame backs two pages of the child below page `n`. */
  ghost predicate FramesDistinct(t: Tables, child: nat, n: nat) {
    forall u: nat, w: nat :: u < w < n && Lookup(t, child, u).Some? && Lookup(t, child, w).Some?
                             ==> Lookup(t, child, u).value.frame != Lookup(t, child, w).value.frame
  }

  /** The pages below `n` have been copied, nothing else has changed. */
  ghost predicate CopiedTo(s0: Space, s: Space, dirs: set<nat>, parent: nat, child: nat, n: nat) {
    && DirsOk(s.tables, dirs) && s.high <= s0.high && s.tables.Keys !! s.low
    && (forall u: nat :: u < n && u < USER_PAGES ==> CopyOf(s0, s, parent, child, u))
    && FramesDistinct(s.tables, child, n)
    && (forall u: nat :: n <= u < USER_PAGES ==> Lookup(s.tables, child, u) == None)
    && (forall d, u: nat :: d in dirs && d != child && Owned(u / 1024)
                            ==> Lookup(s.tables, d, u) == Lookup(s0.tables, d, u))
    && (forall f :: f in s0.memory && f !in s0.high ==> f in s.memory && s.memory[f] == s0.memory[f])
    && SameSlots(s0.tables, s.tables, parent)
  }

  ghost predicate SameSlots(t: Tables, t': Tables, pd: nat) {
    forall k: nat :: k < USER_SLOTS ==> SlotPresent(t', pd, k) == SlotPresent(t, pd, k)
  }

  /** Where the copy may start: an empty child, and parent pages outside the free frames. */
  ghost predicate MayCopy(s: Space, dirs: set<nat>, parent: nat, child: nat) {
    && DirsOk(s.tables, dirs) && s.tables.Keys !! s.low
    && parent in dirs && child in dirs && parent != child
    && (forall i: nat :: Owned(i) ==> !SlotPresent(s.tables, child, i))
    && Lookup(s.tables, parent, WINDOW) == None
    && (forall u: nat :: u < USER_PAGES && Lookup(s.tables, parent, u).Some? ==>
          var f := Lookup(s.tables, parent, u).value.frame; f in s.memory && f !in s.high)
  }

  // ---------------------------------------------------------------- directory entries of the child

  /** Some page of the parent below `n` in slot `i` is a user page. */
  ghost predicate UserBelow(t: Tables, parent: nat, i: nat, n: nat) {
    exists u: nat :: i * 1024 <= u < n && Lookup(t, parent, u).Some? && Lookup(t, parent, u).value.flags & US != 0
  }

  /** The flags of the child's directory entry once the pages below `n` of slot `i` are copied: those of
      the parent's entry, and user access if a user page needs it. */
  ghost function PdeFlags(t: Tables, parent: nat, i: nat, n: nat): bv12
    requires parent in t && |t[parent]| == 1024 && i < 1024
  {
    if UserBelow(t, parent, i, n) then t[parent][i].flags | US else t[parent][i].flags
  }

  ghost predicate EntryCopied(t0: Tables, t: Tables, parent: nat, child: nat, i: nat, n: nat) {
    && parent in t0 && |t0[parent]| == 1024 && child in t && |t[child]| == 1024 && i < USER_SLOTS
    && Present(t[child][i]) && t[child][i].flags == PdeFlags(t0, parent, i, n)
  }

  /** The parent's directory entries are as they were, the child has copies of the first `i`. */
  ghost predicate EntriesCopied(t0: Tables, t: Tables, parent: nat, child: nat, i: nat) {
    && SameUserEntries(t0, t, parent)
    && child in t && |t[child]| == 1024
    && forall k: nat :: k < i && k < USER_SLOTS ==>
         if Present(t0[parent][k]) then EntryCopied(t0, t, parent, child, k, (k + 1) * 1024) else !Present(t[child][k])
  }

  ghost predicate SameUserEntries(t: Tables, t': Tables, pd: nat) {
    && pd in t && |t[pd]| == 1024 && pd in t' && |t'[pd]| == 1024
    && forall k: nat :: k < USER_SLOTS ==> t'[pd][k] == t[pd][k]
  }

  /** What copying page `u` does to directory entries: at most the child's entry over it gains user
      access. */
  ghost predicate EntriesAfter(t: Tables, t': Tables, parent: nat, child: nat, u: nat, flags: bv12) {
    && SameUserEntries(t, t', parent)
    && child in t && |t[child]| == 1024 && child in t' && |t'[child]| == 1024 && u / 1024 < USER_SLOTS
    && (forall k: nat :: k < USER_SLOTS && k != u / 1024 ==> t'[child][k] == t[child][k])
    && var pde := t[child][u / 1024];
       t'[child][u / 1024] == if NeedsGrant(pde, flags) then Granted(pde) else pde
  }

  /** Granting user access when the page needs it, on top of what earlier pages needed. */
  lemma GrantAdds(f: bv12, before: bool, pde: Entry, flags: bv12)
    requires pde.flags == if before then f | US else f
    ensures var r := if NeedsGrant(pde, flags) then Granted(pde) else pde;
            r.flags == (if before || flags & US != 0 then f | US else f) && Present(r) == Present(pde)
  {
    OrUser(f);
    GrantFacts(pde, flags);
  }

  lemma OrUser(f: bv12)
    ensures (f | US) & US != 0 && (f & US != 0 ==> f | US == f)
  {
  }

  lemma UserNext(t: Tables, parent: nat, i: nat, u: nat)
    requires i * 1024 <= u
    ensures UserBelow(t, parent, i, u + 1) <==>
            UserBelow(t, parent, i, u) || (Lookup(t, parent, u).Some? && Lookup(t, parent, u).value.flags & US != 0)
  {
    hide Lookup;
    if w: nat :| i * 1024 <= w < u && Lookup(t, parent, w).Some? && Lookup(t, parent, w).value.flags & US != 0 {
      assert i * 1024 <= w < u + 1;
    }
  }

  /** One page of slot `i` more, mapped by the parent or not. */
  lemma EntryStep(t0: Tables, t: Tables, t': Tables, parent: nat, child: nat, i: nat, u: nat)
    requires EntryCopied(t0, t, parent, child, i, u) && u / 1024 == i
    requires if Lookup(t0, parent, u).Some? then EntriesAfter(t, t', parent, child, u, Lookup(t0, parent, u).value.flags)
             else t' == t
    ensures EntryCopied(t0, t', parent, child, i, u + 1)
  {
    hide Lookup, UserBelow, NeedsGrant, Granted;
    UserNext(t0, parent, i, u);
    if Lookup(t0, parent, u).Some? {
      GrantAdds(t0[parent][i].flags, UserBelow(t0, parent, i, u), t[child][i], Lookup(t0, parent, u).value.flags);
    }
  }

  lemma EntriesStep(t0: Tables, t: Tables, t': Tables, parent: nat, child: nat, i: nat, u: nat, flags: bv12)
    requires EntriesCopied(t0, t, parent, child, i) && u / 1024 == i && EntriesAfter(t, t', parent, child, u, flags)
    ensures EntriesCopied(t0, t', parent, child, i)
  {
    hide UserBelow;
    forall k: nat | k < i && k < USER_SLOTS
      ensures if Present(t0[parent][k]) then EntryCopied(t0, t', parent, child, k, (k + 1) * 1024) else !Present(t'[child][k])
    {
      assert t'[child][k] == t[child][k];
    }
  }

  // ---------------------------------------------------------------- what the copy costs

  /** The parent's mapped pages below `n`, and its slots with a table below `i`. */
  ghost function PagesBelow(t: Tables, parent: nat, n: nat): nat
    decreases n
  {
    if n == 0 then 0 else PagesBelow(t, parent, n - 1) + (if Lookup(t, parent, n - 1).Some? then 1 else 0)
  }

  ghost function SlotsBelow(t: Tables, parent: nat, i: nat): nat
    decreases i
  {
    if i == 0 then 0 else SlotsBelow(t, parent, i - 1) + (if SlotPresent(t, parent, i - 1) then 1 else 0)
  }

  lemma {:induction false} PagesGrow(t: Tables, parent: nat, n: nat, n': nat)
    requires n <= n'
    ensures PagesBelow(t, parent, n) <= PagesBelow(t, parent, n')
    decreases n'
  {
    if n < n' { PagesGrow(t, parent, n, n' - 1); }
  }

  lemma {:induction false} SlotsGrow(t: Tables, parent: nat, i: nat, i': nat)
    requires i <= i'
    ensures SlotsBelow(t, parent, i) <= SlotsBelow(t, parent, i')
    decreases i'
  {
    if i < i' { SlotsGrow(t, parent, i, i' - 1); }
  }

  /** Enough memory for the copy: a high frame for every page, a low frame for every table, and one more for
      the window's table if it has none. */
  ghost predicate Enough(s: Space, parent: nat) {
    var pages := PagesBelow(s.tables, parent, USER_PAGES);
    && pages <= |s.high|
    && SlotsBelow(s.tables, parent, USER_SLOTS) + (if pages > 0 && !SlotPresent(s.tables, parent, WINDOW_SLOT) then 1 else 0)
       <= |s.low|
  }

  /** The frames spent on the pages below `n` and the tables below `i`. */
  ghost predicate Spent(s0: Space, s: Space, parent: nat, n: nat, i: nat) {
    && |s.high| + PagesBelow(s0.tables, parent, n) == |s0.high|
    && |s.low| + SlotsBelow(s0.tables, parent, i) == |s0.low|
    && SlotPresent(s.tables, parent, WINDOW_SLOT) == SlotPresent(s0.tables, parent, WINDOW_SLOT)
  }

  /** The window can be mapped. */
  ghost predicate Spare(s: Space, parent: nat) {
    SlotPresent(s.tables, parent, WINDOW_SLOT) || s.low != {}
  }

  /** Running out of memory while copying page `u` of slot `i`, or before slot `i`, proves that there was not
      enough at the start. */
  lemma NotEnough(s0: Space, s: Space, parent: nat, u: nat, i: nat)
    requires u < USER_PAGES && i <= USER_SLOTS && Spent(s0, s, parent, u, i)
    requires (i < USER_SLOTS && SlotPresent(s0.tables, parent, i) && s.low == {})
             || (Lookup(s0.tables, parent, u).Some? && (s.high == {} || !Spare(s, parent)))
    ensures !Enough(s0, parent)
  {
    hide Lookup, SlotPresent;
    SlotsGrow(s0.tables, parent, i, USER_SLOTS);
    if i < USER_SLOTS { SlotsGrow(s0.tables, parent, i + 1, USER_SLOTS); }
    PagesGrow(s0.tables, parent, u, USER_PAGES);
    PagesGrow(s0.tables, parent, u + 1, USER_PAGES);
  }

  // ---------------------------------------------------------------- one page

  /** The space after page `u`, mapped by the parent through `e`, has been copied to frame `f`. */
  ghost predicate PageCopied(s: Space, s': Space, dirs: set<nat>, child: nat, u: nat, e: Entry, f: nat) {
    && DirsOk(s'.tables, dirs) && s'.tables.Keys !! s'.low
    && f in s.high && s'.high == s.high - {f}
    && e.frame in s.memory && s'.memory == s.memory[f := s.memory[e.frame]]
    && Lookup(s'.tables, child, u) == Some(Entry(f, e.flags))
    && SameElsewhere(s.tables, s'.tables, dirs, child, u)
    && forall d :: d in dirs && d != child ==> SameSlots(s.tables, s'.tables, d)
  }

  lemma CopyStep(s0: Space, s: Space, s': Space, dirs: set<nat>, parent: nat, child: nat, u: nat, f: nat)
    requires MayCopy(s0, dirs, parent, child) && CopiedTo(s0, s, dirs, parent, child, u) && u < USER_PAGES
    requires Lookup(s0.tables, parent, u).Some?
    requires PageCopied(s, s', dirs, child, u, Lookup(s0.tables, parent, u).value, f)
    ensures CopiedTo(s0, s', dirs, parent, child, u + 1)
  {
    hide DirsOk;
    forall w: nat | w < u + 1 && w < USER_PAGES ensures CopyOf(s0, s', parent, child, w) {
      if w != u {
        assert CopyOf(s0, s, parent, child, w);
        assert Lookup(s'.tables, child, w) == Lookup(s.tables, child, w);
      }
    }
    forall w: nat, x: nat | w < x < u + 1 && Lookup(s'.tables, child, w).Some? && Lookup(s'.tables, child, x).Some?
      ensures Lookup(s'.tables, child, w).value.frame != Lookup(s'.tables, child, x).value.frame
    {
      assert CopyOf(s0, s, parent, child, w);
      assert Lookup(s'.tables, child, w) == Lookup(s.tables, child, w);
      if x != u { assert Lookup(s'.tables, child, x) == Lookup(s.tables, child, x); }
    }
  }

  lemma CopySkip(s0: Space, s: Space, dirs: set<nat>, parent: nat, child: nat, u: nat)
    requires CopiedTo(s0, s, dirs, parent, child, u) && u < USER_PAGES
    requires Lookup(s0.tables, parent, u).None?
    ensures CopiedTo(s0, s, dirs, parent, child, u + 1)
  {
  }

  // ---------------------------------------------------------------- empty tables

  /** Tables are in use, except possibly the one in slot `i` of the child, and the child has no
      table beyond that slot. */
  ghost predicate TightBut(t: Tables, dirs: set<nat>, child: nat, i: nat) {
    && (forall d, k: nat :: d in dirs && SlotPresent(t, d, k) && (d != child || k != i) ==> NonEmpty(t, d, k))
    && forall k: nat :: k > i ==> !SlotPresent(t, child, k)
  }

  lemma UpdateTightBut(t: Tables, t': Tables, dirs: set<nat>, pd: nat, v: nat, e: Option<Entry>, child: nat, i: nat)
    requires Updated(t, t', dirs, pd, v, e) && TightBut(t, dirs, child, i) && child in dirs
    requires pd != child || v / 1024 == i
    ensures TightBut(t', dirs, child, i)
  {
  }

  lemma MappedNonEmpty(t: Tables, dirs: set<nat>, pd: nat, u: nat)
    requires DirsOk(t, dirs) && pd in dirs && Owned(u / 1024) && Lookup(t, pd, u).Some?
    ensures SlotPresent(t, pd, u / 1024) && NonEmpty(t, pd, u / 1024)
  {
  }

  /** Mapping the window, mapping the child's page and unmapping the window change one page. */
  lemma ThroughWindow(t: Tables, t1: Tables, t2: Tables, t3: Tables, dirs: set<nat>,
                      parent: nat, child: nat, u: nat, p: Entry, e: Entry)
    requires parent in dirs && child in dirs && parent != child && Owned(u / 1024)
    requires Lookup(t, parent, WINDOW) == None
    requires Updated(t, t1, dirs, parent, WINDOW, Some(p))
    requires Updated(t1, t2, dirs, child, u, Some(e))
    requires Updated(t2, t3, dirs, parent, WINDOW, None)
    ensures Lookup(t3, child, u) == Some(e) && SameElsewhere(t, t3, dirs, child, u)
    ensures forall d :: d in dirs && d != child ==> SameSlots(t, t3, d)
  {
  }

  // ---------------------------------------------------------------- a table for the child

  function Installed(t: Tables, pd: nat, i: nat, e: Entry): Tables
    requires pd in t && |t[pd]| == 1024 && i < 1024
  {
    t[pd := t[pd][i := e]][e.frame := seq(1024, _ => ZERO)]
  }

  lemma InstallOk(t: Tables, dirs: set<nat>, pd: nat, i: nat, e: Entry)
    requires DirsOk(t, dirs) && pd in dirs && i < USER_SLOTS && !SlotPresent(t, pd, i)
    requires e.frame !in t && Present(e) && TightBut(t, dirs, pd, i)
    ensures DirsOk(Installed(t, pd, i, e), dirs) && TightBut(Installed(t, pd, i, e), dirs, pd, i)
    ensures forall d, u: nat :: d in dirs && Owned(u / 1024) ==>
              Lookup(Installed(t, pd, i, e), d, u) == Lookup(t, d, u)
    ensures forall d :: d in dirs && d != pd ==> SameSlots(t, Installed(t, pd, i, e), d)
  {
    var t' := Installed(t, pd, i, e);
    forall d, k: nat | d in dirs && Owned(k)
      ensures d in t && |t[d]| == 1024 && d in t' && |t'[d]| == 1024
      ensures d != pd || k != i ==> t'[d][k] == t[d][k] && SlotPresent(t', d, k) == SlotPresent(t, d, k)
      ensures SlotPresent(t, d, k) ==> SlotOk(t, dirs, d, k) && t[d][k].frame != e.frame
                                       && t'[t[d][k].frame] == t[t[d][k].frame]
    {
      if SlotPresent(t, d, k) { assert SlotOk(t, dirs, d, k); }
    }
    assert forall d :: d in dirs ==> Owned(0) && d in t' && |t'[d]| == 1024;
    assert SlotPresent(t', pd, i) && t'[pd][i] == e;
  }

  // ---------------------------------------------------------------- the loops

  /** Body of the inner loop of `fork`: copies one page through the window. It fails exactly when no high
      frame is left, or no low one for the window's table. */
  method CopyPage(m: Machine, parent: nat, child: nat, u: nat, e: Entry) returns (ok: bool, ghost f: nat)
    requires m.Valid() && parent in m.mmu.dirs && child in m.mmu.dirs && parent != child && u < USER_PAGES
    requires Lookup(m.mmu.tables, parent, u) == Some(e) && e.frame in m.memory && e.frame !in m.high
    requires Lookup(m.mmu.tables, parent, WINDOW) == None && Present(e)
    requires TightBut(m.mmu.tables, m.mmu.dirs, child, u / 1024) && SlotPresent(m.mmu.tables, child, u / 1024)
    modifies m, m.mmu`tables
    ensures ok <==> old(m.high) != {} && Spare(old(m.View()), parent)
    ensures ok ==> m.Valid() && PageCopied(old(m.View()), m.View(), m.mmu.dirs, child, u, e, f)
    ensures ok ==> TightBut(m.mmu.tables, m.mmu.dirs, child, u / 1024) && EntriesAfter(old(m.mmu.tables), m.mmu.tables, parent, child, u, e.flags)
    ensures ok ==> |m.low| == |old(m.low)|
                   && SlotPresent(m.mmu.tables, parent, WINDOW_SLOT) == SlotPresent(old(m.mmu.tables), parent, WINDOW_SLOT)
  {
    hide DirsOk, Lookup, SameElsewhere, KeepsNonEmpty, TightBut, SameEntries, EntriesAfter, Steady, NeedsGrant, Granted;
    ghost var t: Tables := m.mmu.tables;
    f := 0;
    var alloc := m.AllocPage();
    if alloc.None? {
      return false, f;
    }
    var page := alloc.value;
    var mapped := m.Map(parent, WINDOW, page, PRESENT | RW);
    if !mapped {
      m.FreePage(page);
      return false, f;
    }
    ghost var t1: Tables := m.mmu.tables;
    ElsewhereAt(t, t1, m.mmu.dirs, parent, WINDOW, parent, u);
    SlotElsewhere(t, t1, m.mmu.dirs, parent, WINDOW_SLOT, child, u / 1024);
    mapped := m.Map(child, u, page, e.flags);
    if !mapped {
      assert false;  // the child's table is there already
    }
    ghost var t2: Tables := m.mmu.tables;
    ElsewhereAt(t1, t2, m.mmu.dirs, child, u, parent, u);
    ElsewhereAt(t1, t2, m.mmu.dirs, child, u, parent, WINDOW);
    SlotElsewhere(t1, t2, m.mmu.dirs, child, u / 1024, parent, WINDOW_SLOT);
    var src := m.mmu.GetMapping(parent, u * PAGE_SIZE);
    var dst := m.mmu.GetMapping(parent, WINDOW * PAGE_SIZE);
    m.memory := m.memory[dst.value.0 := m.memory[src.value.0]];
    m.Unmap(parent, WINDOW);
    f := page;
    ghost var p, c := Entry(page, PRESENT | RW), Entry(page, e.flags);
    ThroughWindow(t, t1, t2, m.mmu.tables, m.mmu.dirs, parent, child, u, p, c);
    WindowSlot(t, t1, t2, m.mmu.tables, m.mmu.dirs, parent, child, u, p, c);
    ThroughEntries(t, t1, t2, m.mmu.tables, m.mmu.dirs, parent, child, u, e.flags);
    UpdateTightBut(t, t1, m.mmu.dirs, parent, WINDOW, Some(p), child, u / 1024);
    UpdateTightBut(t1, t2, m.mmu.dirs, child, u, Some(c), child, u / 1024);
    UpdateTightBut(t2, m.mmu.tables, m.mmu.dirs, parent, WINDOW, None, child, u / 1024);
    return true, f;
  }

  lemma SlotElsewhere(t: Tables, t': Tables, dirs: set<nat>, pd: nat, i: nat, d: nat, k: nat)
    requires SameEntries(t, t', dirs, pd, i) && d in dirs && Owned(k) && (d != pd || k != i)
    ensures SlotPresent(t', d, k) == SlotPresent(t, d, k)
  {
  }

  /** The window's table goes as it came. */
  lemma WindowSlot(t: Tables, t1: Tables, t2: Tables, t3: Tables, dirs: set<nat>,
                   parent: nat, child: nat, u: nat, p: Entry, c: Entry)
    requires parent in dirs && child in dirs && parent != child && u < USER_PAGES
    requires Lookup(t, parent, WINDOW) == None && TightBut(t, dirs, child, u / 1024) && DirsOk(t, dirs)
    requires Updated(t, t1, dirs, parent, WINDOW, Some(p)) && Updated(t1, t2, dirs, child, u, Some(c))
    requires Updated(t2, t3, dirs, parent, WINDOW, None)
    ensures SlotPresent(t3, parent, WINDOW_SLOT) == SlotPresent(t, parent, WINDOW_SLOT)
  {
    hide DirsOk, KeepsNonEmpty;
    if SlotPresent(t, parent, WINDOW_SLOT) {
      var w := WindowPage(t, parent, dirs, child, u / 1024);
      WindowKept(t, t1, t2, t3, dirs, parent, child, u, p, c, w);
    }
    if SlotPresent(t3, parent, WINDOW_SLOT) {
      WindowBack(t3, dirs, parent, child, u, t, t1, t2, p, c);
    }
  }

  lemma WindowPage(t: Tables, parent: nat, dirs: set<nat>, child: nat, i: nat) returns (w: nat)
    requires parent in dirs && parent != child && TightBut(t, dirs, child, i) && SlotPresent(t, parent, WINDOW_SLOT)
    ensures w / 1024 == WINDOW_SLOT && Lookup(t, parent, w).Some?
  {
    assert NonEmpty(t, parent, WINDOW_SLOT);
    var j :| 0 <= j < 1024 && Present(t[t[parent][WINDOW_SLOT].frame][j]);
    w := WINDOW_SLOT * 1024 + j;
    assert w / 1024 == WINDOW_SLOT && w % 1024 == j;
  }

  lemma WindowKept(t: Tables, t1: Tables, t2: Tables, t3: Tables, dirs: set<nat>,
                   parent: nat, child: nat, u: nat, p: Entry, c: Entry, w: nat)
    requires parent in dirs && child in dirs && parent != child && Lookup(t, parent, WINDOW) == None
    requires SameElsewhere(t, t1, dirs, parent, WINDOW) && SameElsewhere(t1, t2, dirs, child, u)
    requires SameElsewhere(t2, t3, dirs, parent, WINDOW) && w / 1024 == WINDOW_SLOT && Lookup(t, parent, w).Some?
    ensures SlotPresent(t3, parent, WINDOW_SLOT)
  {
    assert Lookup(t1, parent, w) == Lookup(t, parent, w);
    assert Lookup(t2, parent, w) == Lookup(t1, parent, w);
    assert Lookup(t3, parent, w) == Lookup(t2, parent, w);
  }

  lemma WindowBack(t3: Tables, dirs: set<nat>, parent: nat, child: nat, u: nat, t: Tables, t1: Tables, t2: Tables, p: Entry, c: Entry)
    requires parent in dirs && child in dirs && parent != child && u < USER_PAGES
    requires TightBut(t, dirs, child, u / 1024) && SlotPresent(t3, parent, WINDOW_SLOT)
    requires Updated(t, t1, dirs, parent, WINDOW, Some(p)) && Updated(t1, t2, dirs, child, u, Some(c))
    requires Updated(t2, t3, dirs, parent, WINDOW, None)
    ensures SlotPresent(t, parent, WINDOW_SLOT)
  {
    hide DirsOk, KeepsNonEmpty, TightBut, SlotPresent;
    UpdateTightBut(t, t1, dirs, parent, WINDOW, Some(p), child, u / 1024);
    UpdateTightBut(t1, t2, dirs, child, u, Some(c), child, u / 1024);
    UpdateTightBut(t2, t3, dirs, parent, WINDOW, None, child, u / 1024);
    var w := WindowPage(t3, parent, dirs, child, u / 1024);
    assert w != WINDOW;
    ElsewhereAt(t2, t3, dirs, parent, WINDOW, parent, w);
    ElsewhereAt(t1, t2, dirs, child, u, parent, w);
    ElsewhereAt(t, t1, dirs, parent, WINDOW, parent, w);
    LookupSlot(t, parent, w);
  }

  lemma LookupSlot(t: Tables, pd: nat, v: nat)
    requires Lookup(t, pd, v).Some? && Owned(v / 1024)
    ensures SlotPresent(t, pd, v / 1024)
  {
  }

  lemma ThroughEntries(t: Tables, t1: Tables, t2: Tables, t3: Tables, dirs: set<nat>, parent: nat, child: nat, u: nat, flags: bv12)
    requires parent in dirs && child in dirs && parent != child && u < USER_PAGES && SlotPresent(t1, child, u / 1024)
    requires SameEntries(t, t1, dirs, parent, WINDOW_SLOT) && SameEntries(t1, t2, dirs, child, u / 1024)
    requires SameEntries(t2, t3, dirs, parent, WINDOW_SLOT) && SlotPresent(t2, child, u / 1024)
    requires t2[child][u / 1024] == if NeedsGrant(t1[child][u / 1024], flags) then Granted(t1[child][u / 1024]) else t1[child][u / 1024]
    ensures EntriesAfter(t, t3, parent, child, u, flags)
  {
    hide NeedsGrant, Granted;
    forall k: nat | k < USER_SLOTS ensures t3[parent][k] == t[parent][k] && (k != u / 1024 ==> t3[child][k] == t[child][k]) {
      assert Owned(k);
    }
    assert Owned(u / 1024);
  }

  /** One round of the outer loop of `fork`: a table for the child and a copy of its pages. */
  method CopyTable(m: Machine, parent: nat, child: nat, i: nat, ghost s0: Space) returns (ok: bool)
    requires MayCopy(s0, m.mmu.dirs, parent, child) && i < USER_SLOTS && m.Valid()
    requires CopiedTo(s0, m.View(), m.mmu.dirs, parent, child, i * 1024)
    requires TightBut(m.mmu.tables, m.mmu.dirs, child, i) && !SlotPresent(m.mmu.tables, child, i)
    requires SlotPresent(m.mmu.tables, parent, i)
    requires EntriesCopied(s0.tables, m.mmu.tables, parent, child, i) && Spent(s0, m.View(), parent, i * 1024, i)
    modifies m, m.mmu`tables
    ensures !ok ==> !Enough(s0, parent)
    ensures ok ==> m.Valid() && CopiedTo(s0, m.View(), m.mmu.dirs, parent, child, (i + 1) * 1024)
    ensures ok ==> TightBut(m.mmu.tables, m.mmu.dirs, child, i)
    ensures ok ==> EntriesCopied(s0.tables, m.mmu.tables, parent, child, i + 1)
    ensures ok ==> Spent(s0, m.View(), parent, (i + 1) * 1024, i + 1) && Spare(m.View(), parent)
  {
    hide DirsOk, Lookup, TightBut, CopiedTo, MayCopy, Spent, Spare, Enough, EntriesCopied, EntryCopied;
    ghost var s := m.View();
    CopyShape(s0, s, m.mmu.dirs, parent, child, i * 1024, i);
    SameSlot(s0, s, parent, child, i);
    if m.low == {} {
      NotEnough(s0, s, parent, i * 1024, i);
      return false;
    }
    InstallTable(m, parent, child, i, s0);
    var j := 0;
    while j < 1024
      invariant 0 <= j <= 1024 && Copying(m, s0, parent, child, i, i * 1024 + j)
    {
      ok := CopyNext(m, parent, child, i, j, s0);
      if !ok {
        return false;
      }
      j := j + 1;
    }
    FinishTable(m, parent, child, i, s0);
    return true;
  }

  /** A zeroed table for slot `i` of the child, under a copy of the parent's directory entry. */
  method InstallTable(m: Machine, parent: nat, child: nat, i: nat, ghost s0: Space)
    requires MayCopy(s0, m.mmu.dirs, parent, child) && i < USER_SLOTS && m.Valid() && m.low != {}
    requires CopiedTo(s0, m.View(), m.mmu.dirs, parent, child, i * 1024)
    requires TightBut(m.mmu.tables, m.mmu.dirs, child, i) && !SlotPresent(m.mmu.tables, child, i)
    requires SlotPresent(m.mmu.tables, parent, i) && SlotPresent(s0.tables, parent, i)
    requires EntriesCopied(s0.tables, m.mmu.tables, parent, child, i) && Spent(s0, m.View(), parent, i * 1024, i)
    modifies m`low, m.mmu`tables
    ensures Copying(m, s0, parent, child, i, i * 1024)
  {
    hide DirsOk, Lookup, TightBut, CopiedTo, MayCopy, Spent, Spare, EntriesCopied, EntryCopied;
    ghost var s := m.View();
    CopyShape(s0, s, m.mmu.dirs, parent, child, i * 1024, i);
    var pt :| pt in m.low;
    TakenAway(m.mmu.tables.Keys, m.low, pt);
    m.low := m.low - {pt};
    var e := m.mmu.tables[parent][i].(frame := pt);
    InstallOk(m.mmu.tables, m.mmu.dirs, child, i, e);
    m.mmu.tables := m.mmu.tables[child := m.mmu.tables[child][i := e]];
    m.mmu.tables := m.mmu.tables[pt := seq(1024, _ => ZERO)];
    assert m.mmu.tables == Installed(s.tables, child, i, e);
    InstallCopied(s0, s, m.View(), m.mmu.dirs, parent, child, i * 1024);
    InstallEntries(s0, s, m.View(), parent, child, i, e);
  }

  lemma InstallEntries(s0: Space, s: Space, s': Space, parent: nat, child: nat, i: nat, e: Entry)
    requires parent != child && i < USER_SLOTS && EntriesCopied(s0.tables, s.tables, parent, child, i)
    requires e.frame !in s.tables && e == s.tables[parent][i].(frame := e.frame) && SlotPresent(s0.tables, parent, i)
    requires s'.tables == Installed(s.tables, child, i, e) && s'.high == s.high && |s'.low| == |s.low| - 1
    requires Spent(s0, s, parent, i * 1024, i)
    ensures EntriesCopied(s0.tables, s'.tables, parent, child, i) && EntryCopied(s0.tables, s'.tables, parent, child, i, i * 1024)
    ensures Spent(s0, s', parent, i * 1024, i + 1) && SlotPresent(s'.tables, parent, i)
  {
    hide UserBelow;
    var t' := s'.tables;
    assert t'[parent] == s.tables[parent] && t'[child] == s.tables[child][i := e];
    assert !UserBelow(s0.tables, parent, i, i * 1024) by { NoneBelow(s0.tables, parent, i); }
    forall k: nat | k < i
      ensures if Present(s0.tables[parent][k]) then EntryCopied(s0.tables, t', parent, child, k, (k + 1) * 1024) else !Present(t'[child][k])
    {
      assert t'[child][k] == s.tables[child][k];
    }
  }

  lemma NoneBelow(t: Tables, parent: nat, i: nat)
    ensures !UserBelow(t, parent, i, i * 1024)
  {
  }

  /** Page `j` of slot `i`: copied if the parent maps it, passed over if not. */
  method CopyNext(m: Machine, parent: nat, child: nat, i: nat, j: nat, ghost s0: Space) returns (ok: bool)
    requires MayCopy(s0, m.mmu.dirs, parent, child) && i < USER_SLOTS && j < 1024
    requires Copying(m, s0, parent, child, i, i * 1024 + j)
    modifies m, m.mmu`tables
    ensures if ok then Copying(m, s0, parent, child, i, i * 1024 + j + 1) else !Enough(s0, parent)
  {
    hide DirsOk, Lookup, TightBut, CopiedTo, MayCopy, Spent, Spare, Enough, EntriesCopied, EntryCopied, EntriesAfter, PageCopied, PagesBelow;
    ghost var s := m.View();
    ghost var u := i * 1024 + j;
    assert u / 1024 == i;
    CopyShape(s0, s, m.mmu.dirs, parent, child, u, i);
    ParentEntry(s0, s, m.mmu.dirs, parent, child, u, i, j, u);
    ChildSlot(s0.tables, s.tables, parent, child, i, u);
    var pte := m.mmu.tables[m.mmu.tables[parent][i].frame][j];
    if Present(pte) {
      ghost var f;
      ok, f := CopyPage(m, parent, child, i * 1024 + j, pte);
      if !ok {
        NotEnough(s0, s, parent, u, i + 1);
        return false;
      }
      CopyStep(s0, s, m.View(), m.mmu.dirs, parent, child, u, f);
      EntryStep(s0.tables, s.tables, m.mmu.tables, parent, child, i, u);
      EntriesStep(s0.tables, s.tables, m.mmu.tables, parent, child, i, u, pte.flags);
      SpentStep(s0, s, m.View(), m.mmu.dirs, parent, child, u, i, pte, f);
      SlotAfter(s.tables, m.mmu.tables, parent, child, u, pte.flags, i);
    } else {
      CopySkip(s0, s, m.mmu.dirs, parent, child, u);
      EntryStep(s0.tables, s.tables, s.tables, parent, child, i, u);
      SkipSpent(s0, s, parent, u, i);
    }
    return true;
  }

  lemma ChildSlot(t0: Tables, t: Tables, parent: nat, child: nat, i: nat, u: nat)
    requires EntryCopied(t0, t, parent, child, i, u)
    ensures SlotPresent(t, child, i)
  {
  }

  lemma SlotAfter(t: Tables, t': Tables, parent: nat, child: nat, u: nat, flags: bv12, i: nat)
    requires EntriesAfter(t, t', parent, child, u, flags) && SlotPresent(t, parent, i) && i < USER_SLOTS
    ensures SlotPresent(t', parent, i)
  {
  }

  lemma SpentStep(s0: Space, s: Space, s': Space, dirs: set<nat>, parent: nat, child: nat, u: nat, i: nat, e: Entry, f: nat)
    requires Spent(s0, s, parent, u, i + 1) && PageCopied(s, s', dirs, child, u, e, f) && |s'.low| == |s.low| && Spare(s, parent)
    requires SlotPresent(s'.tables, parent, WINDOW_SLOT) == SlotPresent(s.tables, parent, WINDOW_SLOT)
    requires Lookup(s0.tables, parent, u).Some?
    ensures Spent(s0, s', parent, u + 1, i + 1) && Spare(s', parent)
  {
    hide DirsOk, Lookup, SlotPresent, SameElsewhere;
  }

  lemma SkipSpent(s0: Space, s: Space, parent: nat, u: nat, i: nat)
    requires Spent(s0, s, parent, u, i + 1) && Lookup(s0.tables, parent, u).None?
    ensures Spent(s0, s, parent, u + 1, i + 1) && PagesBelow(s0.tables, parent, u + 1) == PagesBelow(s0.tables, parent, u)
  {
  }

  /** After the last page of the slot. */
  lemma FinishTable(m: Machine, parent: nat, child: nat, i: nat, s0: Space)
    requires MayCopy(s0, m.mmu.dirs, parent, child) && i < USER_SLOTS && Copying(m, s0, parent, child, i, (i + 1) * 1024)
    ensures EntriesCopied(s0.tables, m.mmu.tables, parent, child, i + 1) && Spare(m.View(), parent)
  {
    hide DirsOk, Lookup, CopiedTo, MayCopy, Spent, Spare, UserBelow, PagesBelow;
    var s := m.View();
    CopyShape(s0, s, m.mmu.dirs, parent, child, (i + 1) * 1024, i);
    var u := SlotPage(s.tables, parent, m.mmu.dirs, child, i);
    ParentEntry(s0, s, m.mmu.dirs, parent, child, u, i, u % 1024, (i + 1) * 1024);
    PageCounted(s0.tables, parent, i * 1024, u, (i + 1) * 1024);
    PdePresent(s0.tables, s.tables, parent, i);
  }

  lemma PdePresent(t0: Tables, t: Tables, parent: nat, i: nat)
    requires SameUserEntries(t0, t, parent) && i < USER_SLOTS && SlotPresent(t, parent, i)
    ensures Present(t0[parent][i])
  {
  }

  lemma SlotPage(t: Tables, parent: nat, dirs: set<nat>, child: nat, i: nat) returns (u: nat)
    requires parent in dirs && parent != child && TightBut(t, dirs, child, i) && SlotPresent(t, parent, i)
    ensures u / 1024 == i && Lookup(t, parent, u).Some?
  {
    assert NonEmpty(t, parent, i);
    var j :| 0 <= j < 1024 && Present(t[t[parent][i].frame][j]);
    u := i * 1024 + j;
    assert u / 1024 == i && u % 1024 == j;
  }

  lemma PageCounted(t: Tables, parent: nat, a: nat, u: nat, b: nat)
    requires a <= u < b && Lookup(t, parent, u).Some?
    ensures PagesBelow(t, parent, b) > PagesBelow(t, parent, a)
  {
    hide Lookup;
    PagesGrow(t, parent, a, u);
    PagesGrow(t, parent, u + 1, b);
  }

  lemma SameSlot(s0: Space, s: Space, parent: nat, child: nat, i: nat)
    requires EntriesCopied(s0.tables, s.tables, parent, child, i) && i < USER_SLOTS
    ensures SlotPresent(s0.tables, parent, i) == SlotPresent(s.tables, parent, i)
  {
  }

  /** The copy loops of `fork`, then the shared kernel slots. It succeeds exactly when there is enough memory.
      Then the child maps exactly the parent's present user pages, with equal flags and contents, on
      distinct frames that were free, under copies of the parent's directory entries, and no other
      mapping has changed. */
  method CopyUserSpace(m: Machine, parent: nat, child: nat) returns (ok: bool)
    requires MayCopy(m.View(), m.mmu.dirs, parent, child) && Tight(m.mmu.tables, m.mmu.dirs)
    modifies m, m.mmu`tables
    ensures ok <==> Enough(old(m.View()), parent)
    ensures ok ==> CopiedTo(old(m.View()), m.View(), m.mmu.dirs, parent, child, USER_PAGES)
    ensures ok ==> Tight(m.mmu.tables, m.mmu.dirs)
    ensures ok ==> EntriesCopied(old(m.mmu.tables), m.mmu.tables, parent, child, USER_SLOTS)
    ensures ok ==> forall k :: 768 <= k < 992 ==>
              child in m.mmu.tables && parent in m.mmu.tables && |m.mmu.tables[child]| == |m.mmu.tables[parent]| == 1024
              && m.mmu.tables[child][k] == m.mmu.tables[parent][k]
  {
    hide DirsOk, Lookup, TightBut, Tight, CopiedTo, Spent, Spare, Enough, EntriesCopied, EntryCopied, PagesBelow, SlotsBelow;
    ghost var s0 := m.View();
    CopyStart(s0, m.mmu.dirs, parent, child);
    CostStart(s0, m.mmu.dirs, parent, child);
    var i := 0;
    while i < USER_SLOTS
      invariant 0 <= i <= USER_SLOTS && m.Valid()
      invariant CopiedTo(s0, m.View(), m.mmu.dirs, parent, child, i * 1024)
      invariant Tight(m.mmu.tables, m.mmu.dirs) && NoTablesFrom(m.mmu.tables, child, i)
      invariant EntriesCopied(s0.tables, m.mmu.tables, parent, child, i) && Spent(s0, m.View(), parent, i * 1024, i)
      invariant PagesBelow(s0.tables, parent, i * 1024) > 0 ==> Spare(m.View(), parent)
    {
      ghost var s := m.View();
      CopyShape(s0, s, m.mmu.dirs, parent, child, i * 1024, i);
      SameSlot(s0, s, parent, child, i);
      if Present(m.mmu.tables[parent][i]) {
        TightToBut(m.mmu.tables, m.mmu.dirs, child, i);
        ok := CopyTable(m, parent, child, i, s0);
        if !ok {
          return false;
        }
        TableInUse(s0, s, m.View(), m.mmu.dirs, parent, child, i);
      } else {
        SkipTable(s0, s, m.mmu.dirs, parent, child, i);
        SkipCost(s0, s, m.mmu.dirs, parent, child, i);
      }
      i := i + 1;
    }
    ghost var s := m.View();
    CopyShape(s0, s, m.mmu.dirs, parent, child, i * 1024, 0);
    AllSpent(s0, s, parent);
    var kernel := m.mmu.tables[parent][768..992];
    KernelSlots(s0, s, m.mmu.dirs, parent, child);
    KernelEntries(s0.tables, s.tables, parent, child);
    m.mmu.tables := m.mmu.tables[child := m.mmu.tables[child][..768] + kernel + m.mmu.tables[child][992..]];
    return true;
  }

  lemma CostStart(s: Space, dirs: set<nat>, parent: nat, child: nat)
    requires MayCopy(s, dirs, parent, child)
    ensures EntriesCopied(s.tables, s.tables, parent, child, 0) && Spent(s, s, parent, 0, 0) && PagesBelow(s.tables, parent, 0) == 0
  {
  }

  lemma SkipCost(s0: Space, s: Space, dirs: set<nat>, parent: nat, child: nat, i: nat)
    requires EntriesCopied(s0.tables, s.tables, parent, child, i) && Spent(s0, s, parent, i * 1024, i) && i < USER_SLOTS
    requires !SlotPresent(s.tables, parent, i) && NoTablesFrom(s.tables, child, i)
    ensures EntriesCopied(s0.tables, s.tables, parent, child, i + 1) && Spent(s0, s, parent, (i + 1) * 1024, i + 1)
    ensures PagesBelow(s0.tables, parent, (i + 1) * 1024) == PagesBelow(s0.tables, parent, i * 1024)
  {
    hide UserBelow, EntryCopied;
    SameSlot(s0, s, parent, child, i);
    NoPages(s0.tables, parent, i, 1024);
    assert Owned(i) && !SlotPresent(s.tables, child, i);
  }

  lemma {:induction false} NoPages(t: Tables, parent: nat, i: nat, j: nat)
    requires !SlotPresent(t, parent, i) && i < USER_SLOTS && j <= 1024
    ensures PagesBelow(t, parent, i * 1024 + j) == PagesBelow(t, parent, i * 1024)
    decreases j
  {
    if j > 0 {
      NoPages(t, parent, i, j - 1);
      var u := i * 1024 + j - 1;
      assert u / 1024 == i;
      assert Lookup(t, parent, u).None?;
    }
  }

  lemma AllSpent(s0: Space, s: Space, parent: nat)
    requires Spent(s0, s, parent, USER_PAGES, USER_SLOTS)
    requires PagesBelow(s0.tables, parent, USER_PAGES) > 0 ==> Spare(s, parent)
    ensures Enough(s0, parent)
  {
    hide PagesBelow, SlotsBelow, SlotPresent;
  }

  lemma KernelEntries(t0: Tables, t: Tables, parent: nat, child: nat)
    requires EntriesCopied(t0, t, parent, child, USER_SLOTS) && parent != child
    ensures var t' := t[child := t[child][..768] + t[parent][768..992] + t[child][992..]];
            EntriesCopied(t0, t', parent, child, USER_SLOTS)
  {
    hide UserBelow;
  }

  /** The pages of slot `i` below `u` are copied. */
  ghost predicate Copying(m: Machine, s0: Space, parent: nat, child: nat, i: nat, u: nat)
    reads m, m.mmu
  {
    && m.Valid() && CopiedTo(s0, m.View(), m.mmu.dirs, parent, child, u)
    && TightBut(m.mmu.tables, m.mmu.dirs, child, i) && SlotPresent(m.mmu.tables, parent, i)
    && EntriesCopied(s0.tables, m.mmu.tables, parent, child, i) && EntryCopied(s0.tables, m.mmu.tables, parent, child, i, u)
    && Spent(s0, m.View(), parent, u, i + 1)
    && (PagesBelow(s0.tables, parent, u) > PagesBelow(s0.tables, parent, i * 1024) ==> Spare(m.View(), parent))
  }

  ghost predicate NoTablesFrom(t: Tables, child: nat, i: nat) {
    forall k: nat :: k >= i ==> !SlotPresent(t, child, k)
  }

  lemma TightToBut(t: Tables, dirs: set<nat>, child: nat, i: nat)
    requires Tight(t, dirs) && NoTablesFrom(t, child, i)
    ensures TightBut(t, dirs, child, i) && !SlotPresent(t, child, i)
  {
  }

  lemma CopyStart(s: Space, dirs: set<nat>, parent: nat, child: nat)
    requires MayCopy(s, dirs, parent, child)
    ensures CopiedTo(s, s, dirs, parent, child, 0) && NoTablesFrom(s.tables, child, 0)
  {
    forall u: nat | u < USER_PAGES ensures Lookup(s.tables, child, u) == None {
      assert !SlotPresent(s.tables, child, u / 1024);
    }
    forall k: nat ensures !SlotPresent(s.tables, child, k) {
    }
  }

  /** The parent's table was in use, so the child's copy of it is. */
  lemma TableInUse(s0: Space, s: Space, s': Space, dirs: set<nat>, parent: nat, child: nat, i: nat)
    requires MayCopy(s0, dirs, parent, child) && i < USER_SLOTS
    requires CopiedTo(s0, s, dirs, parent, child, i * 1024) && Tight(s.tables, dirs)
    requires SlotPresent(s.tables, parent, i)
    requires CopiedTo(s0, s', dirs, parent, child, (i + 1) * 1024) && TightBut(s'.tables, dirs, child, i)
    ensures Tight(s'.tables, dirs) && NoTablesFrom(s'.tables, child, i + 1)
  {
    hide DirsOk;
    hide FramesDistinct;
    CopyShape(s0, s, dirs, parent, child, i * 1024, i);
    CopyShape(s0, s', dirs, parent, child, (i + 1) * 1024, i);
    assert NonEmpty(s.tables, parent, i);
    var pt := s.tables[parent][i].frame;
    var j :| 0 <= j < 1024 && Present(s.tables[pt][j]);
    var u := i * 1024 + j;
    assert u / 1024 == i && u % 1024 == j;
    assert Lookup(s.tables, parent, u).Some?;
    assert Lookup(s0.tables, parent, u) == Lookup(s.tables, parent, u);
    assert CopyOf(s0, s', parent, child, u);
    MappedNonEmpty(s'.tables, dirs, child, u);
  }

  lemma SkipTable(s0: Space, s: Space, dirs: set<nat>, parent: nat, child: nat, i: nat)
    requires MayCopy(s0, dirs, parent, child) && i < USER_SLOTS
    requires CopiedTo(s0, s, dirs, parent, child, i * 1024) && !SlotPresent(s.tables, parent, i)
    ensures CopiedTo(s0, s, dirs, parent, child, (i + 1) * 1024)
  {
  }

  lemma KernelSlots(s0: Space, s: Space, dirs: set<nat>, parent: nat, child: nat)
    requires MayCopy(s0, dirs, parent, child) && CopiedTo(s0, s, dirs, parent, child, USER_PAGES)
    requires Tight(s.tables, dirs)
    requires parent in s.tables && |s.tables[parent]| == 1024 && child in s.tables && |s.tables[child]| == 1024
    ensures var t' := s.tables[child := s.tables[child][..768] + s.tables[parent][768..992] + s.tables[child][992..]];
            CopiedTo(s0, s.(tables := t'), dirs, parent, child, USER_PAGES) && Tight(t', dirs)
  {
    var t' := s.tables[child := s.tables[child][..768] + s.tables[parent][768..992] + s.tables[child][992..]];
    forall d, k: nat | d in dirs && Owned(k)
      ensures d in t' && |t'[d]| == 1024 && t'[d][k] == s.tables[d][k]
      ensures SlotPresent(t', d, k) == SlotPresent(s.tables, d, k)
      ensures SlotPresent(s.tables, d, k) ==> SlotOk(s.tables, dirs, d, k)
    {
    }
    forall d, u: nat | d in dirs && Owned(u / 1024) ensures Lookup(t', d, u) == Lookup(s.tables, d, u) {
      if SlotPresent(s.tables, d, u / 1024) { assert SlotOk(s.tables, dirs, d, u / 1024); }
    }
    assert forall d :: d in dirs ==> Owned(0) && d in t' && |t'[d]| == 1024;
    InstallCopied(s0, s, s.(tables := t'), dirs, parent, child, USER_PAGES);
  }

  lemma CopyShape(s0: Space, s: Space, dirs: set<nat>, parent: nat, child: nat, n: nat, i: nat)
    requires MayCopy(s0, dirs, parent, child) && CopiedTo(s0, s, dirs, parent, child, n) && i < USER_SLOTS
    ensures DirsOk(s.tables, dirs) && s.tables.Keys !! s.low
    ensures parent in dirs && child in dirs && parent != child
    ensures parent in s.tables && |s.tables[parent]| == 1024 && child in s.tables && |s.tables[child]| == 1024
    ensures Lookup(s.tables, parent, WINDOW) == None
  {
  }

  lemma InstallCopied(s0: Space, s: Space, s': Space, dirs: set<nat>, parent: nat, child: nat, n: nat)
    requires CopiedTo(s0, s, dirs, parent, child, n) && DirsOk(s'.tables, dirs) && s'.tables.Keys !! s'.low
    requires s'.memory == s.memory && s'.high == s.high && child in dirs && n <= USER_PAGES
    requires SameSlots(s.tables, s'.tables, parent)
    requires forall d, u: nat :: d in dirs && Owned(u / 1024) ==> Lookup(s'.tables, d, u) == Lookup(s.tables, d, u)
    ensures CopiedTo(s0, s', dirs, parent, child, n)
  {
    hide DirsOk;
    hide Lookup;
    forall u: nat | u < n && u < USER_PAGES ensures CopyOf(s0, s', parent, child, u) {
      assert CopyOf(s0, s, parent, child, u);
      assert Lookup(s'.tables, child, u) == Lookup(s.tables, child, u);
    }
  }

  /** The entry that the inner loop reads is the parent's mapping when `fork` began. */
  lemma ParentEntry(s0: Space, s: Space, dirs: set<nat>, parent: nat, child: nat, u: nat, i: nat, j: nat, n: nat)
    requires MayCopy(s0, dirs, parent, child) && CopiedTo(s0, s, dirs, parent, child, n)
    requires u == i * 1024 + j && i < USER_SLOTS && j < 1024 && DirsOk(s.tables, dirs)
    ensures SlotPresent(s.tables, parent, i) == SlotPresent(s0.tables, parent, i)
    ensures Lookup(s0.tables, parent, u) == Lookup(s.tables, parent, u)
    ensures SlotPresent(s.tables, parent, i) ==>
              && SlotOk(s.tables, dirs, parent, i)
              && var pte := s.tables[s.tables[parent][i].frame][j];
                 Lookup(s.tables, parent, u) == if Present(pte) then Some(pte) else None
    ensures Lookup(s0.tables, parent, u).Some? ==>
              var f := Lookup(s0.tables, parent, u).value.frame; f in s.memory && f !in s.high
  {
  }

  lemma ElsewhereAt(t: Tables, t': Tables, dirs: set<nat>, pd: nat, v: nat, d: nat, u: nat)
    requires SameElsewhere(t, t', dirs, pd, v) && d in dirs && Owned(u / 1024) && (d != pd || u != v)
    ensures Lookup(t', d, u) == Lookup(t, d, u)
  {
  }

  // ---------------------------------------------------------------- access rights

  /** The directory entry over a user page grants user access, as `vmm_map_page` sees to. */
  ghost predicate Granting(t: Tables, pd: nat) {
    forall u: nat :: u < USER_PAGES && Lookup(t, pd, u).Some? && Lookup(t, pd, u).value.flags & US != 0 ==>
      t[pd][u / 1024].flags & US != 0
  }

  lemma EntryEqual(t0: Tables, t: Tables, parent: nat, child: nat, i: nat)
    requires EntriesCopied(t0, t, parent, child, USER_SLOTS) && i < USER_SLOTS && Granting(t0, parent)
    ensures Present(t[child][i]) == Present(t0[parent][i])
    ensures Present(t0[parent][i]) ==> t[child][i].flags == t0[parent][i].flags
  {
    hide Lookup;
    if Present(t0[parent][i]) {
      assert EntryCopied(t0, t, parent, child, i, (i + 1) * 1024);
      if UserBelow(t0, parent, i, (i + 1) * 1024) {
        var u: nat :| i * 1024 <= u < (i + 1) * 1024 && Lookup(t0, parent, u).Some? && Lookup(t0, parent, u).value.flags & US != 0;
        assert u / 1024 == i;
        OrUser(t0[parent][i].flags);
      }
    }
  }

  /** The page-table check of a user range comes out the same for the child as for the parent. */
  lemma ChildVerifies(s0: Space, s: Space, dirs: set<nat>, parent: nat, child: nat, v: nat, pdeFlags: bv12, pteFlags: bv12)
    requires MayCopy(s0, dirs, parent, child) && CopiedTo(s0, s, dirs, parent, child, USER_PAGES) && v < USER_PAGES
    requires EntriesCopied(s0.tables, s.tables, parent, child, USER_SLOTS) && Granting(s0.tables, parent)
    ensures PageOk(s.tables, child, v, pdeFlags, pteFlags) <==> PageOk(s0.tables, parent, v, pdeFlags, pteFlags)
  {
    hide CopiedTo, MayCopy, EntriesCopied, Granting, Has, Present, CopyOf;
    EntryEqual(s0.tables, s.tables, parent, child, v / 1024);
    EntriesShape(s0.tables, s.tables, parent, child);
    CopyAt(s0, s, dirs, parent, child, v);
    WalkOk(s0.tables, dirs, parent, v, pdeFlags, pteFlags);
    WalkOk(s.tables, dirs, child, v, pdeFlags, pteFlags);
    SameHas(s0.tables, s.tables, parent, child, v, pdeFlags, pteFlags);
  }

  lemma EntriesShape(t0: Tables, t: Tables, parent: nat, child: nat)
    requires EntriesCopied(t0, t, parent, child, USER_SLOTS)
    ensures parent in t0 && |t0[parent]| == 1024 && child in t && |t[child]| == 1024
  {
  }

  lemma CopyAt(s0: Space, s: Space, dirs: set<nat>, parent: nat, child: nat, v: nat)
    requires MayCopy(s0, dirs, parent, child) && CopiedTo(s0, s, dirs, parent, child, USER_PAGES) && v < USER_PAGES
    ensures DirsOk(s0.tables, dirs) && DirsOk(s.tables, dirs) && parent in dirs && child in dirs
    ensures Lookup(s.tables, child, v).Some? <==> Lookup(s0.tables, parent, v).Some?
    ensures Lookup(s.tables, child, v).Some? ==> Lookup(s.tables, child, v).value.flags == Lookup(s0.tables, parent, v).value.flags
  {
    hide DirsOk, Lookup;
    assert CopyOf(s0, s, parent, child, v);
  }

  /** The check of a page in terms of its mapping and its directory entry. */
  lemma WalkOk(t: Tables, dirs: set<nat>, pd: nat, v: nat, pdeFlags: bv12, pteFlags: bv12)
    requires DirsOk(t, dirs) && pd in dirs && v < USER_PAGES && pd in t && |t[pd]| == 1024
    ensures PageOk(t, pd, v, pdeFlags, pteFlags) <==>
            && Lookup(t, pd, v).Some? && Has(t[pd][v / 1024], pdeFlags | PRESENT)
            && Has(Lookup(t, pd, v).value, pteFlags | PRESENT)
    ensures Lookup(t, pd, v).Some? ==> Present(t[pd][v / 1024])
  {
    hide Has, Present;
    if Has(t[pd][v / 1024], pdeFlags | PRESENT) {
      HasPresent(t[pd][v / 1024], pdeFlags);
      assert SlotOk(t, dirs, pd, v / 1024) by { assert SlotPresent(t, pd, v / 1024); }
      var pte := t[t[pd][v / 1024].frame][v % 1024];
      if Has(pte, pteFlags | PRESENT) { HasPresent(pte, pteFlags); }
    }
  }

  lemma SameHas(t0: Tables, t: Tables, parent: nat, child: nat, v: nat, pdeFlags: bv12, pteFlags: bv12)
    requires parent in t0 && |t0[parent]| == 1024 && child in t && |t[child]| == 1024 && v < USER_PAGES
    requires Present(t0[parent][v / 1024]) ==> t[child][v / 1024].flags == t0[parent][v / 1024].flags
    requires Lookup(t, child, v).Some? <==> Lookup(t0, parent, v).Some?
    requires Lookup(t, child, v).Some? ==> Lookup(t, child, v).value.flags == Lookup(t0, parent, v).value.flags
    requires Lookup(t0, parent, v).Some? ==> Present(t0[parent][v / 1024])
    ensures Lookup(t, child, v).Some? ==>
              && (Has(t[child][v / 1024], pdeFlags | PRESENT) <==> Has(t0[parent][v / 1024], pdeFlags | PRESENT))
              && (Has(Lookup(t, child, v).value, pteFlags | PRESENT) <==> Has(Lookup(t0, parent, v).value, pteFlags | PRESENT))
  {
    hide Lookup, Has, Present;
    if Lookup(t, child, v).Some? {
      EqualFlags(t[child][v / 1024], t0[parent][v / 1024], pdeFlags | PRESENT);
      EqualFlags(Lookup(t, child, v).value, Lookup(t0, parent, v).value, pteFlags | PRESENT);
    }
  }

  lemma EqualFlags(a: Entry, b: Entry, flags: bv12)
    requires a.flags == b.flags
    ensures Has(a, flags) == Has(b, flags)
  {
  }
}
