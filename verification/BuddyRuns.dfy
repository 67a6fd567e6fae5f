/** Whole runs of the buddy allocator, as seen by its clients. Every call of `Buddy.AllocPages` and
    `Buddy.FreeBlock` that changes the heap is one `Step` of this machine. */
module BuddyRuns {
  import opened Bits
  import opened Lists
  import opened BuddyState
  import opened BuddyAllocator

  datatype Op = AllocOp(zone: Zone, b: nat, o: nat) | FreeOp(b: nat)

  ghost predicate Step(h: Heap, op: Op, h': Heap) {
    match op
    case AllocOp(zone, b, o) => AllocStep(h, h', zone, b, o)
    case FreeOp(b) => FreeStep(h, h', b)
  }

  ghost predicate Run(hs: seq<Heap>, ops: seq<Op>) {
    && |hs| == |ops| + 1
    && forall i :: 0 <= i < |ops| ==> Step(hs[i], ops[i], hs[i + 1])
  }

  ghost function LivePages(live: map<nat, nat>): set<nat> {
    set b, q | b in live && q in Block(b, live[b]) :: q
  }

  /** Live blocks are pairwise disjoint and hold no free page. */
  ghost predicate HeapOk(h: Heap) {
    && LivePages(h.live) !! h.free
    && forall b, c :: b in h.live && c in h.live && b != c ==> Block(b, h.live[b]) !! Block(c, h.live[c])
  }

  lemma LivePagesAdd(live: map<nat, nat>, b: nat, o: nat)
    requires b !in live
    ensures LivePages(live[b := o]) == LivePages(live) + Block(b, o)
  {
    var live' := live[b := o];
    forall q | q in LivePages(live) + Block(b, o) ensures q in LivePages(live') {
      if q in LivePages(live) {
        var c :| c in live && q in Block(c, live[c]);
        assert c in live' && live'[c] == live[c];
      } else {
        assert b in live' && q in Block(b, live'[b]);
      }
    }
    forall q | q in LivePages(live') ensures q in LivePages(live) + Block(b, o) {
      var c :| c in live' && q in Block(c, live'[c]);
      if c != b { assert c in live && q in Block(c, live[c]); }
    }
  }

  lemma StepConserves(h: Heap, op: Op, h': Heap)
    requires HeapOk(h) && Step(h, op, h')
    ensures HeapOk(h') && h'.free + LivePages(h'.live) == h.free + LivePages(h.live)
  {
    match op
    case AllocOp(zone, b, o) =>
      LivePagesAdd(h.live, b, o);
      forall c | c in h.live ensures Block(c, h.live[c]) !! Block(b, o) {
        forall q | q in Block(c, h.live[c]) ensures q in LivePages(h.live) {
        }
      }
    case FreeOp(b) =>
      var o := h.live[b];
      assert h.live == h'.live[b := o];
      LivePagesAdd(h'.live, b, o);
      forall q | q in LivePages(h'.live) ensures q !in Block(b, o) {
        var c :| c in h'.live && q in Block(c, h'.live[c]);
        assert c in h.live && c != b;
      }
  }

  /** Over every run, free and live pages stay disjoint and their union is constant. */
  lemma {:induction false} RunConserves(hs: seq<Heap>, ops: seq<Op>)
    requires Run(hs, ops) && HeapOk(hs[0])
    ensures HeapOk(hs[|ops|])
    ensures hs[|ops|].free + LivePages(hs[|ops|].live) == hs[0].free + LivePages(hs[0].live)
    decreases |ops|
  {
    if ops != [] {
      var n := |ops| - 1;
      RunConserves(hs[..n + 1], ops[..n]);
      StepConserves(hs[n], ops[n], hs[n + 1]);
    }
  }

  /** The order of operations is irrelevant: runs from the same heap that leave the same blocks
      live leave the same free pages, hence (`SameFreePagesSameLists`) the same free lists. */
  lemma RunsAgree(hs: seq<Heap>, ops: seq<Op>, hs': seq<Heap>, ops': seq<Op>)
    requires Run(hs, ops) && Run(hs', ops') && hs[0] == hs'[0] && HeapOk(hs[0])
    requires hs[|ops|].live == hs'[|ops'|].live
    ensures hs[|ops|] == hs'[|ops'|]
  {
    RunConserves(hs, ops);
    RunConserves(hs', ops');
    var h, h' := hs[|ops|], hs'[|ops'|];
    assert h.free == (h.free + LivePages(h.live)) - LivePages(h.live);
    assert h'.free == (h'.free + LivePages(h'.live)) - LivePages(h'.live);
  }

  /** The same statement about the allocator's own state: whatever two histories led to the
      descriptors and lists, the same live blocks mean the same free blocks in every area. */
  lemma HistoriesAgree(hs: seq<Heap>, ops: seq<Op>, hs': seq<Heap>, ops': seq<Op>,
                       pg: seq<Page>, ar: Areas, pg': seq<Page>, ar': Areas, a: Area)
    requires Run(hs, ops) && Run(hs', ops') && hs[0] == hs'[0] && HeapOk(hs[0])
    requires Valid(pg, ar) && Valid(pg', ar') && a.order <= MAX_ORDER
    requires hs[|ops|] == HeapOf(pg) && hs'[|ops'|] == HeapOf(pg')
    requires Live(pg) == Live(pg')
    ensures Elems(ar[a].list) == Elems(ar'[a].list) && ar[a].nrFree == ar'[a].nrFree
  {
    RunsAgree(hs, ops, hs', ops');
    SameFreePagesSameLists(pg, ar, pg', ar', a);
  }

  /** Freeing what was just allocated undoes the allocation. */
  lemma AllocThenFree(h: Heap, mid: Heap, h': Heap, zone: Zone, b: nat, o: nat)
    requires AllocStep(h, mid, zone, b, o) && FreeStep(mid, h', b)
    ensures h' == h
  {
  }

  /** A coherent allocator state is a well-formed heap, so the run theorems apply to it. */
  lemma ValidHeap(pg: seq<Page>, ar: Areas)
    requires Valid(pg, ar)
    ensures HeapOk(HeapOf(pg))
  {
    var h := HeapOf(pg);
    forall b | b in h.live ensures BlockOk(pg, b, h.live[b], Allocated) {
      LiveHead(pg, ar, b);
    }
    forall b, c, q | b in h.live && c in h.live && q in Block(b, h.live[b]) && q in Block(c, h.live[c])
      ensures b == c
    {
      BaseUnique(q, b, h.live[b]);
      BaseUnique(q, c, h.live[c]);
      assert InBlock(q, b, h.live[b]) && InBlock(q, c, h.live[c]);
      var m := if b < c then c else b;
      assert InBlock(m, b, h.live[b]) && InBlock(m, c, h.live[c]);
    }
  }
}
