/** What linking, unlinking and marking one block do to the coherence of the allocator.

    An operation holds a range of pages in flight, on no list: allocation takes a listed block and
    puts its upper halves back; freeing takes the buddies it merges with and puts the result back. */
module BuddySteps {
  import opened Bits
  import opened Lists
  import opened BuddyState

  function Unlink(ar: Areas, b: nat, o: nat): Areas
    requires Area(ZoneOf(b), o) in ar
  {
    var a := Area(ZoneOf(b), o);
    ar[a := FreeArea(Remove(ar[a].list, b), ar[a].nrFree - 1)]
  }

  function Link(ar: Areas, b: nat, o: nat): Areas
    requires Area(ZoneOf(b), o) in ar
  {
    var a := Area(ZoneOf(b), o);
    ar[a := FreeArea([b] + ar[a].list, ar[a].nrFree + 1)]
  }

  lemma UnlinkListed(ar: Areas, b: nat, o: nat)
    requires AreasOk(ar) && Listed(ar, b, o)
    ensures AreasOk(Unlink(ar, b, o))
    ensures forall c: nat, p: nat ::
              Listed(Unlink(ar, b, o), c, p) <==> Listed(ar, c, p) && (c, p) != (b, o)
  {
    var a := Area(ZoneOf(b), o);
    RemoveFacts(ar[a].list, b);
    var ar' := Unlink(ar, b, o);
    forall x | x in ar' ensures AreaOk(x, ar'[x]) {
      assert AreaOk(x, ar[x]);
    }
  }

  lemma LinkListed(ar: Areas, b: nat, o: nat)
    requires AreasOk(ar) && o <= MAX_ORDER && !Listed(ar, b, o)
    ensures AreasOk(Link(ar, b, o))
    ensures forall c: nat, p: nat ::
              Listed(Link(ar, b, o), c, p) <==> Listed(ar, c, p) || (c, p) == (b, o)
  {
  }

  /** Two listed blocks have no page in common. */
  lemma ListedApart(pg: seq<Page>, ar: Areas, lo: nat, hi: nat, b: nat, o: nat, c: nat, p: nat)
    requires ListedOk(pg, ar, lo, hi)
    requires Listed(ar, b, o) && Listed(ar, c, p) && (c, p) != (b, o)
    ensures Apart(c, p, b, b + Pow2(o))
  {
  }

  /** A live block and a listed block have no page in common. */
  lemma LiveApart(pg: seq<Page>, b: nat, o: nat, c: nat, p: nat)
    requires BlockOk(pg, b, o, Free) && BlockOk(pg, c, p, Allocated)
    ensures Apart(c, p, b, b + Pow2(o))
  {
  }

  ghost predicate Joined(lo: nat, hi: nat, b: nat, o: nat, lo': nat, hi': nat) {
    || (hi <= lo && lo' == b && hi' == b + Pow2(o))
    || (lo < hi == b && lo' == lo && hi' == b + Pow2(o))
    || (lo < hi && b + Pow2(o) == lo && lo' == b && hi' == hi)
  }

  /** Taking a listed block in flight, joined to what was in flight already. */
  lemma TakeBlock(pg: seq<Page>, ar: Areas, lo: nat, hi: nat, b: nat, o: nat, lo': nat, hi': nat)
    requires Coherent(pg, ar, lo, hi) && Listed(ar, b, o) && Joined(lo, hi, b, o, lo', hi')
    ensures Coherent(pg, Unlink(ar, b, o), lo', hi')
  {
    var ar' := Unlink(ar, b, o);
    UnlinkListed(ar, b, o);
    assert BlockOk(pg, b, o, Free);
    forall c: nat, p: nat | Listed(ar', c, p)
      ensures BlockOk(pg, c, p, Free) && Apart(c, p, lo', hi')
    {
      assert Listed(ar, c, p);
      ListedApart(pg, ar, lo, hi, b, o, c, p);
    }
    forall q | 0 <= q < |pg| && pg[q].state == Free && Outside(q, lo', hi')
      ensures CoveredFree(ar', q)
    {
      assert CoveredFree(ar, q);
      var p: nat :| p <= MAX_ORDER && Listed(ar, Base(q, p), p);
      BaseContains(q, p);
      assert Listed(ar', Base(q, p), p);
    }
    forall q | 0 <= q < |pg| && pg[q].state == Allocated && Outside(q, lo', hi')
      ensures CoveredLive(pg, q, lo', hi')
    {
      assert CoveredLive(pg, q, lo, hi);
      var p: nat :| BlockOk(pg, Base(q, p), p, Allocated) && Apart(Base(q, p), p, lo, hi);
      LiveApart(pg, b, o, Base(q, p), p);
      assert Apart(Base(q, p), p, lo', hi');
    }
  }

  lemma BlockKept(pg: seq<Page>, b: nat, o: nat, st: PageState, c: nat, p: nat, st': PageState)
    requires BlockOk(pg, c, p, st') && Apart(c, p, b, b + Pow2(o))
    ensures BlockOk(Marked(pg, b, o, st), c, p, st')
  {
  }

  lemma LiveKept(pg: seq<Page>, lo: nat, hi: nat, b: nat, o: nat, st: PageState,
                 lo': nat, hi': nat, q: nat)
    requires LiveOk(pg, lo, hi)
    requires lo <= b && b + Pow2(o) <= hi && (hi' <= lo' || (lo <= lo' && hi' <= hi))
    requires q < |pg| && pg[q].state == Allocated && Outside(q, lo, hi)
    ensures CoveredLive(Marked(pg, b, o, st), q, lo', hi')
  {
    assert CoveredLive(pg, q, lo, hi);
    var p: nat :| BlockOk(pg, Base(q, p), p, Allocated) && Apart(Base(q, p), p, lo, hi);
    BlockKept(pg, b, o, st, Base(q, p), p, Allocated);
    assert Apart(Base(q, p), p, lo', hi');
  }

  lemma PutListedOk(pg: seq<Page>, ar: Areas, lo: nat, hi: nat, b: nat, o: nat)
    requires Coherent(pg, ar, lo, hi) && !Listed(ar, b, o)
    requires lo <= b && b + Pow2(o) == hi <= MAX_PAGES && o <= MAX_ORDER && Base(b, o) == b
    ensures ListedOk(Marked(pg, b, o, Free), Link(ar, b, o), lo, b)
  {
    var pg', ar' := Marked(pg, b, o, Free), Link(ar, b, o);
    LinkListed(ar, b, o);
    forall c: nat, p: nat | Listed(ar', c, p)
      ensures BlockOk(pg', c, p, Free) && Apart(c, p, lo, b)
    {
      if (c, p) != (b, o) {
        assert Listed(ar, c, p);
        BlockKept(pg, b, o, Free, c, p, Free);
      }
    }
  }

  lemma PutFreeOk(pg: seq<Page>, ar: Areas, lo: nat, hi: nat, b: nat, o: nat)
    requires Coherent(pg, ar, lo, hi) && !Listed(ar, b, o)
    requires lo <= b && b + Pow2(o) == hi <= MAX_PAGES && o <= MAX_ORDER && Base(b, o) == b
    ensures FreeOk(Marked(pg, b, o, Free), Link(ar, b, o), lo, b)
  {
    var pg', ar' := Marked(pg, b, o, Free), Link(ar, b, o);
    LinkListed(ar, b, o);
    forall q | 0 <= q < |pg'| && pg'[q].state == Free && Outside(q, lo, b)
      ensures CoveredFree(ar', q)
    {
      if InBlock(q, b, o) {
        BaseUnique(q, b, o);
        assert Listed(ar', Base(q, o), o);
      } else {
        assert CoveredFree(ar, q);
        var p: nat :| p <= MAX_ORDER && Listed(ar, Base(q, p), p);
        assert Listed(ar', Base(q, p), p);
      }
    }
  }

  lemma PutLiveOk(pg: seq<Page>, ar: Areas, lo: nat, hi: nat, b: nat, o: nat)
    requires Coherent(pg, ar, lo, hi) && !Listed(ar, b, o)
    requires lo <= b && b + Pow2(o) == hi <= MAX_PAGES && o <= MAX_ORDER && Base(b, o) == b
    ensures LiveOk(Marked(pg, b, o, Free), lo, b)
  {
    var pg', ar' := Marked(pg, b, o, Free), Link(ar, b, o);
    LinkListed(ar, b, o);
    forall q | 0 <= q < |pg'| && pg'[q].state == Allocated && Outside(q, lo, b)
      ensures CoveredLive(pg', q, lo, b)
    {
      LiveKept(pg, lo, hi, b, o, Free, lo, b, q);
    }
  }

  /** Putting the top block of what is in flight on its free list. Its buddy must not be there. */
  lemma PutBlock(pg: seq<Page>, ar: Areas, lo: nat, hi: nat, b: nat, o: nat)
    requires Coherent(pg, ar, lo, hi)
    requires lo <= b && b + Pow2(o) == hi <= MAX_PAGES && o <= MAX_ORDER && Base(b, o) == b
    requires o < MAX_ORDER ==> !Listed(ar, Sibling(b, o), o)
    ensures Coherent(Marked(pg, b, o, Free), Link(ar, b, o), lo, b)
  {
    hide FreeOk, LiveOk, Merged, Pow2, Base;
    var pg', ar' := Marked(pg, b, o, Free), Link(ar, b, o);
    assert !Listed(ar, b, o) by { assert Listed(ar, b, o) ==> Apart(b, o, lo, hi); }
    LinkListed(ar, b, o);
    PutListedOk(pg, ar, lo, hi, b, o);
    PutFreeOk(pg, ar, lo, hi, b, o);
    PutLiveOk(pg, ar, lo, hi, b, o);
    PutMerged(pg, ar, lo, hi, b, o);
  }

  lemma PutMerged(pg: seq<Page>, ar: Areas, lo: nat, hi: nat, b: nat, o: nat)
    requires Coherent(pg, ar, lo, hi) && o <= MAX_ORDER && Base(b, o) == b && !Listed(ar, b, o)
    requires o < MAX_ORDER ==> !Listed(ar, Sibling(b, o), o)
    ensures Merged(Link(ar, b, o))
  {
    var ar' := Link(ar, b, o);
    LinkListed(ar, b, o);
    forall c: nat, p: nat | Listed(ar', c, p) && p < MAX_ORDER
      ensures !Listed(ar', Sibling(c, p), p)
    {
      if (c, p) == (b, o) {
        SiblingFacts(b, o);
      } else {
        assert Listed(ar, c, p) && BlockOk(pg, c, p, Free);
        SiblingFacts(c, p);
        assert !Listed(ar, Sibling(c, p), p);
      }
    }
  }

  /** Handing out the block that is in flight. */
  lemma ClaimBlock(pg: seq<Page>, ar: Areas, b: nat, o: nat)
    requires Coherent(pg, ar, b, b + Pow2(o))
    requires o <= MAX_ORDER && Base(b, o) == b && b + Pow2(o) <= MAX_PAGES
    ensures Valid(Marked(pg, b, o, Allocated), ar)
  {
    hide Pow2, Base, Listed, Merged, AreasOk;
    var pg' := Marked(pg, b, o, Allocated);
    forall c: nat, p: nat | Listed(ar, c, p)
      ensures BlockOk(pg', c, p, Free) && Apart(c, p, 0, 0)
    {
      BlockKept(pg, b, o, Allocated, c, p, Free);
    }
    forall q | 0 <= q < |pg'| && pg'[q].state == Free && Outside(q, 0, 0)
      ensures CoveredFree(ar, q)
    {
      assert pg[q].state == Free;
    }
    forall q | 0 <= q < |pg'| && pg'[q].state == Allocated && Outside(q, 0, 0)
      ensures CoveredLive(pg', q, 0, 0)
    {
      ClaimedLive(pg, b, o, q);
    }
  }

  lemma ClaimedLive(pg: seq<Page>, b: nat, o: nat, q: nat)
    requires |pg| == MAX_PAGES && LiveOk(pg, b, b + Pow2(o)) && o <= MAX_ORDER && Base(b, o) == b
    requires b + Pow2(o) <= MAX_PAGES && q < |pg| && Marked(pg, b, o, Allocated)[q].state == Allocated
    ensures CoveredLive(Marked(pg, b, o, Allocated), q, 0, 0)
  {
    hide Pow2, Base;
    var pg' := Marked(pg, b, o, Allocated);
    if InBlock(q, b, o) {
      BaseUnique(q, b, o);
      assert BlockOk(pg', b, o, Allocated);
      assert BlockOk(pg', Base(q, o), o, Allocated) && Apart(Base(q, o), o, 0, 0);
    } else {
      LiveKept(pg, b, b + Pow2(o), b, o, Allocated, 0, 0, q);
    }
  }

  /** With nothing in flight, the bounds of the empty range do not matter. */
  lemma NothingInFlight(pg: seq<Page>, ar: Areas, lo: nat, lo': nat)
    requires Coherent(pg, ar, lo, lo)
    ensures Coherent(pg, ar, lo', lo')
  {
    forall q | 0 <= q < |pg| && pg[q].state == Free && Outside(q, lo', lo')
      ensures CoveredFree(ar, q)
    {
    }
    forall q | 0 <= q < |pg| && pg[q].state == Allocated && Outside(q, lo', lo')
      ensures CoveredLive(pg, q, lo', lo')
    {
      assert CoveredLive(pg, q, lo, lo);
      var p: nat :| BlockOk(pg, Base(q, p), p, Allocated) && Apart(Base(q, p), p, lo, lo);
      assert Apart(Base(q, p), p, lo', lo');
    }
  }
}
