/** Identifiers drawn from a bitmap with a hint for the next free one: the pids. */
module Ids {
  import opened Bits

  /** The least identifier at or above `from` and below `max` that is not used, or -1. */
  function LeastClear(used: set<nat>, from: nat, max: nat): int
    decreases max - from
  {
    if from >= max then -1
    else if from !in used then from
    else LeastClear(used, from + 1, max)
  }

  /** The result is unused and least, and -1 means that every identifier is used. */
  lemma {:induction false} LeastClearFacts(used: set<nat>, from: nat, max: nat)
    ensures var r := LeastClear(used, from, max);
            && -1 <= r
            && (r >= 0 ==> from <= r < max && r !in used && forall i: nat :: from <= i < r ==> i in used)
            && (r == -1 ==> forall i: nat :: from <= i < max ==> i in used)
    decreases max - from
  {
    if from < max { LeastClearFacts(used, from + 1, max); }
  }

  lemma LeastClearIs(used: set<nat>, from: nat, max: nat, r: int)
    requires forall i: nat :: from <= i < max && (r < 0 || i < r) ==> i in used
    requires r == -1 || (from <= r < max && r !in used)
    ensures LeastClear(used, from, max) == r
  {
    LeastClearFacts(used, from, max);
  }

  // ---------------------------------------------------------------- bits of a byte

  predicate Bit(b: nat, j: nat)
    decreases j
  {
    if j == 0 then b % 2 == 1 else Bit(b / 2, j - 1)
  }

  /** `b | 1 << j` and `b & ~(1 << j)`. */
  function WithBit(b: nat, j: nat, v: bool): nat
    decreases j
  {
    if j == 0 then b / 2 * 2 + (if v then 1 else 0) else b % 2 + 2 * WithBit(b / 2, j - 1, v)
  }

  lemma {:induction false} WithBitRange(b: nat, j: nat, v: bool, n: nat)
    requires b < Pow2(n) && j < n
    ensures WithBit(b, j, v) < Pow2(n)
    decreases n
  {
    var m := Pow2(n - 1);
    assert Pow2(n) == 2 * m;
    if j == 0 {
      assert WithBit(b, 0, v) <= b / 2 * 2 + 1;
    } else {
      WithBitRange(b / 2, j - 1, v, n - 1);
      var w := WithBit(b / 2, j - 1, v);
      assert WithBit(b, j, v) == b % 2 + 2 * w && w < m;
    }
  }

  lemma {:induction false} WithBitFacts(b: nat, j: nat, v: bool, k: nat)
    ensures Bit(WithBit(b, j, v), k) == if k == j then v else Bit(b, k)
    decreases j
  {
    if j > 0 && k > 0 {
      WithBitFacts(b / 2, j - 1, v, k - 1);
      assert WithBit(b, j, v) / 2 == WithBit(b / 2, j - 1, v);
    }
  }

  /** All bits of the byte 255 are set: the scan may skip it. */
  lemma {:induction false} FullBits(b: nat, n: nat, j: nat)
    requires b == Pow2(n) - 1 && j < n
    ensures Bit(b, j)
    decreases n
  {
    assert b % 2 == 1 && b / 2 == Pow2(n - 1) - 1;
    if j > 0 { FullBits(b / 2, n - 1, j - 1); }
  }

  // ---------------------------------------------------------------- the manager

  ghost predicate BitAt(data: seq<nat>, i: nat) {
    i / 8 < |data| && Bit(data[i / 8], i % 8)
  }

  ghost function UsedOf(data: seq<nat>, n: nat): set<nat> {
    set i: nat | i < n && BitAt(data, i)
  }

  function Signed(x: nat): int
    requires x < 0x1_0000_0000
  {
    if x < 0x8000_0000 then x else x - 0x1_0000_0000
  }

  lemma UsedAfter(data: seq<nat>, n: nat, i: nat, v: bool)
    requires i < n && i / 8 < |data| && data[i / 8] < 256
    ensures UsedOf(data[i / 8 := WithBit(data[i / 8], i % 8, v)], n)
            == if v then UsedOf(data, n) + {i} else UsedOf(data, n) - {i}
    ensures WithBit(data[i / 8], i % 8, v) < 256
  {
    var data' := data[i / 8 := WithBit(data[i / 8], i % 8, v)];
    assert Pow2(8) == 256 by { assert Pow2(4) == 16; assert Pow2(8) == 16 * Pow2(4); }
    forall k: nat | k < n ensures BitAt(data', k) <==> if k == i then v else BitAt(data, k) {
      if k / 8 == i / 8 { WithBitFacts(data[i / 8], i % 8, v, k % 8); }
    }
    WithBitRange(data[i / 8], i % 8, v, 8);
    assert UsedOf(data', n) == if v then UsedOf(data, n) + {i} else UsedOf(data, n) - {i};
  }

  class IdManager {
    const nbBits: nat
    const data: array<nat>
    var nextFree: int

    /** The bitmap is well formed: one bit per identifier, bytes below 256. */
    ghost predicate Shape()
      reads data
    {
      && data.Length == (nbBits + 7) / 8 && nbBits < 0x8000_0000
      && forall i :: 0 <= i < data.Length ==> data[i] < 256
    }

    ghost function Used(): set<nat>
      reads data
    {
      UsedOf(data[..], nbBits)
    }

    /** The hint is the least clear bit, or -1 when there is none. */
    ghost predicate Valid()
      reads this, data
    {
      Shape() && nextFree == LeastClear(Used(), 0, nbBits)
    }

    constructor (maxId: nat)
      requires maxId < 0x8000_0000
      ensures Shape() && fresh(data) && Used() == {} && nbBits == maxId
      ensures Valid() <==> maxId > 0
    {
      nbBits := maxId;
      data := new nat[(maxId + 7) / 8](_ => 0);
      nextFree := 0;
      new;
      forall i: nat | i < nbBits ensures !BitAt(data[..], i) {
        ZeroByte(i % 8);
      }
    }

    /** The byte-skipping scan of `bitmap_find_next_zero_from` finds the least clear bit. */
    method FindNextZeroFrom(start: nat) returns (r: int)
      requires Shape()
      ensures r == LeastClear(Used(), start, nbBits)
    {
      if start >= nbBits {
        return -1;
      }
      var i := start / 8;
      while i < data.Length
        invariant start / 8 <= i <= data.Length
        invariant forall k: nat :: start <= k < 8 * i && k < nbBits ==> k in Used()
      {
        if data[i] != 255 {
          var j := if i == start / 8 then start % 8 else 0;
          while j < 8
            invariant (if i == start / 8 then start % 8 else 0) <= j <= 8
            invariant forall k: nat :: start <= k < 8 * i + j && k < nbBits ==> k in Used()
          {
            assert (8 * i + j) / 8 == i && (8 * i + j) % 8 == j;
            if !Bit(data[i], j) {
              var index := i * 8 + j;
              assert index < nbBits ==> index !in Used();
              if index >= nbBits {
                LeastClearIs(Used(), start, nbBits, -1);
                return -1;
              }
              LeastClearIs(Used(), start, nbBits, index);
              return index;
            }
            assert BitAt(data[..], 8 * i + j);
            j := j + 1;
          }
        } else {
          assert Pow2(8) == 256 by { assert Pow2(4) == 16; assert Pow2(8) == 16 * Pow2(4); }
          forall k: nat | 8 * i <= k < 8 * i + 8 && k < nbBits ensures k in Used() {
            FullBits(data[i], 8, k % 8);
            assert BitAt(data[..], k);
          }
        }
        i := i + 1;
      }
      LeastClearIs(Used(), start, nbBits, -1);
      return -1;
    }

    method Write(i: nat, v: bool)
      requires Shape() && i < nbBits
      modifies data
      ensures Shape() && Used() == if v then old(Used()) + {i} else old(Used()) - {i}
    {
      UsedAfter(data[..], nbBits, i, v);
      ghost var was := data[..];
      data[i / 8] := WithBit(data[i / 8], i % 8, v);
      assert data[..] == was[i / 8 := WithBit(was[i / 8], i % 8, v)];
    }

    /** Moves the hint past identifier `a`, which was the least clear one and is now used. */
    method Advance(a: nat)
      requires Shape() && a in Used() && forall k: nat :: k < a ==> k in Used()
      modifies this
      ensures Valid()
    {
      nextFree := FindNextZeroFrom(a + 1);
      LeastClearFacts(Used(), a + 1, nbBits);
      LeastClearIs(Used(), 0, nbBits, nextFree);
      if nextFree == -1 {
        nextFree := FindNextZeroFrom(0);
        assert nextFree == -1;  // the second scan never finds anything
      }
    }

    /** `id_manager_alloc` returns the least unused identifier and marks it, or -1. */
    method Alloc() returns (id: int)
      requires Valid()
      modifies this, data
      ensures Valid() && id == LeastClear(old(Used()), 0, nbBits)
      ensures Used() == if id == -1 then old(Used()) else old(Used()) + {id}
    {
      LeastClearFacts(Used(), 0, nbBits);
      if nextFree == -1 {
        return -1;
      }
      id := nextFree;
      Write(id, true);
      Advance(id);
    }

    /** `id_manager_free` clears the bit. The hint stays right exactly when the identifier is in
        range, or out of range but not taken as the new hint. */
    method Free(id: nat)
      requires Valid() && id < 0x1_0000_0000
      modifies this, data
      ensures Shape() && Used() == old(Used()) - {id}
      ensures Valid() <==> || id < nbBits
                           || (if old(nextFree) == -1 then id == 0xFFFF_FFFF else id < 0x8000_0000)
    {
      LeastClearFacts(Used(), 0, nbBits);
      if id < nbBits {
        Write(id, false);
      }
      LeastClearFacts(Used(), 0, nbBits);
      if nextFree == -1 || Signed(id) < nextFree {
        nextFree := Signed(id);
      }
      if id < nbBits {
        LeastClearIs(Used(), 0, nbBits, nextFree);
      }
    }

    /** `id_manager_reserve_id` succeeds exactly on an unused identifier in range. */
    method Reserve(id: nat) returns (ok: bool)
      requires Valid()
      modifies this, data
      ensures Valid() && ok == (id < nbBits && id !in old(Used()))
      ensures Used() == if ok then old(Used()) + {id} else old(Used())
    {
      if id >= nbBits || Bit(data[id / 8], id % 8) {
        assert id < nbBits ==> BitAt(data[..], id);
        return false;
      }
      assert !BitAt(data[..], id);
      LeastClearFacts(Used(), 0, nbBits);
      ghost var hint := nextFree;
      Write(id, true);
      if id == nextFree {
        Advance(id);
      } else {
        LeastClearIs(Used(), 0, nbBits, hint);
      }
      return true;
    }
  }

  lemma {:induction false} ZeroByte(j: nat)
    ensures !Bit(0, j)
  {
    if j > 0 { ZeroByte(j - 1); }
  }
}
