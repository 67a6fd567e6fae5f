/** Powers of two, aligned bases and exclusive-or on natural numbers.

    `Base(q, o)` is `q` with its `o` low bits cleared. It is defined by halving, so that every
    law below is a linear induction. */
module Bits {

  function Pow2(n: nat): (r: nat)
    ensures r >= 1
  {
    if n == 0 then 1 else 2 * Pow2(n - 1)
  }

  function Base(q: nat, o: nat): nat
    decreases o
  {
    if o == 0 then q else 2 * Base(q / 2, o - 1)
  }

  ghost predicate InBlock(q: nat, b: nat, o: nat) {
    b <= q < b + Pow2(o)
  }

  function Xor(a: nat, b: nat): nat {
    if a == 0 && b == 0 then 0
    else (if a % 2 == b % 2 then 0 else 1) + 2 * Xor(a / 2, b / 2)
  }

  /** The other half of the order `o + 1` block that holds the block at `b`. */
  function Sibling(b: nat, o: nat): nat {
    if Base(b, o + 1) == b then b + Pow2(o)
    else if b >= Pow2(o) then b - Pow2(o)
    else 0
  }

  lemma {:induction false} BaseContains(q: nat, o: nat)
    ensures InBlock(q, Base(q, o), o)
    decreases o
  {
    if o > 0 { BaseContains(q / 2, o - 1); }
  }

  /** A number that keeps its value when the `o` low bits are cleared is a multiple of `2^o`. */
  lemma {:induction false} BaseMultiple(q: nat, o: nat)
    ensures Base(q, o) == q <==> q % Pow2(o) == 0
    decreases o
  {
    if o > 0 {
      BaseMultiple(q / 2, o - 1);
      HalfMultiple(q, Pow2(o - 1));
    }
  }

  lemma HalfMultiple(q: nat, p: nat)
    requires p > 0
    ensures q % (2 * p) == 0 <==> q % 2 == 0 && (q / 2) % p == 0
  {
    var k, r := q / (2 * p), q % (2 * p);
    DivIs(q, 2 * p);
    assert q == 2 * (p * k) + r;
    assert q / 2 == p * k + r / 2 && q % 2 == r % 2;
    ModIs(k, r / 2, p);
  }

  lemma DivIs(q: nat, d: nat)
    requires d > 0
    ensures q == d * (q / d) + q % d
  {
  }

  lemma {:induction false} TimesApart(p: nat, j: nat, k: nat)
    requires j < k
    ensures p * j + p <= p * k
    decreases k
  {
    assert p * k == p * (k - 1) + p;
    if j < k - 1 { TimesApart(p, j, k - 1); }
  }

  lemma ModIs(k: nat, r: nat, p: nat)
    requires r < p
    ensures (p * k + r) % p == r
  {
    var q := p * k + r;
    var j := q / p;
    DivIs(q, p);
    if k > j { TimesApart(p, j, k); }
    if j > k { TimesApart(p, k, j); }
  }

  lemma {:induction false} BaseUnique(q: nat, b: nat, o: nat)
    requires Base(b, o) == b && InBlock(q, b, o)
    ensures Base(q, o) == b
    decreases o
  {
    if o > 0 { BaseUnique(q / 2, b / 2, o - 1); }
  }

  lemma {:induction false} BaseNest(q: nat, o: nat, o': nat)
    requires o <= o'
    ensures Base(Base(q, o), o') == Base(q, o')
    decreases o
  {
    if o > 0 {
      BaseNest(q / 2, o - 1, o' - 1);
      assert Base(q, o) / 2 == Base(q / 2, o - 1);
    }
  }

  /** Clearing one more bit keeps the base or moves it down by exactly one block. */
  lemma {:induction false} BaseStep(q: nat, o: nat)
    ensures Base(q, o + 1) == Base(q, o) || Base(q, o + 1) + Pow2(o) == Base(q, o)
    decreases o
  {
    if o > 0 { BaseStep(q / 2, o - 1); }
    assert Base(q, 1) == 2 * Base(q / 2, 0);
  }

  lemma BaseTwo(q: nat, o: nat)
    ensures Base(q, o + 2) == 4 * Base(q / 4, o)
    ensures Pow2(o + 2) == 4 * Pow2(o)
  {
  }

  /** At order 10 the base is the multiple of 1024 below `q`. */
  lemma Base1024(q: nat)
    ensures Base(q, 10) == 1024 * (q / 1024)
    ensures Pow2(10) == 1024
  {
    BaseTwo(q, 8);
    BaseTwo(q / 4, 6);
    BaseTwo(q / 4 / 4, 4);
    BaseTwo(q / 4 / 4 / 4, 2);
    BaseTwo(q / 4 / 4 / 4 / 4, 0);
    assert q / 4 / 4 / 4 / 4 / 4 == q / 1024;
  }

  lemma {:induction false} PowMonotone(o: nat, o': nat)
    requires o <= o'
    ensures Pow2(o) <= Pow2(o')
  {
    if o < o' { PowMonotone(o, o' - 1); }
  }

  /** Two aligned blocks are nested or disjoint: the block of `q` at a higher order holds the whole
      block of `q` at a lower one. */
  lemma {:induction false} BlockNest(q: nat, o: nat, o': nat)
    requires o <= o'
    ensures Base(q, o') <= Base(q, o)
    ensures Base(q, o) + Pow2(o) <= Base(q, o') + Pow2(o')
    decreases o' - o
  {
    if o < o' {
      BlockNest(q, o, o' - 1);
      BaseStep(q, o' - 1);
    }
  }

  lemma SiblingFacts(b: nat, o: nat)
    requires Base(b, o) == b
    ensures var s := Sibling(b, o);
            Base(s, o) == s && Base(s, o + 1) == Base(b, o + 1) && s != b && Sibling(s, o) == b
    ensures Base(b, o + 1) == if Sibling(b, o) < b then Sibling(b, o) else b
  {
    BaseStep(b, o);
    var p := Base(b, o + 1);
    BaseNest(b, o + 1, o + 1);
    BaseContains(b, o + 1);
    BaseDown(p, o);
    var s := Sibling(b, o);
    assert InBlock(s, p, o + 1);
    BaseUnique(s, p, o + 1);
    if s != p { BaseAdd(p, o); }
  }

  /** An aligned number stays aligned at the order below. */
  lemma {:induction false} BaseDown(p: nat, o: nat)
    requires Base(p, o + 1) == p
    ensures Base(p, o) == p
    decreases o
  {
    if o > 0 {
      BaseDown(p / 2, o - 1);
    }
  }

  lemma {:induction false} BaseAdd(p: nat, o: nat)
    requires Base(p, o) == p
    ensures Base(p + Pow2(o), o) == p + Pow2(o)
    decreases o
  {
    if o > 0 {
      BaseAdd(p / 2, o - 1);
      assert (p + Pow2(o)) / 2 == p / 2 + Pow2(o - 1);
    }
  }

  lemma {:induction false} XorSibling(b: nat, o: nat)
    requires Base(b, o) == b
    ensures Xor(b, Pow2(o)) == Sibling(b, o)
    decreases o
  {
    if o == 0 {
      assert Base(b, 1) == 2 * Base(b / 2, 0);
      XorZero(b / 2);
      assert Xor(b, 1) == (if b % 2 == 1 then 0 else 1) + 2 * Xor(b / 2, 0);
    } else {
      XorSibling(b / 2, o - 1);
      assert Pow2(o) % 2 == 0 && Pow2(o) / 2 == Pow2(o - 1);
      assert b % 2 == 0;
    }
  }

  lemma {:induction false} XorZero(a: nat)
    ensures Xor(a, 0) == a
  {
    if a > 0 { XorZero(a / 2); }
  }

  /** Exclusive-or with whole pages acts on the page number and keeps the offset in the page. */
  lemma XorPages(a: nat, r: nat, b: nat)
    requires r < 4096
    ensures Xor(4096 * a + r, 4096 * b) == 4096 * Xor(a, b) + r
  {
    hide Xor;
    XorByte(a, r / 64, b);
    XorByte(64 * a + r / 64, r % 64, 64 * b);
  }

  lemma XorByte(a: nat, r: nat, b: nat)
    requires r < 64
    ensures Xor(64 * a + r, 64 * b) == 64 * Xor(a, b) + r
  {
    hide Xor;
    XorDigits(a, r / 16, r / 4 % 4, r % 4, b);
    assert r == 16 * (r / 16) + 4 * (r / 4 % 4) + r % 4;
  }

  lemma XorDigits(a: nat, x: nat, y: nat, z: nat, b: nat)
    requires x < 4 && y < 4 && z < 4
    ensures Xor(64 * a + 16 * x + 4 * y + z, 64 * b) == 64 * Xor(a, b) + 16 * x + 4 * y + z
  {
    hide Xor;
    XorQuad(a, x, b);
    XorQuad(4 * a + x, y, 4 * b);
    XorQuad(16 * a + 4 * x + y, z, 16 * b);
  }

  lemma XorQuad(a: nat, c: nat, b: nat)
    requires c < 4
    ensures Xor(4 * a + c, 4 * b) == 4 * Xor(a, b) + c
  {
    XorDouble(2 * a + c / 2, c % 2, 2 * b);
    XorDouble(a, c / 2, b);
  }

  lemma XorDouble(a: nat, c: nat, b: nat)
    requires c < 2
    ensures Xor(2 * a + c, 2 * b) == 2 * Xor(a, b) + c
  {
  }
}
