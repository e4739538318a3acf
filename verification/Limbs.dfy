/** Numbers as sequences of 32-bit limbs, least significant first. */
module Limbs {
  import opened Products

  const LIMB: nat := 0x1_0000_0000
  const TWO_64: nat := 0x1_0000_0000_0000_0000

  type Limb = x: nat | x < LIMB

  // ---------------------------------------------------------------------------------------------
  // Powers of two

  lemma {:induction false} Pow2Add(a: nat, b: nat)
    ensures Pow2(a + b) == Pow2(a) * Pow2(b)
  {
    if b == 0 {
      assert Pow2(0) == 1;
    } else {
      Pow2Add(a, b - 1);
      MulAssoc(2, Pow2(a), Pow2(b - 1));
      MulAssoc(Pow2(a), 2, Pow2(b - 1));
      assert 2 * Pow2(a) == Pow2(a) * 2;
      assert Pow2(a + b) == 2 * Pow2(a + (b - 1));
    }
  }

  lemma Pow2Limb()
    ensures Pow2(32) == LIMB
  {
    assert Pow2(8) == 256;
    Pow2Add(8, 8);
    Pow2Add(16, 16);
    assert Pow2(16) == 65536;
  }

  lemma {:induction false} Pow2Mono(a: nat, b: nat)
    requires a <= b
    ensures Pow2(a) <= Pow2(b)
  {
    Pow2Add(a, b - a);
    MulMono(1, Pow2(b - a), Pow2(a));
  }

  /** A number shifted right by k bits. */
  function Shr(x: nat, k: nat): nat {
    DivNonNegative(x, Pow2(k));
    x / Pow2(k)
  }

  /** The weight of limb k. */
  function Place(k: nat): (r: nat)
    ensures r > 0
  {
    Pow2(32 * k)
  }

  lemma PlaceZero()
    ensures Place(0) == 1
  {
  }

  lemma PlaceAdd(j: nat, k: nat)
    ensures Place(j + k) == Place(j) * Place(k)
  {
    Pow2Add(32 * j, 32 * k);
  }

  lemma PlaceStep(k: nat)
    ensures Place(k + 1) == Place(k) * LIMB
  {
    Pow2Add(32 * k, 32);
    Pow2Limb();
  }

  // ---------------------------------------------------------------------------------------------
  // The value of limbs

  function Val(s: seq<Limb>): nat {
    if s == [] then 0
    else
      MulNonNegative(s[|s| - 1], Place(|s| - 1));
      Val(s[..|s| - 1]) + s[|s| - 1] * Place(|s| - 1)
  }

  lemma ValNext(s: seq<Limb>, i: nat)
    requires i < |s|
    ensures Val(s[..i + 1]) == Val(s[..i]) + s[i] * Place(i)
  {
    assert s[..i + 1][..i] == s[..i];
  }

  lemma ValNone(s: seq<Limb>)
    ensures Val(s[..0]) == 0
  {
  }

  lemma {:induction false} ValBound(s: seq<Limb>)
    ensures Val(s) < Place(|s|)
  {
    hide Place;
    if s != [] {
      var k := |s| - 1;
      ValBound(s[..k]);
      PlaceStep(k);
      var x: int := s[k];
      MulLess(x, LIMB, Place(k));
    }
  }

  /** Changing one limb changes the value by its place. */
  lemma {:induction false} ValUpdate(s: seq<Limb>, i: nat, x: Limb)
    requires i < |s|
    ensures Val(s[i := x]) == Val(s) + (x - s[i]) * Place(i)
  {
    hide Place;
    var k := |s| - 1;
    if i == k {
      assert s[i := x][..k] == s[..k];
      assert (x - s[i]) * Place(i) == x * Place(i) - s[i] * Place(i);
    } else {
      ValUpdate(s[..k], i, x);
      assert s[i := x][..k] == s[..k][i := x];
    }
  }

  /** Splits a value at limb k. */
  function High(s: seq<Limb>, k: nat): nat
    requires k <= |s|
    decreases |s|
  {
    if k == |s| then 0
    else
      MulNonNegative(s[|s| - 1], Place(|s| - 1 - k));
      High(s[..|s| - 1], k) + s[|s| - 1] * Place(|s| - 1 - k)
  }

  lemma {:induction false} ValSplit(s: seq<Limb>, k: nat)
    requires k <= |s|
    ensures Val(s) == Val(s[..k]) + High(s, k) * Place(k)
    decreases |s|
  {
    if k == |s| {
      assert s[..k] == s;
    } else {
      hide Place;
      var m := |s| - 1;
      ValSplit(s[..m], k);
      assert s[..m][..k] == s[..k];
      PlaceAdd(m - k, k);
      SplitStep(High(s[..m], k), s[m], Place(m - k), Place(k));
    }
  }

  lemma SplitStep(h: nat, x: nat, p: nat, q: nat)
    ensures (h + x * p) * q == h * q + x * (p * q)
  {
    MulAssoc(x, p, q);
    assert (h + x * p) * q == h * q + (x * p) * q;
  }

  lemma {:induction false} ValZero(s: seq<Limb>)
    requires forall i :: 0 <= i < |s| ==> s[i] == 0
    ensures Val(s) == 0
  {
    if s != [] {
      ValZero(s[..|s| - 1]);
    }
  }

  // ---------------------------------------------------------------------------------------------
  // Remainders

  /** v is t without its multiples of m. */
  lemma ModIs(t: nat, v: nat, q: nat, m: nat)
    requires t == v + q * m && v < m
    ensures v == t % m && q == t / m
  {
    DivIsUnique(t, m, q);
    assert t == (t / m) * m + t % m;
  }

  // ---------------------------------------------------------------------------------------------
  // Bitwise or

  function Or(a: nat, b: nat): nat {
    if a == 0 && b == 0 then 0
    else (if a % 2 == 1 || b % 2 == 1 then 1 else 0) + 2 * Or(a / 2, b / 2)
  }

  /** Or adds numbers whose bits do not meet: one below 2^k, the other a multiple of it. */
  lemma {:induction false} OrIsSum(a: nat, b: nat, k: nat)
    requires a < Pow2(k) && b % Pow2(k) == 0
    ensures Or(a, b) == a + b && Or(b, a) == a + b
    decreases k
  {
    if k == 0 {
      OrZero(b);
    } else {
      var p := Pow2(k - 1);
      var q := b / Pow2(k);
      assert b == Pow2(k) * q;
      MulAssoc(2, p, q);
      assert b == 2 * (p * q) && b / 2 == p * q;
      ModMultiple(q, p);
      OrIsSum(a / 2, b / 2, k - 1);
    }
  }

  lemma ModMultiple(q: nat, p: nat)
    requires p > 0
    ensures (p * q) % p == 0
  {
    ModIs(p * q, 0, q, p);
  }

  lemma {:induction false} OrZero(b: nat)
    ensures Or(0, b) == b && Or(b, 0) == b
  {
    if b > 0 { OrZero(b / 2); }
  }

  /** Or works on the bits above and below any position separately. */
  lemma {:induction false} OrSplit(h: nat, l: nat, g: nat, m: nat, k: nat)
    requires l < Pow2(k) && m < Pow2(k)
    ensures h * Pow2(k) >= 0 && g * Pow2(k) >= 0
    ensures Or(h * Pow2(k) + l, g * Pow2(k) + m) == Or(h, g) * Pow2(k) + Or(l, m)
    decreases k
  {
    hide Or;
    MulNonNegative(h, Pow2(k));
    MulNonNegative(g, Pow2(k));
    if k == 0 {
      OrZero(0);
    } else {
      var p := Pow2(k - 1);
      OrSplit(h, l / 2, g, m / 2, k - 1);
      Halves(h, l, p);
      Halves(g, m, p);
      OrStep(h * Pow2(k) + l, g * Pow2(k) + m);
      OrStep(l, m);
      Doubled(Or(h, g), p);
    }
  }

  lemma OrStep(x: nat, y: nat)
    ensures Or(x, y) == (if x % 2 == 1 || y % 2 == 1 then 1 else 0) + 2 * Or(x / 2, y / 2)
  {
  }

  lemma Doubled(o: nat, p: nat)
    ensures o * (2 * p) == 2 * (o * p)
  {
    MulAssoc(o, 2, p);
  }

  lemma Halves(h: nat, l: nat, p: nat)
    ensures h * (2 * p) + l >= 0 && (h * (2 * p) + l) % 2 == l % 2 && (h * (2 * p) + l) / 2 == h * p + l / 2
  {
    MulAssoc(h, 2, p);
    MulNonNegative(h, p);
    assert h * (2 * p) == 2 * (h * p);
  }
}
