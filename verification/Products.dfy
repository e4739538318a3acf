/** Powers of two, and facts about products that the verifier is better told than left to find. */
module Products {

  function Pow2(k: nat): (r: nat)
    ensures r > 0
  {
    if k == 0 then 1 else 2 * Pow2(k - 1)
  }

  lemma MulMono(a: int, b: int, p: nat)
    requires a <= b
    ensures a * p <= b * p
  {
    assert b * p - a * p == (b - a) * p;
    MulNonNegative(b - a, p);
  }

  lemma {:induction false} MulNonNegative(a: nat, b: nat)
    ensures a * b >= 0
  {
  }

  lemma MulLess(a: int, b: int, p: nat)
    requires a < b && p > 0
    ensures a * p < b * p && a * p + p <= b * p
  {
    MulMono(a + 1, b, p);
    assert (a + 1) * p == a * p + p;
  }

  lemma MulAssoc(a: int, b: int, c: int)
    ensures (a * b) * c == a * (b * c)
  {
  }

  lemma DivIsUnique(x: nat, d: nat, q: nat)
    requires d > 0 && q * d <= x < q * d + d
    ensures x / d == q
  {
    var e := x / d;
    if e < q { MulLess(e, q, d); assert false; }
    if q < e { MulLess(q, e, d); assert false; }
  }

  lemma DivNonNegative(x: nat, d: nat)
    requires d > 0
    ensures x / d >= 0
  {
    assert x == (x / d) * d + x % d;
    if x / d < 0 { MulMono(x / d, -1, d); assert false; }
  }
}
