/** Numbers as digits in some base, most significant first. */
module Radix {
  import opened Products

  function Pow(b: nat, k: nat): (r: nat)
    ensures b > 0 ==> r > 0
  {
    if k == 0 then 1
    else
      MulNonNegative(b, Pow(b, k - 1));
      if b > 0 then MulMono(1, Pow(b, k - 1), b); Pow(b, k - 1) * b else 0
  }

  ghost predicate Digits(s: seq<nat>, base: nat) {
    forall i :: 0 <= i < |s| ==> s[i] < base
  }

  function Val(s: seq<nat>, base: nat): nat {
    if s == [] then 0
    else
      MulNonNegative(Val(s[..|s| - 1], base), base);
      Val(s[..|s| - 1], base) * base + s[|s| - 1]
  }

  /** The digits of a number without leading zeros; none for zero. */
  function Canon(n: nat, base: nat): seq<nat>
    requires base > 1
  {
    if n == 0 then []
    else
      QuotientShrinks(n, base);
      Canon(n / base, base) + [n % base]
  }

  lemma QuotientShrinks(n: nat, base: nat)
    requires n > 0 && base > 1
    ensures 0 <= n / base < n
  {
    var q := n / base;
    assert n == q * base + n % base;
    if q < 0 { MulMono(q, -1, base); assert false; }
    if q >= n { MulMono(n, q, base); MulMono(2, base, n); assert false; }
  }

  lemma Euclid(n: nat, base: nat)
    requires base > 0
    ensures n == n / base * base + n % base && 0 <= n % base < base
  {
  }

  predicate NoLeadingZero(s: seq<nat>) {
    s == [] || s[0] != 0
  }

  lemma {:induction false} CanonDigits(n: nat, base: nat)
    requires base > 1
    ensures Digits(Canon(n, base), base) && NoLeadingZero(Canon(n, base)) && Val(Canon(n, base), base) == n
  {
    if n > 0 {
      QuotientShrinks(n, base);
      var q := n / base;
      CanonDigits(q, base);
      var s := Canon(n, base);
      Euclid(n, base);
      assert s == Canon(q, base) + [n % base];
      assert s[..|s| - 1] == Canon(q, base);
    }
  }

  /** Digits without leading zeros are determined by their value. */
  lemma {:induction false} CanonUnique(s: seq<nat>, base: nat)
    requires base > 1 && Digits(s, base) && NoLeadingZero(s)
    ensures s == Canon(Val(s, base), base) && (s != [] ==> Val(s, base) > 0)
  {
    if s != [] {
      var t, d := s[..|s| - 1], s[|s| - 1];
      CanonUnique(t, base);
      var v := Val(t, base);
      if t != [] { MulMono(1, v, base); }
      MulNonNegative(v, base);
      ModDigit(v, d, base);
    }
  }

  lemma ModDigit(v: nat, d: nat, base: nat)
    requires d < base
    ensures v * base + d >= 0 && (v * base + d) / base == v && (v * base + d) % base == d
  {
    MulNonNegative(v, base);
    var x := v * base + d;
    DivIsUnique(x, base, v);
    assert x == (x / base) * base + x % base;
  }

  // ---------------------------------------------------------------------------------------------
  // Splitting

  lemma {:induction false} ValSplit(s: seq<nat>, t: seq<nat>, base: nat)
    ensures Val(s + t, base) == Val(s, base) * Pow(base, |t|) + Val(t, base)
  {
    if t == [] {
      assert s + t == s;
    } else {
      var u, d := t[..|t| - 1], t[|t| - 1];
      ValSplit(s, u, base);
      assert (s + t)[..|s + t| - 1] == s + u;
      PowStep(base, |u|);
      ShiftDigits(Val(s, base), Pow(base, |u|), Val(u, base), base);
    }
  }

  lemma ShiftDigits(v: nat, p: nat, w: nat, base: nat)
    ensures (v * p + w) * base == v * (p * base) + w * base
  {
    MulAssoc(v, p, base);
    assert (v * p + w) * base == (v * p) * base + w * base;
  }

  lemma PowStep(b: nat, k: nat)
    ensures Pow(b, k + 1) == Pow(b, k) * b
  {
  }

  lemma {:induction false} ValZeros(s: seq<nat>, base: nat)
    requires forall i :: 0 <= i < |s| ==> s[i] == 0
    ensures Val(s, base) == 0
  {
    if s != [] { ValZeros(s[..|s| - 1], base); }
  }

  lemma {:induction false} ValBound(s: seq<nat>, base: nat)
    requires Digits(s, base)
    ensures Val(s, base) < Pow(base, |s|)
  {
    if s != [] {
      ValBound(s[..|s| - 1], base);
      assert s[0] < base;
      PowStep(base, |s| - 1);
      MulLess(Val(s[..|s| - 1], base), Pow(base, |s| - 1), base);
    }
  }

  // ---------------------------------------------------------------------------------------------
  // Powers

  lemma {:induction false} PowAdd(b: nat, j: nat, k: nat)
    ensures Pow(b, j + k) == Pow(b, j) * Pow(b, k)
  {
    if k > 0 {
      PowAdd(b, j, k - 1);
      PowStep(b, k - 1);
      PowStep(b, j + k - 1);
      MulAssoc(Pow(b, j), Pow(b, k - 1), b);
    }
  }

  lemma {:induction false} PowMul(b: nat, j: nat, k: nat)
    ensures j * k >= 0 && Pow(b, j * k) == Pow(Pow(b, j), k)
  {
    MulNonNegative(j, k);
    if k > 0 {
      PowMul(b, j, k - 1);
      assert j * k == j * (k - 1) + j;
      MulNonNegative(j, k - 1);
      PowAdd(b, j * (k - 1), j);
      PowStep(Pow(b, j), k - 1);
    } else {
      assert j * k == 0;
    }
  }

  lemma {:induction false} PowMonoBase(a: nat, b: nat, k: nat)
    requires a <= b
    ensures Pow(a, k) <= Pow(b, k)
  {
    if k > 0 {
      PowMonoBase(a, b, k - 1);
      PowStep(a, k - 1);
      PowStep(b, k - 1);
      MulMono(Pow(a, k - 1), Pow(b, k - 1), a);
      MulMono(a, b, Pow(b, k - 1));
      assert a * Pow(b, k - 1) == Pow(b, k - 1) * a && b * Pow(b, k - 1) == Pow(b, k - 1) * b;
    }
  }

  lemma {:induction false} PowLess(a: nat, b: nat, k: nat)
    requires a < b && k > 0
    ensures Pow(a, k) < Pow(b, k)
  {
    PowStep(a, k - 1);
    PowStep(b, k - 1);
    PowMonoBase(a, b, k - 1);
    MulMono(Pow(a, k - 1), Pow(b, k - 1), a);
    MulLess(a, b, Pow(b, k - 1));
    assert a * Pow(b, k - 1) == Pow(b, k - 1) * a && b * Pow(b, k - 1) == Pow(b, k - 1) * b;
  }

  lemma PowMonoExp(b: nat, j: nat, k: nat)
    requires b > 0 && j <= k
    ensures Pow(b, j) <= Pow(b, k)
  {
    PowAdd(b, j, k - j);
    MulMono(1, Pow(b, k - j), Pow(b, j));
    assert Pow(b, k - j) * Pow(b, j) == Pow(b, j) * Pow(b, k - j);
  }

  /** If x digits of one base are worth y of another, so are their multiples, rounded up. */
  lemma EnoughDigits(a: nat, b: nat, x: nat, y: nat, n: nat, s: nat)
    requires a > 0 && b > 0 && x > 0 && y > 0 && Pow(a, x) >= Pow(b, y) && y * s >= x * n
    ensures Pow(a, s) >= Pow(b, n)
  {
    hide Pow;
    PowMul(a, s, y);
    PowMul(a, x, n);
    PowMul(b, y, n);
    PowMul(b, n, y);
    assert s * y == y * s && n * y == y * n;
    PowMonoExp(a, x * n, y * s);
    PowMonoBase(Pow(b, y), Pow(a, x), n);
    if Pow(a, s) < Pow(b, n) {
      PowLess(Pow(a, s), Pow(b, n), y);
      assert false;
    }
  }
}
