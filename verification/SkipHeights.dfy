/** The heights that skip pointers lead to, and how few steps the walk along them takes. */
module SkipHeights {
  import opened Products

  // ---------------------------------------------------------------------------------------------
  // Skip heights

  /** Bitwise and. */
  function And(a: nat, b: nat): (r: nat)
    ensures r <= a && r <= b
  {
    if a == 0 || b == 0 then 0 else (if a % 2 == 1 && b % 2 == 1 then 1 else 0) + 2 * And(a / 2, b / 2)
  }

  function InvertLowestOne(n: nat): (r: nat)
    ensures n > 0 ==> r < n
    ensures n == 0 ==> r == 0
  {
    if n == 0 then 0 else And(n, n - 1)
  }

  function TrailingZeros(n: nat): nat
    requires n > 0
  {
    if n % 2 == 1 then 0 else 1 + TrailingZeros(n / 2)
  }

  lemma AndSame(n: nat)
    ensures And(n, n) == n
  {
  }

  lemma InvertHalf(n: nat)
    ensures n % 2 == 1 ==> InvertLowestOne(n) == n - 1
    ensures n % 2 == 0 ==> InvertLowestOne(n) == 2 * InvertLowestOne(n / 2)
  {
    if n % 2 == 1 { AndSame(n / 2); }
  }

  /** What is taken away is the lowest one: everything below it is zero. */
  lemma {:induction false} InvertsLowestOne(n: nat)
    requires n > 0
    ensures var one := Pow2(TrailingZeros(n)); InvertLowestOne(n) == n - one && n % one == 0 && n / one % 2 == 1
  {
    hide InvertLowestOne;
    InvertHalf(n);
    if n % 2 == 0 {
      var half := n / 2;
      InvertsLowestOne(half);
      Doubled(half, Pow2(TrailingZeros(half)));
    }
  }

  lemma Doubled(n: nat, d: nat)
    requires d > 0 && n % d == 0
    ensures 2 * n % (2 * d) == 0 && 2 * n / (2 * d) == n / d
  {
    var q := n / d;
    assert q * (2 * d) == 2 * (q * d) == 2 * n;
    DivIsUnique(2 * n, 2 * d, q);
  }

  /** Where to jump back to: always strictly lower. */
  function GetSkipHeight(height: nat): (r: nat)
    ensures height > 0 ==> r < height
  {
    if height < 2 then 0
    else if height % 2 == 1 then InvertLowestOne(InvertLowestOne(height - 1)) + 1
    else InvertLowestOne(height)
  }

  // ---------------------------------------------------------------------------------------------
  // The walk from one height down to another, every skip pointer being set

  /** Follow the skip unless it overshoots, or the parent's own skip is better. */
  predicate TakesSkip(walk: nat, height: nat)
    requires height < walk
  {
    var skip, skipPrev := GetSkipHeight(walk), GetSkipHeight(walk - 1);
    skip == height || (skip > height && !(skipPrev < skip - 2 && skipPrev >= height))
  }

  function NextHeight(walk: nat, height: nat): (r: nat)
    requires height < walk
    ensures height <= r < walk
  {
    if TakesSkip(walk, height) then GetSkipHeight(walk) else walk - 1
  }

  function Steps(walk: nat, height: nat): nat
    requires height <= walk
  {
    if walk == height then 0 else 1 + Steps(NextHeight(walk, height), height)
  }

  // ---------------------------------------------------------------------------------------------
  // Bits

  function Ones(n: nat): nat {
    if n == 0 then 0 else n % 2 + Ones(n / 2)
  }

  /** A multiple of 2^k. */
  predicate Aligned(n: nat, k: nat) {
    k == 0 || (n % 2 == 0 && Aligned(n / 2, k - 1))
  }

  lemma {:induction false} OnesOfInverted(n: nat)
    requires n > 0
    ensures Ones(InvertLowestOne(n)) == Ones(n) - 1
  {
    hide InvertLowestOne;
    InvertHalf(n);
    if n % 2 == 0 { OnesOfInverted(n / 2); }
  }

  /** Taking ones away from above an aligned number does not go below it. */
  lemma {:induction false} InvertStays(m: nat, k: nat, w: nat)
    requires Aligned(m, k) && m < w < m + Pow2(k)
    ensures m <= InvertLowestOne(w)
    decreases k
  {
    hide InvertLowestOne;
    InvertHalf(w);
    if w % 2 == 0 { InvertStays(m / 2, k - 1, w / 2); }
  }

  lemma {:induction false} OnesAbove(m: nat, k: nat, w: nat)
    requires Aligned(m, k) && m <= w < m + Pow2(k)
    ensures Ones(m) <= Ones(w) <= Ones(m) + k && (Ones(w) == Ones(m) ==> w == m)
    decreases k
  {
    if k > 0 { OnesAbove(m / 2, k - 1, w / 2); }
  }

  lemma {:induction false} InvertTop(p: nat, k: nat)
    requires Aligned(p, k + 1)
    ensures InvertLowestOne(p + Pow2(k)) == p
    decreases k
  {
    hide InvertLowestOne;
    InvertHalf(p + Pow2(k));
    if k > 0 { InvertTop(p / 2, k - 1); }
  }

  lemma {:induction false} AlignedHalf(p: nat, k: nat)
    requires Aligned(p, k + 1)
    ensures Aligned(p, k) && Aligned(p + Pow2(k), k) && (k > 0 ==> (p + Pow2(k)) % 2 == 0)
    decreases k
  {
    if k > 0 {
      hide Pow2;
      Doubling(k - 1);
      AlignedHalf(p / 2, k - 1);
      assert (p + Pow2(k)) / 2 == p / 2 + Pow2(k - 1);
    }
  }

  lemma Doubling(k: nat)
    ensures Pow2(k) > 0 && (k > 0 ==> Pow2(k) >= 2) && Pow2(k + 1) == 2 * Pow2(k)
  {
  }

  lemma OnesOfDouble(n: nat)
    ensures Ones(2 * n) == Ones(n) && Ones(2 * n + 1) == Ones(n) + 1
  {
  }

  // ---------------------------------------------------------------------------------------------
  // How many steps. While the walk is in the upper half of an aligned range and its goal in the lower one,
  // steps take ones away above the middle; then both are in the same half.

  lemma InvertEven(n: nat)
    requires n % 2 == 0
    ensures InvertLowestOne(n) % 2 == 0
  {
    hide InvertLowestOne;
    InvertHalf(n);
  }

  /** From an odd height the skip is taken whenever it does not overshoot. */
  lemma OddTakesSkip(w: nat, t: nat)
    requires w >= 3 && w % 2 == 1 && t < w
    ensures var skip := InvertLowestOne(InvertLowestOne(w - 1)) + 1;
            GetSkipHeight(w) == skip && skip % 2 == 1 && NextHeight(w, t) == if skip >= t then skip else w - 1
  {
    hide InvertLowestOne;
    InvertEven(w - 1);
    InvertEven(InvertLowestOne(w - 1));
  }

  lemma OnesBelow(z: nat)
    ensures Ones(4 * z + 2) == Ones(z) + 1 && Ones(4 * z) == Ones(z)
    ensures Ones(8 * z + 4) == Ones(z) + 1 && Ones(8 * z + 2) == Ones(z) + 1
  {
    hide Ones;
    OnesOfDouble(z);
    OnesOfDouble(2 * z);
    OnesOfDouble(2 * z + 1);
    OnesOfDouble(4 * z + 1);
    OnesOfDouble(4 * z + 2);
  }

  /** If the skip two below beats an even height's own, the height is no multiple of eight, and has no fewer ones. */
  lemma NearbySkip(w: nat)
    requires w >= 4 && w % 2 == 0 && InvertLowestOne(InvertLowestOne(w - 2)) + 1 < InvertLowestOne(w) - 2
    ensures Ones(w - 2) <= Ones(w)
  {
    hide InvertLowestOne, Ones;
    if w % 8 == 0 {
      MultipleOfEight(w, w / 8);
      assert false;
    } else if w % 4 == 2 {
      OnesBelow(w / 4);
    } else {
      OnesBelow(w / 8);
    }
  }

  lemma MultipleOfEight(w: nat, z: nat)
    requires w == 8 * z && z > 0
    ensures InvertLowestOne(w) <= InvertLowestOne(InvertLowestOne(w - 2))
  {
    hide InvertLowestOne;
    InvertHalf(w);
    InvertHalf(4 * z);
    InvertHalf(2 * z);
    assert InvertLowestOne(w) == 8 * InvertLowestOne(z);
    InvertHalf(w - 2);
    assert (w - 2) / 2 == 4 * z - 1;
    InvertHalf(4 * z - 1);
    assert InvertLowestOne(w - 2) == 8 * z - 4;
    InvertHalf(8 * z - 4);
    InvertHalf(4 * z - 2);
    InvertHalf(2 * z - 1);
    assert (8 * z - 4) / 2 == 4 * z - 2 && (4 * z - 2) / 2 == 2 * z - 1;
    assert InvertLowestOne(z) < z by { InvertLower(z); }
  }

  lemma InvertLower(n: nat)
    requires n > 0
    ensures InvertLowestOne(n) < n
  {
  }

  function EvenCost(q: nat): nat {
    if q <= 1 then q + 1 else q + 2
  }

  function OddCost(r: nat): nat {
    r + 2
  }

  /** Bound on the steps within an aligned range of 2^k heights. */
  function Bound(k: nat): nat {
    if k == 0 then 0 else Bound(k - 1) + k + 1
  }

  lemma {:induction false} BoundIs(k: nat)
    ensures 2 * Bound(k) == k * (k + 3)
  {
    if k > 0 { BoundIs(k - 1); }
  }

  /** The goal is in the lower half of the range at p, the walk in the upper one. */
  ghost predicate Apart(k: nat, p: nat, t: nat, w: nat) {
    Aligned(p, k + 1) && p <= t < p + Pow2(k) <= w < p + 2 * Pow2(k)
  }

  /** Ones above the middle. */
  ghost function Above(k: nat, p: nat, n: nat): int {
    Ones(n) - Ones(p + Pow2(k))
  }

  lemma AboveBounds(k: nat, p: nat, n: nat)
    requires Aligned(p, k + 1) && p + Pow2(k) <= n < p + 2 * Pow2(k)
    ensures 0 <= Above(k, p, n) <= k && (Above(k, p, n) == 0 ==> n == p + Pow2(k))
  {
    AlignedHalf(p, k);
    OnesAbove(p + Pow2(k), k, n);
  }

  lemma OneStep(w: nat, t: nat)
    requires t < w
    ensures Steps(w, t) == 1 + Steps(NextHeight(w, t), t)
  {
  }

  lemma EvenSkip(w: nat, t: nat)
    requires w >= 4 && w % 2 == 0 && t < w
    ensures GetSkipHeight(w) == InvertLowestOne(w) && GetSkipHeight(w - 1) == InvertLowestOne(InvertLowestOne(w - 2)) + 1
    ensures Steps(w, t) == 1 + Steps(NextHeight(w, t), t)
  {
    hide InvertLowestOne;
  }

  /** One step from an even height above the middle. */
  lemma {:induction false} EvenDescent(k: nat, p: nat, t: nat, w: nat)
    requires Apart(k, p, t, w) && w % 2 == 0 && w > p + Pow2(k)
    ensures 0 < Above(k, p, w) && Steps(w, t) <= Bound(k) + EvenCost(Above(k, p, w))
    decreases k, 1, w, 0
  {
    hide InvertLowestOne, Aligned, Ones, Pow2, GetSkipHeight, Steps;
    var m := p + Pow2(k);
    AlignedHalf(p, k);
    AboveBounds(k, p, w);
    Doubling(k);
    EvenSkip(w, t);
    InvertStays(m, k, w);
    InvertLower(w);
    InvertEven(w);
    OnesOfInverted(w);
    var s := InvertLowestOne(w);
    if TakesSkip(w, t) {
      assert NextHeight(w, t) == s;
      Descent(k, p, t, s);
    } else {
      OddTakesSkip(w - 1, t);
      var sp := InvertLowestOne(InvertLowestOne(w - 2)) + 1;
      assert sp < s - 2 && sp >= t;
      OneStep(w - 1, t);
      NearbySkip(w);
      if sp < m {
        Within(k, p, t, sp);
      } else {
        TwoFewer(w - 2);
        Descent(k, p, t, sp);
        AboveBounds(k, p, sp - 1);
      }
    }
  }

  lemma TwoFewer(n: nat)
    ensures InvertLowestOne(InvertLowestOne(n)) > 0 ==> Ones(InvertLowestOne(InvertLowestOne(n))) == Ones(n) - 2
    ensures InvertLowestOne(InvertLowestOne(n)) <= InvertLowestOne(n) <= n
  {
    hide Ones;
    if InvertLowestOne(InvertLowestOne(n)) > 0 {
      OnesOfInverted(n);
      OnesOfInverted(InvertLowestOne(n));
    }
  }

  /** One step from an odd height above the middle. */
  lemma {:induction false} OddDescent(k: nat, p: nat, t: nat, w: nat)
    requires Apart(k, p, t, w) && w % 2 == 1 && k > 0
    ensures 0 <= Above(k, p, w - 1) && Steps(w, t) <= Bound(k) + OddCost(Above(k, p, w - 1))
    decreases k, 1, w, 0
  {
    hide InvertLowestOne, Aligned, Ones, Pow2, NextHeight, Steps;
    var m, v := p + Pow2(k), w - 1;
    OneStep(w, t);
    AlignedHalf(p, k);
    Doubling(k);
    AboveBounds(k, p, v);
    OddTakesSkip(w, t);
    TwoFewer(v);
    var s := InvertLowestOne(InvertLowestOne(v)) + 1;
    if s < t {
      FewAbove(k, p, t, v);
      Descent(k, p, t, v);
    } else if s < m {
      Within(k, p, t, s);
    } else {
      Descent(k, p, t, s);
      AboveBounds(k, p, s - 1);
    }
  }

  /** Two ones above the middle can be taken away without leaving the upper half. */
  lemma FewAbove(k: nat, p: nat, t: nat, v: nat)
    requires Aligned(p, k + 1) && p <= t < p + Pow2(k) <= v < p + 2 * Pow2(k) && InvertLowestOne(InvertLowestOne(v)) + 1 < t
    ensures Above(k, p, v) <= 1
  {
    hide InvertLowestOne, Aligned, Ones, Pow2;
    var m := p + Pow2(k);
    AlignedHalf(p, k);
    if Above(k, p, v) >= 2 {
      InvertStays(m, k, v);
      InvertLower(v);
      OnesOfInverted(v);
      InvertStays(m, k, InvertLowestOne(v));
      assert false;
    }
  }

  /** Any height above the middle. */
  lemma {:induction false} Descent(k: nat, p: nat, t: nat, w: nat)
    requires Apart(k, p, t, w)
    ensures 0 <= Above(k, p, w) && (w % 2 == 0 ==> Steps(w, t) <= Bound(k) + EvenCost(Above(k, p, w)))
    ensures w % 2 == 1 && k > 0 ==> 0 <= Above(k, p, w - 1) && Steps(w, t) <= Bound(k) + OddCost(Above(k, p, w - 1))
    ensures Steps(w, t) <= Bound(k) + k + 2
    decreases k, 1, w, 1
  {
    hide Aligned, Ones, Pow2, NextHeight;
    AboveBounds(k, p, w);
    AlignedHalf(p, k);
    Doubling(k);
    if w == p + Pow2(k) {
      Within(k, p, t, NextHeight(w, t));
    } else if w % 2 == 0 {
      EvenDescent(k, p, t, w);
    } else {
      OneApart(k);
      OddDescent(k, p, t, w);
      AboveBounds(k, p, w - 1);
    }
  }

  lemma OneApart(k: nat)
    ensures k == 0 ==> Pow2(k) == 1
  {
  }

  /** Both heights in an aligned range of 2^k. */
  lemma {:induction false} Within(k: nat, p: nat, t: nat, w: nat)
    requires Aligned(p, k) && p <= t <= w < p + Pow2(k)
    ensures Steps(w, t) <= Bound(k)
    decreases k, 0, w
  {
    hide NextHeight;
    if k > 0 {
      var h := k - 1;
      var m := p + Pow2(h);
      AlignedHalf(p, h);
      if w < m {
        Within(h, p, t, w);
      } else if t >= m {
        Within(h, m, t, w);
      } else {
        Descent(h, p, t, w);
      }
    }
  }

  /** Main result: from any height below 2^k the walk takes at most k (k + 3) / 2 steps. */
  lemma StepsAreFew(w: nat, t: nat, k: nat)
    requires t <= w < Pow2(k)
    ensures 2 * Steps(w, t) <= k * (k + 3)
  {
    hide Steps, Pow2;
    ZeroAligned(k);
    Within(k, 0, t, w);
    BoundIs(k);
  }

  lemma {:induction false} ZeroAligned(k: nat)
    ensures Aligned(0, k)
  {
    if k > 0 { ZeroAligned(k - 1); }
  }
}
