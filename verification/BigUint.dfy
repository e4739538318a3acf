/** Fixed-width unsigned integers: limb arrays rewritten in place by carry and shift loops. */
module BigUint {
  import opened Products
  import opened Limbs

  /** A column sum is its low limb plus its carry into the next place. */
  lemma Carry(n: nat, p: nat)
    ensures (n % LIMB) * p + (n / LIMB) * (p * LIMB) == n * p
  {
    var lo, hi := n % LIMB, n / LIMB;
    assert n == hi * LIMB + lo;
    MulAssoc(hi, LIMB, p);
    assert p * LIMB == LIMB * p;
    assert (hi * LIMB + lo) * p == (hi * LIMB) * p + lo * p;
  }

  lemma Distribute(a: int, b: int, p: int)
    ensures (a + b) * p == a * p + b * p
  {
  }

  lemma LimbProduct(x: Limb, y: Limb)
    ensures 0 <= x * y <= (LIMB - 1) * (LIMB - 1)
  {
    MulNonNegative(x, y);
    calc {
      x * y;
    <= { MulMono(x, LIMB - 1, y); }
      (LIMB - 1) * y;
    ==
      y * (LIMB - 1);
    <= { MulMono(y, LIMB - 1, LIMB - 1); }
      (LIMB - 1) * (LIMB - 1);
    }
  }

  ghost predicate AllZero(s: seq<Limb>) {
    forall i :: 0 <= i < |s| ==> s[i] == 0
  }

  class BaseUint {
    const WIDTH: nat
    const pn: array<Limb>

    ghost predicate Valid() {
      pn.Length == WIDTH && WIDTH >= 2
    }

    ghost function Value(): nat
      reads pn
    {
      Val(pn[..])
    }

    ghost function Modulus(): nat {
      Place(WIDTH)
    }

    constructor (width: nat)
      requires width >= 2
      ensures Valid() && WIDTH == width && fresh(pn) && Value() == 0
    {
      WIDTH := width;
      pn := new Limb[width](_ => 0);
      new;
      ValZero(pn[..]);
    }

    constructor Copy(b: BaseUint)
      requires b.Valid()
      ensures Valid() && WIDTH == b.WIDTH && fresh(pn) && pn[..] == b.pn[..]
    {
      WIDTH := b.WIDTH;
      pn := new Limb[b.WIDTH](i requires 0 <= i < b.pn.Length reads b.pn => b.pn[i]);
    }

    /** Assignment from a 64-bit number. */
    method Assign(b: nat)
      requires Valid() && b < TWO_64
      modifies pn
      ensures Value() == b && (b == 0 ==> AllZero(pn[..]))
    {
      pn[0], pn[1] := b % LIMB, b / LIMB;
      var i := 2;
      while i < WIDTH
        invariant 2 <= i <= WIDTH && pn[0] == b % LIMB && pn[1] == b / LIMB
        invariant forall j :: 2 <= j < i ==> pn[j] == 0
      {
        pn[i] := 0;
        i := i + 1;
      }
      LowTwo(pn[..], b);
    }

    /** operator+=: addition without its multiples of 2^BITS. */
    method AddAssign(b: BaseUint)
      requires Valid() && b.Valid() && b.WIDTH == WIDTH
      modifies pn
      ensures Value() == (old(Value()) + old(b.Value())) % Modulus()
    {
      hide Val, Place;
      ghost var x, y := pn[..], b.pn[..];
      ValNone(x);
      ValNone(y);
      ValNone(pn[..]);
      var carry, i := 0, 0;
      while i < WIDTH
        invariant 0 <= i <= WIDTH && 0 <= carry <= 1
        invariant forall j :: i <= j < WIDTH ==> pn[j] == x[j] && b.pn[j] == y[j]
        invariant Val(pn[..i]) + carry * Place(i) == Val(x[..i]) + Val(y[..i])
      {
        var n: nat := carry + pn[i] + b.pn[i];
        assert n < TWO_64;
        AddColumn(carry, x[i], y[i], Place(i));
        Carry(n, Place(i));
        PlaceStep(i);
        ValNext(x, i);
        ValNext(y, i);
        ghost var before := pn[..i];
        pn[i] := n % LIMB;
        carry := n / LIMB;
        assert pn[..i] == before;
        ValNext(pn[..], i);
        assert pn[..][..i + 1] == pn[..i + 1] && pn[..][..i] == pn[..i];
        i := i + 1;
      }
      assert pn[..WIDTH] == pn[..] && x[..WIDTH] == x && y[..WIDTH] == y;
      ValBound(pn[..]);
      ModIs(Val(x) + Val(y), Val(pn[..]), carry, Place(WIDTH));
    }

    /** operator~: what is missing to the largest value. */
    method Complement() returns (r: BaseUint)
      requires Valid()
      ensures r.Valid() && r.WIDTH == WIDTH && fresh(r) && fresh(r.pn) && r.Value() == Modulus() - 1 - Value()
    {
      hide Val, Place;
      r := new BaseUint(WIDTH);
      ValNone(pn[..]);
      ValNone(r.pn[..]);
      PlaceZero();
      var i := 0;
      while i < WIDTH
        invariant 0 <= i <= WIDTH
        invariant Val(r.pn[..i]) + Val(pn[..i]) + 1 == Place(i)
        modifies r.pn
      {
        ghost var before := r.pn[..i];
        r.pn[i] := LIMB - 1 - pn[i];
        assert r.pn[..i] == before;
        PrefixNext(r.pn, i);
        PrefixNext(pn, i);
        PlaceStep(i);
        ComplementColumn(pn[i], Place(i));
        i := i + 1;
      }
      assert r.pn[..WIDTH] == r.pn[..] && pn[..WIDTH] == pn[..];
    }

    /** Prefix operator++. */
    method Increment()
      requires Valid()
      modifies pn
      ensures Value() == (old(Value()) + 1) % Modulus()
    {
      hide Val, Place;
      ghost var x := Val(pn[..]);
      var i := 0;
      PlaceZero();
      while true
        invariant 0 <= i < WIDTH
        invariant Val(pn[..]) + Place(i) == x + 1
        decreases WIDTH - i
      {
        ghost var before := pn[..];
        ghost var limb := pn[i];
        pn[i] := (pn[i] + 1) % LIMB;
        ValUpdate(before, i, pn[i]);
        assert pn[..] == before[i := pn[i]];
        IncrementColumn(limb, Place(i));
        PlaceStep(i);
        if !(pn[i] == 0 && i < WIDTH - 1) {
          break;
        }
        i := i + 1;
      }
      ValBound(pn[..]);
      if Val(pn[..]) == x + 1 {
        ModIs(x + 1, Val(pn[..]), 0, Place(WIDTH));
      } else {
        ModIs(x + 1, Val(pn[..]), 1, Place(WIDTH));
      }
    }

    /** Prefix operator--. */
    method Decrement()
      requires Valid()
      modifies pn
      ensures Value() == (old(Value()) - 1) % Modulus()
    {
      hide Val, Place;
      ghost var x := Val(pn[..]);
      ValBound(pn[..]);
      var i := 0;
      PlaceZero();
      while true
        invariant 0 <= i < WIDTH
        invariant Val(pn[..]) + 1 == x + Place(i)
        decreases WIDTH - i
      {
        ghost var before := pn[..];
        ghost var limb := pn[i];
        pn[i] := (pn[i] + LIMB - 1) % LIMB;
        ValUpdate(before, i, pn[i]);
        assert pn[..] == before[i := pn[i]];
        DecrementColumn(limb, Place(i));
        PlaceStep(i);
        if !(pn[i] == LIMB - 1 && i < WIDTH - 1) {
          break;
        }
        i := i + 1;
      }
      ValBound(pn[..]);
      if x == 0 {
        MinusOne(Place(WIDTH));
      } else {
        ModIs(x - 1, x - 1, 0, Place(WIDTH));
      }
    }

    /** Unary operator-. */
    method Negate() returns (r: BaseUint)
      requires Valid()
      ensures r.Valid() && r.WIDTH == WIDTH && fresh(r) && fresh(r.pn) && r.Value() == (Modulus() - Value()) % Modulus()
    {
      r := Complement();
      r.Increment();
    }

    /** operator-=: subtraction modulo 2^BITS. */
    method SubAssign(b: BaseUint)
      requires Valid() && b.Valid() && b.WIDTH == WIDTH
      modifies pn
      ensures Value() == (old(Value()) - old(b.Value())) % Modulus()
    {
      hide Val, Place;
      ValBound(pn[..]);
      ValBound(b.pn[..]);
      ghost var x, y, m := Val(pn[..]), Val(b.pn[..]), Place(WIDTH);
      SubtractByAdding(x, y, m);
      var minus := b.Negate();
      assert minus.Value() == (m - y) % m;
      AddAssign(minus);
    }

    /** operator*= by a 32-bit number. */
    method MulAssign32(b32: Limb)
      requires Valid()
      modifies pn
      ensures Value() == (old(Value()) * b32) % Modulus()
    {
      hide Val, Place;
      ghost var x := pn[..];
      ValNone(x);
      ValNone(pn[..]);
      var carry, i := 0, 0;
      while i < WIDTH
        invariant 0 <= i <= WIDTH && 0 <= carry < LIMB
        invariant forall j :: i <= j < WIDTH ==> pn[j] == x[j]
        invariant Val(pn[..i]) + carry * Place(i) == Val(x[..i]) * b32
      {
        LimbProduct(b32, pn[i]);
        var n: nat := carry + b32 * pn[i];
        assert n < TWO_64;
        MulColumn(carry, b32, x[i], Val(x[..i]), Place(i));
        Carry(n, Place(i));
        PlaceStep(i);
        ValNext(x, i);
        ghost var before := pn[..i];
        pn[i] := n % LIMB;
        carry := n / LIMB;
        assert pn[..i] == before;
        PrefixNext(pn, i);
        i := i + 1;
      }
      assert pn[..WIDTH] == pn[..] && x[..WIDTH] == x;
      ValBound(pn[..]);
      MulNonNegative(Val(x), b32);
      ModIs(Val(x) * b32, Val(pn[..]), carry, Place(WIDTH));
    }

    /** Compares values from the most significant limb down. */
    method CompareTo(b: BaseUint) returns (r: int)
      requires Valid() && b.Valid() && b.WIDTH == WIDTH
      ensures r == (if Value() < b.Value() then -1 else if Value() > b.Value() then 1 else 0)
    {
      hide Val, Place;
      var i := WIDTH;
      while i > 0
        invariant 0 <= i <= WIDTH
        invariant forall j :: i <= j < WIDTH ==> pn[j] == b.pn[j]
      {
        i := i - 1;
        if pn[i] < b.pn[i] {
          HigherLimbDecides(pn[..], b.pn[..], i);
          return -1;
        }
        if pn[i] > b.pn[i] {
          HigherLimbDecides(b.pn[..], pn[..], i);
          return 1;
        }
      }
      assert pn[..] == b.pn[..];
      return 0;
    }

    /** operator*=: schoolbook multiplication modulo 2^BITS. The number is cleared before the operand is read,
        so multiplying it by itself in place gives zero. */
    method MulAssign(b: BaseUint)
      requires Valid() && b.Valid() && b.WIDTH == WIDTH
      modifies pn
      ensures Value() == if b.pn == pn then 0 else (old(Value()) * old(b.Value())) % Modulus()
    {
      hide Val, Place;
      var a := pn[..];
      ghost var y := b.pn[..];
      Assign(0);
      ValNone(a);
      var j := 0;
      ghost var q: nat := 0;
      while j < WIDTH
        invariant 0 <= j <= WIDTH
        invariant if b.pn == pn then AllZero(pn[..]) else b.pn[..] == y && Val(a[..j]) * Val(y) == Val(pn[..]) + q * Place(WIDTH)
      {
        ghost var row := MulRow(b, a[j], j);
        if b.pn != pn {
          ValNext(a, j);
          RowAdds(Val(a[..j]), Val(y), a[j], Place(j), Place(WIDTH), q, row);
        }
        q := q + row;
        j := j + 1;
      }
      if b.pn == pn {
        ValZero(pn[..]);
        return;
      }
      assert a[..WIDTH] == a;
      ValBound(pn[..]);
      MulNonNegative(Val(a), Val(y));
      ModIs(Val(a) * Val(y), Val(pn[..]), q, Place(WIDTH));
    }

    /** Adds x times b, j limbs up; row is what falls off the top. */
    method MulRow(b: BaseUint, x: Limb, j: nat) returns (ghost row: nat)
      requires Valid() && b.Valid() && b.WIDTH == WIDTH && j < WIDTH
      modifies pn
      ensures b.pn != pn ==> old(Value()) + (x * Place(j)) * b.Value() == Value() + row * Place(WIDTH)
      ensures b.pn == pn && old(AllZero(pn[..])) ==> AllZero(pn[..])
    {
      hide Val, Place, RowInv;
      ghost var was, y := Val(pn[..]), b.pn[..];
      var carry, i := 0, 0;
      ValNone(y);
      RowStart(was, x, j);
      while i + j < WIDTH
        invariant 0 <= i <= WIDTH - j && 0 <= carry < LIMB
        invariant b.pn != pn ==> b.pn[..] == y && RowInv(was, x, j, Val(y[..i]), i, carry, Val(pn[..]))
        invariant b.pn == pn && AllZero(y) ==> AllZero(pn[..]) && carry == 0
      {
        LimbProduct(x, b.pn[i]);
        var n: nat := carry + pn[i + j] + x * b.pn[i];
        assert n < TWO_64;
        ghost var before := pn[..];
        var digit: Limb := n % LIMB;
        pn[i + j] := digit;
        assert pn[..] == before[i + j := digit];
        if b.pn != pn { RowStep(was, x, j, y, i, carry, before, n); }
        carry := n / LIMB;
        i := i + 1;
      }
      row := 0;
      if b.pn != pn { row := RowEnd(was, x, j, y, i, carry, Val(pn[..])); }
    }

    /** Position of the highest set bit plus one, or zero. */
    method Bits() returns (r: nat)
      requires Valid()
      ensures r <= 32 * WIDTH && (r == 0 <==> Value() == 0)
      ensures r > 0 ==> Pow2(r - 1) <= Value() < Pow2(r)
    {
      hide Val, Place, Pow2;
      var pos := WIDTH;
      while pos > 0
        invariant 0 <= pos <= WIDTH
        invariant forall j :: pos <= j < WIDTH ==> pn[j] == 0
      {
        pos := pos - 1;
        if pn[pos] != 0 {
          Pow2Limb();
          var bits := 31;
          while bits > 0
            invariant 0 <= bits <= 31 && pn[pos] < Pow2(bits + 1)
          {
            TopBit(pn[pos], bits);
            if pn[pos] / Pow2(bits) % 2 == 1 {
              BitsOfTop(pn[..], pos, bits);
              return 32 * pos + bits + 1;
            }
            bits := bits - 1;
          }
          TopBit(pn[pos], 0);
          BitsOfTop(pn[..], pos, 0);
          return 32 * pos + 1;
        }
      }
      ValZero(pn[..]);
      return 0;
    }

    method Zero()
      requires Valid()
      modifies pn
      ensures Value() == 0 && forall j :: 0 <= j < WIDTH ==> pn[j] == 0
    {
      var i := 0;
      while i < WIDTH
        invariant 0 <= i <= WIDTH && forall j :: 0 <= j < i ==> pn[j] == 0
      {
        pn[i] := 0;
        i := i + 1;
      }
      ValZero(pn[..]);
    }

    /** pn[i] |= x, for bits that do not meet. */
    method OrInto(i: nat, x: nat, ghost k: nat)
      requires Valid() && i < WIDTH && k <= 32
      requires (pn[i] < Pow2(k) && x % Pow2(k) == 0 && x < LIMB) || (pn[i] % Pow2(k) == 0 && x < Pow2(k))
      modifies pn
      ensures pn[i] == old(pn[i]) + x && forall j :: 0 <= j < WIDTH && j != i ==> pn[j] == old(pn[j])
      ensures Value() == old(Value()) + x * Place(i)
    {
      hide Val, Place, Pow2, Or;
      ghost var before := pn[..];
      DisjointBits(pn[i], x, k);
      pn[i] := Or(pn[i], x);
      assert pn[..] == before[i := pn[i]];
      ValUpdate(before, i, pn[i]);
    }

    /** Puts limb x in at place i, shifted left by k limbs and s bits; drop counts what falls off the top. */
    method ShiftLimbLeft(x: Limb, i: nat, k: nat, s: nat) returns (ghost drop: nat)
      requires Valid() && s < 32 && i < WIDTH
      requires forall j :: i + k < j < WIDTH ==> pn[j] == 0
      requires i + k < WIDTH ==> pn[i + k] < Pow2(s)
      modifies pn
      ensures forall j :: i + k + 1 < j < WIDTH ==> pn[j] == 0
      ensures i + k + 1 < WIDTH ==> pn[i + k + 1] < Pow2(s)
      ensures x * Pow2(s) >= 0
      ensures old(Value()) + (x * Pow2(s)) * Place(i + k) == Value() + drop * Place(WIDTH)
    {
      hide Val, Place, Pow2;
      ShiftParts(x, s);
      var low, high := x * Pow2(s) % LIMB, x / Pow2(32 - s);
      TwoPlaces(x * Pow2(s), low, high, i + k);
      Pow2Positive(s);
      if i + k + 1 < WIDTH && s != 0 {
        ZeroMod(Pow2(s));
        OrInto(i + k + 1, high, s);
      }
      if i + k < WIDTH {
        OrInto(i + k, low, s);
      }
      drop := if i + k + 1 >= WIDTH then Dropped(low, high, i + k, WIDTH) else 0;
    }

    /** operator<<=: multiplication by a power of two modulo 2^BITS. */
    method ShiftLeft(shift: nat)
      requires Valid()
      modifies pn
      ensures Value() == (old(Value()) * Pow2(shift)) % Modulus()
    {
      hide Val, Place, Pow2;
      var a := pn[..];
      Zero();
      var k, s := shift / 32, shift % 32;
      var i := 0;
      ghost var q: nat := 0;
      ValNone(a);
      Pow2Positive(s);
      while i < WIDTH
        invariant 0 <= i <= WIDTH
        invariant forall j :: i + k < j < WIDTH ==> pn[j] == 0
        invariant i + k < WIDTH ==> pn[i + k] < Pow2(s)
        invariant Val(a[..i]) * Pow2(shift) == Val(pn[..]) + q * Place(WIDTH)
      {
        ghost var drop := ShiftLimbLeft(a[i], i, k, s);
        ValNext(a, i);
        LeftColumn(Val(a[..i]), a[i], i, k, s);
        Distribute(q, drop, Place(WIDTH));
        q := q + drop;
        i := i + 1;
      }
      assert a[..WIDTH] == a;
      ValBound(pn[..]);
      MulNonNegative(Val(a), Pow2(shift));
      ModIs(Val(a) * Pow2(shift), Val(pn[..]), q, Place(WIDTH));
    }

    /** Puts limb x of place i in, shifted right by k limbs and s bits; its lowest bits are lost at i == k. */
    method ShiftLimbRight(x: Limb, i: nat, k: nat, s: nat)
      requires Valid() && s < 32 && k <= i < WIDTH
      requires forall j :: i - k <= j < WIDTH ==> pn[j] == 0
      requires i > k ==> pn[i - k - 1] < Pow2(32 - s)
      modifies pn
      ensures forall j :: i - k < j < WIDTH ==> pn[j] == 0
      ensures pn[i - k] < Pow2(32 - s)
      ensures RightMoved(old(Value()), Value(), x, i, k, s)
    {
      hide Val, Place, Pow2, RightMoved;
      ghost var was := Value();
      RightParts(x, s);
      ghost var moved: nat := 0;
      if i > k && s != 0 {
        var carried := x * Pow2(32 - s) % LIMB;
        OrInto(i - k - 1, carried, 32 - s);
        moved := carried;
      }
      ghost var mid := Value();
      ZeroMod(Pow2(32 - s));
      OrInto(i - k, x / Pow2(s), 32 - s);
      RightSum(was, mid, Value(), x, i, k, s, moved);
    }

    /** operator>>=: division by a power of two, rounding down. */
    method ShiftRight(shift: nat)
      requires Valid()
      modifies pn
      ensures Value() == old(Value()) / Pow2(shift)
    {
      hide Val, Place, Pow2, RightInv, RightMoved;
      var a := pn[..];
      Zero();
      var k, s := shift / 32, shift % 32;
      var i := 0;
      ghost var rest: nat := 0;
      ValNone(a);
      RightStart(k, s);
      while i < WIDTH
        invariant 0 <= i <= WIDTH
        invariant forall j :: 0 <= j < WIDTH && i - k <= j ==> pn[j] == 0
        invariant i > k ==> pn[i - k - 1] < Pow2(32 - s)
        invariant RightInv(Val(a[..i]), Val(pn[..]), rest, i, k, s)
      {
        if i < k {
          rest := RightSkip(a, rest, i, k, s, Val(pn[..]));
        } else {
          ghost var was := Val(pn[..]);
          ShiftLimbRight(a[i], i, k, s);
          rest := RightTake(a, rest, i, k, s, was, Val(pn[..]));
        }
        i := i + 1;
      }
      assert a[..WIDTH] == a;
      RightEnd(Val(a), Val(pn[..]), rest, i, k, s);
    }

    /** Bits of the quotient from this one down are still clear. */
    ghost predicate ClearFrom(shift: int)
      requires Valid() && -1 <= shift < 32 * WIDTH
      reads pn
    {
      shift >= 0 ==>
        && (forall j :: 0 <= j < shift / 32 ==> pn[j] == 0)
        && pn[shift / 32] % Pow2(shift % 32 + 1) == 0
    }

    /** Sets one bit of the quotient. */
    method SetBit(shift: nat)
      requires Valid() && shift < 32 * WIDTH && ClearFrom(shift)
      modifies pn
      ensures Value() == old(Value()) + Pow2(shift) && ClearFrom(shift - 1)
    {
      hide Val, Place, Pow2;
      var k, t := shift / 32, shift % 32;
      Pow2Double(t);
      ghost var before := pn[k];
      OrInto(k, Pow2(t), t + 1);
      Pow2Add(t, 32 * k);
      PlaceIs(k);
      SetLowBit(before, t);
      if t == 0 && k > 0 { ZeroMod(Pow2(32)); }
    }

    /** One step of the long division: subtract if it fits, and set the bit. */
    method DivStep(num: BaseUint, div: BaseUint, shift: nat, ghost n: nat, ghost d: nat)
      requires Valid() && num.Valid() && div.Valid() && num.WIDTH == div.WIDTH == WIDTH
      requires pn != num.pn && pn != div.pn && num.pn != div.pn && shift < 32 * WIDTH && ClearFrom(shift)
      requires Scaled(div.Value(), d, shift) && Dividing(Value(), num.Value(), n, d, shift + 1)
      modifies pn, num.pn, div.pn
      ensures ClearFrom(shift - 1) && Dividing(Value(), num.Value(), n, d, shift)
      ensures shift > 0 ==> Scaled(div.Value(), d, shift - 1)
    {
      hide Val, Place, Pow2, ClearFrom;
      ghost var q, r := Value(), num.Value();
      var cmp := num.CompareTo(div);
      Pow2Double(shift);
      MulAssoc(d, 2, Pow2(shift));
      assert d * Pow2(shift + 1) == 2 * (d * Pow2(shift));
      if cmp >= 0 {
        ValBound(num.pn[..]);
        ModIs(r - d * Pow2(shift), r - d * Pow2(shift), 0, Place(WIDTH));
        num.SubAssign(div);
        SetBit(shift);
        Distribute(q, Pow2(shift), d);
        assert Pow2(shift) * d == d * Pow2(shift);
      } else {
        StillClear(shift);
      }
      div.ShiftRight(1);
      if shift > 0 {
        Pow2Double(shift - 1);
        MulAssoc(d, 2, Pow2(shift - 1));
        assert d * Pow2(shift) == 2 * (d * Pow2(shift - 1));
        Pow2One();
      }
    }

    lemma StillClear(shift: nat)
      requires Valid() && shift < 32 * WIDTH && ClearFrom(shift)
      ensures ClearFrom(shift - 1)
    {
      hide Pow2;
      var t := shift % 32;
      Pow2Double(t);
      CoarserMultiple(pn[shift / 32], Pow2(t));
      if t == 0 && shift > 0 { ZeroMod(Pow2(32)); }
    }

    /** operator/=: the quotient rounded down. Dividing by zero fails, with the value already cleared. */
    method DivAssign(b: BaseUint) returns (ok: bool)
      requires Valid() && b.Valid() && b.WIDTH == WIDTH
      modifies pn
      ensures ok <==> old(b.Value()) != 0
      ensures Value() == if ok then old(Value()) / old(b.Value()) else 0
    {
      hide Val, Place, Pow2, ClearFrom, Scaled, Dividing;
      var div := new BaseUint.Copy(b);
      var num := new BaseUint.Copy(this);
      ghost var n, d := Value(), b.Value();
      Zero();
      var numBits := num.Bits();
      var divBits := div.Bits();
      if divBits == 0 {
        return false;
      }
      if divBits > numBits {
        Pow2Mono(numBits, divBits - 1);
        ModIs(n, n, 0, d);
        return true;
      }
      var shift: int := numBits - divBits;
      Aligned(n, d, numBits, divBits, shift, WIDTH);
      div.ShiftLeft(shift);
      ClearAtStart(shift);
      while shift >= 0
        invariant -1 <= shift < 32 * WIDTH && ClearFrom(shift)
        invariant Dividing(Value(), num.Value(), n, d, shift + 1)
        invariant shift >= 0 ==> Scaled(div.Value(), d, shift)
        modifies pn, num.pn, div.pn
      {
        DivStep(num, div, shift, n, d);
        shift := shift - 1;
      }
      Divided(Value(), num.Value(), n, d);
      return true;
    }

    lemma ClearAtStart(shift: nat)
      requires Valid() && shift < 32 * WIDTH && forall j :: 0 <= j < WIDTH ==> pn[j] == 0
      ensures ClearFrom(shift)
    {
      hide Pow2;
      ZeroMod(Pow2(shift % 32 + 1));
    }

    /** The lowest 64 bits. */
    method GetLow64() returns (r: nat)
      requires Valid()
      ensures r == Value() % TWO_64
    {
      hide Val, Place, High;
      r := Or(pn[0], pn[1] * LIMB);
      ValSplit(pn[..], 2);
      LowTwo(pn[..2], pn[0] + pn[1] * LIMB);
      PlaceTwo();
      Pow2Limb();
      LimbMultiple(pn[1]);
      OrIsSum(pn[0], pn[1] * LIMB, 32);
      ModIs(Value(), r, High(pn[..], 2), TWO_64);
    }

    /** Comparison with a 64-bit number. */
    method EqualTo(b: nat) returns (r: bool)
      requires Valid() && b < TWO_64
      ensures r <==> Value() == b
    {
      hide Val, Place, High;
      PlaceTwo();
      ValSplit(pn[..], 2);
      ValBound(pn[..2]);
      LowTwo(pn[..2], pn[0] + pn[1] * LIMB);
      var i := WIDTH;
      while i > 2
        invariant 2 <= i <= WIDTH && forall j :: i <= j < WIDTH ==> pn[j] == 0
      {
        i := i - 1;
        if pn[i] != 0 {
          HighPositive(pn[..], 2, i);
          MulMono(1, High(pn[..], 2), TWO_64);
          return false;
        }
      }
      ValTopZero(pn[..], 2);
      return pn[1] == b / LIMB && pn[0] == b % LIMB;
    }
  }

  lemma AddColumn(c: nat, x: nat, y: nat, p: nat)
    ensures (c + x + y) * p == c * p + x * p + y * p
  {
    Distribute(c + x, y, p);
    Distribute(c, x, p);
  }

  lemma LowTwo(s: seq<Limb>, b: nat)
    requires |s| >= 2 && s[0] == b % LIMB && s[1] == b / LIMB && forall j :: 2 <= j < |s| ==> s[j] == 0
    ensures Val(s) == b
  {
    hide Place;
    PlaceZero();
    PlaceStep(0);
    ValNone(s);
    ValNext(s, 0);
    ValNext(s, 1);
    ValTopZero(s, 2);
  }

  lemma {:induction false} ValTopZero(s: seq<Limb>, k: nat)
    requires k <= |s| && forall j :: k <= j < |s| ==> s[j] == 0
    ensures Val(s) == Val(s[..k])
    decreases |s|
  {
    if k == |s| {
      assert s[..k] == s;
    } else {
      ValTopZero(s[..|s| - 1], k);
      assert s[..|s| - 1][..k] == s[..k];
    }
  }

  lemma PrefixNext(a: array<Limb>, i: nat)
    requires i < a.Length
    ensures Val(a[..i + 1]) == Val(a[..i]) + a[i] * Place(i)
  {
    ValNext(a[..], i);
    assert a[..][..i + 1] == a[..i + 1] && a[..][..i] == a[..i];
  }

  lemma ComplementColumn(x: Limb, p: nat)
    ensures (LIMB - 1 - x) * p + x * p + p == p * LIMB
  {
    assert (LIMB - 1 - x) * p == LIMB * p - p - x * p;
  }

  lemma IncrementColumn(x: Limb, p: nat)
    ensures ((x + 1) % LIMB - x) * p == if x == LIMB - 1 then p - p * LIMB else p
  {
    var y := (x + 1) % LIMB;
    assert y - x == if x == LIMB - 1 then 1 - LIMB else 1;
    assert (1 - LIMB) * p == p - p * LIMB;
  }

  /** q and r are quotient and remainder so far: what is left is below d times 2^k. */
  ghost predicate Dividing(q: nat, r: nat, n: nat, d: nat, k: nat) {
    q * d + r == n && r < d * Pow2(k)
  }

  ghost predicate Scaled(v: nat, d: nat, k: nat) {
    v == d * Pow2(k)
  }

  lemma Divided(q: nat, r: nat, n: nat, d: nat)
    requires Dividing(q, r, n, d, 0) && d > 0
    ensures q == n / d
  {
    ModIs(n, r, q, d);
  }

  lemma DecrementColumn(x: Limb, p: nat)
    ensures x == 0 ==> ((x + LIMB - 1) % LIMB - x) * p == p * LIMB - p
    ensures x != 0 ==> ((x + LIMB - 1) % LIMB - x) * p == 0 - p
  {
    var y := (x + LIMB - 1) % LIMB;
    assert y - x == if x == 0 then LIMB - 1 else -1;
    assert (LIMB - 1) * p == p * LIMB - p;
    assert -1 * p == 0 - p;
  }

  lemma MinusOne(m: nat)
    requires m > 0
    ensures -1 % m == m - 1
  {
  }

  lemma SubtractByAdding(x: nat, y: nat, m: nat)
    requires x < m && y < m
    ensures (x + (m - y) % m) % m == (x - y) % m
  {
    if y == 0 {
      ModIs(m, 0, 1, m);
    } else {
      ModIs(m - y, m - y, 0, m);
      if x < y {
        ModIs(x + (m - y), x - y + m, 0, m);
        NegativeMod(x - y, m);
      } else {
        ModIs(x + (m - y), x - y, 1, m);
        ModIs(x - y, x - y, 0, m);
      }
    }
  }

  lemma NegativeMod(d: int, m: nat)
    requires d < 0 < d + m
    ensures d % m == d + m
  {
    var q := d / m;
    assert d == m * q + d % m;
    if q < -1 { MulMono(q, -2, m); assert false; }
    if q >= 0 { MulMono(0, q, m); assert false; }
  }

  lemma MulColumn(c: nat, b: nat, x: nat, v: nat, p: nat)
    ensures (c + b * x) * p + v * b == c * p + (v + x * p) * b
  {
    MulNonNegative(b, x);
    Distribute(c, b * x, p);
    MulAssoc(b, x, p);
    Distribute(v, x * p, b);
    assert b * (x * p) == (x * p) * b;
  }

  /** With equal limbs above, the first different one decides. */
  lemma HigherLimbDecides(s: seq<Limb>, t: seq<Limb>, i: nat)
    requires |s| == |t| && i < |s| && s[i] < t[i] && forall j :: i < j < |s| ==> s[j] == t[j]
    ensures Val(s) < Val(t)
  {
    hide Val, Place, High;
    ValSplit(s, i + 1);
    ValSplit(t, i + 1);
    HighSame(s, t, i + 1);
    ValNext(s, i);
    ValNext(t, i);
    ValBound(s[..i]);
    MulLess(s[i], t[i], Place(i));
  }

  lemma {:induction false} HighSame(s: seq<Limb>, t: seq<Limb>, k: nat)
    requires |s| == |t| && k <= |s| && forall j :: k <= j < |s| ==> s[j] == t[j]
    ensures High(s, k) == High(t, k)
    decreases |s|
  {
    hide Place;
    if k < |s| {
      HighSame(s[..|s| - 1], t[..|s| - 1], k);
    }
  }

  lemma RowAdds(v: nat, y: nat, x: nat, p: nat, m: nat, q: nat, row: nat)
    ensures (v + x * p) * y == v * y + (x * p) * y
    ensures (q + row) * m == q * m + row * m
  {
    Distribute(v, x * p, y);
    Distribute(q, row, m);
  }

  /** After i columns of a row: x times the low limbs of y has been added, but for the carry. */
  ghost predicate RowInv(was: nat, x: nat, j: nat, low: nat, i: nat, carry: nat, now: nat) {
    was + (x * Place(j)) * low == now + carry * Place(i + j)
  }

  lemma RowStart(was: nat, x: nat, j: nat)
    ensures RowInv(was, x, j, 0, 0, 0, was)
  {
    hide Place;
  }

  lemma RowStep(was: nat, x: nat, j: nat, y: seq<Limb>, i: nat, c: nat, s: seq<Limb>, n: nat)
    requires i < |y| && i + j < |s| && n == c + s[i + j] + x * y[i] && RowInv(was, x, j, Val(y[..i]), i, c, Val(s))
    ensures RowInv(was, x, j, Val(y[..i + 1]), i + 1, n / LIMB, Val(s[i + j := n % LIMB]))
  {
    hide Val, Place;
    ValUpdate(s, i + j, n % LIMB);
    ValNext(y, i);
    PlaceAdd(i, j);
    PlaceStep(i + j);
    RowSum(was, x, Place(j), Val(y[..i]), y[i], Place(i), c, s[i + j], n, Val(s), Val(s[i + j := n % LIMB]));
  }

  lemma RowSum(was: nat, x: nat, pj: nat, v: nat, yi: nat, pi: nat, c: nat, limb: int, n: nat, before: nat, after: nat)
    requires n == c + limb + x * yi && after == before + (n % LIMB - limb) * (pi * pj)
    requires was + (x * pj) * v == before + c * (pi * pj)
    ensures was + (x * pj) * (v + yi * pi) == after + (n / LIMB) * (pi * pj * LIMB)
  {
    var p := pi * pj;
    Carry(n, p);
    Distribute(c + limb, x * yi, p);
    Distribute(c, limb, p);
    Distribute(n % LIMB, -limb, p);
    Regroup(x, yi, pi, pj);
    DistributeLeft(x * pj, v, yi * pi);
  }

  lemma RowEnd(was: nat, x: nat, j: nat, y: seq<Limb>, i: nat, carry: nat, now: nat) returns (row: nat)
    requires i <= |y| && RowInv(was, x, j, Val(y[..i]), i, carry, now)
    ensures was + (x * Place(j)) * Val(y) == now + row * Place(i + j)
  {
    hide Val, Place, High;
    ValSplit(y, i);
    PlaceAdd(i, j);
    MulNonNegative(x, High(y, i));
    row := carry + x * High(y, i);
    RowOverflow(x, Val(y[..i]), High(y, i), carry, Place(i), Place(j));
  }

  lemma Regroup(x: int, y: int, p: int, r: int)
    ensures (x * y) * (p * r) == (x * r) * (y * p)
  {
    MulAssoc(x, y, p * r);
    MulAssoc(y, p, r);
    MulAssoc(x, r, y * p);
    assert (y * p) * r == r * (y * p);
  }

  lemma DistributeLeft(a: int, b: int, c: int)
    ensures a * (b + c) == a * b + a * c
  {
  }

  lemma RowOverflow(x: nat, low: nat, high: nat, carry: nat, pi: nat, pj: nat)
    ensures (x * pj) * (low + high * pi) == (x * pj) * low + (x * high) * (pi * pj)
    ensures (carry + x * high) * (pi * pj) == carry * (pi * pj) + (x * high) * (pi * pj)
    ensures carry + x * high >= 0
  {
    MulNonNegative(x, high);
    DistributeLeft(x * pj, low, high * pi);
    Regroup(x, high, pi, pj);
    Distribute(carry, x * high, pi * pj);
  }

  /** Below 2^(b+1), bit b is set exactly from 2^b on. */
  lemma TopBit(x: nat, b: nat)
    requires x < Pow2(b + 1)
    ensures x / Pow2(b) % 2 == 1 <==> x >= Pow2(b)
    ensures b == 0 ==> Pow2(b) == 1
  {
    var p := Pow2(b);
    assert Pow2(b + 1) == 2 * p;
    if x >= p {
      DivIsUnique(x, p, 1);
    } else {
      DivIsUnique(x, p, 0);
    }
  }

  lemma BitsOfTop(s: seq<Limb>, pos: nat, b: nat)
    requires pos < |s| && Pow2(b) <= s[pos] < Pow2(b + 1) && forall j :: pos < j < |s| ==> s[j] == 0
    ensures Pow2(32 * pos + b) <= Val(s) < Pow2(32 * pos + b + 1) && Val(s) > 0
  {
    hide Val, Pow2;
    ValTopZero(s, pos + 1);
    ValNext(s, pos);
    ValBound(s[..pos]);
    Pow2Add(b, 32 * pos);
    Pow2Add(b + 1, 32 * pos);
    MulMono(Pow2(b), s[pos], Place(pos));
    var x: int := s[pos];
    MulLess(x, Pow2(b + 1), Place(pos));
  }

  lemma DisjointBits(a: Limb, x: nat, k: nat)
    requires k <= 32
    requires (a < Pow2(k) && x % Pow2(k) == 0 && x < LIMB) || (a % Pow2(k) == 0 && x < Pow2(k))
    ensures Or(a, x) == a + x < LIMB
  {
    hide Pow2, Or;
    Pow2Limb();
    Pow2Add(32 - k, k);
    if a < Pow2(k) && x % Pow2(k) == 0 && x < LIMB {
      OrIsSum(a, x, k);
      RoomAbove(x, a, Pow2(k), Pow2(32 - k));
    } else {
      OrIsSum(x, a, k);
      RoomAbove(a, x, Pow2(k), Pow2(32 - k));
    }
  }

  /** A multiple of p below m * p leaves room for anything below p. */
  lemma RoomAbove(x: nat, a: nat, p: nat, m: nat)
    requires p > 0 && x % p == 0 && x < m * p && a < p
    ensures x + a < m * p
  {
    var q := x / p;
    assert x == q * p;
    if q >= m { MulMono(m, q, p); assert false; }
    MulLess(q, m, p);
  }

  lemma Pow2Positive(k: nat)
    ensures Pow2(k) > 0
  {
  }

  lemma ZeroMod(p: nat)
    requires p > 0
    ensures 0 % p == 0
  {
  }

  /** A limb shifted left by s: the low limb, and what moves into the next one. */
  lemma ShiftParts(x: Limb, s: nat)
    requires s < 32
    ensures var low, high := x * Pow2(s) % LIMB, x / Pow2(32 - s);
            && x * Pow2(s) >= 0 && x * Pow2(s) == high * LIMB + low && high < Pow2(s) && low % Pow2(s) == 0
            && (s == 0 ==> high == 0)
  {
    hide Pow2;
    var p, r := Pow2(s), Pow2(32 - s);
    Pow2Limb();
    Pow2Add(s, 32 - s);
    var high := x / r;
    var rest := x % r;
    assert x == high * r + rest;
    MulAssoc(high, r, p);
    assert r * p == LIMB;
    Distribute(high * r, rest, p);
    assert x * p == high * LIMB + rest * p;
    MulNonNegative(rest, p);
    MulLess(rest, r, p);
    ModIs(x * p, rest * p, high, LIMB);
    assert rest * p == p * rest;
    ModMultiple(rest, p);
    if high >= p { MulMono(p, high, r); assert false; }
    if s == 0 { assert p == 1 by { TopBit(0, 0); } }
  }

  lemma TwoPlaces(t: nat, low: nat, high: nat, j: nat)
    requires t == high * LIMB + low
    ensures t * Place(j) == low * Place(j) + high * Place(j + 1)
  {
    hide Place;
    PlaceStep(j);
    Distribute(high * LIMB, low, Place(j));
    MulAssoc(high, LIMB, Place(j));
    assert LIMB * Place(j) == Place(j) * LIMB;
  }

  /** What limb i contributes to the shifted value. */
  lemma LeftColumn(v: nat, x: nat, i: nat, k: nat, s: nat)
    ensures x * Pow2(s) >= 0
    ensures (v + x * Place(i)) * Pow2(32 * k + s) == v * Pow2(32 * k + s) + (x * Pow2(s)) * Place(i + k)
  {
    hide Pow2;
    MulNonNegative(x, Pow2(s));
    Pow2Add(32 * k, s);
    PlaceAdd(i, k);
    Distribute(v, x * Place(i), Pow2(32 * k + s));
    Regroup(x, Place(i), Place(k), Pow2(s));
    assert (x * Place(i)) * (Place(k) * Pow2(s)) == (x * Pow2(s)) * (Place(i) * Place(k));
  }

  /** How many multiples of 2^BITS fall off the top at limb j. */
  ghost function Dropped(low: nat, high: nat, j: nat, width: nat): (r: nat)
    requires j + 1 >= width
    ensures r * Place(width) == (if j < width then 0 else low * Place(j)) + high * Place(j + 1)
  {
    PlaceAdd(j + 1 - width, width);
    MulAssoc(high, Place(j + 1 - width), Place(width));
    MulNonNegative(high, Place(j + 1 - width));
    if j < width then high * Place(j + 1 - width)
    else
      PlaceAdd(j - width, width);
      MulAssoc(low, Place(j - width), Place(width));
      MulNonNegative(low, Place(j - width));
      Distribute(low * Place(j - width), high * Place(j + 1 - width), Place(width));
      low * Place(j - width) + high * Place(j + 1 - width)
  }

  /** A limb shifted right by s: what stays, and what moves into the limb below. */
  lemma LowPart(x: Limb, hi: nat, lo: nat, p: nat, r: nat)
    requires x == hi * p + lo && lo < p && p * r == LIMB && r > 0
    ensures x * r % LIMB == lo * r && lo * r % r == 0
  {
    Distribute(hi * p, lo, r);
    MulAssoc(hi, p, r);
    MulNonNegative(lo, r);
    MulLess(lo, p, r);
    ModIs(x * r, lo * r, hi, LIMB);
    assert lo * r == r * lo;
    ModMultiple(lo, r);
  }

  lemma RightParts(x: Limb, s: nat)
    requires s < 32
    ensures Pow2(s) > 0 && Pow2(32 - s) > 0 && x / Pow2(s) < Pow2(32 - s) && x == x / Pow2(s) * Pow2(s) + x % Pow2(s)
    ensures var carried := x * Pow2(32 - s) % LIMB; carried == x % Pow2(s) * Pow2(32 - s) && carried % Pow2(32 - s) == 0
    ensures s == 0 ==> x % Pow2(s) == 0
  {
    hide Pow2;
    var p, r := Pow2(s), Pow2(32 - s);
    Pow2Limb();
    Pow2Add(s, 32 - s);
    var hi, lo := x / p, x % p;
    assert x == hi * p + lo;
    if hi >= r { MulMono(r, hi, p); assert false; }
    LowPart(x, hi, lo, p, r);
    if s == 0 { assert p == 1 by { TopBit(0, 0); } }
  }

  lemma RightHigh(x: Limb, i: nat, k: nat, s: nat)
    requires k <= i && Pow2(s) > 0 && x == x / Pow2(s) * Pow2(s) + x % Pow2(s)
    ensures x * Place(i) == ((x / Pow2(s)) * Place(i - k)) * Pow2(32 * k + s) + x % Pow2(s) * Place(i)
  {
    hide Pow2;
    var p, hi := Pow2(s), x / Pow2(s);
    Distribute(hi * p, x % p, Place(i));
    PlaceAdd(i - k, k);
    Pow2Add(32 * k, s);
    Regroup(hi, Place(i - k), p, Place(k));
    assert (hi * Place(i - k)) * (p * Place(k)) == (hi * Place(k)) * (Place(i - k) * p);
    Regroup(hi, p, Place(i - k), Place(k));
    assert (hi * p) * (Place(i - k) * Place(k)) == (hi * Place(k)) * (p * Place(i - k));
    assert p * Place(i - k) == Place(i - k) * p;
    assert p * Place(k) == Place(k) * p;
  }

  lemma RightLow(lo: nat, carried: nat, i: nat, k: nat, s: nat)
    requires s < 32 && k < i && carried == lo * Pow2(32 - s)
    ensures (carried * Place(i - k - 1)) * Pow2(32 * k + s) == lo * Place(i)
  {
    hide Pow2;
    var r := Pow2(32 - s);
    Pow2Add(32 - s, 32 * (i - k - 1));
    Pow2Add(32 - s + 32 * (i - k - 1), 32 * k + s);
    MulAssoc(lo, r, Place(i - k - 1));
    MulAssoc(lo, r * Place(i - k - 1), Pow2(32 * k + s));
  }

  /** What moving limb i by k limbs and s bits adds. */
  ghost predicate RightMoved(was: nat, now: nat, x: Limb, i: nat, k: nat, s: nat) {
    was * Pow2(32 * k + s) + x * Place(i) == now * Pow2(32 * k + s) + if i == k then x % Pow2(s) * Place(k) else 0
  }

  lemma RightSum(was: nat, mid: nat, now: nat, x: Limb, i: nat, k: nat, s: nat, moved: nat)
    requires s < 32 && k <= i
    requires if i > k && s != 0 then moved == x * Pow2(32 - s) % LIMB && mid == was + moved * Place(i - k - 1) else mid == was
    requires now == mid + (x / Pow2(s)) * Place(i - k)
    ensures RightMoved(was, now, x, i, k, s)
  {
    hide Pow2, Place;
    var scale := Pow2(32 * k + s);
    RightParts(x, s);
    RightHigh(x, i, k, s);
    Distribute(mid, (x / Pow2(s)) * Place(i - k), scale);
    if i > k && s != 0 {
      RightLow(x % Pow2(s), moved, i, k, s);
      Distribute(was, moved * Place(i - k - 1), scale);
    }
  }

  /** After i limbs: the value so far, but for the bits shifted out. */
  ghost predicate RightInv(all: nat, now: nat, rest: nat, i: nat, k: nat, s: nat) {
    && all == now * Pow2(32 * k + s) + rest
    && if i <= k then rest < Place(i) && now == 0 else rest < Pow2(32 * k + s)
  }

  lemma RightStart(k: nat, s: nat)
    ensures RightInv(0, 0, 0, 0, k, s)
  {
    hide Pow2;
    PlaceZero();
  }

  lemma RightSkip(a: seq<Limb>, rest: nat, i: nat, k: nat, s: nat, now: nat) returns (rest': nat)
    requires i < |a| && i < k && RightInv(Val(a[..i]), now, rest, i, k, s)
    ensures RightInv(Val(a[..i + 1]), now, rest', i + 1, k, s)
  {
    hide Pow2, Val, Place;
    ValNext(a, i);
    ValBound(a[..i + 1]);
    rest' := Val(a[..i + 1]);
  }

  lemma RightTake(a: seq<Limb>, rest: nat, i: nat, k: nat, s: nat, was: nat, now: nat) returns (rest': nat)
    requires i < |a| && k <= i && s < 32
    requires RightInv(Val(a[..i]), was, rest, i, k, s) && RightMoved(was, now, a[i], i, k, s)
    ensures RightInv(Val(a[..i + 1]), now, rest', i + 1, k, s)
  {
    hide Pow2, Val, Place;
    ValNext(a, i);
    rest' := rest;
    if i == k {
      RightParts(a[i], s);
      MulNonNegative(a[i] % Pow2(s), Place(k));
      rest' := rest + a[i] % Pow2(s) * Place(k);
      PlaceIs(k);
      Pow2Add(s, 32 * k);
      MulLess(a[i] % Pow2(s), Pow2(s), Place(k));
    }
  }

  lemma RightEnd(all: nat, now: nat, rest: nat, i: nat, k: nat, s: nat)
    requires RightInv(all, now, rest, i, k, s)
    ensures now == all / Pow2(32 * k + s)
  {
    hide Pow2, Place;
    if i <= k {
      PlaceIs(i);
      Pow2Mono(32 * i, 32 * k + s);
    }
    ModIs(all, rest, now, Pow2(32 * k + s));
  }

  lemma Pow2Double(k: nat)
    ensures Pow2(k) > 0 && Pow2(k + 1) == 2 * Pow2(k)
  {
  }

  lemma Pow2One()
    ensures Pow2(0) == 1 && Pow2(1) == 2
  {
  }

  lemma PlaceIs(k: nat)
    ensures Place(k) == Pow2(32 * k)
  {
  }

  lemma CoarserMultiple(x: nat, p: nat)
    requires p > 0 && x % (2 * p) == 0
    ensures x % p == 0
  {
    var q := x / (2 * p);
    assert x == (2 * p) * q;
    MulAssoc(p, 2, q);
    ModMultiple(2 * q, p);
  }

  lemma SetLowBit(x: nat, t: nat)
    requires x % Pow2(t + 1) == 0
    ensures Pow2(t) > 0 && (x + Pow2(t)) % Pow2(t) == 0
  {
    var p := Pow2(t);
    CoarserMultiple(x, p);
    var q := x / p;
    assert x == p * q;
    DistributeLeft(p, q, 1);
    ModMultiple(q + 1, p);
  }

  /** Aligning divisor and dividend neither overflows nor leaves the dividend out of reach. */
  lemma AlignFits(d: nat, divBits: nat, shift: nat, numBits: nat, width: nat)
    requires divBits > 0 && divBits + shift == numBits <= 32 * width && Pow2(divBits - 1) <= d < Pow2(divBits)
    ensures 0 <= d * Pow2(shift) < Place(width) && Pow2(numBits) <= d * Pow2(shift + 1)
  {
    hide Pow2;
    Pow2Add(divBits, shift);
    Pow2Mono(numBits, 32 * width);
    Pow2Positive(shift);
    MulNonNegative(d, Pow2(shift));
    MulLess(d, Pow2(divBits), Pow2(shift));
    Pow2Add(divBits - 1, shift + 1);
    MulMono(Pow2(divBits - 1), d, Pow2(shift + 1));
  }

  lemma Aligned(n: nat, d: nat, numBits: nat, divBits: nat, shift: nat, width: nat)
    requires divBits > 0 && divBits + shift == numBits <= 32 * width && Pow2(divBits - 1) <= d < Pow2(divBits) && n < Pow2(numBits)
    ensures Place(width) > 0 && Scaled((d * Pow2(shift)) % Place(width), d, shift) && Dividing(0, n, n, d, shift + 1)
  {
    hide Pow2, Place;
    AlignFits(d, divBits, shift, numBits, width);
    ModIs(d * Pow2(shift), d * Pow2(shift), 0, Place(width));
    assert 0 * d == 0;
  }

  lemma PlaceTwo()
    ensures Place(2) == TWO_64
  {
    hide Place;
    PlaceZero();
    PlaceStep(0);
    PlaceStep(1);
  }

  lemma LimbMultiple(x: Limb)
    ensures (x * LIMB) % LIMB == 0
  {
  }

  lemma {:induction false} HighPositive(s: seq<Limb>, k: nat, i: nat)
    requires k <= i < |s| && s[i] > 0
    ensures High(s, k) > 0
    decreases |s|
  {
    hide Place;
    var m := |s| - 1;
    MulNonNegative(s[m], Place(m - k));
    if i == m {
      MulMono(1, s[m], Place(m - k));
    } else {
      HighPositive(s[..m], k, i);
    }
  }
}
