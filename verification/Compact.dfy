/** Compact targets and the work they stand for. */
module Compact {
  import opened Products
  import opened Limbs
  import opened BigUint

  const WORDS: nat := 8
  const BITS: nat := 256

  /** The number a compact form denotes, however large. */
  function Mantissa(nCompact: nat): nat {
    var size, word := nCompact / 0x100_0000, nCompact % 0x80_0000;
    if size <= 3 then Shr(word, 8 * (3 - size)) else word
  }

  function Exact(nCompact: nat): nat {
    var size := nCompact / 0x100_0000;
    MulNonNegative(Mantissa(nCompact), if size <= 3 then 1 else Pow2(8 * (size - 3)));
    if size <= 3 then Mantissa(nCompact) else Mantissa(nCompact) * Pow2(8 * (size - 3))
  }

  predicate Negative(nCompact: nat) {
    Mantissa(nCompact) != 0 && nCompact / 0x80_0000 % 2 == 1
  }

  /** SetCompact's test for numbers of more than 256 bits. */
  predicate Overflows(nCompact: nat) {
    var size, word := nCompact / 0x100_0000, Mantissa(nCompact);
    word != 0 && (size > 34 || (word > 0xff && size > 33) || (word > 0xffff && size > 32))
  }

  lemma MantissaBound(nCompact: nat)
    ensures Mantissa(nCompact) < 0x80_0000
  {
    hide Pow2;
    var size, word := nCompact / 0x100_0000, nCompact % 0x80_0000;
    if size <= 3 {
      var p := Pow2(8 * (3 - size));
      Pow2Positive(8 * (3 - size));
      var m := word / p;
      assert word == m * p + word % p;
      MulMono(1, p, m);
      assert p * m == m * p;
    }
  }

  lemma SmallPowers()
    ensures Pow2(8) == 0x100 && Pow2(16) == 0x1_0000 && Pow2(24) == 0x100_0000 && Pow2(0) == 1
  {
    assert Pow2(8) == 256;
    Pow2Add(8, 8);
    Pow2Add(16, 8);
  }

  /** The test decides exactly whether the number fits. */
  lemma OverflowsMeans(nCompact: nat)
    ensures Overflows(nCompact) <==> Exact(nCompact) >= Pow2(BITS)
  {
    hide Pow2;
    var size, m := nCompact / 0x100_0000, Mantissa(nCompact);
    MantissaBound(nCompact);
    SmallPowers();
    if size <= 3 {
      Pow2Mono(24, BITS);
    } else if size >= 35 {
      Pow2Mono(BITS, 8 * (size - 3));
      if m != 0 { MulMono(1, m, Pow2(8 * (size - 3))); }
    } else {
      // 2^256 is 2^room times the scale
      var scale, room := Pow2(8 * (size - 3)), BITS - 8 * (size - 3);
      Pow2Add(room, 8 * (size - 3));
      RoomNeeded(size, m);
      if m < Pow2(room) {
        MulLess(m, Pow2(room), scale);
      } else {
        MulMono(Pow2(room), m, scale);
      }
    }
  }

  lemma RoomNeeded(size: nat, m: nat)
    requires 3 < size < 35 && m < 0x80_0000
    ensures m < Pow2(BITS - 8 * (size - 3)) <==> !(m != 0 && ((m > 0xff && size > 33) || (m > 0xffff && size > 32)))
  {
    hide Pow2;
    SmallPowers();
    if size <= 32 { Pow2Mono(24, BITS - 8 * (size - 3)); }
  }

  /** SetCompact: the number itself unless it overflows, with both flags exact. */
  method SetCompact(nCompact: nat) returns (r: BaseUint, fNegative: bool, fOverflow: bool)
    requires nCompact < LIMB
    ensures r.Valid() && r.WIDTH == WORDS && fresh(r) && fresh(r.pn)
    ensures r.Value() == Exact(nCompact) % Pow2(BITS)
    ensures fNegative == Negative(nCompact) && (fOverflow <==> Exact(nCompact) >= Pow2(BITS))
  {
    hide Pow2, Val, Shr;
    var nSize, nWord := nCompact / 0x100_0000, nCompact % 0x80_0000;
    MantissaBound(nCompact);
    OverflowsMeans(nCompact);
    r := new BaseUint(WORDS);
    if nSize <= 3 {
      nWord := Shr(nWord, 8 * (3 - nSize));
      r.Assign(nWord);
      SmallPowers();
      Pow2Mono(24, BITS);
      ModIs(nWord, nWord, 0, Pow2(BITS));
    } else {
      r.Assign(nWord);
      r.ShiftLeft(8 * (nSize - 3));
      PlaceIs(WORDS);
    }
    fNegative := nWord != 0 && nCompact / 0x80_0000 % 2 == 1;
    fOverflow := nWord != 0 && (nSize > 34 || (nWord > 0xff && nSize > 33) || (nWord > 0xffff && nSize > 32));
  }

  // ---------------------------------------------------------------------------------------------
  // Back to compact form

  /** word and size stand for v, cut off below its top bytes. */
  ghost predicate Stands(v: nat, word: nat, size: nat) {
    if size <= 3 then word == v * Pow2(8 * (3 - size)) else word == Shr(v, 8 * (size - 3))
  }

  /** The top three bytes of a number of the given size in bytes. */
  lemma TopBytes(v: nat, bits: nat)
    requires (bits == 0 ==> v == 0) && (bits > 0 ==> Pow2(bits - 1) <= v < Pow2(bits))
    ensures var size := (bits + 7) / 8;
            && (size <= 3 ==> 0 <= v * Pow2(8 * (3 - size)) < 0x100_0000)
            && (size > 3 ==> 0x1_0000 <= Shr(v, 8 * (size - 3)) < 0x100_0000)
  {
    hide Pow2;
    SmallPowers();
    var size := (bits + 7) / 8;
    if bits > 0 {
      Pow2Mono(bits, 8 * size);
      Pow2Mono(8 * (size - 1), bits - 1);
      if size <= 3 {
        Pow2Add(8 * size, 8 * (3 - size));
        Pow2Positive(8 * (3 - size));
        MulNonNegative(v, Pow2(8 * (3 - size)));
        MulLess(v, Pow2(8 * size), Pow2(8 * (3 - size)));
      } else {
        Pow2Add(24, 8 * (size - 3));
        Pow2Add(16, 8 * (size - 3));
        QuotientBetween(v, Pow2(8 * (size - 3)), 0x1_0000, 0x100_0000);
      }
    }
  }

  lemma QuotientBetween(v: nat, p: nat, lo: nat, hi: nat)
    requires p > 0 && lo * p <= v < hi * p
    ensures lo <= v / p < hi
  {
    var q := v / p;
    assert v == q * p + v % p;
    if q < lo { MulLess(q, lo, p); assert false; }
    if q >= hi { MulMono(hi, q, p); assert false; }
  }

  /** Dropping the last byte of the word, because the sign bit needs the room. */
  lemma OneByteLess(v: nat, word: nat, size: nat)
    requires Stands(v, word, size)
    ensures Stands(v, word / 0x100, size + 1)
  {
    hide Pow2;
    SmallPowers();
    if size <= 2 {
      Pow2Add(8 * (2 - size), 8);
      MulAssoc(v, Pow2(8 * (2 - size)), 0x100);
      MulNonNegative(v, Pow2(8 * (2 - size)));
      ModIs(word, 0, v * Pow2(8 * (2 - size)), 0x100);
    } else {
      Pow2Add(8 * (size - 3), 8);
      DivTwice(v, Pow2(8 * (size - 3)), 0x100);
      if size == 3 { assert v * Pow2(0) == v; }
    }
  }

  lemma DivTwice(v: nat, p: nat, r: nat)
    requires p > 0 && r > 0
    ensures p * r > 0 && v / p / r == v / (p * r)
  {
    MulMono(1, p, r);
    var q := v / p;
    DivNonNegative(v, p);
    var t := q / r;
    assert v == q * p + v % p && q == t * r + q % r;
    Distribute(t * r, q % r, p);
    MulAssoc(t, r, p);
    assert r * p == p * r;
    MulNonNegative(q % r, p);
    MulLess(q % r, r, p);
    DivNonNegative(q, r);
    DivIsUnique(v, p * r, t);
  }

  /** A compact form whose parts stand for v denotes v without its low bytes. */
  lemma ExactOfParts(v: nat, word: nat, size: nat, c: nat, sign: nat)
    requires Stands(v, word, size) && word < 0x80_0000 && sign <= 1 && c == size * 0x100_0000 + sign * 0x80_0000 + word
    ensures c / 0x100_0000 == size && c % 0x80_0000 == word && c / 0x80_0000 % 2 == sign
    ensures size <= 3 ==> Exact(c) == Mantissa(c) == v
    ensures size > 3 ==> Exact(c) == v - v % Pow2(8 * (size - 3)) && Mantissa(c) == word
  {
    hide Pow2;
    ModIs(c, sign * 0x80_0000 + word, size, 0x100_0000);
    ModIs(c, word, 2 * size + sign, 0x80_0000);
    if size <= 3 {
      var p := Pow2(8 * (3 - size));
      Pow2Positive(8 * (3 - size));
      ModIs(word, 0, v, p);
    } else {
      Pow2Positive(8 * (size - 3));
    }
  }

  /** A 32-bit number shifted left. */
  function Shl32(x: nat, k: nat): nat {
    MulNonNegative(x, Pow2(k));
    x * Pow2(k) % LIMB
  }

  lemma TopOfSmall(v: nat, bits: nat)
    requires bits <= 24 && (bits == 0 ==> v == 0) && (bits > 0 ==> Pow2(bits - 1) <= v < Pow2(bits))
    ensures var size := (bits + 7) / 8; var word := Shl32(v % TWO_64, 8 * (3 - size)); Stands(v, word, size) && word < 0x100_0000
  {
    hide Pow2;
    TopBytes(v, bits);
    SmallPowers();
    Pow2Mono(bits, 24);
    var size := (bits + 7) / 8;
    var t := v * Pow2(8 * (3 - size));
    ModIs(t, t, 0, LIMB);
  }

  lemma TopOfLarge(v: nat, bits: nat)
    requires bits > 24 && Pow2(bits - 1) <= v < Pow2(bits)
    ensures var size := (bits + 7) / 8; var word := Shr(v, 8 * (size - 3)) % TWO_64 % LIMB;
            Stands(v, word, size) && 0x1_0000 <= word < 0x100_0000
  {
    hide Pow2, Shr;
    TopBytes(v, bits);
  }

  lemma ShrIs(v: nat, k: nat)
    ensures Pow2(k) > 0 && Shr(v, k) == v / Pow2(k)
  {
    hide Pow2;
    Pow2Positive(k);
  }

  lemma WordIsZero(v: nat, word: nat, size: nat)
    requires Stands(v, word, size) && (size > 3 ==> word > 0)
    ensures word == 0 <==> v == 0
  {
    hide Pow2;
    if size <= 3 {
      var p := Pow2(8 * (3 - size));
      Pow2Positive(8 * (3 - size));
      if v > 0 { MulMono(1, v, p); }
    } else {
      ZeroShr(8 * (size - 3));
    }
  }

  lemma ZeroShr(k: nat)
    ensures Shr(0, k) == 0
  {
    hide Pow2;
    DivIsUnique(0, Pow2(k), 0);
  }

  /** Word, sign and size take up different bits. */
  lemma DisjointParts(word: nat, size: nat, sign: nat)
    requires word < 0x80_0000 && size < 256 && sign <= 1
    ensures Or(Or(word, size * 0x100_0000), sign * 0x80_0000) == size * 0x100_0000 + sign * 0x80_0000 + word < LIMB
  {
    hide Pow2, Or;
    SmallPowers();
    Pow2Add(16, 7);
    assert Pow2(7) == 0x80 by { SevenBits(); }
    ModIs(size * 0x100_0000, 0, size, 0x100_0000);
    OrIsSum(word, size * 0x100_0000, 24);
    OrSplit(2 * size, word, sign, 0, 23);
    OrZero(word);
    Pow2One();
    ModIs(2 * size, 0, size, 2);
    OrIsSum(sign, 2 * size, 1);
  }

  lemma SevenBits()
    ensures Pow2(7) == 0x80
  {
  }

  /** The first half of GetCompact: the top bytes, leaving the sign bit free. */
  method TopWord(x: BaseUint) returns (nCompact: nat, nSize: nat)
    requires x.Valid() && x.WIDTH == WORDS
    ensures Stands(x.Value(), nCompact, nSize) && nCompact < 0x80_0000 && nSize < 256 && (nSize > 3 ==> nCompact >= 0x8000)
  {
    hide Pow2, Val, Shr, Shl32, Stands;
    ghost var v := x.Value();
    var bits := x.Bits();
    nSize := (bits + 7) / 8;
    if nSize <= 3 {
      TopOfSmall(v, bits);
      var low := x.GetLow64();
      nCompact := Shl32(low, 8 * (3 - nSize));
    } else {
      TopOfLarge(v, bits);
      var bn := new BaseUint.Copy(x);
      bn.ShiftRight(8 * (nSize - 3));
      ShrIs(v, 8 * (nSize - 3));
      var low := bn.GetLow64();
      nCompact := low % LIMB;
    }
    if nCompact / 0x80_0000 % 2 == 1 {
      OneByteLess(v, nCompact, nSize);
      nCompact, nSize := nCompact / 0x100, nSize + 1;
    }
  }

  /** GetCompact keeps the top bytes, at least sixteen bits of them, and everything when it fits. */
  method GetCompact(x: BaseUint, fNegative: bool) returns (c: nat)
    requires x.Valid() && x.WIDTH == WORDS
    ensures c < LIMB && (Negative(c) <==> fNegative && x.Value() != 0)
    ensures c / 0x100_0000 <= 3 ==> Exact(c) == x.Value()
    ensures c / 0x100_0000 > 3 ==> Mantissa(c) >= 0x8000 && Exact(c) == x.Value() - x.Value() % Pow2(8 * (c / 0x100_0000 - 3))
  {
    hide Pow2, Val, Shr, Exact, Stands, Mantissa, Or;
    var nCompact, nSize := TopWord(x);
    WordIsZero(x.Value(), nCompact, nSize);
    var sign := if fNegative && nCompact != 0 then 1 else 0;
    DisjointParts(nCompact, nSize, sign);
    c := Or(Or(nCompact, nSize * 0x100_0000), sign * 0x80_0000);
    ExactOfParts(x.Value(), nCompact, nSize, c, sign);
  }

  // ---------------------------------------------------------------------------------------------
  // Block proof

  /** An accepted target is never the largest number, so adding one to it does not wrap around. */
  lemma TargetIsNotMaximal(nCompact: nat)
    requires Exact(nCompact) < Pow2(BITS)
    ensures Exact(nCompact) + 1 < Pow2(BITS)
  {
    hide Pow2;
    var size, m := nCompact / 0x100_0000, Mantissa(nCompact);
    MantissaBound(nCompact);
    SmallPowers();
    Pow2Add(1, 255);
    Pow2One();
    if size <= 3 {
      Pow2Mono(24, BITS);
    } else {
      Pow2Add(1, 8 * (size - 3) - 1);
      var half := Pow2(8 * (size - 3) - 1);
      assert m * (2 * half) == 2 * (m * half) by { MulAssoc(m, 2, half); MulAssoc(2, m, half); assert m * 2 == 2 * m; }
    }
  }

  /** 2^256 / (t + 1), computed without 2^256. */
  lemma ProofWithoutOverflow(t: nat, m: nat)
    requires 0 < t && t + 1 < m
    ensures (m - 1 - t) / (t + 1) + 1 == m / (t + 1) < m
  {
    var d := t + 1;
    var q, r := (m - 1 - t) / d, (m - 1 - t) % d;
    DivNonNegative(m - 1 - t, d);
    assert m - 1 - t == q * d + r;
    assert (q + 1) * d == q * d + d;
    DivIsUnique(m, d, q + 1);
    MulMono(2, d, q + 1);
    assert d * (q + 1) == (q + 1) * d;
  }

  /** Main result: the work of a block is 2^256 / (target + 1) rounded down, or zero for a target that is
      negative, too large or zero. */
  method GetBlockProof(nBits: nat) returns (work: BaseUint)
    requires nBits < LIMB
    ensures work.Valid() && work.WIDTH == WORDS
    ensures work.Value() == if Negative(nBits) || Exact(nBits) >= Pow2(BITS) || Exact(nBits) == 0 then 0
                            else Pow2(BITS) / (Exact(nBits) + 1)
  {
    hide Pow2, Val, Exact, Negative;
    var target, fNegative, fOverflow := SetCompact(nBits);
    if fNegative || fOverflow {
      work := new BaseUint(WORDS);
      return;
    }
    ghost var t, m := Exact(nBits), Pow2(BITS);
    PlaceIs(WORDS);
    ModIs(t, t, 0, m);
    var isZero := target.EqualTo(0);
    if isZero {
      work := new BaseUint(WORDS);
      return;
    }
    TargetIsNotMaximal(nBits);
    ProofWithoutOverflow(t, m);
    var one := new BaseUint(WORDS);
    one.Assign(1);
    work := target.Complement();
    target.AddAssign(one);
    ModIs(t + 1, t + 1, 0, m);
    var ok := work.DivAssign(target);
    DivNonNegative(m - 1 - t, t + 1);
    work.AddAssign(one);
    ModIs(m / (t + 1), m / (t + 1), 0, m);
  }
}
