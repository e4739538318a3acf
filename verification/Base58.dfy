/** Base58: byte strings as text, converting between radix 256 and radix 58 in place. */
module Base58 {
  import opened Wrappers
  import opened Products
  import opened Radix

  /** The alphabet 123456789ABCDEFGHJKLMNPQRSTUVWXYZabcdefghijkmnopqrstuvwxyz: no 0, I, O or l. */
  function Symbol(d: nat): char
    requires d < 58
  {
    if d < 9 then ('1' as int + d) as char
    else if d < 17 then ('A' as int + d - 9) as char
    else if d < 22 then ('J' as int + d - 17) as char
    else if d < 33 then ('P' as int + d - 22) as char
    else if d < 44 then ('a' as int + d - 33) as char
    else ('m' as int + d - 44) as char
  }

  /** strchr in the alphabet. */
  function IndexOf(c: char): (r: Option<nat>)
    ensures r.Some? ==> r.value < 58 && Symbol(r.value) == c
  {
    if '1' <= c <= '9' then Some(c as int - '1' as int)
    else if 'A' <= c <= 'H' then Some(c as int - 'A' as int + 9)
    else if 'J' <= c <= 'N' then Some(c as int - 'J' as int + 17)
    else if 'P' <= c <= 'Z' then Some(c as int - 'P' as int + 22)
    else if 'a' <= c <= 'k' then Some(c as int - 'a' as int + 33)
    else if 'm' <= c <= 'z' then Some(c as int - 'm' as int + 44)
    else None
  }

  lemma IndexOfSymbol(d: nat)
    requires d < 58
    ensures IndexOf(Symbol(d)) == Some(d) && !IsSpace(Symbol(d))
  {
  }

  predicate IsSpace(c: char) {
    c == ' ' || '\t' <= c <= '\r'
  }

  // ---------------------------------------------------------------------------------------------
  // Multiply-and-add on a digit buffer

  /** Digits left of the last `length` are still zero. */
  ghost predicate Used(s: seq<nat>, length: nat) {
    length <= |s| && forall i :: 0 <= i < |s| - length ==> s[i] == 0
  }

  /** buffer = buffer * factor + add, from the last digit up; the carry is gone at the end because the
      result fits the buffer. */
  method MulAdd(buf: array<nat>, base: nat, factor: nat, add: nat, length: nat) returns (length': nat)
    requires base > 1 && Digits(buf[..], base) && Used(buf[..], length)
    requires Val(buf[..], base) * factor + add < Pow(base, buf.Length)
    modifies buf
    ensures Digits(buf[..], base) && Used(buf[..], length')
    ensures Val(buf[..], base) == Val(old(buf[..]), base) * factor + add
  {
    hide Val, Pow;
    var size := buf.Length;
    ghost var was := buf[..];
    var carry, i := add, 0;
    MulStart(was, base, factor, add);
    while (carry != 0 || i < length) && i < size
      invariant 0 <= i <= size && 0 <= carry && Digits(buf[..], base)
      invariant forall j :: 0 <= j < size - i ==> buf[j] == was[j]
      invariant MulInv(was, buf[..], base, factor, add, carry, i)
    {
      var p := size - 1 - i;
      ghost var before := buf[..];
      MulNonNegative(factor, buf[p]);
      var total: nat := carry + factor * buf[p];
      var digit: nat := total % base;
      buf[p] := digit;
      carry := total / base;
      MulStep(was, before, base, factor, add, total, i);
      assert buf[..] == before[p := digit];
      i := i + 1;
    }
    MulEnd(was, buf[..], base, factor, add, carry, i, length);
    assert carry == 0;
    length' := i;
  }

  /** After i digits: their new value and the carry are what the old ones give. */
  ghost predicate MulInv(was: seq<nat>, s: seq<nat>, base: nat, factor: nat, add: nat, carry: nat, i: nat) {
    && |s| == |was| && i <= |s|
    && Val(s[|s| - i..], base) + carry * Pow(base, i) == Val(was[|s| - i..], base) * factor + add
  }

  lemma MulStart(s: seq<nat>, base: nat, factor: nat, add: nat)
    ensures MulInv(s, s, base, factor, add, add, 0)
  {
    assert s[|s|..] == [];
  }

  lemma MulStep(was: seq<nat>, s: seq<nat>, base: nat, factor: nat, add: nat, total: nat, i: nat)
    requires base > 1 && i < |s| == |was| && s[|s| - 1 - i] == was[|s| - 1 - i]
    requires factor * s[|s| - 1 - i] >= 0 && total >= factor * s[|s| - 1 - i]
    requires MulInv(was, s, base, factor, add, total - factor * s[|s| - 1 - i], i)
    ensures total / base >= 0
    ensures MulInv(was, s[|s| - 1 - i := total % base], base, factor, add, total / base, i + 1)
  {
    hide Val, Pow;
    var p := |s| - 1 - i;
    var d := s[p];
    var r := s[p := total % base];
    DivNonNegative(total, base);
    assert r[p..] == [total % base] + s[p + 1..];
    assert was[p..] == [d] + was[p + 1..];
    FrontDigit(total % base, s[p + 1..], base);
    FrontDigit(d, was[p + 1..], base);
    PowStep(base, i);
    CarryOn(total, factor, d, base, Pow(base, i), Val(s[p + 1..], base), Val(was[p + 1..], base), add);
  }

  lemma FrontDigit(d: nat, t: seq<nat>, base: nat)
    ensures Val([d] + t, base) == d * Pow(base, |t|) + Val(t, base)
  {
    ValSplit([d], t, base);
    assert Val([d], base) == d;
  }

  lemma CarryOn(total: nat, factor: nat, d: nat, base: nat, p: nat, low: nat, old_: nat, add: nat)
    requires base > 0 && low + (total - factor * d) * p == old_ * factor + add
    ensures (total % base * p + low) + total / base * (p * base) == (d * p + old_) * factor + add
  {
    var q, r := total / base, total % base;
    assert total == q * base + r;
    assert (total - factor * d) * p == total * p - (factor * d) * p;
    assert (q * base + r) * p == (q * base) * p + r * p;
    MulAssoc(q, base, p);
    assert base * p == p * base;
    MulAssoc(factor, d, p);
    assert factor * (d * p) == (d * p) * factor;
    assert (d * p + old_) * factor == (d * p) * factor + old_ * factor;
  }

  lemma NoCarry(v: nat, carry: nat, p: nat, total: int)
    requires v + carry * p == total < p
    ensures carry == 0 && v == total
  {
    if carry > 0 { MulMono(1, carry, p); assert false; }
  }

  lemma MulWhole(was: seq<nat>, s: seq<nat>, base: nat, factor: nat, add: nat, carry: nat, i: nat)
    requires MulInv(was, s, base, factor, add, carry, i) && i == |s|
    ensures |s| == |was| && Val(s, base) + carry * Pow(base, i) == Val(was, base) * factor + add
  {
    hide Val, Pow;
    assert s[0..] == s && was[0..] == was;
  }

  lemma MulShort(was: seq<nat>, s: seq<nat>, base: nat, factor: nat, add: nat, i: nat)
    requires MulInv(was, s, base, factor, add, 0, i)
    ensures |s| == |was| && i <= |s| && Val(s[|s| - i..], base) == Val(was[|s| - i..], base) * factor + add
  {
    hide Val, Pow;
    assert 0 * Pow(base, i) == 0;
  }

  lemma MulEnd(was: seq<nat>, s: seq<nat>, base: nat, factor: nat, add: nat, carry: nat, i: nat, length: nat)
    requires base > 1 && MulInv(was, s, base, factor, add, carry, i) && Used(was, length)
    requires Val(was, base) * factor + add < Pow(base, |was|)
    requires forall j :: 0 <= j < |s| - i ==> s[j] == was[j]
    requires i == |s| || (carry == 0 && i >= length)
    ensures carry == 0 && Used(s, i) && Val(s, base) == Val(was, base) * factor + add
  {
    hide Val, Pow, MulInv;
    if i == |s| {
      MulWhole(was, s, base, factor, add, carry, i);
      NoCarry(Val(s, base), carry, Pow(base, i), Val(was, base) * factor + add);
    } else {
      MulShort(was, s, base, factor, add, i);
      ZeroPrefix(s, i, base);
      ZeroPrefix(was, i, base);
    }
  }

  lemma ZeroPrefix(s: seq<nat>, i: nat, base: nat)
    requires i <= |s| && forall j :: 0 <= j < |s| - i ==> s[j] == 0
    ensures Val(s, base) == Val(s[|s| - i..], base)
  {
    hide Pow, Val;
    var zeros, rest := s[..|s| - i], s[|s| - i..];
    assert s == zeros + rest;
    ValSplit(zeros, rest, base);
    ValZeros(zeros, base);
    assert 0 * Pow(base, |rest|) == 0;
  }

  // ---------------------------------------------------------------------------------------------
  // The buffers suffice

  lemma Square(b: nat, k: nat, x: nat)
    requires Pow(b, k) == x
    ensures Pow(b, 2 * k) == x * x
  {
    PowAdd(b, k, k);
  }

  /** Eleven base58 digits hold eight bytes. */
  lemma ElevenForEight()
    ensures Pow(58, 11) >= Pow(256, 8)
  {
    hide Pow;
    Powers58();
    Powers256();
    PowAdd(58, 8, 2);
    PowAdd(58, 10, 1);
  }

  /** Fifty-two bytes hold seventy-one base58 digits. */
  lemma FiftyTwoForSeventyOne()
    ensures Pow(256, 52) >= Pow(58, 71)
  {
    hide Pow;
    Powers58();
    Powers256();
    PowAdd(58, 64, 4);
    PowAdd(58, 68, 2);
    PowAdd(58, 70, 1);
    PowAdd(256, 32, 16);
    PowAdd(256, 48, 4);
  }

  lemma Powers58()
    ensures Pow(58, 1) == 58
    ensures Pow(58, 2) == 3364
    ensures Pow(58, 4) == 11316496
    ensures Pow(58, 8) == 128063081718016
    ensures Pow(58, 16) == 16400152899115243850138976256
    ensures Pow(58, 32) == 268965015114358137726910587140455987105619365599731777536
    ensures Pow(58, 64) == 72342179355466901471258927612150153907721848234316445933056526044582001260898145151856420451025374266490194231296
  {
    assert Pow(58, 1) == 58;
    hide Pow;
    Square(58, 1, 58);
    Square(58, 2, 3364);
    Square(58, 4, 11316496);
    Square(58, 8, 128063081718016);
    Square(58, 16, 16400152899115243850138976256);
    Square(58, 32, 268965015114358137726910587140455987105619365599731777536);
  }

  lemma Powers256()
    ensures Pow(256, 1) == 256
    ensures Pow(256, 2) == 65536
    ensures Pow(256, 4) == 4294967296
    ensures Pow(256, 8) == 18446744073709551616
    ensures Pow(256, 16) == 340282366920938463463374607431768211456
    ensures Pow(256, 32) == 115792089237316195423570985008687907853269984665640564039457584007913129639936
  {
    assert Pow(256, 1) == 256;
    hide Pow;
    Square(256, 1, 256);
    Square(256, 2, 65536);
    Square(256, 4, 4294967296);
    Square(256, 8, 18446744073709551616);
    Square(256, 16, 340282366920938463463374607431768211456);
  }

  lemma EncodeBufferFits(n: nat)
    ensures Pow(58, n * 138 / 100 + 1) >= Pow(256, n)
  {
    hide Pow;
    ElevenForEight();
    EnoughDigits(58, 256, 11, 8, n, n * 138 / 100 + 1);
  }

  lemma DecodeBufferFits(n: nat)
    ensures Pow(256, n * 733 / 1000 + 1) >= Pow(58, n)
  {
    hide Pow;
    FiftyTwoForSeventyOne();
    EnoughDigits(256, 58, 52, 71, n, n * 733 / 1000 + 1);
  }

  // ---------------------------------------------------------------------------------------------
  // What encoding and decoding mean

  /** How many of the first items are x. */
  function Leading<T(==)>(s: seq<T>, x: T): (z: nat)
    ensures z <= |s| && (forall i :: 0 <= i < z ==> s[i] == x) && (z < |s| ==> s[z] != x)
  {
    if s == [] || s[0] != x then 0 else 1 + Leading(s[1..], x)
  }

  function Repeat<T>(x: T, n: nat): (r: seq<T>)
    ensures |r| == n && forall i :: 0 <= i < n ==> r[i] == x
  {
    seq(n, _ => x)
  }

  function Symbols(digits: seq<nat>): (r: seq<char>)
    requires Digits(digits, 58)
    ensures |r| == |digits| && forall i :: 0 <= i < |r| ==> r[i] == Symbol(digits[i])
  {
    seq(|digits|, i requires 0 <= i < |digits| => Symbol(digits[i]))
  }

  predicate InAlphabet(s: seq<char>) {
    forall i :: 0 <= i < |s| ==> IndexOf(s[i]).Some?
  }

  function Indices(s: seq<char>): (r: seq<nat>)
    requires InAlphabet(s)
    ensures |r| == |s| && Digits(r, 58) && forall i :: 0 <= i < |r| ==> IndexOf(s[i]) == Some(r[i])
  {
    seq(|s|, i requires 0 <= i < |s| => IndexOf(s[i]).value)
  }

  /** A one per leading zero byte, then the number in base 58. */
  function Encode(v: seq<nat>): seq<char>
    requires Digits(v, 256)
  {
    CanonDigits(Val(v, 256), 58);
    Repeat('1', Leading(v, 0)) + Symbols(Canon(Val(v, 256), 58))
  }

  /** Where the run of (non-)spaces from position i on ends. */
  function RunEnd(s: seq<char>, i: nat, spaces: bool): (r: nat)
    requires i <= |s|
    ensures i <= r <= |s| && (forall j :: i <= j < r ==> IsSpace(s[j]) == spaces) && (r < |s| ==> IsSpace(s[r]) != spaces)
    decreases |s| - i
  {
    if i == |s| || IsSpace(s[i]) != spaces then i else RunEnd(s, i + 1, spaces)
  }

  /** The bytes a word of the alphabet stands for. */
  function DecodeWord(w: seq<char>): seq<nat>
    requires InAlphabet(w)
  {
    var ones := Leading(w, '1');
    Repeat(0, ones) + Canon(Val(Indices(w[ones..]), 58), 256)
  }

  /** One word of the alphabet, with nothing but spaces around it. */
  function Decode(s: seq<char>): Option<seq<nat>> {
    var start := RunEnd(s, 0, true);
    var end := RunEnd(s, start, false);
    if InAlphabet(s[start..end]) && RunEnd(s, end, true) == |s| then Some(DecodeWord(s[start..end])) else None
  }

  // ---------------------------------------------------------------------------------------------
  // Round trips

  /** x up to a position, then something else: that is how many leading x there are. */
  lemma {:induction false} LeadingIs<T>(s: seq<T>, x: T, z: nat)
    requires z <= |s| && (forall i :: 0 <= i < z ==> s[i] == x) && (z < |s| ==> s[z] != x)
    ensures Leading(s, x) == z
  {
    if z > 0 { LeadingIs(s[1..], x, z - 1); }
  }

  /** Leading zeros do not count, and the rest is determined by the value. */
  lemma StrippedIsCanon(v: seq<nat>, base: nat)
    requires base > 1 && Digits(v, base)
    ensures v[Leading(v, 0)..] == Canon(Val(v, base), base)
  {
    var z := Leading(v, 0);
    ZeroPrefix(v, |v| - z, base);
    assert |v| - (|v| - z) == z;
    CanonUnique(v[z..], base);
  }

  lemma WholeWord(e: seq<char>)
    requires InAlphabet(e)
    ensures Decode(e) == Some(DecodeWord(e))
  {
    forall i | 0 <= i < |e| ensures !IsSpace(e[i]) { IndexOfSymbol(IndexOf(e[i]).value); }
    var start := RunEnd(e, 0, true);
    var end := RunEnd(e, start, false);
    assert start == 0 && end == |e|;
    assert e[start..end] == e;
  }

  /** Main result: decoding undoes encoding, for every byte string. */
  lemma DecodeEncode(v: seq<nat>)
    requires Digits(v, 256)
    ensures Decode(Encode(v)) == Some(v)
  {
    hide Symbol, IndexOf, IsSpace, Val, Canon, Leading, Decode;
    var z, n := Leading(v, 0), Val(v, 256);
    var e := Encode(v);
    var digits := Canon(n, 58);
    CanonDigits(n, 58);
    SymbolsIndices(digits);
    OnesThenWord(z, digits);
    assert e == Repeat('1', z) + Symbols(digits);
    WholeWord(e);
    assert e[z..] == Symbols(digits);
    StrippedIsCanon(v, 256);
    assert v == Repeat(0, z) + v[z..];
  }

  lemma OnesThenWord(z: nat, digits: seq<nat>)
    requires Digits(digits, 58) && NoLeadingZero(digits)
    ensures var e := Repeat('1', z) + Symbols(digits); InAlphabet(e) && Leading(e, '1') == z
  {
    hide Symbol, IndexOf, IsSpace, Leading;
    var e := Repeat('1', z) + Symbols(digits);
    OneIsZero();
    forall i | 0 <= i < |e| ensures IndexOf(e[i]).Some? {
      if i >= z { IndexOfSymbol(digits[i - z]); }
    }
    if digits != [] { IndexOfSymbol(digits[0]); assert e[z] == Symbol(digits[0]); }
    LeadingIs(e, '1', z);
  }

  lemma OneIsZero()
    ensures Symbol(0) == '1' && IndexOf('1') == Some(0)
  {
  }

  lemma SymbolsIndices(digits: seq<nat>)
    requires Digits(digits, 58)
    ensures InAlphabet(Symbols(digits)) && Indices(Symbols(digits)) == digits
  {
    var s := Symbols(digits);
    forall i | 0 <= i < |s| ensures IndexOf(s[i]) == Some(digits[i]) { IndexOfSymbol(digits[i]); }
  }

  /** And encoding undoes decoding, for every word of the alphabet. */
  lemma EncodeDecode(w: seq<char>)
    requires InAlphabet(w)
    ensures Digits(DecodeWord(w), 256) && Encode(DecodeWord(w)) == w
  {
    hide Symbol, IndexOf, IsSpace, Val, Canon, Leading;
    var z := Leading(w, '1');
    var digits := Indices(w[z..]);
    var n := Val(digits, 58);
    var v := DecodeWord(w);
    CanonDigits(n, 256);
    assert v[z..] == Canon(n, 256);
    LeadingIs(v, 0, z);
    ZeroPrefix(v, |v| - z, 256);
    assert |v| - (|v| - z) == z;
    OneIsZero();
    if digits != [] { assert w[z..][0] == w[z]; }
    CanonUnique(digits, 58);
    IndicesSymbols(w[z..]);
    assert w == Repeat('1', z) + w[z..];
  }

  lemma IndicesSymbols(s: seq<char>)
    requires InAlphabet(s)
    ensures Symbols(Indices(s)) == s
  {
  }

  // ---------------------------------------------------------------------------------------------
  // The conversions in place

  /** The digits of buf without leading zeros. */
  method Strip(buf: array<nat>, length: nat) returns (r: seq<nat>)
    requires Used(buf[..], length)
    ensures r == buf[Leading(buf[..], 0)..]
  {
    hide Leading;
    var i := buf.Length - length;
    while i < buf.Length && buf[i] == 0
      invariant buf.Length - length <= i <= buf.Length && forall j :: 0 <= j < i ==> buf[j] == 0
    {
      i := i + 1;
    }
    LeadingIs(buf[..], 0, i);
    return buf[i..];
  }

  /** Reads digits of one base into a buffer of another. */
  method Convert(digits: seq<nat>, from: nat, size: nat, to: nat) returns (r: seq<nat>)
    requires from > 1 && to > 1 && Digits(digits, from) && Pow(to, size) >= Pow(from, |digits|)
    ensures r == Canon(Val(digits, from), to)
  {
    hide Val, Pow, Canon, Leading, Used;
    var buf := new nat[size](_ => 0);
    ghost var zeros := buf[..];
    ValZeros(buf[..], to);
    UnusedAtFirst(buf[..]);
    var length, k := 0, 0;
    assert digits[..0] == [];
    ValEmpty(from);
    while k < |digits|
      invariant 0 <= k <= |digits| && Digits(buf[..], to) && Used(buf[..], length)
      invariant Val(buf[..], to) == Val(digits[..k], from)
    {
      Prefix(digits, k, from);
      length := MulAdd(buf, to, from, digits[k], length);
      k := k + 1;
    }
    assert digits[..k] == digits;
    r := Strip(buf, length);
    StrippedIsCanon(buf[..], to);
  }

  lemma UnusedAtFirst(s: seq<nat>)
    requires forall i :: 0 <= i < |s| ==> s[i] == 0
    ensures Used(s, 0)
  {
  }

  lemma ValEmpty(base: nat)
    ensures Val([], base) == 0
  {
  }

  lemma Prefix(digits: seq<nat>, k: nat, base: nat)
    requires k < |digits| && base > 0 && Digits(digits, base)
    ensures Val(digits[..k + 1], base) == Val(digits[..k], base) * base + digits[k]
    ensures Val(digits[..k], base) * base + digits[k] < Pow(base, |digits|)
  {
    assert digits[..k + 1][..k] == digits[..k];
    ValBound(digits[..k + 1], base);
    PowMonoExp(base, k + 1, |digits|);
  }

  method EncodeBase58(v: seq<nat>) returns (str: seq<char>)
    requires Digits(v, 256)
    ensures str == Encode(v)
  {
    hide Val, Pow, Canon, Leading, Symbol;
    var zeroes := 0;
    while zeroes < |v| && v[zeroes] == 0
      invariant 0 <= zeroes <= |v| && forall j :: 0 <= j < zeroes ==> v[j] == 0
    {
      zeroes := zeroes + 1;
    }
    LeadingIs(v, 0, zeroes);
    var rest := v[zeroes..];
    ZeroPrefix(v, |v| - zeroes, 256);
    assert |v| - (|v| - zeroes) == zeroes;
    EncodeBufferFits(|rest|);
    var digits := Convert(rest, 256, |rest| * 138 / 100 + 1, 58);
    CanonDigits(Val(v, 256), 58);
    str := Repeat('1', zeroes);
    var i := 0;
    while i < |digits|
      invariant 0 <= i <= |digits| && str == Repeat('1', zeroes) + Symbols(digits)[..i]
    {
      str := str + [Symbol(digits[i])];
      i := i + 1;
    }
    assert Symbols(digits)[..i] == Symbols(digits);
  }

  method SkipRun(s: seq<char>, from: nat, spaces: bool) returns (i: nat)
    requires from <= |s|
    ensures i == RunEnd(s, from, spaces)
  {
    i := from;
    while i < |s| && IsSpace(s[i]) == spaces
      invariant from <= i <= |s| && RunEnd(s, from, spaces) == RunEnd(s, i, spaces)
    {
      i := i + 1;
    }
  }

  /** The digits from position `from` to `end`, multiplied into the buffer; false at a character outside the
      alphabet. */
  method ReadDigits(psz: seq<char>, from: nat, end: nat, b256: array<nat>) returns (ok: bool, length: nat, ghost rest: seq<nat>)
    requires from <= end <= |psz| && b256.Length == DecodeSize(|psz| - from) && forall j :: 0 <= j < b256.Length ==> b256[j] == 0
    modifies b256
    ensures ok ==> ReadSoFar(psz, from, end, rest) && Digits(b256[..], 256) && Used(b256[..], length) && Val(b256[..], 256) == Val(rest, 58)
    ensures !ok ==> exists k :: from <= k < end && IndexOf(psz[k]) == None
  {
    hide Val, Pow, IndexOf, DecodeSize;
    ValZeros(b256[..], 256);
    UnusedAtFirst(b256[..]);
    ValEmpty(58);
    rest, length := [], 0;
    var i := from;
    while i < end
      invariant from <= i <= end && ReadSoFar(psz, from, i, rest)
      invariant Digits(b256[..], 256) && Used(b256[..], length) && Val(b256[..], 256) == Val(rest, 58)
    {
      var index := IndexOf(psz[i]);
      if index == None {
        return false, length, rest;
      }
      OneMoreFits(rest, index.value, |psz| - from);
      length := MulAdd(b256, 256, 58, index.value, length);
      rest := rest + [index.value];
      i := i + 1;
    }
    ok := true;
  }

  /** The ones that stand for leading zero bytes. */
  method SkipOnes(psz: seq<char>, start: nat, end: nat) returns (i: nat)
    requires start <= end <= |psz|
    ensures start <= i <= end && i - start == Leading(psz[start..end], '1') && forall j :: start <= j < i ==> psz[j] == '1'
  {
    hide Leading;
    ghost var word := psz[start..end];
    i := start;
    while i < end && psz[i] == '1'
      invariant start <= i <= end && forall j :: start <= j < i ==> psz[j] == '1'
    {
      i := i + 1;
    }
    forall j | 0 <= j < i - start ensures word[j] == '1' { assert word[j] == psz[start + j]; }
    LeadingIs(word, '1', i - start);
  }

  lemma NotDecoded(s: seq<char>, start: nat, end: nat)
    requires start == RunEnd(s, 0, true) && end == RunEnd(s, start, false)
    requires !InAlphabet(s[start..end]) || RunEnd(s, end, true) != |s|
    ensures Decode(s) == None
  {
    hide RunEnd, InAlphabet, DecodeWord;
  }

  lemma OutsideAlphabet(s: seq<char>, start: nat, end: nat, k: nat)
    requires start <= k < end <= |s| && IndexOf(s[k]) == None
    ensures !InAlphabet(s[start..end])
  {
    hide IndexOf;
    assert s[start..end][k - start] == s[k];
  }

  lemma Decoded(s: seq<char>, start: nat, end: nat, zeroes: nat, rest: seq<nat>, bytes: seq<nat>)
    requires start == RunEnd(s, 0, true) && end == RunEnd(s, start, false) && RunEnd(s, end, true) == |s|
    requires start + zeroes <= end <= |s| && zeroes == Leading(s[start..end], '1') && ReadSoFar(s, start + zeroes, end, rest)
    requires forall j :: start <= j < start + zeroes ==> s[j] == '1'
    requires bytes == Canon(Val(rest, 58), 256)
    ensures Decode(s) == Some(Repeat(0, zeroes) + bytes)
  {
    hide RunEnd, InAlphabet, IndexOf, ReadSoFar, Canon, Val, Leading;
    AllInAlphabet(s, start, zeroes, end, rest);
  }

  method DecodeBase58(psz: seq<char>) returns (r: Option<seq<nat>>)
    ensures r == Decode(psz)
  {
    hide Val, Pow, Canon, Leading, RunEnd, IndexOf, DecodeSize, Decode, InAlphabet, ReadSoFar, Repeat, Used, Digits;
    var start := SkipRun(psz, 0, true);
    var end := SkipRun(psz, start, false);
    var i := SkipOnes(psz, start, end);
    var b256 := new nat[DecodeSize(|psz| - i)](_ => 0);
    ghost var rest;
    var ok, length;
    ok, length, rest := ReadDigits(psz, i, end, b256);
    if !ok {
      ghost var k :| i <= k < end && IndexOf(psz[k]) == None;
      OutsideAlphabet(psz, start, end, k);
      NotDecoded(psz, start, end);
      return None;
    }
    var last := SkipRun(psz, end, true);
    if last != |psz| {
      NotDecoded(psz, start, end);
      return None;
    }
    var bytes := Strip(b256, length);
    StrippedIsCanon(b256[..], 256);
    Decoded(psz, start, end, i - start, rest, bytes);
    return Some(Repeat(0, i - start) + bytes);
  }

  /** rest holds the alphabet indices of the characters between two positions. */
  ghost predicate ReadSoFar(s: seq<char>, from: nat, i: nat, rest: seq<nat>) {
    && from <= i <= |s| && |rest| == i - from && Digits(rest, 58)
    && forall k :: 0 <= k < |rest| ==> IndexOf(s[from + k]) == Some(rest[k])
  }

  lemma AllInAlphabet(s: seq<char>, start: nat, z: nat, end: nat, rest: seq<nat>)
    requires start + z <= end <= |s| && ReadSoFar(s, start + z, end, rest) && forall j :: start <= j < start + z ==> s[j] == '1'
    ensures InAlphabet(s[start..end]) && InAlphabet(s[start..end][z..]) && rest == Indices(s[start..end][z..])
  {
    hide IndexOf;
    OneIsZero();
    var word := s[start..end];
    forall i | 0 <= i < |word| ensures IndexOf(word[i]).Some? {
      if i >= z {
        var k := i - z;
        assert IndexOf(s[start + z + k]) == Some(rest[k]);
      }
    }
    forall k | 0 <= k < |rest| ensures IndexOf(word[z..][k]) == Some(rest[k]) {
      assert word[z..][k] == s[start + z + k];
    }
  }

  /** The buffer is sized by all remaining characters, so one digit more always fits. */
  /** log(58) / log(256), rounded up. */
  function DecodeSize(n: nat): nat {
    n * 733 / 1000 + 1
  }

  lemma OneMoreFits(rest: seq<nat>, d: nat, n: nat)
    requires Digits(rest, 58) && d < 58 && |rest| < n
    ensures Val(rest + [d], 58) == Val(rest, 58) * 58 + d < Pow(256, DecodeSize(n))
  {
    hide Pow;
    var s := rest + [d];
    assert s[..|s| - 1] == rest;
    ValBound(s, 58);
    DecodeBufferFits(n);
    PowMonoExp(58, |s|, n);
  }
}
