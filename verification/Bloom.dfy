/** The rolling bloom filter: two bits per position say in which of three generations it was last set. */
module Bloom {
  import opened Products

  type Key = seq<int>

  // ---------------------------------------------------------------------------------------------
  // Bits of a word

  predicate Bit(w: bv64, b: bv64)
    requires b < 64
  {
    (w >> b) & 1 != 0
  }

  /** All ones or all zeros. */
  function Spread(on: bool): bv64 {
    if on then 0xFFFF_FFFF_FFFF_FFFF else 0
  }

  /** A bit in place b. */
  function Shifted(on: bool, b: bv64): bv64
    requires b < 64
  {
    (if on then 1 else 0 as bv64) << b
  }

  function And64(x: bv64, y: bv64): bv64 {
    x & y
  }

  function Or64(x: bv64, y: bv64): bv64 {
    x | y
  }

  function Xor64(x: bv64, y: bv64): bv64 {
    x ^ y
  }

  function Not64(x: bv64): bv64 {
    !x
  }

  /** Bit b of w replaced. */
  function SetBit(w: bv64, b: bv64, on: bool): bv64
    requires b < 64
  {
    Or64(And64(w, Not64(Shifted(true, b))), Shifted(on, b))
  }

  /** The bits of x at positions not in the given generation. */
  function KeepOthers(x: bv64, p1: bv64, p2: bv64, g1: bool, g2: bool): bv64 {
    And64(x, Or64(Xor64(p1, Spread(g1)), Xor64(p2, Spread(g2))))
  }

  lemma BitOfAnd(x: bv64, y: bv64, b: bv64)
    requires b < 64
    ensures Bit(And64(x, y), b) == (Bit(x, b) && Bit(y, b))
  {
    hide Bit;
    RawAnd(x, y, b);
  }

  lemma RawAnd(x: bv64, y: bv64, b: bv64)
    requires b < 64
    ensures Bit(x & y, b) == (Bit(x, b) && Bit(y, b))
  {
  }

  lemma BitOfOr(x: bv64, y: bv64, b: bv64)
    requires b < 64
    ensures Bit(Or64(x, y), b) == (Bit(x, b) || Bit(y, b))
  {
    hide Bit;
    RawOr(x, y, b);
  }

  lemma RawOr(x: bv64, y: bv64, b: bv64)
    requires b < 64
    ensures Bit(x | y, b) == (Bit(x, b) || Bit(y, b))
  {
  }

  lemma BitOfXor(x: bv64, on: bool, b: bv64)
    requires b < 64
    ensures Bit(Xor64(x, Spread(on)), b) == (Bit(x, b) != on)
  {
    hide Bit;
    RawXor(x, on, b);
  }

  lemma RawXor(x: bv64, on: bool, b: bv64)
    requires b < 64
    ensures Bit(x ^ Spread(on), b) == (Bit(x, b) != on)
  {
  }

  lemma BitOfNot(x: bv64, b: bv64)
    requires b < 64
    ensures Bit(Not64(x), b) == !Bit(x, b)
  {
    hide Bit;
    RawNot(x, b);
  }

  lemma RawNot(x: bv64, b: bv64)
    requires b < 64
    ensures Bit(!x, b) == !Bit(x, b)
  {
  }

  lemma BitOfShifted(on: bool, b: bv64, c: bv64)
    requires b < 64 && c < 64
    ensures Bit(Shifted(on, b), c) == (on && b == c)
  {
  }

  lemma BitOfZero(b: bv64)
    requires b < 64
    ensures !Bit(0, b)
  {
  }

  lemma BitOfSet(w: bv64, b: bv64, on: bool, c: bv64)
    requires b < 64 && c < 64
    ensures Bit(SetBit(w, b, on), c) == if c == b then on else Bit(w, c)
  {
    hide Bit, And64, Or64, Not64, Shifted;
    BitOfShifted(true, b, c);
    BitOfShifted(on, b, c);
    BitOfNot(Shifted(true, b), c);
    BitOfAnd(w, Not64(Shifted(true, b)), c);
    BitOfOr(And64(w, Not64(Shifted(true, b))), Shifted(on, b), c);
  }

  lemma BitOfKeepOthers(x: bv64, p1: bv64, p2: bv64, g1: bool, g2: bool, b: bv64)
    requires b < 64
    ensures Bit(KeepOthers(x, p1, p2, g1, g2), b) == (Bit(x, b) && (Bit(p1, b) != g1 || Bit(p2, b) != g2))
  {
    hide Bit, And64, Or64, Xor64, Spread;
    var m1, m2 := Xor64(p1, Spread(g1)), Xor64(p2, Spread(g2));
    BitOfXor(p1, g1, b);
    BitOfXor(p2, g2, b);
    BitOfOr(m1, m2, b);
    BitOfAnd(x, Or64(m1, m2), b);
  }

  // ---------------------------------------------------------------------------------------------
  // Positions

  datatype Cell = Cell(pair: nat, bit: bv64)

  ghost predicate CellOk(c: Cell, words: nat) {
    2 * c.pair + 1 < words && c.bit < 64
  }

  /** The generation number stored for a position, or zero. */
  function Code(data: seq<bv64>, c: Cell): (r: nat)
    requires CellOk(c, |data|)
    ensures r < 4
  {
    (if Bit(data[2 * c.pair], c.bit) then 1 else 0) + if Bit(data[2 * c.pair + 1], c.bit) then 2 else 0
  }

  datatype Params = Params(hashFuncs: nat, words: nat, tweak: nat, hash: (nat, nat, Key) -> bv32)

  ghost predicate ParamsOk(p: Params) {
    p.words >= 2 && p.words % 2 == 0
  }

  /** The position the n-th hash function gives a key. */
  function CellFor(p: Params, n: nat, key: Key): (c: Cell)
    requires ParamsOk(p)
    ensures CellOk(c, p.words)
  {
    var h := p.hash(n, p.tweak, key);
    LowBits(h);
    Cell((h >> 6) as nat % p.words / 2, (h & 0x3F) as bv64)
  }

  lemma LowBits(h: bv32)
    ensures (h & 0x3F) as bv64 < 64
  {
  }

  ghost predicate Touches(p: Params, key: Key, c: Cell, hashes: nat)
    requires ParamsOk(p)
  {
    exists n :: 0 <= n < hashes && CellFor(p, n, key) == c
  }

  // ---------------------------------------------------------------------------------------------
  // Generations

  /** An inserted key and the generation, counted from the start, it went into. */
  datatype Entry = Entry(key: Key, stamp: nat)

  /** The generation in which a position was last set, or -1. */
  ghost function LastSet(p: Params, hist: seq<Entry>, c: Cell): int
    requires ParamsOk(p)
  {
    if hist == [] then -1
    else if Touches(p, hist[|hist| - 1].key, c, p.hashFuncs) then hist[|hist| - 1].stamp
    else LastSet(p, hist[..|hist| - 1], c)
  }

  /** What is stored for a stamp: its generation number while it is one of the last three. */
  function StampCode(stamp: int, gen: nat): nat {
    if stamp < 0 || stamp + 2 < gen then 0 else 1 + stamp % 3
  }

  /** Every position shows the generation it was last set in, or nothing if that is too long ago. */
  ghost predicate Shows(p: Params, hist: seq<Entry>, gen: nat, data: seq<bv64>)
    requires ParamsOk(p)
  {
    |data| == p.words && forall c :: CellOk(c, p.words) ==> Code(data, c) == StampCode(LastSet(p, hist, c), gen)
  }

  ghost predicate StampsOk(hist: seq<Entry>, gen: nat) {
    && (forall i :: 0 <= i < |hist| ==> hist[i].stamp <= gen)
    && (forall i, j :: 0 <= i < j < |hist| ==> hist[i].stamp <= hist[j].stamp)
  }

  lemma {:induction false} LastSetWithin(p: Params, hist: seq<Entry>, c: Cell, gen: nat)
    requires ParamsOk(p) && StampsOk(hist, gen)
    ensures -1 <= LastSet(p, hist, c) <= gen
  {
    if hist != [] { LastSetWithin(p, hist[..|hist| - 1], c, gen); }
  }

  /** A position is never shown as older than any key that set it. */
  lemma {:induction false} LastSetAtLeast(p: Params, hist: seq<Entry>, c: Cell, i: nat)
    requires ParamsOk(p) && i < |hist| && Touches(p, hist[i].key, c, p.hashFuncs)
    requires forall i, j :: 0 <= i < j < |hist| ==> hist[i].stamp <= hist[j].stamp
    ensures LastSet(p, hist, c) >= hist[i].stamp
  {
    var m := |hist| - 1;
    if i < m && !Touches(p, hist[m].key, c, p.hashFuncs) {
      LastSetAtLeast(p, hist[..m], c, i);
    }
  }

  // ---------------------------------------------------------------------------------------------
  // Starting a generation

  /** Positions of the new generation's number are cleared, the others kept. */
  ghost predicate Wiped(data: seq<bv64>, data': seq<bv64>, number: nat) {
    && |data'| == |data|
    && forall c :: CellOk(c, |data|) ==> Code(data', c) == if Code(data, c) == number then 0 else Code(data, c)
  }

  /** Three numbers suffice: the one reused is the one whose positions are too old to show. */
  lemma NewGeneration(p: Params, hist: seq<Entry>, gen: nat, data: seq<bv64>, data': seq<bv64>)
    requires ParamsOk(p) && StampsOk(hist, gen) && Shows(p, hist, gen, data) && Wiped(data, data', 1 + (gen + 1) % 3)
    ensures Shows(p, hist, gen + 1, data') && StampsOk(hist, gen + 1)
  {
    hide LastSet, Code;
    forall c | CellOk(c, p.words) ensures Code(data', c) == StampCode(LastSet(p, hist, c), gen + 1) {
      LastSetWithin(p, hist, c, gen);
      var s := LastSet(p, hist, c);
      if s >= 0 && s + 2 >= gen { ThreeInARow(s, gen); }
    }
  }

  lemma ThreeInARow(s: nat, gen: nat)
    requires s <= gen <= s + 2
    ensures s % 3 == (gen + 1) % 3 <==> s + 2 == gen
  {
  }

  // ---------------------------------------------------------------------------------------------
  // Setting a key's positions

  /** The first n positions of key show the number; every other position is as before. */
  ghost predicate Marked(p: Params, data: seq<bv64>, data': seq<bv64>, key: Key, n: nat, number: nat)
    requires ParamsOk(p)
  {
    && |data'| == |data| == p.words
    && forall c :: CellOk(c, p.words) ==> Code(data', c) == if Touches(p, key, c, n) then number else Code(data, c)
  }

  lemma KeyInserted(p: Params, hist: seq<Entry>, gen: nat, data: seq<bv64>, data': seq<bv64>, key: Key)
    requires ParamsOk(p) && StampsOk(hist, gen) && Shows(p, hist, gen, data)
    requires Marked(p, data, data', key, p.hashFuncs, 1 + gen % 3)
    ensures Shows(p, hist + [Entry(key, gen)], gen, data') && StampsOk(hist + [Entry(key, gen)], gen)
  {
    hide Code, Touches;
    var h := hist + [Entry(key, gen)];
    assert h[..|h| - 1] == hist;
  }

  lemma MarkOne(p: Params, data: seq<bv64>, d: seq<bv64>, d': seq<bv64>, key: Key, n: nat, number: nat)
    requires ParamsOk(p) && Marked(p, data, d, key, n, number) && |d'| == |d|
    requires forall c :: CellOk(c, p.words) ==> Code(d', c) == if c == CellFor(p, n, key) then number else Code(d, c)
    ensures Marked(p, data, d', key, n + 1, number)
  {
    hide Code, CellFor;
    forall c | CellOk(c, p.words) ensures Code(d', c) == if Touches(p, key, c, n + 1) then number else Code(data, c) {
      assert Touches(p, key, c, n + 1) <==> Touches(p, key, c, n) || CellFor(p, n, key) == c;
    }
  }

  // ---------------------------------------------------------------------------------------------
  // Retention

  /** contains: every position of the key shows some generation. */
  ghost predicate ContainsKey(p: Params, data: seq<bv64>, key: Key)
    requires ParamsOk(p) && |data| == p.words
  {
    forall n :: 0 <= n < p.hashFuncs ==> Code(data, CellFor(p, n, key)) != 0
  }

  /** Keys of the last three generations are found. */
  lemma RecentIsFound(p: Params, hist: seq<Entry>, gen: nat, data: seq<bv64>, i: nat)
    requires ParamsOk(p) && StampsOk(hist, gen) && Shows(p, hist, gen, data) && i < |hist| && hist[i].stamp + 2 >= gen
    ensures ContainsKey(p, data, hist[i].key)
  {
    hide Code, CellFor;
    forall n | 0 <= n < p.hashFuncs ensures Code(data, CellFor(p, n, hist[i].key)) != 0 {
      var c := CellFor(p, n, hist[i].key);
      assert Touches(p, hist[i].key, c, p.hashFuncs);
      LastSetAtLeast(p, hist, c, i);
      LastSetWithin(p, hist, c, gen);
    }
  }

  /** Generations fill up before the next one starts. */
  ghost predicate Counted(hist: seq<Entry>, gen: nat, perGeneration: nat, entries: nat) {
    && |hist| == gen * perGeneration + entries
    && (perGeneration > 0 ==> entries <= perGeneration && forall i :: 0 <= i < |hist| ==> BeforeEnd(i, hist[i].stamp, perGeneration))
  }

  /** The i-th insertion comes before the end of its generation. */
  ghost predicate BeforeEnd(i: nat, stamp: nat, perGeneration: nat) {
    i < (stamp + 1) * perGeneration
  }

  lemma CountOne(hist: seq<Entry>, gen: nat, perGeneration: nat, entries: nat, key: Key)
    requires Counted(hist, gen, perGeneration, entries) && (perGeneration > 0 ==> entries < perGeneration)
    ensures Counted(hist + [Entry(key, gen)], gen, perGeneration, entries + 1)
  {
    assert (gen + 1) * perGeneration == gen * perGeneration + perGeneration;
  }

  lemma CountGeneration(hist: seq<Entry>, gen: nat, perGeneration: nat, entries: nat)
    requires Counted(hist, gen, perGeneration, entries) && entries == perGeneration
    ensures Counted(hist, gen + 1, perGeneration, 0)
  {
    assert (gen + 1) * perGeneration == gen * perGeneration + perGeneration;
  }

  /** The last two generations' worth of keys are in the last three generations. */
  lemma RecentStamps(hist: seq<Entry>, gen: nat, perGeneration: nat, entries: nat, i: nat)
    requires Counted(hist, gen, perGeneration, entries) && i < |hist| <= i + 2 * perGeneration
    ensures hist[i].stamp + 2 >= gen
  {
    assert BeforeEnd(i, hist[i].stamp, perGeneration);
    var s := hist[i].stamp;
    assert (s + 3) * perGeneration == (s + 1) * perGeneration + 2 * perGeneration;
    if s + 2 < gen {
      MulMono(s + 3, gen, perGeneration);
      assert false;
    }
  }

  class RollingBloomFilter {
    const nElements: nat
    const nEntriesPerGeneration: nat
    const nHashFuncs: nat
    const hash: (nat, nat, Key) -> bv32
    const data: array<bv64>
    var nTweak: nat
    var nEntriesThisGeneration: nat
    var nGeneration: nat
    ghost var hist: seq<Entry>
    ghost var gen: nat

    ghost function P(): Params
      reads this
    {
      Params(nHashFuncs, data.Length, nTweak, hash)
    }

    ghost predicate Valid()
      reads this, data
    {
      && ParamsOk(P()) && nEntriesPerGeneration == (nElements + 1) / 2
      && nGeneration == 1 + gen % 3
      && StampsOk(hist, gen) && Counted(hist, gen, nEntriesPerGeneration, nEntriesThisGeneration)
      && Shows(P(), hist, gen, data[..])
    }

    constructor (nElements: nat, nHashFuncs: nat, pairs: nat, hash: (nat, nat, Key) -> bv32, tweak: nat)
      requires pairs > 0
      ensures Valid() && hist == [] && this.nElements == nElements && fresh(data)
    {
      this.nElements, this.nHashFuncs, this.hash := nElements, nHashFuncs, hash;
      nEntriesPerGeneration := (nElements + 1) / 2;
      data := new bv64[2 * pairs];
      nTweak, nEntriesThisGeneration, nGeneration := tweak, 0, 1;
      hist, gen := [], 0;
      new;
      Reset(tweak);
    }

    /** Forgets everything. */
    method Reset(tweak: nat)
      requires data.Length >= 2 && data.Length % 2 == 0 && nEntriesPerGeneration == (nElements + 1) / 2
      modifies this, data
      ensures Valid() && hist == [] && nTweak == tweak
    {
      nTweak, nEntriesThisGeneration, nGeneration := tweak, 0, 1;
      hist, gen := [], 0;
      var i := 0;
      while i < data.Length
        invariant 0 <= i <= data.Length && forall j :: 0 <= j < i ==> data[j] == 0
        modifies data
      {
        data[i] := 0;
        i := i + 1;
      }
      NothingShown(P(), data[..]);
    }

    method Insert(key: Key)
      requires Valid()
      modifies this, data
      ensures Valid() && |hist| == |old(hist)| + 1 && hist[..|old(hist)|] == old(hist) && hist[|old(hist)|].key == key
    {
      hide Shows, StampsOk, Counted, Wiped, Marked;
      if nEntriesThisGeneration == nEntriesPerGeneration {
        CountGeneration(hist, gen, nEntriesPerGeneration, nEntriesThisGeneration);
        nEntriesThisGeneration := 0;
        nGeneration := nGeneration + 1;
        if nGeneration == 4 {
          nGeneration := 1;
        }
        ghost var before := data[..];
        Wipe(nGeneration);
        NewGeneration(P(), hist, gen, before, data[..]);
        gen := gen + 1;
      }
      EntriesBelow(hist, gen, nEntriesPerGeneration, nEntriesThisGeneration);
      CountOne(hist, gen, nEntriesPerGeneration, nEntriesThisGeneration, key);
      nEntriesThisGeneration := nEntriesThisGeneration + 1;
      ghost var before := data[..];
      Mark(key);
      KeyInserted(P(), hist, gen, before, data[..], key);
      hist := hist + [Entry(key, gen)];
    }

    /** Clears the positions last set in an earlier generation of the same number. */
    method Wipe(number: nat)
      requires 1 <= number <= 3 && data.Length % 2 == 0
      modifies data
      ensures Wiped(old(data[..]), data[..], number)
    {
      hide KeepOthers, Bit;
      ghost var was := data[..];
      var p := 0;
      while p < data.Length
        invariant 0 <= p <= data.Length && p % 2 == 0
        invariant forall j :: p <= j < data.Length ==> data[j] == was[j]
        invariant forall k :: 0 <= k && 2 * k + 1 < p ==> PairWiped(was, data[..], k, number)
        modifies data
      {
        ghost var before := data[..];
        var p1, p2 := data[p], data[p + 1];
        data[p] := KeepOthers(p1, p1, p2, number % 2 == 1, number / 2 == 1);
        data[p + 1] := KeepOthers(p2, p1, p2, number % 2 == 1, number / 2 == 1);
        assert PairWiped(was, data[..], p / 2, number);
        forall k | 0 <= k && 2 * k + 1 < p ensures PairWiped(was, data[..], k, number) {
          assert PairWiped(was, before, k, number);
        }
        p := p + 2;
      }
      PairsWiped(was, data[..], number);
    }

    /** Sets every position of the key to the current generation. */
    method Mark(key: Key)
      requires ParamsOk(P()) && 1 <= nGeneration <= 3
      modifies data
      ensures Marked(P(), old(data[..]), data[..], key, nHashFuncs, nGeneration)
    {
      hide Code, SetBit, Bit, CellFor;
      ghost var was := data[..];
      var n := 0;
      NothingMarked(P(), was, key, nGeneration);
      while n < nHashFuncs
        invariant 0 <= n <= nHashFuncs && Marked(P(), was, data[..], key, n, nGeneration)
        modifies data
      {
        var c := CellFor(Params(nHashFuncs, data.Length, nTweak, hash), n, key);
        ghost var before := data[..];
        data[2 * c.pair] := SetBit(data[2 * c.pair], c.bit, nGeneration % 2 == 1);
        data[2 * c.pair + 1] := SetBit(data[2 * c.pair + 1], c.bit, nGeneration / 2 == 1);
        CellSet(before, data[..], c, nGeneration);
        MarkOne(P(), was, before, data[..], key, n, nGeneration);
        n := n + 1;
      }
    }

    /** Finds every one of the last nElements keys inserted. */
    method Contains(key: Key) returns (r: bool)
      requires Valid()
      ensures r == ContainsKey(P(), data[..], key)
      ensures forall i :: 0 <= i < |hist| && |hist| - nElements <= i && hist[i].key == key ==> r
    {
      hide Shows, StampsOk, Counted, Bit, CellFor;
      forall i | 0 <= i < |hist| && |hist| - nElements <= i ensures ContainsKey(P(), data[..], hist[i].key) {
        RecentStamps(hist, gen, nEntriesPerGeneration, nEntriesThisGeneration, i);
        RecentIsFound(P(), hist, gen, data[..], i);
      }
      var n := 0;
      while n < nHashFuncs
        invariant 0 <= n <= nHashFuncs
        invariant forall j :: 0 <= j < n ==> Code(data[..], CellFor(P(), j, key)) != 0
      {
        var c := CellFor(Params(nHashFuncs, data.Length, nTweak, hash), n, key);
        EitherBit(data[..], c);
        if !Bit(Or64(data[2 * c.pair], data[2 * c.pair + 1]), c.bit) {
          return false;
        }
        n := n + 1;
      }
      return true;
    }
  }

  lemma EntriesBelow(hist: seq<Entry>, gen: nat, perGeneration: nat, entries: nat)
    requires Counted(hist, gen, perGeneration, entries)
    ensures perGeneration > 0 ==> entries <= perGeneration
  {
  }

  lemma NothingShown(p: Params, data: seq<bv64>)
    requires ParamsOk(p) && |data| == p.words && forall i :: 0 <= i < |data| ==> data[i] == 0
    ensures Shows(p, [], 0, data)
  {
    hide Bit;
    forall c | CellOk(c, p.words) ensures Code(data, c) == 0 { BitOfZero(c.bit); }
  }

  lemma NothingMarked(p: Params, data: seq<bv64>, key: Key, number: nat)
    requires ParamsOk(p) && |data| == p.words
    ensures Marked(p, data, data, key, 0, number)
  {
    hide Code, CellFor;
  }

  /** One pair of words without the positions of the given number. */
  ghost predicate PairWiped(was: seq<bv64>, now: seq<bv64>, k: nat, number: nat) {
    && 2 * k + 1 < |was| == |now|
    && now[2 * k] == KeepOthers(was[2 * k], was[2 * k], was[2 * k + 1], number % 2 == 1, number / 2 == 1)
    && now[2 * k + 1] == KeepOthers(was[2 * k + 1], was[2 * k], was[2 * k + 1], number % 2 == 1, number / 2 == 1)
  }

  lemma PairsWiped(was: seq<bv64>, now: seq<bv64>, number: nat)
    requires 1 <= number <= 3 && |was| == |now| && forall k :: 0 <= k && 2 * k + 1 < |was| ==> PairWiped(was, now, k, number)
    ensures Wiped(was, now, number)
  {
    hide KeepOthers, Bit;
    forall c | CellOk(c, |was|) ensures Code(now, c) == if Code(was, c) == number then 0 else Code(was, c) {
      assert PairWiped(was, now, c.pair, number);
      var p1, p2 := was[2 * c.pair], was[2 * c.pair + 1];
      BitOfKeepOthers(p1, p1, p2, number % 2 == 1, number / 2 == 1, c.bit);
      BitOfKeepOthers(p2, p1, p2, number % 2 == 1, number / 2 == 1, c.bit);
    }
  }

  lemma CellSet(before: seq<bv64>, after: seq<bv64>, c: Cell, number: nat)
    requires CellOk(c, |before|) && 1 <= number <= 3
    requires after == before[2 * c.pair := SetBit(before[2 * c.pair], c.bit, number % 2 == 1)]
                      [2 * c.pair + 1 := SetBit(before[2 * c.pair + 1], c.bit, number / 2 == 1)]
    ensures |after| == |before| && forall d :: CellOk(d, |before|) ==> Code(after, d) == if d == c then number else Code(before, d)
  {
    hide Bit, SetBit;
    forall d | CellOk(d, |before|) ensures Code(after, d) == if d == c then number else Code(before, d) {
      if d.pair == c.pair {
        BitOfSet(before[2 * c.pair], c.bit, number % 2 == 1, d.bit);
        BitOfSet(before[2 * c.pair + 1], c.bit, number / 2 == 1, d.bit);
      }
    }
  }

  lemma EitherBit(data: seq<bv64>, c: Cell)
    requires CellOk(c, |data|)
    ensures Bit(Or64(data[2 * c.pair], data[2 * c.pair + 1]), c.bit) <==> Code(data, c) != 0
  {
    hide Bit, Or64;
    BitOfOr(data[2 * c.pair], data[2 * c.pair + 1], c.bit);
  }
}
