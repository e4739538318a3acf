/** The cuckoo cache in place: a table, bit-packed collection flags and epoch flags. */
module CuckooCache {
  import opened Products
  import opened FlagBits
  import opened Cuckoo
  import opened CuckooRuns

  /** bit_packed_atomic_flags. */
  class BitFlags {
    ghost const n: nat
    const mem: array<bv8>

    ghost predicate Valid() {
      ByteCount(n) <= mem.Length
    }

    ghost function Flags(): (r: seq<bool>)
      requires Valid()
      reads mem
      ensures |r| == n && forall i :: 0 <= i < n ==> r[i] == Test(mem[i / 8], i % 8)
    {
      seq(n, i requires 0 <= i < n reads mem => Test(mem[i / 8], i % 8))
    }

    constructor (size: nat)
      ensures Valid() && n == size && fresh(mem) && Flags() == seq(size, _ => true)
    {
      n := size;
      mem := new bv8[ByteCount(size)](_ => 0xFF);
      new;
      forall i | 0 <= i < size ensures Test(mem[i / 8], i % 8) { TestFull(i % 8); }
    }

    method BitSet(s: nat)
      requires Valid() && s < n
      modifies mem
      ensures Flags() == old(Flags())[s := true]
    {
      hide Test, Mask;
      mem[s / 8] := mem[s / 8] | Mask(s % 8);
      forall i | 0 <= i < n ensures Test(mem[i / 8], i % 8) == (i == s || old(Test(mem[i / 8], i % 8))) {
        if i / 8 == s / 8 { TestSet(old(mem[s / 8]), s % 8, i % 8); }
      }
    }

    method BitUnset(s: nat)
      requires Valid() && s < n
      modifies mem
      ensures Flags() == old(Flags())[s := false]
    {
      hide Test, Mask;
      mem[s / 8] := mem[s / 8] & !Mask(s % 8);
      forall i | 0 <= i < n ensures Test(mem[i / 8], i % 8) == (i != s && old(Test(mem[i / 8], i % 8))) {
        if i / 8 == s / 8 { TestUnset(old(mem[s / 8]), s % 8, i % 8); }
      }
    }

    method BitIsSet(s: nat) returns (r: bool)
      requires Valid() && s < n
      ensures r == Flags()[s]
    {
      r := Test(mem[s / 8], s % 8);
    }
  }

  ghost predicate Apart(a: object, b: object) {
    a != b
  }

  /** The largest unsigned 32-bit value plus one. */
  const TWO_32: nat := 0x1_0000_0000

  /** setup's choice of sizes for a depth limit: 45% of the slots make an epoch. */
  function Sizes(depthLimit: nat, hash: (nat, Element) -> nat): Params {
    var size := Pow2(depthLimit);
    Params(size, Max(1, (45 * size) % TWO_32 / 100), depthLimit, hash)
  }

  class Cache {
    ghost const p: Params
    const hash: (nat, Element) -> nat
    const size: nat
    const epochSize: nat
    const depthLimit: nat
    const table: array<Element>
    const flags: BitFlags
    const epochFlags: array<bool>
    var counter: nat

    ghost predicate Shape() {
      && p == Params(size, epochSize, depthLimit, hash) && p.size > 0 && p.epochSize > 0 && p.depthLimit > 0
      && table.Length == size && epochFlags.Length == size && flags.Valid() && flags.n == size
      && Apart(table, flags.mem) && Apart(table, epochFlags) && Apart(epochFlags, flags.mem)
    }

    ghost predicate Valid()
      reads this, table, flags.mem, epochFlags
    {
      Shape() && Inv(p, Abs())
    }

    ghost function Abs(): Table
      requires flags.Valid()
      reads this, table, flags.mem, epochFlags
    {
      Table(table[..], flags.Flags(), epochFlags[..], counter)
    }

    /** The eight places of an element. */
    method ComputeHashes(e: Element) returns (locs: seq<nat>)
      requires Shape()
      ensures locs == Locs(p, e)
    {
      locs := seq(HASHES, k requires 0 <= k < HASHES => hash(k, e) % size);
    }

    constructor (depth: nat, hash: (nat, Element) -> nat)
      requires depth > 0
      ensures Valid() && fresh(table) && fresh(flags.mem) && fresh(epochFlags)
      ensures p == Sizes(depth, hash) && Abs() == Fresh(p, Abs().elems)
    {
      var sz := Pow2(depth);
      var es := Max(1, (45 * sz) % TWO_32 / 100);
      p := Params(sz, es, depth, hash);
      this.hash, size, epochSize, depthLimit := hash, sz, es, depth;
      table := new Element[sz];
      flags := new BitFlags(sz);
      epochFlags := new bool[sz](_ => false);
      counter := es;
      new;
      FreshInv(p, table[..]);
      assert epochFlags[..] == seq(size, _ => false);
    }
  
    /** The scan of epoch_check: how many slots of the current epoch are to be kept. */
    method CountLiving() returns (count: nat)
      requires Shape()
      ensures count == Living(Abs(), size)
    {
      hide Locs, Wf;
      count := 0;
      var i := 0;
      while i < size
        invariant 0 <= i <= size && count == Living(Abs(), i)
      {
        var collected := flags.BitIsSet(i);
        if epochFlags[i] && !collected {
          count := count + 1;
        }
        i := i + 1;
      }
    }

    /** Starts a new epoch. */
    method AgeEpochs()
      requires Shape()
      modifies flags.mem, epochFlags
      ensures Abs() == Age(old(Abs()))
    {
      ghost var t := Abs();
      var i := 0;
      while i < size
        invariant 0 <= i <= size && table[..] == t.elems
        invariant Aged(t, i, flags.Flags(), epochFlags[..])
      {
        ghost var f, g := flags.Flags(), epochFlags[..];
        if epochFlags[i] {
          epochFlags[i] := false;
        } else {
          flags.BitSet(i);
        }
        AgeOne(t, i, f, g, flags.Flags(), epochFlags[..]);
        i := i + 1;
      }
      AgeAll(t, flags.Flags(), epochFlags[..]);
    }

    method EpochCheck()
      requires Shape()
      modifies this`counter, flags.mem, epochFlags
      ensures Abs() == Cuckoo.EpochCheck(p, old(Abs()))
    {
      hide Living, Locs;
      if counter != 0 {
        counter := counter - 1;
        return;
      }
      var living := CountLiving();
      if living >= epochSize {
        AgeEpochs();
        counter := epochSize;
      } else {
        counter := Max(1, Max(epochSize / 16, epochSize - living));
      }
    }

    /** The first of the locations that holds e, or eight. */
    method FindHolding(locs: seq<nat>, e: Element) returns (k: nat)
      requires Shape() && |locs| == HASHES && Below(locs, size)
      ensures k == FirstHolding(Abs().elems, locs, e, 0)
    {
      k := 0;
      while k < HASHES && table[locs[k]] != e
        invariant 0 <= k <= HASHES && FirstHolding(Abs().elems, locs, e, 0) == FirstHolding(Abs().elems, locs, e, k)
      {
        k := k + 1;
      }
    }

    /** The first of the locations whose content may be discarded, or eight. */
    method FindCollected(locs: seq<nat>) returns (k: nat)
      requires Shape() && |locs| == HASHES && Below(locs, size)
      ensures k == FirstCollected(Abs().collected, locs, 0)
    {
      k := 0;
      while k < HASHES
        invariant 0 <= k <= HASHES && FirstCollected(Abs().collected, locs, 0) == FirstCollected(Abs().collected, locs, k)
      {
        var collected := flags.BitIsSet(locs[k]);
        if collected {
          return;
        }
        k := k + 1;
      }
    }

    method FindLast(locs: seq<nat>, last: int) returns (k: nat)
      requires |locs| == HASHES
      ensures k == FindLoc(locs, last, 0)
    {
      k := 0;
      while k < HASHES && locs[k] != last
        invariant 0 <= k <= HASHES && FindLoc(locs, last, 0) == FindLoc(locs, last, k)
      {
        k := k + 1;
      }
    }

    method PlaceAt(loc: nat, e: Element, epoch: bool)
      requires Shape() && loc < size
      modifies table, flags.mem, epochFlags
      ensures Abs() == Place(old(Abs()), loc, e, epoch)
    {
      table[loc] := e;
      flags.BitUnset(loc);
      epochFlags[loc] := epoch;
      assert table[..] == old(table[..])[loc := e];
      assert epochFlags[..] == old(epochFlags[..])[loc := epoch];
    }

    method SwapAt(loc: nat, e: Element, epoch: bool) returns (e': Element, epoch': bool)
      requires Shape() && loc < size
      modifies table, epochFlags
      ensures Abs() == Swap(old(Abs()), loc, e, epoch) && e' == old(Abs()).elems[loc] && epoch' == old(Abs()).epoch[loc]
    {
      e', epoch' := table[loc], epochFlags[loc];
      table[loc], epochFlags[loc] := e, epoch;
      assert table[..] == old(table[..])[loc := e];
      assert epochFlags[..] == old(epochFlags[..])[loc := epoch];
    }

    lemma ShapeWf()
      requires Shape()
      ensures Wf(p, Abs())
    {
    }

    /** Tries up to the depth limit to make room for an element, one displacement at a time. */
    method Displace(x: Element)
      requires Shape()
      modifies table, flags.mem, epochFlags
      ensures Wf(p, old(Abs())) && Abs() == Chain(p, old(Abs()), x, -1, true, 0)
    {
      hide FirstCollected, Locs, Chain, FindLoc, NextLoc, Place, Swap, Wf;
      ShapeWf();
      var e, last: int, epoch := x, -1, true;
      var depth := 0;
      while depth < depthLimit
        invariant 0 <= depth <= depthLimit && Wf(p, Abs())
        invariant Chain(p, Abs(), e, last, epoch, depth) == Chain(p, old(Abs()), x, -1, true, 0)
      {
        ChainStep(p, Abs(), e, last, epoch, depth);
        var locs := ComputeHashes(e);
        var k := FindCollected(locs);
        if k < HASHES {
          PlaceAt(locs[k], e, epoch);
          return;
        }
        var j := FindLast(locs, last);
        NextIs(locs, last);
        SwapWf(p, Abs(), locs[(1 + j) % HASHES], e, epoch);
        last := locs[(1 + j) % HASHES];
        e, epoch := SwapAt(last, e, epoch);
        depth := depth + 1;
      }
      ChainEnd(p, Abs(), e, last, epoch);
    }

    method Insert(e: Element)
      requires Valid()
      modifies this`counter, table, flags.mem, epochFlags
      ensures Valid() && Abs() == Cuckoo.Insert(p, old(Abs()), e)
    {
      hide FirstHolding, Chain, Inv, Locs;
      InvWf(p, Abs());
      InsertKeepsInv(p, Abs(), e);
      EpochCheck();
      var locs := ComputeHashes(e);
      var k := FindHolding(locs, e);
      if k < HASHES {
        PlaceAt(locs[k], e, true);
      } else {
        Displace(e);
      }
    }

    method Contains(e: Element, erase: bool) returns (found: bool)
      requires Valid()
      modifies flags.mem
      ensures Valid() && found == Holds(p, old(Abs()), e) && Abs() == Cuckoo.Contains(p, old(Abs()), e, erase)
    {
      hide FirstHolding, Inv, Locs;
      InvWf(p, Abs());
      ContainsKeepsInv(p, Abs(), e, erase);
      ghost var t := Abs();
      var locs := ComputeHashes(e);
      var k := FindHolding(locs, e);
      found := k < HASHES;
      if found && erase {
        flags.BitSet(locs[k]);
      }
      assert Abs() == Cuckoo.Contains(p, t, e, erase);
    }
  }

  /** The first i slots have been aged. */
  ghost predicate Aged(t: Table, i: nat, collected: seq<bool>, epoch: seq<bool>)
    requires |t.epoch| == |t.collected|
  {
    && |collected| == |epoch| == |t.epoch|
    && (forall j :: 0 <= j < |t.epoch| ==> epoch[j] == (i <= j && t.epoch[j]))
    && (forall j :: 0 <= j < |t.epoch| ==> collected[j] == (t.collected[j] || (j < i && !t.epoch[j])))
  }

  lemma AgeOne(t: Table, i: nat, collected: seq<bool>, epoch: seq<bool>, collected': seq<bool>, epoch': seq<bool>)
    requires |t.epoch| == |t.collected| && Aged(t, i, collected, epoch) && i < |t.epoch|
    requires epoch' == if epoch[i] then epoch[i := false] else epoch
    requires collected' == if epoch[i] then collected else collected[i := true]
    ensures Aged(t, i + 1, collected', epoch')
  {
  }

  lemma AgeAll(t: Table, collected: seq<bool>, epoch: seq<bool>)
    requires |t.epoch| == |t.collected| && Aged(t, |t.epoch|, collected, epoch)
    ensures collected == Age(t).collected && epoch == Age(t).epoch
  {
  }

  lemma ChainStep(p: Params, t: Table, e: Element, last: int, epoch: bool, depth: nat)
    requires Wf(p, t) && depth < p.depthLimit
    ensures var locs := Locs(p, e); var k := FirstCollected(t.collected, locs, 0); var loc := NextLoc(locs, last);
            Chain(p, t, e, last, epoch, depth) ==
            if k < HASHES then Place(t, locs[k], e, epoch)
            else Chain(p, Swap(t, loc, e, epoch), t.elems[loc], loc, t.epoch[loc], depth + 1)
  {
  }

  lemma NextIs(locs: seq<nat>, last: int)
    requires |locs| == HASHES
    ensures NextLoc(locs, last) == locs[(1 + FindLoc(locs, last, 0)) % HASHES]
  {
    hide FindLoc;
  }

  lemma SwapWf(p: Params, t: Table, loc: nat, e: Element, epoch: bool)
    requires Wf(p, t) && loc < p.size
    ensures |t.elems| == |t.epoch| == p.size && Wf(p, Swap(t, loc, e, epoch))
  {
  }

  lemma ChainEnd(p: Params, t: Table, e: Element, last: int, epoch: bool)
    requires Wf(p, t)
    ensures Chain(p, t, e, last, epoch, p.depthLimit) == t
  {
  }

  lemma InvWf(p: Params, t: Table)
    requires Inv(p, t)
    ensures Wf(p, t)
  {
  }
}
