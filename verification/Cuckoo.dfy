/** The cuckoo cache as values: a table with eight possible slots per element, a flag per slot saying its
    content may be discarded, a flag saying it belongs to the current epoch, and a countdown to the next scan.
 */
module Cuckoo {

  type Element = int
  const HASHES: nat := 8

  datatype Params = Params(size: nat, epochSize: nat, depthLimit: nat, hash: (nat, Element) -> nat)

  datatype Table = Table(elems: seq<Element>, collected: seq<bool>, epoch: seq<bool>, counter: nat)

  ghost predicate Wf(p: Params, t: Table) {
    && p.size > 0 && p.epochSize > 0 && p.depthLimit > 0
    && |t.elems| == p.size && |t.collected| == p.size && |t.epoch| == p.size
  }

  /** compute_hashes; the size is a power of two, so masking is taking the remainder. */
  function Locs(p: Params, e: Element): (r: seq<nat>)
    requires p.size > 0
    ensures |r| == HASHES && forall k :: 0 <= k < HASHES ==> r[k] < p.size
  {
    seq(HASHES, k requires 0 <= k < HASHES => p.hash(k, e) % p.size)
  }

  predicate Below(locs: seq<nat>, n: nat) {
    forall k :: 0 <= k < |locs| ==> locs[k] < n
  }

  /** The first of the locations, from the k-th on, that holds e. */
  function FirstHolding(elems: seq<Element>, locs: seq<nat>, e: Element, k: nat): (r: nat)
    requires Below(locs, |elems|) && k <= |locs|
    ensures k <= r <= |locs| && (r < |locs| ==> elems[locs[r]] == e)
    ensures forall j :: k <= j < r ==> elems[locs[j]] != e
    decreases |locs| - k
  {
    if k == |locs| || elems[locs[k]] == e then k else FirstHolding(elems, locs, e, k + 1)
  }

  /** The first of the locations, from the k-th on, whose content may be discarded. */
  function FirstCollected(collected: seq<bool>, locs: seq<nat>, k: nat): (r: nat)
    requires Below(locs, |collected|) && k <= |locs|
    ensures k <= r <= |locs| && (r < |locs| ==> collected[locs[r]])
    ensures forall j :: k <= j < r ==> !collected[locs[j]]
    decreases |locs| - k
  {
    if k == |locs| || collected[locs[k]] then k else FirstCollected(collected, locs, k + 1)
  }

  /** Where a location stands among the eight, or eight if it is none of them. */
  function FindLoc(locs: seq<nat>, loc: int, k: nat): (r: nat)
    requires k <= |locs|
    ensures k <= r <= |locs| && (r < |locs| ==> locs[r] == loc)
    ensures forall j :: k <= j < r ==> locs[j] != loc
    decreases |locs| - k
  {
    if k == |locs| || locs[k] == loc then k else FindLoc(locs, loc, k + 1)
  }

  /** The location after the last one displaced, wrapping around. */
  function NextLoc(locs: seq<nat>, last: int): (r: nat)
    requires |locs| == HASHES
    ensures r in locs
  {
    locs[(1 + FindLoc(locs, last, 0)) % HASHES]
  }

  /** A location that is one of the eight is followed by the next one, the last by the first; any other, as
      before a first displacement, by the second one. */
  lemma NextLocFollows(locs: seq<nat>, last: int, k: nat)
    requires |locs| == HASHES && k < HASHES
    ensures last !in locs ==> NextLoc(locs, last) == locs[1]
    ensures locs[k] == last && last !in locs[..k] ==> NextLoc(locs, last) == locs[if k + 1 < HASHES then k + 1 else 0]
  {
    hide FindLoc;
    var j := FindLoc(locs, last, 0);
    if locs[k] == last && last !in locs[..k] {
      assert forall i :: 0 <= i < k ==> locs[..k][i] == locs[i];
      assert j == k;
    }
  }

  /** Fills a slot and asks to keep it. */
  function Place(t: Table, loc: nat, e: Element, epoch: bool): Table
    requires loc < |t.elems| == |t.collected| == |t.epoch|
  {
    t.(elems := t.elems[loc := e], collected := t.collected[loc := false], epoch := t.epoch[loc := epoch])
  }

  /** Exchanges a slot's element and epoch flag for others. */
  function Swap(t: Table, loc: nat, e: Element, epoch: bool): Table
    requires loc < |t.elems| == |t.epoch|
  {
    t.(elems := t.elems[loc := e], epoch := t.epoch[loc := epoch])
  }

  /** The displacement loop of insert. */
  function Chain(p: Params, t: Table, e: Element, last: int, epoch: bool, depth: nat): Table
    requires Wf(p, t) && depth <= p.depthLimit
    decreases p.depthLimit - depth
  {
    if depth == p.depthLimit then t
    else
      var locs := Locs(p, e);
      var k := FirstCollected(t.collected, locs, 0);
      if k < HASHES then Place(t, locs[k], e, epoch)
      else
        var loc := NextLoc(locs, last);
        Chain(p, Swap(t, loc, e, epoch), t.elems[loc], loc, t.epoch[loc], depth + 1)
  }

  function Max(a: nat, b: nat): nat {
    if a < b then b else a
  }

  /** Slots of the current epoch that are to be kept, among the first n. */
  function Living(t: Table, n: nat): nat
    requires n <= |t.epoch| == |t.collected|
  {
    if n == 0 then 0 else Living(t, n - 1) + if t.epoch[n - 1] && !t.collected[n - 1] then 1 else 0
  }

  /** A new epoch: the old epoch's slots may be discarded, and the current ones become old. */
  function Age(t: Table): Table
    requires |t.epoch| == |t.collected|
  {
    t.(collected := seq(|t.epoch|, i requires 0 <= i < |t.epoch| => t.collected[i] || !t.epoch[i]),
       epoch := seq(|t.epoch|, i requires 0 <= i < |t.epoch| => false))
  }

  function EpochCheck(p: Params, t: Table): (r: Table)
    requires Wf(p, t)
    ensures Wf(p, r) && r.elems == t.elems
  {
    if t.counter != 0 then t.(counter := t.counter - 1)
    else
      var living := Living(t, p.size);
      if living >= p.epochSize then Age(t).(counter := p.epochSize)
      else t.(counter := Max(1, Max(p.epochSize / 16, p.epochSize - living)))
  }

  /** Insertion once the epochs have been looked at. */
  function Settle(p: Params, t: Table, e: Element): Table
    requires Wf(p, t)
  {
    var locs := Locs(p, e);
    var k := FirstHolding(t.elems, locs, e, 0);
    if k < HASHES then Place(t, locs[k], e, true) else Chain(p, t, e, -1, true, 0)
  }

  function Insert(p: Params, t: Table, e: Element): Table
    requires Wf(p, t)
  {
    Settle(p, EpochCheck(p, t), e)
  }

  predicate Holds(p: Params, t: Table, e: Element)
    requires Wf(p, t)
  {
    FirstHolding(t.elems, Locs(p, e), e, 0) < HASHES
  }

  /** contains: finding an element may mark its slot as discardable. */
  function Contains(p: Params, t: Table, e: Element, erase: bool): Table
    requires Wf(p, t)
  {
    var locs := Locs(p, e);
    var k := FirstHolding(t.elems, locs, e, 0);
    if k < HASHES && erase then t.(collected := t.collected[locs[k] := true]) else t
  }
}
