/** What every run of the cuckoo cache keeps. */
module CuckooRuns {
  import opened Cuckoo

  // ---------------------------------------------------------------------------------------------
  // Counting kept slots

  /** What the kept slots among the first n hold. */
  ghost function Kept(t: Table, n: nat): multiset<Element>
    requires n <= |t.elems| == |t.collected|
  {
    if n == 0 then multiset{} else Kept(t, n - 1) + Slot(t, n - 1)
  }

  function One(b: bool): nat {
    if b then 1 else 0
  }

  /** r differs from t at most in what slot loc holds and is flagged with. */
  ghost predicate OnlyAt(p: Params, t: Table, r: Table, loc: nat) {
    && Wf(p, t) && Wf(p, r) && loc < p.size
    && forall i :: 0 <= i < p.size && i != loc ==> r.elems[i] == t.elems[i] && r.collected[i] == t.collected[i] && r.epoch[i] == t.epoch[i]
  }

  ghost predicate Balanced(a: multiset<Element>, x: multiset<Element>, b: multiset<Element>, y: multiset<Element>) {
    a + x == b + y
  }

  ghost function Plus(a: multiset<Element>, x: multiset<Element>): multiset<Element> {
    a + x
  }

  lemma Exchange(a: multiset<Element>, x: multiset<Element>, y: multiset<Element>)
    ensures Balanced(Plus(a, x), y, Plus(a, y), x)
  {
    assert (a + x) + y == (a + y) + x;
  }

  lemma Shift(a: multiset<Element>, x: multiset<Element>, b: multiset<Element>, y: multiset<Element>, s: multiset<Element>)
    requires Balanced(a, x, b, y)
    ensures Balanced(Plus(a, s), x, Plus(b, s), y)
  {
    assert (a + s) + x == (a + x) + s;
    assert (b + s) + y == (b + y) + s;
  }

  lemma KeptStep(t: Table, n: nat)
    requires 0 < n <= |t.elems| == |t.collected|
    ensures Kept(t, n) == Plus(Kept(t, n - 1), Slot(t, n - 1))
  {
  }

  lemma KeptNone(t: Table)
    requires |t.elems| == |t.collected|
    ensures Kept(t, 0) == multiset{}
  {
  }

  lemma SlotSame(p: Params, t: Table, r: Table, loc: nat, i: int)
    requires OnlyAt(p, t, r, loc)
    ensures |t.elems| == |t.collected| == |r.elems| == |r.collected| == p.size && loc < p.size
    ensures 0 <= i < p.size && i != loc ==> Slot(r, i) == Slot(t, i)
  {
  }

  lemma {:induction false} SlotKept(p: Params, t: Table, r: Table, loc: nat, n: nat)
    requires OnlyAt(p, t, r, loc) && n <= p.size
    ensures if loc < n then Balanced(Kept(r, n), Slot(t, loc), Kept(t, n), Slot(r, loc)) else Kept(r, n) == Kept(t, n)
  {
    hide Slot, OnlyAt, Kept, Plus, Balanced;
    SlotSame(p, t, r, loc, n - 1);
    if n == 0 {
      KeptNone(t);
      KeptNone(r);
    } else {
      SlotKept(p, t, r, loc, n - 1);
      KeptStep(t, n);
      KeptStep(r, n);
      if n - 1 == loc {
        Exchange(Kept(t, loc), Slot(r, loc), Slot(t, loc));
      } else if loc < n {
        Shift(Kept(r, n - 1), Slot(t, loc), Kept(t, n - 1), Slot(r, loc), Slot(t, n - 1));
      }
    }
  }

  lemma {:induction false} SlotLiving(p: Params, t: Table, r: Table, loc: nat, n: nat)
    requires OnlyAt(p, t, r, loc) && n <= p.size
    ensures if loc < n then Living(r, n) + SlotLives(t, loc) == Living(t, n) + SlotLives(r, loc) else Living(r, n) == Living(t, n)
  {
    if n > 0 { SlotLiving(p, t, r, loc, n - 1); }
  }

  ghost function Slot(t: Table, loc: nat): multiset<Element>
    requires loc < |t.elems| == |t.collected|
  {
    if t.collected[loc] then multiset{} else multiset{t.elems[loc]}
  }

  function SlotLives(t: Table, loc: nat): nat
    requires loc < |t.epoch| == |t.collected|
  {
    One(t.epoch[loc] && !t.collected[loc])
  }

  // ---------------------------------------------------------------------------------------------
  // Every kept slot is one of its element's own

  ghost predicate Home(p: Params, t: Table)
    requires Wf(p, t)
  {
    forall i :: 0 <= i < p.size && !t.collected[i] ==> i in Locs(p, t.elems[i])
  }

  /** So contains finds whatever a kept slot holds. */
  lemma KeptIsFound(p: Params, t: Table, i: nat)
    requires Wf(p, t) && Home(p, t) && i < p.size && !t.collected[i]
    ensures Holds(p, t, t.elems[i])
  {
  }

  // ---------------------------------------------------------------------------------------------
  // Displacement

  /** How an insertion ends: over something discardable, or by giving up on the last displaced element. */
  datatype Loss = Overwrote(x: Element) | Evicted(x: Element)

  function ChainLoss(p: Params, t: Table, e: Element, last: int, epoch: bool, depth: nat): Loss
    requires Wf(p, t) && depth <= p.depthLimit
    decreases p.depthLimit - depth
  {
    if depth == p.depthLimit then Evicted(e)
    else
      var locs := Locs(p, e);
      var k := FirstCollected(t.collected, locs, 0);
      if k < HASHES then Overwrote(t.elems[locs[k]])
      else
        var loc := NextLoc(locs, last);
        ChainLoss(p, Swap(t, loc, e, epoch), t.elems[loc], loc, t.epoch[loc], depth + 1)
  }

  /** What inserting e with the given epoch flag has done to the table. */
  ghost predicate Inserted(p: Params, t: Table, r: Table, e: Element, epoch: bool, loss: Loss) {
    && Wf(p, t) && Wf(p, r) && r.counter == t.counter
    && multiset(r.elems) + multiset{loss.x} == multiset(t.elems) + multiset{e}
    && Living(r, p.size) <= Living(t, p.size) + One(epoch)
    && match loss
       case Overwrote(x) => Kept(r, p.size) == Kept(t, p.size) + multiset{e}
       case Evicted(x) => Kept(r, p.size) + multiset{x} == Kept(t, p.size) + multiset{e} && r.collected == t.collected
  }

  lemma Placing(p: Params, t: Table, loc: nat, e: Element, epoch: bool)
    requires Wf(p, t) && Home(p, t) && loc < p.size && t.collected[loc] && loc in Locs(p, e)
    ensures Home(p, Place(t, loc, e, epoch)) && Inserted(p, t, Place(t, loc, e, epoch), e, epoch, Overwrote(t.elems[loc]))
  {
    hide Kept, Living, Locs;
    SlotKept(p, t, Place(t, loc, e, epoch), loc, p.size);
    SlotLiving(p, t, Place(t, loc, e, epoch), loc, p.size);
  }

  lemma Swapping(p: Params, t: Table, loc: nat, e: Element, epoch: bool)
    requires Wf(p, t) && Home(p, t) && loc < p.size && !t.collected[loc] && loc in Locs(p, e)
    ensures var r := Swap(t, loc, e, epoch);
            && Wf(p, r) && Home(p, r) && r.collected == t.collected && r.counter == t.counter
            && multiset(r.elems) + multiset{t.elems[loc]} == multiset(t.elems) + multiset{e}
            && Kept(r, p.size) + multiset{t.elems[loc]} == Kept(t, p.size) + multiset{e}
            && Living(r, p.size) + One(t.epoch[loc]) == Living(t, p.size) + One(epoch)
  {
    hide Kept, Living, Locs;
    SlotKept(p, t, Swap(t, loc, e, epoch), loc, p.size);
    SlotLiving(p, t, Swap(t, loc, e, epoch), loc, p.size);
  }

  /** One displacement after another, exactly one element is lost, and the epoch gains at most one slot. */
  lemma {:induction false} ChainInserts(p: Params, t: Table, e: Element, last: int, epoch: bool, depth: nat)
    requires Wf(p, t) && Home(p, t) && depth <= p.depthLimit
    ensures var r := Chain(p, t, e, last, epoch, depth);
            Wf(p, r) && Home(p, r) && Inserted(p, t, r, e, epoch, ChainLoss(p, t, e, last, epoch, depth))
    decreases p.depthLimit - depth
  {
    hide Kept, Living, Locs, Home, FirstCollected, NextLoc, Swap, Place;
    if depth < p.depthLimit {
      var locs := Locs(p, e);
      var k := FirstCollected(t.collected, locs, 0);
      if k < HASHES {
        Placing(p, t, locs[k], e, epoch);
      } else {
        var loc := NextLoc(locs, last);
        Swapping(p, t, loc, e, epoch);
        ChainInserts(p, Swap(t, loc, e, epoch), t.elems[loc], loc, t.epoch[loc], depth + 1);
      }
    }
  }

  // ---------------------------------------------------------------------------------------------
  // Epochs

  /** The most slots of the current epoch there can be. */
  function Limit(p: Params): nat {
    p.epochSize + Max(1, p.epochSize / 16)
  }

  /** The countdown always fires before the current epoch can outgrow its limit. */
  ghost predicate Inv(p: Params, t: Table) {
    Wf(p, t) && Home(p, t) && Living(t, p.size) + t.counter <= Limit(p)
  }

  /** setup: everything may be discarded, and a whole epoch goes by before the first scan. */
  function Fresh(p: Params, elems: seq<Element>): Table
    requires |elems| == p.size
  {
    Table(elems, seq(p.size, _ => true), seq(p.size, _ => false), p.epochSize)
  }

  lemma FreshInv(p: Params, elems: seq<Element>)
    requires p.size > 0 && p.epochSize > 0 && p.depthLimit > 0 && |elems| == p.size
    ensures Inv(p, Fresh(p, elems))
  {
    NoneLiving(Fresh(p, elems), p.size);
  }

  lemma {:induction false} NoneLiving(t: Table, n: nat)
    requires n <= |t.epoch| == |t.collected| && forall i :: 0 <= i < n ==> !t.epoch[i]
    ensures Living(t, n) == 0
  {
    if n > 0 { NoneLiving(t, n - 1); }
  }

  lemma {:induction false} LivingIgnoresCounter(t: Table, c: nat, n: nat)
    requires n <= |t.epoch| == |t.collected|
    ensures Living(t.(counter := c), n) == Living(t, n)
  {
    if n > 0 { LivingIgnoresCounter(t, c, n - 1); }
  }

  /** After the check there is room for one more. */
  lemma CheckMakesRoom(p: Params, t: Table)
    requires Inv(p, t)
    ensures var r := EpochCheck(p, t); Home(p, r) && Living(r, p.size) + r.counter + 1 <= Limit(p)
  {
    hide Living, Locs;
    var r := EpochCheck(p, t);
    if t.counter == 0 && Living(t, p.size) >= p.epochSize {
      NoneLiving(r, p.size);
    } else {
      LivingIgnoresCounter(t, r.counter, p.size);
    }
  }

  // ---------------------------------------------------------------------------------------------
  // Operations

  lemma PresentIsKept(p: Params, t: Table, e: Element)
    requires Wf(p, t) && Home(p, t) && Holds(p, t, e)
    ensures var r := Settle(p, t, e);
            && Wf(p, r) && Home(p, r) && r.counter == t.counter && r.elems == t.elems
            && Living(r, p.size) <= Living(t, p.size) + 1
  {
    hide Living, Locs;
    var locs := Locs(p, e);
    var loc := locs[FirstHolding(t.elems, locs, e, 0)];
    assert loc in locs;
    SlotLiving(p, t, Place(t, loc, e, true), loc, p.size);
  }

  lemma InsertKeepsInv(p: Params, t: Table, e: Element)
    requires Inv(p, t)
    ensures Inv(p, Insert(p, t, e))
  {
    hide Living, Locs, Home, EpochCheck, Chain, Kept;
    CheckMakesRoom(p, t);
    var c := EpochCheck(p, t);
    if Holds(p, c, e) {
      PresentIsKept(p, c, e);
    } else {
      ChainInserts(p, c, e, -1, true, 0);
    }
  }

  /** How inserting an absent element ends. */
  function InsertLoss(p: Params, t: Table, e: Element): Loss
    requires Wf(p, t)
  {
    ChainLoss(p, EpochCheck(p, t), e, -1, true, 0)
  }

  /** Inserting an absent element adds it to the table and loses exactly one: something discardable, or the
      last element displaced. In the first case everything kept stays kept. */
  lemma InsertAbsent(p: Params, t: Table, e: Element)
    requires Inv(p, t) && !Holds(p, t, e)
    ensures var loss, r, c := InsertLoss(p, t, e), Insert(p, t, e), EpochCheck(p, t);
            && multiset(r.elems) + multiset{loss.x} == multiset(t.elems) + multiset{e}
            && Inserted(p, c, r, e, true, loss)
  {
    hide Living, Locs, Home, EpochCheck, Chain, Kept;
    CheckMakesRoom(p, t);
    ChainInserts(p, EpochCheck(p, t), e, -1, true, 0);
  }

  /** Inserting a present element keeps the table and makes its slot one to keep. */
  lemma InsertPresent(p: Params, t: Table, e: Element)
    requires Inv(p, t) && Holds(p, t, e)
    ensures var r := Insert(p, t, e);
            && r.elems == t.elems
            && (exists i :: 0 <= i < p.size && r.elems[i] == e && !r.collected[i] && r.epoch[i])
  {
    hide Living, Locs, Home, EpochCheck, Chain;
    CheckMakesRoom(p, t);
    var locs := Locs(p, e);
    var loc := locs[FirstHolding(t.elems, locs, e, 0)];
    PresentIsKept(p, EpochCheck(p, t), e);
    assert Insert(p, t, e).elems[loc] == e;
  }

  lemma ContainsKeepsInv(p: Params, t: Table, e: Element, erase: bool)
    requires Inv(p, t)
    ensures var r := Contains(p, t, e, erase); Inv(p, r) && r.elems == t.elems && Living(r, p.size) <= Living(t, p.size)
  {
    hide Living, Locs;
    var locs := Locs(p, e);
    var k := FirstHolding(t.elems, locs, e, 0);
    if k < HASHES && erase {
      SlotLiving(p, t, Contains(p, t, e, erase), locs[k], p.size);
    }
  }

  datatype Op = DoInsert(e: Element) | DoContains(e: Element, erase: bool)

  function Apply(p: Params, t: Table, op: Op): (r: Table)
    requires Inv(p, t)
    ensures Inv(p, r)
  {
    match op
    case DoInsert(e) => InsertKeepsInv(p, t, e); Insert(p, t, e)
    case DoContains(e, erase) => ContainsKeepsInv(p, t, e, erase); Contains(p, t, e, erase)
  }

  function Run(p: Params, t: Table, ops: seq<Op>): (r: Table)
    requires Inv(p, t)
    ensures Inv(p, r)
  {
    if ops == [] then t else Apply(p, Run(p, t, ops[..|ops| - 1]), ops[|ops| - 1])
  }

  /** Main result: at any point of any run after setup, the current epoch has at most Limit kept slots, and
      contains finds every element a kept slot holds. */
  lemma EveryRun(p: Params, elems: seq<Element>, ops: seq<Op>)
    requires p.size > 0 && p.epochSize > 0 && p.depthLimit > 0 && |elems| == p.size
    ensures Inv(p, Fresh(p, elems))
    ensures var t := Run(p, Fresh(p, elems), ops);
            && Living(t, p.size) <= p.epochSize + Max(1, p.epochSize / 16)
            && forall i :: 0 <= i < p.size && !t.collected[i] ==> Holds(p, t, t.elems[i])
  {
    hide Living, Locs, Run, Home;
    FreshInv(p, elems);
    var t := Run(p, Fresh(p, elems), ops);
    forall i | 0 <= i < p.size && !t.collected[i] ensures Holds(p, t, t.elems[i]) { KeptIsFound(p, t, i); }
  }
}
