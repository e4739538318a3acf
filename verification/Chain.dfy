/** The block tree with its skip pointers, and the active chain. */
module Chain {
  import opened Products
  import opened SkipHeights

  // ---------------------------------------------------------------------------------------------
  // Block index entries

  class BlockIndex {
    const pprev: BlockIndex?
    const nHeight: nat
    var pskip: BlockIndex?

    /** Links a new entry to its parent. */
    constructor (pprev: BlockIndex?)
      requires pprev == null || (Rooted(pprev) && SkipsOk(pprev))
      ensures Rooted(this) && SkipsOk(this) && this.pprev == pprev
      ensures pprev == null || SkipsBuilt(pprev) ==> SkipsBuilt(this)
    {
      this.pprev := pprev;
      nHeight := if pprev == null then 0 else pprev.nHeight + 1;
      pskip := null;
      new;
      if pprev != null {
        LineOf(this);
        BuildSkip();
      }
    }

    /** Sets the skip pointer of an entry whose ancestors have theirs. */
    method BuildSkip()
      requires Rooted(this) && (pprev != null ==> SkipsOk(pprev) && this !in Line(pprev))
      modifies this`pskip
      ensures pprev != null ==> SkipsOk(this) && pskip == Walk(this, GetSkipHeight(nHeight))
      ensures pprev != null && old(SkipsBuilt(pprev)) ==> SkipsBuilt(this)
      ensures pprev == null ==> pskip == old(pskip)
    {
      hide GetSkipHeight, Walk;
      if pprev != null {
        SelfInLine(this);
        Parent(this, this, GetSkipHeight(nHeight));
        var skip, _ := pprev.GetAncestor(GetSkipHeight(nHeight));
        pskip := skip;
        SkipsExtend(this);
      }
    }

    /** The ancestor at a height, by skipping where that does not overshoot: what walking back one parent at
        a time would find, in few steps if all skip pointers are set. */
    method GetAncestor(height: int) returns (r: BlockIndex?, ghost steps: nat)
      requires Rooted(this) && SkipsOk(this)
      ensures if 0 <= height <= nHeight then r == Walk(this, height) else r == null
      ensures SkipsOk(this) && SkipsBuilt(this) == old(SkipsBuilt(this))
      ensures SkipsBuilt(this) ==> forall k: nat :: nHeight < Pow2(k) ==> 2 * steps <= k * (k + 3)
    {
      hide Line, GetSkipHeight, Walk, Rooted, SkipsOk, SkipsBuilt, Steps, Pow2;
      steps := 0;
      if height > nHeight || height < 0 {
        FewSteps(nHeight, nHeight);
        return null, 0;
      }
      SelfInLine(this);
      var walk: BlockIndex := this;
      var heightWalk := nHeight;
      while heightWalk > height
        invariant walk in Line(this) && Rooted(walk) && heightWalk == walk.nHeight >= height
        invariant Walk(walk, height) == Walk(this, height) && SkipsOk(this)
        invariant SkipsBuilt(this) == old(SkipsBuilt(this))
        invariant SkipsBuilt(this) ==> steps + Steps(heightWalk, height) == Steps(nHeight, height)
        decreases heightWalk
      {
        Parent(this, walk, height);
        OneStep(heightWalk, height);
        HasSkip(this, walk);
        steps := steps + 1;
        var heightSkip := GetSkipHeight(heightWalk);
        var heightSkipPrev := GetSkipHeight(heightWalk - 1);
        if walk.pskip != null && (heightSkip == height ||
             (heightSkip > height && !(heightSkipPrev < heightSkip - 2 && heightSkipPrev >= height))) {
          SkipLeads(this, walk, height);
          walk := walk.pskip;
          heightWalk := heightSkip;
        } else {
          walk := walk.pprev;
          heightWalk := heightWalk - 1;
        }
      }
      WalkHere(walk);
      FewSteps(nHeight, height);
      return walk, steps;
    }
  }

  lemma FewSteps(w: nat, t: nat)
    requires t <= w
    ensures Steps(t, t) == 0 && forall k: nat :: w < Pow2(k) ==> 2 * Steps(w, t) <= k * (k + 3)
  {
    hide Pow2;
    forall k: nat | w < Pow2(k) ensures 2 * Steps(w, t) <= k * (k + 3) { StepsAreFew(w, t, k); }
  }

  /** Heights count the parents down to a first block. */
  ghost predicate Rooted(b: BlockIndex)
    decreases b.nHeight
  {
    if b.pprev == null then b.nHeight == 0 else b.pprev.nHeight + 1 == b.nHeight && Rooted(b.pprev)
  }

  /** A block and its ancestors. */
  ghost function Line(b: BlockIndex): set<BlockIndex>
    requires Rooted(b)
    decreases b.nHeight
  {
    if b.pprev == null then {b} else {b} + Line(b.pprev)
  }

  /** The ancestor at a height, one parent at a time. */
  ghost function Walk(b: BlockIndex, h: nat): (r: BlockIndex)
    requires Rooted(b) && h <= b.nHeight
    ensures Rooted(r) && r.nHeight == h && r in Line(b)
    decreases b.nHeight
  {
    if b.nHeight == h then b else Walk(b.pprev, h)
  }

  /** Every skip pointer in a block's line that is set leads to the ancestor at the skip height. */
  ghost predicate SkipsOk(b: BlockIndex)
    requires Rooted(b)
    reads Line(b)
  {
    forall x :: x in Line(b) && x.pskip != null ==> Rooted(x) && x.nHeight > 0 && x.pskip == Walk(x, GetSkipHeight(x.nHeight))
  }

  /** Every block but the first has its skip pointer. */
  ghost predicate SkipsBuilt(b: BlockIndex)
    requires Rooted(b)
    reads Line(b)
  {
    forall x :: x in Line(b) && x.nHeight > 0 ==> x.pskip != null
  }

  lemma HasSkip(b: BlockIndex, x: BlockIndex)
    requires Rooted(b) && x in Line(b)
    ensures SkipsBuilt(b) && x.nHeight > 0 ==> x.pskip != null
  {
    hide Line, Rooted;
  }

  lemma LineOf(b: BlockIndex)
    requires Rooted(b)
    ensures forall x :: x in Line(b) ==> Rooted(x) && x.nHeight <= b.nHeight
    ensures b.pprev != null ==> b !in Line(b.pprev)
    decreases b.nHeight
  {
    if b.pprev != null { LineOf(b.pprev); }
  }

  lemma {:induction false} LineWithin(b: BlockIndex, x: BlockIndex)
    requires Rooted(b) && x in Line(b)
    ensures Rooted(x) && Line(x) <= Line(b)
    decreases b.nHeight
  {
    if x != b { LineWithin(b.pprev, x); }
  }

  /** Walking on from an ancestor gets to the same place. */
  lemma {:induction false} WalkOn(b: BlockIndex, m: nat, h: nat)
    requires Rooted(b) && h <= m <= b.nHeight
    ensures Walk(Walk(b, m), h) == Walk(b, h)
    decreases b.nHeight
  {
    if m < b.nHeight { WalkOn(b.pprev, m, h); }
  }

  lemma SelfInLine(b: BlockIndex)
    requires Rooted(b)
    ensures b in Line(b)
  {
  }

  lemma WalkHere(b: BlockIndex)
    requires Rooted(b)
    ensures Walk(b, b.nHeight) == b
  {
  }

  /** One step back along a line. */
  lemma Parent(b: BlockIndex, x: BlockIndex, h: nat)
    requires Rooted(b) && x in Line(b) && x.nHeight > h
    ensures Rooted(x) && x.pprev != null && Rooted(x.pprev) && x.pprev.nHeight == x.nHeight - 1 && x.pprev in Line(b)
    ensures Walk(x, h) == Walk(x.pprev, h)
  {
    LineWithin(b, x);
    SelfInLine(x.pprev);
  }

  /** A skip along a line does not lose the way. */
  lemma SkipLeads(b: BlockIndex, x: BlockIndex, h: nat)
    requires Rooted(b) && SkipsOk(b) && x in Line(b) && x.pskip != null && h <= GetSkipHeight(x.nHeight)
    ensures Rooted(x) && x.nHeight >= h && Rooted(x.pskip) && x.pskip.nHeight == GetSkipHeight(x.nHeight) && x.pskip in Line(b)
    ensures Walk(x.pskip, h) == Walk(x, h)
  {
    LineWithin(b, x);
    WalkOn(x, GetSkipHeight(x.nHeight), h);
  }

  lemma SkipsExtend(b: BlockIndex)
    requires Rooted(b) && b.pprev != null && SkipsOk(b.pprev) && b.nHeight > GetSkipHeight(b.nHeight)
    requires b.pskip == Walk(b, GetSkipHeight(b.nHeight))
    ensures SkipsOk(b) && (SkipsBuilt(b.pprev) ==> SkipsBuilt(b))
  {
    hide GetSkipHeight, Walk;
  }

  // ---------------------------------------------------------------------------------------------
  // The active chain

  /** Each entry is the parent of the next, at its own height. */
  ghost predicate ChainOk(v: seq<BlockIndex?>) {
    forall i :: 0 <= i < |v| ==> EntryOk(v, i)
  }

  ghost predicate EntryOk(v: seq<BlockIndex?>, i: nat)
    requires i < |v|
  {
    && v[i] != null && v[i].nHeight == i && Rooted(v[i])
    && v[i].pprev == if i == 0 then null else v[i - 1]
  }

  /** The chain is the line of its tip. */
  lemma {:induction false} ChainIsLine(v: seq<BlockIndex?>, t: nat, i: nat)
    requires ChainOk(v) && i <= t < |v|
    ensures EntryOk(v, t) && v[i] == Walk(v[t], i)
    decreases t
  {
    assert EntryOk(v, t);
    if i < t { ChainIsLine(v, t - 1, i); }
  }

  /** A block is in the chain exactly when it is in the line of the tip. */
  ghost predicate InChain(v: seq<BlockIndex?>, x: BlockIndex) {
    x.nHeight < |v| && v[x.nHeight] == x
  }

  class ActiveChain {
    var vChain: seq<BlockIndex?>

    ghost predicate Valid()
      reads this
    {
      ChainOk(vChain)
    }

    constructor ()
      ensures Valid() && vChain == []
    {
      vChain := [];
    }

    function At(nHeight: int): BlockIndex?
      reads this
    {
      if nHeight < 0 || nHeight >= |vChain| then null else vChain[nHeight]
    }

    predicate Contains(b: BlockIndex)
      reads this
    {
      At(b.nHeight) == b
    }

    /** Fills the chain from the tip down, stopping at the first entry already right: everything below it is. */
    method SetTip(tip: BlockIndex?)
      requires Valid() && (tip != null ==> Rooted(tip))
      modifies this
      ensures Valid()
      ensures if tip == null then vChain == []
              else |vChain| == tip.nHeight + 1 && forall i :: 0 <= i < |vChain| ==> vChain[i] == Walk(tip, i)
    {
      hide Walk, Rooted, Line;
      if tip == null {
        vChain := [];
        return;
      }
      ghost var before := vChain;
      Resize(tip.nHeight + 1);
      var pindex: BlockIndex? := tip;
      WalkHere(tip);
      while pindex != null && vChain[pindex.nHeight] != pindex
        invariant |vChain| == tip.nHeight + 1
        invariant pindex != null ==> OnWay(tip, pindex)
        invariant FilledAbove(tip, vChain, if pindex == null then 0 else pindex.nHeight + 1)
        invariant forall i :: 0 <= i < |vChain| && pindex != null && i <= pindex.nHeight ==>
                    vChain[i] == if i < |before| then before[i] else null
        decreases if pindex == null then 0 else pindex.nHeight + 1
      {
        StepDown(tip, pindex);
        vChain := vChain[pindex.nHeight := pindex];
        pindex := pindex.pprev;
      }
      if pindex != null {
        RestIsRight(tip, pindex, before, vChain);
      }
      FilledIsChain(tip, vChain);
    }

    /** vector::resize: cut off, or filled up with null. */
    method Resize(n: nat)
      modifies this
      ensures |vChain| == n && forall i :: 0 <= i < n ==> vChain[i] == if i < |old(vChain)| then old(vChain)[i] else null
    {
      vChain := if n <= |vChain| then vChain[..n] else vChain + seq(n - |vChain|, _ => null);
    }

    /** The last block the chain has in common with the line of b. */
    method FindFork(b: BlockIndex?) returns (r: BlockIndex?)
      requires Valid() && (b != null ==> Rooted(b) && SkipsOk(b))
      ensures b == null ==> r == null
      ensures b != null && r != null ==> r in Line(b) && InChain(vChain, r)
      ensures b != null ==> forall x :: x in Line(b) && InChain(vChain, x) ==> r != null && x.nHeight <= r.nHeight
    {
      hide Walk, Rooted, Line, ChainOk, SkipsOk, SkipsBuilt;
      if b == null {
        return null;
      }
      r := b;
      SelfInLine(b);
      ghost var top: int := b.nHeight;
      ghost var v := vChain;
      LineHeights(b);
      if b.nHeight > |vChain| - 1 {
        var ancestor, _ := b.GetAncestor(|vChain| - 1);
        r := ancestor;
        top := |vChain| - 1;
        if r != null { WalkInLine(b, top); }
      }
      while r != null && !Contains(r)
        invariant vChain == v && -1 <= top && (top == -1 <==> r == null)
        invariant r != null ==> r in Line(b) && Rooted(r) && r.nHeight == top
        invariant forall x :: x in Line(b) && InChain(v, x) ==> x.nHeight <= top
        decreases top
      {
        StepBack(b, r, v);
        r := r.pprev;
        top := top - 1;
      }
    }

    /** A block, steps back from it that grow after ten entries, and the first block. */
    method GetLocator(b: BlockIndex?) returns (have: seq<BlockIndex>)
      requires Valid() && (b != null ==> Rooted(b) && SkipsOk(b))
      requires b == null && vChain != [] ==> vChain[|vChain| - 1] != null && Rooted(vChain[|vChain| - 1]) && SkipsOk(vChain[|vChain| - 1])
      ensures b == null && vChain == [] ==> have == []
      ensures var start := if b != null then b else At(|vChain| - 1);
              start != null ==> && |have| > 0 && have[0] == start && Descending(start, have) && have[|have| - 1].nHeight == 0
                                && Stepping(have) && (|have| > 12 ==> 10 + Pow2(|have| - 12) <= start.nHeight)
    {
      hide Walk, Rooted, Line, ChainOk, SkipsOk, SkipsBuilt;
      have := [];
      var pindex := if b != null then b else At(|vChain| - 1);
      if pindex == null {
        return;
      }
      ghost var start: BlockIndex := pindex;
      WalkHere(start);
      var nStep := 1;
      while true
        invariant pindex != null && OnWay(start, pindex) && nStep > 0 && Valid() && SkipsOk(pindex)
        invariant Descending(start, have) && forall i :: 0 <= i < |have| ==> have[i].nHeight > pindex.nHeight
        invariant if have == [] then pindex == start else have[0] == start
        invariant Stepping(have + [pindex]) && nStep == Step(|have|)
        decreases pindex.nHeight
      {
        have := have + [pindex];
        if pindex.nHeight == 0 {
          LocatorLength(have);
          break;
        }
        var nHeight := if pindex.nHeight < nStep then 0 else pindex.nHeight - nStep;
        WalkOn(start, pindex.nHeight, nHeight);
        ghost var from: BlockIndex := pindex;
        Lands(from, nHeight);
        if Contains(pindex) {
          ChainIsLine(vChain, pindex.nHeight, nHeight);
          pindex := At(nHeight);
        } else {
          var ancestor, _ := pindex.GetAncestor(nHeight);
          pindex := ancestor;
        }
        AncestorSkips(from, pindex);
        StepsExtend(have, pindex);
        if |have| > 10 {
          nStep := nStep * 2;
        }
      }
    }
  }

  /** How far the locator steps back from its k-th entry. */
  function Step(k: nat): nat {
    if k <= 10 then 1 else Pow2(k - 10)
  }

  ghost predicate Stepping(have: seq<BlockIndex>) {
    forall i :: 0 <= i < |have| - 1 ==> Stepped(have, i)
  }

  ghost predicate Stepped(have: seq<BlockIndex>, i: nat)
    requires i + 1 < |have|
  {
    have[i + 1].nHeight == if have[i].nHeight < Step(i) then 0 else have[i].nHeight - Step(i)
  }

  lemma StepsExtend(have: seq<BlockIndex>, x: BlockIndex)
    requires Stepping(have) && |have| > 0
    requires var i := |have| - 1; x.nHeight == if have[i].nHeight < Step(i) then 0 else have[i].nHeight - Step(i)
    ensures Stepping(have + [x])
  {
    var more := have + [x];
    forall i | 0 <= i < |more| - 1 ensures Stepped(more, i) {
      if i < |have| - 1 { assert Stepped(have, i); }
    }
  }

  lemma {:induction false} StepsAdd(have: seq<BlockIndex>, n: nat)
    requires Stepping(have) && n < |have| && have[n].nHeight > 0
    ensures have[0].nHeight == have[n].nHeight + if n <= 10 then n else 9 + Pow2(n - 10)
    decreases n
  {
    if n > 0 {
      assert Stepped(have, n - 1);
      StepsAdd(have, n - 1);
    }
  }

  /** Steps that double make the locator logarithmic in the height. */
  lemma LocatorLength(have: seq<BlockIndex>)
    requires Stepping(have) && |have| > 0 && forall i, j :: 0 <= i < j < |have| ==> have[i].nHeight > have[j].nHeight
    ensures |have| > 12 ==> 10 + Pow2(|have| - 12) <= have[0].nHeight
  {
    if |have| > 12 {
      assert have[|have| - 2].nHeight > have[|have| - 1].nHeight;
      StepsAdd(have, |have| - 2);
    }
  }

  /** A block and then ever earlier ancestors of it. */
  ghost predicate Descending(start: BlockIndex, have: seq<BlockIndex>)
    requires Rooted(start)
  {
    && (forall i :: 0 <= i < |have| ==> have[i].nHeight <= start.nHeight && have[i] == Walk(start, have[i].nHeight))
    && (forall i, j :: 0 <= i < j < |have| ==> have[i].nHeight > have[j].nHeight)
  }

  /** x is the tip's ancestor at its height. */
  ghost predicate OnWay(tip: BlockIndex, x: BlockIndex)
    requires Rooted(tip)
  {
    Rooted(x) && x.nHeight <= tip.nHeight && x == Walk(tip, x.nHeight)
  }

  ghost predicate FilledAbove(tip: BlockIndex, v: seq<BlockIndex?>, k: nat)
    requires Rooted(tip) && |v| == tip.nHeight + 1
  {
    forall i :: k <= i < |v| ==> v[i] == Walk(tip, i)
  }

  lemma StepDown(tip: BlockIndex, x: BlockIndex)
    requires Rooted(tip) && OnWay(tip, x)
    ensures x.pprev == null <==> x.nHeight == 0
    ensures x.pprev != null ==> OnWay(tip, x.pprev) && x.pprev.nHeight == x.nHeight - 1
  {
    if x.pprev != null { WalkOn(tip, x.nHeight, x.nHeight - 1); }
  }

  lemma RestIsRight(tip: BlockIndex, x: BlockIndex, before: seq<BlockIndex?>, v: seq<BlockIndex?>)
    requires Rooted(tip) && OnWay(tip, x) && |v| == tip.nHeight + 1 && ChainOk(before) && FilledAbove(tip, v, x.nHeight + 1)
    requires v[x.nHeight] == x && forall i :: 0 <= i <= x.nHeight ==> v[i] == if i < |before| then before[i] else null
    ensures FilledAbove(tip, v, 0)
  {
    hide Walk, Rooted, ChainOk;
    forall i | 0 <= i <= x.nHeight ensures v[i] == Walk(tip, i) {
      ChainIsLine(before, x.nHeight, i);
      WalkOn(tip, x.nHeight, i);
    }
  }

  lemma FilledIsChain(tip: BlockIndex, v: seq<BlockIndex?>)
    requires Rooted(tip) && |v| == tip.nHeight + 1 && FilledAbove(tip, v, 0)
    ensures ChainOk(v)
  {
    hide Walk, Rooted;
    forall i | 0 <= i < |v| ensures EntryOk(v, i) {
      assert v[i] == Walk(tip, i);
      StepDown(tip, v[i]);
    }
  }

  lemma LineHeights(b: BlockIndex)
    requires Rooted(b)
    ensures forall x :: x in Line(b) ==> Rooted(x) && x.nHeight <= b.nHeight && x == Walk(b, x.nHeight)
    decreases b.nHeight
  {
    if b.pprev != null { LineHeights(b.pprev); }
  }

  lemma WalkInLine(b: BlockIndex, h: nat)
    requires Rooted(b) && h <= b.nHeight
    ensures Walk(b, h) in Line(b)
  {
  }

  lemma StepBack(b: BlockIndex, x: BlockIndex, v: seq<BlockIndex?>)
    requires Rooted(b) && x in Line(b) && !InChain(v, x)
    requires forall y :: y in Line(b) && InChain(v, y) ==> y.nHeight <= x.nHeight
    ensures Rooted(x) && (x.pprev == null <==> x.nHeight == 0)
    ensures x.pprev != null ==> Rooted(x.pprev) && x.pprev in Line(b) && x.pprev.nHeight == x.nHeight - 1
    ensures forall y :: y in Line(b) && InChain(v, y) ==> y.nHeight <= x.nHeight - 1
  {
    hide Walk;
    LineHeights(b);
    LineWithin(b, x);
    if x.pprev != null { SelfInLine(x.pprev); }
  }

  lemma Lands(start: BlockIndex, h: nat)
    requires Rooted(start) && h <= start.nHeight
    ensures OnWay(start, Walk(start, h)) && Walk(start, h).nHeight == h
  {
  }

  lemma AncestorSkips(b: BlockIndex, x: BlockIndex)
    requires Rooted(b) && SkipsOk(b) && OnWay(b, x)
    ensures SkipsOk(x)
  {
    hide Walk;
    WalkInLine(b, x.nHeight);
    LineWithin(b, x);
  }
}
