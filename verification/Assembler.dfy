/** The block assembler: selects transactions into a block in place. */
module Assembler {
  import opened Wrappers
  import opened Sets
  import opened Mempool
  import opened Miner
  import opened Packages

  const MAX_CONSECUTIVE_FAILURES := 1000

  datatype Outcome = TooBig | MayNotEnter | Selected

  class BlockAssembler {
    const p: Pool
    const stats: map<int, Stats>
    const cfg: Config
    const txBlackList: set<int>
    const baseSize: nat
    var inBlock: set<int>
    var vtx: seq<int>
    var nBlockWeight: nat
    var nBlockSize: nat
    var nBlockSigOpsCost: nat
    var used: Tally
    var fNeedSizeAccounting: bool
    var lastFewTxs: nat
    var blockFinished: bool
    /** The transactions whose size nBlockSize includes. */
    ghost var sized: set<int>

    ghost predicate Setup() {
      PoolOk(p) && StatsOk(p, stats) && BlacklistOk(p, txBlackList) && cfg.maxWeight >= 4000
    }

    /** Lock time and witness rules let the transaction into the block. */
    predicate Minable(t: int)
      requires t in p.txs
    {
      p.txs[t].isFinal && (cfg.includeWitness || !p.txs[t].hasWitness)
    }

    /** The counters are exact and within limits, and so are the privacy spends. */
    ghost predicate CountersOk()
      requires PoolOk(p)
      reads this
    {
      && inBlock <= p.txs.Keys
      && nBlockWeight == 4000 + Sum(p, inBlock, Weight) && nBlockWeight <= cfg.maxWeight
      && nBlockSigOpsCost == 100 + Sum(p, inBlock, SigOps) && nBlockSigOpsCost < MAX_BLOCK_SIGOPS_COST
      && sized <= inBlock && nBlockSize == baseSize + Sum(p, sized, Size) && (sized == {} || nBlockSize < cfg.maxSize)
      && LimitsOk(p, cfg, used, inBlock)
      && forall t :: t in inBlock ==> Minable(t)
    }

    ghost predicate Valid()
      reads this
    {
      Setup() && SelectionOk(p, txBlackList, vtx, inBlock) && CountersOk()
    }

    /** resetBlock: room is reserved for the coinbase. */
    constructor (p: Pool, stats: map<int, Stats>, cfg: Config, bl: set<int>, commitments: nat, sizeAccounting: bool)
      requires PoolOk(p) && StatsOk(p, stats) && BlacklistOk(p, bl) && cfg.maxWeight >= 4000
      ensures Valid() && vtx == [] && inBlock == {}
      ensures fNeedSizeAccounting == sizeAccounting && nBlockSize == 1000 + commitments
      ensures this.p == p && this.stats == stats && this.cfg == cfg && txBlackList == bl && baseSize == nBlockSize
      ensures sized == {} && !blockFinished && nBlockWeight == 4000 && nBlockSigOpsCost == 100
      ensures used == Tally(Used(0, 0), Used(0, 0), Used(0, 0))
    {
      this.p, this.stats, this.cfg, txBlackList, baseSize := p, stats, cfg, bl, 1000 + commitments;
      inBlock, vtx, sized := {}, [], {};
      nBlockWeight, nBlockSize, nBlockSigOpsCost := 4000, 1000 + commitments, 100;
      used := Tally(Used(0, 0), Used(0, 0), Used(0, 0));
      fNeedSizeAccounting, lastFewTxs, blockFinished := sizeAccounting, 0, false;
    }

    /** Adds a transaction whose parents are in, unless a privacy limit drops it. */
    method AddToBlock(t: int) returns (added: bool)
      requires Valid() && t in p.txs && t !in inBlock && t !in txBlackList && p.parents[t] <= inBlock
      requires nBlockWeight + p.txs[t].weight <= cfg.maxWeight
      requires nBlockSigOpsCost + p.txs[t].sigOps < MAX_BLOCK_SIGOPS_COST
      requires Minable(t) && (fNeedSizeAccounting ==> nBlockSize + p.txs[t].size < cfg.maxSize)
      modifies this`inBlock, this`vtx, this`nBlockWeight, this`nBlockSize, this`nBlockSigOpsCost, this`used, this`sized
      ensures Valid()
      ensures (used, added) == Count(cfg, old(used), p.txs[t])
      ensures added ==> vtx == old(vtx) + [t] && inBlock == old(inBlock) + {t}
      ensures added ==> nBlockSize == old(nBlockSize) + if fNeedSizeAccounting then p.txs[t].size else 0
      ensures sized == if added && fNeedSizeAccounting then old(sized) + {t} else old(sized)
      ensures !added ==> Privacy(p.txs[t]) && vtx == old(vtx) && inBlock == old(inBlock)
                         && nBlockWeight == old(nBlockWeight) && nBlockSigOpsCost == old(nBlockSigOpsCost) && nBlockSize == old(nBlockSize)
    {
      hide LimitsOk, Sum, SelectionOk, PoolOk, StatsOk, BlacklistOk;
      var tx := p.txs[t];
      CountKeepsLimits(p, cfg, used, inBlock, t);
      var counted := Count(cfg, used, tx);
      used := counted.0;
      if !counted.1 {
        return false;
      }
      SelectMore(p, txBlackList, vtx, inBlock, t);
      SumAdd(p, inBlock, Weight, t);
      SumAdd(p, inBlock, SigOps, t);
      vtx := vtx + [t];
      if fNeedSizeAccounting {
        SumAdd(p, sized, Size, t);
        nBlockSize := nBlockSize + tx.size;
        sized := sized + {t};
      }
      nBlockWeight := nBlockWeight + tx.weight;
      nBlockSigOpsCost := nBlockSigOpsCost + tx.sigOps;
      inBlock := inBlock + {t};
      return true;
    }

    /** A single transaction is final and still fits. */
    predicate Admissible(t: int, accounting: bool)
      requires t in p.txs
      reads this
    {
      && nBlockWeight + p.txs[t].weight < cfg.maxWeight && nBlockSigOpsCost + p.txs[t].sigOps < MAX_BLOCK_SIGOPS_COST
      && (accounting ==> nBlockSize + p.txs[t].size < cfg.maxSize)
      && p.txs[t].isFinal && WithinLimits(cfg, used, p.txs[t])
    }

    /** One of the counters has all but reached its limit. */
    predicate NearlyFull()
      reads this
    {
      || nBlockWeight > cfg.maxWeight - 400 || (fNeedSizeAccounting && nBlockSize > cfg.maxSize - 100)
      || nBlockSigOpsCost > MAX_BLOCK_SIGOPS_COST - 8
    }

    /** Whether a single transaction still fits. The block counts as finished only when it is nearly full or
        fifty transactions in a row were refused close to the end. */
    method TestForBlock(t: int) returns (ok: bool)
      requires Valid() && t in p.txs
      modifies this`lastFewTxs, this`blockFinished
      ensures Valid()
      ensures ok <==> Admissible(t, fNeedSizeAccounting)
      ensures ok ==> blockFinished == old(blockFinished) && lastFewTxs == old(lastFewTxs)
      ensures blockFinished ==> old(blockFinished) || NearlyFull() || old(lastFewTxs) > 50
      ensures old(lastFewTxs) <= lastFewTxs <= old(lastFewTxs) + 1 && (old(blockFinished) ==> blockFinished)
    {
      hide LimitsOk, Sum, SelectionOk, PoolOk, StatsOk, BlacklistOk;
      var tx := p.txs[t];
      if nBlockWeight + tx.weight >= cfg.maxWeight {
        if nBlockWeight > cfg.maxWeight - 400 || lastFewTxs > 50 {
          blockFinished := true;
          return false;
        }
        if nBlockWeight > cfg.maxWeight - 4000 {
          lastFewTxs := lastFewTxs + 1;
        }
        return false;
      }
      if fNeedSizeAccounting && nBlockSize + tx.size >= cfg.maxSize {
        if nBlockSize > cfg.maxSize - 100 || lastFewTxs > 50 {
          blockFinished := true;
          return false;
        }
        if nBlockSize > cfg.maxSize - 1000 {
          lastFewTxs := lastFewTxs + 1;
        }
        return false;
      }
      if nBlockSigOpsCost + tx.sigOps >= MAX_BLOCK_SIGOPS_COST {
        if nBlockSigOpsCost > MAX_BLOCK_SIGOPS_COST - 8 {
          blockFinished := true;
        }
        return false;
      }
      return tx.isFinal && WithinLimits(cfg, used, tx);
    }

    method AddIfFits(t: int) returns (added: bool)
      requires Valid() && t in p.txs && t !in inBlock && t !in txBlackList && p.parents[t] <= inBlock && fNeedSizeAccounting
      requires cfg.includeWitness || !p.txs[t].hasWitness
      modifies this
      ensures Valid() && fNeedSizeAccounting && (added <==> old(Admissible(t, true)))
      ensures if added then vtx == old(vtx) + [t] && inBlock == old(inBlock) + {t} && sized == old(sized) + {t}
              else vtx == old(vtx) && inBlock == old(inBlock) && sized == old(sized)
    {
      hide LimitsOk, Sum, SelectionOk, PoolOk, StatsOk, BlacklistOk;
      added := TestForBlock(t);
      if added {
        AdmittedIsNotDropped(cfg, used, p.txs[t]);
        added := AddToBlock(t);
      }
    }

    /** One candidate: skipped, set aside until its parents are in, or added if it fits; adding it
        releases the waiting children. */
    method PriorityStep(t: int, queue: set<int>, waiting: set<int>) returns (queue': set<int>, waiting': set<int>)
      requires Valid() && fNeedSizeAccounting && Pending(p, txBlackList, inBlock, queue, waiting) && t in queue
      modifies this
      ensures Valid() && fNeedSizeAccounting && Pending(p, txBlackList, inBlock, queue', waiting')
      ensures if inBlock == old(inBlock) then vtx == old(vtx) && sized == old(sized) && |queue'| < |queue|
              else t !in old(inBlock) && inBlock == old(inBlock) + {t} && vtx == old(vtx) + [t] && sized == old(sized) + {t}
      ensures t in inBlock <==> (cfg.includeWitness || !p.txs[t].hasWitness) && p.parents[t] <= old(inBlock) && old(Admissible(t, true))
    {
      hide LimitsOk, Sum, SelectionOk, PoolOk, StatsOk, BlacklistOk, Count, ChildrenOf, Pending, Admissible, CountersOk;
      PendingStep(p, txBlackList, inBlock, queue, waiting, t);
      queue', waiting' := queue - {t}, waiting;
      assert t !in inBlock;
      if !cfg.includeWitness && p.txs[t].hasWitness {
        return;
      }
      ParentsKnown(p, t);
      if !(p.parents[t] <= inBlock) {
        waiting' := waiting + {t};
        return;
      }
      var added := AddIfFits(t);
      if added {
        var released := waiting * ChildrenOf(p, t);
        PendingRelease(p, txBlackList, inBlock, queue', waiting, released);
        queue', waiting' := queue' + released, waiting - released;
      }
    }

    /** A candidate that would be added if it came first. */
    predicate Ready(t: int)
      requires PoolOk(p) && t in p.txs
      reads this
    {
      (cfg.includeWitness || !p.txs[t].hasWitness) && p.parents[t] <= inBlock && Admissible(t, true)
    }

    ghost predicate AllReady(s: set<int>)
      requires PoolOk(p)
      reads this
    {
      forall t :: t in s ==> t in p.txs && Ready(t)
    }

    lemma OneReady(s: set<int>, t: int)
      requires PoolOk(p) && AllReady(s) && t in s
      ensures t in p.txs && Ready(t)
    {
    }

    /** One candidate, and whether adding it ends the priority selection: at the size set aside or, left open, at
        a low priority, but never with a remint. */
    method ConsiderPriority(t: int, queue: set<int>, waiting: set<int>, limit: nat, ghost from: nat)
      returns (queue': set<int>, waiting': set<int>, enough: bool)
      requires Valid() && fNeedSizeAccounting && Pending(p, txBlackList, inBlock, queue, waiting) && t in queue
      modifies this
      ensures Valid() && fNeedSizeAccounting && Pending(p, txBlackList, inBlock, queue', waiting')
      ensures if inBlock == old(inBlock) then vtx == old(vtx) && sized == old(sized) && |queue'| < |queue| && !enough
              else t !in old(inBlock) && inBlock == old(inBlock) + {t} && vtx == old(vtx) + [t] && sized == old(sized) + {t}
      ensures t in p.txs && (t in inBlock <==> old(Ready(t)))
      ensures old(sized == inBlock && StoppedAt(p, baseSize, from, limit, vtx, false)) ==> StoppedAt(p, baseSize, from, limit, vtx, enough)
    {
      hide LimitsOk, Sum, SelectionOk, PoolOk, StatsOk, BlacklistOk, Pending, Admissible, CountersOk, StoppedAt;
      PendingStep(p, txBlackList, inBlock, queue, waiting, t);
      queue', waiting' := PriorityStep(t, queue, waiting);
      enough := false;
      if t in inBlock {
        if !p.txs[t].isRemint {
          enough := *;
          if nBlockSize >= limit {
            enough := true;
          }
        }
        if old(sized == inBlock && StoppedAt(p, baseSize, from, limit, vtx, false)) {
          SizeNow();
          SelectionFacts(p, txBlackList, vtx, inBlock);
          StopsAfter(p, baseSize, from, limit, old(vtx), t, enough);
        }
      }
    }

    /** The selection loop: candidates in an arbitrary priority order, until the block is full or selection ends. */
    method SelectByPriority(limit: nat)
      requires Valid() && fNeedSizeAccounting
      modifies this
      ensures Valid() && fNeedSizeAccounting && Extended(old(vtx), old(inBlock), old(sized), vtx, inBlock, sized)
      ensures old(sized) == old(inBlock) ==> StoppedAt(p, baseSize, |old(vtx)|, limit, vtx, true)
      ensures var candidates := p.txs.Keys - txBlackList - old(inBlock);
              !old(blockFinished) && candidates != {} && old(AllReady(candidates)) ==> inBlock != old(inBlock)
    {
      hide LimitsOk, Sum, SelectionOk, PoolOk, StatsOk, BlacklistOk, Pending, Ready, CountersOk, StoppedAt, AllReady, Extended;
      ghost var v, b, counted := vtx, inBlock, sized;
      SelectionFacts(p, txBlackList, vtx, inBlock);
      SelectionMembers(p, txBlackList, vtx, inBlock);
      NotStopped(p, baseSize, limit, vtx);
      ExtendedNot(v, b, counted);
      var queue, waiting := p.txs.Keys - txBlackList - inBlock, {};
      ghost var candidates := queue;
      ghost var ready, finished := AllReady(candidates), blockFinished;
      PendingStart(p, txBlackList, inBlock);
      var enough: bool := false;
      while queue != {} && !blockFinished && !enough
        invariant Valid() && fNeedSizeAccounting && Pending(p, txBlackList, inBlock, queue, waiting)
        invariant Extended(v, b, counted, vtx, inBlock, sized)
        invariant counted == b ==> StoppedAt(p, baseSize, |v|, limit, vtx, enough)
        invariant ready && inBlock == b ==> queue == candidates && blockFinished == finished && !enough && AllReady(candidates)
        decreases |p.txs.Keys - inBlock|, |queue|
      {
        var t := PickAny(queue);
        PendingStep(p, txBlackList, inBlock, queue, waiting, t);
        Shrinks(p.txs.Keys, inBlock, t);
        if AllReady(queue) { OneReady(queue, t); }
        ExtendedMore(v, b, counted, vtx, inBlock, sized, t);
        ExtendedSized(v, b, counted, vtx, inBlock, sized);
        queue, waiting, enough := ConsiderPriority(t, queue, waiting, limit, |v|);
      }
      if counted == b {
        StoppedAnyway(p, baseSize, |v|, limit, vtx, enough);
      }
    }

    /** Adds transactions by priority, counting sizes meanwhile, until the space set aside for them is used up or a
        priority is too low. Chain-lock safety is not looked at. */
    method AddPriorityTxs(prioritySize: nat)
      requires Valid()
      modifies this
      ensures Valid() && fNeedSizeAccounting == old(fNeedSizeAccounting)
      ensures Extended(old(vtx), old(inBlock), old(sized), vtx, inBlock, sized)
      ensures prioritySize == 0 ==> vtx == old(vtx)
      ensures old(sized) == old(inBlock) ==> StoppedAt(p, baseSize, |old(vtx)|, PriorityLimit(cfg, prioritySize), vtx, true)
      ensures var candidates := p.txs.Keys - txBlackList - old(inBlock);
              prioritySize > 0 && !old(blockFinished) && candidates != {} && old(AllReady(candidates)) ==> inBlock != old(inBlock)
    {
      hide LimitsOk, Sum, SelectionOk, PoolOk, StatsOk, BlacklistOk, CountersOk, StoppedAt, AllReady, Extended;
      var nBlockPrioritySize := PriorityLimit(cfg, prioritySize);
      if prioritySize == 0 {
        SelectionFacts(p, txBlackList, vtx, inBlock);
        SelectionMembers(p, txBlackList, vtx, inBlock);
        NotStopped(p, baseSize, nBlockPrioritySize, vtx);
        ExtendedNot(vtx, inBlock, sized);
        return;
      }
      var fSizeAccounting := fNeedSizeAccounting;
      SetAccounting(true, p.txs.Keys - txBlackList - inBlock);
      SelectByPriority(nBlockPrioritySize);
      SetAccounting(fSizeAccounting, {});
    }

    lemma SizeNow()
      requires Valid() && sized == inBlock
      ensures Members(vtx) == inBlock && nBlockSize == baseSize + Sum(p, Members(vtx), Size)
    {
      hide LimitsOk, Sum, SelectionOk, PoolOk, StatsOk, BlacklistOk;
      SelectionMembers(p, txBlackList, vtx, inBlock);
    }

    method SetAccounting(on: bool, ghost s: set<int>)
      requires Valid()
      modifies this`fNeedSizeAccounting
      ensures Valid() && fNeedSizeAccounting == on && AllReady(s) == old(AllReady(s))
    {
      hide LimitsOk, Sum, SelectionOk, PoolOk, StatsOk, BlacklistOk;
      fNeedSizeAccounting := on;
    }

    /** TestPackage. */
    predicate TestPackage(totals: Totals)
      reads this
    {
      && nBlockWeight + WITNESS_SCALE_FACTOR * totals.size < cfg.maxWeight
      && nBlockSigOpsCost + totals.sigOps < MAX_BLOCK_SIGOPS_COST
    }

    predicate MayEnter(t: int)
      requires t in p.txs
    {
      Minable(t) && p.txs[t].safe
    }

    /** TestPackageTransactions: every member may enter, and together they fit the size limit. */
    method TestPackageTransactions(package: set<int>) returns (ok: bool)
      requires package <= p.txs.Keys && package != {}
      ensures ok <==> && (forall t :: t in package ==> MayEnter(t))
                      && (fNeedSizeAccounting ==> nBlockSize + Sum(p, package, Size) < cfg.maxSize)
    {
      hide Sum;
      var potential := nBlockSize;
      var rest := package;
      SumEmpty(p, Size);
      while rest != {}
        invariant rest <= package
        invariant forall t :: t in package - rest ==> MayEnter(t)
        invariant fNeedSizeAccounting ==> potential == nBlockSize + Sum(p, package - rest, Size)
        invariant fNeedSizeAccounting && rest != package ==> potential < cfg.maxSize
        decreases |rest|
      {
        var t := PickAny(rest);
        if !MayEnter(t) {
          return false;
        }
        var left := rest - {t};
        SumAdd(p, package - rest, Size, t);
        assert package - rest + {t} == package - left;
        if fNeedSizeAccounting {
          if potential + p.txs[t].size >= cfg.maxSize {
            SumSubset(p, package - left, package, Size);
            return false;
          }
          potential := potential + p.txs[t].size;
        }
        rest := left;
      }
      assert package - rest == package;
      return true;
    }

    /** There is room for the rest of the package of head. */
    ghost predicate Fits(head: int)
      requires PoolOk(p) && head in p.txs
      reads this
    {
      var package := Missing(p, head, inBlock);
      && nBlockWeight + Sum(p, package, Weight) < cfg.maxWeight
      && nBlockSigOpsCost + Sum(p, package, SigOps) < MAX_BLOCK_SIGOPS_COST
      && (fNeedSizeAccounting ==> nBlockSize + Sum(p, package, Size) < cfg.maxSize)
    }

    /** Sorts the rest of a package and adds it; only a privacy spend at its head can be dropped. */
    method AddPackage(head: int) returns (package: set<int>)
      requires Valid() && head in p.txs && head !in inBlock && head !in txBlackList && Fits(head)
      requires forall t :: t in Missing(p, head, inBlock) ==> Minable(t)
      modifies this`inBlock, this`vtx, this`nBlockWeight, this`nBlockSize, this`nBlockSigOpsCost, this`used, this`sized
      ensures Valid() && old(vtx) <= vtx && package == Missing(p, head, old(inBlock))
      ensures inBlock == old(inBlock) + package || (Privacy(p.txs[head]) && inBlock == old(inBlock) + package - {head})
      ensures sized == old(sized) + if fNeedSizeAccounting then inBlock - old(inBlock) else {}
    {
      hide LimitsOk, Sum, SelectionOk, PoolOk, StatsOk, BlacklistOk, IsAncestor, Listing, AddedSoFar, Count, Minable;
      PackageKnown(p, stats, head, inBlock);
      package := stats[head].ancestors - inBlock + {head};
      var sorted := SortForBlock(stats, package);
      ghost var base, size := inBlock, nBlockSize;
      SumUnion(p, base, package, Weight);
      SumUnion(p, base, package, SigOps);
      AddedNone(p, stats, head, base, package, sorted);
      assert inBlock - base == {};
      SumEmpty(p, Size);
      var i := 0;
      while i < |sorted|
        invariant 0 <= i <= |sorted| && Valid() && old(vtx) <= vtx
        invariant base <= inBlock <= base + package && AddedSoFar(p, head, base, package, sorted, i, inBlock)
        invariant fNeedSizeAccounting ==> nBlockSize == size + Sum(p, inBlock - base, Size)
        invariant sized == old(sized) + if fNeedSizeAccounting then inBlock - base else {}
      {
        var t := sorted[i];
        NextMember(p, stats, txBlackList, head, base, package, sorted, i, inBlock);
        RoomForOne(p, inBlock, t, base + package, Weight);
        RoomForOne(p, inBlock, t, base + package, SigOps);
        RoomForOne(p, inBlock - base, t, package, Size);
        AddedOne(p, stats, head, base, package, sorted, i, inBlock);
        SumAdd(p, inBlock - base, Size, t);
        assert inBlock - base + {t} == inBlock + {t} - base;
        var added := AddToBlock(t);
        i := i + 1;
      }
      AddedAll(p, stats, head, base, package, sorted, inBlock);
      SumSubset(p, inBlock - base, package, Size);
    }

    /** Evaluates one package and adds it if it passes. */
    method TryPackage(head: int, totals: Totals) returns (outcome: Outcome, package: set<int>)
      requires Valid() && head in p.txs && head !in inBlock && head !in txBlackList
      requires Covers(totals, MissingTotals(p, head, inBlock))
      modifies this`inBlock, this`vtx, this`nBlockWeight, this`nBlockSize, this`nBlockSigOpsCost, this`used, this`sized
      ensures Valid() && old(vtx) <= vtx && package == Missing(p, head, old(inBlock))
      ensures outcome != Selected ==> inBlock == old(inBlock) && vtx == old(vtx) && sized == old(sized)
      ensures sized == old(sized) + if fNeedSizeAccounting then inBlock - old(inBlock) else {}
      ensures outcome == Selected ==> inBlock == old(inBlock) + package || (Privacy(p.txs[head]) && inBlock == old(inBlock) + package - {head})
      ensures outcome == Selected ==> forall t :: t in package ==> MayEnter(t)
    {
      hide LimitsOk, Sum, SelectionOk, PoolOk, StatsOk, BlacklistOk, IsAncestor;
      PackageKnown(p, stats, head, inBlock);
      package := stats[head].ancestors - inBlock + {head};
      if !TestPackage(totals) {
        outcome := TooBig;
        return;
      }
      PackageWeight(p, package);
      var ok := TestPackageTransactions(package);
      if !ok {
        outcome := MayNotEnter;
        return;
      }
      outcome := Selected;
      package := AddPackage(head);
    }

    /** What the selection loop keeps between iterations. */
    ghost predicate Tracking(m: map<int, Totals>, stale: set<int>)
      requires Setup()
      reads this
    {
      Live(p, txBlackList, m, inBlock) && TotalsOk(p, stats, txBlackList, m, inBlock, inBlock, stale)
    }

    /** One package, from the pool or from the modified set: a modified entry that fails is erased and
        remembered; a selected package is erased and its dependants are charged for it. */
    method ConsiderPackage(head: int, m: map<int, Totals>, failed: set<int>, ghost stale: set<int>)
      returns (outcome: Outcome, m': map<int, Totals>, failed': set<int>, ghost stale': set<int>)
      requires Valid() && Tracking(m, stale) && head in p.txs && head !in inBlock && head !in txBlackList
      modifies this`inBlock, this`vtx, this`nBlockWeight, this`nBlockSize, this`nBlockSigOpsCost, this`used, this`sized
      ensures Valid() && old(vtx) <= vtx && Tracking(m', stale')
      ensures old(inBlock) <= inBlock && (inBlock == old(inBlock) ==> m' == m - {head})
      ensures Grown(p, old(inBlock), old(sized), inBlock, sized, fNeedSizeAccounting)
      ensures failed <= failed' <= failed + {head}
    {
      hide LimitsOk, Sum, SelectionOk, PoolOk, StatsOk, BlacklistOk, IsAncestor, TotalsOk, Live, Missing, CountersOk, Covers;
      ghost var base := inBlock;
      PackageKnown(p, stats, head, inBlock);
      TotalsAt(p, stats, txBlackList, m, inBlock, inBlock, stale, head);
      ghost var missing := Missing(p, head, base);
      BlockClosed(p, txBlackList, vtx, inBlock);
      var package;
      outcome, package := TryPackage(head, Cached(stats, m, head));
      if outcome == Selected {
        failed' := failed;
        TotalsErased(p, stats, txBlackList, m, base, base, stale, package);
        LiveErased(p, txBlackList, m, base, package);
        m' := UpdatePackagesForAdded(p, stats, txBlackList, package, m - package, base, stale);
        stale' := stale;
        if inBlock != base + package {
          HeadDropped(p, stats, txBlackList, m', base + package, stale, head);
          stale' := stale + {head};
          if inBlock == base { OnlyHead(p, base, package, head); }
        }
      } else if head in m {
        m', failed', stale' := m - {head}, failed + {head}, stale + {head};
        TotalsDropped(p, stats, txBlackList, m, base, base, stale, head);
        LiveErased(p, txBlackList, m, base, {head});
        LiveLess(p, txBlackList, m', base, {head});
      } else {
        m', failed', stale' := m, failed, stale;
        assert m' == m - {head};
      }
    }

    /** The modified set to start with: what depends on transactions already in the block. */
    method StartPackages() returns (m: map<int, Totals>)
      requires Valid()
      ensures Tracking(m, {})
    {
      hide LimitsOk, Sum, SelectionOk, PoolOk, StatsOk, BlacklistOk, IsAncestor, TotalsOk, CountersOk;
      BlockClosed(p, txBlackList, vtx, inBlock);
      SelectionFacts(p, txBlackList, vtx, inBlock);
      TotalsStart(p, stats, txBlackList, {} + inBlock);
      NothingAncestorClosed(p);
      m := UpdatePackagesForAdded(p, stats, txBlackList, inBlock, map[], {}, {});
      assert {} + inBlock == inBlock;
    }

    /** The modified set holds nothing that is in the block. */
    lemma ModifiedMayEnter(m: map<int, Totals>, stale: set<int>, head: int)
      requires Setup() && Tracking(m, stale) && head in m
      ensures head in p.txs && head !in inBlock && head !in txBlackList
    {
      hide TotalsOk;
    }

    /** Selects packages until the pool's order and the modified set are used up, a fee rate is too low (left
        open) or the block is close enough to full. `order` is the pool by ancestor score. */
    method AddPackageTxs(order: seq<int>)
      requires Valid() && forall i :: 0 <= i < |order| ==> order[i] in p.txs
      modifies this`inBlock, this`vtx, this`nBlockWeight, this`nBlockSize, this`nBlockSigOpsCost, this`used, this`sized
      ensures Valid() && old(vtx) <= vtx
      ensures Grown(p, old(inBlock), old(sized), inBlock, sized, fNeedSizeAccounting)
    {
      hide LimitsOk, Sum, SelectionOk, PoolOk, StatsOk, BlacklistOk, IsAncestor, Tracking, CountersOk, Grown;
      GrownNot(p, inBlock, sized, fNeedSizeAccounting);
      var m := StartPackages();
      var failed: set<int> := {};
      ghost var stale: set<int> := {};
      var mi, nConsecutiveFailed := 0, 0;
      while mi < |order| || m.Keys != {}
        invariant 0 <= mi <= |order| && Valid() && old(vtx) <= vtx && Tracking(m, stale)
        invariant Grown(p, old(inBlock), old(sized), inBlock, sized, fNeedSizeAccounting)
        decreases |p.txs.Keys - inBlock|, |order| - mi + |m.Keys|
      {
        if mi < |order| && (order[mi] in m || order[mi] in inBlock || order[mi] in failed || order[mi] in txBlackList) {
          mi := mi + 1;
          continue;
        }
        var fUsingModified := mi == |order|;
        if !fUsingModified && m.Keys != {} {
          fUsingModified := *;
        }
        var head;
        if fUsingModified {
          head := PickAny(m.Keys);
          ModifiedMayEnter(m, stale, head);
        } else {
          head := order[mi];
          mi := mi + 1;
        }
        assert head !in inBlock;
        var feeTooLow: bool := *;
        if feeTooLow {
          return;
        }
        ghost var before, counted, keys := inBlock, sized, m.Keys;
        var outcome;
        outcome, m, failed, stale := ConsiderPackage(head, m, failed, stale);
        SelectionFacts(p, txBlackList, vtx, inBlock);
        Progress(p.txs.Keys, before, inBlock, keys, m.Keys, head);
        GrownMore(p, old(inBlock), old(sized), before, counted, inBlock, sized, fNeedSizeAccounting);
        if outcome == Selected {
          nConsecutiveFailed := 0;
        } else if outcome == TooBig {
          nConsecutiveFailed := nConsecutiveFailed + 1;
          if nConsecutiveFailed > MAX_CONSECUTIVE_FAILURES && nBlockWeight > cfg.maxWeight - 4000 {
            break;
          }
        }
      }
    }
  }

  /** Transactions were added, and all their sizes counted. */
  ghost predicate Extended(v: seq<int>, b: set<int>, counted: set<int>, vtx: seq<int>, inBlock: set<int>, sized: set<int>) {
    v <= vtx && b <= inBlock && sized == counted + (inBlock - b)
  }

  lemma ExtendedNot(v: seq<int>, b: set<int>, counted: set<int>)
    ensures Extended(v, b, counted, v, b, counted)
  {
  }

  lemma ExtendedMore(v: seq<int>, b: set<int>, counted: set<int>, vtx: seq<int>, inBlock: set<int>, sized: set<int>, t: int)
    requires Extended(v, b, counted, vtx, inBlock, sized) && t !in inBlock
    ensures Extended(v, b, counted, vtx + [t], inBlock + {t}, sized + {t}) && inBlock + {t} != b
  {
    assert t in inBlock + {t};
  }

  lemma ExtendedSized(v: seq<int>, b: set<int>, counted: set<int>, vtx: seq<int>, inBlock: set<int>, sized: set<int>)
    requires Extended(v, b, counted, vtx, inBlock, sized)
    ensures counted == b ==> sized == inBlock
  {
  }

  /** nBlockPrioritySize: no more than the block may hold. */
  function PriorityLimit(cfg: Config, prioritySize: nat): nat {
    if cfg.maxSize < prioritySize then cfg.maxSize else prioritySize
  }

  /** From position `from` on, after every transaction that is no remint the block was still below the limit,
      except after the last one once selection has stopped. */
  ghost predicate StoppedAt(p: Pool, base: nat, from: nat, limit: nat, vtx: seq<int>, stopped: bool) {
    Members(vtx) <= p.txs.Keys && forall i :: from <= i < |vtx| ==> ContinuedAt(p, base, limit, vtx, i) || (stopped && i == |vtx| - 1)
  }

  ghost predicate ContinuedAt(p: Pool, base: nat, limit: nat, vtx: seq<int>, i: nat)
    requires i < |vtx| && Members(vtx) <= p.txs.Keys
  {
    Known(p, vtx, i);
    p.txs[vtx[i]].isRemint || base + Sum(p, Members(vtx[..i + 1]), Size) < limit
  }

  lemma Known(p: Pool, vtx: seq<int>, i: nat)
    requires i < |vtx| && Members(vtx) <= p.txs.Keys
    ensures vtx[i] in p.txs && Members(vtx[..i + 1]) <= p.txs.Keys
  {
    assert vtx[i] in Members(vtx);
    forall t | t in Members(vtx[..i + 1]) ensures t in p.txs { assert t in Members(vtx); }
  }

  lemma NotStopped(p: Pool, base: nat, limit: nat, vtx: seq<int>)
    requires Members(vtx) <= p.txs.Keys
    ensures StoppedAt(p, base, |vtx|, limit, vtx, false) && StoppedAt(p, base, |vtx|, limit, vtx, true)
  {
  }

  lemma StoppedAnyway(p: Pool, base: nat, from: nat, limit: nat, vtx: seq<int>, stopped: bool)
    requires StoppedAt(p, base, from, limit, vtx, stopped)
    ensures StoppedAt(p, base, from, limit, vtx, true)
  {
    hide ContinuedAt;
  }

  lemma StopsAfter(p: Pool, base: nat, from: nat, limit: nat, vtx: seq<int>, t: int, stopped: bool)
    requires StoppedAt(p, base, from, limit, vtx, false) && t in p.txs && Members(vtx + [t]) <= p.txs.Keys
    requires stopped || p.txs[t].isRemint || base + Sum(p, Members(vtx + [t]), Size) < limit
    ensures StoppedAt(p, base, from, limit, vtx + [t], stopped)
  {
    var more := vtx + [t];
    forall i | from <= i < |more| ensures ContinuedAt(p, base, limit, more, i) || (stopped && i == |more| - 1) {
      if i < |vtx| {
        assert ContinuedAt(p, base, limit, vtx, i) && more[..i + 1] == vtx[..i + 1];
      } else {
        assert more[..i + 1] == more;
      }
    }
  }

  /** Package selection only adds transactions safe for mining, and counts their sizes if asked to. */
  ghost predicate Grown(p: Pool, before: set<int>, counted: set<int>, after: set<int>, sized: set<int>, accounting: bool) {
    && before <= after && sized == counted + (if accounting then after - before else {})
    && forall t :: t in after - before ==> t in p.txs && p.txs[t].safe
  }

  lemma GrownNot(p: Pool, b: set<int>, sized: set<int>, accounting: bool)
    ensures Grown(p, b, sized, b, sized, accounting)
  {
  }

  lemma GrownMore(p: Pool, b: set<int>, sized: set<int>, b1: set<int>, sized1: set<int>, b2: set<int>, sized2: set<int>, accounting: bool)
    requires Grown(p, b, sized, b1, sized1, accounting) && Grown(p, b1, sized1, b2, sized2, accounting)
    ensures Grown(p, b, sized, b2, sized2, accounting)
  {
  }

  /** Candidates still to be looked at, and those waiting for a parent. */
  ghost predicate Pending(p: Pool, bl: set<int>, inBlock: set<int>, queue: set<int>, waiting: set<int>) {
    && queue <= p.txs.Keys && waiting <= p.txs.Keys && queue !! bl && waiting !! bl
    && queue !! inBlock && waiting !! inBlock && queue !! waiting
  }

  lemma PendingStart(p: Pool, bl: set<int>, inBlock: set<int>)
    ensures Pending(p, bl, inBlock, p.txs.Keys - bl - inBlock, {})
  {
  }

  lemma PendingStep(p: Pool, bl: set<int>, inBlock: set<int>, queue: set<int>, waiting: set<int>, t: int)
    requires Pending(p, bl, inBlock, queue, waiting) && t in queue
    ensures t in p.txs && t !in bl && t !in inBlock && |queue - {t}| < |queue|
    ensures Pending(p, bl, inBlock, queue - {t}, waiting) && Pending(p, bl, inBlock, queue - {t}, waiting + {t})
    ensures Pending(p, bl, inBlock + {t}, queue - {t}, waiting)
  {
  }

  lemma PendingRelease(p: Pool, bl: set<int>, inBlock: set<int>, queue: set<int>, waiting: set<int>, released: set<int>)
    requires Pending(p, bl, inBlock, queue, waiting) && released <= waiting
    ensures Pending(p, bl, inBlock, queue + released, waiting - released)
  {
  }

  lemma SelectionFacts(p: Pool, bl: set<int>, vtx: seq<int>, inBlock: set<int>)
    requires PoolOk(p) && SelectionOk(p, bl, vtx, inBlock)
    ensures inBlock <= p.txs.Keys && inBlock !! bl
  {
  }

  lemma ParentsKnown(p: Pool, t: int)
    requires PoolOk(p) && t in p.txs
    ensures t in p.parents && p.parents[t] <= p.txs.Keys
  {
    forall a | a in p.parents[t] ensures a in p.txs {}
  }

  lemma BlockClosed(p: Pool, bl: set<int>, vtx: seq<int>, inBlock: set<int>)
    requires PoolOk(p) && BlacklistOk(p, bl) && SelectionOk(p, bl, vtx, inBlock)
    ensures AncestorClosed(p, inBlock) && inBlock <= p.txs.Keys
  {
    hide IsAncestor, BlacklistOk;
    forall t, a | t in inBlock && t in p.txs && a in p.txs && IsAncestor(p, a, t) ensures a in inBlock {
      InBlockClosed(p, bl, vtx, inBlock, t, a);
    }
  }

  lemma LiveErased(p: Pool, bl: set<int>, m: map<int, Totals>, x: set<int>, gone: set<int>)
    requires Live(p, bl, m, x)
    ensures Live(p, bl, m - gone, x + gone)
  {
  }

  lemma LiveLess(p: Pool, bl: set<int>, m: map<int, Totals>, x: set<int>, gone: set<int>)
    requires Live(p, bl, m, x + gone)
    ensures Live(p, bl, m, x)
  {
  }

  lemma OnlyHead(p: Pool, base: set<int>, package: set<int>, head: int)
    requires package !! base && head in package && head in p.txs && Privacy(p.txs[head]) && base + package - {head} == base
    ensures package == {head} && AllPrivacy(p, package)
  {
    forall t | t in package ensures t == head {
      assert t in base + package - {head} || t == head;
    }
  }

  lemma NothingAncestorClosed(p: Pool)
    requires PoolOk(p)
    ensures AncestorClosed(p, {})
  {
  }

  /** Either the block grew or the modified set lost the entry looked at. */
  lemma Progress(all: set<int>, before: set<int>, after: set<int>, keys: set<int>, keys': set<int>, head: int)
    requires before <= after <= all && (before == after ==> keys' == keys - {head})
    ensures |all - after| < |all - before| || (before == after && |keys'| <= |keys| && (head in keys ==> |keys'| < |keys|))
  {
    if before != after {
      assert after - before != {};
      var x := Pick(after - before);
      ProperSubset(all - after, all - before, x);
    } else if head !in keys {
      assert keys - {head} == keys;
    }
  }

  function Members(s: seq<int>): set<int> {
    set t | t in s
  }

  /** Template creation: the selected transactions are a valid selection within every limit, the first
      `byPriority` of them chosen by priority and the others in packages. The blacklist belongs to the assembler,
      so it starts from what an earlier template left in it. */
  method CreateNewBlock(p: Pool, stats: map<int, Stats>, cfg: Config, treatment: map<int, Treatment>, disallowed: set<int>,
                        lelantusLimit: Option<nat>, sparkLimit: Option<nat>, start: set<int>, commitments: nat,
                        sizeAccounting: bool, prioritySize: nat, order: seq<int>)
    returns (vtx: seq<int>, b: set<int>, bl: set<int>, byPriority: nat)
    requires PoolOk(p) && StatsOk(p, stats) && DescendantClosed(p, start) && cfg.maxWeight >= 4000
    requires forall i :: 0 <= i < |order| ==> order[i] in p.txs
    ensures BlacklistOk(p, bl)
    ensures forall x :: x in start || Banned(p, treatment, {}, x) || DependsOnAny(p, disallowed, x) ==> x in bl
    ensures lelantusLimit.Some? ==> Sum(p, Allowed(p, Lelantus, bl), Amount) <= lelantusLimit.value
    ensures sparkLimit.Some? ==> Sum(p, Allowed(p, Spark, bl), Amount) <= sparkLimit.value
    ensures SelectionOk(p, bl, vtx, b) && exists used :: LimitsOk(p, cfg, used, b)
    ensures 4000 + Sum(p, b, Weight) <= cfg.maxWeight && 100 + Sum(p, b, SigOps) < MAX_BLOCK_SIGOPS_COST
    ensures sizeAccounting ==> b == {} || 1000 + commitments + Sum(p, b, Size) < cfg.maxSize
    ensures byPriority <= |vtx| && (prioritySize == 0 ==> byPriority == 0)
    ensures byPriority == 0 || 1000 + commitments + Sum(p, Members(vtx[..byPriority]), Size) < cfg.maxSize
    ensures StoppedAt(p, 1000 + commitments, 0, PriorityLimit(cfg, prioritySize), vtx[..byPriority], true)
    ensures forall t :: t in b ==> p.txs[t].isFinal && (cfg.includeWitness || !p.txs[t].hasWitness)
    ensures forall i :: byPriority <= i < |vtx| ==> p.txs[vtx[i]].safe
  {
    hide LimitsOk, Sum, PoolOk, StatsOk, BlacklistOk, IsAncestor, DescendantClosed, SelectionOk, Banned, DependsOnAny, Smaller, StoppedAt;
    bl := FillBlackList(p, treatment, disallowed, start);
    if lelantusLimit.Some? {
      bl := BlacklistExceeding(p, bl, Lelantus, lelantusLimit.value);
    }
    if sparkLimit.Some? {
      ghost var before := bl;
      bl := BlacklistExceeding(p, bl, Spark, sparkLimit.value);
      AllowedShrinks(p, Lelantus, before, bl);
    }
    var a := new BlockAssembler(p, stats, cfg, bl, commitments, sizeAccounting);
    a.AddPriorityTxs(prioritySize);
    SelectionMembers(p, bl, a.vtx, a.inBlock);
    byPriority := |a.vtx|;
    ghost var early, chosen := a.vtx, a.inBlock;
    assert a.sized == chosen;
    a.AddPackageTxs(order);
    vtx, b := a.vtx, a.inBlock;
    assert LimitsOk(p, cfg, a.used, b);
    assert sizeAccounting ==> a.sized == b;
    assert vtx[..byPriority] == early;
    SelectedLater(p, bl, early, chosen, vtx, b, a.sized, sizeAccounting);
  }

  lemma SelectionMembers(p: Pool, bl: set<int>, vtx: seq<int>, inBlock: set<int>)
    requires PoolOk(p) && SelectionOk(p, bl, vtx, inBlock)
    ensures Members(vtx) == inBlock && (vtx == [] <==> inBlock == {})
  {
    forall t ensures t in Members(vtx) <==> t in inBlock {
      if t in Members(vtx) { var i :| 0 <= i < |vtx| && vtx[i] == t; }
    }
    if vtx != [] { assert vtx[0] in inBlock; }
    if inBlock != {} { assert Pick(inBlock) in vtx; }
  }

  lemma SelectedLater(p: Pool, bl: set<int>, early: seq<int>, chosen: set<int>, vtx: seq<int>, b: set<int>, sized: set<int>, accounting: bool)
    requires PoolOk(p) && SelectionOk(p, bl, early, chosen) && SelectionOk(p, bl, vtx, b) && early <= vtx
    requires Grown(p, chosen, chosen, b, sized, accounting)
    ensures forall i :: |early| <= i < |vtx| ==> vtx[i] in p.txs && p.txs[vtx[i]].safe
  {
    forall i | |early| <= i < |vtx| ensures vtx[i] in p.txs && p.txs[vtx[i]].safe {
      forall k | 0 <= k < |early| ensures early[k] != vtx[i] { assert vtx[k] == early[k]; }
      SelectionMembers(p, bl, early, chosen);
      assert vtx[i] !in Members(early) && vtx[i] in b - chosen;
    }
  }

  /** A pool holding a single transaction of 100 bytes that no chain lock protects yet. */
  function UnsafePool(): Pool {
    Pool(map[0 := Tx(400, 0, 100, Plain, 0, 0, true, false, false, false)], map[0 := {}], map[0 := 0], 20)
  }

  lemma UnsafePoolOk()
    ensures PoolOk(UnsafePool()) && StatsOk(UnsafePool(), map[0 := Stats({}, 1, 100, 0)]) && BlacklistOk(UnsafePool(), {})
  {
    var p := UnsafePool();
    assert Ancestors(p, 0) == {} && Package(p, 0) == {0};
    SumAdd(p, {}, VSize(p), 0);
    SumAdd(p, {}, SigOps, 0);
    assert {} + {0} == {0};
  }

  /** Priority selection puts a transaction into the block that package selection would refuse as unsafe. */
  method UnsafeByPriority(cfg: Config, prioritySize: nat) returns (a: BlockAssembler)
    requires cfg.maxWeight > 4400 && cfg.maxSize > 1100 && prioritySize > 0
    ensures fresh(a) && a.Valid() && a.p == UnsafePool() && a.inBlock == {0} && !a.p.txs[0].safe && !a.MayEnter(0)
  {
    hide LimitsOk, Sum, StatsOk, BlacklistOk, IsAncestor;
    var p := UnsafePool();
    UnsafePoolOk();
    a := new BlockAssembler(p, map[0 := Stats({}, 1, 100, 0)], cfg, {}, 0, false);
    assert a.Ready(0) && p.txs.Keys == {0};
    assert a.AllReady({0} - {} - {});
    a.AddPriorityTxs(prioritySize);
    SelectionFacts(p, {}, a.vtx, a.inBlock);
    if 0 !in a.inBlock { assert false; }
  }

  lemma AllowedShrinks(p: Pool, kind: Kind, before: set<int>, bl: set<int>)
    requires before <= bl
    ensures Sum(p, Allowed(p, kind, bl), Amount) <= Sum(p, Allowed(p, kind, before), Amount)
  {
    SumSubset(p, Allowed(p, kind, bl), Allowed(p, kind, before), Amount);
  }
}
