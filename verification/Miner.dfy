/** Block assembly: which transactions may not enter a block, and how packages are selected from the
    mempool under the block's limits. Fee-rate comparisons are left open: any choice they could make is
    covered.
 */
module Miner {
  import opened Sets
  import opened Mempool

  const MAX_BLOCK_SIGOPS_COST: nat := 400000

  /** Limits on one kind of privacy spend. */
  datatype Cap = Cap(inputsPerTx: nat, valuePerTx: nat, inputsPerBlock: nat, valuePerBlock: nat)

  datatype Config = Config(maxWeight: nat, maxSize: nat, includeWitness: bool, sigma: Cap, lelantus: Cap, spark: Cap)

  datatype Used = Used(amount: nat, inputs: nat)

  datatype Tally = Tally(sigma: Used, lelantus: Used, spark: Used)

  /** The mempool's cached ancestor state of an entry. */
  datatype Stats = Stats(ancestors: set<int>, count: nat, size: nat, sigOps: nat)

  ghost predicate StatsOk(p: Pool, stats: map<int, Stats>)
    requires PoolOk(p)
  {
    && stats.Keys == p.txs.Keys
    && forall t :: t in p.txs ==>
         && stats[t].ancestors == Ancestors(p, t) && stats[t].count == |Package(p, t)|
         && stats[t].size == Sum(p, Package(p, t), VSize(p)) && stats[t].sigOps == Sum(p, Package(p, t), SigOps)
  }

  // ---------------------------------------------------------------------------------------------
  // Limits on privacy spends

  /** AddToBlock's own bookkeeping: counters move first, and an exceeded limit drops the transaction. */
  function Count(cfg: Config, used: Tally, tx: Tx): (Tally, bool) {
    match tx.kind
    case Plain => (used, true)
    case Sigma =>
      var a := used.sigma.amount + tx.amount;
      if a > cfg.sigma.valuePerBlock then (used.(sigma := Used(a, used.sigma.inputs)), false)
      else
        var n := used.sigma.inputs + tx.inputs;
        (used.(sigma := Used(a, n)), n <= cfg.sigma.inputsPerBlock)
    case Lelantus =>
      if tx.amount > cfg.lelantus.valuePerTx then (used, false)
      else
        var a := used.lelantus.amount + tx.amount;
        if a > cfg.lelantus.valuePerBlock then (used.(lelantus := Used(a, used.lelantus.inputs)), false)
        else
          var n := used.lelantus.inputs + tx.inputs;
          (used.(lelantus := Used(a, n)), n <= cfg.lelantus.inputsPerBlock)
    case Spark =>
      if tx.amount > cfg.spark.valuePerTx then (used, false)
      else
        var a := used.spark.amount + tx.amount;
        (used.(spark := Used(a, used.spark.inputs)), a <= cfg.spark.valuePerBlock)
  }

  predicate WithinCap(c: Cap, u: Used, tx: Tx) {
    && tx.inputs <= c.inputsPerTx && tx.amount <= c.valuePerTx
    && tx.inputs + u.inputs <= c.inputsPerBlock && tx.amount + u.amount <= c.valuePerBlock
  }

  /** TestForBlock's view of the same limits. */
  predicate WithinLimits(cfg: Config, used: Tally, tx: Tx) {
    match tx.kind
    case Plain => true
    case Sigma => WithinCap(cfg.sigma, used.sigma, tx)
    case Lelantus => WithinCap(cfg.lelantus, used.lelantus, tx)
    case Spark => tx.amount <= cfg.spark.valuePerTx && tx.amount + used.spark.amount <= cfg.spark.valuePerBlock
  }

  /** What TestForBlock admits, AddToBlock does not drop. */
  lemma AdmittedIsNotDropped(cfg: Config, used: Tally, tx: Tx)
    requires WithinLimits(cfg, used, tx)
    ensures Count(cfg, used, tx).1
  {
  }

  function SigmaAmount(t: Tx): nat {
    if t.kind == Sigma then t.amount else 0
  }

  function SigmaInputs(t: Tx): nat {
    if t.kind == Sigma then t.inputs else 0
  }

  function LelantusAmount(t: Tx): nat {
    if t.kind == Lelantus then t.amount else 0
  }

  function LelantusInputs(t: Tx): nat {
    if t.kind == Lelantus then t.inputs else 0
  }

  function SparkAmount(t: Tx): nat {
    if t.kind == Spark then t.amount else 0
  }

  /** The privacy spends in a block respect the per-block limits, and the counters cover them. */
  ghost predicate LimitsOk(p: Pool, cfg: Config, used: Tally, b: set<int>)
    requires b <= p.txs.Keys
  {
    && Sum(p, b, SigmaAmount) <= used.sigma.amount && Sum(p, b, SigmaAmount) <= cfg.sigma.valuePerBlock
    && Sum(p, b, SigmaInputs) <= used.sigma.inputs && Sum(p, b, SigmaInputs) <= cfg.sigma.inputsPerBlock
    && Sum(p, b, LelantusAmount) <= used.lelantus.amount && Sum(p, b, LelantusAmount) <= cfg.lelantus.valuePerBlock
    && Sum(p, b, LelantusInputs) <= used.lelantus.inputs && Sum(p, b, LelantusInputs) <= cfg.lelantus.inputsPerBlock
    && Sum(p, b, SparkAmount) <= used.spark.amount && Sum(p, b, SparkAmount) <= cfg.spark.valuePerBlock
  }

  /** The counters may run ahead of the block when a spend is dropped, but never behind it. */
  lemma CountKeepsLimits(p: Pool, cfg: Config, used: Tally, b: set<int>, t: int)
    requires b <= p.txs.Keys && t in p.txs && t !in b && LimitsOk(p, cfg, used, b)
    ensures var (after, kept) := Count(cfg, used, p.txs[t]); LimitsOk(p, cfg, after, if kept then b + {t} else b)
  {
    hide Sum;
    SumAdd(p, b, SigmaAmount, t);
    SumAdd(p, b, SigmaInputs, t);
    SumAdd(p, b, LelantusAmount, t);
    SumAdd(p, b, LelantusInputs, t);
    SumAdd(p, b, SparkAmount, t);
  }

  // ---------------------------------------------------------------------------------------------
  // The blacklist

  /** Everything that depends on a privacy spend of the pool is blacklisted, and with any transaction all
      that depends on it. */
  ghost predicate BlacklistOk(p: Pool, bl: set<int>)
    requires PoolOk(p)
  {
    && DescendantClosed(p, bl)
    && forall t, d :: t in p.txs && d in p.txs && Privacy(p.txs[t]) && IsAncestor(p, t, d) ==> d in bl
  }

  /** Taking back the root of a walk leaves a closed set: nothing else in it leads to the root. */
  lemma EraseRoot(p: Pool, t: int, before: set<int>, after: set<int>)
    requires PoolOk(p) && t in p.txs && t !in before && DescendantClosed(p, before) && DescendantClosed(p, after)
    requires forall x :: x in after <==> x in before || DependsOn(p, x, t)
    ensures DescendantClosed(p, after - {t})
  {
    hide IsAncestor;
    forall x, d | x in after - {t} && d in p.txs && IsAncestor(p, x, d) ensures d in after - {t} {
      if d == t && x !in before {
        AncestorRank(p, x, t);
        AncestorRank(p, t, x);
        assert false;
      }
    }
  }

  /** How a provider registration treats its surroundings: banned with all that depends on it because its
      external collateral is in the pool or spent there, or only its dependants because they spend its collateral. */
  datatype Treatment = NoBan | BanSelf | BanDependants

  function TreatmentOf(treatment: map<int, Treatment>, t: int): Treatment {
    if t in treatment then treatment[t] else NoBan
  }

  /** Transaction t keeps x out of the block. */
  ghost predicate Bans(p: Pool, treatment: map<int, Treatment>, t: int, x: int)
    requires PoolOk(p) && t in p.txs && x in p.txs
  {
    || (IsAncestor(p, t, x) && (Privacy(p.txs[t]) || TreatmentOf(treatment, t) != NoBan))
    || (x == t && TreatmentOf(treatment, t) == BanSelf)
  }

  ghost predicate Banned(p: Pool, treatment: map<int, Treatment>, rest: set<int>, x: int)
    requires PoolOk(p)
  {
    x in p.txs && exists t :: t in p.txs && t !in rest && Bans(p, treatment, t, x)
  }

  ghost predicate DependsOnAny(p: Pool, s: set<int>, x: int)
    requires PoolOk(p)
  {
    exists t :: t in s && t in p.txs && DependsOn(p, x, t)
  }

  method BanDependantsOf(p: Pool, bl: set<int>, t: int) returns (r: set<int>)
    requires PoolOk(p) && t in p.txs && t !in bl && DescendantClosed(p, bl)
    ensures DescendantClosed(p, r) && t !in r
    ensures forall x :: x in r <==> x in bl || (x in p.txs && IsAncestor(p, t, x))
  {
    hide IsAncestor, DescendantClosed, PoolOk;
    var after := CalculateDescendants(p, t, bl);
    EraseRoot(p, t, bl, after);
    NotOwnAncestor(p, t);
    r := after - {t};
  }

  lemma NotOwnAncestor(p: Pool, t: int)
    requires PoolOk(p) && t in p.txs
    ensures !IsAncestor(p, t, t)
  {
    if IsAncestor(p, t, t) { AncestorRank(p, t, t); assert false; }
  }

  /** One transaction's effect on the blacklist; one that is banned already has all its dependants banned. */
  method BanFor(p: Pool, treatment: map<int, Treatment>, bl: set<int>, t: int) returns (r: set<int>)
    requires PoolOk(p) && t in p.txs && DescendantClosed(p, bl)
    ensures DescendantClosed(p, r)
    ensures forall x :: x in r <==> x in bl || (x in p.txs && Bans(p, treatment, t, x))
  {
    hide IsAncestor, PoolOk;
    if t in bl {
      return bl;
    }
    r := bl;
    if Privacy(p.txs[t]) {
      r := BanDependantsOf(p, r, t);
    }
    var tr := TreatmentOf(treatment, t);
    if tr == BanSelf {
      r := CalculateDescendants(p, t, r);
    } else if tr == BanDependants {
      r := BanDependantsOf(p, r, t);
    }
  }

  lemma BannedMore(p: Pool, treatment: map<int, Treatment>, start: set<int>, rest: set<int>, t: int, bl: set<int>, r: set<int>)
    requires PoolOk(p) && t in p.txs && t in rest
    requires forall x :: x in bl <==> x in start || Banned(p, treatment, rest, x)
    requires forall x :: x in r <==> x in bl || (x in p.txs && Bans(p, treatment, t, x))
    ensures forall x :: x in r <==> x in start || Banned(p, treatment, rest - {t}, x)
  {
    hide Bans, PoolOk;
    forall x ensures x in r <==> x in start || Banned(p, treatment, rest - {t}, x) {
      if Banned(p, treatment, rest, x) {
        var u :| u in p.txs && u !in rest && Bans(p, treatment, u, x);
        assert Banned(p, treatment, rest - {t}, x);
      }
    }
  }

  lemma NothingBanned(p: Pool, treatment: map<int, Treatment>)
    requires PoolOk(p)
    ensures forall x :: !Banned(p, treatment, p.txs.Keys, x)
  {
  }

  lemma DependsOnMore(p: Pool, s: set<int>, t: int)
    requires PoolOk(p) && t in p.txs
    ensures forall x :: DependsOnAny(p, s + {t}, x) <==> DependsOnAny(p, s, x) || DependsOn(p, x, t)
  {
    hide DependsOn, PoolOk;
  }

  /** Blacklist for one block template: exactly what was there, what depends on privacy spends, what provider
      registrations clashing with the pool keep out, and what active sporks forbid with all its dependants. */
  method FillBlackList(p: Pool, treatment: map<int, Treatment>, disallowed: set<int>, start: set<int>) returns (bl: set<int>)
    requires PoolOk(p) && DescendantClosed(p, start)
    ensures BlacklistOk(p, bl)
    ensures forall x :: x in bl <==> x in start || Banned(p, treatment, {}, x) || DependsOnAny(p, disallowed, x)
  {
    hide IsAncestor, DescendantClosed, PoolOk, Bans, Banned, DependsOn, DependsOnAny;
    bl := start;
    var rest := p.txs.Keys;
    NothingBanned(p, treatment);
    while rest != {}
      invariant rest <= p.txs.Keys && DescendantClosed(p, bl)
      invariant forall x :: x in bl <==> x in start || Banned(p, treatment, rest, x)
      decreases |rest|
    {
      var t := PickAny(rest);
      var r := BanFor(p, treatment, bl, t);
      BannedMore(p, treatment, start, rest, t, bl, r);
      bl, rest := r, rest - {t};
    }
    AllCovered(p, treatment, bl);
    ghost var covered := bl;
    var todo := disallowed * p.txs.Keys;
    ghost var done: set<int> := {};
    NobodyDepends(p);
    while todo != {}
      invariant covered <= bl && DescendantClosed(p, bl) && todo <= disallowed * p.txs.Keys && done == disallowed * p.txs.Keys - todo
      invariant forall x :: x in bl <==> x in covered || DependsOnAny(p, done, x)
      decreases |todo|
    {
      var t := PickAny(todo);
      bl := CalculateDescendants(p, t, bl);
      DependsOnMore(p, done, t);
      done, todo := done + {t}, todo - {t};
    }
    StillCovered(p, covered, bl);
    OnlyKnown(p, disallowed, done);
  }

  lemma NobodyDepends(p: Pool)
    requires PoolOk(p)
    ensures forall x :: !DependsOnAny(p, {}, x)
  {
  }

  lemma OnlyKnown(p: Pool, all: set<int>, known: set<int>)
    requires PoolOk(p) && known == all * p.txs.Keys
    ensures forall x :: DependsOnAny(p, all, x) <==> DependsOnAny(p, known, x)
  {
    hide DependsOn, PoolOk;
  }

  lemma AllCovered(p: Pool, treatment: map<int, Treatment>, bl: set<int>)
    requires PoolOk(p) && DescendantClosed(p, bl) && forall x :: Banned(p, treatment, {}, x) ==> x in bl
    ensures BlacklistOk(p, bl)
  {
    hide IsAncestor;
    forall t, d | t in p.txs && d in p.txs && Privacy(p.txs[t]) && IsAncestor(p, t, d) ensures d in bl {
      assert Bans(p, treatment, t, d);
      assert Banned(p, treatment, {}, d);
    }
  }

  lemma StillCovered(p: Pool, before: set<int>, bl: set<int>)
    requires PoolOk(p) && BlacklistOk(p, before) && before <= bl && DescendantClosed(p, bl)
    ensures BlacklistOk(p, bl)
  {
    hide IsAncestor;
  }

  function Amount(t: Tx): nat {
    t.amount
  }

  /** Transactions of a kind that may still enter the block. */
  ghost function Allowed(p: Pool, kind: Kind, bl: set<int>): set<int> {
    set t | t in p.txs && t !in bl && p.txs[t].kind == kind
  }

  predicate LeastAmount(p: Pool, s: set<int>, t: int)
    requires s <= p.txs.Keys
  {
    t in s && forall x :: x in s ==> p.txs[t].amount <= p.txs[x].amount
  }

  lemma {:induction false} LeastAmountExists(p: Pool, s: set<int>)
    requires s <= p.txs.Keys && s != {}
    ensures exists t :: LeastAmount(p, s, t)
  {
    var x := Pick(s);
    var rest := s - {x};
    assert forall e :: e in s ==> e == x || e in rest;
    if rest == {} {
      assert LeastAmount(p, s, x);
    } else {
      LeastAmountExists(p, rest);
      var y :| LeastAmount(p, rest, y);
      assert LeastAmount(p, s, if p.txs[x].amount <= p.txs[y].amount then x else y);
    }
  }

  /** Nothing kept is larger than anything cut. */
  ghost predicate Smaller(p: Pool, kept: set<int>, cut: set<int>)
    requires kept <= p.txs.Keys && cut <= p.txs.Keys
  {
    forall k, c :: k in kept && c in cut ==> p.txs[k].amount <= p.txs[c].amount
  }

  lemma SmallerMore(p: Pool, kept: set<int>, rest: set<int>, t: int)
    requires kept <= p.txs.Keys && rest <= p.txs.Keys && Smaller(p, kept, rest) && LeastAmount(p, rest, t)
    ensures Smaller(p, kept + {t}, rest - {t})
  {
  }

  /** What remains of a list after its smallest entries, as many as fit the limit together. */
  method CutFrom(p: Pool, list: set<int>, limit: nat) returns (cut: set<int>)
    requires list <= p.txs.Keys
    ensures cut <= list && Sum(p, list - cut, Amount) <= limit && Smaller(p, list - cut, cut)
    ensures forall c :: c in cut ==> Sum(p, list - cut, Amount) + p.txs[c].amount > limit
    ensures Sum(p, list, Amount) <= limit ==> cut == {}
  {
    hide Sum, LeastAmount, Smaller;
    cut := list;
    var total := 0;
    SumEmpty(p, Amount);
    SmallerNone(p, list);
    assert list - cut == {};
    while cut != {}
      invariant cut <= list && total == Sum(p, list - cut, Amount) <= limit && Smaller(p, list - cut, cut)
      decreases |cut|
    {
      LeastAmountExists(p, cut);
      var t :| LeastAmount(p, cut, t);
      LeastIsIn(p, cut, t);
      var left := cut - {t};
      assert list - left - {t} == list - cut && list - cut + {t} == list - left;
      SumRemove(p, list - left, Amount, t);
      if total + p.txs[t].amount > limit {
        SumSubset(p, list - left, list, Amount);
        return;
      }
      SmallerMore(p, list - cut, cut, t);
      total := total + p.txs[t].amount;
      cut := left;
    }
  }

  /** Bans the given transactions with all that depends on them. */
  method BanAll(p: Pool, bl: set<int>, banned: set<int>) returns (r: set<int>)
    requires PoolOk(p) && BlacklistOk(p, bl) && banned <= p.txs.Keys
    ensures BlacklistOk(p, r) && bl + banned <= r
    ensures (forall t :: t in banned ==> Privacy(p.txs[t])) ==> r == bl + banned
  {
    hide IsAncestor, PoolOk, DescendantClosed, BlacklistOk, DependsOn;
    r := bl;
    var rest := banned;
    BlacklistClosed(p, bl);
    while rest != {}
      invariant rest <= banned && bl <= r && DescendantClosed(p, r) && banned - rest <= r
      invariant (forall t :: t in banned ==> Privacy(p.txs[t])) ==> r <= bl + banned
      decreases |rest|
    {
      var t := PickAny(rest);
      SpendStandsAlone(p, bl, t);
      ghost var before := r;
      r := CalculateDescendants(p, t, r);
      if forall t :: t in banned ==> Privacy(p.txs[t]) {
        assert forall x :: x in r ==> x in before || x == t || x in bl;
      }
      rest := rest - {t};
    }
    StillCovered(p, bl, r);
  }

  /** Keeps the smallest spends of a kind that together respect the limit and blacklists the others: what
      may still enter the block then respects it, and none of the spends cut would still fit. */
  method BlacklistExceeding(p: Pool, bl: set<int>, kind: Kind, limit: nat) returns (r: set<int>)
    requires PoolOk(p) && BlacklistOk(p, bl)
    ensures BlacklistOk(p, r) && bl <= r
    ensures Sum(p, Allowed(p, kind, r), Amount) <= limit
    ensures Sum(p, Allowed(p, kind, bl), Amount) <= limit ==> r == bl
    ensures kind != Plain ==> && r - bl <= Allowed(p, kind, bl) && Smaller(p, Allowed(p, kind, r), r - bl)
                              && forall c :: c in r - bl ==> Sum(p, Allowed(p, kind, r), Amount) + p.txs[c].amount > limit
  {
    hide IsAncestor, PoolOk, Sum, Smaller, BlacklistOk;
    var list := set t | t in p.txs && t !in bl && p.txs[t].kind == kind;
    assert list == Allowed(p, kind, bl);
    var cut := CutFrom(p, list, limit);
    r := bl;
    if cut != {} {
      r := BanAll(p, bl, cut);
    }
    assert Allowed(p, kind, r) <= list - cut;
    SumSubset(p, Allowed(p, kind, r), list - cut, Amount);
    if kind != Plain {
      assert r - bl == cut && Allowed(p, kind, r) == list - cut;
    }
  }

  lemma SmallerNone(p: Pool, rest: set<int>)
    requires rest <= p.txs.Keys
    ensures Smaller(p, {}, rest)
  {
  }

  lemma BlacklistClosed(p: Pool, bl: set<int>)
    requires PoolOk(p) && BlacklistOk(p, bl)
    ensures DescendantClosed(p, bl)
  {
  }

  /** Whatever depends on a privacy spend is banned already. */
  lemma SpendStandsAlone(p: Pool, bl: set<int>, t: int)
    requires PoolOk(p) && BlacklistOk(p, bl) && t in p.txs
    ensures Privacy(p.txs[t]) ==> forall x :: DependsOn(p, x, t) ==> x == t || x in bl
  {
    hide IsAncestor;
  }

  lemma SumEmpty(p: Pool, f: Tx -> nat)
    ensures forall s: set<int> :: s == {} ==> Sum(p, s, f) == 0
  {
  }

  lemma LeastIsIn(p: Pool, s: set<int>, t: int)
    requires s <= p.txs.Keys && LeastAmount(p, s, t)
    ensures t in s && forall x :: x in s ==> p.txs[t].amount <= p.txs[x].amount
  {
  }

  // ---------------------------------------------------------------------------------------------
  // What a valid selection is

  /** Distinct pool transactions, parents first, none of them blacklisted. */
  ghost predicate SelectionOk(p: Pool, bl: set<int>, vtx: seq<int>, inBlock: set<int>)
    requires PoolOk(p)
  {
    && (forall i :: 0 <= i < |vtx| ==> vtx[i] in inBlock)
    && (forall t :: t in inBlock ==> t in vtx)
    && inBlock <= p.txs.Keys && inBlock !! bl
    && (forall i, j :: 0 <= i < j < |vtx| ==> vtx[i] != vtx[j])
    && (forall i :: 0 <= i < |vtx| ==> ParentsBefore(p, vtx, i))
  }

  ghost predicate ParentsBefore(p: Pool, vtx: seq<int>, i: nat)
    requires PoolOk(p) && i < |vtx|
  {
    vtx[i] in p.txs && forall a :: a in p.parents[vtx[i]] ==> a in vtx[..i]
  }

  /** Main result on a selection: every transaction comes after everything it depends on, and none
      depends on a privacy spend. */
  lemma {:induction false} SelectionIsValid(p: Pool, bl: set<int>, vtx: seq<int>, inBlock: set<int>, i: nat, a: int)
    requires PoolOk(p) && BlacklistOk(p, bl) && SelectionOk(p, bl, vtx, inBlock)
    requires i < |vtx| && vtx[i] in p.txs && a in p.txs && IsAncestor(p, a, vtx[i])
    ensures a in vtx[..i] && !Privacy(p.txs[a])
    decreases i
  {
    var t := vtx[i];
    assert t in inBlock && ParentsBefore(p, vtx, i);
    if a !in p.parents[t] {
      var q :| q in p.parents[t] && IsAncestor(p, a, q);
      assert q in vtx[..i];
      var k :| 0 <= k < i && vtx[k] == q;
      SelectionIsValid(p, bl, vtx, inBlock, k, a);
      assert vtx[..i] == vtx[..k] + vtx[k..i];
    }
    assert t !in bl;
  }

  lemma {:induction false} InBlockClosed(p: Pool, bl: set<int>, vtx: seq<int>, inBlock: set<int>, t: int, a: int)
    requires PoolOk(p) && BlacklistOk(p, bl) && SelectionOk(p, bl, vtx, inBlock)
    requires t in inBlock && a in p.txs && IsAncestor(p, a, t)
    ensures a in inBlock
  {
    var i :| 0 <= i < |vtx| && vtx[i] == t;
    SelectionIsValid(p, bl, vtx, inBlock, i, a);
    var k :| 0 <= k < i && vtx[k] == a;
  }

  lemma SelectMore(p: Pool, bl: set<int>, vtx: seq<int>, inBlock: set<int>, t: int)
    requires PoolOk(p) && SelectionOk(p, bl, vtx, inBlock)
    requires t in p.txs && t !in inBlock && t !in bl && p.parents[t] <= inBlock
    ensures SelectionOk(p, bl, vtx + [t], inBlock + {t})
  {
    var v := vtx + [t];
    forall i | 0 <= i < |v| ensures ParentsBefore(p, v, i) {
      if i < |vtx| {
        assert ParentsBefore(p, vtx, i);
        assert v[..i] == vtx[..i];
      } else {
        assert v[..i] == vtx;
      }
    }
  }
}
