/** What remains of a package once some of its transactions are in the block, and the totals the assembler
    caches for it. */
module Packages {
  import opened Sets
  import opened Mempool
  import opened Miner

  /** A package's cached totals. */
  datatype Totals = Totals(size: nat, sigOps: nat)

  function FullTotals(stats: map<int, Stats>, t: int): Totals
    requires t in stats
  {
    Totals(stats[t].size, stats[t].sigOps)
  }

  /** The totals the assembler would use for t: the modified ones if there are any. */
  function Cached(stats: map<int, Stats>, m: map<int, Totals>, t: int): Totals
    requires t in stats
  {
    if t in m then m[t] else FullTotals(stats, t)
  }

  ghost function Missing(p: Pool, t: int, b: set<int>): set<int>
    requires PoolOk(p) && t in p.txs
  {
    Package(p, t) - b
  }

  ghost function MissingTotals(p: Pool, t: int, b: set<int>): Totals
    requires PoolOk(p) && t in p.txs
  {
    Totals(Sum(p, Missing(p, t, b), VSize(p)), Sum(p, Missing(p, t, b), SigOps))
  }

  ghost predicate Covers(a: Totals, b: Totals) {
    a.size >= b.size && a.sigOps >= b.sigOps
  }

  /** Cached totals never understate what a package would still add to a block holding b, and are exact
      for packages that have not failed before. Members of x are not looked at any more. */
  ghost predicate TotalsOk(p: Pool, stats: map<int, Stats>, bl: set<int>, m: map<int, Totals>, b: set<int>, x: set<int>, stale: set<int>)
    requires PoolOk(p) && StatsOk(p, stats)
  {
    forall t :: t in p.txs && t !in bl && t !in x ==> TotalsOkAt(p, stats, m, b, stale, t)
  }

  ghost predicate TotalsOkAt(p: Pool, stats: map<int, Stats>, m: map<int, Totals>, b: set<int>, stale: set<int>, t: int)
    requires PoolOk(p) && StatsOk(p, stats) && t in p.txs
  {
    && Covers(Cached(stats, m, t), MissingTotals(p, t, b))
    && (t !in stale ==> Cached(stats, m, t) == MissingTotals(p, t, b))
  }

  lemma TotalsStart(p: Pool, stats: map<int, Stats>, bl: set<int>, x: set<int>)
    requires PoolOk(p) && StatsOk(p, stats)
    ensures TotalsOk(p, stats, bl, map[], {}, x, {})
  {
    hide IsAncestor, Sum;
    forall t | t in p.txs ensures TotalsOkAt(p, stats, map[], {}, {}, t) {
      assert Missing(p, t, {}) == Package(p, t);
    }
  }

  lemma TotalsAt(p: Pool, stats: map<int, Stats>, bl: set<int>, m: map<int, Totals>, b: set<int>, x: set<int>, stale: set<int>, t: int)
    requires PoolOk(p) && StatsOk(p, stats) && TotalsOk(p, stats, bl, m, b, x, stale) && t in p.txs && t !in bl && t !in x
    ensures TotalsOkAt(p, stats, m, b, stale, t)
  {
  }

  /** Dropping an entry falls back on the totals of the whole package, which cover what is missing. */
  lemma TotalsDropped(p: Pool, stats: map<int, Stats>, bl: set<int>, m: map<int, Totals>, b: set<int>, x: set<int>, stale: set<int>, t: int)
    requires PoolOk(p) && StatsOk(p, stats) && TotalsOk(p, stats, bl, m, b, x, stale) && t in p.txs
    ensures TotalsOk(p, stats, bl, m - {t}, b, x, stale + {t})
  {
    hide IsAncestor, Sum;
    forall u | u in p.txs && u !in bl && u !in x ensures TotalsOkAt(p, stats, m - {t}, b, stale + {t}, u) {
      assert TotalsOkAt(p, stats, m, b, stale, u);
      if u == t {
        SumSubset(p, Missing(p, t, b), Package(p, t), VSize(p));
        SumSubset(p, Missing(p, t, b), Package(p, t), SigOps);
      }
    }
  }

  /** Entries nobody looks at any more may go. */
  lemma TotalsErased(p: Pool, stats: map<int, Stats>, bl: set<int>, m: map<int, Totals>, b: set<int>, x: set<int>, stale: set<int>, gone: set<int>)
    requires PoolOk(p) && StatsOk(p, stats) && TotalsOk(p, stats, bl, m, b, x, stale)
    ensures TotalsOk(p, stats, bl, m - gone, b, x + gone, stale)
  {
    hide IsAncestor, Sum, StatsOk, PoolOk, MissingTotals, Covers;
    forall u | u in p.txs && u !in bl && u !in x + gone ensures TotalsOkAt(p, stats, m - gone, b, stale, u) {
      assert TotalsOkAt(p, stats, m, b, stale, u);
      StatsKnown(p, stats, u);
      assert Cached(stats, m - gone, u) == Cached(stats, m, u);
    }
  }

  lemma StatsKnown(p: Pool, stats: map<int, Stats>, t: int)
    requires PoolOk(p) && StatsOk(p, stats) && t in p.txs
    ensures stats.Keys == p.txs.Keys && t in stats && stats[t].ancestors == Ancestors(p, t) && stats[t].count == |Package(p, t)|
  {
  }

  // ---------------------------------------------------------------------------------------------
  // One more transaction in the block

  function Less(p: Pool, a: Totals, tx: Tx): Totals
    requires a.size >= VSize(p)(tx) && a.sigOps >= SigOps(tx)
  {
    Totals(a.size - VSize(p)(tx), a.sigOps - SigOps(tx))
  }

  lemma MissingLess(p: Pool, t: int, b: set<int>, it: int)
    requires PoolOk(p) && t in p.txs && it in p.txs && it !in b && IsAncestor(p, it, t)
    ensures var before := MissingTotals(p, t, b);
            before.size >= VSize(p)(p.txs[it]) && before.sigOps >= SigOps(p.txs[it])
            && MissingTotals(p, t, b + {it}) == Less(p, before, p.txs[it])
  {
    hide IsAncestor, Sum;
    SumRemove(p, Missing(p, t, b), VSize(p), it);
    SumRemove(p, Missing(p, t, b), SigOps, it);
    assert Missing(p, t, b) - {it} == Missing(p, t, b + {it});
  }

  lemma MissingSame(p: Pool, t: int, b: set<int>, it: int)
    requires PoolOk(p) && t in p.txs && it != t && !IsAncestor(p, it, t)
    ensures MissingTotals(p, t, b + {it}) == MissingTotals(p, t, b)
  {
    hide IsAncestor, Sum;
    assert Missing(p, t, b) == Missing(p, t, b + {it});
  }

  /** m' is m with it taken out of the totals of every package in d. */
  ghost predicate Charged(p: Pool, stats: map<int, Stats>, m: map<int, Totals>, it: int, d: set<int>, m': map<int, Totals>)
    requires PoolOk(p) && StatsOk(p, stats) && it in p.txs && d <= p.txs.Keys
  {
    && (forall t :: t in m' <==> t in m || t in d)
    && (forall t :: t in d ==> ChargedAt(p, stats, m, it, t, m'))
    && (forall t :: t in m && t !in d ==> m'[t] == m[t])
  }

  ghost predicate ChargedAt(p: Pool, stats: map<int, Stats>, m: map<int, Totals>, it: int, t: int, m': map<int, Totals>)
    requires PoolOk(p) && StatsOk(p, stats) && it in p.txs && t in p.txs && t in m'
  {
    Chargeable(p, stats, m, it, t) && m'[t] == Less(p, Cached(stats, m, t), p.txs[it])
  }

  ghost predicate Chargeable(p: Pool, stats: map<int, Stats>, m: map<int, Totals>, it: int, t: int)
    requires PoolOk(p) && StatsOk(p, stats) && it in p.txs && t in p.txs
  {
    Cached(stats, m, t).size >= VSize(p)(p.txs[it]) && Cached(stats, m, t).sigOps >= SigOps(p.txs[it])
  }

  /** The packages to charge for `it`: what depends on it, is not itself being added and may enter the block. */
  ghost predicate Dependants(p: Pool, bl: set<int>, x: set<int>, it: int, d: set<int>)
    requires PoolOk(p) && it in p.txs
  {
    forall t :: t in d <==> t in p.txs && t !in bl && t !in x && IsAncestor(p, it, t)
  }

  lemma DependantsChargeable(p: Pool, stats: map<int, Stats>, bl: set<int>, m: map<int, Totals>, b: set<int>, x: set<int>,
                             stale: set<int>, it: int, d: set<int>)
    requires PoolOk(p) && StatsOk(p, stats) && TotalsOk(p, stats, bl, m, b, x, stale) && it in p.txs && it !in b
    requires Dependants(p, bl, x, it, d)
    ensures d <= p.txs.Keys && forall t :: t in d ==> Chargeable(p, stats, m, it, t)
  {
    hide IsAncestor, Sum, StatsOk, PoolOk, MissingTotals;
    forall t | t in d ensures t in p.txs {}
    forall t | t in d ensures Chargeable(p, stats, m, it, t) {
      assert TotalsOkAt(p, stats, m, b, stale, t);
      MissingLess(p, t, b, it);
    }
  }

  lemma TotalsCharged(p: Pool, stats: map<int, Stats>, bl: set<int>, m: map<int, Totals>, b: set<int>, x: set<int>,
                      stale: set<int>, it: int, d: set<int>, m': map<int, Totals>)
    requires PoolOk(p) && StatsOk(p, stats) && TotalsOk(p, stats, bl, m, b, x, stale) && it in p.txs && it !in b && it in x
    requires d <= p.txs.Keys && Dependants(p, bl, x, it, d) && Charged(p, stats, m, it, d, m')
    ensures TotalsOk(p, stats, bl, m', b + {it}, x, stale)
  {
    hide IsAncestor, Sum, StatsOk, PoolOk, MissingTotals;
    forall t | t in p.txs && t !in bl && t !in x ensures TotalsOkAt(p, stats, m', b + {it}, stale, t) {
      assert TotalsOkAt(p, stats, m, b, stale, t);
      if t in d {
        MissingLess(p, t, b, it);
        assert ChargedAt(p, stats, m, it, t, m');
      } else {
        MissingSame(p, t, b, it);
        StatsKnown(p, stats, t);
      }
    }
  }

  /** A privacy spend is nobody's ancestor outside the blacklist, so it makes no difference to any total. */
  lemma TotalsIgnorePrivacy(p: Pool, stats: map<int, Stats>, bl: set<int>, m: map<int, Totals>, b: set<int>, x: set<int>, stale: set<int>, h: int)
    requires PoolOk(p) && StatsOk(p, stats) && BlacklistOk(p, bl) && h in p.txs && Privacy(p.txs[h]) && h in x
    ensures TotalsOk(p, stats, bl, m, b, x, stale) <==> TotalsOk(p, stats, bl, m, b + {h}, x, stale)
  {
    hide IsAncestor, Sum, StatsOk, PoolOk, MissingTotals;
    forall t | t in p.txs && t !in bl && t !in x
      ensures TotalsOkAt(p, stats, m, b, stale, t) <==> TotalsOkAt(p, stats, m, b + {h}, stale, t)
    {
      MissingSame(p, t, b, h);
    }
  }

  lemma PrivacyHasNoDependants(p: Pool, bl: set<int>, x: set<int>, h: int)
    requires PoolOk(p) && BlacklistOk(p, bl) && h in p.txs && Privacy(p.txs[h])
    ensures Dependants(p, bl, x, h, {})
  {
    hide IsAncestor;
  }

  // ---------------------------------------------------------------------------------------------
  // Order within a package

  ghost predicate SortedByCount(stats: map<int, Stats>, s: seq<int>)
    requires forall i :: 0 <= i < |s| ==> s[i] in stats
  {
    forall i, j :: 0 <= i < j < |s| ==> stats[s[i]].count <= stats[s[j]].count
  }

  /** s lists the members of a set once each, fewest ancestors first. */
  ghost predicate Listing(stats: map<int, Stats>, package: set<int>, s: seq<int>) {
    && (forall i :: 0 <= i < |s| ==> s[i] in package && s[i] in stats)
    && (forall t :: t in package ==> t in s)
    && (forall i, j :: 0 <= i < j < |s| ==> s[i] != s[j])
    && SortedByCount(stats, s)
  }

  predicate LeastCount(stats: map<int, Stats>, s: set<int>, t: int)
    requires s <= stats.Keys
  {
    t in s && forall x :: x in s ==> stats[t].count <= stats[x].count
  }

  lemma ListedBefore(stats: map<int, Stats>, package: set<int>, s: seq<int>, i: nat, a: int)
    requires Listing(stats, package, s) && i < |s| && a in package && a in stats && s[i] in stats && stats[a].count < stats[s[i]].count
    ensures a in s[..i]
  {
    var k :| 0 <= k < |s| && s[k] == a;
    assert k < i;
    assert s[..i][k] == a;
  }

  /** Fewest ancestors first puts parents before children. */
  lemma ListingIsTopological(p: Pool, stats: map<int, Stats>, package: set<int>, s: seq<int>, i: nat, a: int)
    requires PoolOk(p) && StatsOk(p, stats) && package <= p.txs.Keys && Listing(stats, package, s)
    requires i < |s| && s[i] in p.txs && a in package && IsAncestor(p, a, s[i])
    ensures a in s[..i]
  {
    hide IsAncestor, PoolOk, StatsOk, Package, Ancestors, Listing;
    AncestorCountGrows(p, a, s[i]);
    StatsKnown(p, stats, a);
    StatsKnown(p, stats, s[i]);
    ListedBefore(stats, package, s, i, a);
  }

  lemma {:induction false} LeastCountExists(stats: map<int, Stats>, s: set<int>)
    requires s <= stats.Keys && s != {}
    ensures exists t :: LeastCount(stats, s, t)
  {
    var x := Pick(s);
    var rest := s - {x};
    assert forall e :: e in s ==> e == x || e in rest;
    if rest == {} {
      assert LeastCount(stats, s, x);
    } else {
      LeastCountExists(stats, rest);
      var y :| LeastCount(stats, rest, y);
      assert LeastCount(stats, s, if stats[x].count <= stats[y].count then x else y);
    }
  }

  /** The part listed so far, and that nothing left has fewer ancestors. */
  ghost predicate ListedSoFar(stats: map<int, Stats>, package: set<int>, rest: set<int>, s: seq<int>) {
    && rest <= package <= stats.Keys && Listing(stats, package - rest, s)
    && forall i, t :: 0 <= i < |s| && t in rest ==> stats[s[i]].count <= stats[t].count
  }

  lemma ListMore(stats: map<int, Stats>, package: set<int>, rest: set<int>, s: seq<int>, t: int)
    requires ListedSoFar(stats, package, rest, s) && LeastCount(stats, rest, t)
    ensures t in rest && ListedSoFar(stats, package, rest - {t}, s + [t])
  {
  }

  /** SortForBlock. */
  method SortForBlock(stats: map<int, Stats>, package: set<int>) returns (sorted: seq<int>)
    requires package <= stats.Keys
    ensures Listing(stats, package, sorted)
  {
    hide Listing, LeastCount, ListedSoFar;
    sorted := [];
    var rest := package;
    ListNothing(stats, package);
    while rest != {}
      invariant ListedSoFar(stats, package, rest, sorted) && rest <= package
      decreases |rest|
    {
      LeastCountExists(stats, rest);
      var t :| LeastCount(stats, rest, t);
      ListMore(stats, package, rest, sorted, t);
      sorted, rest := sorted + [t], rest - {t};
    }
    ListedAll(stats, package, sorted);
  }

  lemma ListNothing(stats: map<int, Stats>, package: set<int>)
    requires package <= stats.Keys
    ensures ListedSoFar(stats, package, package, [])
  {
  }

  lemma ListedAll(stats: map<int, Stats>, package: set<int>, s: seq<int>)
    requires ListedSoFar(stats, package, {}, s)
    ensures Listing(stats, package, s)
  {
    assert package - {} == package;
  }

  // ---------------------------------------------------------------------------------------------
  // Updating the cached totals

  /** Takes `it` out of the totals of the packages in d, entering those not yet modified. */
  method ChargeDependants(p: Pool, stats: map<int, Stats>, m: map<int, Totals>, it: int, d: set<int>) returns (m': map<int, Totals>)
    requires PoolOk(p) && StatsOk(p, stats) && it in p.txs && d <= p.txs.Keys
    requires forall t :: t in d ==> Chargeable(p, stats, m, it, t)
    ensures Charged(p, stats, m, it, d, m')
  {
    hide IsAncestor, Sum, PoolOk, StatsOk, VSize, Charged;
    m' := m;
    var rest := d;
    ChargedNone(p, stats, m, it);
    assert d - rest == {};
    while rest != {}
      invariant rest <= d && Charged(p, stats, m, it, d - rest, m')
      decreases |rest|
    {
      var t := PickAny(rest);
      ChargedMore(p, stats, m, it, d - rest, m', t);
      m' := m'[t := Less(p, Cached(stats, m', t), p.txs[it])];
      assert d - (rest - {t}) == d - rest + {t};
      rest := rest - {t};
    }
    assert d - rest == d;
  }

  lemma ChargedNone(p: Pool, stats: map<int, Stats>, m: map<int, Totals>, it: int)
    requires PoolOk(p) && StatsOk(p, stats) && it in p.txs
    ensures Charged(p, stats, m, it, {}, m)
  {
  }

  lemma ChargedMore(p: Pool, stats: map<int, Stats>, m: map<int, Totals>, it: int, d: set<int>, m': map<int, Totals>, t: int)
    requires PoolOk(p) && StatsOk(p, stats) && it in p.txs && d <= p.txs.Keys && Charged(p, stats, m, it, d, m')
    requires t in p.txs && t !in d && Chargeable(p, stats, m, it, t)
    ensures t in stats && Cached(stats, m', t) == Cached(stats, m, t)
    ensures Charged(p, stats, m, it, d + {t}, m'[t := Less(p, Cached(stats, m, t), p.txs[it])])
  {
    hide IsAncestor, Sum, PoolOk, StatsOk, VSize, ChargedAt, Less;
    StatsKnown(p, stats, t);
    var r := m'[t := Less(p, Cached(stats, m, t), p.txs[it])];
    ChargedHere(p, stats, m, it, t, r);
    forall u | u in d + {t} ensures ChargedAt(p, stats, m, it, u, r) {
      if u != t { ChargedStill(p, stats, m, it, u, m', r); }
    }
  }

  lemma ChargedHere(p: Pool, stats: map<int, Stats>, m: map<int, Totals>, it: int, t: int, r: map<int, Totals>)
    requires PoolOk(p) && StatsOk(p, stats) && it in p.txs && t in p.txs && t in r && Chargeable(p, stats, m, it, t)
    requires r[t] == Less(p, Cached(stats, m, t), p.txs[it])
    ensures ChargedAt(p, stats, m, it, t, r)
  {
  }

  lemma ChargedStill(p: Pool, stats: map<int, Stats>, m: map<int, Totals>, it: int, t: int, m': map<int, Totals>, r: map<int, Totals>)
    requires PoolOk(p) && StatsOk(p, stats) && it in p.txs && t in p.txs && t in m' && t in r && r[t] == m'[t]
    requires ChargedAt(p, stats, m, it, t, m')
    ensures ChargedAt(p, stats, m, it, t, r)
  {
  }

  /** The entries of m concern packages that may still enter a block holding x. */
  ghost predicate Live(p: Pool, bl: set<int>, m: map<int, Totals>, x: set<int>) {
    m.Keys <= p.txs.Keys && m.Keys !! bl && m.Keys !! x
  }

  lemma LiveCharged(p: Pool, stats: map<int, Stats>, bl: set<int>, m: map<int, Totals>, x: set<int>, it: int, d: set<int>, m': map<int, Totals>)
    requires PoolOk(p) && StatsOk(p, stats) && it in p.txs && d <= p.txs.Keys
    requires Live(p, bl, m, x) && Dependants(p, bl, x, it, d) && Charged(p, stats, m, it, d, m')
    ensures Live(p, bl, m', x)
    ensures d == {} ==> m' == m
  {
    hide IsAncestor, PoolOk, StatsOk;
    forall t | t in m' ensures t in p.txs && t !in bl && t !in x {}
    assert forall t :: t in m' && t !in d ==> m'[t] == m[t];
    if d == {} {
      assert forall t :: t in m' <==> t in m;
      assert m' == m;
    }
  }

  /** What CalculateDescendants yields, without the added and the blacklisted, are the dependants to charge:
      none of them is in the block already. */
  lemma DescendantsToCharge(p: Pool, bl: set<int>, b: set<int>, added: set<int>, it: int, all: set<int>)
    requires PoolOk(p) && AncestorClosed(p, b) && b <= p.txs.Keys && it in added && it in p.txs && it !in b
    requires forall x :: x in all <==> x in {} || DependsOn(p, x, it)
    ensures Dependants(p, bl, b + added, it, all - added - bl)
  {
    hide IsAncestor;
    var d := all - added - bl;
    forall t ensures t in d <==> t in p.txs && t !in bl && t !in b + added && IsAncestor(p, it, t) {
      if t in p.txs && IsAncestor(p, it, t) { assert DependsOn(p, t, it); }
    }
  }

  ghost predicate AllPrivacy(p: Pool, s: set<int>) {
    forall t :: t in s && t in p.txs ==> Privacy(p.txs[t])
  }

  /** UpdatePackagesForAdded: afterwards the cached totals are right for a block that also holds `added`. */
  method UpdatePackagesForAdded(p: Pool, stats: map<int, Stats>, bl: set<int>, added: set<int>, m: map<int, Totals>,
                                ghost b: set<int>, ghost stale: set<int>) returns (m': map<int, Totals>)
    requires PoolOk(p) && StatsOk(p, stats) && BlacklistOk(p, bl) && AncestorClosed(p, b) && b <= p.txs.Keys
    requires added <= p.txs.Keys && added !! b && Live(p, bl, m, b + added)
    requires TotalsOk(p, stats, bl, m, b, b + added, stale)
    ensures TotalsOk(p, stats, bl, m', b + added, b + added, stale) && Live(p, bl, m', b + added)
    ensures AllPrivacy(p, added) ==> m' == m
  {
    hide IsAncestor, Sum, PoolOk, StatsOk, BlacklistOk, AncestorClosed, TotalsOk, Live, Dependants, Charged, DependsOn, Chargeable, DescendantClosed;
    m' := m;
    var rest := added;
    ghost var done := b;
    while rest != {}
      invariant rest <= added && done == b + (added - rest)
      invariant TotalsOk(p, stats, bl, m', done, b + added, stale) && Live(p, bl, m', b + added)
      invariant AllPrivacy(p, added) ==> m' == m
      decreases |rest|
    {
      var it := PickAny(rest);
      assert it in added && it !in done;
      m' := UpdateFor(p, stats, bl, added, m', it, b, done, stale);
      rest := rest - {it};
      done := done + {it};
    }
    assert done == b + added;
  }

  /** One of the added transactions; a sigma spend is skipped, as it has no dependants that may enter. */
  method UpdateFor(p: Pool, stats: map<int, Stats>, bl: set<int>, added: set<int>, m: map<int, Totals>, it: int,
                   ghost b: set<int>, ghost done: set<int>, ghost stale: set<int>) returns (m': map<int, Totals>)
    requires PoolOk(p) && StatsOk(p, stats) && BlacklistOk(p, bl) && AncestorClosed(p, b) && b <= p.txs.Keys
    requires added <= p.txs.Keys && added !! b && Live(p, bl, m, b + added) && it in added && it !in done
    requires TotalsOk(p, stats, bl, m, done, b + added, stale)
    ensures TotalsOk(p, stats, bl, m', done + {it}, b + added, stale) && Live(p, bl, m', b + added)
    ensures Privacy(p.txs[it]) ==> m' == m
  {
    hide IsAncestor, Sum, PoolOk, StatsOk, BlacklistOk, AncestorClosed, TotalsOk, Live, Dependants, Charged, DependsOn, Chargeable, DescendantClosed;
    if p.txs[it].kind == Sigma {
      TotalsIgnorePrivacy(p, stats, bl, m, done, b + added, stale, it);
      return m;
    }
    NothingClosed(p);
    var descendants := CalculateDescendants(p, it, {});
    DescendantsToCharge(p, bl, b, added, it, descendants);
    var d := descendants - added - bl;
    DependantsChargeable(p, stats, bl, m, done, b + added, stale, it, d);
    m' := ChargeDependants(p, stats, m, it, d);
    TotalsCharged(p, stats, bl, m, done, b + added, stale, it, d, m');
    LiveCharged(p, stats, bl, m, b + added, it, d, m');
    if Privacy(p.txs[it]) {
      PrivacyHasNoDependants(p, bl, b + added, it);
      DependantsUnique(p, bl, b + added, it, d, {});
    }
  }

  lemma NothingClosed(p: Pool)
    requires PoolOk(p)
    ensures DescendantClosed(p, {})
  {
  }

  lemma DependantsUnique(p: Pool, bl: set<int>, x: set<int>, it: int, d: set<int>, e: set<int>)
    requires PoolOk(p) && it in p.txs && Dependants(p, bl, x, it, d) && Dependants(p, bl, x, it, e)
    ensures d == e
  {
    hide IsAncestor;
    assert forall t :: t in d <==> t in e;
  }

  /** The head of a package was dropped at the last moment: everything else is still accounted for. */
  lemma HeadDropped(p: Pool, stats: map<int, Stats>, bl: set<int>, m: map<int, Totals>, b: set<int>, stale: set<int>, h: int)
    requires PoolOk(p) && StatsOk(p, stats) && BlacklistOk(p, bl) && h in p.txs && Privacy(p.txs[h]) && h in b
    requires TotalsOk(p, stats, bl, m, b, b, stale) && Live(p, bl, m, b)
    ensures TotalsOk(p, stats, bl, m, b - {h}, b - {h}, stale + {h}) && Live(p, bl, m, b - {h})
  {
    hide IsAncestor, Sum, PoolOk, StatsOk, BlacklistOk;
    assert b - {h} + {h} == b;
    TotalsIgnorePrivacy(p, stats, bl, m, b - {h}, b, stale, h);
    forall t | t in p.txs && t !in bl && t !in b - {h} ensures TotalsOkAt(p, stats, m, b - {h}, stale + {h}, t) {
      if t == h {
        FullCovers(p, stats, b - {h}, h);
      } else {
        assert TotalsOkAt(p, stats, m, b - {h}, stale, t);
      }
    }
  }

  lemma FullCovers(p: Pool, stats: map<int, Stats>, b: set<int>, t: int)
    requires PoolOk(p) && StatsOk(p, stats) && t in p.txs
    ensures t in stats && Covers(FullTotals(stats, t), MissingTotals(p, t, b))
  {
    hide IsAncestor, Sum;
    SumSubset(p, Missing(p, t, b), Package(p, t), VSize(p));
    SumSubset(p, Missing(p, t, b), Package(p, t), SigOps);
  }

  /** What a package adds in weight is bounded by four times its virtual size. */
  lemma PackageWeight(p: Pool, s: set<int>)
    requires s <= p.txs.Keys
    ensures Sum(p, s, Weight) <= WITNESS_SCALE_FACTOR * Sum(p, s, VSize(p))
  {
    forall t: Tx ensures Weight(t) <= WITNESS_SCALE_FACTOR * VSize(p)(t) { VSizeCoversWeight(p, t); }
    SumBounded(p, s, Weight, VSize(p), WITNESS_SCALE_FACTOR);
  }

  /** Members of a package depend on nothing but the block, and on members listed earlier. */
  lemma PackageParents(p: Pool, stats: map<int, Stats>, head: int, b: set<int>, package: set<int>, s: seq<int>, i: nat)
    requires PoolOk(p) && StatsOk(p, stats) && head in p.txs && package == Missing(p, head, b) && Listing(stats, package, s) && i < |s|
    ensures s[i] in package && s[i] in p.txs
    ensures forall a :: a in p.parents[s[i]] ==> a in b || (a in s[..i] && a != head)
  {
    hide IsAncestor, Listing;
    assert package <= p.txs.Keys;
    ListingMember(stats, package, s, i);
    forall a | a in p.parents[s[i]] && a !in b ensures a in s[..i] && a != head {
      ParentIsAncestor(p, a, s[i]);
      AncestorRank(p, a, s[i]);
      if s[i] == head {
        assert a in package;
      } else {
        AncestorTrans(p, a, s[i], head);
        AncestorRank(p, s[i], head);
      }
      ListingIsTopological(p, stats, package, s, i, a);
    }
  }

  lemma ListingMember(stats: map<int, Stats>, package: set<int>, s: seq<int>, i: nat)
    requires Listing(stats, package, s) && i < |s|
    ensures s[i] in package
  {
  }

  /** Only the head of a package can be a privacy spend. */
  lemma OnlyHeadIsPrivate(p: Pool, bl: set<int>, head: int, b: set<int>, t: int)
    requires PoolOk(p) && BlacklistOk(p, bl) && head in p.txs && head !in bl && t in Missing(p, head, b)
    ensures t in p.txs && t !in bl && (Privacy(p.txs[t]) ==> t == head)
  {
    hide IsAncestor;
  }

  // ---------------------------------------------------------------------------------------------
  // Adding the rest of a package

  /** The first i members of a package have been added to a block that held `base`; only a privacy spend at
      its head can have been left out. */
  ghost predicate AddedSoFar(p: Pool, head: int, base: set<int>, package: set<int>, s: seq<int>, i: nat, b: set<int>)
    requires head in p.txs
  {
    && base <= b <= base + package && i <= |s|
    && (forall k :: 0 <= k < i ==> s[k] in b || (s[k] == head && Privacy(p.txs[head])))
    && (forall k :: i <= k < |s| ==> s[k] !in b)
  }

  lemma AddedNone(p: Pool, stats: map<int, Stats>, head: int, base: set<int>, package: set<int>, s: seq<int>)
    requires head in p.txs && package !! base && Listing(stats, package, s)
    ensures AddedSoFar(p, head, base, package, s, 0, base)
  {
  }

  lemma NextMember(p: Pool, stats: map<int, Stats>, bl: set<int>, head: int, base: set<int>, package: set<int>, s: seq<int>, i: nat, b: set<int>)
    requires PoolOk(p) && StatsOk(p, stats) && BlacklistOk(p, bl) && head in p.txs && head !in bl
    requires package == Missing(p, head, base) && Listing(stats, package, s) && i < |s| && AddedSoFar(p, head, base, package, s, i, b)
    ensures s[i] in p.txs && s[i] !in b && s[i] !in bl && s[i] in package && p.parents[s[i]] <= b
    ensures Privacy(p.txs[s[i]]) ==> s[i] == head
  {
    hide IsAncestor, Listing, BlacklistOk, StatsOk;
    PackageParents(p, stats, head, base, package, s, i);
    OnlyHeadIsPrivate(p, bl, head, base, s[i]);
    forall a | a in p.parents[s[i]] ensures a in b {
      if a !in base { var k :| 0 <= k < i && s[k] == a; }
    }
  }

  lemma AddedOne(p: Pool, stats: map<int, Stats>, head: int, base: set<int>, package: set<int>, s: seq<int>, i: nat, b: set<int>)
    requires head in p.txs && Listing(stats, package, s) && i < |s| && AddedSoFar(p, head, base, package, s, i, b)
    ensures AddedSoFar(p, head, base, package, s, i + 1, b + {s[i]})
    ensures s[i] == head && Privacy(p.txs[head]) ==> AddedSoFar(p, head, base, package, s, i + 1, b)
  {
  }

  lemma AddedAll(p: Pool, stats: map<int, Stats>, head: int, base: set<int>, package: set<int>, s: seq<int>, b: set<int>)
    requires head in p.txs && Listing(stats, package, s) && package !! base && AddedSoFar(p, head, base, package, s, |s|, b)
    ensures b == base + package || (Privacy(p.txs[head]) && b == base + package - {head})
  {
    forall t | t in package ensures t in b || (t == head && Privacy(p.txs[head])) {
      var k :| 0 <= k < |s| && s[k] == t;
    }
  }

  lemma PackageKnown(p: Pool, stats: map<int, Stats>, head: int, b: set<int>)
    requires PoolOk(p) && StatsOk(p, stats) && head in p.txs && head !in b
    ensures head in stats && stats[head].ancestors - b + {head} == Missing(p, head, b)
    ensures Missing(p, head, b) <= p.txs.Keys && Missing(p, head, b) <= stats.Keys && Missing(p, head, b) !! b && head in Missing(p, head, b)
  {
    StatsKnown(p, stats, head);
    PackageWithin(p, head);
    hide IsAncestor, StatsOk, PoolOk, Ancestors;
  }

  lemma PackageWithin(p: Pool, t: int)
    requires PoolOk(p) && t in p.txs
    ensures Package(p, t) <= p.txs.Keys
  {
    hide IsAncestor;
  }
}
