/** The one-pass scan behind Lelantus surge protection, and the quantified statement it decides.

    Coin groups are numbered and overlap: group g+1 starts out holding the last coins of group g,
    which it has "borrowed". A range of groups is overspent when its spends exceed the coins it can
    reach: the coins its first group borrowed plus the coins minted in the range.
 */
module Surge {
  import opened Sets

  /** Counters are `size_t`: 64 bits, wrapping. */
  const SIZE_MODULUS: nat := 0x1_0000_0000_0000_0000

  function AddSize(a: nat, b: nat): nat {
    (a + b) % SIZE_MODULUS
  }

  function SubSize(a: nat, b: nat): nat {
    (a - b) % SIZE_MODULUS
  }

  function Lookup(m: map<int, nat>, k: int): nat {
    if k in m then m[k] else 0
  }

  /** One group as the scan meets it; `lent` is what the following group borrowed from it. */
  datatype GroupTotals = GroupTotals(spent: nat, minted: nat, lent: nat)

  /** The scan from some group on, with the running window's two accumulators. */
  function Scan(gs: seq<GroupTotals>, serials: nat, mints: nat): bool {
    if gs == [] then false
    else
      var s := AddSize(serials, gs[0].spent);
      var m := AddSize(mints, gs[0].minted);
      if s > m then true
      else if s <= SubSize(m, gs[0].lent) then Scan(gs[1..], 0, gs[0].lent)
      else Scan(gs[1..], s, m)
  }

  // ---------------------------------------------------------------------------------------------
  // Which groups the scan meets: the keys of an ordered map, ascending

  ghost function Totals(ids: seq<int>, minted: map<int, nat>, spent: map<int, nat>, ext: map<int, nat>): seq<GroupTotals> {
    if ids == [] then []
    else [GroupTotals(Lookup(spent, ids[0]), Lookup(minted, ids[0]), Lookup(ext, ids[0] + 1))]
         + Totals(ids[1..], minted, spent, ext)
  }

  /** What CheckSurgeCondition computes from the three per-group maps. */
  ghost function SurgeFlag(minted: map<int, nat>, spent: map<int, nat>, ext: map<int, nat>): bool {
    Scan(Totals(Ascending(minted.Keys), minted, spent, ext), 0, 0)
  }

  /** One turn of the scan's loop. */
  lemma ScanNext(rest: set<int>, id: int, minted: map<int, nat>, spent: map<int, nat>, ext: map<int, nat>, serials: nat, mints: nat)
    requires IsLeast(id, rest)
    ensures var s, m, lent := AddSize(serials, Lookup(spent, id)), AddSize(mints, Lookup(minted, id)), Lookup(ext, id + 1);
            var gs := Totals(Ascending(rest - {id}), minted, spent, ext);
            Scan(Totals(Ascending(rest), minted, spent, ext), serials, mints)
            == (s > m || (if s <= SubSize(m, lent) then Scan(gs, 0, lent) else Scan(gs, s, m)))
  {
    hide AddSize, SubSize, Lookup;
    AscendingStep(rest, id);
    assert Ascending(rest)[1..] == Ascending(rest - {id});
    var all := Totals(Ascending(rest), minted, spent, ext);
    assert all[0] == GroupTotals(Lookup(spent, id), Lookup(minted, id), Lookup(ext, id + 1));
    assert all[1..] == Totals(Ascending(rest - {id}), minted, spent, ext);
  }

  lemma ScanNone(minted: map<int, nat>, spent: map<int, nat>, ext: map<int, nat>, serials: nat, mints: nat)
    ensures !Scan(Totals(Ascending({}), minted, spent, ext), serials, mints)
  {
  }

  // ---------------------------------------------------------------------------------------------
  // The specification: some range of groups is overspent

  /** Sum of m over the ids lo, ..., hi - 1. */
  function SumRange(m: map<int, nat>, lo: int, hi: int): nat
    decreases hi - lo
  {
    if hi <= lo then 0 else SumRange(m, lo, hi - 1) + Lookup(m, hi - 1)
  }

  /** Coins reachable by groups a, ..., hi - 1 less their spends. */
  function Slack(minted: map<int, nat>, spent: map<int, nat>, ext: map<int, nat>, a: int, hi: int): int {
    Lookup(ext, a) + SumRange(minted, a, hi) - SumRange(spent, a, hi)
  }

  ghost predicate Overspent(minted: map<int, nat>, spent: map<int, nat>, ext: map<int, nat>, n: nat) {
    exists a, hi :: 1 <= a < hi <= n + 1 && Slack(minted, spent, ext, a, hi) < 0
  }

  /** Groups are 1..n, group 1 borrowed nothing, and no group borrowed more than its predecessor holds. */
  ghost predicate WellGrouped(minted: map<int, nat>, ext: map<int, nat>, n: nat) {
    && (forall g :: g in minted <==> 1 <= g <= n)
    && 1 !in ext
    && (forall g :: 1 <= g <= n ==> Lookup(ext, g + 1) <= Lookup(minted, g))
  }

  // ---------------------------------------------------------------------------------------------
  // The scan decides the specification

  lemma {:induction false} SumRangeLeft(m: map<int, nat>, lo: int, hi: int)
    requires lo < hi
    ensures SumRange(m, lo, hi) == Lookup(m, lo) + SumRange(m, lo + 1, hi)
    decreases hi - lo
  {
    if lo + 1 < hi {
      SumRangeLeft(m, lo, hi - 1);
    }
  }

  lemma {:induction false} SumRangeMonotone(m: map<int, nat>, lo: int, lo': int, hi: int, hi': int)
    requires lo' <= lo && hi <= hi'
    ensures SumRange(m, lo, hi) <= SumRange(m, lo', hi')
    decreases (hi' - lo') - (hi - lo)
  {
    if lo >= hi {
    } else if hi < hi' {
      SumRangeMonotone(m, lo, lo', hi + 1, hi');
    } else if lo' < lo {
      SumRangeLeft(m, lo - 1, hi);
      SumRangeMonotone(m, lo - 1, lo', hi, hi');
    }
  }

  /** No range that starts at one of 1..last and ends before hi has slack below x. */
  ghost predicate LeastSlack(minted: map<int, nat>, spent: map<int, nat>, ext: map<int, nat>, last: int, hi: int, x: int) {
    forall a :: 1 <= a <= last ==> x <= Slack(minted, spent, ext, a, hi)
  }

  /** The window the scan carries into group k: it starts at group w, holds exactly w's slack so far,
      and no other start has less; nothing before k was overspent. */
  ghost predicate Window(minted: map<int, nat>, spent: map<int, nat>, ext: map<int, nat>,
                         k: int, w: int, serials: nat, mints: nat)
  {
    && 1 <= w <= k
    && serials == SumRange(spent, w, k)
    && mints == Lookup(ext, w) + SumRange(minted, w, k)
    && LeastSlack(minted, spent, ext, k, k, Slack(minted, spent, ext, w, k))
  }

  /** Counts stay below the counter width, so only `mints - extendedMints` could wrap. */
  ghost predicate FitsCounters(minted: map<int, nat>, spent: map<int, nat>, n: nat) {
    SumRange(minted, 1, n + 1) < SIZE_MODULUS && SumRange(spent, 1, n + 1) < SIZE_MODULUS
  }

  lemma WindowFits(minted: map<int, nat>, spent: map<int, nat>, ext: map<int, nat>, n: nat, k: int, w: int)
    requires WellGrouped(minted, ext, n) && FitsCounters(minted, spent, n)
    requires 1 <= w <= k <= n
    ensures Lookup(ext, w) + SumRange(minted, w, k + 1) < SIZE_MODULUS
    ensures SumRange(spent, w, k + 1) < SIZE_MODULUS
    ensures Lookup(ext, k + 1) <= Lookup(minted, k) <= SumRange(minted, w, k + 1)
  {
    SumRangeMonotone(spent, w, 1, k + 1, n + 1);
    if w == 1 {
      SumRangeMonotone(minted, 1, 1, k + 1, n + 1);
    } else {
      assert Lookup(ext, (w - 1) + 1) <= Lookup(minted, w - 1);
      SumRangeLeft(minted, w - 1, k + 1);
      SumRangeMonotone(minted, w - 1, 1, k + 1, n + 1);
    }
  }

  /** One group: the accumulators after group k are the slack of range w..k, and the carry rule
      picks the start with the least slack for the groups to come. */
  lemma WindowStep(minted: map<int, nat>, spent: map<int, nat>, ext: map<int, nat>, n: nat,
                   k: int, w: int, serials: nat, mints: nat)
    requires WellGrouped(minted, ext, n) && FitsCounters(minted, spent, n)
    requires 1 <= k <= n && Window(minted, spent, ext, k, w, serials, mints)
    ensures var s, m := serials + Lookup(spent, k), mints + Lookup(minted, k);
            && m < SIZE_MODULUS && s < SIZE_MODULUS && Lookup(ext, k + 1) <= m
            && m - s == Slack(minted, spent, ext, w, k + 1)
            && LeastSlack(minted, spent, ext, k, k + 1, m - s)
            && (if s <= m - Lookup(ext, k + 1)
                then Window(minted, spent, ext, k + 1, k + 1, 0, Lookup(ext, k + 1))
                else Window(minted, spent, ext, k + 1, w, s, m))
  {
    WindowFits(minted, spent, ext, n, k, w);
    var hi := k + 1;
    forall a | 1 <= a <= k
      ensures Slack(minted, spent, ext, w, hi) <= Slack(minted, spent, ext, a, hi)
    {
      assert Slack(minted, spent, ext, w, k) <= Slack(minted, spent, ext, a, k);
    }
    assert Slack(minted, spent, ext, hi, hi) == Lookup(ext, hi);
  }

  /** Some range ending at group k or later is overspent. */
  ghost predicate OverspentFrom(minted: map<int, nat>, spent: map<int, nat>, ext: map<int, nat>, n: nat, k: int) {
    exists a, hi :: 1 <= a < hi <= n + 1 && k < hi && Slack(minted, spent, ext, a, hi) < 0
  }

  lemma OverspentFromStep(minted: map<int, nat>, spent: map<int, nat>, ext: map<int, nat>, n: nat, k: int)
    requires LeastSlack(minted, spent, ext, k, k + 1, 0)
    ensures OverspentFrom(minted, spent, ext, n, k) <==> OverspentFrom(minted, spent, ext, n, k + 1)
  {
    if OverspentFrom(minted, spent, ext, n, k) {
      var a, hi :| 1 <= a < hi <= n + 1 && k < hi && Slack(minted, spent, ext, a, hi) < 0;
      assert k + 1 < hi;
    }
  }

  lemma WindowWithin(minted: map<int, nat>, spent: map<int, nat>, ext: map<int, nat>, k: int, w: int, serials: nat, mints: nat)
    requires Window(minted, spent, ext, k, w, serials, mints)
    ensures 1 <= w <= k
  {
  }

  lemma LeastSlackWeaker(minted: map<int, nat>, spent: map<int, nat>, ext: map<int, nat>, last: int, hi: int, x: int, y: int)
    requires LeastSlack(minted, spent, ext, last, hi, x) && y <= x
    ensures LeastSlack(minted, spent, ext, last, hi, y)
  {
    hide Slack;
  }

  lemma OverspentHere(minted: map<int, nat>, spent: map<int, nat>, ext: map<int, nat>, n: nat, k: int, w: int)
    requires 1 <= w <= k <= n && Slack(minted, spent, ext, w, k + 1) < 0
    ensures OverspentFrom(minted, spent, ext, n, k)
  {
    hide Slack;
  }

  lemma NothingToScan(minted: map<int, nat>, spent: map<int, nat>, ext: map<int, nat>, n: nat, k: int, serials: nat, mints: nat)
    requires k > n
    ensures !Scan(Totals(Interval(k, n + 1), minted, spent, ext), serials, mints) && !OverspentFrom(minted, spent, ext, n, k)
  {
  }

  lemma {:induction false} ScanFromDecides(minted: map<int, nat>, spent: map<int, nat>, ext: map<int, nat>, n: nat,
                                           k: int, w: int, serials: nat, mints: nat)
    requires WellGrouped(minted, ext, n) && FitsCounters(minted, spent, n)
    requires 1 <= k <= n + 1 && Window(minted, spent, ext, k, w, serials, mints)
    ensures Scan(Totals(Interval(k, n + 1), minted, spent, ext), serials, mints)
        <==> OverspentFrom(minted, spent, ext, n, k)
    decreases n + 1 - k
  {
    hide WellGrouped, FitsCounters, Window, LeastSlack, Slack, Lookup, Scan, Totals, OverspentFrom;
    if k > n {
      NothingToScan(minted, spent, ext, n, k, serials, mints);
    } else {
      WindowStep(minted, spent, ext, n, k, w, serials, mints);
      var s, m, lent := serials + Lookup(spent, k), mints + Lookup(minted, k), Lookup(ext, k + 1);
      ScanUnfold(minted, spent, ext, k, n, serials, mints);
      WindowWithin(minted, spent, ext, k, w, serials, mints);
      if s > m {
        OverspentHere(minted, spent, ext, n, k, w);
      } else {
        LeastSlackWeaker(minted, spent, ext, k, k + 1, m - s, 0);
        OverspentFromStep(minted, spent, ext, n, k);
        if s <= m - lent {
          ScanFromDecides(minted, spent, ext, n, k + 1, k + 1, 0, lent);
        } else {
          ScanFromDecides(minted, spent, ext, n, k + 1, w, s, m);
        }
      }
    }
  }

  lemma ScanUnfold(minted: map<int, nat>, spent: map<int, nat>, ext: map<int, nat>, k: int, n: int, serials: nat, mints: nat)
    requires k <= n
    requires serials + Lookup(spent, k) < SIZE_MODULUS && mints + Lookup(minted, k) < SIZE_MODULUS
    requires Lookup(ext, k + 1) <= mints + Lookup(minted, k)
    ensures var s, m, lent := serials + Lookup(spent, k), mints + Lookup(minted, k), Lookup(ext, k + 1);
            var rest := Totals(Interval(k + 1, n + 1), minted, spent, ext);
            Scan(Totals(Interval(k, n + 1), minted, spent, ext), serials, mints)
            == (s > m || (if s <= m - lent then Scan(rest, 0, lent) else Scan(rest, s, m)))
  {
    var g := GroupTotals(Lookup(spent, k), Lookup(minted, k), Lookup(ext, k + 1));
    hide Scan;
    assert Interval(k, n + 1)[1..] == Interval(k + 1, n + 1);
    assert Totals(Interval(k, n + 1), minted, spent, ext) == [g] + Totals(Interval(k + 1, n + 1), minted, spent, ext);
    ScanCons(g, Totals(Interval(k + 1, n + 1), minted, spent, ext), serials, mints);
  }

  lemma ScanCons(g: GroupTotals, rest: seq<GroupTotals>, serials: nat, mints: nat)
    requires serials + g.spent < SIZE_MODULUS && g.lent <= mints + g.minted < SIZE_MODULUS
    ensures var s, m := serials + g.spent, mints + g.minted;
            Scan([g] + rest, serials, mints)
            == (s > m || (if s <= m - g.lent then Scan(rest, 0, g.lent) else Scan(rest, s, m)))
  {
    NoWrap(serials, g.spent);
    NoWrap(mints, g.minted);
    NoBorrow(mints + g.minted, g.lent);
    assert ([g] + rest)[1..] == rest;
  }

  lemma NoWrap(a: nat, b: nat)
    requires a + b < SIZE_MODULUS
    ensures AddSize(a, b) == a + b
  {
  }

  lemma NoBorrow(a: nat, b: nat)
    requires b <= a < SIZE_MODULUS
    ensures SubSize(a, b) == a - b
  {
  }

  /** Main result: the flag is raised exactly when some range of groups is overspent. */
  lemma SurgeFlagIffOverspent(minted: map<int, nat>, spent: map<int, nat>, ext: map<int, nat>, n: nat)
    requires WellGrouped(minted, ext, n) && FitsCounters(minted, spent, n)
    ensures SurgeFlag(minted, spent, ext) <==> Overspent(minted, spent, ext, n)
  {
    AscendingOfInterval(minted.Keys, 1, n + 1);
    assert Window(minted, spent, ext, 1, 1, 0, 0);
    ScanFromDecides(minted, spent, ext, n, 1, 1, 0, 0);
    assert OverspentFrom(minted, spent, ext, n, 1) <==> Overspent(minted, spent, ext, n);
  }

  /** Why the bound on borrowed counts matters: with more borrowed than minted the unsigned
      `mints - extendedMints` wraps, the window restarts, and an overspent range goes unseen. */
  lemma BorrowingTooMuchHidesOverspending()
    ensures var minted, spent, ext := map[1 := 1, 2 := 0], map[1 := 1, 2 := 1], map[2 := 2];
            !SurgeFlag(minted, spent, ext) && Overspent(minted, spent, ext, 2)
  {
    var minted, spent, ext := map[1 := 1, 2 := 0], map[1 := 1, 2 := 1], map[2 := 2];
    AscendingOfInterval(minted.Keys, 1, 3);
    assert Interval(1, 3) == [1, 2] by { assert Interval(2, 3) == [2]; }
    var gs := Totals([1, 2], minted, spent, ext);
    assert gs == [GroupTotals(1, 1, 2), GroupTotals(1, 0, 0)] by {
      assert [1, 2][1..] == [2];
      assert Totals([2], minted, spent, ext) == [GroupTotals(1, 0, 0)];
    }
    assert gs[1..] == [GroupTotals(1, 0, 0)];
    assert SumRange(minted, 1, 2) == 1 && SumRange(spent, 1, 2) == 1;
    assert SumRange(minted, 1, 3) == 1 && SumRange(spent, 1, 3) == 2;
    assert Slack(minted, spent, ext, 1, 3) < 0;
  }
}
