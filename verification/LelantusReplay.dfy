/** Live connection and replay from the index agree; the invariant both keep. */
module LelantusReplay {
  import opened Wrappers
  import opened Sets
  import opened Surge
  import opened Lelantus

  // ---------------------------------------------------------------------------------------------
  // Counting over a chain

  lemma {:induction false} CoinsOfSplit(chain: seq<BlockEntry>, id: int, lo: nat, mid: nat, hi: nat)
    requires lo <= mid <= hi <= |chain|
    ensures CoinsOf(chain, id, lo, hi) == CoinsOf(chain, id, lo, mid) + CoinsOf(chain, id, mid, hi)
    decreases hi
  {
    if mid < hi { CoinsOfSplit(chain, id, lo, mid, hi - 1); }
  }

  lemma {:induction false} CoinsOfAppend(chain: seq<BlockEntry>, e: BlockEntry, id: int, lo: nat, hi: nat)
    requires hi <= |chain|
    ensures CoinsOf(chain + [e], id, lo, hi) == CoinsOf(chain, id, lo, hi)
    decreases hi
  {
    if lo < hi { CoinsOfAppend(chain, e, id, lo, hi - 1); }
  }

  lemma {:induction false} WalkAppend(chain: seq<BlockEntry>, e: BlockEntry, id: int, lo: nat, hi: nat)
    requires hi <= |chain|
    ensures WalkCount(chain + [e], id, lo, hi) == WalkCount(chain, id, lo, hi)
    decreases hi
  {
    if lo < hi { WalkAppend(chain, e, id, lo, hi - 1); }
  }

  lemma {:induction false} CountDownPrefix(chain: seq<BlockEntry>, m: nat, id: int, top: int, required: nat, coins: nat, first: Option<nat>)
    requires -1 <= top < m <= |chain|
    ensures CountDown(chain[..m], id, top, required, coins, first) == CountDown(chain, id, top, required, coins, first)
    decreases top + 1
  {
    if coins < required && top >= 0 {
      var inBlock := CoinCount(chain[top], id);
      CountDownPrefix(chain, m, id, top - 1, required, coins + inBlock, if inBlock > 0 then Some(top) else first);
    }
  }

  ghost predicate NoMints(e: BlockEntry) {
    forall g :: CoinCount(e, g) == 0
  }

  /** Extending a walk upwards over blocks without mints adds nothing. */
  lemma {:induction false} WalkOverNoMints(chain: seq<BlockEntry>, id: int, lo: nat, mid: nat, hi: nat)
    requires lo <= mid <= hi <= |chain|
    requires forall h :: mid <= h < hi ==> NoMints(chain[h])
    ensures WalkCount(chain, id, lo, hi) == WalkCount(chain, id, lo, mid)
    decreases hi
  {
    if mid < hi { WalkOverNoMints(chain, id, lo, mid, hi - 1); }
  }

  lemma {:induction false} CoinsOverNoMints(chain: seq<BlockEntry>, id: int, lo: nat, hi: nat)
    requires lo <= hi <= |chain|
    requires forall h :: lo <= h < hi ==> CoinCount(chain[h], id) == 0
    ensures CoinsOf(chain, id, lo, hi) == 0
    decreases hi
  {
    if lo < hi { CoinsOverNoMints(chain, id, lo, hi - 1); }
  }

  /** Where group id has no coins of its own, the walk meets exactly the previous group's. */
  lemma {:induction false} WalkBorrowed(chain: seq<BlockEntry>, id: int, lo: nat, hi: nat)
    requires lo <= hi <= |chain| && id != 1
    requires forall h :: lo <= h < hi ==> CoinCount(chain[h], id) == 0
    ensures WalkCount(chain, id, lo, hi) == CoinsOf(chain, id - 1, lo, hi)
    decreases hi
  {
    if lo < hi { WalkBorrowed(chain, id, lo, hi - 1); }
  }

  /** What CountLastNCoins finds: whole blocks' worth of the group's last coins, back to the first
      block by which `required` is reached (or all there are), and no further. */
  lemma {:induction false} CountDownMeans(chain: seq<BlockEntry>, id: int, top: int, required: nat,
                                          coins: nat, first: Option<nat>, hi: nat)
    requires -1 <= top < hi <= |chain|
    requires coins == CoinsOf(chain, id, (top + 1) as nat, hi)
    requires first.None? ==> coins == 0
    requires first.Some? ==> top < first.value < hi && coins == CoinsOf(chain, id, first.value, hi)
                             && CoinsOf(chain, id, first.value + 1, hi) < required
    ensures var (c, f) := CountDown(chain, id, top, required, coins, first);
            && (f.None? ==> c == 0)
            && (f.Some? ==> f.value < hi && c == CoinsOf(chain, id, f.value, hi)
                            && CoinsOf(chain, id, f.value + 1, hi) < required)
            && (c >= required || c == CoinsOf(chain, id, 0, hi))
    decreases top + 1
  {
    if coins < required && top >= 0 {
      var inBlock := CoinCount(chain[top], id);
      CoinsOfSplit(chain, id, top as nat, (top + 1) as nat, hi);
      assert CoinsOf(chain, id, top as nat, (top + 1) as nat) == inBlock;
      CountDownMeans(chain, id, top - 1, required, coins + inBlock, if inBlock > 0 then Some(top as nat) else first, hi);
    }
  }

  // ---------------------------------------------------------------------------------------------
  // The invariant of live connection

  /** A group's count is the number of coins met walking its last block down to its first. */
  ghost predicate GroupOk(chain: seq<BlockEntry>, g: int, info: GroupInfo) {
    && info.first.Some? && info.last.Some?
    && info.first.value <= info.last.value < |chain|
    && 0 < info.nCoins == WalkCount(chain, g, info.first.value, info.last.value + 1)
  }

  /** No block above height h holds mints. */
  ghost predicate QuietAbove(chain: seq<BlockEntry>, h: int) {
    forall i :: 0 <= i < |chain| && h < i ==> NoMints(chain[i])
  }

  ghost predicate NoLaterIds(chain: seq<BlockEntry>, id: int) {
    forall h, g :: 0 <= h < |chain| && id < g ==> CoinCount(chain[h], g) == 0
  }

  ghost function LastMintHeight(c: Core): int {
    if c.latest in c.groups && c.groups[c.latest].last.Some? then c.groups[c.latest].last.value else -1
  }

  /** Ids are 1..latest; every group but the first has a borrowed count. */
  ghost predicate IdsOk(c: Core) {
    && c.latest >= 0
    && (forall g :: g in c.groups <==> 1 <= g <= c.latest)
    && (forall g :: g in c.minted <==> 1 <= g <= c.latest)
    && (forall g :: g in c.ext <==> 2 <= g <= c.latest)
  }

  ghost predicate GroupsOk(c: Core, chain: seq<BlockEntry>) {
    forall g :: g in c.groups ==> GroupOk(chain, g, c.groups[g])
  }

  ghost predicate MintedOk(c: Core, chain: seq<BlockEntry>) {
    forall g :: g in c.minted ==> c.minted[g] == CoinsOf(chain, g, 0, |chain|)
  }

  ghost predicate BorrowedOk(c: Core) {
    forall g :: g in c.ext ==> c.ext[g] <= Lookup(c.minted, g - 1)
  }

  ghost predicate Inv(c: Core, chain: seq<BlockEntry>) {
    && IdsOk(c) && GroupsOk(c, chain) && MintedOk(c, chain) && BorrowedOk(c)
    && NoLaterIds(chain, c.latest)
    && QuietAbove(chain, LastMintHeight(c))
  }

  lemma InvLatest(c: Core, chain: seq<BlockEntry>)
    requires Inv(c, chain)
    ensures c.latest >= 0 && (c.latest == 0 ==> 1 !in c.groups)
  {
  }

  lemma InvWellGrouped(c: Core, chain: seq<BlockEntry>)
    requires Inv(c, chain)
    ensures WellGrouped(c.minted, c.ext, c.latest)
  {
    forall g | 1 <= g <= c.latest ensures Lookup(c.ext, g + 1) <= Lookup(c.minted, g) {
      if g + 1 in c.ext { assert c.ext[g + 1] <= Lookup(c.minted, (g + 1) - 1); }
    }
  }

  /** Appending a block leaves the groups it does not touch as they were. */
  lemma GroupOkAppend(chain: seq<BlockEntry>, e: BlockEntry, g: int, info: GroupInfo)
    requires GroupOk(chain, g, info)
    ensures GroupOk(chain + [e], g, info)
  {
    WalkAppend(chain, e, g, info.first.value, info.last.value + 1);
  }

  lemma InvQuietBlock(c: Core, chain: seq<BlockEntry>, spends: map<Scalar, int>)
    requires Inv(c, chain)
    ensures Inv(c, chain + [BlockEntry(map[], spends)])
  {
    var e := BlockEntry(map[], spends);
    var chain' := chain + [e];
    forall g | g in c.groups ensures GroupOk(chain', g, c.groups[g]) {
      GroupOkAppend(chain, e, g, c.groups[g]);
    }
    forall g | g in c.minted ensures c.minted[g] == CoinsOf(chain', g, 0, |chain'|) {
      CoinsOfAppend(chain, e, g, 0, |chain|);
    }
  }

  /** The mints fit the latest group, or there is a latest group to borrow from. */
  predicate CanConnect(c: Core, lim: Limits, n: nat) {
    c.latest >= 1 || n <= lim.maxCoinInGroup
  }

  lemma CountedBack(chain: seq<BlockEntry>, id: int, top: nat, required: nat)
    requires top < |chain|
    ensures var (c, f) := CountDown(chain, id, top, required, 0, None);
            && (f.None? ==> c == 0)
            && (f.Some? ==> f.value <= top && c == CoinsOf(chain, id, f.value, top + 1))
  {
    CountDownMeans(chain, id, top, required, 0, None, top + 1);
  }

  lemma EmptyWalk(chain: seq<BlockEntry>, id: int)
    ensures WalkCount(chain, id, |chain|, |chain|) == 0
  {
  }

  lemma BorrowedWalk(c: Core, lim: Limits, chain: seq<BlockEntry>)
    requires Inv(c, chain) && c.latest >= 1
    ensures KnownBlocks(c.groups, chain)
    ensures var (coins, first) := CountLast(c.groups, chain, c.latest, lim.startGroupSize);
            && first.GetOr(|chain|) <= |chain|
            && WalkCount(chain, c.latest + 1, first.GetOr(|chain|), |chain|) == coins
            && coins <= c.minted[c.latest]
  {
    hide CountDown, Walk, CoinsOf;
    var id := c.latest;
    assert GroupOk(chain, id, c.groups[id]);
    var top := c.groups[id].last.value;
    CountedBack(chain, id, top, lim.startGroupSize);
    var (coins, first) := CountLast(c.groups, chain, id, lim.startGroupSize);
    if first.Some? {
      assert forall h :: first.value <= h < top + 1 ==> CoinCount(chain[h], id + 1) == 0;
      WalkBorrowed(chain, id + 1, first.value, top + 1);
      WalkOverNoMints(chain, id + 1, first.value, top + 1, |chain|);
      CoinsOfSplit(chain, id, 0, first.value, top + 1);
      CoinsOfSplit(chain, id, 0, top + 1, |chain|);
    } else {
      EmptyWalk(chain, id + 1);
    }
  }

  /** More coins for the same group: the walk grows by the new block. */
  lemma WalkToNewBlock(chain: seq<BlockEntry>, e: BlockEntry, id: int, lo: nat, n: nat)
    requires lo <= |chain| && CoinCount(e, id) == n > 0 && id != 0
    ensures WalkCount(chain + [e], id, lo, |chain| + 1) == WalkCount(chain, id, lo, |chain|) + n
  {
    WalkAppend(chain, e, id, lo, |chain|);
  }

  lemma SameGroupOk(chain: seq<BlockEntry>, id: int, info: GroupInfo, n: nat, e: BlockEntry)
    requires GroupOk(chain, id, info) && QuietAbove(chain, info.last.value) && CoinCount(e, id) == n > 0 && id != 0
    ensures GroupOk(chain + [e], id, GroupInfo(info.first, Some(|chain|), info.nCoins + n))
  {
    WalkOverNoMints(chain, id, info.first.value, info.last.value + 1, |chain|);
    WalkToNewBlock(chain, e, id, info.first.value, n);
  }

  /** The group a connected block's mints join is again exactly what its walk meets. */
  ghost predicate Opened(c: Core, r: Core, chain': seq<BlockEntry>, id: int) {
    && r.latest == id && id in r.groups
    && GroupOk(chain', id, r.groups[id])
    && r.groups[id].last == Some(|chain'| - 1)
    && r.groups == c.groups[id := r.groups[id]]
    && r.minted == c.minted
    && (if id == c.latest + 1 && c.latest >= 1 then id in r.ext && r.ext == c.ext[id := r.ext[id]] && r.ext[id] <= Lookup(c.minted, c.latest)
        else r.ext == c.ext)
  }

  lemma OpenedSame(c: Core, lim: Limits, chain: seq<BlockEntry>, n: nat, e: BlockEntry)
    requires Inv(c, chain) && KnownBlocks(c.groups, chain) && CanConnect(c, lim, n)
    requires AssignedId(c, lim, n) == FirstId(c.latest) && CoinCount(e, FirstId(c.latest)) == n > 0
    ensures Opened(c, OpenGroup(c, lim, chain, n), chain + [e], AssignedId(c, lim, n))
  {
    InvGroups(c, chain);
    hide CountLast, Walk, MintedOk, BorrowedOk, NoLaterIds, QuietAbove;
    if c.latest >= 1 {
      assert GroupOk(chain, c.latest, c.groups[c.latest]);
      SameGroupOk(chain, c.latest, c.groups[c.latest], n, e);
    } else {
      WalkToNewBlock(chain, e, 1, |chain|, n);
    }
  }

  lemma OpenedNew(c: Core, lim: Limits, chain: seq<BlockEntry>, n: nat, e: BlockEntry)
    requires Inv(c, chain) && KnownBlocks(c.groups, chain) && CanConnect(c, lim, n)
    requires AssignedId(c, lim, n) != FirstId(c.latest) && CoinCount(e, c.latest + 1) == n > 0
    ensures Opened(c, OpenGroup(c, lim, chain, n), chain + [e], AssignedId(c, lim, n))
  {
    hide CountLast, Walk, GroupsOk, MintedOk, BorrowedOk, NoLaterIds, QuietAbove;
    BorrowedWalk(c, lim, chain);
    var (coins, first) := CountLast(c.groups, chain, c.latest, lim.startGroupSize);
    WalkToNewBlock(chain, e, c.latest + 1, first.GetOr(|chain|), n);
    assert c.groups[c.latest := c.groups[c.latest]] == c.groups;
  }

  lemma GroupsOfOpened(c: Core, o: Core, chain: seq<BlockEntry>, e: BlockEntry, id: int)
    requires GroupsOk(c, chain) && Opened(c, o, chain + [e], id)
    ensures GroupsOk(o, chain + [e])
  {
    forall g | g in o.groups ensures GroupOk(chain + [e], g, o.groups[g]) {
      if g != id { GroupOkAppend(chain, e, g, c.groups[g]); }
    }
  }

  lemma MintedOfOpened(c: Core, r: Core, chain: seq<BlockEntry>, e: BlockEntry, id: int, n: nat)
    requires MintedOk(c, chain) && (id !in c.minted ==> forall h :: 0 <= h < |chain| ==> CoinCount(chain[h], id) == 0)
    requires forall g :: CoinCount(e, g) == if g == id then n else 0
    requires r.minted == c.minted[id := Lookup(c.minted, id) + n]
    ensures MintedOk(r, chain + [e])
  {
    var chain', h := chain + [e], |chain|;
    forall g | g in r.minted ensures r.minted[g] == CoinsOf(chain', g, 0, |chain'|) {
      CoinsOfAppend(chain, e, g, 0, h);
      assert chain'[h] == e;
      if g !in c.minted { CoinsOverNoMints(chain, g, 0, h); }
    }
  }

  lemma ChainOfOpened(c: Core, chain: seq<BlockEntry>, e: BlockEntry, id: int, n: nat)
    requires NoLaterIds(chain, c.latest) && c.latest <= id
    requires forall g :: CoinCount(e, g) == if g == id then n else 0
    ensures NoLaterIds(chain + [e], id)
  {
    var chain' := chain + [e];
    forall i, g | 0 <= i < |chain'| && id < g ensures CoinCount(chain'[i], g) == 0 {
      if i < |chain| { assert CoinCount(chain[i], g) == 0; }
    }
  }

  lemma IdsOfOpened(c: Core, o: Core, r: Core, chain': seq<BlockEntry>, id: int, n: nat)
    requires IdsOk(c) && Opened(c, o, chain', id) && 1 <= id && (id == c.latest || id == c.latest + 1)
    requires r.groups == o.groups && r.latest == id && r.ext == o.ext && r.minted == c.minted[id := Lookup(c.minted, id) + n]
    ensures IdsOk(r)
  {
  }

  lemma BorrowedOfOpened(c: Core, o: Core, r: Core, chain': seq<BlockEntry>, id: int, n: nat)
    requires BorrowedOk(c) && Opened(c, o, chain', id) && 1 <= id && (id == c.latest || id == c.latest + 1)
    requires r.ext == o.ext && r.minted == c.minted[id := Lookup(c.minted, id) + n]
    ensures BorrowedOk(r)
  {
    forall g | g in r.ext ensures r.ext[g] <= Lookup(r.minted, g - 1) {
      if g in c.ext { assert c.ext[g] <= Lookup(c.minted, g - 1); }
    }
  }

  lemma InvOfOpened(c: Core, o: Core, r: Core, chain: seq<BlockEntry>, e: BlockEntry, id: int, n: nat)
    requires Inv(c, chain) && Opened(c, o, chain + [e], id)
    requires 1 <= id && (id == c.latest || id == c.latest + 1)
    requires forall g :: CoinCount(e, g) == if g == id then n else 0
    requires r.groups == o.groups && r.latest == id && r.ext == o.ext
    requires r.minted == c.minted[id := Lookup(c.minted, id) + n]
    ensures Inv(r, chain + [e])
  {
    GroupsOfOpened(c, o, chain, e, id);
    MintedOfOpened(c, r, chain, e, id, n);
    ChainOfOpened(c, chain, e, id, n);
    IdsOfOpened(c, o, r, chain + [e], id, n);
    BorrowedOfOpened(c, o, r, chain + [e], id, n);
    assert QuietAbove(chain + [e], |chain|);
    assert LastMintHeight(r) == |chain|;
  }

  lemma OpenedIs(c: Core, r: Core, chain': seq<BlockEntry>, id: int)
    requires Opened(c, r, chain', id)
    ensures r.latest == id && r.minted == c.minted
  {
  }

  lemma InvConnect(c: Core, lim: Limits, chain: seq<BlockEntry>, mints: seq<Coin>, e: BlockEntry)
    requires Inv(c, chain) && KnownBlocks(c.groups, chain) && mints != [] && CanConnect(c, lim, |mints|)
    requires e.minted == map[AssignedId(c, lim, |mints|) := mints]
    ensures Inv(ConnectMints(c, lim, chain, mints), chain + [e])
  {
    hide Inv, Opened, OpenGroup, MintAll, KnownBlocks;
    InvLatest(c, chain);
    var id := AssignedId(c, lim, |mints|);
    if id == FirstId(c.latest) {
      OpenedSame(c, lim, chain, |mints|, e);
    } else {
      OpenedNew(c, lim, chain, |mints|, e);
    }
    var o := OpenGroup(c, lim, chain, |mints|);
    OpenedIs(c, o, chain + [e], id);
    MintAllGroups(o, mints, id, |chain|);
    InvOfOpened(c, o, ConnectMints(c, lim, chain, mints), chain, e, id, |mints|);
  }

  // ---------------------------------------------------------------------------------------------
  // Replaying one block does what connecting it did

  lemma CountLastPrefix(groups: map<int, GroupInfo>, chain: seq<BlockEntry>, m: nat, id: int, required: nat)
    requires m <= |chain| && KnownBlocks(groups, chain[..m])
    ensures KnownBlocks(groups, chain)
    ensures CountLast(groups, chain[..m], id, required) == CountLast(groups, chain, id, required)
  {
    if id in groups && groups[id].last.Some? {
      CountDownPrefix(chain, m, id, groups[id].last.value, required, 0, None);
    }
  }

  lemma InvGroups(c: Core, chain: seq<BlockEntry>)
    requires Inv(c, chain)
    ensures c.latest >= 0 && (c.latest == 0 ==> 1 !in c.groups && 2 !in c.groups) && c.latest + 1 !in c.groups
    ensures c.latest >= 1 ==> c.latest in c.groups && c.groups[c.latest].first.Some? && c.groups[c.latest].nCoins > 0
  {
    hide MintedOk, BorrowedOk, NoLaterIds, QuietAbove;
    if c.latest >= 1 { assert GroupOk(chain, c.latest, c.groups[c.latest]); }
  }

  lemma SameOpening(c: Core, lim: Limits, chain: seq<BlockEntry>, chain': seq<BlockEntry>, n: nat)
    requires KnownBlocks(c.groups, chain) && KnownBlocks(c.groups, chain') && CanConnect(c, lim, n) && c.latest >= 0
    requires c.latest == 0 ==> 1 !in c.groups
    requires c.latest >= 1 ==> c.latest in c.groups && c.groups[c.latest].first.Some? && c.groups[c.latest].nCoins > 0
    requires c.latest + 1 !in c.groups
    requires CountLast(c.groups, chain', c.latest, lim.startGroupSize) == CountLast(c.groups, chain, c.latest, lim.startGroupSize)
    ensures ReopenGroup(c, lim, chain', |chain|, AssignedId(c, lim, n), n) == OpenGroup(c, lim, chain, n)
  {
    hide CountLast, KnownBlocks;
    if AssignedId(c, lim, n) != FirstId(c.latest) {
      assert c.groups[c.latest := c.groups[c.latest]] == c.groups;
    }
  }

  lemma ReopenIsOpen(c: Core, lim: Limits, chain: seq<BlockEntry>, n: nat, e: BlockEntry)
    requires Inv(c, chain) && KnownBlocks(c.groups, chain) && KnownBlocks(c.groups, chain + [e]) && CanConnect(c, lim, n)
    ensures ReopenGroup(c, lim, chain + [e], |chain|, AssignedId(c, lim, n), n) == OpenGroup(c, lim, chain, n)
  {
    hide CountLast, Inv, KnownBlocks, CanConnect, ReopenGroup, OpenGroup, AssignedId;
    InvGroups(c, chain);
    var longer := chain + [e];
    assert longer[..|chain|] == chain;
    CountLastPrefix(c.groups, longer, |chain|, c.latest, lim.startGroupSize);
    SameOpening(c, lim, chain, longer, n);
  }

  lemma AscendingSingle(id: int)
    ensures Ascending({id}) == [id]
  {
    AscendingStep({id}, id);
    assert {id} - {id} == {};
  }

  /** The mints of one block: replaying its index entry rebuilds what connecting it built. */
  lemma ReplayCoreStep(c: Core, lim: Limits, chain: seq<BlockEntry>, mints: seq<Coin>, e: BlockEntry)
    requires Inv(c, chain) && KnownBlocks(c.groups, chain) && mints != [] && CanConnect(c, lim, |mints|)
    requires e.minted == map[AssignedId(c, lim, |mints|) := mints]
    ensures KnownBlocks(c.groups, chain + [e]) && Ascending(e.minted.Keys) == [AssignedId(c, lim, |mints|)]
    ensures ReplayGroups(c, lim, chain + [e], |chain|, [AssignedId(c, lim, |mints|)]) == ConnectMints(c, lim, chain, mints)
  {
    var id := AssignedId(c, lim, |mints|);
    AscendingSingle(id);
    assert e.minted.Keys == {id};
    ReopenIsOpen(c, lim, chain, |mints|, e);
    var r := ReplayGroup(c, lim, chain + [e], |chain|, id, mints);
    assert [id][1..] == [];
  }

  // ---------------------------------------------------------------------------------------------
  // Whole runs

  datatype Live = Live(state: State, chain: seq<BlockEntry>)

  lemma ConnectKnown(s: State, lim: Limits, chain: seq<BlockEntry>, b: BlockInfo, e: BlockEntry)
    requires KnownBlocks(s.core.groups, chain)
    ensures KnownBlocks(Connect(s, lim, chain, b).core.groups, chain + [e])
  {
    hide CountLast, MintAll, SpendAll;
    if b.mints != [] {
      MintAllGroups(OpenGroup(s.core, lim, chain, |b.mints|), b.mints, AssignedId(s.core, lim, |b.mints|), |chain|);
    }
  }

  /** Connecting blocks one after another, from a fresh state. */
  ghost function LiveRun(lim: Limits, run: seq<BlockInfo>): (r: Live)
    ensures KnownBlocks(r.state.core.groups, r.chain) && |r.chain| == |run|
  {
    if run == [] then Live(FreshState(), [])
    else
      var p, b := LiveRun(lim, run[..|run| - 1]), run[|run| - 1];
      var e := EntryOf(p.state.core, lim, b);
      ConnectKnown(p.state, lim, p.chain, b, e);
      Live(Connect(p.state, lim, p.chain, b), p.chain + [e])
  }

  lemma {:induction false} ReplayKnown(c: Core, lim: Limits, chain: seq<BlockEntry>, h: nat, ids: seq<int>)
    requires KnownBlocks(c.groups, chain) && h < |chain|
    requires forall i :: 0 <= i < |ids| ==> ids[i] in chain[h].minted
    ensures KnownBlocks(ReplayGroups(c, lim, chain, h, ids).groups, chain)
    decreases |ids|
  {
    if ids != [] {
      ReplayKnown(ReplayGroup(c, lim, chain, h, ids[0], chain[h].minted[ids[0]]), lim, chain, h, ids[1..]);
    }
  }

  lemma {:induction false} ReplayGroupsPrefix(c: Core, lim: Limits, chain: seq<BlockEntry>, m: nat, h: nat, ids: seq<int>)
    requires h < m <= |chain| && KnownBlocks(c.groups, chain[..m])
    requires forall i :: 0 <= i < |ids| ==> ids[i] in chain[h].minted
    ensures KnownBlocks(c.groups, chain)
    ensures ReplayGroups(c, lim, chain, h, ids) == ReplayGroups(c, lim, chain[..m], h, ids)
    decreases |ids|
  {
    hide CountLast, MintAll, KnownBlocks;
    KnownInLonger(c.groups, chain, m);
    if ids != [] {
      var id, coins := ids[0], chain[h].minted[ids[0]];
      CountLastPrefix(c.groups, chain, m, id - 1, lim.startGroupSize);
      assert ReplayGroup(c, lim, chain, h, id, coins) == ReplayGroup(c, lim, chain[..m], h, id, coins);
      ReplayGroupsPrefix(ReplayGroup(c, lim, chain[..m], h, id, coins), lim, chain, m, h, ids[1..]);
    }
  }

  lemma KnownInLonger(groups: map<int, GroupInfo>, chain: seq<BlockEntry>, m: nat)
    requires m <= |chain| && KnownBlocks(groups, chain[..m])
    ensures KnownBlocks(groups, chain)
  {
  }

  /** A block's replay looks only at the blocks up to it. */
  lemma ReplayPrefix(s: State, lim: Limits, chain: seq<BlockEntry>, h: nat)
    requires h < |chain| && KnownBlocks(s.core.groups, chain[..h + 1])
    ensures KnownBlocks(s.core.groups, chain)
    ensures Replay(s, lim, chain, h) == Replay(s, lim, chain[..h + 1], h)
  {
    AscendingWithin(chain[h].minted.Keys);
    ReplayGroupsPrefix(s.core, lim, chain, h + 1, h, Ascending(chain[h].minted.Keys));
  }

  /** BuildLelantusStateFromIndex: AddBlock for every block of the chain. */
  ghost function BuildFromIndex(lim: Limits, chain: seq<BlockEntry>): (s: State)
    ensures KnownBlocks(s.core.groups, chain)
  {
    if chain == [] then FreshState()
    else
      var n := |chain| - 1;
      var p := BuildFromIndex(lim, chain[..n]);
      AscendingWithin(chain[n].minted.Keys);
      ReplayKnown(p.core, lim, chain, n, Ascending(chain[n].minted.Keys));
      Replay(p, lim, chain, n)
  }

  /** The first block that mints anything mints no more than a group may hold. */
  ghost predicate FirstMintsFit(lim: Limits, run: seq<BlockInfo>) {
    forall i :: 0 <= i < |run| && run[i].mints != [] && (forall j :: 0 <= j < i ==> run[j].mints == [])
            ==> |run[i].mints| <= lim.maxCoinInGroup
  }

  lemma FirstMintFits(lim: Limits, run: seq<BlockInfo>, n: nat, i: nat)
    requires n <= |run| && FirstMintsFit(lim, run[..n]) && i < n && run[i].mints != [] && forall j :: 0 <= j < i ==> run[j].mints == []
    ensures |run[i].mints| <= lim.maxCoinInGroup
  {
    assert run[..n][i] == run[i];
    forall j | 0 <= j < i ensures run[..n][j].mints == [] { assert run[..n][j] == run[j]; }
  }

  lemma FitsPrefix(lim: Limits, run: seq<BlockInfo>, n: nat)
    requires FirstMintsFit(lim, run) && n <= |run|
    ensures FirstMintsFit(lim, run[..n])
  {
    var p := run[..n];
    forall i | 0 <= i < |p| && p[i].mints != [] && (forall j :: 0 <= j < i ==> p[j].mints == [])
      ensures |p[i].mints| <= lim.maxCoinInGroup
    {
      forall j | 0 <= j < i ensures run[j].mints == [] { assert p[j].mints == []; }
    }
  }

  ghost predicate NoneMint(run: seq<BlockInfo>) {
    forall j :: 0 <= j < |run| ==> run[j].mints == []
  }

  lemma ConnectLatest(s: State, lim: Limits, chain: seq<BlockEntry>, b: BlockInfo)
    requires KnownBlocks(s.core.groups, chain)
    ensures Connect(s, lim, chain, b).core.latest
         == if b.mints == [] then s.core.latest else AssignedId(s.core, lim, |b.mints|)
  {
    if b.mints != [] {
      MintAllGroups(OpenGroup(s.core, lim, chain, |b.mints|), b.mints, AssignedId(s.core, lim, |b.mints|), |chain|);
    }
  }

  lemma {:induction false} LatestIffMinted(lim: Limits, run: seq<BlockInfo>)
    ensures LiveRun(lim, run).state.core.latest >= 0
    ensures LiveRun(lim, run).state.core.latest == 0 <==> NoneMint(run)
  {
    if run != [] {
      var n := |run| - 1;
      var p, b := LiveRun(lim, run[..n]), run[n];
      LatestIffMinted(lim, run[..n]);
      ConnectLatest(p.state, lim, p.chain, b);
      assert run == run[..n] + [b];
      assert NoneMint(run) <==> NoneMint(run[..n]) && b.mints == [];
    }
  }

  /** The invariant holds after every block of every run whose first mints fit. */
  lemma {:induction false} InvHolds(lim: Limits, run: seq<BlockInfo>)
    requires FirstMintsFit(lim, run)
    ensures Inv(LiveRun(lim, run).state.core, LiveRun(lim, run).chain)
  {
    if run != [] {
      var n := |run| - 1;
      var p, b := LiveRun(lim, run[..n]), run[n];
      FitsPrefix(lim, run, n);
      InvHolds(lim, run[..n]);
      var e := EntryOf(p.state.core, lim, b);
      if b.mints == [] {
        InvQuietBlock(p.state.core, p.chain, b.spends);
      } else {
        ConnectableAt(lim, run, n);
        InvConnect(p.state.core, lim, p.chain, b.mints, e);
      }
    }
  }

  lemma ConnectableAt(lim: Limits, run: seq<BlockInfo>, n: nat)
    requires FirstMintsFit(lim, run) && n < |run| && run[n].mints != []
    ensures CanConnect(LiveRun(lim, run[..n]).state.core, lim, |run[n].mints|)
  {
    LatestIffMinted(lim, run[..n]);
    if LiveRun(lim, run[..n]).state.core.latest < 1 {
      forall j | 0 <= j < n ensures run[j].mints == [] { assert run[..n][j].mints == []; }
    }
  }

  /** Every flag value on every such run is the quantified statement. */
  lemma FlagIsOverspentOnEveryRun(lim: Limits, run: seq<BlockInfo>)
    requires FirstMintsFit(lim, run)
    requires var s := LiveRun(lim, run).state; FitsCounters(s.core.minted, s.spends.spent, if s.core.latest < 0 then 0 else s.core.latest)
    ensures var s := LiveRun(lim, run).state;
            s.core.latest >= 0 && (Flag(s) <==> Overspent(s.core.minted, s.spends.spent, s.core.ext, s.core.latest))
  {
    InvHolds(lim, run);
    var l := LiveRun(lim, run);
    InvWellGrouped(l.state.core, l.chain);
    SurgeFlagIffOverspent(l.state.core.minted, l.state.spends.spent, l.state.core.ext, l.state.core.latest);
  }

  // ---------------------------------------------------------------------------------------------
  // When replay rebuilds the live state

  lemma RunStep(lim: Limits, run: seq<BlockInfo>)
    requires run != []
    ensures var n := |run| - 1;
            var p, l := LiveRun(lim, run[..n]), LiveRun(lim, run);
            var e := EntryOf(p.state.core, lim, run[n]);
            && l.chain == p.chain + [e] && l.chain[..n] == p.chain && l.chain[n] == e && |p.chain| == n
            && l.state == Connect(p.state, lim, p.chain, run[n])
  {
  }

  lemma {:induction false} CoreRebuilt(lim: Limits, run: seq<BlockInfo>)
    requires FirstMintsFit(lim, run)
    ensures BuildFromIndex(lim, LiveRun(lim, run).chain).core == LiveRun(lim, run).state.core
  {
    if run != [] {
      var n := |run| - 1;
      var p, l, b := LiveRun(lim, run[..n]), LiveRun(lim, run), run[n];
      RunStep(lim, run);
      FitsPrefix(lim, run, n);
      CoreRebuilt(lim, run[..n]);
      var e := EntryOf(p.state.core, lim, b);
      if b.mints == [] {
        assert e.minted.Keys == {};
      } else {
        InvHolds(lim, run[..n]);
        ConnectableAt(lim, run, n);
        ReplayCoreStep(p.state.core, lim, p.chain, b.mints, e);
      }
    }
  }

  /** The block spends from the very group its own mints open. */
  predicate SpendsOwnNewGroup(c: Core, lim: Limits, b: BlockInfo) {
    b.mints != [] &&
    var id := AssignedId(c, lim, |b.mints|);
    id !in c.minted && id in b.spends.Values
  }

  ghost predicate SpendsKnownGroups(lim: Limits, run: seq<BlockInfo>) {
    forall i :: 0 <= i < |run| ==> !SpendsOwnNewGroup(LiveRun(lim, run[..i]).state.core, lim, run[i])
  }

  lemma MintedAfter(s: State, lim: Limits, chain: seq<BlockEntry>, b: BlockInfo)
    requires KnownBlocks(s.core.groups, chain)
    ensures var r := Connect(s, lim, chain, b).core.minted;
            forall g :: g in r <==> g in s.core.minted || (b.mints != [] && g == AssignedId(s.core, lim, |b.mints|))
  {
    if b.mints != [] {
      MintAllGroups(OpenGroup(s.core, lim, chain, |b.mints|), b.mints, AssignedId(s.core, lim, |b.mints|), |chain|);
    }
  }

  lemma HasSpender(m: map<Scalar, int>, g: int)
    ensures g in m.Values <==> |SpendersOf(m, g)| > 0
  {
    if g in m.Values {
      var k :| k in m && m[k] == g;
      assert k in SpendersOf(m, g);
    } else {
      NoSpenders(m, g);
    }
  }

  lemma SameSpends(sp: Spends, minted: map<int, nat>, minted': map<int, nat>, spends: map<Scalar, int>)
    requires forall k :: k in spends ==> (spends[k] in minted <==> spends[k] in minted')
    ensures SpendAll(sp, minted, spends) == SpendAll(sp, minted', spends)
  {
    assert Counted(spends, minted) == Counted(spends, minted');
  }

  /** One more block, seen from both sides: the same spends, judged against the groups before its mints
      (live) and after them (replay). */
  lemma BothStep(lim: Limits, run: seq<BlockInfo>)
    requires run != [] && FirstMintsFit(lim, run)
    ensures var n := |run| - 1;
            var p, l := LiveRun(lim, run[..n]), LiveRun(lim, run);
            && FirstMintsFit(lim, run[..n])
            && (forall g :: g in p.state.core.minted ==> g in l.state.core.minted)
            && (forall g :: g in l.state.core.minted && g !in p.state.core.minted
                    ==> run[n].mints != [] && g == AssignedId(p.state.core, lim, |run[n].mints|))
            && (run[n].mints != [] ==> AssignedId(p.state.core, lim, |run[n].mints|) in l.state.core.minted)
            && l.state.spends == SpendAll(p.state.spends, p.state.core.minted, run[n].spends)
            && BuildFromIndex(lim, l.chain).spends
               == SpendAll(BuildFromIndex(lim, p.chain).spends, l.state.core.minted, run[n].spends)
  {
    var n := |run| - 1;
    var p := LiveRun(lim, run[..n]);
    RunStep(lim, run);
    FitsPrefix(lim, run, n);
    CoreRebuilt(lim, run);
    MintedAfter(p.state, lim, p.chain, run[n]);
  }

  /** How many more spends of group g replay counts than live connection did. */
  ghost function Gap(lim: Limits, run: seq<BlockInfo>, g: int): int {
    var l := LiveRun(lim, run);
    Lookup(BuildFromIndex(lim, l.chain).spends.spent, g) - Lookup(l.state.spends.spent, g)
  }

  /** The gap grows exactly by a block's spends of the group its own mints open. */
  lemma GapStep(lim: Limits, run: seq<BlockInfo>, g: int)
    requires run != [] && FirstMintsFit(lim, run)
    ensures var n := |run| - 1;
            var c := LiveRun(lim, run[..n]).state.core;
            Gap(lim, run, g) == Gap(lim, run[..n], g)
              + if run[n].mints != [] && g == AssignedId(c, lim, |run[n].mints|) && g !in c.minted then |SpendersOf(run[n].spends, g)| else 0
  {
    var n := |run| - 1;
    var p, l := LiveRun(lim, run[..n]), LiveRun(lim, run);
    BothStep(lim, run);
    SpendCounts(p.state.spends, p.state.core.minted, run[n].spends, g);
    SpendCounts(BuildFromIndex(lim, p.chain).spends, l.state.core.minted, run[n].spends, g);
  }

  lemma GapEmpty(lim: Limits, run: seq<BlockInfo>, g: int)
    requires run == []
    ensures Gap(lim, run, g) == 0
  {
  }

  lemma {:induction false} GapNonNegative(lim: Limits, run: seq<BlockInfo>, g: int)
    requires FirstMintsFit(lim, run)
    ensures Gap(lim, run, g) >= 0
  {
    hide Gap, LiveRun, BuildFromIndex;
    if run == [] {
      GapEmpty(lim, run, g);
    } else {
      GapStep(lim, run, g);
      FitsPrefix(lim, run, |run| - 1);
      GapNonNegative(lim, run[..|run| - 1], g);
    }
  }

  ghost predicate OpensAt(lim: Limits, run: seq<BlockInfo>, i: nat, g: int)
    requires i < |run|
  {
    var c := LiveRun(lim, run[..i]).state.core;
    SpendsOwnNewGroup(c, lim, run[i]) && g == AssignedId(c, lim, |run[i].mints|)
  }

  lemma OpensAtPrefix(lim: Limits, run: seq<BlockInfo>, i: nat, g: int)
    requires i < |run| && OpensAt(lim, run, i, g)
    ensures OpensAt(lim, run[..i + 1], i, g)
  {
    assert run[..i + 1][..i] == run[..i];
  }

  lemma GapOpens(lim: Limits, run: seq<BlockInfo>, g: int)
    requires run != [] && FirstMintsFit(lim, run) && OpensAt(lim, run, |run| - 1, g)
    ensures Gap(lim, run, g) > 0
  {
    hide Gap, LiveRun, BuildFromIndex;
    var n := |run| - 1;
    GapStep(lim, run, g);
    FitsPrefix(lim, run, n);
    GapNonNegative(lim, run[..n], g);
    HasSpender(run[n].spends, g);
  }

  lemma {:induction false} GapStays(lim: Limits, run: seq<BlockInfo>, m: nat, g: int)
    requires m <= |run| && FirstMintsFit(lim, run) && Gap(lim, run[..m], g) > 0
    ensures Gap(lim, run, g) > 0
  {
    hide Gap, LiveRun;
    var n := |run| - 1;
    if m <= n {
      FitsPrefix(lim, run, n);
      assert run[..n][..m] == run[..m];
      GapStays(lim, run[..n], m, g);
      GapStep(lim, run, g);
    } else {
      assert run[..m] == run;
    }
  }

  /** A spend of a group opened by its own block is counted on replay only, and for good. */
  lemma OwnGroupSpendDiffers(lim: Limits, run: seq<BlockInfo>, i: nat, g: int)
    requires i < |run| && FirstMintsFit(lim, run) && OpensAt(lim, run, i, g)
    ensures Gap(lim, run, g) > 0
  {
    hide Gap, LiveRun, OpensAt, FirstMintsFit;
    FitsPrefix(lim, run, i + 1);
    OpensAtPrefix(lim, run, i, g);
    GapOpens(lim, run[..i + 1], g);
    GapStays(lim, run, i + 1, g);
  }

  lemma SpendsKnownPrefix(lim: Limits, run: seq<BlockInfo>, n: nat)
    requires SpendsKnownGroups(lim, run) && n <= |run|
    ensures SpendsKnownGroups(lim, run[..n])
  {
    hide LiveRun, SpendsOwnNewGroup;
    forall i | 0 <= i < n ensures !SpendsOwnNewGroup(LiveRun(lim, run[..n][..i]).state.core, lim, run[..n][i]) {
      assert run[..n][..i] == run[..i];
    }
  }

  lemma SameSpendsAt(lim: Limits, run: seq<BlockInfo>)
    requires run != [] && FirstMintsFit(lim, run)
    requires !SpendsOwnNewGroup(LiveRun(lim, run[..|run| - 1]).state.core, lim, run[|run| - 1])
    ensures var n := |run| - 1;
            var p, l := LiveRun(lim, run[..n]), LiveRun(lim, run);
            forall sp :: SpendAll(sp, p.state.core.minted, run[n].spends) == SpendAll(sp, l.state.core.minted, run[n].spends)
  {
    var n := |run| - 1;
    var p, l, spends := LiveRun(lim, run[..n]), LiveRun(lim, run), run[n].spends;
    BothStep(lim, run);
    forall k | k in spends ensures spends[k] in p.state.core.minted <==> spends[k] in l.state.core.minted {
      var g := spends[k];
      assert g in spends.Values;
      if g in l.state.core.minted && g !in p.state.core.minted {
        assert false;
      }
    }
    forall sp { SameSpends(sp, p.state.core.minted, l.state.core.minted, spends); }
  }

  lemma {:induction false} SpendsRebuilt(lim: Limits, run: seq<BlockInfo>)
    requires FirstMintsFit(lim, run) && SpendsKnownGroups(lim, run)
    ensures BuildFromIndex(lim, LiveRun(lim, run).chain).spends == LiveRun(lim, run).state.spends
  {
    if run != [] {
      var n := |run| - 1;
      BothStep(lim, run);
      SpendsKnownPrefix(lim, run, n);
      SpendsRebuilt(lim, run[..n]);
      SameSpendsAt(lim, run);
    }
  }

  // An oversized first block leaves an empty group 1 behind that replay never creates

  ghost predicate NoGroupOne(chain: seq<BlockEntry>) {
    forall h :: 0 <= h < |chain| ==> 1 !in chain[h].minted
  }

  lemma {:induction false} ReplayGroupsKeys(c: Core, lim: Limits, chain: seq<BlockEntry>, h: nat, ids: seq<int>)
    requires KnownBlocks(c.groups, chain) && h < |chain|
    requires forall i :: 0 <= i < |ids| ==> ids[i] in chain[h].minted
    requires 1 !in chain[h].minted && 1 !in c.groups
    ensures 1 !in ReplayGroups(c, lim, chain, h, ids).groups
    decreases |ids|
  {
    if ids != [] {
      var c' := ReplayGroup(c, lim, chain, h, ids[0], chain[h].minted[ids[0]]);
      if chain[h].minted[ids[0]] != [] {
        MintAllGroups(ReopenGroup(c, lim, chain, h, ids[0], |chain[h].minted[ids[0]]|), chain[h].minted[ids[0]], ids[0], h);
      }
      ReplayGroupsKeys(c', lim, chain, h, ids[1..]);
    }
  }

  lemma {:induction false} ReplayHasNoGroupOne(lim: Limits, chain: seq<BlockEntry>)
    requires NoGroupOne(chain)
    ensures 1 !in BuildFromIndex(lim, chain).core.groups
  {
    if chain != [] {
      var n := |chain| - 1;
      ReplayHasNoGroupOne(lim, chain[..n]);
      AscendingWithin(chain[n].minted.Keys);
      ReplayGroupsKeys(BuildFromIndex(lim, chain[..n]).core, lim, chain, n, Ascending(chain[n].minted.Keys));
    }
  }

  lemma {:induction false} QuietRunHasNoGroupOne(lim: Limits, run: seq<BlockInfo>)
    requires NoneMint(run)
    ensures NoGroupOne(LiveRun(lim, run).chain) && LiveRun(lim, run).state.core.groups == map[]
  {
    if run != [] {
      RunStep(lim, run);
      QuietRunHasNoGroupOne(lim, run[..|run| - 1]);
    }
  }

  lemma OversizedStep(s: State, lim: Limits, chain: seq<BlockEntry>, b: BlockInfo)
    requires KnownBlocks(s.core.groups, chain) && NoGroupOne(chain)
    requires || (s.core.latest >= 2 && 1 in s.core.groups)
             || (s.core.latest == 0 && s.core.groups == map[] && b.mints != [] && |b.mints| > lim.maxCoinInGroup)
    ensures var r := Connect(s, lim, chain, b); r.core.latest >= 2 && 1 in r.core.groups
    ensures NoGroupOne(chain + [EntryOf(s.core, lim, b)])
  {
    if b.mints != [] {
      MintAllGroups(OpenGroup(s.core, lim, chain, |b.mints|), b.mints, AssignedId(s.core, lim, |b.mints|), |chain|);
    }
  }

  lemma {:induction false} OversizedFirstDiffers(lim: Limits, run: seq<BlockInfo>)
    requires !FirstMintsFit(lim, run)
    ensures var l := LiveRun(lim, run); l.state.core.latest >= 2 && 1 in l.state.core.groups && NoGroupOne(l.chain)
    decreases |run|
  {
    hide LiveRun, Connect;
    var n := |run| - 1;
    var p := LiveRun(lim, run[..n]);
    RunStep(lim, run);
    if !FirstMintsFit(lim, run[..n]) {
      OversizedFirstDiffers(lim, run[..n]);
    } else {
      forall i | 0 <= i < n && run[i].mints != [] && (forall j :: 0 <= j < i ==> run[j].mints == []) ensures |run[i].mints| <= lim.maxCoinInGroup {
        FirstMintFits(lim, run, n, i);
      }
      var i :| 0 <= i < |run| && run[i].mints != [] && (forall j :: 0 <= j < i ==> run[j].mints == []) && |run[i].mints| > lim.maxCoinInGroup;
      assert i == n;
      assert NoneMint(run[..n]);
      LatestIffMinted(lim, run[..n]);
      QuietRunHasNoGroupOne(lim, run[..n]);
    }
    OversizedStep(p.state, lim, p.chain, run[n]);
  }

  /** Main result: rebuilding from the index gives back exactly the live state (groups, latest id,
      mints, tags, borrowed counts, spends and their counts, hence the surge flag) if and only if the
      first minting block fits a group and no block spends from the group its own mints open. */
  lemma ReplayRebuildsLiveState(lim: Limits, run: seq<BlockInfo>)
    ensures var l := LiveRun(lim, run);
            BuildFromIndex(lim, l.chain) == l.state <==> FirstMintsFit(lim, run) && SpendsKnownGroups(lim, run)
  {
    var l := LiveRun(lim, run);
    if !FirstMintsFit(lim, run) {
      OversizedFirstDiffers(lim, run);
      ReplayHasNoGroupOne(lim, l.chain);
    } else if SpendsKnownGroups(lim, run) {
      CoreRebuilt(lim, run);
      SpendsRebuilt(lim, run);
    } else {
      var i :| 0 <= i < |run| && SpendsOwnNewGroup(LiveRun(lim, run[..i]).state.core, lim, run[i]);
      OwnGroupSpendDiffers(lim, run, i, AssignedId(LiveRun(lim, run[..i]).state.core, lim, |run[i].mints|));
    }
  }
}
