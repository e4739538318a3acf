/** The Lelantus state object: its updates and walks, each proved against the functions of Lelantus. */
module LelantusState {
  import opened Wrappers
  import opened Sets
  import opened Surge
  import opened Lelantus
  import opened LelantusReplay

  /** A group without coins has no blocks, one with coins has both. */
  predicate Linked(groups: map<int, GroupInfo>) {
    forall g :: g in groups ==>
      && (groups[g].nCoins == 0 ==> groups[g].first.None? && groups[g].last.None?)
      && (groups[g].nCoins > 0 ==> groups[g].first.Some? && groups[g].last.Some?)
  }

  lemma SetGroup(groups: map<int, GroupInfo>, chain: seq<BlockEntry>, id: int, g: GroupInfo)
    requires KnownBlocks(groups, chain) && Linked(groups)
    requires g.nCoins > 0 && g.first.Some? && g.last.Some? && g.last.value < |chain|
    ensures KnownBlocks(groups[id := g], chain) && Linked(groups[id := g])
  {
  }

  lemma SameGroup(groups: map<int, GroupInfo>, chain: seq<BlockEntry>, id: int)
    requires KnownBlocks(groups, chain) && Linked(groups)
    ensures KnownBlocks(groups[id := GroupAt(groups, id)], chain) && Linked(groups[id := GroupAt(groups, id)])
  {
  }

  function Allowed(coins: seq<Coin>, blacklist: set<PublicCoin>): seq<Coin> {
    if coins == [] then []
    else (if coins[0].pub in blacklist then [] else [coins[0]]) + Allowed(coins[1..], blacklist)
  }

  /** The latest block between lo and hi that contributes to the set of group id, and the group its coins are
      of: where the block hash and the set hash are taken. */
  ghost predicate LatestMet(chain: seq<BlockEntry>, id: int, lo: nat, hi: int, latest: Option<(nat, int)>)
    requires hi <= |chain|
  {
    match latest
    case None => forall k :: lo <= k < hi ==> WalkCoins(chain[k], id) == []
    case Some((h, g)) =>
      && lo <= h < hi && g == WalkId(chain[h], id) != 0 && WalkCoins(chain[h], id) != []
      && forall k :: h < k < hi ==> WalkCoins(chain[k], id) == []
  }

  lemma LatestLower(chain: seq<BlockEntry>, id: int, lo: nat, hi: int, latest: Option<(nat, int)>)
    requires lo < hi <= |chain| && LatestMet(chain, id, lo + 1, hi, latest)
    ensures WalkCoins(chain[lo], id) == [] <==> WalkId(chain[lo], id) == 0
    ensures LatestMet(chain, id, lo, hi, if latest.None? && WalkCoins(chain[lo], id) != [] then Some((lo, WalkId(chain[lo], id))) else latest)
  {
  }

  lemma {:induction false} AllowedConcat(a: seq<Coin>, b: seq<Coin>, blacklist: set<PublicCoin>)
    ensures Allowed(a + b, blacklist) == Allowed(a, blacklist) + Allowed(b, blacklist)
    decreases |a|
  {
    if a == [] {
      assert a + b == b;
    } else {
      assert (a + b)[1..] == a[1..] + b;
      AllowedConcat(a[1..], b, blacklist);
    }
  }

  /** What the walk has gathered once it has passed height lo. */
  ghost predicate Gathered(chain: seq<BlockEntry>, id: int, blacklist: set<PublicCoin>, lo: nat, hi: int,
                           count: nat, coins: seq<Coin>, latest: Option<(nat, int)>)
    requires hi <= |chain|
  {
    var met := if lo < hi then Walk(chain, id, lo, hi) else [];
    && count == |met| && coins == Allowed(met, blacklist)
    && LatestMet(chain, id, lo, hi, latest) && (count == 0 <==> latest.None?)
  }

  lemma GatheredNone(chain: seq<BlockEntry>, id: int, blacklist: set<PublicCoin>, hi: int)
    requires hi <= |chain|
    ensures forall lo: nat :: lo >= hi ==> Gathered(chain, id, blacklist, lo, hi, 0, [], None)
  {
  }

  lemma GatheredIs(chain: seq<BlockEntry>, id: int, blacklist: set<PublicCoin>, lo: nat, hi: int,
                   count: nat, coins: seq<Coin>, latest: Option<(nat, int)>)
    requires 0 <= hi <= |chain| && Gathered(chain, id, blacklist, lo, hi, count, coins, latest)
    ensures count == |Walk(chain, id, lo, hi)| && coins == Allowed(Walk(chain, id, lo, hi), blacklist) && LatestMet(chain, id, lo, hi, latest)
  {
  }

  lemma GatherMore(chain: seq<BlockEntry>, id: int, blacklist: set<PublicCoin>, lo: nat, hi: int,
                   count: nat, coins: seq<Coin>, latest: Option<(nat, int)>)
    requires lo < hi <= |chain| && Gathered(chain, id, blacklist, lo + 1, hi, count, coins, latest)
    ensures var w, found := WalkId(chain[lo], id), WalkCoins(chain[lo], id);
            Gathered(chain, id, blacklist, lo, hi, count + |found|, coins + Allowed(found, blacklist),
                     if w != 0 && count == 0 then Some((lo, w)) else latest)
  {
    hide WalkCoins, WalkId, LatestMet;
    var found := WalkCoins(chain[lo], id);
    var met := if lo + 1 < hi then Walk(chain, id, lo + 1, hi) else [];
    LatestLower(chain, id, lo, hi, latest);
    AllowedConcat(met, found, blacklist);
    WalkLower(chain, id, lo, hi);
  }

  lemma {:induction false} WalkLower(chain: seq<BlockEntry>, id: int, lo: nat, hi: nat)
    requires lo < hi <= |chain|
    ensures Walk(chain, id, lo, hi) == Walk(chain, id, lo + 1, hi) + WalkCoins(chain[lo], id)
    decreases hi
  {
    if lo + 1 < hi { WalkLower(chain, id, lo, hi - 1); }
  }

  ghost predicate Processed<K, V>(m: map<K, V>, rest: set<K>, done: map<K, V>) {
    done.Keys == m.Keys - rest && forall k :: k in done ==> done[k] == m[k]
  }

  lemma ProcessedNone<K, V>(m: map<K, V>)
    ensures Processed(m, m.Keys, map[])
  {
  }

  lemma ProcessedMore<K, V>(m: map<K, V>, rest: set<K>, done: map<K, V>, k: K)
    requires Processed(m, rest, done) && k in rest && rest <= m.Keys
    ensures k !in done && Processed(m, rest - {k}, done[k := m[k]])
  {
  }

  lemma AllProcessed<K, V>(m: map<K, V>, done: map<K, V>)
    requires Processed(m, {}, done)
    ensures done == m
  {
  }

  class CoinState {
    const lim: Limits
    var coinGroups: map<int, GroupInfo>
    var latestCoinId: int
    var mintedPubCoins: map<PublicCoin, CoinInfo>
    var tagToPublicCoin: map<Tag, PublicCoin>
    var usedCoinSerials: map<Scalar, int>
    var extendedMintMetaInfo: map<int, nat>
    var mintMetaInfo: map<int, nat>
    var spendMetaInfo: map<int, nat>
    var surgeCondition: bool
    /** The index entries of the active chain, by height. */
    var index: seq<BlockEntry>

    ghost function CoreNow(): Core
      reads this
    {
      Core(coinGroups, latestCoinId, mintedPubCoins, tagToPublicCoin, extendedMintMetaInfo, mintMetaInfo)
    }

    ghost function SpendsNow(): Spends
      reads this
    {
      Spends(usedCoinSerials, spendMetaInfo)
    }

    ghost function Snapshot(): State
      reads this
    {
      State(CoreNow(), SpendsNow())
    }

    /** The surge flag is up to date. */
    ghost predicate Flagged()
      reads this
    {
      surgeCondition == Flag(Snapshot())
    }

    ghost predicate Valid()
      reads this
    {
      Flagged() && KnownBlocks(coinGroups, index) && Linked(coinGroups)
    }

    constructor (lim: Limits)
      ensures Valid() && Snapshot() == FreshState() && index == [] && this.lim == lim
    {
      this.lim := lim;
      coinGroups, latestCoinId, index := map[], 0, [];
      mintedPubCoins, tagToPublicCoin, usedCoinSerials := map[], map[], map[];
      extendedMintMetaInfo, mintMetaInfo, spendMetaInfo := map[], map[], map[];
      surgeCondition := false;
    }

    /** One pass over the groups in id order. */
    method CheckSurgeCondition()
      modifies this`surgeCondition
      ensures Flagged()
    {
      hide Scan, Totals, Ascending, AddSize, SubSize, Lookup;
      var result := false;
      var serials: nat, mints: nat := 0, 0;
      var rest := mintMetaInfo.Keys;
      ghost var whole := Flag(Snapshot());
      while rest != {} && !result
        invariant rest <= mintMetaInfo.Keys
        invariant result ==> whole
        invariant !result ==>
          whole == Scan(Totals(Ascending(rest), mintMetaInfo, spendMetaInfo, extendedMintMetaInfo), serials, mints)
        decreases |rest|, !result
      {
        var id := First(rest);
        ScanNext(rest, id, mintMetaInfo, spendMetaInfo, extendedMintMetaInfo, serials, mints);
        rest := rest - {id};
        serials := AddSize(serials, Lookup(spendMetaInfo, id));
        mints := AddSize(mints, Lookup(mintMetaInfo, id));
        if serials > mints {
          result := true;
        } else {
          var extendedMints := Lookup(extendedMintMetaInfo, id + 1);
          if serials <= SubSize(mints, extendedMints) {
            serials, mints := 0, extendedMints;
          }
        }
      }
      ScanNone(mintMetaInfo, spendMetaInfo, extendedMintMetaInfo, serials, mints);
      surgeCondition := result;
    }

    method AddMint(coin: Coin, id: int, h: nat)
      modifies this`mintedPubCoins, this`tagToPublicCoin, this`mintMetaInfo, this`surgeCondition
      ensures Flagged()
      ensures CoreNow() == MintOne(old(CoreNow()), coin, id, h)
    {
      mintedPubCoins := InsertNew(mintedPubCoins, coin.pub, CoinInfo(id, h));
      tagToPublicCoin := InsertNew(tagToPublicCoin, coin.tag, coin.pub);
      mintMetaInfo := mintMetaInfo[id := Lookup(mintMetaInfo, id) + 1];
      CheckSurgeCondition();
    }

    method AddSpend(serial: Scalar, id: int)
      requires Flagged()
      modifies this`usedCoinSerials, this`spendMetaInfo, this`surgeCondition
      ensures Flagged()
      ensures SpendsNow() == SpendOne(old(SpendsNow()), mintMetaInfo, serial, id)
    {
      if id in mintMetaInfo {
        usedCoinSerials := usedCoinSerials[serial := id];
        spendMetaInfo := spendMetaInfo[id := Lookup(spendMetaInfo, id) + 1];
        CheckSurgeCondition();
      }
    }

    method AddExtendedMints(group: int, mints: nat)
      modifies this`extendedMintMetaInfo, this`surgeCondition
      ensures extendedMintMetaInfo == old(extendedMintMetaInfo)[group := mints]
      ensures Flagged()
    {
      extendedMintMetaInfo := extendedMintMetaInfo[group := mints];
      CheckSurgeCondition();
    }

    /** Walks back from the group's last block until enough coins are met. */
    method CountLastNCoins(groupId: int, required: nat, ghost upTo: nat) returns (coins: nat, first: Option<nat>)
      requires upTo <= |index| && KnownBlocks(coinGroups, index[..upTo])
      ensures (coins, first) == CountLast(coinGroups, index[..upTo], groupId, required)
    {
      first, coins := None, 0;
      if groupId in coinGroups && coinGroups[groupId].last.Some? {
        var block: int := coinGroups[groupId].last.value;
        assert block < |index[..upTo]|;
        while coins < required && block >= 0
          invariant -1 <= block < upTo
          invariant CountDown(index[..upTo], groupId, coinGroups[groupId].last.value, required, 0, None)
                 == CountDown(index[..upTo], groupId, block, required, coins, first)
        {
          var inBlock := CoinCount(index[block], groupId);
          if inBlock > 0 {
            coins := coins + inBlock;
            first := Some(block);
          }
          block := block - 1;
        }
      }
    }

    method AddAllMints(mints: seq<Coin>, id: int, h: nat)
      requires Flagged()
      modifies this`mintedPubCoins, this`tagToPublicCoin, this`mintMetaInfo, this`surgeCondition
      ensures Flagged()
      ensures CoreNow() == MintAll(old(CoreNow()), mints, id, h)
    {
      for i := 0 to |mints|
        invariant Flagged()
        invariant MintAll(CoreNow(), mints[i..], id, h) == MintAll(old(CoreNow()), mints, id, h)
      {
        assert mints[i..][1..] == mints[i + 1..];
        AddMint(mints[i], id, h);
      }
      assert mints[|mints|..] == [];
    }

    /** In whatever order the hash table yields the serials. */
    method AddAllSpends(spends: map<Scalar, int>)
      requires Flagged()
      modifies this`usedCoinSerials, this`spendMetaInfo, this`surgeCondition
      ensures Flagged()
      ensures SpendsNow() == SpendAll(old(SpendsNow()), mintMetaInfo, spends)
    {
      hide SpendAll, SpendOne, SurgeFlag, Processed;
      var rest := spends.Keys;
      ghost var done: map<Scalar, int> := map[];
      ProcessedNone(spends);
      SpendNone(SpendsNow(), mintMetaInfo);
      while rest != {}
        invariant Flagged()
        invariant rest <= spends.Keys && Processed(spends, rest, done)
        invariant SpendsNow() == SpendAll(old(SpendsNow()), mintMetaInfo, done)
        decreases |rest|
      {
        var serial := PickAny(rest);
        ProcessedMore(spends, rest, done, serial);
        SpendMore(old(SpendsNow()), mintMetaInfo, done, serial, spends[serial]);
        AddSpend(serial, spends[serial]);
        rest, done := rest - {serial}, done[serial := spends[serial]];
      }
      AllProcessed(spends, done);
    }

    /** Opens the next group with the last coins of the latest one. */
    method OpenNextGroup(n: nat)
      requires Valid() && n > 0 && index != [] && KnownBlocks(coinGroups, index[..|index| - 1])
      requires latestCoinId >= 1
      modifies this`latestCoinId, this`coinGroups, this`extendedMintMetaInfo, this`surgeCondition
      ensures Valid()
      ensures var h := |index| - 1;
              var (coins, first) := CountLast(old(coinGroups), index[..h], old(latestCoinId), lim.startGroupSize);
              && latestCoinId == old(latestCoinId) + 1
              && coinGroups == old(coinGroups)[old(latestCoinId) := GroupAt(old(coinGroups), old(latestCoinId))]
                                              [latestCoinId := GroupInfo(Some(first.GetOr(h)), Some(h), coins + n)]
              && extendedMintMetaInfo == old(extendedMintMetaInfo)[latestCoinId := coins]
    {
      hide SurgeFlag, CountLast, Linked, KnownBlocks;
      var h := |index| - 1;
      var coinGroup := GroupAt(coinGroups, latestCoinId);
      var coins, first := CountLastNCoins(latestCoinId, lim.startGroupSize, h);
      SameGroup(coinGroups, index, latestCoinId);
      coinGroups := coinGroups[latestCoinId := coinGroup];
      SetGroup(coinGroups, index, latestCoinId + 1, GroupInfo(Some(first.GetOr(h)), Some(h), coins + n));
      latestCoinId := latestCoinId + 1;
      coinGroups := coinGroups[latestCoinId := GroupInfo(Some(first.GetOr(h)), Some(h), coins + n)];
      AddExtendedMints(latestCoinId, coins);
    }

    /** Adds the n mints of the top block to the latest group. */
    method ExtendGroup(n: nat)
      requires Valid() && n > 0 && index != []
      modifies this`coinGroups
      ensures Valid()
      ensures var g, h := GroupAt(old(coinGroups), latestCoinId), |index| - 1;
              coinGroups == old(coinGroups)[latestCoinId := GroupInfo(if g.nCoins == 0 then Some(h) else g.first, Some(h), g.nCoins + n)]
    {
      var h := |index| - 1;
      var coinGroup := GroupAt(coinGroups, latestCoinId);
      if coinGroup.nCoins == 0 {
        assert coinGroup.first.None? && coinGroup.last.None?;
        coinGroup := coinGroup.(first := Some(h), last := Some(h));
      } else {
        assert coinGroup.first.Some? && coinGroup.last.Some? && coinGroup.last.value <= h;
        coinGroup := coinGroup.(last := Some(h));
      }
      coinGroups := coinGroups[latestCoinId := coinGroup.(nCoins := coinGroup.nCoins + n)];
    }

    /** Decides which group the n mints of the top block belong to, opening a new one if they do not fit. */
    method AssignGroup(n: nat)
      requires Valid() && n > 0 && index != [] && KnownBlocks(coinGroups, index[..|index| - 1])
      modifies this`latestCoinId, this`coinGroups, this`extendedMintMetaInfo, this`surgeCondition
      ensures Valid()
      ensures CoreNow() == OpenGroup(old(CoreNow()), lim, index[..|index| - 1], n)
    {
      hide SurgeFlag, CountLast, Linked, KnownBlocks;
      latestCoinId := if latestCoinId < 1 then 1 else latestCoinId;
      if GroupAt(coinGroups, latestCoinId).nCoins + n <= lim.maxCoinInGroup {
        ExtendGroup(n);
      } else {
        OpenNextGroup(n);
      }
    }

    /** Assigns a group id to the mints of the block just put on top of the index. */
    method AddMintsToStateAndBlockIndex(mints: seq<Coin>)
      requires Valid() && mints != [] && index != [] && index[|index| - 1].minted == map[]
      requires KnownBlocks(coinGroups, index[..|index| - 1])
      modifies this
      ensures Valid()
      ensures |index| == |old(index)|
      ensures var h := |index| - 1;
              && index == old(index)[h := BlockEntry(map[AssignedId(old(CoreNow()), lim, |mints|) := mints], old(index)[h].spent)]
              && CoreNow() == ConnectMints(old(CoreNow()), lim, old(index)[..h], mints)
      ensures SpendsNow() == old(SpendsNow())
    {
      hide SurgeFlag, Linked, CountLast, MintAll;
      var h := |index| - 1;
      AssignGroup(|mints|);
      AddAllMints(mints, latestCoinId, h);
      index := index[h := index[h].(minted := map[latestCoinId := mints])];
    }

    /** Connecting a block: spends first, then mints. */
    method ConnectBlock(b: BlockInfo)
      requires Valid()
      modifies this
      ensures Valid()
      ensures Snapshot() == Connect(old(Snapshot()), lim, old(index), b)
      ensures index == old(index) + [EntryOf(old(CoreNow()), lim, b)]
    {
      hide SurgeFlag, SpendAll, ConnectMints, Linked;
      index := index + [BlockEntry(map[], b.spends)];
      AddAllSpends(b.spends);
      assert index[..|index| - 1] == old(index);
      if b.mints != [] {
        AddMintsToStateAndBlockIndex(b.mints);
      }
    }

    /** The group n coins of block h belong to, opened if it is not known yet. */
    method ReopenFor(h: nat, id: int, n: nat)
      requires Valid() && h < |index| && n > 0
      modifies this`latestCoinId, this`coinGroups, this`extendedMintMetaInfo, this`surgeCondition
      ensures Valid()
      ensures CoreNow() == ReopenGroup(old(CoreNow()), lim, index, h, id, n)
    {
      hide SurgeFlag, CountLast, Linked, KnownBlocks;
      var coinGroup := GroupAt(coinGroups, id);
      if coinGroup.first.None? {
        coinGroup := coinGroup.(first := Some(h));
        if id > 1 {
          assert index[..|index|] == index;
          var nCoins, first := CountLastNCoins(id - 1, lim.startGroupSize, |index|);
          coinGroup := coinGroup.(nCoins := nCoins, first := Some(first.GetOr(h)));
          AddExtendedMints(id, coinGroup.nCoins);
        }
      }
      coinGroup := coinGroup.(last := Some(h), nCoins := coinGroup.nCoins + n);
      SetGroup(coinGroups, index, id, coinGroup);
      coinGroups := coinGroups[id := coinGroup];
      latestCoinId := id;
      CheckSurgeCondition();
    }

    /** AddBlock's treatment of one group's coins in block h. */
    method ReplayCoins(h: nat, id: int, coins: seq<Coin>)
      requires Valid() && h < |index| && coins != []
      modifies this`latestCoinId, this`coinGroups, this`extendedMintMetaInfo, this`surgeCondition,
               this`mintedPubCoins, this`tagToPublicCoin, this`mintMetaInfo
      ensures Valid()
      ensures CoreNow() == ReplayGroup(old(CoreNow()), lim, index, h, id, coins)
    {
      hide SurgeFlag, MintAll, ReopenGroup, Linked, KnownBlocks;
      ReopenFor(h, id, |coins|);
      MintAllGroups(CoreNow(), coins, id, h);
      AddAllMints(coins, id, h);
    }

    /** Adds everything the index entry at height h records: mints by group, then spends. */
    method AddBlock(h: nat)
      requires Valid() && h < |index|
      modifies this
      ensures Valid() && index == old(index)
      ensures Snapshot() == Replay(old(Snapshot()), lim, index, h)
    {
      hide SurgeFlag, MintAll, CountLast, SpendAll, Linked, KnownBlocks;
      ghost var ids := Ascending(index[h].minted.Keys);
      AscendingWithin(index[h].minted.Keys);
      var rest := index[h].minted.Keys;
      while rest != {}
        invariant Valid() && index == old(index) && SpendsNow() == old(SpendsNow())
        invariant rest <= index[h].minted.Keys
        invariant forall i :: 0 <= i < |Ascending(rest)| ==> Ascending(rest)[i] in index[h].minted
        invariant ReplayGroups(CoreNow(), lim, index, h, Ascending(rest))
               == ReplayGroups(old(CoreNow()), lim, index, h, ids)
        decreases |rest|
      {
        var id := First(rest);
        AscendingWithin(rest - {id});
        assert Ascending(rest)[1..] == Ascending(rest - {id});
        if index[h].minted[id] != [] {
          ReplayCoins(h, id, index[h].minted[id]);
        }
        rest := rest - {id};
      }
      AddAllSpends(index[h].spent);
    }

    /** Rebuilds the state of a fresh object from the index of a whole chain. */
    method BuildFromIndexOf(chain: seq<BlockEntry>)
      requires Valid() && Snapshot() == FreshState()
      modifies this
      ensures Valid() && index == chain
      ensures Snapshot() == BuildFromIndex(lim, chain)
    {
      hide SurgeFlag, Replay;
      index := chain;
      for h := 0 to |chain|
        invariant Valid() && index == chain
        invariant Snapshot() == BuildFromIndex(lim, chain[..h])
      {
        assert chain[..h + 1][..h] == chain[..h];
        ReplayPrefix(Snapshot(), lim, chain, h);
        AddBlock(h);
      }
      assert chain[..|chain|] == chain;
    }

    /** The coins of a group's anonymity set, newest block first: walks from the last block to the first,
        passing over blocks above maxHeight, stopping at block `start`, and leaving blacklisted coins out
        of the set but in the count. `latest` is the block and group whose hashes are handed out. `ok` is false
        when the walk would run past the genesis block. */
    method GetCoinSetForSpend(maxHeight: int, id: int, start: Option<nat>, blacklist: set<PublicCoin>)
      returns (ok: bool, numberOfCoins: nat, coins: seq<Coin>, latest: Option<(nat, int)>)
      requires id in coinGroups ==> GroupOk(index, id, coinGroups[id])
      ensures id !in coinGroups ==> ok && numberOfCoins == 0 && coins == [] && latest == None
      ensures id in coinGroups ==>
                var first, last := coinGroups[id].first.value, coinGroups[id].last.value;
                var hi := if maxHeight < last then maxHeight + 1 else last + 1;
                var stopped := start.Some? && start.value < hi && (start.value >= first || hi <= first);
                && (ok <==> maxHeight >= first || stopped)
                && (ok ==> var lo := if stopped then start.value + 1 else first; var met := Walk(index, id, lo, hi);
                           numberOfCoins == |met| && coins == Allowed(met, blacklist) && LatestMet(index, id, lo, hi, latest))
    {
      hide WalkCoins, WalkId, LatestMet, Gathered, Walk, Allowed;
      coins, numberOfCoins, latest := [], 0, None;
      if id !in coinGroups {
        return true, 0, [], None;
      }
      var first, last := coinGroups[id].first.value, coinGroups[id].last.value;
      ghost var hi := if maxHeight < last then maxHeight + 1 else last + 1;
      ghost var stopped := start.Some? && start.value < hi && (start.value >= first || hi <= first);
      var block: int := last;
      GatheredNone(index, id, blacklist, hi);
      while block >= 0
        invariant -1 <= block <= last
        invariant Gathered(index, id, blacklist, block + 1, hi, numberOfCoins, coins, latest)
        invariant block + 1 >= hi ==> numberOfCoins == 0 && coins == [] && latest == None
        invariant hi > first ==> block >= first
        invariant stopped ==> block >= start.value
        decreases block + 1
      {
        if block <= maxHeight {
          if start == Some(block) {
            GatheredIs(index, id, blacklist, block + 1, hi, numberOfCoins, coins, latest);
            return true, numberOfCoins, coins, latest;
          }
          GatherMore(index, id, blacklist, block, hi, numberOfCoins, coins, latest);
          var found, w := WalkCoins(index[block], id), WalkId(index[block], id);
          if w != 0 && numberOfCoins == 0 {
            latest := Some((block, w));
          }
          numberOfCoins := numberOfCoins + |found|;
          coins := coins + Allowed(found, blacklist);
          if block == first {
            GatheredIs(index, id, blacklist, block, hi, numberOfCoins, coins, latest);
            return true, numberOfCoins, coins, latest;
          }
        }
        block := block - 1;
      }
      return false, 0, [], None;
    }
  }
}
