/** Lelantus coin groups: how mints are assigned to overlapping numbered groups when a block is
    connected, and how the same state is rebuilt from the block index.

    The active chain is a sequence of index entries; a block is named by its height, so `pprev` is
    height - 1 and a null pointer is None.
 */
module Lelantus {
  import opened Wrappers
  import opened Sets
  import opened Surge

  type PublicCoin = nat
  type Tag = nat
  type Scalar = nat

  datatype Coin = Coin(pub: PublicCoin, tag: Tag)
  datatype CoinInfo = CoinInfo(coinGroupId: int, nHeight: nat)

  /** The Lelantus part of a block index entry. */
  datatype BlockEntry = BlockEntry(minted: map<int, seq<Coin>>, spent: map<Scalar, int>)

  datatype GroupInfo = GroupInfo(first: Option<nat>, last: Option<nat>, nCoins: nat)

  datatype Limits = Limits(maxCoinInGroup: nat, startGroupSize: nat)

  /** Everything mints determine. */
  datatype Core = Core(groups: map<int, GroupInfo>, latest: int,
                       mints: map<PublicCoin, CoinInfo>, tags: map<Tag, PublicCoin>,
                       ext: map<int, nat>, minted: map<int, nat>)

  /** Everything spends determine. */
  datatype Spends = Spends(serials: map<Scalar, int>, spent: map<int, nat>)

  datatype State = State(core: Core, spends: Spends)

  function FreshState(): State {
    State(Core(map[], 0, map[], map[], map[], map[]), Spends(map[], map[]))
  }

  ghost function Flag(s: State): bool {
    SurgeFlag(s.core.minted, s.spends.spent, s.core.ext)
  }

  // ---------------------------------------------------------------------------------------------
  // Reading the index

  function CoinCount(e: BlockEntry, id: int): nat {
    if id in e.minted then |e.minted[id]| else 0
  }

  /** Coins of group id minted at heights lo, ..., hi - 1. */
  function CoinsOf(chain: seq<BlockEntry>, id: int, lo: nat, hi: nat): nat
    requires hi <= |chain|
    decreases hi
  {
    if hi <= lo then 0 else CoinsOf(chain, id, lo, hi - 1) + CoinCount(chain[hi - 1], id)
  }

  /** What one block contributes to the anonymity set of group id: the group's own coins if it has any,
      else the previous group's; id 0 stands for none. */
  function WalkId(e: BlockEntry, id: int): int {
    if CoinCount(e, id) > 0 then id else if CoinCount(e, id - 1) > 0 then id - 1 else 0
  }

  function WalkCoins(e: BlockEntry, id: int): seq<Coin> {
    var w := WalkId(e, id);
    if w != 0 && w in e.minted then e.minted[w] else []
  }

  /** Coins met walking heights hi - 1 down to lo for group id, newest block first. */
  function Walk(chain: seq<BlockEntry>, id: int, lo: nat, hi: nat): seq<Coin>
    requires hi <= |chain|
    decreases hi
  {
    if hi <= lo then [] else WalkCoins(chain[hi - 1], id) + Walk(chain, id, lo, hi - 1)
  }

  function WalkCount(chain: seq<BlockEntry>, id: int, lo: nat, hi: nat): nat
    requires hi <= |chain|
  {
    |Walk(chain, id, lo, hi)|
  }

  /** CountLastNCoins from height `top` down, with what was counted so far. */
  function CountDown(chain: seq<BlockEntry>, id: int, top: int, required: nat, coins: nat, first: Option<nat>): (nat, Option<nat>)
    requires -1 <= top < |chain|
    decreases top + 1
  {
    if coins >= required || top < 0 then (coins, first)
    else
      var inBlock := CoinCount(chain[top], id);
      CountDown(chain, id, top - 1, required, coins + inBlock, if inBlock > 0 then Some(top) else first)
  }

  predicate KnownBlocks(groups: map<int, GroupInfo>, chain: seq<BlockEntry>) {
    forall g :: g in groups && groups[g].last.Some? ==> groups[g].last.value < |chain|
  }

  function CountLast(groups: map<int, GroupInfo>, chain: seq<BlockEntry>, id: int, required: nat): (nat, Option<nat>)
    requires KnownBlocks(groups, chain)
  {
    if id in groups && groups[id].last.Some? then CountDown(chain, id, groups[id].last.value, required, 0, None)
    else (0, None)
  }

  // ---------------------------------------------------------------------------------------------
  // Mints

  function InsertNew<K, V>(m: map<K, V>, k: K, v: V): map<K, V> {
    if k in m then m else m[k := v]
  }

  function MintOne(c: Core, coin: Coin, id: int, h: nat): Core {
    c.(mints := InsertNew(c.mints, coin.pub, CoinInfo(id, h)),
       tags := InsertNew(c.tags, coin.tag, coin.pub),
       minted := c.minted[id := Lookup(c.minted, id) + 1])
  }

  function MintAll(c: Core, coins: seq<Coin>, id: int, h: nat): Core
    decreases |coins|
  {
    if coins == [] then c else MintAll(MintOne(c, coins[0], id, h), coins[1..], id, h)
  }

  function GroupAt(groups: map<int, GroupInfo>, id: int): GroupInfo {
    if id in groups then groups[id] else GroupInfo(None, None, 0)
  }

  function FirstId(latest: int): int {
    if latest < 1 then 1 else latest
  }

  /** The id a block's mints get: the latest group while they fit, else a new one. */
  function AssignedId(c: Core, lim: Limits, n: nat): int {
    var id := FirstId(c.latest);
    if GroupAt(c.groups, id).nCoins + n <= lim.maxCoinInGroup then id else id + 1
  }

  /** The group bookkeeping of connecting a block with n mints on top of the chain. */
  function OpenGroup(c: Core, lim: Limits, chain: seq<BlockEntry>, n: nat): Core
    requires KnownBlocks(c.groups, chain)
  {
    var h := |chain|;
    var id := FirstId(c.latest);
    var g := GroupAt(c.groups, id);
    if g.nCoins + n <= lim.maxCoinInGroup then
      c.(latest := id,
         groups := c.groups[id := GroupInfo(if g.nCoins == 0 then Some(h) else g.first, Some(h), g.nCoins + n)])
    else
      var (coins, first) := CountLast(c.groups, chain, id, lim.startGroupSize);
      c.(latest := id + 1,
         groups := c.groups[id := g][id + 1 := GroupInfo(Some(first.GetOr(h)), Some(h), coins + n)],
         ext := c.ext[id + 1 := coins])
  }

  function ConnectMints(c: Core, lim: Limits, chain: seq<BlockEntry>, mints: seq<Coin>): Core
    requires KnownBlocks(c.groups, chain)
  {
    MintAll(OpenGroup(c, lim, chain, |mints|), mints, AssignedId(c, lim, |mints|), |chain|)
  }

  /** AddBlock's treatment of one group's coins in block h. */
  function ReopenGroup(c: Core, lim: Limits, chain: seq<BlockEntry>, h: nat, id: int, n: nat): Core
    requires KnownBlocks(c.groups, chain)
  {
    var g := GroupAt(c.groups, id);
    if g.first.None? && id > 1 then
      var (coins, first) := CountLast(c.groups, chain, id - 1, lim.startGroupSize);
      c.(latest := id,
         groups := c.groups[id := GroupInfo(Some(first.GetOr(h)), Some(h), coins + n)],
         ext := c.ext[id := coins])
    else
      c.(latest := id,
         groups := c.groups[id := GroupInfo(Some(g.first.GetOr(h)), Some(h), g.nCoins + n)])
  }

  function ReplayGroup(c: Core, lim: Limits, chain: seq<BlockEntry>, h: nat, id: int, coins: seq<Coin>): (r: Core)
    requires KnownBlocks(c.groups, chain) && h < |chain|
    ensures KnownBlocks(r.groups, chain)
  {
    if coins == [] then c
    else
      var reopened := ReopenGroup(c, lim, chain, h, id, |coins|);
      MintAllGroups(reopened, coins, id, h);
      MintAll(reopened, coins, id, h)
  }

  function ReplayGroups(c: Core, lim: Limits, chain: seq<BlockEntry>, h: nat, ids: seq<int>): Core
    requires KnownBlocks(c.groups, chain) && h < |chain|
    requires forall i :: 0 <= i < |ids| ==> ids[i] in chain[h].minted
    decreases |ids|
  {
    if ids == [] then c
    else ReplayGroups(ReplayGroup(c, lim, chain, h, ids[0], chain[h].minted[ids[0]]), lim, chain, h, ids[1..])
  }

  lemma {:induction false} MintAllGroups(c: Core, coins: seq<Coin>, id: int, h: nat)
    ensures var r := MintAll(c, coins, id, h);
            && r.groups == c.groups && r.latest == c.latest && r.ext == c.ext
            && (if coins == [] then r.minted == c.minted
                else r.minted == c.minted[id := Lookup(c.minted, id) + |coins|])
    decreases |coins|
  {
    if coins != [] {
      var one := MintOne(c, coins[0], id, h);
      hide InsertNew, MintOne;
      MintAllGroups(one, coins[1..], id, h);
      MintedMore(c, coins[0], id, h, |coins| - 1);
    }
  }

  lemma MintedMore(c: Core, coin: Coin, id: int, h: nat, more: nat)
    ensures var one := MintOne(c, coin, id, h);
            && one.groups == c.groups && one.latest == c.latest && one.ext == c.ext
            && Lookup(one.minted, id) == Lookup(c.minted, id) + 1 && one.minted == c.minted[id := Lookup(c.minted, id) + 1]
            && one.minted[id := Lookup(one.minted, id) + more] == c.minted[id := Lookup(c.minted, id) + 1 + more]
  {
  }

  // ---------------------------------------------------------------------------------------------
  // Spends

  /** The spends that count: those of groups that hold mints. */
  function Counted(spends: map<Scalar, int>, minted: map<int, nat>): map<Scalar, int> {
    map k | k in spends && spends[k] in minted :: spends[k]
  }

  function SpendersOf(spends: map<Scalar, int>, g: int): set<Scalar> {
    set k | k in spends && spends[k] == g
  }

  function SpendOne(sp: Spends, minted: map<int, nat>, serial: Scalar, id: int): Spends {
    if id in minted then Spends(sp.serials[serial := id], sp.spent[id := Lookup(sp.spent, id) + 1]) else sp
  }

  /** All spends of a block, in whatever order the hash table yields them. */
  function SpendAll(sp: Spends, minted: map<int, nat>, spends: map<Scalar, int>): Spends {
    SpendCounted(sp, Counted(spends, minted))
  }

  function SpendCounted(sp: Spends, m: map<Scalar, int>): Spends {
    Spends(sp.serials + m, AddCounts(sp.spent, m))
  }

  function AddCounts(spent: map<int, nat>, m: map<Scalar, int>): map<int, nat> {
    map g | g in spent.Keys + m.Values :: Lookup(spent, g) + |SpendersOf(m, g)|
  }

  lemma SpendNone(sp: Spends, minted: map<int, nat>)
    ensures SpendAll(sp, minted, map[]) == sp
  {
    var counted := Counted(map[], minted);
    assert counted == map[];
    assert counted.Values == {};
    forall g ensures SpendersOf(counted, g) == {} {}
    var r := SpendAll(sp, minted, map[]);
    assert r.serials == sp.serials;
    assert r.spent == sp.spent;
  }

  lemma ValuesOfUpdate(m: map<Scalar, int>, k: Scalar, id: int)
    requires k !in m
    ensures m[k := id].Values == m.Values + {id}
  {
    var after := m[k := id];
    assert after[k] == id;
    forall v | v in m.Values ensures v in after.Values {
      var j :| j in m && m[j] == v;
      assert after[j] == v;
    }
  }

  lemma SpendersOfUpdate(m: map<Scalar, int>, k: Scalar, id: int, g: int)
    requires k !in m
    ensures |SpendersOf(m[k := id], g)| == |SpendersOf(m, g)| + if g == id then 1 else 0
  {
    if g == id {
      assert SpendersOf(m[k := id], g) == SpendersOf(m, g) + {k};
    } else {
      assert SpendersOf(m[k := id], g) == SpendersOf(m, g);
    }
  }

  lemma NoSpenders(m: map<Scalar, int>, g: int)
    requires g !in m.Values
    ensures SpendersOf(m, g) == {}
  {
    forall k ensures k !in SpendersOf(m, g) {
      if k in m { assert m[k] in m.Values; }
    }
  }

  /** How the per-group spend counts change: by the block's spends of groups that hold mints. */
  lemma SpendCounts(sp: Spends, minted: map<int, nat>, spends: map<Scalar, int>, g: int)
    ensures Lookup(SpendAll(sp, minted, spends).spent, g)
         == Lookup(sp.spent, g) + if g in minted then |SpendersOf(spends, g)| else 0
  {
    var counted := Counted(spends, minted);
    if g !in counted.Values {
      NoSpenders(counted, g);
    }
    if g in minted {
      assert SpendersOf(counted, g) == SpendersOf(spends, g);
    } else {
      assert SpendersOf(counted, g) == {};
    }
  }

  lemma UnionUpdate<K, V>(a: map<K, V>, b: map<K, V>, k: K, v: V)
    ensures a + b[k := v] == (a + b)[k := v]
  {
  }

  lemma AddCountsMore(spent: map<int, nat>, m: map<Scalar, int>, k: Scalar, id: int)
    requires k !in m
    ensures AddCounts(spent, m[k := id]) == AddCounts(spent, m)[id := Lookup(AddCounts(spent, m), id) + 1]
  {
    ValuesOfUpdate(m, k, id);
    hide SpendersOf;
    var r, before := AddCounts(spent, m[k := id]), AddCounts(spent, m);
    assert r.Keys == before.Keys + {id};
    forall g | g in r ensures r[g] == Lookup(before, g) + if g == id then 1 else 0 {
      SpendersOfUpdate(m, k, id, g);
      if g !in m.Values { NoSpenders(m, g); }
    }
    hide AddCounts;
    PlusOne(before, r, id);
  }

  lemma PlusOne(before: map<int, nat>, r: map<int, nat>, id: int)
    requires r.Keys == before.Keys + {id} && forall g :: g in r ==> r[g] == Lookup(before, g) + if g == id then 1 else 0
    ensures r == before[id := Lookup(before, id) + 1]
  {
    var want := before[id := Lookup(before, id) + 1];
    forall g | g in want ensures g in r && r[g] == want[g] {}
    assert r.Keys == want.Keys;
  }

  lemma SpendMore(sp: Spends, minted: map<int, nat>, done: map<Scalar, int>, k: Scalar, id: int)
    requires k !in done
    ensures SpendAll(sp, minted, done[k := id]) == SpendOne(SpendAll(sp, minted, done), minted, k, id)
  {
    hide Counted, AddCounts;
    var before, after := Counted(done, minted), Counted(done[k := id], minted);
    CountedMore(minted, done, k, id);
    if id in minted {
      UnionUpdate(sp.serials, before, k, id);
      AddCountsMore(sp.spent, before, k, id);
    }
  }

  lemma CountedMore(minted: map<int, nat>, done: map<Scalar, int>, k: Scalar, id: int)
    requires k !in done
    ensures k !in Counted(done, minted)
    ensures Counted(done[k := id], minted) == if id in minted then Counted(done, minted)[k := id] else Counted(done, minted)
  {
  }

  // ---------------------------------------------------------------------------------------------
  // Whole blocks

  /** What a block brings: its mints and the serials it spends, each with its group. */
  datatype BlockInfo = BlockInfo(mints: seq<Coin>, spends: map<Scalar, int>)

  function EntryOf(c: Core, lim: Limits, b: BlockInfo): BlockEntry {
    BlockEntry(if b.mints == [] then map[] else map[AssignedId(c, lim, |b.mints|) := b.mints], b.spends)
  }

  /** ConnectBlockLelantus: spends first, then mints. */
  function Connect(s: State, lim: Limits, chain: seq<BlockEntry>, b: BlockInfo): State
    requires KnownBlocks(s.core.groups, chain)
  {
    State(if b.mints == [] then s.core else ConnectMints(s.core, lim, chain, b.mints),
          SpendAll(s.spends, s.core.minted, b.spends))
  }

  /** AddBlock for the block at height h: mints first, then spends. */
  ghost function Replay(s: State, lim: Limits, chain: seq<BlockEntry>, h: nat): State
    requires KnownBlocks(s.core.groups, chain) && h < |chain|
  {
    var ids := Ascending(chain[h].minted.Keys);
    AscendingWithin(chain[h].minted.Keys);
    var core := ReplayGroups(s.core, lim, chain, h, ids);
    State(core, SpendAll(s.spends, core.minted, chain[h].spent))
  }
}
