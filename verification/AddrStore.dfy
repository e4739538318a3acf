/** Saving the address manager and loading it again: only entries and new-table slots are written; ids,
    vRandom and the other indexes are rebuilt.
 */
module AddrStore {
  import opened Wrappers
  import opened Sets
  import opened AddrMan

  // ---------------------------------------------------------------------------------------------
  // The stored form

  /** What of an entry is written. */
  datatype Saved = Saved(service: Service, source: NetAddr, nServices: set<int>, nTime: int, nLastSuccess: int, nAttempts: int)

  /** New entries, then tried ones, then for each bucket the indexes of the new entries in it. */
  datatype Stored = Stored(version: nat, news: seq<Saved>, trieds: seq<Saved>, buckets: seq<seq<int>>)

  function ToSaved(info: Info): Saved {
    Saved(info.service, info.source, info.nServices, info.nTime, info.nLastSuccess, info.nAttempts)
  }

  /** An entry as read: memory-only fields start afresh. */
  function FromSaved(s: Saved): Info {
    Info(s.service, s.source, s.nServices, s.nTime, s.nLastSuccess, 0, 0, s.nAttempts, 0, false, -1)
  }

  /** The new table can be used as stored. */
  predicate Usable(st: Stored) {
    st.version == 1 && |st.buckets| == NEW_BUCKETS
  }

  // ---------------------------------------------------------------------------------------------
  // Loading

  /** Ids are handed out in reading order, which is also the order of vRandom. */
  ghost predicate Numbered(m: Man, n: nat) {
    && |m.order| == n && (forall i :: 0 <= i < n ==> m.order[i] == i)
    && (forall id :: id in m.infos <==> 0 <= id < n)
    && (forall i :: 0 <= i < n ==> m.infos[i].nRandomPos == i)
  }

  function AddNew(h: Hasher, st: Stored, m: Man, s: Saved): Man {
    var n := |m.order|;
    var info := FromSaved(s).(nRandomPos := n);
    var slot := NewSlot(h, s.service, s.source);
    var fallback := !Usable(st) && slot !in m.newTab;
    m.(infos := m.infos[n := if fallback then info.(nRefCount := 1) else info], ids := m.ids[s.service.addr := n],
       order := m.order + [n], newTab := if fallback then m.newTab[slot := n] else m.newTab)
  }

  function LoadNews(h: Hasher, st: Stored, n: nat): (r: Man)
    requires n <= |st.news|
    ensures Numbered(r, n)
  {
    if n == 0 then EmptyMan() else AddNew(h, st, LoadNews(h, st, n - 1), st.news[n - 1])
  }

  /** A tried entry whose slot is taken is lost. */
  function AddTried(h: Hasher, m: Man, s: Saved): Man {
    var slot := TriedSlot(h, s.service);
    if slot in m.tried then m.(nTried := m.nTried - 1)
    else
      var n := m.nIdCount;
      m.(nIdCount := n + 1, infos := m.infos[n := FromSaved(s).(nRandomPos := |m.order|, fInTried := true)],
         ids := m.ids[s.service.addr := n], order := m.order + [n], tried := m.tried[slot := n])
  }

  function LoadTrieds(h: Hasher, st: Stored, n: nat): (r: Man)
    requires n <= |st.trieds|
    ensures r.nIdCount >= |st.news| && Numbered(r, r.nIdCount)
  {
    if n == 0 then LoadNews(h, st, |st.news|).(nIdCount := |st.news|, nNew := |st.news|, nTried := |st.trieds|)
    else AddTried(h, LoadTrieds(h, st, n - 1), st.trieds[n - 1])
  }

  /** One stored reference to a new entry; ignored if out of range, in the way or one too many. */
  function AddSlot(h: Hasher, st: Stored, m: Man, bucket: int, index: int): Man {
    if !(0 <= index < |st.news|) || index !in m.infos then m
    else
      var slot := Slot(bucket, NewPos(h, m.infos[index].service, bucket));
      if Usable(st) && slot !in m.newTab && m.infos[index].nRefCount < NEW_BUCKETS_PER_ADDRESS then EnterNew(m, index, slot) else m
  }

  /** Buckets before b in full, and the first n references of bucket b. */
  function LoadSlots(h: Hasher, st: Stored, b: nat, n: nat): (r: Man)
    requires if b < |st.buckets| then n <= |st.buckets[b]| else b == |st.buckets| && n == 0
    ensures r.nIdCount >= |st.news| && Numbered(r, r.nIdCount)
    decreases b, n
  {
    if n > 0 then AddSlot(h, st, LoadSlots(h, st, b, n - 1), b, st.buckets[b][n - 1])
    else if b == 0 then LoadTrieds(h, st, |st.trieds|)
    else LoadSlots(h, st, b - 1, |st.buckets[b - 1]|)
  }

  /** Entries with no place in either table. */
  function Homeless(m: Man): set<int> {
    set id | id in m.infos && !m.infos[id].fInTried && m.infos[id].nRefCount == 0
  }

  lemma NumberedPlaced(m: Man, n: nat)
    requires Numbered(m, n)
    ensures Placed(m)
  {
  }

  lemma DropPlaced(m: Man, id: int)
    requires Placed(m) && id in m.infos && m.order != [] && m.order[|m.order| - 1] == id
    ensures Placed(DropLast(m, id))
  {
    var r, last := DropLast(m, id), |m.order| - 1;
    assert m.infos[id].nRandomPos == last;
    forall k | 0 <= k < last ensures r.order[k] in r.infos && r.infos[r.order[k]].nRandomPos == k {
      assert m.infos[m.order[k]].nRandomPos == k;
    }
  }

  lemma DeletePlaced(m: Man, id: int)
    requires Placed(m) && id in m.infos
    ensures CanDelete(m, id) && Placed(Delete(m, id)) && Delete(m, id).infos.Keys == m.infos.Keys - {id}
  {
    hide SwapRandom, Placed;
    PlaceOf(m, id);
    var p, last := m.infos[id].nRandomPos, |m.order| - 1;
    PlacedAt(m, last);
    SwapPlaces(m, p, last);
    SwapMoves(m, p, last);
    var moved := SwapRandom(m, p, last);
    assert Unmoved(moved.infos[id]).service == Unmoved(m.infos[id]).service;
    assert Delete(m, id) == DropLast(moved, id);
    DropPlaced(moved, id);
  }

  /** Deletes the given entries one after the other. */
  ghost function Prune(m: Man, gone: set<int>): Man
    requires Placed(m) && gone <= m.infos.Keys
    decreases |gone|
  {
    if gone == {} then m
    else
      LeastExists(gone);
      var id :| IsLeast(id, gone);
      DeletePlaced(m, id);
      Prune(Delete(m, id), gone - {id})
  }

  /** Loading: refused when there are more entries than slots. */
  ghost function Load(h: Hasher, st: Stored): Option<Man> {
    if |st.news| > NEW_BUCKETS * BUCKET_SIZE || |st.trieds| > TRIED_BUCKETS * BUCKET_SIZE then None
    else
      var m := LoadSlots(h, st, |st.buckets|, 0);
      NumberedPlaced(m, m.nIdCount);
      Some(Prune(m, Homeless(m)))
  }

  // ---------------------------------------------------------------------------------------------
  // Saving

  ghost function IndexIn(s: seq<int>, x: int): (k: nat)
    requires x in s
    ensures k < |s| && s[k] == x
  {
    if s[0] == x then 0 else 1 + IndexIn(s[1..], x)
  }

  /** What is written for the first i positions of a bucket. */
  ghost function References(t: map<Slot, int>, list: seq<int>, bucket: nat, i: nat): seq<int>
    requires forall s :: s in t ==> t[s] in list
  {
    if i == 0 then []
    else
      var slot := Slot(bucket, i - 1);
      References(t, list, bucket, i - 1) + if slot in t then [IndexIn(list, t[slot])] else []
  }

  ghost function SavedList(m: Man, ids: seq<int>): (r: seq<Saved>)
    requires forall k :: 0 <= k < |ids| ==> ids[k] in m.infos
    ensures |r| == |ids| && forall k :: 0 <= k < |ids| ==> r[k] == ToSaved(m.infos[ids[k]])
  {
    seq(|ids|, k requires 0 <= k < |ids| => ToSaved(m.infos[ids[k]]))
  }

  /** The ids of new and of tried entries, in the order they are written. */
  ghost function NewList(m: Man): seq<int> {
    Ascending(NewIds(m))
  }

  ghost function TriedList(m: Man): seq<int> {
    Ascending(TriedIds(m))
  }

  ghost predicate Listed(m: Man) {
    && (forall k :: 0 <= k < |NewList(m)| ==> NewList(m)[k] in m.infos) && (forall k :: 0 <= k < |TriedList(m)| ==> TriedList(m)[k] in m.infos)
    && (forall s :: s in m.newTab ==> m.newTab[s] in NewList(m))
  }

  lemma ConsistentListed(h: Hasher, m: Man)
    requires Consistent(h, m)
    ensures Listed(m)
  {
    AscendingWithin(NewIds(m));
    AscendingWithin(TriedIds(m));
    forall s | s in m.newTab ensures m.newTab[s] in NewList(m) { AscendingHas(NewIds(m), m.newTab[s]); }
  }

  lemma AscendingHas(s: set<int>, x: int)
    requires x in s
    ensures x in Ascending(s)
  {
    AscendingWithin(s);
  }

  ghost function Save(m: Man): Stored
    requires Listed(m)
  {
    var list := NewList(m);
    Stored(1, SavedList(m, list), SavedList(m, TriedList(m)),
           seq(NEW_BUCKETS, b requires 0 <= b < NEW_BUCKETS => References(m.newTab, list, b, BUCKET_SIZE)))
  }

  // ---------------------------------------------------------------------------------------------
  // Loading what was saved. The n-th entry read is the one with the n-th of the ids `all`.

  /** The entry read for a saved one, with the number of new slots it has got so far. */
  function Reloaded(info: Info, place: int, refs: int): Info {
    FromSaved(ToSaved(info)).(nRandomPos := place, fInTried := info.fInTried, nRefCount := refs)
  }

  /** Every known entry once, new ones first. */
  ghost predicate Everyone(m: Man, all: seq<int>, news: nat) {
    && news <= |all| && (forall k :: 0 <= k < |all| ==> all[k] in m.infos)
    && (forall id :: id in m.infos ==> id in all)
    && (forall i, j :: 0 <= i < j < |all| ==> all[i] != all[j])
    && (forall k :: 0 <= k < |all| ==> (m.infos[all[k]].fInTried <==> k >= news))
  }

  ghost predicate EntriesLoaded(m: Man, all: seq<int>, n: nat, r: Man)
    requires n <= |all| && forall k :: 0 <= k < |all| ==> all[k] in m.infos
  {
    Numbered(r, n) && forall k :: 0 <= k < n ==> r.infos[k] == Reloaded(m.infos[all[k]], k, |SlotsOf(r.newTab, k)|)
  }

  ghost predicate IdsLoaded(m: Man, all: seq<int>, n: nat, ids: map<NetAddr, int>)
    requires n <= |all| && forall k :: 0 <= k < |all| ==> all[k] in m.infos
  {
    && (forall k :: 0 <= k < n ==> m.infos[all[k]].service.addr in ids && ids[m.infos[all[k]].service.addr] == k)
    && (forall a :: a in ids ==> 0 <= ids[a] < n && m.infos[all[ids[a]]].service.addr == a)
  }

  /** A table holds part of what it held, under the new ids. */
  ghost predicate TableLoaded(t: map<Slot, int>, all: seq<int>, n: nat, r: map<Slot, int>)
    requires n <= |all|
  {
    forall s :: s in r ==> s in t && 0 <= r[s] < n && all[r[s]] == t[s]
  }

  ghost predicate TriedLoaded(h: Hasher, m: Man, all: seq<int>, n: nat, r: map<Slot, int>)
    requires n <= |all| && forall k :: 0 <= k < |all| ==> all[k] in m.infos
  {
    && TableLoaded(m.tried, all, n, r)
    && forall k :: 0 <= k < n && m.infos[all[k]].fInTried ==> TriedSlot(h, m.infos[all[k]].service) in r
  }

  ghost predicate Loading(h: Hasher, m: Man, all: seq<int>, n: nat, slots: set<Slot>, r: Man) {
    && n <= |all| && (forall k :: 0 <= k < |all| ==> all[k] in m.infos)
    && EntriesLoaded(m, all, n, r) && IdsLoaded(m, all, n, r.ids)
    && TriedLoaded(h, m, all, n, r.tried) && TableLoaded(m.newTab, all, n, r.newTab) && r.newTab.Keys == slots
  }

  lemma IdsLoadMore(h: Hasher, m: Man, all: seq<int>, news: nat, n: nat, ids: map<NetAddr, int>)
    requires Consistent(h, m) && Everyone(m, all, news) && n < |all| && IdsLoaded(m, all, n, ids)
    ensures IdsLoaded(m, all, n + 1, ids[m.infos[all[n]].service.addr := n])
  {
    hide SlotsOf, TriedSlot, NewPos;
    var a := m.infos[all[n]].service.addr;
    forall k | 0 <= k < n ensures m.infos[all[k]].service.addr != a {
      assert m.ids[m.infos[all[k]].service.addr] == all[k] && m.ids[a] == all[n];
    }
  }

  lemma EntriesLoadMore(m: Man, all: seq<int>, n: nat, r: Man, q: Man)
    requires n < |all| && (forall k :: 0 <= k < |all| ==> all[k] in m.infos) && EntriesLoaded(m, all, n, r)
    requires q.infos == r.infos[n := Reloaded(m.infos[all[n]], n, 0)] && q.order == r.order + [n] && q.newTab == r.newTab == map[]
    ensures EntriesLoaded(m, all, n + 1, q)
  {
    forall k | 0 <= k < n + 1 ensures q.infos[k] == Reloaded(m.infos[all[k]], k, |SlotsOf(q.newTab, k)|) {
      assert SlotsOf(q.newTab, k) == {};
    }
  }

  lemma TablesLoadMore(h: Hasher, m: Man, all: seq<int>, n: nat, t: map<Slot, int>)
    requires n < |all| && (forall k :: 0 <= k < |all| ==> all[k] in m.infos) && TriedLoaded(h, m, all, n, t)
    ensures !m.infos[all[n]].fInTried ==> TriedLoaded(h, m, all, n + 1, t)
    ensures var slot := TriedSlot(h, m.infos[all[n]].service);
            slot in m.tried && m.tried[slot] == all[n] ==> TriedLoaded(h, m, all, n + 1, t[slot := n])
  {
    hide TriedSlot;
  }

  lemma EveryoneAt(m: Man, all: seq<int>, news: nat, n: nat)
    requires Everyone(m, all, news)
    ensures news <= |all| && (n < |all| ==> all[n] in m.infos && (m.infos[all[n]].fInTried <==> n >= news))
  {
  }

  lemma NothingInTable(t: map<Slot, int>, all: seq<int>, n: nat)
    requires n <= |all|
    ensures TableLoaded(t, all, n, map[])
  {
  }

  /** A new entry is read. */
  lemma NewRead(h: Hasher, m: Man, all: seq<int>, news: nat, n: nat, st: Stored, r: Man)
    requires Consistent(h, m) && Everyone(m, all, news) && n < news && Usable(st) && Loading(h, m, all, n, {}, r)
    ensures Loading(h, m, all, n + 1, {}, AddNew(h, st, r, ToSaved(m.infos[all[n]])))
  {
    hide Inv, TriedSlot, NewPos, IdsLoaded, EntriesLoaded, TriedLoaded, TableLoaded, SlotsOf, Everyone;
    EveryoneAt(m, all, news, n);
    IdsLoadMore(h, m, all, news, n, r.ids);
    EntriesAre(m, all, n, r);
    assert r.newTab == map[];
    EntriesLoadMore(m, all, n, r, AddNew(h, st, r, ToSaved(m.infos[all[n]])));
    TablesLoadMore(h, m, all, n, r.tried);
    NothingInTable(m.newTab, all, n + 1);
  }

  lemma EntriesAre(m: Man, all: seq<int>, n: nat, r: Man)
    requires n <= |all| && (forall k :: 0 <= k < |all| ==> all[k] in m.infos) && EntriesLoaded(m, all, n, r)
    ensures |r.order| == n
  {
  }

  /** A tried entry is read: its slot is free, because no other entry hashes to it. */
  lemma TriedRead(h: Hasher, m: Man, all: seq<int>, news: nat, n: nat, r: Man)
    requires Consistent(h, m) && Everyone(m, all, news) && news <= n < |all| && r.nIdCount == n && Loading(h, m, all, n, {}, r)
    ensures var q := AddTried(h, r, ToSaved(m.infos[all[n]]));
            Loading(h, m, all, n + 1, {}, q) && q.nIdCount == n + 1 && q.nTried == r.nTried && q.nNew == r.nNew
  {
    hide Inv, TriedSlot, NewPos, IdsLoaded, EntriesLoaded, TriedLoaded, TableLoaded, SlotsOf, Everyone;
    EveryoneAt(m, all, news, n);
    IdsLoadMore(h, m, all, news, n, r.ids);
    TriedSlotFree(h, m, all, news, n, r.tried);
    EntriesAre(m, all, n, r);
    assert r.newTab == map[];
    EntriesLoadMore(m, all, n, r, AddTried(h, r, ToSaved(m.infos[all[n]])));
    TablesLoadMore(h, m, all, n, r.tried);
    NothingInTable(m.newTab, all, n + 1);
  }

  lemma TriedSlotFree(h: Hasher, m: Man, all: seq<int>, news: nat, n: nat, t: map<Slot, int>)
    requires Consistent(h, m) && Everyone(m, all, news) && news <= n < |all| && TriedLoaded(h, m, all, n, t)
    ensures var slot := TriedSlot(h, m.infos[all[n]].service); slot !in t && slot in m.tried && m.tried[slot] == all[n]
  {
    hide TriedSlot, NewPos, SlotsOf;
    TriedHasSlot(h, m, all[n]);
  }

  lemma EntriesTakeSlot(m: Man, all: seq<int>, r: Man, slot: Slot, k: nat)
    requires (forall j :: 0 <= j < |all| ==> all[j] in m.infos) && EntriesLoaded(m, all, |all|, r) && slot !in r.newTab && k < |all|
    ensures EntriesLoaded(m, all, |all|, EnterNew(r, k, slot))
  {
    hide SlotsOf;
    var q := EnterNew(r, k, slot);
    forall j | 0 <= j < |all| ensures q.infos[j] == Reloaded(m.infos[all[j]], j, |SlotsOf(q.newTab, j)|) {
      SlotsOfAdded(r.newTab, slot, k, j);
    }
  }

  lemma TableTakesSlot(t: map<Slot, int>, all: seq<int>, n: nat, r: map<Slot, int>, slot: Slot, k: nat)
    requires n <= |all| && TableLoaded(t, all, n, r) && slot in t && k < n && all[k] == t[slot]
    ensures TableLoaded(t, all, n, r[slot := k])
  {
  }

  /** A reference is read: the entry gets the slot it was saved from. */
  lemma SlotRead(h: Hasher, m: Man, all: seq<int>, news: nat, st: Stored, r: Man, slots: set<Slot>, slot: Slot, k: nat)
    requires Consistent(h, m) && Everyone(m, all, news) && Loading(h, m, all, |all|, slots, r)
    requires Usable(st) && |st.news| == news && slot in m.newTab && slot !in slots && k < news && all[k] == m.newTab[slot]
    ensures Loading(h, m, all, |all|, slots + {slot}, AddSlot(h, st, r, slot.bucket, k))
  {
    hide Inv, TriedSlot, NewPos, IdsLoaded, TriedLoaded, SlotsOf, EntriesLoaded, TableLoaded, Everyone;
    EveryoneAt(m, all, news, k);
    SlotFits(h, m, all, news, r, slot, k);
    var q := AddSlot(h, st, r, slot.bucket, k);
    assert q == EnterNew(r, k, slot);
    EntriesTakeSlot(m, all, r, slot, k);
    TableTakesSlot(m.newTab, all, |all|, r.newTab, slot, k);
  }

  /** The position is the one hashed for the bucket, and there are at most eight slots for an entry. */
  lemma SlotFits(h: Hasher, m: Man, all: seq<int>, news: nat, r: Man, slot: Slot, k: nat)
    requires Consistent(h, m) && Everyone(m, all, news) && EntriesLoaded(m, all, |all|, r) && TableLoaded(m.newTab, all, |all|, r.newTab)
    requires slot in m.newTab && slot !in r.newTab && k < news && all[k] == m.newTab[slot]
    ensures k in r.infos && slot == Slot(slot.bucket, NewPos(h, r.infos[k].service, slot.bucket))
    ensures r.infos[k].nRefCount < NEW_BUCKETS_PER_ADDRESS
  {
    hide TriedSlot, NewPos;
    var id := all[k];
    assert RefOk(m, {}, id);
    var mine, yours := SlotsOf(r.newTab, k), SlotsOf(m.newTab, id);
    assert mine < yours by { assert slot in yours && slot !in mine; }
    FewerSlots(mine, yours);
  }

  lemma {:induction false} FewerSlots(a: set<Slot>, b: set<Slot>)
    requires a < b
    ensures |a| < |b|
  {
    if a == {} {
      assert b != {};
    } else {
      var x := Pick(a);
      FewerSlots(a - {x}, b - {x});
    }
  }

  /** Slots written before position i of bucket b. */
  ghost function Before(t: map<Slot, int>, b: int, i: int): set<Slot> {
    set s | s in t && (s.bucket < b || (s.bucket == b && s.pos < i))
  }

  lemma {:induction false} ReferencesExtend(t: map<Slot, int>, list: seq<int>, bucket: nat, i: nat, j: nat)
    requires i <= j && forall s :: s in t ==> t[s] in list
    ensures References(t, list, bucket, i) <= References(t, list, bucket, j)
    decreases j - i
  {
    if i < j { ReferencesExtend(t, list, bucket, i, j - 1); }
  }

  /** The parts of a saved form. */
  lemma SaveParts(m: Man)
    requires Listed(m)
    ensures var st := Save(m); Usable(st) && |st.news| == |NewList(m)| && |st.trieds| == |TriedList(m)|
    ensures forall b :: 0 <= b < NEW_BUCKETS ==> Save(m).buckets[b] == References(m.newTab, NewList(m), b, BUCKET_SIZE)
    ensures forall s :: s in m.newTab ==> m.newTab[s] in NewList(m)
  {
  }

  /** One position of a bucket, occupied or not. */
  lemma PositionRead(h: Hasher, m: Man, all: seq<int>, news: nat, st: Stored, list: seq<int>, b: nat, i: nat)
    requires Consistent(h, m) && Everyone(m, all, news) && news <= |all| && list == all[..news] && (forall s :: s in m.newTab ==> m.newTab[s] in list)
    requires Usable(st) && |st.news| == news && b < NEW_BUCKETS && i < BUCKET_SIZE
    requires st.buckets[b] == References(m.newTab, list, b, BUCKET_SIZE)
    requires |References(m.newTab, list, b, i)| <= |st.buckets[b]|
    requires Loading(h, m, all, |all|, Before(m.newTab, b, i), LoadSlots(h, st, b, |References(m.newTab, list, b, i)|))
    ensures |References(m.newTab, list, b, i + 1)| <= |st.buckets[b]|
    ensures Loading(h, m, all, |all|, Before(m.newTab, b, i + 1), LoadSlots(h, st, b, |References(m.newTab, list, b, i + 1)|))
  {
    hide Loading, Inv, Everyone, LoadSlots;
    ReferencesExtend(m.newTab, list, b, i + 1, BUCKET_SIZE);
    var slot := Slot(b, i);
    var refs := References(m.newTab, list, b, i);
    if slot in m.newTab {
      assert Before(m.newTab, b, i + 1) == Before(m.newTab, b, i) + {slot};
      var k := IndexIn(list, m.newTab[slot]);
      assert References(m.newTab, list, b, i + 1) == refs + [k];
      LoadOne(h, st, b, |refs| + 1);
      SlotRead(h, m, all, news, st, LoadSlots(h, st, b, |refs|), Before(m.newTab, b, i), slot, k);
    } else {
      assert Before(m.newTab, b, i + 1) == Before(m.newTab, b, i);
      assert References(m.newTab, list, b, i + 1) == refs;
    }
  }

  /** The saved form, read up to position i of bucket b. */
  lemma {:induction false} SlotsRead(h: Hasher, m: Man, all: seq<int>, news: nat, st: Stored, list: seq<int>, b: nat, i: nat)
    requires Consistent(h, m) && Everyone(m, all, news) && news <= |all| && list == all[..news] && (forall s :: s in m.newTab ==> m.newTab[s] in list)
    requires Usable(st) && |st.news| == news && b < NEW_BUCKETS && i <= BUCKET_SIZE
    requires st.buckets[b] == References(m.newTab, list, b, BUCKET_SIZE)
    requires Loading(h, m, all, |all|, Before(m.newTab, b, 0), LoadSlots(h, st, b, 0))
    ensures |References(m.newTab, list, b, i)| <= |st.buckets[b]|
    ensures Loading(h, m, all, |all|, Before(m.newTab, b, i), LoadSlots(h, st, b, |References(m.newTab, list, b, i)|))
    decreases i
  {
    hide Loading, Inv, Everyone, LoadSlots, Before;
    if i > 0 {
      SlotsRead(h, m, all, news, st, list, b, i - 1);
      PositionRead(h, m, all, news, st, list, b, i - 1);
    }
  }

  /** The saved form, read up to bucket b. */
  lemma {:induction false} BucketsRead(h: Hasher, m: Man, all: seq<int>, news: nat, st: Stored, list: seq<int>, b: nat)
    requires Consistent(h, m) && Everyone(m, all, news) && news <= |all| && list == all[..news] && (forall s :: s in m.newTab ==> m.newTab[s] in list)
    requires Usable(st) && |st.news| == news && b <= NEW_BUCKETS
    requires forall b :: 0 <= b < NEW_BUCKETS ==> st.buckets[b] == References(m.newTab, list, b, BUCKET_SIZE)
    requires Loading(h, m, all, |all|, {}, LoadTrieds(h, st, |st.trieds|))
    ensures Loading(h, m, all, |all|, Before(m.newTab, b, 0), LoadSlots(h, st, b, 0))
    decreases b
  {
    hide Loading, Everyone, LoadTrieds, Inv;
    if b == 0 {
      NothingBefore(h, m);
    } else {
      BucketsRead(h, m, all, news, st, list, b - 1);
      SlotsRead(h, m, all, news, st, list, b - 1, BUCKET_SIZE);
      WholeBucket(h, m, b - 1);
    }
  }

  lemma NothingBefore(h: Hasher, m: Man)
    requires Consistent(h, m)
    ensures Before(m.newTab, 0, 0) == {} && Before(m.newTab, NEW_BUCKETS, 0) == m.newTab.Keys
  {
    hide SlotsOf, TriedSlot;
  }

  lemma WholeBucket(h: Hasher, m: Man, b: int)
    requires Consistent(h, m)
    ensures Before(m.newTab, b + 1, 0) == Before(m.newTab, b, BUCKET_SIZE)
  {
    hide SlotsOf, TriedSlot;
    forall s | s in m.newTab ensures 0 <= s.pos < BUCKET_SIZE { assert s.pos == NewPos(h, m.infos[m.newTab[s]].service, s.bucket); }
  }

  lemma LoadOne(h: Hasher, st: Stored, b: nat, n: nat)
    requires b < |st.buckets| && 0 < n <= |st.buckets[b]|
    ensures LoadSlots(h, st, b, n) == AddSlot(h, st, LoadSlots(h, st, b, n - 1), b, st.buckets[b][n - 1])
  {
  }

  // ---------------------------------------------------------------------------------------------
  // Nothing is lost

  lemma {:induction false} AscendingOrder(s: set<int>)
    ensures |Ascending(s)| == |s|
    ensures forall i, j :: 0 <= i < j < |Ascending(s)| ==> Ascending(s)[i] < Ascending(s)[j]
  {
    if s != {} {
      LeastExists(s);
      var x :| IsLeast(x, s);
      AscendingStep(s, x);
      AscendingOrder(s - {x});
      AscendingWithin(s - {x});
      var rest := Ascending(s - {x});
      forall i, j | 0 <= i < j < |Ascending(s)| ensures Ascending(s)[i] < Ascending(s)[j] {
        assert rest[j - 1] in s - {x};
        if i > 0 { assert rest[i - 1] < rest[j - 1]; }
      }
    }
  }

  /** The order in which entries are written lists everyone. */
  lemma ListsEveryone(h: Hasher, m: Man)
    requires Consistent(h, m)
    ensures Everyone(m, NewList(m) + TriedList(m), |NewList(m)|)
    ensures |NewList(m)| == m.nNew && |TriedList(m)| == m.nTried
  {
    AscendingOrder(NewIds(m));
    AscendingOrder(TriedIds(m));
    hide Ascending, IndexOk, TriedOk, NewOk, RefsOk;
    ListOf(NewIds(m));
    ListOf(TriedIds(m));
    TwoLists(m, NewList(m), TriedList(m));
  }

  ghost predicate IsListOf(l: seq<int>, s: set<int>) {
    && (forall k :: 0 <= k < |l| ==> l[k] in s) && (forall x :: x in s ==> x in l)
    && (forall i, j :: 0 <= i < j < |l| ==> l[i] < l[j])
  }

  lemma ListOf(s: set<int>)
    ensures IsListOf(Ascending(s), s)
  {
    AscendingOrder(s);
    AscendingWithin(s);
  }

  lemma TwoLists(m: Man, l: seq<int>, t: seq<int>)
    requires IsListOf(l, NewIds(m)) && IsListOf(t, TriedIds(m))
    ensures Everyone(m, l + t, |l|)
  {
    var all := l + t;
    forall id | id in m.infos ensures id in all {
      if m.infos[id].fInTried { assert id in TriedIds(m); } else { assert id in NewIds(m); }
    }
    forall k | 0 <= k < |all| ensures all[k] in m.infos && (m.infos[all[k]].fInTried <==> k >= |l|) {
      if k < |l| { assert l[k] in NewIds(m); } else { assert t[k - |l|] in TriedIds(m); }
    }
    forall i, j | 0 <= i < j < |all| ensures all[i] != all[j] {
      if i >= |l| { assert t[i - |l|] < t[j - |l|]; }
    }
  }

  lemma NothingRead(h: Hasher, m: Man, all: seq<int>, news: nat)
    requires Everyone(m, all, news)
    ensures Loading(h, m, all, 0, {}, EmptyMan())
  {
    hide TriedSlot;
  }

  lemma {:induction false} NewsRead(h: Hasher, m: Man, n: nat)
    requires Consistent(h, m) && Listed(m) && n <= |NewList(m)|
    ensures Loading(h, m, NewList(m) + TriedList(m), n, {}, LoadNews(h, Save(m), n))
    decreases n
  {
    hide Loading, Inv, Everyone, AddNew, NewList, TriedList, References;
    ListsEveryone(h, m);
    SaveParts(m);
    var all := NewList(m) + TriedList(m);
    if n == 0 {
      NothingRead(h, m, all, |NewList(m)|);
    } else {
      NewsRead(h, m, n - 1);
      NewRead(h, m, all, |NewList(m)|, n - 1, Save(m), LoadNews(h, Save(m), n - 1));
      assert Save(m).news[n - 1] == ToSaved(m.infos[all[n - 1]]);
    }
  }

  lemma LoadingIgnoresCounts(h: Hasher, m: Man, all: seq<int>, n: nat, slots: set<Slot>, r: Man, ids: int, news: int, trieds: int)
    requires Loading(h, m, all, n, slots, r)
    ensures Loading(h, m, all, n, slots, r.(nIdCount := ids, nNew := news, nTried := trieds))
  {
    hide TriedSlot;
  }

  lemma {:induction false} TriedsRead(h: Hasher, m: Man, n: nat)
    requires Consistent(h, m) && Listed(m) && n <= |TriedList(m)|
    ensures var all, r := NewList(m) + TriedList(m), LoadTrieds(h, Save(m), n);
            && Loading(h, m, all, |NewList(m)| + n, {}, r) && r.nIdCount == |NewList(m)| + n
            && r.nNew == |NewList(m)| && r.nTried == |TriedList(m)|
    decreases n
  {
    hide Loading, Inv, Everyone, AddTried, NewList, TriedList, References, LoadNews, Numbered;
    ListsEveryone(h, m);
    SaveParts(m);
    var l, t := NewList(m), TriedList(m);
    if n == 0 {
      NewsRead(h, m, |l|);
      LoadingIgnoresCounts(h, m, l + t, |l|, {}, LoadNews(h, Save(m), |l|), |l|, |l|, |t|);
    } else {
      TriedsRead(h, m, n - 1);
      TriedRead(h, m, l + t, |l|, |l| + n - 1, LoadTrieds(h, Save(m), n - 1));
      assert Save(m).trieds[n - 1] == ToSaved(m.infos[(l + t)[|l| + n - 1]]);
    }
  }

  // ---------------------------------------------------------------------------------------------
  // No more entries than slots

  lemma {:induction false} RowCount(s: set<Slot>, bucket: int, n: nat)
    requires forall x :: x in s ==> x.bucket == bucket && 0 <= x.pos < n
    ensures |s| <= n
    decreases n
  {
    if n == 0 {
      assert s == {};
    } else {
      RowCount(s - {Slot(bucket, n - 1)}, bucket, n - 1);
    }
  }

  lemma {:induction false} GridCount(s: set<Slot>, buckets: nat)
    requires forall x :: x in s ==> 0 <= x.bucket < buckets && 0 <= x.pos < BUCKET_SIZE
    ensures |s| <= buckets * BUCKET_SIZE
    decreases buckets
  {
    if buckets == 0 {
      assert s == {};
    } else {
      var row := set x | x in s && x.bucket == buckets - 1;
      RowCount(row, buckets - 1, BUCKET_SIZE);
      GridCount(s - row, buckets - 1);
      assert s == row + (s - row);
    }
  }

  lemma {:induction false} HoldersCount(ids: set<int>, t: map<Slot, int>)
    requires forall id :: id in ids ==> SlotsOf(t, id) != {}
    ensures |ids| <= |t.Keys|
    decreases |ids|
  {
    if ids != {} {
      var id := Pick(ids);
      var s := Pick(SlotsOf(t, id));
      forall x | x in ids - {id} ensures SlotsOf(t - {s}, x) != {} {
        var y := Pick(SlotsOf(t, x));
        assert y in SlotsOf(t - {s}, x);
      }
      HoldersCount(ids - {id}, t - {s});
      assert (t - {s}).Keys == t.Keys - {s};
    }
  }

  lemma WithinLimits(h: Hasher, m: Man)
    requires Consistent(h, m)
    ensures m.nNew <= NEW_BUCKETS * BUCKET_SIZE && m.nTried <= TRIED_BUCKETS * BUCKET_SIZE
  {
    forall id | id in NewIds(m) ensures SlotsOf(m.newTab, id) != {} { assert RefOk(m, {}, id); }
    HoldersCount(NewIds(m), m.newTab);
    GridCount(m.newTab.Keys, NEW_BUCKETS);
    forall id | id in TriedIds(m) ensures SlotsOf(m.tried, id) != {} {
      TriedHasSlot(h, m, id);
      assert TriedSlot(h, m.infos[id].service) in SlotsOf(m.tried, id);
    }
    HoldersCount(TriedIds(m), m.tried);
    GridCount(m.tried.Keys, TRIED_BUCKETS);
  }

  // ---------------------------------------------------------------------------------------------
  // The result

  /** r is m with ids handed out afresh: the same entries in the same slots with the same counts, and
      only memory-only fields and the order of vRandom different. */
  ghost predicate Renumbered(m: Man, r: Man, all: seq<int>) {
    && 0 <= m.nNew && 0 <= m.nTried && |all| == m.nNew + m.nTried && Everyone(m, all, m.nNew) && Numbered(r, |all|) && r.nIdCount == |all|
    && (forall k :: 0 <= k < |all| ==> r.infos[k] == Reloaded(m.infos[all[k]], k, m.infos[all[k]].nRefCount))
    && IdsLoaded(m, all, |all|, r.ids)
    && r.newTab.Keys == m.newTab.Keys && TableLoaded(m.newTab, all, |all|, r.newTab)
    && r.tried.Keys == m.tried.Keys && TableLoaded(m.tried, all, |all|, r.tried)
    && r.nNew == m.nNew && r.nTried == m.nTried
  }

  lemma SameSlots(t: map<Slot, int>, all: seq<int>, r: map<Slot, int>, k: nat)
    requires k < |all| && r.Keys == t.Keys && TableLoaded(t, all, |all|, r)
    requires forall i, j :: 0 <= i < j < |all| ==> all[i] != all[j]
    ensures SlotsOf(r, k) == SlotsOf(t, all[k])
  {
    forall s | s in t ensures r[s] == k <==> t[s] == all[k] {}
  }

  lemma RefCountsReturn(h: Hasher, m: Man, all: seq<int>, news: nat, r: Man, k: nat)
    requires Consistent(h, m) && Everyone(m, all, news) && k < |all| && Loading(h, m, all, |all|, m.newTab.Keys, r)
    ensures r.infos[k] == Reloaded(m.infos[all[k]], k, m.infos[all[k]].nRefCount)
    ensures k < news ==> m.infos[all[k]].nRefCount > 0
  {
    SameSlots(m.newTab, all, r.newTab, k);
    assert RefOk(m, {}, all[k]);
    if k >= news { assert SlotsOf(m.newTab, all[k]) == {}; }
  }

  lemma TriedReturns(h: Hasher, m: Man, all: seq<int>, news: nat, t: map<Slot, int>)
    requires Consistent(h, m) && Everyone(m, all, news) && TriedLoaded(h, m, all, |all|, t)
    ensures t.Keys == m.tried.Keys
  {
    hide TriedSlot, NewPos, SlotsOf;
    forall s | s in m.tried ensures s in t {
      var id := m.tried[s];
      assert id in m.infos && s == TriedSlot(h, m.infos[id].service) && m.infos[id].fInTried;
      var k :| 0 <= k < |all| && all[k] == id;
    }
  }

  lemma {:induction false} SlotsKeepCounts(h: Hasher, st: Stored, b: nat, n: nat)
    requires if b < |st.buckets| then n <= |st.buckets[b]| else b == |st.buckets| && n == 0
    ensures var r, t := LoadSlots(h, st, b, n), LoadTrieds(h, st, |st.trieds|);
            r.nIdCount == t.nIdCount && r.nNew == t.nNew && r.nTried == t.nTried
    decreases b, n
  {
    hide Numbered, LoadTrieds, NewPos;
    if n > 0 { SlotsKeepCounts(h, st, b, n - 1); } else if b > 0 { SlotsKeepCounts(h, st, b - 1, |st.buckets[b - 1]|); }
  }

  /** Everything before pruning. */
  lemma AllRead(h: Hasher, m: Man)
    requires Consistent(h, m) && Listed(m)
    ensures Renumbered(m, LoadSlots(h, Save(m), NEW_BUCKETS, 0), NewList(m) + TriedList(m))
    ensures Homeless(LoadSlots(h, Save(m), NEW_BUCKETS, 0)) == {}
  {
    hide NewList, TriedList, Save, References, LoadTrieds, Inv, Everyone, LoadSlots, Loading, Renumbered, Before, Listed, Homeless;
    ListsEveryone(h, m);
    SaveParts(m);
    NothingBefore(h, m);
    var l, t, st := NewList(m), TriedList(m), Save(m);
    TriedsRead(h, m, |t|);
    assert (l + t)[..|l|] == l && |l + t| == |l| + |t|;
    BucketsRead(h, m, l + t, |l|, st, l, NEW_BUCKETS);
    SlotsKeepCounts(h, st, NEW_BUCKETS, 0);
    Assembled(h, m, l + t, |l|, LoadSlots(h, st, NEW_BUCKETS, 0));
  }

  lemma Assembled(h: Hasher, m: Man, all: seq<int>, news: nat, r: Man)
    requires Consistent(h, m) && Everyone(m, all, news) && Loading(h, m, all, |all|, m.newTab.Keys, r) && news == m.nNew
    requires |all| == m.nNew + m.nTried && 0 <= m.nTried
    requires r.nIdCount == |all| && r.nNew == m.nNew && r.nTried == m.nTried
    ensures Renumbered(m, r, all) && Homeless(r) == {}
  {
    TriedReturns(h, m, all, news, r.tried);
    forall k | 0 <= k < |all|
      ensures r.infos[k] == Reloaded(m.infos[all[k]], k, m.infos[all[k]].nRefCount) && (k < news ==> m.infos[all[k]].nRefCount > 0)
    {
      RefCountsReturn(h, m, all, news, r, k);
    }
    hide Inv;
    forall id | id in r.infos ensures r.infos[id].fInTried || r.infos[id].nRefCount != 0 {}
  }

  lemma {:induction false} RangeCount(s: set<int>, lo: int, hi: int)
    requires lo <= hi && forall k :: k in s <==> lo <= k < hi
    ensures |s| == hi - lo
    decreases hi - lo
  {
    if lo == hi {
      assert s == {};
    } else {
      RangeCount(s - {lo}, lo + 1, hi);
    }
  }

  lemma RenumberedCounts(m: Man, r: Man, all: seq<int>)
    requires Renumbered(m, r, all)
    ensures CountsOk(r, {})
  {
    hide TableLoaded, IdsLoaded;
    forall k ensures k in TriedIds(r) <==> m.nNew <= k < |all| {}
    forall k ensures k in NewIds(r) <==> 0 <= k < m.nNew {}
    RangeCount(TriedIds(r), m.nNew, |all|);
    RangeCount(NewIds(r), 0, m.nNew);
  }

  lemma RenumberedIndex(m: Man, r: Man, all: seq<int>)
    requires Renumbered(m, r, all)
    ensures IndexOk(r)
  {
    hide TableLoaded;
  }

  lemma RenumberedRefs(h: Hasher, m: Man, r: Man, all: seq<int>)
    requires Consistent(h, m) && Renumbered(m, r, all)
    ensures RefsOk(r, {})
  {
    hide IdsLoaded, TriedOk, NewOk, IndexOk, CountsOk;
    forall k | k in r.infos ensures RefOk(r, {}, k) {
      assert RefOk(m, {}, all[k]);
      SameSlots(m.newTab, all, r.newTab, k);
    }
  }

  lemma RenumberedTried(h: Hasher, m: Man, r: Man, all: seq<int>)
    requires Consistent(h, m) && Renumbered(m, r, all)
    ensures TriedOk(h, r)
  {
    hide IdsLoaded, IndexOk, CountsOk, RefsOk, NewOk, TriedSlot;
    forall k | k in r.infos && r.infos[k].fInTried
      ensures var s := TriedSlot(h, r.infos[k].service); s in r.tried && r.tried[s] == k
    {
      TriedHasSlot(h, m, all[k]);
    }
  }

  lemma RenumberedNew(h: Hasher, m: Man, r: Man, all: seq<int>)
    requires Consistent(h, m) && Renumbered(m, r, all)
    ensures NewOk(h, r)
  {
    hide IdsLoaded, IndexOk, CountsOk, RefsOk, TriedOk, NewPos;
  }

  lemma RenumberedTables(h: Hasher, m: Man, r: Man, all: seq<int>)
    requires Consistent(h, m) && Renumbered(m, r, all)
    ensures TriedOk(h, r) && NewOk(h, r)
  {
    hide Renumbered, Inv;
    RenumberedTried(h, m, r, all);
    RenumberedNew(h, m, r, all);
  }

  lemma RenumberedConsistent(h: Hasher, m: Man, r: Man, all: seq<int>)
    requires Consistent(h, m) && Renumbered(m, r, all)
    ensures Consistent(h, r)
  {
    hide Renumbered, IndexOk, TriedOk, NewOk, RefsOk, CountsOk;
    RenumberedCounts(m, r, all);
    RenumberedIndex(m, r, all);
    RenumberedRefs(h, m, r, all);
    RenumberedTables(h, m, r, all);
  }

  lemma NothingToPrune(m: Man)
    requires Placed(m)
    ensures Prune(m, {}) == m
  {
  }

  /** Main result: saving a consistent address manager and loading it again succeeds and loses nothing. */
  lemma LoadSaved(h: Hasher, m: Man)
    requires Consistent(h, m)
    ensures Listed(m) && Load(h, Save(m)).Some?
    ensures var r := Load(h, Save(m)).value; Renumbered(m, r, NewList(m) + TriedList(m)) && Consistent(h, r)
  {
    hide Inv, Renumbered, NewList, TriedList, Save, LoadSlots, Homeless, Listed, IndexOk, TriedOk, NewOk, RefsOk, CountsOk;
    ConsistentListed(h, m);
    ListsEveryone(h, m);
    WithinLimits(h, m);
    SaveParts(m);
    AllRead(h, m);
    var r := LoadSlots(h, Save(m), NEW_BUCKETS, 0);
    RenumberedConsistent(h, m, r, NewList(m) + TriedList(m));
    NothingToPrune(r);
  }

  // ---------------------------------------------------------------------------------------------
  // Writing

  /** done and what is still to come of `some` make up its list. */
  ghost predicate Halfway(some: set<int>, rest: set<int>, done: seq<int>) {
    Ascending(some) == done + Ascending(rest * some)
  }

  lemma HalfwayStart(some: set<int>, rest: set<int>)
    requires some <= rest
    ensures Halfway(some, rest, [])
  {
    assert rest * some == some;
  }

  lemma HalfwayStep(some: set<int>, rest: set<int>, done: seq<int>, id: int)
    requires Halfway(some, rest, done) && IsLeast(id, rest)
    ensures Halfway(some, rest - {id}, if id in some then done + [id] else done)
    ensures id in some ==> |done| < |Ascending(some)|
  {
    if id in some {
      AscendingStep(rest * some, id);
      assert (rest - {id}) * some == rest * some - {id};
    } else {
      assert (rest - {id}) * some == rest * some;
    }
  }

  lemma HalfwayEnd(some: set<int>, done: seq<int>)
    requires Halfway(some, {}, done)
    ensures done == Ascending(some)
  {
    assert {} * some == {};
  }

  ghost predicate Ranked(rank: map<int, int>, done: seq<int>) {
    forall k :: 0 <= k < |done| ==> done[k] in rank && rank[done[k]] == k
  }

  /** Entries of one table in the order of their ids, with the index each is written under. */
  method WriteEntries(h: Hasher, m: Man, inTried: bool) returns (entries: seq<Saved>, rank: map<int, int>)
    requires Consistent(h, m) && Listed(m)
    ensures entries == SavedList(m, if inTried then TriedList(m) else NewList(m))
    ensures Ranked(rank, if inTried then TriedList(m) else NewList(m))
  {
    hide Ascending, Halfway, IsLeast, Inv;
    ghost var some := if inTried then TriedIds(m) else NewIds(m);
    ListsEveryone(h, m);
    entries, rank := [], map[];
    var rest := m.infos.Keys;
    ghost var done: seq<int> := [];
    HalfwayStart(some, rest);
    while rest != {}
      invariant rest <= m.infos.Keys && Halfway(some, rest, done)
      invariant (forall k :: 0 <= k < |done| ==> done[k] in m.infos) && entries == SavedList(m, done)
      invariant Ranked(rank, done) && (forall k :: 0 <= k < |done| ==> done[k] !in rest)
      decreases |rest|
    {
      var id := First(rest);
      LeastIn(rest, id);
      HalfwayStep(some, rest, done, id);
      rest := rest - {id};
      rank := rank[id := |entries|];
      TableOf(h, m, id);
      if (if inTried then m.infos[id].fInTried else m.infos[id].nRefCount != 0) {
        assert |entries| != if inTried then m.nTried else m.nNew;
        entries := entries + [ToSaved(m.infos[id])];
        done := done + [id];
      }
    }
    HalfwayEnd(some, done);
  }

  lemma LeastIn(s: set<int>, x: int)
    requires IsLeast(x, s)
    ensures x in s
  {
  }

  /** New entries are those with references. */
  lemma TableOf(h: Hasher, m: Man, id: int)
    requires Consistent(h, m) && id in m.infos
    ensures id in NewIds(m) <==> m.infos[id].nRefCount != 0
    ensures id in TriedIds(m) <==> m.infos[id].fInTried
  {
    assert RefOk(m, {}, id);
  }

  method Serialize(h: Hasher, m: Man) returns (st: Stored)
    requires Consistent(h, m)
    ensures Listed(m) && st == Save(m)
  {
    hide NewList, TriedList, Inv, References, Listed, Save, SavedList, Ranked;
    ConsistentListed(h, m);
    NewListSorted(m);
    SaveParts(m);
    ghost var list := NewList(m);
    var news, rank := WriteEntries(h, m, false);
    var trieds, _ := WriteEntries(h, m, true);
    var buckets: seq<seq<int>> := [];
    while |buckets| < NEW_BUCKETS
      invariant |buckets| <= NEW_BUCKETS
      invariant forall b :: 0 <= b < |buckets| ==> buckets[b] == References(m.newTab, list, b, BUCKET_SIZE)
    {
      var refs := WriteBucket(m.newTab, rank, |buckets|, list);
      buckets := buckets + [refs];
    }
    st := Stored(1, news, trieds, buckets);
    SaveIs(m, st);
  }

  lemma NewListSorted(m: Man)
    ensures forall i, j :: 0 <= i < j < |NewList(m)| ==> NewList(m)[i] < NewList(m)[j]
  {
    AscendingOrder(NewIds(m));
  }

  lemma SaveIs(m: Man, st: Stored)
    requires Listed(m) && st.version == 1 && st.news == SavedList(m, NewList(m)) && st.trieds == SavedList(m, TriedList(m))
    requires |st.buckets| == NEW_BUCKETS
    requires forall b :: 0 <= b < NEW_BUCKETS ==> st.buckets[b] == References(m.newTab, NewList(m), b, BUCKET_SIZE)
    ensures st == Save(m)
  {
    assert st.buckets == Save(m).buckets;
  }

  method WriteBucket(t: map<Slot, int>, rank: map<int, int>, bucket: nat, ghost list: seq<int>) returns (refs: seq<int>)
    requires (forall s :: s in t ==> t[s] in list) && Ranked(rank, list)
    requires forall i, j :: 0 <= i < j < |list| ==> list[i] < list[j]
    ensures refs == References(t, list, bucket, BUCKET_SIZE)
  {
    refs := [];
    var i := 0;
    while i < BUCKET_SIZE
      invariant 0 <= i <= BUCKET_SIZE && refs == References(t, list, bucket, i)
    {
      var slot := Slot(bucket, i);
      if slot in t {
        assert list[IndexIn(list, t[slot])] == t[slot];
        refs := refs + [rank[t[slot]]];
      }
      i := i + 1;
    }
  }

  // ---------------------------------------------------------------------------------------------
  // Reading

  method Unserialize(h: Hasher, st: Stored) returns (r: Option<Man>)
    ensures r == Load(h, st)
  {
    hide AddNew, AddTried, AddSlot, Numbered, Delete, Prune, Placed;
    if |st.news| > NEW_BUCKETS * BUCKET_SIZE || |st.trieds| > TRIED_BUCKETS * BUCKET_SIZE {
      return None;
    }
    var m := EmptyMan();
    var n := 0;
    while n < |st.news|
      invariant 0 <= n <= |st.news| && m == LoadNews(h, st, n)
    {
      m := AddNew(h, st, m, st.news[n]);
      n := n + 1;
    }
    m := m.(nIdCount := |st.news|, nNew := |st.news|, nTried := |st.trieds|);
    n := 0;
    while n < |st.trieds|
      invariant 0 <= n <= |st.trieds| && m == LoadTrieds(h, st, n)
    {
      m := AddTried(h, m, st.trieds[n]);
      n := n + 1;
    }
    var b := 0;
    while b < |st.buckets|
      invariant 0 <= b <= |st.buckets| && m == LoadSlots(h, st, b, 0)
    {
      n := 0;
      while n < |st.buckets[b]|
        invariant 0 <= n <= |st.buckets[b]| && m == LoadSlots(h, st, b, n)
      {
        m := AddSlot(h, st, m, b, st.buckets[b][n]);
        n := n + 1;
      }
      b := b + 1;
    }
    NumberedPlaced(m, m.nIdCount);
    m := PruneHomeless(m);
    return Some(m);
  }

  method PruneHomeless(m: Man) returns (r: Man)
    requires Placed(m)
    ensures r == Prune(m, Homeless(m))
  {
    hide Delete, Placed;
    r := m;
    var rest := Homeless(m);
    while rest != {}
      invariant Placed(r) && rest <= r.infos.Keys && Prune(r, rest) == Prune(m, Homeless(m))
      decreases |rest|
    {
      var id := First(rest);
      LeastIn(rest, id);
      DeletePlaced(r, id);
      PruneStep(r, rest, id);
      r := Delete(r, id);
      rest := rest - {id};
    }
  }

  lemma PruneStep(m: Man, gone: set<int>, id: int)
    requires Placed(m) && gone <= m.infos.Keys && IsLeast(id, gone) && CanDelete(m, id) && Placed(Delete(m, id))
    requires Delete(m, id).infos.Keys == m.infos.Keys - {id}
    ensures Prune(m, gone) == Prune(Delete(m, id), gone - {id})
  {
    hide Delete, Placed;
  }
}
