/** The address manager's tables: five redundant indexes over known network addresses, the consistency
    they must keep, and each update as a function of the whole state.

    Bucket hashes are arbitrary functions reduced to the table sizes. A table is the map of its occupied
    slots; the slots holding -1 are the absent ones.
 */
module AddrMan {

  const TRIED_BUCKETS: nat := 256
  const NEW_BUCKETS: nat := 1024
  const BUCKET_SIZE: nat := 64
  const NEW_BUCKETS_PER_ADDRESS: nat := 8

  type NetAddr = int
  datatype Service = Service(addr: NetAddr, port: nat)

  datatype Slot = Slot(bucket: int, pos: int)

  datatype Info = Info(service: Service, source: NetAddr, nServices: set<int>, nTime: int,
                       nLastSuccess: int, nLastTry: int, nLastCountAttempt: int, nAttempts: int,
                       nRefCount: int, fInTried: bool, nRandomPos: int)

  /** The keyed hashes behind bucket and position choice. */
  datatype Hasher = Hasher(tried: Service -> nat, newBucket: (Service, NetAddr) -> nat, position: (bool, int, Service) -> nat)

  datatype Man = Man(nIdCount: int, infos: map<int, Info>, ids: map<NetAddr, int>, order: seq<int>,
                     nTried: int, nNew: int, tried: map<Slot, int>, newTab: map<Slot, int>)

  function TriedSlot(h: Hasher, s: Service): Slot {
    var b := h.tried(s) % TRIED_BUCKETS;
    Slot(b, h.position(false, b, s) % BUCKET_SIZE)
  }

  function NewPos(h: Hasher, s: Service, bucket: int): int {
    h.position(true, bucket, s) % BUCKET_SIZE
  }

  function NewSlot(h: Hasher, s: Service, source: NetAddr): Slot {
    var b := h.newBucket(s, source) % NEW_BUCKETS;
    Slot(b, NewPos(h, s, b))
  }

  function EmptyMan(): Man {
    Man(0, map[], map[], [], 0, 0, map[], map[])
  }

  // ---------------------------------------------------------------------------------------------
  // Consistency. While an update is under way some ids may float: known, but in neither table (F); and
  // some of those may not be included in nNew (U).

  /** mapInfo, mapAddr and vRandom index the same entries. */
  ghost predicate IndexOk(m: Man) {
    && 0 <= m.nIdCount && (forall id :: id in m.infos ==> 0 <= id < m.nIdCount)
    && Placed(m) && Addressed(m)
  }

  /** vRandom and the entries' places in it agree. */
  ghost predicate Placed(m: Man) {
    && (forall id :: id in m.infos ==> 0 <= m.infos[id].nRandomPos < |m.order| && m.order[m.infos[id].nRandomPos] == id)
    && (forall i :: 0 <= i < |m.order| ==> m.order[i] in m.infos && m.infos[m.order[i]].nRandomPos == i)
  }

  /** mapAddr finds every entry by its address, and nothing else. */
  ghost predicate Addressed(m: Man) {
    && (forall id :: id in m.infos ==> m.infos[id].service.addr in m.ids && m.ids[m.infos[id].service.addr] == id)
    && (forall a :: a in m.ids ==> m.ids[a] in m.infos && m.infos[m.ids[a]].service.addr == a)
  }

  /** A tried entry sits in its one hashed slot, and every occupied slot is some tried entry's. */
  ghost predicate TriedOk(h: Hasher, m: Man) {
    && (forall s :: s in m.tried ==> m.tried[s] in m.infos && m.infos[m.tried[s]].fInTried)
    && (forall id :: id in m.infos && m.infos[id].fInTried ==>
          var s := TriedSlot(h, m.infos[id].service); s in m.tried && m.tried[s] == id)
    && (forall s :: s in m.tried ==> m.tried[s] in m.infos && s == TriedSlot(h, m.infos[m.tried[s]].service))
  }

  /** Occupied new slots belong to entries that are not tried, at the position hashed for the bucket. */
  ghost predicate NewOk(h: Hasher, m: Man) {
    forall s :: s in m.newTab ==>
      && 0 <= s.bucket < NEW_BUCKETS
      && m.newTab[s] in m.infos && !m.infos[m.newTab[s]].fInTried
      && s.pos == NewPos(h, m.infos[m.newTab[s]].service, s.bucket)
  }

  function SlotsOf(t: map<Slot, int>, id: int): set<Slot> {
    set s | s in t && t[s] == id
  }

  ghost predicate RefOk(m: Man, F: set<int>, id: int)
    requires id in m.infos
  {
    var info := m.infos[id];
    if info.fInTried then info.nRefCount == 0 && id !in F
    else info.nRefCount == |SlotsOf(m.newTab, id)| <= NEW_BUCKETS_PER_ADDRESS && (info.nRefCount == 0 <==> id in F)
  }

  /** Reference counts are the numbers of new slots held: 1 to 8, or 0 for tried and floating entries. */
  ghost predicate RefsOk(m: Man, F: set<int>) {
    F <= m.infos.Keys && forall id :: id in m.infos ==> RefOk(m, F, id)
  }

  function TriedIds(m: Man): set<int> {
    set id | id in m.infos && m.infos[id].fInTried
  }

  function NewIds(m: Man): set<int> {
    set id | id in m.infos && !m.infos[id].fInTried
  }

  ghost predicate CountsOk(m: Man, U: set<int>) {
    && U <= NewIds(m)
    && m.nTried == |TriedIds(m)|
    && m.nNew == |NewIds(m)| - |U|
  }

  ghost predicate Inv(h: Hasher, m: Man, F: set<int>, U: set<int>) {
    IndexOk(m) && TriedOk(h, m) && NewOk(h, m) && RefsOk(m, F) && CountsOk(m, U)
  }

  /** What holds between calls. */
  ghost predicate Consistent(h: Hasher, m: Man) {
    Inv(h, m, {}, {})
  }

  // ---------------------------------------------------------------------------------------------
  // Updates

  function SetInfo(m: Man, id: int, info: Info): Man {
    m.(infos := m.infos[id := info])
  }

  function Create(m: Man, info: Info): Man {
    var id := m.nIdCount;
    m.(nIdCount := id + 1, infos := m.infos[id := info.(nRandomPos := |m.order|)],
       ids := m.ids[info.service.addr := id], order := m.order + [id])
  }

  function SwapRandom(m: Man, i: nat, j: nat): Man
    requires i < |m.order| && j < |m.order| && m.order[i] in m.infos && m.order[j] in m.infos
  {
    if i == j then m
    else
      var a, b := m.order[i], m.order[j];
      var infos := m.infos[a := m.infos[a].(nRandomPos := j)];
      m.(infos := infos[b := infos[b].(nRandomPos := i)], order := m.order[i := b][j := a])
  }

  predicate CanDelete(m: Man, id: int) {
    && id in m.infos && 0 <= m.infos[id].nRandomPos < |m.order|
    && m.order[m.infos[id].nRandomPos] in m.infos && m.order[|m.order| - 1] in m.infos
  }

  function Delete(m: Man, id: int): Man
    requires CanDelete(m, id)
  {
    var last := |m.order| - 1;
    var s := SwapRandom(m, m.infos[id].nRandomPos, last);
    s.(order := s.order[..last], ids := s.ids - {m.infos[id].service.addr}, infos := s.infos - {id}, nNew := s.nNew - 1)
  }

  /** The first half of ClearNew: the slot's occupant gives it up. */
  function Release(m: Man, s: Slot): Man
    requires s in m.newTab && m.newTab[s] in m.infos
  {
    var id := m.newTab[s];
    SetInfo(m, id, m.infos[id].(nRefCount := m.infos[id].nRefCount - 1)).(newTab := m.newTab - {s})
  }

  predicate CanClear(m: Man, s: Slot) {
    s in m.newTab ==> m.newTab[s] in m.infos && CanDelete(Release(m, s), m.newTab[s])
  }

  function ClearNew(m: Man, s: Slot): Man
    requires CanClear(m, s)
  {
    if s !in m.newTab then m
    else
      var id := m.newTab[s];
      var r := Release(m, s);
      if r.infos[id].nRefCount == 0 then Delete(r, id) else r
  }

  /** The entry leaves every new bucket. */
  function Withdraw(m: Man, id: int): Man
    requires id in m.infos
  {
    var held := SlotsOf(m.newTab, id);
    SetInfo(m, id, m.infos[id].(nRefCount := m.infos[id].nRefCount - |held|)).(newTab := m.newTab - held)
  }

  /** A tried entry loses its slot. */
  function Evict(m: Man, s: Slot): Man
    requires s in m.tried && m.tried[s] in m.infos
  {
    var id := m.tried[s];
    SetInfo(m, id, m.infos[id].(fInTried := false)).(tried := m.tried - {s}, nTried := m.nTried - 1)
  }

  /** A floating entry takes a free new slot. */
  function EnterNew(m: Man, id: int, s: Slot): Man
    requires id in m.infos
  {
    SetInfo(m, id, m.infos[id].(nRefCount := m.infos[id].nRefCount + 1)).(newTab := m.newTab[s := id])
  }

  function EnterTried(m: Man, id: int, s: Slot): Man
    requires id in m.infos
  {
    SetInfo(m, id, m.infos[id].(fInTried := true)).(tried := m.tried[s := id], nTried := m.nTried + 1)
  }

  // ---------------------------------------------------------------------------------------------
  // Changes to an entry that no index depends on

  /** Same service, reference count, table and position: only statistics differ. */
  ghost predicate SameStanding(a: Info, b: Info) {
    a.service == b.service && a.nRefCount == b.nRefCount && a.fInTried == b.fInTried && a.nRandomPos == b.nRandomPos
  }

  /** Entries keep their services and tables. */
  ghost predicate SameEntries(m: Man, r: Man) {
    && r.infos.Keys == m.infos.Keys
    && forall id :: id in m.infos ==> SameEntry(m.infos[id], r.infos[id])
  }

  ghost predicate SameEntry(a: Info, b: Info) {
    b.service == a.service && b.fInTried == a.fInTried
  }

  lemma CountsKept(m: Man, r: Man, U: set<int>)
    requires CountsOk(m, U) && SameEntries(m, r) && r.nTried == m.nTried && r.nNew == m.nNew
    ensures CountsOk(r, U)
  {
    forall id ensures (id in TriedIds(r) <==> id in TriedIds(m)) && (id in NewIds(r) <==> id in NewIds(m)) {
      if id in m.infos { assert SameEntry(m.infos[id], r.infos[id]); }
    }
    assert TriedIds(r) == TriedIds(m) && NewIds(r) == NewIds(m);
  }

  lemma TriedKept(h: Hasher, m: Man, r: Man)
    requires TriedOk(h, m) && SameEntries(m, r) && r.tried == m.tried
    ensures TriedOk(h, r)
  {
    hide TriedSlot;
    forall id | id in r.infos ensures id in m.infos && SameEntry(m.infos[id], r.infos[id]) {}
  }

  lemma NewKept(h: Hasher, m: Man, r: Man)
    requires NewOk(h, m) && SameEntries(m, r) && forall s :: s in r.newTab ==> s in m.newTab && r.newTab[s] == m.newTab[s]
    ensures NewOk(h, r)
  {
    hide NewPos;
  }

  lemma RefsKept(m: Man, r: Man, F: set<int>)
    requires RefsOk(m, F) && SameEntries(m, r) && r.newTab == m.newTab
    requires forall id :: id in m.infos ==> r.infos[id].nRefCount == m.infos[id].nRefCount
    ensures RefsOk(r, F)
  {
    hide SlotsOf;
    forall i | i in r.infos ensures RefOk(r, F, i) { assert RefOk(m, F, i); }
  }

  lemma UpdateStats(h: Hasher, m: Man, F: set<int>, U: set<int>, id: int, info: Info)
    requires Inv(h, m, F, U) && id in m.infos && SameStanding(m.infos[id], info)
    ensures Inv(h, SetInfo(m, id, info), F, U)
  {
    hide IndexOk, TriedOk, NewOk, RefsOk, CountsOk, SlotsOf, TriedSlot, NewPos;
    var r := SetInfo(m, id, info);
    OneChangedIndex(m, r, id);
    CountsKept(m, r, U);
    TriedKept(h, m, r);
    NewKept(h, m, r);
    RefsKept(m, r, F);
  }

  // ---------------------------------------------------------------------------------------------
  // vRandom

  /** Entries unchanged but for their place in vRandom. */
  ghost predicate OnlyMoved(m: Man, r: Man) {
    && r.nIdCount == m.nIdCount && r.ids == m.ids && r.nTried == m.nTried && r.nNew == m.nNew
    && r.tried == m.tried && r.newTab == m.newTab
    && r.infos.Keys == m.infos.Keys
    && (forall id :: id in m.infos ==> Unmoved(r.infos[id]) == Unmoved(m.infos[id]))
  }

  function Unmoved(info: Info): Info {
    info.(nRandomPos := -1)
  }

  lemma SwapDiffer(m: Man, i: nat, j: nat)
    requires Placed(m) && i < |m.order| && j < |m.order|
    ensures m.order[i] in m.infos && m.order[j] in m.infos
    ensures i != j ==> m.order[i] != m.order[j]
    ensures m.infos[m.order[i]].nRandomPos == i && m.infos[m.order[j]].nRandomPos == j
  {
  }

  lemma SwapMoves(m: Man, i: nat, j: nat)
    requires Placed(m) && i < |m.order| && j < |m.order|
    ensures var r := SwapRandom(m, i, j);
            && OnlyMoved(m, r) && r.infos.Keys == m.infos.Keys
            && |r.order| == |m.order| && r.order[j] == m.order[i] && r.order[i] == m.order[j]
            && (forall k :: 0 <= k < |m.order| && k != i && k != j ==> r.order[k] == m.order[k])
            && (forall id :: id in m.infos && id != m.order[i] && id != m.order[j] ==> r.infos[id] == m.infos[id])
            && r.infos[m.order[i]].nRandomPos == j && r.infos[m.order[j]].nRandomPos == i
  {
    SwapDiffer(m, i, j);
    hide Placed;
  }

  lemma PlaceOf(m: Man, id: int)
    requires Placed(m) && id in m.infos
    ensures 0 <= m.infos[id].nRandomPos < |m.order| && m.order[m.infos[id].nRandomPos] == id
  {
  }

  lemma PlacedAt(m: Man, k: nat)
    requires Placed(m) && k < |m.order|
    ensures m.order[k] in m.infos && m.infos[m.order[k]].nRandomPos == k
  {
  }

  lemma SwapPlaces(m: Man, i: nat, j: nat)
    requires Placed(m) && i < |m.order| && j < |m.order| && m.order[i] in m.infos && m.order[j] in m.infos
    ensures Placed(SwapRandom(m, i, j))
  {
    SwapMoves(m, i, j);
    PlacedAt(m, i);
    PlacedAt(m, j);
    hide SwapRandom, OnlyMoved, Placed;
    var r := SwapRandom(m, i, j);
    forall id | id in r.infos ensures 0 <= r.infos[id].nRandomPos < |r.order| && r.order[r.infos[id].nRandomPos] == id {
      PlaceOf(m, id);
    }
    forall k | 0 <= k < |r.order| ensures r.order[k] in r.infos && r.infos[r.order[k]].nRandomPos == k {
      PlacedAt(m, k);
    }
    ArePlaced(r);
  }

  lemma ArePlaced(m: Man)
    requires forall id :: id in m.infos ==> 0 <= m.infos[id].nRandomPos < |m.order| && m.order[m.infos[id].nRandomPos] == id
    requires forall i :: 0 <= i < |m.order| ==> m.order[i] in m.infos && m.infos[m.order[i]].nRandomPos == i
    ensures Placed(m)
  {
  }

  lemma MovedAddressed(m: Man, r: Man)
    requires Addressed(m) && OnlyMoved(m, r)
    ensures Addressed(r)
  {
    forall id | id in r.infos ensures r.infos[id].service == m.infos[id].service {
      assert Unmoved(r.infos[id]).service == Unmoved(m.infos[id]).service;
    }
  }

  lemma SwapIndex(m: Man, i: nat, j: nat)
    requires IndexOk(m) && i < |m.order| && j < |m.order|
    ensures IndexOk(SwapRandom(m, i, j))
  {
    SwapDiffer(m, i, j);
    SwapMoves(m, i, j);
    hide SwapRandom, Placed, Addressed;
    SwapPlaces(m, i, j);
    MovedAddressed(m, SwapRandom(m, i, j));
  }

  lemma MovedKeeps(h: Hasher, m: Man, r: Man, F: set<int>, U: set<int>)
    requires TriedOk(h, m) && NewOk(h, m) && RefsOk(m, F) && CountsOk(m, U) && OnlyMoved(m, r)
    ensures TriedOk(h, r) && NewOk(h, r) && RefsOk(r, F) && CountsOk(r, U)
  {
    hide SlotsOf, TriedSlot, NewPos, TriedOk, NewOk, RefsOk, CountsOk;
    forall id | id in r.infos
      ensures id in m.infos && r.infos[id].service == m.infos[id].service
      ensures r.infos[id].fInTried == m.infos[id].fInTried && r.infos[id].nRefCount == m.infos[id].nRefCount
    {
      assert Unmoved(r.infos[id]) == Unmoved(m.infos[id]);
    }
    CountsKept(m, r, U);
    TriedKept(h, m, r);
    NewKept(h, m, r);
    RefsKept(m, r, F);
  }

  /** Swapping two places in vRandom keeps every index in step. */
  lemma SwapKeeps(h: Hasher, m: Man, F: set<int>, U: set<int>, i: nat, j: nat)
    requires Inv(h, m, F, U) && i < |m.order| && j < |m.order|
    ensures Inv(h, SwapRandom(m, i, j), F, U)
  {
    hide SwapRandom, Placed, Addressed, TriedOk, NewOk, RefsOk, CountsOk;
    SwapDiffer(m, i, j);
    SwapMoves(m, i, j);
    SwapIndex(m, i, j);
    MovedKeeps(h, m, SwapRandom(m, i, j), F, U);
  }

  // ---------------------------------------------------------------------------------------------
  // One entry changes its standing

  /** Only entry id changed, and not its service or its place in vRandom. */
  ghost predicate OneChanged(m: Man, r: Man, id: int) {
    && id in m.infos && id in r.infos && r.infos == m.infos[id := r.infos[id]]
    && r.infos[id].service == m.infos[id].service && r.infos[id].nRandomPos == m.infos[id].nRandomPos
    && r.ids == m.ids && r.order == m.order && r.nIdCount == m.nIdCount
  }

  lemma OneChangedIndex(m: Man, r: Man, id: int)
    requires IndexOk(m) && OneChanged(m, r, id)
    ensures IndexOk(r)
  {
  }

  lemma SlotsOfRemoved(t: map<Slot, int>, gone: set<Slot>, id: int)
    ensures SlotsOf(t - gone, id) == SlotsOf(t, id) - gone
  {
  }

  lemma SlotsOfAdded(t: map<Slot, int>, s: Slot, id: int, i: int)
    requires s !in t
    ensures |SlotsOf(t[s := id], i)| == |SlotsOf(t, i)| + if i == id then 1 else 0
  {
    if i == id {
      assert SlotsOf(t[s := id], i) == SlotsOf(t, i) + {s};
    } else {
      assert SlotsOf(t[s := id], i) == SlotsOf(t, i);
    }
  }

  lemma ReleaseRefs(h: Hasher, m: Man, F: set<int>, s: Slot)
    requires RefsOk(m, F) && NewOk(h, m) && s in m.newTab
    ensures var id := m.newTab[s]; var r := Release(m, s);
            m.infos[id].nRefCount >= 1 && RefsOk(r, if r.infos[id].nRefCount == 0 then F + {id} else F)
  {
    hide NewPos;
    var id := m.newTab[s];
    var r := Release(m, s);
    assert RefOk(m, F, id);
    assert s in SlotsOf(m.newTab, id);
    var F' := if r.infos[id].nRefCount == 0 then F + {id} else F;
    forall i | i in r.infos ensures RefOk(r, F', i) {
      assert RefOk(m, F, i);
      SlotsOfRemoved(m.newTab, {s}, i);
      if i != id { assert SlotsOf(m.newTab, i) - {s} == SlotsOf(m.newTab, i); }
    }
  }

  /** Releasing a slot: the occupant's count drops with it, and at zero it floats. */
  lemma ReleaseKeeps(h: Hasher, m: Man, F: set<int>, U: set<int>, s: Slot)
    requires Inv(h, m, F, U) && s in m.newTab
    ensures var id := m.newTab[s];
            id in m.infos && id !in F && m.infos[id].nRefCount >= 1 &&
            var r := Release(m, s); Inv(h, r, if r.infos[id].nRefCount == 0 then F + {id} else F, U)
  {
    hide IndexOk, TriedOk, NewOk, RefsOk, CountsOk, SlotsOf, TriedSlot, NewPos;
    OccupantIsNew(h, m, s);
    var id := m.newTab[s];
    var r := Release(m, s);
    ReleaseRefs(h, m, F, s);
    OneChangedIndex(m, r, id);
    CountsKept(m, r, U);
    TriedKept(h, m, r);
    NewKept(h, m, r);
    FloatingHoldNothing(m, F, s);
  }

  lemma FloatingHoldNothing(m: Man, F: set<int>, s: Slot)
    requires RefsOk(m, F) && s in m.newTab && m.newTab[s] in m.infos
    ensures m.newTab[s] !in F
  {
    var id := m.newTab[s];
    assert RefOk(m, F, id);
    assert s in SlotsOf(m.newTab, id);
  }

  lemma WithdrawRefs(m: Man, F: set<int>, id: int)
    requires RefsOk(m, F) && id in m.infos && !m.infos[id].fInTried
    ensures RefsOk(Withdraw(m, id), F + {id}) && Withdraw(m, id).infos[id].nRefCount == 0
  {
    var held := SlotsOf(m.newTab, id);
    var r := Withdraw(m, id);
    assert RefOk(m, F, id);
    forall i | i in r.infos ensures RefOk(r, F + {id}, i) {
      assert RefOk(m, F, i);
      SlotsOfRemoved(m.newTab, held, i);
      if i != id { assert SlotsOf(m.newTab, i) - held == SlotsOf(m.newTab, i); }
    }
  }

  /** Leaving all new buckets brings the count to exactly zero. */
  lemma WithdrawKeeps(h: Hasher, m: Man, F: set<int>, U: set<int>, id: int)
    requires Inv(h, m, F, U) && id in m.infos && !m.infos[id].fInTried
    ensures Inv(h, Withdraw(m, id), F + {id}, U) && Withdraw(m, id).infos[id].nRefCount == 0
  {
    hide IndexOk, TriedOk, NewOk, RefsOk, CountsOk, SlotsOf, TriedSlot, NewPos;
    var r := Withdraw(m, id);
    WithdrawRefs(m, F, id);
    OneChangedIndex(m, r, id);
    CountsKept(m, r, U);
    TriedKept(h, m, r);
    NewKept(h, m, r);
  }

  lemma EnterNewRefs(m: Man, F: set<int>, id: int, s: Slot)
    requires RefsOk(m, F) && id in m.infos && !m.infos[id].fInTried && s !in m.newTab
    requires m.infos[id].nRefCount < NEW_BUCKETS_PER_ADDRESS
    ensures RefsOk(EnterNew(m, id, s), F - {id})
  {
    var r := EnterNew(m, id, s);
    forall i | i in r.infos ensures RefOk(r, F - {id}, i) {
      assert RefOk(m, F, i);
      SlotsOfAdded(m.newTab, s, id, i);
    }
  }

  lemma NewEntered(h: Hasher, m: Man, id: int, s: Slot)
    requires NewOk(h, m) && id in m.infos && !m.infos[id].fInTried
    requires 0 <= s.bucket < NEW_BUCKETS && s.pos == NewPos(h, m.infos[id].service, s.bucket)
    ensures NewOk(h, EnterNew(m, id, s))
  {
    hide NewPos;
  }

  lemma EnterNewKeeps(h: Hasher, m: Man, F: set<int>, U: set<int>, id: int, s: Slot)
    requires Inv(h, m, F, U) && id in m.infos && !m.infos[id].fInTried && s !in m.newTab
    requires m.infos[id].nRefCount < NEW_BUCKETS_PER_ADDRESS
    requires 0 <= s.bucket < NEW_BUCKETS && s.pos == NewPos(h, m.infos[id].service, s.bucket)
    ensures Inv(h, EnterNew(m, id, s), F - {id}, U)
  {
    hide IndexOk, TriedOk, NewOk, RefsOk, CountsOk, SlotsOf, TriedSlot, NewPos;
    var r := EnterNew(m, id, s);
    EnterNewRefs(m, F, id, s);
    OneChangedIndex(m, r, id);
    CountsKept(m, r, U);
    TriedKept(h, m, r);
    NewEntered(h, m, id, s);
  }

  lemma EvictRefs(h: Hasher, m: Man, F: set<int>, s: Slot)
    requires RefsOk(m, F) && TriedOk(h, m) && NewOk(h, m) && s in m.tried
    ensures RefsOk(Evict(m, s), F + {m.tried[s]})
  {
    hide NewPos, TriedSlot;
    var id := m.tried[s];
    var r := Evict(m, s);
    assert RefOk(m, F, id);
    assert SlotsOf(m.newTab, id) == {};
    forall i | i in r.infos ensures RefOk(r, F + {id}, i) { assert RefOk(m, F, i); }
  }

  lemma EvictCounts(m: Man, U: set<int>, s: Slot)
    requires CountsOk(m, U) && s in m.tried && m.tried[s] in m.infos && m.infos[m.tried[s]].fInTried
    ensures CountsOk(Evict(m, s), U + {m.tried[s]})
  {
    var id := m.tried[s];
    var r := Evict(m, s);
    assert id in TriedIds(m);
    assert TriedIds(r) == TriedIds(m) - {id};
    assert NewIds(r) == NewIds(m) + {id};
    assert id !in U;
  }

  lemma EvictTables(h: Hasher, m: Man, s: Slot)
    requires TriedOk(h, m) && NewOk(h, m) && s in m.tried
    ensures TriedOk(h, Evict(m, s)) && NewOk(h, Evict(m, s))
  {
    hide NewPos, TriedSlot;
    var r := Evict(m, s);
    TriedDistinct(h, m, s);
    forall i | i in r.infos && r.infos[i].fInTried
      ensures var t := TriedSlot(h, r.infos[i].service); t in r.tried && r.tried[t] == i
    {
      assert m.infos[i].fInTried;
    }
  }

  /** An evicted entry floats, counted in neither table. */
  lemma EvictKeeps(h: Hasher, m: Man, F: set<int>, U: set<int>, s: Slot)
    requires Inv(h, m, F, U) && s in m.tried
    ensures m.tried[s] in m.infos && m.tried[s] !in F && m.tried[s] !in U
    ensures Inv(h, Evict(m, s), F + {m.tried[s]}, U + {m.tried[s]})
  {
    var id := m.tried[s];
    TriedNotFloating(h, m, F, U, s);
    EvictTables(h, m, s);
    EvictRefs(h, m, F, s);
    EvictCounts(m, U, s);
    hide RefsOk, CountsOk, TriedOk, NewOk;
    OneChangedIndex(m, Evict(m, s), id);
  }

  lemma TriedNotFloating(h: Hasher, m: Man, F: set<int>, U: set<int>, s: Slot)
    requires TriedOk(h, m) && RefsOk(m, F) && CountsOk(m, U) && s in m.tried
    ensures m.tried[s] in m.infos && m.infos[m.tried[s]].fInTried && m.tried[s] !in F && m.tried[s] !in U
  {
    assert RefOk(m, F, m.tried[s]);
  }

  lemma TriedDistinct(h: Hasher, m: Man, s: Slot)
    requires TriedOk(h, m) && s in m.tried
    ensures forall i :: i in m.infos && m.infos[i].fInTried && i != m.tried[s] ==> TriedSlot(h, m.infos[i].service) != s
  {
  }

  lemma EnterTriedRefs(m: Man, F: set<int>, id: int, s: Slot)
    requires RefsOk(m, F) && id in F
    ensures RefsOk(EnterTried(m, id, s), F - {id})
  {
    var r := EnterTried(m, id, s);
    assert RefOk(m, F, id);
    forall i | i in r.infos ensures RefOk(r, F - {id}, i) { assert RefOk(m, F, i); }
  }

  lemma EnterTriedCounts(m: Man, U: set<int>, id: int, s: Slot)
    requires CountsOk(m, U) && id in U
    ensures CountsOk(EnterTried(m, id, s), U - {id})
  {
    var r := EnterTried(m, id, s);
    assert TriedIds(r) == TriedIds(m) + {id};
    assert NewIds(r) == NewIds(m) - {id};
  }

  lemma FloatingInNoSlot(m: Man, F: set<int>, id: int)
    requires RefsOk(m, F) && id in F
    ensures id in m.infos && !m.infos[id].fInTried && forall s :: s in m.newTab ==> m.newTab[s] != id
  {
    assert RefOk(m, F, id);
    assert SlotsOf(m.newTab, id) == {};
    forall s | s in m.newTab ensures m.newTab[s] != id {
      assert s !in SlotsOf(m.newTab, id);
    }
  }

  lemma EnterTriedTables(h: Hasher, m: Man, id: int)
    requires TriedOk(h, m) && NewOk(h, m) && id in m.infos && !m.infos[id].fInTried && (forall s :: s in m.newTab ==> m.newTab[s] != id)
    requires TriedSlot(h, m.infos[id].service) !in m.tried
    ensures var r := EnterTried(m, id, TriedSlot(h, m.infos[id].service)); TriedOk(h, r) && NewOk(h, r)
  {
    hide NewPos, TriedSlot;
  }

  /** A floating, uncounted entry becomes tried. */
  lemma EnterTriedKeeps(h: Hasher, m: Man, F: set<int>, U: set<int>, id: int)
    requires Inv(h, m, F, U) && id in F && id in U && TriedSlot(h, m.infos[id].service) !in m.tried
    ensures Inv(h, EnterTried(m, id, TriedSlot(h, m.infos[id].service)), F - {id}, U - {id})
  {
    hide IndexOk, TriedOk, NewOk, RefsOk, CountsOk, SlotsOf, TriedSlot, NewPos;
    FloatingInNoSlot(m, F, id);
    var s := TriedSlot(h, m.infos[id].service);
    var r := EnterTried(m, id, s);
    EnterTriedRefs(m, F, id, s);
    EnterTriedCounts(m, U, id, s);
    EnterTriedTables(h, m, id);
    OneChangedIndex(m, r, id);
  }

  lemma CountOut(h: Hasher, m: Man, F: set<int>, U: set<int>, id: int)
    requires Inv(h, m, F, U) && id in NewIds(m) && id !in U
    ensures Inv(h, m.(nNew := m.nNew - 1), F, U + {id})
  {
    hide IndexOk, TriedOk, NewOk, RefsOk, SlotsOf;
    var r := m.(nNew := m.nNew - 1);
    assert TriedIds(r) == TriedIds(m) && NewIds(r) == NewIds(m);
    OneChangedIndex(m, r, id);
    TriedKept(h, m, r);
    NewKept(h, m, r);
    RefsKept(m, r, F);
  }

  lemma CountIn(h: Hasher, m: Man, F: set<int>, U: set<int>, id: int)
    requires Inv(h, m, F, U) && id in U
    ensures Inv(h, m.(nNew := m.nNew + 1), F, U - {id})
  {
    hide IndexOk, TriedOk, NewOk, RefsOk, SlotsOf;
    var r := m.(nNew := m.nNew + 1);
    assert TriedIds(r) == TriedIds(m) && NewIds(r) == NewIds(m);
    OneChangedIndex(m, r, id);
    TriedKept(h, m, r);
    NewKept(h, m, r);
    RefsKept(m, r, F);
  }

  // ---------------------------------------------------------------------------------------------
  // Entries come and go

  ghost predicate NewInfo(info: Info) {
    info.nRefCount == 0 && !info.fInTried
  }

  lemma CreateRefs(h: Hasher, m: Man, F: set<int>, info: Info)
    requires IndexOk(m) && NewOk(h, m) && RefsOk(m, F) && NewInfo(info)
    ensures RefsOk(Create(m, info), F + {m.nIdCount})
  {
    hide NewPos;
    var r, id := Create(m, info), m.nIdCount;
    assert SlotsOf(m.newTab, id) == {};
    forall i | i in r.infos ensures RefOk(r, F + {id}, i) {
      if i != id { assert RefOk(m, F, i); }
    }
  }

  lemma CreatedIds(m: Man, r: Man, id: int)
    requires id !in m.infos && id in r.infos && r.infos == m.infos[id := r.infos[id]] && !r.infos[id].fInTried
    ensures TriedIds(r) == TriedIds(m) && NewIds(r) == NewIds(m) + {id} && id !in NewIds(m)
  {
  }

  lemma OneMoreEach(a: set<int>, b: set<int>, x: int)
    requires x !in a && b <= a
    ensures |a + {x}| - |b + {x}| == |a| - |b|
  {
  }

  lemma CreateCounts(m: Man, U: set<int>, info: Info)
    requires IndexOk(m) && CountsOk(m, U) && NewInfo(info)
    ensures CountsOk(Create(m, info), U + {m.nIdCount})
  {
    NextIdIsFree(m);
    hide IndexOk;
    var r, id := Create(m, info), m.nIdCount;
    assert TriedIds(r) == TriedIds(m) by { CreatedIds(m, r, id); }
    assert NewIds(r) == NewIds(m) + {id} by { CreatedIds(m, r, id); }
    hide Create, TriedIds, NewIds;
    OneMoreEach(NewIds(m), U, id);
  }

  lemma CreateTables(h: Hasher, m: Man, info: Info)
    requires TriedOk(h, m) && NewOk(h, m) && m.nIdCount !in m.infos && NewInfo(info)
    ensures TriedOk(h, Create(m, info)) && NewOk(h, Create(m, info))
  {
    hide NewPos, TriedSlot;
  }

  lemma NextIdIsFree(m: Man)
    requires IndexOk(m)
    ensures m.nIdCount !in m.infos
  {
  }

  /** A created entry floats and is not counted yet. */
  lemma CreateKeeps(h: Hasher, m: Man, F: set<int>, U: set<int>, info: Info)
    requires Inv(h, m, F, U) && NewInfo(info) && info.service.addr !in m.ids
    ensures Inv(h, Create(m, info), F + {m.nIdCount}, U + {m.nIdCount})
    ensures m.nIdCount !in m.infos && m.nIdCount !in F && m.nIdCount !in U
  {
    hide IndexOk, TriedOk, NewOk, RefsOk, CountsOk, SlotsOf, TriedSlot, NewPos;
    NextIdIsFree(m);
    FloatingKnown(m, F, U);
    CreateRefs(h, m, F, info);
    CreateCounts(m, U, info);
    CreateTables(h, m, info);
    CreateIndex(m, info);
  }

  lemma FloatingKnown(m: Man, F: set<int>, U: set<int>)
    requires RefsOk(m, F) && CountsOk(m, U)
    ensures F <= m.infos.Keys && U <= m.infos.Keys
  {
  }

  lemma CreateIndex(m: Man, info: Info)
    requires IndexOk(m) && info.service.addr !in m.ids
    ensures IndexOk(Create(m, info))
  {
    var r, id := Create(m, info), m.nIdCount;
    forall i | i in r.infos ensures r.infos[i].service.addr in r.ids && r.ids[r.infos[i].service.addr] == i {
      if i != id { assert m.infos[i].service.addr in m.ids; }
    }
  }

  /** The last step of Delete, once the entry is last in vRandom. */
  function DropLast(m: Man, id: int): Man
    requires m.order != [] && id in m.infos
  {
    m.(order := m.order[..|m.order| - 1], ids := m.ids - {m.infos[id].service.addr}, infos := m.infos - {id}, nNew := m.nNew - 1)
  }

  lemma DropLastIndex(m: Man, id: int)
    requires IndexOk(m) && id in m.infos && m.order != [] && m.order[|m.order| - 1] == id
    ensures IndexOk(DropLast(m, id))
  {
    var r := DropLast(m, id);
    var last := |m.order| - 1;
    assert m.infos[id].nRandomPos == last;
    forall i | i in r.infos ensures r.infos[i].service.addr in r.ids && r.ids[r.infos[i].service.addr] == i {
      assert m.ids[m.infos[i].service.addr] == i;
    }
    forall k | 0 <= k < |r.order| ensures r.order[k] in r.infos && r.infos[r.order[k]].nRandomPos == k {
      assert m.infos[m.order[k]].nRandomPos == k;
    }
  }

  lemma DropLastRefs(m: Man, F: set<int>, id: int)
    requires RefsOk(m, F) && id in F && m.order != []
    ensures RefsOk(DropLast(m, id), F - {id})
  {
    var r := DropLast(m, id);
    forall i | i in r.infos ensures RefOk(r, F - {id}, i) { assert RefOk(m, F, i); }
  }

  lemma DropLastCounts(m: Man, U: set<int>, id: int)
    requires CountsOk(m, U) && id in NewIds(m) && id !in U && m.order != []
    ensures CountsOk(DropLast(m, id), U)
  {
    var r := DropLast(m, id);
    assert TriedIds(r) == TriedIds(m);
    assert NewIds(r) == NewIds(m) - {id};
  }

  lemma DropLastTables(h: Hasher, m: Man, id: int)
    requires TriedOk(h, m) && NewOk(h, m) && id in m.infos && !m.infos[id].fInTried && m.order != []
    requires forall s :: s in m.newTab ==> m.newTab[s] != id
    ensures TriedOk(h, DropLast(m, id)) && NewOk(h, DropLast(m, id))
  {
    hide NewPos, TriedSlot;
  }

  lemma DropLastKeeps(h: Hasher, m: Man, F: set<int>, U: set<int>, id: int)
    requires Inv(h, m, F, U) && id in F && id !in U && m.order != [] && m.order[|m.order| - 1] == id
    ensures Inv(h, DropLast(m, id), F - {id}, U)
  {
    hide IndexOk, TriedOk, NewOk, RefsOk, CountsOk, SlotsOf, TriedSlot, NewPos;
    FloatingInNoSlot(m, F, id);
    DropLastIndex(m, id);
    DropLastRefs(m, F, id);
    DropLastCounts(m, U, id);
    DropLastTables(h, m, id);
  }

  lemma IndexPlace(m: Man, id: int)
    requires IndexOk(m) && id in m.infos
    ensures 0 <= m.infos[id].nRandomPos < |m.order| && m.order[m.infos[id].nRandomPos] == id
    ensures m.order[|m.order| - 1] in m.infos && CanDelete(m, id)
  {
  }

  lemma InvIndex(h: Hasher, m: Man, F: set<int>, U: set<int>)
    requires Inv(h, m, F, U)
    ensures IndexOk(m)
  {
  }

  lemma SwappedToLast(h: Hasher, m: Man, F: set<int>, U: set<int>, id: int)
    requires Inv(h, m, F, U) && id in m.infos
    ensures CanDelete(m, id)
    ensures var s := SwapRandom(m, m.infos[id].nRandomPos, |m.order| - 1);
            && Inv(h, s, F, U) && id in s.infos && s.order != [] && s.order[|s.order| - 1] == id
            && s.infos[id].service == m.infos[id].service
            && Delete(m, id) == DropLast(s, id)
  {
    hide SwapRandom, Inv, IndexOk;
    InvIndex(h, m, F, U);
    IndexPlace(m, id);
    var pos, last := m.infos[id].nRandomPos, |m.order| - 1;
    SwapKeeps(h, m, F, U, pos, last);
    SwapMoves(m, pos, last);
    var s := SwapRandom(m, pos, last);
    assert s.infos[id].service == m.infos[id].service by { assert Unmoved(s.infos[id]) == Unmoved(m.infos[id]); }
  }

  /** Deleting a floating, counted entry removes it from every index. */
  lemma DeleteKeeps(h: Hasher, m: Man, F: set<int>, U: set<int>, id: int)
    requires Inv(h, m, F, U) && id in F && id !in U
    ensures CanDelete(m, id) && Inv(h, Delete(m, id), F - {id}, U)
  {
    FloatingKnown(m, F, U);
    hide Inv, SwapRandom, Delete, DropLast;
    SwappedToLast(h, m, F, U, id);
    DropLastKeeps(h, SwapRandom(m, m.infos[id].nRandomPos, |m.order| - 1), F, U, id);
  }

  // ---------------------------------------------------------------------------------------------
  // ClearNew

  /** Everything but the slot's occupant stays, up to its place in vRandom. */
  ghost predicate Cleared(m: Man, r: Man, s: Slot) {
    && r.newTab == m.newTab - {s} && r.tried == m.tried && r.nTried == m.nTried
    && (forall i :: i in m.infos && (s in m.newTab ==> i != m.newTab[s]) ==> i in r.infos && Unmoved(r.infos[i]) == Unmoved(m.infos[i]))
    && (forall i :: i in r.infos ==> i in m.infos)
    && (forall i :: i in m.infos && i !in r.infos ==> s in m.newTab && i == m.newTab[s] && m.infos[i].nRefCount == 1)
  }

  lemma DeleteFrame(h: Hasher, m: Man, F: set<int>, U: set<int>, id: int)
    requires Inv(h, m, F, U) && id in m.infos
    ensures CanDelete(m, id)
    ensures var r := Delete(m, id);
            && r.newTab == m.newTab && r.tried == m.tried && r.nTried == m.nTried && r.infos.Keys == m.infos.Keys - {id}
            && (forall i :: i in m.infos && i != id ==> i in r.infos && Unmoved(r.infos[i]) == Unmoved(m.infos[i]))
  {
    hide Inv, IndexOk, SwapRandom;
    InvIndex(h, m, F, U);
    IndexPlace(m, id);
    SwapMoves(m, m.infos[id].nRandomPos, |m.order| - 1);
  }

  /** ClearNew frees the slot, deletes its occupant exactly when that was its last slot, and disturbs
      nobody else, floating entries included. No internal assertion can fail on the way. */
  lemma ClearNewKeeps(h: Hasher, m: Man, F: set<int>, U: set<int>, s: Slot)
    requires Inv(h, m, F, U) && U <= F
    ensures CanClear(m, s)
    ensures var r := ClearNew(m, s); Inv(h, r, F, U) && Cleared(m, r, s)
  {
    hide Inv, Delete, CanDelete;
    if s in m.newTab {
      ReleaseKeeps(h, m, F, U, s);
      var id := m.newTab[s];
      var r := Release(m, s);
      var F' := if r.infos[id].nRefCount == 0 then F + {id} else F;
      DeleteFrame(h, r, F', U, id);
      if r.infos[id].nRefCount == 0 {
        DeleteKeeps(h, r, F + {id}, U, id);
        assert F + {id} - {id} == F;
      }
    } else {
      assert m.newTab - {s} == m.newTab;
    }
  }

  // ---------------------------------------------------------------------------------------------
  // MakeTried and Good_

  /** The entry evicted from a tried slot re-enters the new table at its own slot, replacing what is there. */
  function Reenter(m: Man, id: int, s: Slot): Man
    requires id in m.infos
  {
    SetInfo(m, id, m.infos[id].(nRefCount := 1)).(newTab := m.newTab[s := id], nNew := m.nNew + 1)
  }

  predicate CanEvict(h: Hasher, m: Man, s: Slot) {
    && s in m.tried && m.tried[s] in m.infos
    && var c, id := Evict(m, s), m.tried[s];
       var t := NewSlot(h, m.infos[id].service, m.infos[id].source);
       CanClear(c, t) && id in ClearNew(c, t).infos
  }

  function MakeRoom(h: Hasher, m: Man, s: Slot): Man
    requires CanEvict(h, m, s)
  {
    var id := m.tried[s];
    var t := NewSlot(h, m.infos[id].service, m.infos[id].source);
    Reenter(ClearNew(Evict(m, s), t), id, t)
  }

  function Withdrawn(m: Man, id: int): Man
    requires id in m.infos
  {
    Withdraw(m, id).(nNew := m.nNew - 1)
  }

  predicate CanMakeTried(h: Hasher, m: Man, id: int) {
    && id in m.infos
    && var s := TriedSlot(h, m.infos[id].service);
       s in m.tried ==> CanEvict(h, Withdrawn(m, id), s) && id in MakeRoom(h, Withdrawn(m, id), s).infos
  }

  function MakeTried(h: Hasher, m: Man, id: int): Man
    requires CanMakeTried(h, m, id)
  {
    var s := TriedSlot(h, m.infos[id].service);
    var w := Withdrawn(m, id);
    EnterTried(if s in m.tried then MakeRoom(h, w, s) else w, id, s)
  }

  lemma WithdrawnKeeps(h: Hasher, m: Man, id: int)
    requires Consistent(h, m) && id in m.infos && !m.infos[id].fInTried
    ensures Inv(h, Withdrawn(m, id), {id}, {id})
  {
    hide IndexOk, TriedOk, NewOk, RefsOk, CountsOk, SlotsOf;
    WithdrawKeeps(h, m, {}, {}, id);
    assert {} + {id} == {id};
    var w := Withdraw(m, id);
    assert id in NewIds(w);
    CountOut(h, w, {id}, {}, id);
  }

  lemma FloatingRefs(m: Man, F: set<int>, id: int)
    requires RefsOk(m, F) && id in F
    ensures id in m.infos && m.infos[id].nRefCount == 0
  {
    assert RefOk(m, F, id);
  }

  lemma ReenterKeeps(h: Hasher, m: Man, F: set<int>, U: set<int>, id: int)
    requires Inv(h, m, F, U) && id in F && id in U
    requires NewSlot(h, m.infos[id].service, m.infos[id].source) !in m.newTab
    ensures Inv(h, Reenter(m, id, NewSlot(h, m.infos[id].service, m.infos[id].source)), F - {id}, U - {id})
  {
    hide IndexOk, TriedOk, NewOk, RefsOk, CountsOk, NewPos;
    FloatingInNoSlot(m, F, id);
    FloatingRefs(m, F, id);
    var s := NewSlot(h, m.infos[id].service, m.infos[id].source);
    EnterNewKeeps(h, m, F, U, id, s);
    CountIn(h, EnterNew(m, id, s), F - {id}, U, id);
  }

  /** Making room: two entries float while the new table is cleared, and only one does afterwards. */
  lemma MakeRoomKeeps(h: Hasher, m: Man, id: int, s: Slot)
    requires Inv(h, m, {id}, {id}) && id in m.infos && s in m.tried
    ensures CanEvict(h, m, s)
    ensures var r := MakeRoom(h, m, s);
            && Inv(h, r, {id}, {id}) && s !in r.tried && r.tried == m.tried - {s}
            && id in r.infos && Unmoved(r.infos[id]) == Unmoved(m.infos[id])
  {
    EvictKeeps(h, m, {id}, {id}, s);
    var e := m.tried[s];
    var c := Evict(m, s);
    hide Inv, ClearNew, CanClear;
    var t := NewSlot(h, m.infos[e].service, m.infos[e].source);
    var two := {id} + {e};
    ClearNewKeeps(h, c, two, two, t);
    var d := ClearNew(c, t);
    FloatingStay(h, c, two, two, t, id);
    FloatingStay(h, c, two, two, t, e);
    assert Unmoved(d.infos[id]) == Unmoved(c.infos[id]) && Unmoved(d.infos[e]) == Unmoved(c.infos[e]);
    ReenterKeeps(h, d, two, two, e);
    assert two - {e} == {id};
  }

  lemma FloatingStay(h: Hasher, m: Man, F: set<int>, U: set<int>, s: Slot, id: int)
    requires Inv(h, m, F, U) && id in F
    ensures s in m.newTab ==> m.newTab[s] != id
    ensures id in m.infos
  {
    FloatingInNoSlot(m, F, id);
  }

  /** Moving an entry to the tried table keeps the whole structure consistent, evictions included. */
  lemma MakeTriedKeeps(h: Hasher, m: Man, id: int)
    requires Consistent(h, m) && id in m.infos && !m.infos[id].fInTried
    ensures CanMakeTried(h, m, id) && Consistent(h, MakeTried(h, m, id))
    ensures var r := MakeTried(h, m, id); var s := TriedSlot(h, m.infos[id].service);
            id in r.infos && r.infos[id].fInTried && s in r.tried && r.tried[s] == id
  {
    hide Inv, MakeRoom, CanEvict, TriedSlot;
    var s := TriedSlot(h, m.infos[id].service);
    var w := Withdrawn(m, id);
    WithdrawnKeeps(h, m, id);
    if s in m.tried {
      MakeRoomKeeps(h, w, id, s);
      var r := MakeRoom(h, w, s);
      assert Unmoved(r.infos[id]).service == Unmoved(w.infos[id]).service;
      EnterTriedKeeps(h, r, {id}, {id}, id);
    } else {
      EnterTriedKeeps(h, w, {id}, {id}, id);
    }
    assert {id} - {id} == {};
  }

  /** At most one entry is lost: one that held the last of its slots where an evicted entry had to go. */
  ghost predicate LostAtMost(m: Man, r: Man, s: Slot) {
    && (forall i :: i in r.infos ==> i in m.infos)
    && (forall i :: i in m.infos && i !in r.infos ==>
          s in m.newTab && m.newTab[s] == i && !m.infos[i].fInTried && m.infos[i].nRefCount == 1)
  }

  lemma OccupantIsNew(h: Hasher, m: Man, s: Slot)
    requires NewOk(h, m) && s in m.newTab
    ensures m.newTab[s] in m.infos && !m.infos[m.newTab[s]].fInTried
  {
  }

  lemma ClearNewLoses(h: Hasher, m: Man, F: set<int>, U: set<int>, s: Slot)
    requires Inv(h, m, F, U) && U <= F
    ensures CanClear(m, s) && LostAtMost(m, ClearNew(m, s), s)
  {
    if s in m.newTab { OccupantIsNew(h, m, s); }
    hide Inv, ClearNew, CanClear;
    ClearNewKeeps(h, m, F, U, s);
  }

  /** What making room loses lies in the slot the evicted entry goes to. */
  lemma MakeRoomLoses(h: Hasher, m: Man, id: int, s: Slot)
    requires Inv(h, m, {id}, {id}) && id in m.infos && s in m.tried
    ensures CanEvict(h, m, s) && m.tried[s] in m.infos
    ensures var e, r := m.tried[s], MakeRoom(h, m, s);
            LostAtMost(m, r, NewSlot(h, m.infos[e].service, m.infos[e].source)) && id in r.infos && e in r.infos
  {
    hide Inv, ClearNew, CanClear, TriedSlot, NewSlot, CanEvict;
    MakeRoomKeeps(h, m, id, s);
    EvictKeeps(h, m, {id}, {id}, s);
    var e, c := m.tried[s], Evict(m, s);
    var t := NewSlot(h, m.infos[e].service, m.infos[e].source);
    var two := {id} + {e};
    ClearNewLoses(h, c, two, two, t);
    FloatingStay(h, c, two, two, t, id);
    FloatingStay(h, c, two, two, t, e);
    forall i | i in m.infos && i !in ClearNew(c, t).infos ensures i != e && i != id { assert c.newTab[t] == i; }
  }

  lemma SameLost(m: Man, r: Man, q: Man, s: Slot)
    requires LostAtMost(m, r, s) && q.infos.Keys == r.infos.Keys
    ensures LostAtMost(m, q, s)
  {
    forall i ensures i in q.infos <==> i in r.infos { assert i in q.infos.Keys <==> i in r.infos.Keys; }
  }

  lemma WithdrawnLoses(m: Man, id: int, r: Man, s: Slot)
    requires id in m.infos && LostAtMost(Withdrawn(m, id), r, s) && id in r.infos
    ensures LostAtMost(m, r, s)
  {
  }

  /** MakeTried forgets no address unless it evicts, and then at most the one entry whose only slot the
      evicted entry takes over. */
  lemma MakeTriedLoses(h: Hasher, m: Man, id: int)
    requires Consistent(h, m) && id in m.infos && !m.infos[id].fInTried
    ensures CanMakeTried(h, m, id)
    ensures var r, s := MakeTried(h, m, id), TriedSlot(h, m.infos[id].service);
            if s !in m.tried then r.infos.Keys == m.infos.Keys
            else m.tried[s] in m.infos &&
                 LostAtMost(m, r, NewSlot(h, m.infos[m.tried[s]].service, m.infos[m.tried[s]].source)) && id in r.infos && m.tried[s] in r.infos
  {
    hide Inv, MakeRoom, LostAtMost, TriedSlot, NewSlot, CanMakeTried, CanEvict;
    MakeTriedKeeps(h, m, id);
    WithdrawnKeeps(h, m, id);
    var s, w := TriedSlot(h, m.infos[id].service), Withdrawn(m, id);
    if s in m.tried {
      MakeRoomLoses(h, w, id, s);
      var room := MakeRoom(h, w, s);
      WithdrawnLoses(m, id, room, NewSlot(h, w.infos[m.tried[s]].service, w.infos[m.tried[s]].source));
      SameLost(m, room, EnterTried(room, id, s), NewSlot(h, w.infos[m.tried[s]].service, w.infos[m.tried[s]].source));
    }
  }

  datatype Address = Address(service: Service, nServices: set<int>, nTime: int)

  function Max0(x: int): int {
    if x < 0 then 0 else x
  }

  /** Statistics bad enough that the entry may be dropped. */
  predicate IsTerrible(info: Info, now: int) {
    if info.nLastTry != 0 && info.nLastTry >= now - 60 then false
    else
      || info.nTime > now + 10 * 60
      || info.nTime == 0 || now - info.nTime > 30 * 24 * 60 * 60
      || (info.nLastSuccess == 0 && info.nAttempts >= 3)
      || (now - info.nLastSuccess > 7 * 24 * 60 * 60 && info.nAttempts >= 10)
  }

  function Succeeded(info: Info, time: int): Info {
    info.(nLastSuccess := time, nLastTry := time, nAttempts := 0)
  }

  /** Times Check_ looks at: a tried entry has succeeded at some time, and no time is negative. */
  ghost predicate TimesOk(m: Man) {
    forall id :: id in m.infos ==> TimeOk(m.infos[id])
  }

  ghost predicate TimeOk(info: Info) {
    info.nLastTry >= 0 && info.nLastSuccess >= 0 && (info.fInTried ==> info.nLastSuccess != 0)
  }

  /** What an entry records apart from its standing in the tables. */
  function Record(info: Info): Info {
    info.(nRefCount := 0, fInTried := false, nRandomPos := -1)
  }

  /** Entries of r are entries of m with the same record; only `promoted` can have become tried. */
  ghost predicate RecordsKept(m: Man, r: Man, promoted: set<int>) {
    forall i :: i in r.infos ==>
      i in m.infos && Record(r.infos[i]) == Record(m.infos[i]) && (r.infos[i].fInTried && i !in promoted ==> m.infos[i].fInTried)
  }

  lemma RecordsKeepTimes(m: Man, r: Man, promoted: set<int>)
    requires TimesOk(m) && RecordsKept(m, r, promoted)
    requires forall i :: i in promoted && i in m.infos ==> m.infos[i].nLastSuccess != 0
    ensures TimesOk(r)
  {
    forall i | i in r.infos ensures TimeOk(r.infos[i]) {
      assert TimeOk(m.infos[i]);
      assert Record(r.infos[i]).nLastTry == Record(m.infos[i]).nLastTry;
      assert Record(r.infos[i]).nLastSuccess == Record(m.infos[i]).nLastSuccess;
    }
  }

  lemma UnmovedRecord(a: Info, b: Info)
    requires Unmoved(a) == Unmoved(b)
    ensures Record(a) == Record(b) && a.fInTried == b.fInTried && a.service == b.service && a.nRefCount == b.nRefCount
  {
    assert Unmoved(a).fInTried == Unmoved(b).fInTried && Unmoved(a).service == Unmoved(b).service && Unmoved(a).nRefCount == Unmoved(b).nRefCount;
    assert Record(a) == Record(Unmoved(a)) && Record(b) == Record(Unmoved(b));
  }

  lemma ClearNewRecords(h: Hasher, m: Man, F: set<int>, U: set<int>, s: Slot)
    requires Inv(h, m, F, U) && U <= F
    ensures CanClear(m, s) && RecordsKept(m, ClearNew(m, s), {})
  {
    hide Inv, Delete, CanDelete;
    ClearNewKeeps(h, m, F, U, s);
    if s in m.newTab {
      ReleaseKeeps(h, m, F, U, s);
      var id, r, c := m.newTab[s], Release(m, s), ClearNew(m, s);
      DeleteFrame(h, r, if r.infos[id].nRefCount == 0 then F + {id} else F, U, id);
      forall i | i in c.infos
        ensures i in m.infos && Record(c.infos[i]) == Record(m.infos[i]) && c.infos[i].fInTried == m.infos[i].fInTried
      {
        if i != id { UnmovedRecord(c.infos[i], m.infos[i]); }
      }
    }
  }

  lemma MakeRoomRecords(h: Hasher, m: Man, id: int, s: Slot)
    requires Inv(h, m, {id}, {id}) && id in m.infos && s in m.tried
    ensures CanEvict(h, m, s) && RecordsKept(m, MakeRoom(h, m, s), {})
  {
    hide Inv, ClearNew, CanClear, NewSlot;
    MakeRoomKeeps(h, m, id, s);
    EvictKeeps(h, m, {id}, {id}, s);
    var e, c := m.tried[s], Evict(m, s);
    var t := NewSlot(h, m.infos[e].service, m.infos[e].source);
    ClearNewRecords(h, c, {id} + {e}, {id} + {e}, t);
    var d, r := ClearNew(c, t), MakeRoom(h, m, s);
    forall i | i in r.infos
      ensures i in m.infos && Record(r.infos[i]) == Record(m.infos[i]) && (r.infos[i].fInTried ==> m.infos[i].fInTried)
    {
      assert i in d.infos && i in c.infos && Record(d.infos[i]) == Record(c.infos[i]);
      assert Record(r.infos[i]) == Record(d.infos[i]) && Record(c.infos[i]) == Record(m.infos[i]);
    }
  }

  lemma MakeTriedRecords(h: Hasher, m: Man, id: int)
    requires Consistent(h, m) && id in m.infos && !m.infos[id].fInTried
    ensures CanMakeTried(h, m, id) && RecordsKept(m, MakeTried(h, m, id), {id})
  {
    hide Inv, MakeRoom, TriedSlot, CanMakeTried, CanEvict;
    MakeTriedKeeps(h, m, id);
    WithdrawnKeeps(h, m, id);
    var s, w, r := TriedSlot(h, m.infos[id].service), Withdrawn(m, id), MakeTried(h, m, id);
    if s in m.tried {
      MakeRoomKeeps(h, w, id, s);
      MakeRoomRecords(h, w, id, s);
      var room := MakeRoom(h, w, s);
      forall i | i in r.infos
        ensures i in m.infos && Record(r.infos[i]) == Record(m.infos[i]) && (r.infos[i].fInTried && i != id ==> m.infos[i].fInTried)
      {
        assert i in room.infos && Record(room.infos[i]) == Record(w.infos[i]);
        assert Record(r.infos[i]) == Record(room.infos[i]) && Record(w.infos[i]) == Record(m.infos[i]);
      }
    }
  }

  /** Good_: success recorded; an entry not yet tried moves to the tried table. */
  ghost function Good(h: Hasher, m: Man, service: Service, time: int): (r: Man)
    requires Consistent(h, m)
    ensures Consistent(h, r)
  {
    if service.addr !in m.ids then m
    else
      var id := m.ids[service.addr];
      if m.infos[id].service != service then m
      else
        var r := SetInfo(m, id, Succeeded(m.infos[id], time));
        UpdateStats(h, m, {}, {}, id, Succeeded(m.infos[id], time));
        if m.infos[id].fInTried then r
        else MakeTriedKeeps(h, r, id); MakeTried(h, r, id)
  }

  /** What Good_ promises: an unknown service changes nothing; a known one is tried afterwards, in its
      hashed slot, with the success recorded; no address is gained, and none lost but through eviction. */
  lemma GoodEffect(h: Hasher, m: Man, service: Service, time: int)
    requires Consistent(h, m)
    ensures var r := Good(h, m, service, time);
            if service.addr in m.ids && m.infos[m.ids[service.addr]].service == service then
              var id := m.ids[service.addr]; var s := TriedSlot(h, service);
              && id in r.infos && r.infos[id].fInTried && s in r.tried && r.tried[s] == id
              && r.infos[id].service == service && r.infos[id].nLastSuccess == r.infos[id].nLastTry == time && r.infos[id].nAttempts == 0
              && (forall i :: i in r.infos ==> i in m.infos)
              && (s !in m.tried || m.infos[id].fInTried ==> r.infos.Keys == m.infos.Keys)
            else r == m
    ensures time > 0 && TimesOk(m) ==> TimesOk(Good(h, m, service, time))
  {
    hide Inv, MakeTried, CanMakeTried, TriedSlot;
    if service.addr in m.ids {
      KnownId(h, m, service.addr);
      var id := m.ids[service.addr];
      if m.infos[id].service == service {
        var info := Succeeded(m.infos[id], time);
        var u := SetInfo(m, id, info);
        UpdateStats(h, m, {}, {}, id, info);
        if m.infos[id].fInTried {
          TriedHasSlot(h, m, id);
        } else {
          PromotionEffect(h, u, id);
        }
        if time > 0 && TimesOk(m) {
          assert TimesOk(u);
          if !m.infos[id].fInTried { RecordsKeepTimes(u, MakeTried(h, u, id), {id}); }
        }
      }
    }
  }

  lemma TriedHasSlot(h: Hasher, m: Man, id: int)
    requires Consistent(h, m) && id in m.infos && m.infos[id].fInTried
    ensures var s := TriedSlot(h, m.infos[id].service); s in m.tried && m.tried[s] == id
  {
  }

  lemma PromotionEffect(h: Hasher, m: Man, id: int)
    requires Consistent(h, m) && id in m.infos && !m.infos[id].fInTried
    ensures CanMakeTried(h, m, id)
    ensures var r, s := MakeTried(h, m, id), TriedSlot(h, m.infos[id].service);
            && id in r.infos && r.infos[id].fInTried && s in r.tried && r.tried[s] == id
            && RecordsKept(m, r, {id})
            && r.infos[id].service == m.infos[id].service && r.infos[id].nLastSuccess == m.infos[id].nLastSuccess
            && r.infos[id].nLastTry == m.infos[id].nLastTry && r.infos[id].nAttempts == m.infos[id].nAttempts
            && (s !in m.tried ==> r.infos.Keys == m.infos.Keys)
  {
    hide Inv, MakeTried, CanMakeTried, TriedSlot, NewSlot, LostAtMost;
    MakeTriedKeeps(h, m, id);
    MakeTriedLoses(h, m, id);
    MakeTriedRecords(h, m, id);
    var a, b := Record(MakeTried(h, m, id).infos[id]), Record(m.infos[id]);
    assert a.service == b.service && a.nLastSuccess == b.nLastSuccess && a.nLastTry == b.nLastTry && a.nAttempts == b.nAttempts;
  }

  // ---------------------------------------------------------------------------------------------
  // Add_

  /** The periodically refreshed time of a known entry. */
  function RefreshedTime(info: Info, a: Address, penalty: int, now: int): int {
    var interval := if now - a.nTime < 24 * 60 * 60 then 60 * 60 else 24 * 60 * 60;
    if a.nTime != 0 && (info.nTime == 0 || info.nTime < a.nTime - interval - penalty) then Max0(a.nTime - penalty) else info.nTime
  }

  function Refreshed(info: Info, a: Address, penalty: int, now: int): Info {
    info.(nTime := RefreshedTime(info, a, penalty, now), nServices := info.nServices + a.nServices)
  }

  /** Whether a known, refreshed entry is offered another slot; `lucky` is the outcome of the random test. */
  predicate WantsSlot(info: Info, a: Address, lucky: bool) {
    && a.nTime != 0 && (info.nTime == 0 || a.nTime > info.nTime)
    && !info.fInTried && info.nRefCount != NEW_BUCKETS_PER_ADDRESS
    && (info.nRefCount > 0 ==> lucky)
  }

  function NewcomerInfo(a: Address, source: NetAddr, penalty: int): Info {
    Info(a.service, source, a.nServices, Max0(a.nTime - penalty), 0, 0, 0, 0, 0, false, -1)
  }

  /** Whether the occupant of a slot gives way. */
  predicate GivesWay(occupant: Info, nRefCount: int, now: int) {
    IsTerrible(occupant, now) || (occupant.nRefCount > 1 && nRefCount == 0)
  }

  /** Offering slot s to a counted entry that may be floating. */
  ghost function Offer(h: Hasher, m: Man, id: int, s: Slot, now: int): (r: Man)
    requires id in m.infos && !m.infos[id].fInTried && m.infos[id].nRefCount < NEW_BUCKETS_PER_ADDRESS
    requires Inv(h, m, if m.infos[id].nRefCount == 0 then {id} else {}, {})
    requires 0 <= s.bucket < NEW_BUCKETS && s.pos == NewPos(h, m.infos[id].service, s.bucket)
    ensures Consistent(h, r)
  {
    OfferKeeps(h, m, id, s, now);
    if s in m.newTab && m.newTab[s] == id then m
    else if s !in m.newTab || GivesWay(m.infos[m.newTab[s]], m.infos[id].nRefCount, now) then EnterNew(ClearNew(m, s), id, s)
    else if m.infos[id].nRefCount == 0 then Delete(m, id)
    else m
  }

  lemma OfferKeeps(h: Hasher, m: Man, id: int, s: Slot, now: int)
    requires id in m.infos && !m.infos[id].fInTried && m.infos[id].nRefCount < NEW_BUCKETS_PER_ADDRESS
    requires Inv(h, m, if m.infos[id].nRefCount == 0 then {id} else {}, {})
    requires 0 <= s.bucket < NEW_BUCKETS && s.pos == NewPos(h, m.infos[id].service, s.bucket)
    ensures s in m.newTab ==> m.newTab[s] in m.infos
    ensures s in m.newTab && m.newTab[s] == id ==> Consistent(h, m)
    ensures CanClear(m, s)
    ensures !(s in m.newTab && m.newTab[s] == id) ==> id in ClearNew(m, s).infos && Consistent(h, EnterNew(ClearNew(m, s), id, s))
    ensures m.infos[id].nRefCount == 0 ==> CanDelete(m, id) && Consistent(h, Delete(m, id))
    ensures m.infos[id].nRefCount > 0 ==> Consistent(h, m)
  {
    var F: set<int> := if m.infos[id].nRefCount == 0 then {id} else {};
    if s in m.newTab {
      OccupantIsNew(h, m, s);
      FloatingHoldNothing(m, F, s);
    }
    RefNonNegative(m, F, id);
    hide Inv, ClearNew, CanClear, Delete;
    ClearNewKeeps(h, m, F, {}, s);
    if !(s in m.newTab && m.newTab[s] == id) {
      var d := ClearNew(m, s);
      UnmovedRecord(d.infos[id], m.infos[id]);
      EnterNewKeeps(h, d, F, {}, id, s);
      assert F - {id} == {};
    }
    if m.infos[id].nRefCount == 0 {
      DeleteKeeps(h, m, F, {}, id);
      assert F - {id} == {};
    }
  }

  lemma RefNonNegative(m: Man, F: set<int>, id: int)
    requires RefsOk(m, F) && id in m.infos
    ensures m.infos[id].nRefCount >= 0
  {
    assert RefOk(m, F, id);
  }

  /** Add_ of a known address: its statistics are refreshed, and it may be offered another slot. */
  ghost function Refresh(h: Hasher, m: Man, a: Address, source: NetAddr, penalty: int, now: int, lucky: bool): (r: Man)
    requires Consistent(h, m) && a.service.addr in m.ids
    ensures Consistent(h, r)
  {
    var id := m.ids[a.service.addr];
    var info := Refreshed(m.infos[id], a, penalty, now);
    var u := SetInfo(m, id, info);
    UpdateStats(h, m, {}, {}, id, info);
    RefInRange(h, u, id);
    if WantsSlot(info, a, lucky) then Offer(h, u, id, NewSlot(h, info.service, source), now) else u
  }

  /** Add_ of an unknown address: a new entry is offered its slot. */
  ghost function Introduce(h: Hasher, m: Man, a: Address, source: NetAddr, penalty: int, now: int): (r: Man)
    requires Consistent(h, m) && a.service.addr !in m.ids
    ensures Consistent(h, r)
  {
    var info := NewcomerInfo(a, source, penalty);
    CreatedCounted(h, m, info);
    Offer(h, Create(m, info).(nNew := m.nNew + 1), m.nIdCount, NewSlot(h, info.service, source), now)
  }

  /** Add_: whether the address was unknown, and the state afterwards. */
  ghost function Add(h: Hasher, m: Man, a: Address, source: NetAddr, penalty: int, now: int, routable: bool, lucky: bool): (r: (bool, Man))
    requires Consistent(h, m)
    ensures Consistent(h, r.1)
  {
    var p := if a.service.addr == source then 0 else penalty;
    if !routable then (false, m)
    else if a.service.addr in m.ids then (false, Refresh(h, m, a, source, p, now, lucky))
    else (true, Introduce(h, m, a, source, p, now))
  }

  lemma RefInRange(h: Hasher, m: Man, id: int)
    requires Consistent(h, m) && id in m.infos
    ensures !m.infos[id].fInTried ==> 1 <= m.infos[id].nRefCount <= NEW_BUCKETS_PER_ADDRESS
  {
    assert RefOk(m, {}, id);
  }

  lemma CreatedCounted(h: Hasher, m: Man, info: Info)
    requires Consistent(h, m) && NewInfo(info) && info.service.addr !in m.ids
    ensures Inv(h, Create(m, info).(nNew := m.nNew + 1), {m.nIdCount}, {})
  {
    hide Inv;
    CreateKeeps(h, m, {}, {}, info);
    var id := m.nIdCount;
    assert {} + {id} == {id};
    CountIn(h, Create(m, info), {id}, {id}, id);
    assert {id} - {id} == {};
  }

  /** Whether the slot is, or is made, available to the entry. */
  ghost predicate Admits(m: Man, id: int, s: Slot, now: int)
    requires id in m.infos
  {
    s !in m.newTab || (m.newTab[s] != id && m.newTab[s] in m.infos && GivesWay(m.infos[m.newTab[s]], m.infos[id].nRefCount, now))
  }

  lemma EnterAfterClear(h: Hasher, m: Man, F: set<int>, id: int, s: Slot)
    requires Inv(h, m, F, {}) && id in m.infos && (s in m.newTab ==> m.newTab[s] != id)
    ensures CanClear(m, s) && id in ClearNew(m, s).infos
    ensures var r := EnterNew(ClearNew(m, s), id, s);
            && r.tried == m.tried && r.nTried == m.nTried && RecordsKept(m, r, {})
            && id in r.infos && s in r.newTab && r.newTab[s] == id && r.infos[id].nRefCount == m.infos[id].nRefCount + 1
            && LostAtMost(m, r, s)
  {
    hide Inv, ClearNew, CanClear;
    ClearNewKeeps(h, m, F, {}, s);
    ClearNewLoses(h, m, F, {}, s);
    ClearNewRecords(h, m, F, {}, s);
    var c := ClearNew(m, s);
    UnmovedRecord(c.infos[id], m.infos[id]);
    var r := EnterNew(c, id, s);
    forall i | i in r.infos ensures i in m.infos && Record(r.infos[i]) == Record(m.infos[i]) && r.infos[i].fInTried == c.infos[i].fInTried {
      assert Record(c.infos[i]) == Record(m.infos[i]);
    }
  }

  lemma DeleteRecords(h: Hasher, m: Man, F: set<int>, id: int)
    requires Inv(h, m, F, {}) && id in m.infos
    ensures CanDelete(m, id)
    ensures var r := Delete(m, id);
            r.tried == m.tried && r.nTried == m.nTried && r.newTab == m.newTab && r.infos.Keys == m.infos.Keys - {id} && RecordsKept(m, r, {})
  {
    hide Inv, Delete, CanDelete;
    DeleteFrame(h, m, F, {}, id);
    var r := Delete(m, id);
    forall i | i in r.infos ensures Record(r.infos[i]) == Record(m.infos[i]) && r.infos[i].fInTried == m.infos[i].fInTried {
      UnmovedRecord(r.infos[i], m.infos[i]);
    }
  }

  /** The outcome of an offer: if the slot admits the entry it holds it, at the cost of at most the
      occupant's last slot; otherwise a floating entry is dropped and nothing else changes. */
  lemma OfferEffect(h: Hasher, m: Man, id: int, s: Slot, now: int)
    requires id in m.infos && !m.infos[id].fInTried && m.infos[id].nRefCount < NEW_BUCKETS_PER_ADDRESS
    requires Inv(h, m, if m.infos[id].nRefCount == 0 then {id} else {}, {})
    requires 0 <= s.bucket < NEW_BUCKETS && s.pos == NewPos(h, m.infos[id].service, s.bucket)
    ensures var r := Offer(h, m, id, s, now);
            && r.tried == m.tried && r.nTried == m.nTried && RecordsKept(m, r, {})
            && (if Admits(m, id, s, now)
                then id in r.infos && s in r.newTab && r.newTab[s] == id && r.infos[id].nRefCount == m.infos[id].nRefCount + 1
                     && LostAtMost(m, r, s)
                else r.newTab == m.newTab && r.infos.Keys == m.infos.Keys - if m.infos[id].nRefCount == 0 then {id} else {})
  {
    hide Inv, ClearNew, CanClear, Delete, CanDelete, LostAtMost, NewPos, GivesWay;
    var F: set<int> := if m.infos[id].nRefCount == 0 then {id} else {};
    OfferKeeps(h, m, id, s, now);
    HolderNotFloating(h, m, F, s);
    EnterAfterClearIf(h, m, F, id, s);
    DeleteRecords(h, m, F, id);
  }

  lemma EnterAfterClearIf(h: Hasher, m: Man, F: set<int>, id: int, s: Slot)
    requires Inv(h, m, F, {}) && id in m.infos
    ensures (s in m.newTab && m.newTab[s] == id) ||
            (CanClear(m, s) && id in ClearNew(m, s).infos &&
             var r := EnterNew(ClearNew(m, s), id, s);
             && r.tried == m.tried && r.nTried == m.nTried && RecordsKept(m, r, {})
             && id in r.infos && s in r.newTab && r.newTab[s] == id && r.infos[id].nRefCount == m.infos[id].nRefCount + 1
             && LostAtMost(m, r, s))
  {
    hide Inv, ClearNew, CanClear;
    if !(s in m.newTab && m.newTab[s] == id) { EnterAfterClear(h, m, F, id, s); }
  }

  lemma HolderNotFloating(h: Hasher, m: Man, F: set<int>, s: Slot)
    requires Inv(h, m, F, {})
    ensures s in m.newTab ==> m.newTab[s] in m.infos && m.newTab[s] !in F
  {
    if s in m.newTab { FloatingHoldNothing(m, F, s); }
  }

  lemma SlotRange(h: Hasher, service: Service, source: NetAddr)
    ensures var s := NewSlot(h, service, source); 0 <= s.bucket < NEW_BUCKETS && s.pos == NewPos(h, service, s.bucket)
  {
  }

  /** A new address: stored if its slot is free or its occupant gives way, else not at all; at most one
      other address is forgotten, one whose only slot was needed. */
  lemma AddNewEffect(h: Hasher, m: Man, a: Address, source: NetAddr, penalty: int, now: int, lucky: bool)
    requires Consistent(h, m) && a.service.addr !in m.ids
    ensures var (isNew, r) := Add(h, m, a, source, penalty, now, true, lucky);
            var s, id := NewSlot(h, a.service, source), m.nIdCount;
            && isNew && id !in m.infos && r.tried == m.tried && r.nTried == m.nTried
            && (s in m.newTab ==> m.newTab[s] in m.infos)
            && (id in r.infos <==> s !in m.newTab || GivesWay(m.infos[m.newTab[s]], 0, now))
            && (forall i :: i in r.infos && i != id ==> i in m.infos)
            && (if id in r.infos
                then s in r.newTab && r.newTab[s] == id && r.infos[id].service == a.service && r.infos[id].nRefCount == 1
                     && (forall i :: i in m.infos && i !in r.infos ==> s in m.newTab && m.newTab[s] == i && m.infos[i].nRefCount == 1)
                else r.infos.Keys == m.infos.Keys && r.newTab == m.newTab)
  {
    hide Inv, NewSlot, Offer, GivesWay;
    var info := NewcomerInfo(a, source, if a.service.addr == source then 0 else penalty);
    var id, s := m.nIdCount, NewSlot(h, a.service, source);
    var c := Create(m, info).(nNew := m.nNew + 1);
    CreatedCounted(h, m, info);
    CreateKeeps(h, m, {}, {}, info);
    HolderNotFloating(h, m, {}, s);
    SlotRange(h, a.service, source);
    OfferEffect(h, c, id, s, now);
    var r := Offer(h, c, id, s, now);
    if id in r.infos { assert Record(r.infos[id]).service == Record(c.infos[id]).service; }
  }

  lemma AddNewTimes(h: Hasher, m: Man, a: Address, source: NetAddr, penalty: int, now: int, lucky: bool)
    requires Consistent(h, m) && a.service.addr !in m.ids && TimesOk(m)
    ensures TimesOk(Add(h, m, a, source, penalty, now, true, lucky).1)
  {
    hide Inv, NewSlot, Offer, GivesWay;
    var info := NewcomerInfo(a, source, if a.service.addr == source then 0 else penalty);
    CreatedCounted(h, m, info);
    SlotRange(h, a.service, source);
    var c := Create(m, info).(nNew := m.nNew + 1);
    OfferEffect(h, c, m.nIdCount, NewSlot(h, a.service, source), now);
    RecordsKeepTimes(c, Offer(h, c, m.nIdCount, NewSlot(h, a.service, source), now), {});
  }

  lemma KnownId(h: Hasher, m: Man, addr: NetAddr)
    requires Consistent(h, m) && addr in m.ids
    ensures m.ids[addr] in m.infos && m.infos[m.ids[addr]].service.addr == addr
  {
  }

  lemma AddKnownEffect(h: Hasher, m: Man, a: Address, source: NetAddr, penalty: int, now: int, lucky: bool)
    requires Consistent(h, m) && a.service.addr in m.ids
    ensures var (isNew, r) := Add(h, m, a, source, penalty, now, true, lucky);
            && !isNew && r.tried == m.tried && r.nTried == m.nTried
            && (forall i :: i in r.infos ==> i in m.infos)
            && (TimesOk(m) ==> TimesOk(r))
  {
    hide Inv, NewSlot, Offer, GivesWay, RefreshedTime;
    KnownId(h, m, a.service.addr);
    var id := m.ids[a.service.addr];
    var info := Refreshed(m.infos[id], a, if a.service.addr == source then 0 else penalty, now);
    var u := SetInfo(m, id, info);
    UpdateStats(h, m, {}, {}, id, info);
    RefInRange(h, u, id);
    SlotRange(h, info.service, source);
    if TimesOk(m) {
      assert TimeOk(m.infos[id]);
      assert TimesOk(u);
    }
    if WantsSlot(info, a, lucky) {
      var r := Offer(h, u, id, NewSlot(h, info.service, source), now);
      OfferEffect(h, u, id, NewSlot(h, info.service, source), now);
      if TimesOk(m) { RecordsKeepTimes(u, r, {}); }
    }
  }

  /** What Add_ promises in general: true exactly for a routable address not known before; the tried table
      is not touched and, for a known address, no other address appears. */
  lemma AddEffect(h: Hasher, m: Man, a: Address, source: NetAddr, penalty: int, now: int, routable: bool, lucky: bool)
    requires Consistent(h, m)
    ensures var (isNew, r) := Add(h, m, a, source, penalty, now, routable, lucky);
            && (isNew <==> routable && a.service.addr !in m.ids)
            && r.tried == m.tried && r.nTried == m.nTried
            && (!isNew ==> forall i :: i in r.infos ==> i in m.infos)
            && (TimesOk(m) ==> TimesOk(r))
  {
    if routable {
      hide Inv, Add, TimesOk;
      if a.service.addr in m.ids {
        AddKnownEffect(h, m, a, source, penalty, now, lucky);
      } else {
        AddNewEffect(h, m, a, source, penalty, now, lucky);
        if TimesOk(m) { AddNewTimes(h, m, a, source, penalty, now, lucky); }
      }
    }
  }
}
