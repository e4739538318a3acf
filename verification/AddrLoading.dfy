/** What loading makes of an arbitrary stored form: which ones give a consistent address manager. */
module AddrLoading {
  import opened Sets
  import opened AddrMan
  import opened AddrStore

  // ---------------------------------------------------------------------------------------------
  // While entries and references are read

  /** Both tables and the reference counts agree; entries without a place float. */
  ghost predicate TablesOk(h: Hasher, m: Man) {
    TriedOk(h, m) && NewOk(h, m) && RefsOk(m, Homeless(m))
  }

  /** mapAddr knows each address by the last entry read with it. */
  ghost predicate LastKnown(m: Man) {
    && (forall id :: id in m.infos ==> m.infos[id].service.addr in m.ids)
    && (forall a :: a in m.ids ==> m.ids[a] in m.infos && m.infos[m.ids[a]].service.addr == a)
  }

  /** New entries were read first. */
  ghost predicate NewFirst(m: Man, news: nat) {
    forall id :: id in m.infos ==> (m.infos[id].fInTried <==> id >= news)
  }

  /** A fresh entry joins: it holds no slot and no index knows it yet. */
  lemma EntryAdded(h: Hasher, m: Man, n: nat, info: Info)
    requires TablesOk(h, m) && LastKnown(m) && Numbered(m, n) && !info.fInTried && info.nRefCount == 0
    ensures var r := m.(infos := m.infos[n := info], ids := m.ids[info.service.addr := n]);
            TablesOk(h, r) && LastKnown(r)
  {
    hide TriedSlot, NewPos;
    var r := m.(infos := m.infos[n := info], ids := m.ids[info.service.addr := n]);
    assert SlotsOf(m.newTab, n) == {};
    hide SlotsOf;
    forall id | id in r.infos ensures RefOk(r, Homeless(r), id) {
      if id != n { assert RefOk(m, Homeless(m), id); }
    }
  }

  lemma OrderIgnored(h: Hasher, m: Man, order: seq<int>)
    requires TablesOk(h, m) && LastKnown(m)
    ensures TablesOk(h, m.(order := order)) && LastKnown(m.(order := order))
  {
    hide TriedSlot, NewPos, SlotsOf;
    var r := m.(order := order);
    assert Homeless(r) == Homeless(m);
    forall id | id in r.infos ensures RefOk(r, Homeless(r), id) { assert RefOk(m, Homeless(m), id); }
  }

  lemma SlotRefs(m: Man, id: int, s: Slot)
    requires RefsOk(m, Homeless(m)) && id in m.infos && !m.infos[id].fInTried && m.infos[id].nRefCount < NEW_BUCKETS_PER_ADDRESS
    requires s !in m.newTab
    ensures RefsOk(EnterNew(m, id, s), Homeless(EnterNew(m, id, s)))
  {
    hide SlotsOf;
    var r := EnterNew(m, id, s);
    forall i | i in r.infos ensures RefOk(r, Homeless(r), i) {
      assert RefOk(m, Homeless(m), i);
      SlotsOfAdded(m.newTab, s, id, i);
    }
  }

  /** A new entry takes one more slot. */
  lemma SlotAdded(h: Hasher, m: Man, id: int, s: Slot)
    requires TablesOk(h, m) && LastKnown(m) && id in m.infos && !m.infos[id].fInTried && m.infos[id].nRefCount < NEW_BUCKETS_PER_ADDRESS
    requires s !in m.newTab && 0 <= s.bucket < NEW_BUCKETS && s.pos == NewPos(h, m.infos[id].service, s.bucket)
    ensures TablesOk(h, EnterNew(m, id, s)) && LastKnown(EnterNew(m, id, s))
  {
    hide TriedOk, NewOk, RefsOk, NewPos;
    SlotRefs(m, id, s);
    TriedKept(h, m, EnterNew(m, id, s));
    NewEntered(h, m, id, s);
  }

  lemma NewAdded(h: Hasher, st: Stored, m: Man, s: Saved)
    requires TablesOk(h, m) && LastKnown(m) && Numbered(m, |m.order|)
    ensures TablesOk(h, AddNew(h, st, m, s)) && LastKnown(AddNew(h, st, m, s))
  {
    hide TablesOk, LastKnown, NewPos;
    var n := |m.order|;
    var info := FromSaved(s).(nRandomPos := n);
    var joined := m.(infos := m.infos[n := info], ids := m.ids[s.service.addr := n]);
    EntryAdded(h, m, n, info);
    OrderIgnored(h, joined, m.order + [n]);
    var listed := joined.(order := m.order + [n]);
    var slot := NewSlot(h, s.service, s.source);
    if !Usable(st) && slot !in m.newTab {
      SlotAdded(h, listed, n, slot);
      assert AddNew(h, st, m, s) == EnterNew(listed, n, slot) by {
        assert listed.infos[n := info.(nRefCount := 1)] == m.infos[n := info.(nRefCount := 1)];
      }
    } else {
      assert AddNew(h, st, m, s) == listed;
    }
  }

  lemma {:induction false} NewsLoaded(h: Hasher, st: Stored, n: nat)
    requires n <= |st.news|
    ensures var m := LoadNews(h, st, n);
            TablesOk(h, m) && LastKnown(m) && m.tried == map[] && forall id :: id in m.infos ==> !m.infos[id].fInTried
    decreases n
  {
    if n == 0 {
      assert Homeless(EmptyMan()) == {};
    } else {
      NewsLoaded(h, st, n - 1);
      hide TablesOk, LastKnown, NewPos;
      NewAdded(h, st, LoadNews(h, st, n - 1), st.news[n - 1]);
    }
  }

  lemma TriedRefs(m: Man, n: nat, info: Info, r: Man)
    requires RefsOk(m, Homeless(m)) && n !in m.infos && info.fInTried && info.nRefCount == 0
    requires r.infos == m.infos[n := info] && r.newTab == m.newTab
    ensures RefsOk(r, Homeless(r))
  {
    hide SlotsOf;
    forall id | id in r.infos ensures RefOk(r, Homeless(r), id) {
      if id != n { assert RefOk(m, Homeless(m), id); }
    }
  }

  lemma TriedTables(h: Hasher, m: Man, n: nat, info: Info, r: Man)
    requires TriedOk(h, m) && NewOk(h, m) && n !in m.infos && info.fInTried && TriedSlot(h, info.service) !in m.tried
    requires r.infos == m.infos[n := info] && r.newTab == m.newTab && r.tried == m.tried[TriedSlot(h, info.service) := n]
    ensures TriedOk(h, r) && NewOk(h, r)
  {
    hide TriedSlot, NewPos;
  }

  lemma KnownMore(m: Man, n: int, info: Info, r: Man)
    requires LastKnown(m) && n !in m.infos && r.infos == m.infos[n := info] && r.ids == m.ids[info.service.addr := n]
    ensures LastKnown(r)
  {
  }

  lemma NextIsFree(m: Man, n: nat)
    requires Numbered(m, n)
    ensures n !in m.infos
  {
  }

  /** A tried entry joins its free slot. */
  lemma TriedAdded(h: Hasher, m: Man, n: nat, info: Info)
    requires TablesOk(h, m) && LastKnown(m) && Numbered(m, n) && info.fInTried && info.nRefCount == 0
    requires TriedSlot(h, info.service) !in m.tried
    ensures var r := m.(infos := m.infos[n := info], ids := m.ids[info.service.addr := n], tried := m.tried[TriedSlot(h, info.service) := n]);
            TablesOk(h, r) && LastKnown(r)
  {
    hide TriedSlot, TriedOk, NewOk, RefsOk, LastKnown, Numbered;
    var r := m.(infos := m.infos[n := info], ids := m.ids[info.service.addr := n], tried := m.tried[TriedSlot(h, info.service) := n]);
    NextIsFree(m, n);
    TriedTables(h, m, n, info, r);
    TriedRefs(m, n, info, r);
    KnownMore(m, n, info, r);
  }

  lemma CountersIgnored(h: Hasher, m: Man, ids: int, news: int, trieds: int)
    requires TablesOk(h, m) && LastKnown(m)
    ensures var r := m.(nIdCount := ids, nNew := news, nTried := trieds); TablesOk(h, r) && LastKnown(r)
  {
    hide TriedSlot, NewPos, SlotsOf;
    var r := m.(nIdCount := ids, nNew := news, nTried := trieds);
    assert Homeless(r) == Homeless(m);
    forall id | id in r.infos ensures RefOk(r, Homeless(r), id) { assert RefOk(m, Homeless(m), id); }
  }

  /** nTried counts the tried entries read and those still to come. */
  ghost predicate ReadSoFar(h: Hasher, st: Stored, m: Man, left: nat) {
    && TablesOk(h, m) && LastKnown(m) && m.nIdCount >= |st.news| && Numbered(m, m.nIdCount) && NewFirst(m, |st.news|)
    && m.nNew == |st.news| && m.nTried == m.nIdCount - |st.news| + left
  }

  lemma TriedJoins(h: Hasher, st: Stored, m: Man, s: Saved, left: nat)
    requires left > 0 && ReadSoFar(h, st, m, left)
    ensures ReadSoFar(h, st, AddTried(h, m, s), left - 1)
  {
    hide TablesOk, LastKnown, TriedSlot;
    var n := m.nIdCount;
    var r := AddTried(h, m, s);
    if TriedSlot(h, s.service) in m.tried {
      CountersIgnored(h, m, m.nIdCount, m.nNew, m.nTried - 1);
    } else {
      var info := FromSaved(s).(nRandomPos := |m.order|, fInTried := true);
      var joined := m.(infos := m.infos[n := info], ids := m.ids[s.service.addr := n], tried := m.tried[TriedSlot(h, s.service) := n]);
      TriedAdded(h, m, n, info);
      OrderIgnored(h, joined, m.order + [n]);
      CountersIgnored(h, joined.(order := m.order + [n]), n + 1, m.nNew, m.nTried);
      assert r == joined.(order := m.order + [n]).(nIdCount := n + 1, nNew := m.nNew, nTried := m.nTried);
    }
  }

  lemma {:induction false} TriedsLoaded(h: Hasher, st: Stored, n: nat)
    requires n <= |st.trieds|
    ensures ReadSoFar(h, st, LoadTrieds(h, st, n), |st.trieds| - n)
    decreases n
  {
    hide TablesOk, LastKnown, AddTried;
    if n == 0 {
      NewsLoaded(h, st, |st.news|);
      CountersIgnored(h, LoadNews(h, st, |st.news|), |st.news|, |st.news|, |st.trieds|);
    } else {
      TriedsLoaded(h, st, n - 1);
      TriedJoins(h, st, LoadTrieds(h, st, n - 1), st.trieds[n - 1], |st.trieds| - n + 1);
    }
  }

  lemma SlotLoaded(h: Hasher, st: Stored, m: Man, b: nat, index: int)
    requires ReadSoFar(h, st, m, 0) && (Usable(st) ==> b < NEW_BUCKETS)
    ensures ReadSoFar(h, st, AddSlot(h, st, m, b, index), 0)
  {
    hide TablesOk, LastKnown, NewPos;
    if 0 <= index < |st.news| && index in m.infos {
      var slot := Slot(b, NewPos(h, m.infos[index].service, b));
      if Usable(st) && slot !in m.newTab && m.infos[index].nRefCount < NEW_BUCKETS_PER_ADDRESS {
        SlotAdded(h, m, index, slot);
      }
    }
  }

  lemma {:induction false} SlotsLoaded(h: Hasher, st: Stored, b: nat, n: nat)
    requires if b < |st.buckets| then n <= |st.buckets[b]| else b == |st.buckets| && n == 0
    ensures ReadSoFar(h, st, LoadSlots(h, st, b, n), 0)
    decreases b, n
  {
    hide ReadSoFar, AddSlot, LoadTrieds;
    if n > 0 {
      SlotsLoaded(h, st, b, n - 1);
      SlotLoaded(h, st, LoadSlots(h, st, b, n - 1), b, st.buckets[b][n - 1]);
    } else if b == 0 {
      TriedsLoaded(h, st, |st.trieds|);
    } else {
      SlotsLoaded(h, st, b - 1, |st.buckets[b - 1]|);
    }
  }

  /** Everything that was read, before entries without a place are dropped. */
  ghost function Read(h: Hasher, st: Stored): (m: Man)
    ensures Placed(m) && Homeless(m) <= m.infos.Keys
  {
    var m := LoadSlots(h, st, |st.buckets|, 0);
    NumberedPlaced(m, m.nIdCount);
    m
  }

  // ---------------------------------------------------------------------------------------------
  // Dropping entries without a place

  /** r is m without the entries in `gone`; mapAddr has lost their addresses. */
  ghost predicate Pruned(m: Man, gone: set<int>, r: Man)
    requires gone <= m.infos.Keys
  {
    && r.infos.Keys == m.infos.Keys - gone && Placed(r)
    && (forall id :: id in r.infos ==> Unmoved(r.infos[id]) == Unmoved(m.infos[id]))
    && r.tried == m.tried && r.newTab == m.newTab
    && r.nIdCount == m.nIdCount && r.nTried == m.nTried && r.nNew == m.nNew - |gone|
    && (forall a :: a in r.ids <==> a in m.ids && !AddrIn(m, gone, a))
    && (forall a :: a in r.ids ==> r.ids[a] == m.ids[a])
  }

  ghost predicate AddrIn(m: Man, gone: set<int>, a: NetAddr) {
    exists id :: id in gone && id in m.infos && m.infos[id].service.addr == a
  }

  lemma Deleted(m: Man, id: int)
    requires Placed(m) && id in m.infos
    ensures CanDelete(m, id) && Pruned(m, {id}, Delete(m, id))
  {
    hide SwapRandom, Placed;
    DeletePlaced(m, id);
    PlaceOf(m, id);
    var p, last := m.infos[id].nRandomPos, |m.order| - 1;
    PlacedAt(m, last);
    SwapMoves(m, p, last);
    var a := m.infos[id].service.addr;
    assert AddrIn(m, {id}, a);
    assert forall x :: AddrIn(m, {id}, x) ==> x == a;
    assert Delete(m, id).ids == m.ids - {a};
    hide AddrIn;
  }

  lemma PrunedMore(m: Man, id: int, gone: set<int>, d: Man, r: Man)
    requires id in gone && gone <= m.infos.Keys && Pruned(m, {id}, d) && gone - {id} <= d.infos.Keys && Pruned(d, gone - {id}, r)
    ensures Pruned(m, gone, r)
  {
    hide Placed;
    forall x | x in d.infos ensures d.infos[x].service == m.infos[x].service {
      assert Unmoved(d.infos[x]) == Unmoved(m.infos[x]);
    }
    forall a ensures AddrIn(m, gone, a) <==> AddrIn(m, {id}, a) || AddrIn(d, gone - {id}, a) {
      if AddrIn(m, gone, a) {
        var x :| x in gone && x in m.infos && m.infos[x].service.addr == a;
        if x == id { assert AddrIn(m, {id}, a); } else { assert x in d.infos && AddrIn(d, gone - {id}, a); }
      }
    }
  }

  lemma {:induction false} PruneResult(m: Man, gone: set<int>)
    requires Placed(m) && gone <= m.infos.Keys
    ensures Pruned(m, gone, Prune(m, gone))
    decreases |gone|
  {
    hide Placed, Delete, Pruned;
    if gone == {} {
      NothingPruned(m);
    } else {
      LeastExists(gone);
      var id :| IsLeast(id, gone);
      DeletePlaced(m, id);
      Deleted(m, id);
      PruneStep(m, gone, id);
      PruneResult(Delete(m, id), gone - {id});
      PrunedMore(m, id, gone, Delete(m, id), Prune(Delete(m, id), gone - {id}));
    }
  }

  lemma NothingPruned(m: Man)
    requires Placed(m)
    ensures Pruned(m, {}, m)
  {
  }

  // ---------------------------------------------------------------------------------------------
  // The result

  /** No entry that keeps a place shares its address with another entry that was read. */
  ghost predicate NoClash(m: Man) {
    forall i, j :: i in m.infos && j in m.infos && i != j && m.infos[i].service.addr == m.infos[j].service.addr ==>
      i in Homeless(m) && j in Homeless(m)
  }

  lemma SurvivorTables(h: Hasher, m: Man, r: Man)
    requires TablesOk(h, m) && Pruned(m, Homeless(m), r)
    ensures TriedOk(h, r) && NewOk(h, r) && RefsOk(r, {})
  {
    hide TriedSlot, NewPos, Placed, AddrIn;
    var gone := Homeless(m);
    forall id | id in r.infos
      ensures r.infos[id].service == m.infos[id].service && r.infos[id].fInTried == m.infos[id].fInTried
      ensures r.infos[id].nRefCount == m.infos[id].nRefCount
    {
      assert Unmoved(r.infos[id]) == Unmoved(m.infos[id]);
    }
    forall s | s in m.newTab ensures m.newTab[s] !in gone {
      assert RefOk(m, gone, m.newTab[s]);
      assert s in SlotsOf(m.newTab, m.newTab[s]);
    }
    forall id | id in r.infos ensures RefOk(r, {}, id) { assert RefOk(m, gone, id); }
  }

  lemma SurvivorCounts(h: Hasher, st: Stored, m: Man, r: Man)
    requires ReadSoFar(h, st, m, 0) && Pruned(m, Homeless(m), r)
    ensures CountsOk(r, {})
  {
    hide TablesOk, LastKnown, Placed, AddrIn;
    var gone, news, all := Homeless(m), |st.news|, m.nIdCount;
    forall id | id in r.infos ensures r.infos[id].fInTried == m.infos[id].fInTried { assert Unmoved(r.infos[id]) == Unmoved(m.infos[id]); }
    forall k ensures k in TriedIds(r) <==> news <= k < all {}
    forall k ensures k in NewIds(m) <==> 0 <= k < news {}
    RangeCount(TriedIds(r), news, all);
    RangeCount(NewIds(m), 0, news);
    assert NewIds(r) == NewIds(m) - gone && gone <= NewIds(m);
    Difference(NewIds(m), gone);
  }

  lemma Difference(a: set<int>, b: set<int>)
    requires b <= a
    ensures |a - b| == |a| - |b|
  {
    assert a == b + (a - b);
  }

  /** mapAddr survives pruning exactly when nobody with a place shares an address. */
  lemma SurvivorIndex(h: Hasher, st: Stored, m: Man, r: Man)
    requires ReadSoFar(h, st, m, 0) && Pruned(m, Homeless(m), r)
    ensures IndexOk(r) <==> NoClash(m)
  {
    hide TablesOk;
    var gone := Homeless(m);
    forall id | id in r.infos ensures r.infos[id].service == m.infos[id].service { assert Unmoved(r.infos[id]) == Unmoved(m.infos[id]); }
    if NoClash(m) {
      forall id | id in r.infos ensures r.infos[id].service.addr in r.ids && r.ids[r.infos[id].service.addr] == id {
        var a := m.infos[id].service.addr;
        assert m.ids[a] == id;
        assert !AddrIn(m, gone, a);
      }
      forall a | a in r.ids ensures r.ids[a] in r.infos && r.infos[r.ids[a]].service.addr == a {
        assert m.ids[a] in gone ==> AddrIn(m, gone, a);
      }
    }
    if IndexOk(r) {
      forall i, j | i in m.infos && j in m.infos && i != j && m.infos[i].service.addr == m.infos[j].service.addr
        ensures i in gone
      {
        var a := m.infos[i].service.addr;
        assert j in gone ==> AddrIn(m, gone, a);
      }
    }
  }

  /** Main result: whatever was stored, within the limits loading succeeds, keeps exactly the entries that found
      a place, and gives a consistent address manager if and only if no entry that keeps its place shares its
      address with another one that was read. */
  lemma LoadedIsConsistent(h: Hasher, st: Stored)
    requires |st.news| <= NEW_BUCKETS * BUCKET_SIZE && |st.trieds| <= TRIED_BUCKETS * BUCKET_SIZE
    ensures Load(h, st).Some? && Pruned(Read(h, st), Homeless(Read(h, st)), Load(h, st).value)
    ensures Consistent(h, Load(h, st).value) <==> NoClash(Read(h, st))
  {
    SlotsLoaded(h, st, |st.buckets|, 0);
    var m := Read(h, st);
    PruneResult(m, Homeless(m));
    var r := Prune(m, Homeless(m));
    hide LoadSlots, Prune, Pruned, IndexOk, TriedOk, NewOk, RefsOk, CountsOk, NoClash;
    SurvivorTables(h, m, r);
    SurvivorCounts(h, st, m, r);
    SurvivorIndex(h, st, m, r);
  }

  // ---------------------------------------------------------------------------------------------
  // Distinct addresses suffice

  ghost predicate DistinctAddresses(st: Stored) {
    var all := st.news + st.trieds;
    forall i, j :: 0 <= i < j < |all| ==> all[i].service.addr != all[j].service.addr
  }

  /** The entries read so far are among the first n stored ones, each with its own address. */
  ghost predicate FromFirst(all: seq<Saved>, n: nat, m: Man)
    requires n <= |all|
  {
    && (forall id :: id in m.infos ==> exists k :: 0 <= k < n && all[k].service.addr == m.infos[id].service.addr)
    && (forall i, j :: i in m.infos && j in m.infos && i != j ==> m.infos[i].service.addr != m.infos[j].service.addr)
  }

  lemma OneMore(all: seq<Saved>, n: nat, m: Man, r: Man, id: int)
    requires n < |all| && forall i, j :: 0 <= i < j < |all| ==> all[i].service.addr != all[j].service.addr
    requires FromFirst(all, n, m) && id !in m.infos
    requires r.infos == m.infos || (r.infos.Keys == m.infos.Keys + {id} && r.infos[id].service == all[n].service
                                    && forall i :: i in m.infos ==> r.infos[i].service == m.infos[i].service)
    ensures FromFirst(all, n + 1, r)
  {
    forall i | i in r.infos ensures exists k :: 0 <= k < n + 1 && all[k].service.addr == r.infos[i].service.addr {
      if i in m.infos {
        var k :| 0 <= k < n && all[k].service.addr == m.infos[i].service.addr;
      } else {
        assert all[n].service.addr == r.infos[i].service.addr;
      }
    }
    forall i | i in m.infos ensures m.infos[i].service.addr != all[n].service.addr {
      var k :| 0 <= k < n && all[k].service.addr == m.infos[i].service.addr;
    }
  }

  lemma {:induction false} NewsDistinct(h: Hasher, st: Stored, n: nat)
    requires DistinctAddresses(st) && n <= |st.news|
    ensures FromFirst(st.news + st.trieds, n, LoadNews(h, st, n))
    decreases n
  {
    if n > 0 {
      hide FromFirst, NewPos;
      NewsDistinct(h, st, n - 1);
      OneMore(st.news + st.trieds, n - 1, LoadNews(h, st, n - 1), LoadNews(h, st, n), n - 1);
    }
  }

  lemma TriedInfos(h: Hasher, m: Man, s: Saved)
    ensures var r, n := AddTried(h, m, s), m.nIdCount;
            r.infos == m.infos || (r.infos.Keys == m.infos.Keys + {n} && r.infos[n].service == s.service
                                   && forall i :: i in m.infos && i != n ==> r.infos[i].service == m.infos[i].service)
  {
    hide TriedSlot;
  }

  lemma SameInfos(all: seq<Saved>, n: nat, m: Man, r: Man)
    requires n <= |all| && FromFirst(all, n, m) && r.infos == m.infos
    ensures FromFirst(all, n, r)
  {
  }

  lemma {:induction false} TriedsDistinct(h: Hasher, st: Stored, n: nat)
    requires DistinctAddresses(st) && n <= |st.trieds|
    ensures FromFirst(st.news + st.trieds, |st.news| + n, LoadTrieds(h, st, n))
    decreases n
  {
    hide FromFirst, TriedSlot, LoadNews, AddTried, Numbered;
    if n == 0 {
      NewsDistinct(h, st, |st.news|);
      SameInfos(st.news + st.trieds, |st.news|, LoadNews(h, st, |st.news|), LoadTrieds(h, st, 0));
    } else {
      TriedsDistinct(h, st, n - 1);
      var m := LoadTrieds(h, st, n - 1);
      NextIsFree(m, m.nIdCount);
      TriedInfos(h, m, st.trieds[n - 1]);
      OneMore(st.news + st.trieds, |st.news| + n - 1, m, LoadTrieds(h, st, n), m.nIdCount);
    }
  }

  lemma {:induction false} SlotsDistinct(h: Hasher, st: Stored, b: nat, n: nat)
    requires DistinctAddresses(st)
    requires if b < |st.buckets| then n <= |st.buckets[b]| else b == |st.buckets| && n == 0
    ensures NoClash(LoadSlots(h, st, b, n))
    ensures forall i, j :: i in LoadSlots(h, st, b, n).infos && j in LoadSlots(h, st, b, n).infos && i != j ==>
              LoadSlots(h, st, b, n).infos[i].service.addr != LoadSlots(h, st, b, n).infos[j].service.addr
    decreases b, n
  {
    hide LoadTrieds, NewPos, Numbered, Homeless;
    if n > 0 {
      SlotsDistinct(h, st, b, n - 1);
    } else if b == 0 {
      TriedsDistinct(h, st, |st.trieds|);
    } else {
      SlotsDistinct(h, st, b - 1, |st.buckets[b - 1]|);
    }
  }

  /** Pairwise different addresses load into a consistent manager, whatever the version and the bucket data. */
  lemma DistinctLoads(h: Hasher, st: Stored)
    requires |st.news| <= NEW_BUCKETS * BUCKET_SIZE && |st.trieds| <= TRIED_BUCKETS * BUCKET_SIZE && DistinctAddresses(st)
    ensures Load(h, st).Some? && Consistent(h, Load(h, st).value)
  {
    hide Consistent, NoClash, Load, LoadSlots, Pruned;
    LoadedIsConsistent(h, st);
    SlotsDistinct(h, st, |st.buckets|, 0);
  }

  /** One address stored twice: dropping the second entry takes the first one's address out of mapAddr. */
  lemma DuplicateLoadsInconsistent(h: Hasher, s: Saved)
    ensures var st := Stored(0, [s, s], [], []); Load(h, st).Some? && !Consistent(h, Load(h, st).value)
  {
    hide Consistent, Load, Pruned, NewPos;
    var st := Stored(0, [s, s], [], []);
    LoadedIsConsistent(h, st);
    var one := LoadNews(h, st, 1);
    assert LoadNews(h, st, 0) == EmptyMan();
    assert one.infos[0].nRefCount == 1;
    var m := Read(h, st);
    assert m == LoadTrieds(h, st, 0);
    assert m.infos[0].nRefCount == 1 && m.infos[0].service == m.infos[1].service;
  }
}
