/** The address manager as an object: bucket tables as arrays, updated in place, each operation proved
    against its function in AddrMan.
 */
module AddrManager {
  import opened AddrMan

  ghost function Grid(n: nat, k: nat): set<Slot> {
    set b, p | 0 <= b < n && 0 <= p < k :: Slot(b, p)
  }

  /** The occupied slots of a bucket table; -1 marks a free one. */
  ghost function Slots(t: array2<int>): map<Slot, int>
    reads t
  {
    map s | s in Grid(t.Length0, t.Length1) && t[s.bucket, s.pos] != -1 :: t[s.bucket, s.pos]
  }

  method SetSlot(t: array2<int>, b: int, p: int, x: int)
    requires 0 <= b < t.Length0 && 0 <= p < t.Length1
    modifies t
    ensures Slots(t) == if x == -1 then old(Slots(t)) - {Slot(b, p)} else old(Slots(t))[Slot(b, p) := x]
  {
    t[b, p] := x;
    assert Slot(b, p) in Grid(t.Length0, t.Length1);
  }

  lemma SlotAt(t: array2<int>, b: int, p: int)
    requires 0 <= b < t.Length0 && 0 <= p < t.Length1
    ensures Slot(b, p) in Slots(t) <==> t[b, p] != -1
    ensures t[b, p] != -1 ==> Slots(t)[Slot(b, p)] == t[b, p]
  {
    assert Slot(b, p) in Grid(t.Length0, t.Length1);
  }

  class Manager {
    const h: Hasher
    var nIdCount: int
    var mapInfo: map<int, Info>
    var mapAddr: map<NetAddr, int>
    var vRandom: seq<int>
    var nTried: int
    var nNew: int
    var nLastGood: int
    const vvTried: array2<int>
    const vvNew: array2<int>

    ghost function Now(): Man
      reads this, vvTried, vvNew
    {
      Man(nIdCount, mapInfo, mapAddr, vRandom, nTried, nNew, Slots(vvTried), Slots(vvNew))
    }

    ghost predicate Shaped() {
      && vvTried != vvNew
      && vvTried.Length0 == TRIED_BUCKETS && vvTried.Length1 == BUCKET_SIZE
      && vvNew.Length0 == NEW_BUCKETS && vvNew.Length1 == BUCKET_SIZE
    }

    ghost predicate Valid()
      reads this, vvTried, vvNew
    {
      Shaped() && Consistent(h, Now())
    }

    constructor (h: Hasher)
      ensures Valid() && Now() == EmptyMan() && this.h == h && fresh(vvTried) && fresh(vvNew)
    {
      this.h := h;
      nIdCount, mapInfo, mapAddr, vRandom, nTried, nNew, nLastGood := 0, map[], map[], [], 0, 0, 1;
      vvTried := new int[TRIED_BUCKETS, BUCKET_SIZE]((i, j) => -1);
      vvNew := new int[NEW_BUCKETS, BUCKET_SIZE]((i, j) => -1);
      new;
      assert Slots(vvTried) == map[] && Slots(vvNew) == map[];
      assert TriedIds(Now()) == {} && NewIds(Now()) == {};
    }

    method SwapRandomPositions(i: nat, j: nat)
      requires IndexOk(Now()) && i < |vRandom| && j < |vRandom|
      modifies this`mapInfo, this`vRandom
      ensures Now() == SwapRandom(old(Now()), i, j)
    {
      if i == j {
        return;
      }
      var id1, id2 := vRandom[i], vRandom[j];
      assert id1 in mapInfo && id2 in mapInfo;
      mapInfo := mapInfo[id1 := mapInfo[id1].(nRandomPos := j)];
      mapInfo := mapInfo[id2 := mapInfo[id2].(nRandomPos := i)];
      vRandom := vRandom[i := id2][j := id1];
    }

    /** Indexes a new entry under the next id. */
    method CreateEntry(info: Info) returns (id: int)
      modifies this`nIdCount, this`mapInfo, this`mapAddr, this`vRandom
      ensures Now() == Create(old(Now()), info) && id == old(nIdCount)
    {
      hide Slots;
      id := nIdCount;
      nIdCount := nIdCount + 1;
      mapInfo := mapInfo[id := info.(nRandomPos := |vRandom|)];
      mapAddr := mapAddr[info.service.addr := id];
      vRandom := vRandom + [id];
    }

    /** Removes an entry that is in neither table. */
    method DeleteEntry(id: int, ghost F: set<int>, ghost U: set<int>)
      requires Inv(h, Now(), F, U) && id in F && id !in U
      modifies this`mapInfo, this`mapAddr, this`vRandom, this`nNew
      ensures CanDelete(old(Now()), id) && Now() == Delete(old(Now()), id)
    {
      hide Inv, IndexOk, Slots, SwapRandom, Delete;
      FloatingStanding(h, Now(), F, U, id);
      SwappedToLast(h, Now(), F, U, id);
      assert id in mapInfo && !mapInfo[id].fInTried && mapInfo[id].nRefCount == 0;
      var info := mapInfo[id];
      SwapRandomPositions(info.nRandomPos, |vRandom| - 1);
      ghost var swapped := Now();
      vRandom := vRandom[..|vRandom| - 1];
      mapAddr := mapAddr - {info.service.addr};
      mapInfo := mapInfo - {id};
      nNew := nNew - 1;
      assert Now() == DropLast(swapped, id);
    }

    /** Frees a slot of the new table, deleting its occupant if that was its last. */
    method ClearNewSlot(b: int, p: int, ghost F: set<int>, ghost U: set<int>)
      requires Shaped() && Inv(h, Now(), F, U) && U <= F && 0 <= b < NEW_BUCKETS && 0 <= p < BUCKET_SIZE
      modifies this`mapInfo, this`mapAddr, this`vRandom, this`nNew, vvNew
      ensures CanClear(old(Now()), Slot(b, p)) && Now() == ClearNew(old(Now()), Slot(b, p))
    {
      hide Inv, Delete, CanDelete, Slots;
      SlotAt(vvNew, b, p);
      ClearNewKeeps(h, Now(), F, U, Slot(b, p));
      if vvNew[b, p] != -1 {
        var id := vvNew[b, p];
        ReleaseKeeps(h, Now(), F, U, Slot(b, p));
        assert mapInfo[id].nRefCount > 0;
        mapInfo := mapInfo[id := mapInfo[id].(nRefCount := mapInfo[id].nRefCount - 1)];
        SetSlot(vvNew, b, p, -1);
        if mapInfo[id].nRefCount == 0 {
          DeleteEntry(id, F + {id}, U);
        }
      }
    }

    /** Removes the entry from all new buckets. */
    method LeaveNewBuckets(id: int)
      requires Valid() && id in mapInfo && !mapInfo[id].fInTried
      modifies this`mapInfo, vvNew
      ensures Now() == Withdraw(old(Now()), id)
      ensures id in mapInfo && mapInfo[id] == old(mapInfo)[id].(nRefCount := 0)
    {
      hide Inv, Slots, NewPos, SlotsOf, HeldBelow;
      WithdrawKeeps(h, Now(), {}, {}, id);
      ghost var table := Slots(vvNew);
      ghost var was := mapInfo[id];
      HeldEnds(h, Now(), id);
      assert table - {} == table;
      for bucket := 0 to NEW_BUCKETS
        invariant Shaped() && id in mapInfo
        invariant Slots(vvNew) == table - HeldBelow(table, id, bucket)
        invariant mapInfo == old(mapInfo)[id := was.(nRefCount := was.nRefCount - |HeldBelow(table, id, bucket)|)]
      {
        PosRange(h, mapInfo[id].service, bucket);
        var pos := NewPos(h, mapInfo[id].service, bucket);
        SlotAt(vvNew, bucket, pos);
        HeldStep(h, old(Now()), id, bucket);
        if vvNew[bucket, pos] == id {
          assert table - HeldBelow(table, id, bucket) - {Slot(bucket, pos)} == table - (HeldBelow(table, id, bucket) + {Slot(bucket, pos)});
          SetSlot(vvNew, bucket, pos, -1);
          mapInfo := mapInfo[id := mapInfo[id].(nRefCount := mapInfo[id].nRefCount - 1)];
        }
      }
    }

    /** Sends the entry in the tried slot of a floating one back to the new table, clearing its way there. */
    method EvictEntry(id: int, slot: Slot)
      requires Shaped() && Inv(h, Now(), {id}, {id}) && id in mapInfo && slot in Slots(vvTried)
      requires 0 <= slot.bucket < TRIED_BUCKETS && 0 <= slot.pos < BUCKET_SIZE
      modifies this`mapInfo, this`mapAddr, this`vRandom, this`nNew, this`nTried, vvTried, vvNew
      ensures CanEvict(h, old(Now()), slot) && Now() == MakeRoom(h, old(Now()), slot)
    {
      hide Inv, Slots, NewPos, ClearNew, CanClear, NewSlot, Cleared;
      ghost var w := Now();
      SlotAt(vvTried, slot.bucket, slot.pos);
      var idEvict := vvTried[slot.bucket, slot.pos];
      MakeRoomKeeps(h, w, id, slot);
      EvictKeeps(h, w, {id}, {id}, slot);
      EvictedIsNamed(h, w, {id}, slot);
      assert idEvict in mapInfo;
      mapInfo := mapInfo[idEvict := mapInfo[idEvict].(fInTried := false)];
      SetSlot(vvTried, slot.bucket, slot.pos, -1);
      nTried := nTried - 1;
      ghost var c := Now();
      assert c == Evict(w, slot);
      var infoOld := mapInfo[idEvict];
      SlotRange(h, infoOld.service, infoOld.source);
      PosRange(h, infoOld.service, NewSlot(h, infoOld.service, infoOld.source).bucket);
      var t := NewSlot(h, infoOld.service, infoOld.source);
      ClearedSlot(h, c, {id} + {idEvict}, t);
      ClearNewSlot(t.bucket, t.pos, {id} + {idEvict}, {id} + {idEvict});
      SlotAt(vvNew, t.bucket, t.pos);
      assert vvNew[t.bucket, t.pos] == -1;
      mapInfo := mapInfo[idEvict := mapInfo[idEvict].(nRefCount := 1)];
      SetSlot(vvNew, t.bucket, t.pos, idEvict);
      nNew := nNew + 1;
    }

    /** Moves an entry from the new buckets to its tried slot, sending the entry it displaces back. */
    method MakeTriedEntry(id: int)
      requires Valid() && id in mapInfo && !mapInfo[id].fInTried
      modifies this`mapInfo, this`mapAddr, this`vRandom, this`nNew, this`nTried, vvTried, vvNew
      ensures CanMakeTried(h, old(Now()), id) && Now() == MakeTried(h, old(Now()), id)
      ensures Valid()
    {
      hide Inv, Slots, NewPos, MakeRoom, CanEvict, TriedSlot, Withdraw;
      ghost var before := Now();
      MakeTriedKeeps(h, before, id);
      WithdrawnKeeps(h, before, id);
      NamedByIndex(h, before, id);
      LeaveNewBuckets(id);
      nNew := nNew - 1;
      ghost var w := Now();
      assert w == Withdrawn(before, id);
      assert mapInfo[id].nRefCount == 0;
      TriedRange(h, mapInfo[id].service);
      var slot := TriedSlot(h, mapInfo[id].service);
      SlotAt(vvTried, slot.bucket, slot.pos);
      if vvTried[slot.bucket, slot.pos] != -1 {
        MakeRoomKeeps(h, w, id, slot);
        EvictEntry(id, slot);
        SlotAt(vvTried, slot.bucket, slot.pos);
      }
      ghost var room := Now();
      assert vvTried[slot.bucket, slot.pos] == -1;
      SetSlot(vvTried, slot.bucket, slot.pos, id);
      nTried := nTried + 1;
      mapInfo := mapInfo[id := mapInfo[id].(fInTried := true)];
      assert Now() == EnterTried(room, id, slot);
    }

    /** A bucket of the new table the entry is in, searched from a random start; NEW_BUCKETS if there is none. */
    method FindBucket(id: int, nRnd: nat) returns (bucket: nat)
      requires Valid() && id in mapInfo && nRnd < NEW_BUCKETS
      ensures bucket <= NEW_BUCKETS
      ensures bucket == NEW_BUCKETS <==> SlotsOf(Slots(vvNew), id) == {}
    {
      hide Inv, Slots, NewPos, SlotsOf;
      var n := 0;
      while n < NEW_BUCKETS
        invariant n <= NEW_BUCKETS
        invariant forall k :: 0 <= k < n ==> NotHeldIn(h, Now(), id, Rotated(k, nRnd))
      {
        var b := Rotated(n, nRnd);
        PosRange(h, mapInfo[id].service, b);
        var pos := NewPos(h, mapInfo[id].service, b);
        SlotAt(vvNew, b, pos);
        NamedByIndex(h, Now(), id);
        if vvNew[b, pos] == id {
          HeldSomewhere(h, Now(), id, b);
          return b;
        }
        n := n + 1;
      }
      forall b | 0 <= b < NEW_BUCKETS ensures NotHeldIn(h, Now(), id, b) {
        Rotation(b, nRnd);
        var k := (b - nRnd) % NEW_BUCKETS;
        assert NotHeldIn(h, Now(), id, Rotated(k, nRnd));
      }
      NowhereHeld(h, Now(), id);
      return NEW_BUCKETS;
    }

    /** Good_: the service was connected to successfully. nRnd is the random bucket the search starts at. */
    method MarkGood(service: Service, time: int, nRnd: nat)
      requires Valid() && nRnd < NEW_BUCKETS
      modifies this, vvTried, vvNew
      ensures Valid() && Now() == Good(h, old(Now()), service, time) && nLastGood == time
    {
      hide Inv, Slots, MakeTried, CanMakeTried;
      nLastGood := time;
      if service.addr !in mapAddr {
        return;
      }
      KnownId(h, Now(), service.addr);
      var id := mapAddr[service.addr];
      if mapInfo[id].service != service {
        return;
      }
      UpdateStats(h, Now(), {}, {}, id, Succeeded(mapInfo[id], time));
      mapInfo := mapInfo[id := mapInfo[id].(nLastSuccess := time, nLastTry := time, nAttempts := 0)];
      if mapInfo[id].fInTried {
        return;
      }
      var bucket := FindBucket(id, nRnd);
      SomewhereHeld(h, Now(), id);
      assert bucket != NEW_BUCKETS;
      MakeTriedEntry(id);
    }

    /** The bucket and position are offered to the entry; see Offer. */
    method OfferSlot(id: int, slot: Slot, now: int)
      requires Shaped() && id in mapInfo && !mapInfo[id].fInTried && mapInfo[id].nRefCount < NEW_BUCKETS_PER_ADDRESS
      requires Inv(h, Now(), if mapInfo[id].nRefCount == 0 then {id} else {}, {})
      requires 0 <= slot.bucket < NEW_BUCKETS && slot.pos == NewPos(h, mapInfo[id].service, slot.bucket)
      modifies this`mapInfo, this`mapAddr, this`vRandom, this`nNew, vvNew
      ensures Valid() && Now() == Offer(h, old(Now()), id, slot, now)
    {
      hide Inv, Slots, NewPos, ClearNew, CanClear, Delete, CanDelete, IsTerrible;
      ghost var m := Now();
      ghost var F: set<int> := if mapInfo[id].nRefCount == 0 then {id} else {};
      OfferKeeps(h, m, id, slot, now);
      PosRange(h, mapInfo[id].service, slot.bucket);
      SlotAt(vvNew, slot.bucket, slot.pos);
      NamedByInv(h, m, F, id);
      var occupant := vvNew[slot.bucket, slot.pos];
      if occupant != id {
        var fInsert := occupant == -1;
        if !fInsert {
          var existing := mapInfo[occupant];
          if IsTerrible(existing, now) || (existing.nRefCount > 1 && mapInfo[id].nRefCount == 0) {
            fInsert := true;
          }
        }
        if fInsert {
          ClearNewSlot(slot.bucket, slot.pos, F, {});
          mapInfo := mapInfo[id := mapInfo[id].(nRefCount := mapInfo[id].nRefCount + 1)];
          SetSlot(vvNew, slot.bucket, slot.pos, id);
        } else if mapInfo[id].nRefCount == 0 {
          DeleteEntry(id, F, {});
        }
      }
    }

    /** Add_ of a known address. `lucky` is the outcome of the random test. */
    method RefreshEntry(a: Address, source: NetAddr, p: int, now: int, lucky: bool)
      requires Valid() && a.service.addr in mapAddr
      modifies this`mapInfo, this`mapAddr, this`vRandom, this`nNew, vvNew
      ensures Valid() && Now() == Refresh(h, old(Now()), a, source, p, now, lucky)
    {
      hide Inv, Slots, NewPos, NewSlot, Offer, RefreshedTime;
      KnownId(h, Now(), a.service.addr);
      var id := mapAddr[a.service.addr];
      var info := Refreshed(mapInfo[id], a, p, now);
      SetStats(id, info);
      RefInRange(h, Now(), id);
      if a.nTime == 0 || (info.nTime != 0 && a.nTime <= info.nTime) {
        return;
      }
      if info.fInTried || info.nRefCount == NEW_BUCKETS_PER_ADDRESS {
        return;
      }
      if info.nRefCount > 0 && !lucky {
        return;
      }
      SlotRange(h, info.service, source);
      OfferSlot(id, NewSlot(h, info.service, source), now);
    }

    /** Add_ of an unknown address. */
    method IntroduceEntry(a: Address, source: NetAddr, p: int, now: int)
      requires Valid() && a.service.addr !in mapAddr
      modifies this`nIdCount, this`mapInfo, this`mapAddr, this`vRandom, this`nNew, vvNew
      ensures Valid() && Now() == Introduce(h, old(Now()), a, source, p, now)
    {
      hide Inv, Slots, NewPos, NewSlot, Offer;
      var info := NewcomerInfo(a, source, p);
      CreatedCounted(h, Now(), info);
      var id := CreateEntry(info);
      nNew := nNew + 1;
      SlotRange(h, mapInfo[id].service, source);
      OfferSlot(id, NewSlot(h, mapInfo[id].service, source), now);
    }

    /** Add_: returns whether the address was new. `lucky` is the outcome of the random test for known ones. */
    method AddAddress(a: Address, source: NetAddr, penalty: int, now: int, routable: bool, lucky: bool) returns (isNew: bool)
      requires Valid()
      modifies this`nIdCount, this`mapInfo, this`mapAddr, this`vRandom, this`nNew, vvNew
      ensures Valid() && (isNew, Now()) == Add(h, old(Now()), a, source, penalty, now, routable, lucky)
    {
      hide Inv, Slots, Refresh, Introduce;
      if !routable {
        return false;
      }
      var p := if a.service.addr == source then 0 else penalty;
      if a.service.addr in mapAddr {
        RefreshEntry(a, source, p, now, lucky);
        return false;
      }
      IntroduceEntry(a, source, p, now);
      return true;
    }

    /** Replaces an entry's statistics. */
    method SetStats(id: int, info: Info)
      requires Valid() && id in mapInfo && SameStanding(mapInfo[id], info)
      modifies this`mapInfo
      ensures Valid() && Now() == SetInfo(old(Now()), id, info)
    {
      hide Inv, Slots;
      UpdateStats(h, Now(), {}, {}, id, info);
      mapInfo := mapInfo[id := info];
    }

    /** Attempt_: a connection was tried; failures count once per period between successes. */
    method MarkAttempt(service: Service, fCountFailure: bool, time: int)
      requires Valid()
      modifies this`mapInfo
      ensures Valid()
      ensures var id := if service.addr in mapAddr then mapAddr[service.addr] else -1;
              if id in old(mapInfo) && old(mapInfo)[id].service == service then
                var info, counted := old(mapInfo)[id], fCountFailure && old(mapInfo)[id].nLastCountAttempt < nLastGood;
                mapInfo == old(mapInfo)[id := info.(nLastTry := time,
                                                    nLastCountAttempt := if counted then time else info.nLastCountAttempt,
                                                    nAttempts := if counted then info.nAttempts + 1 else info.nAttempts)]
              else mapInfo == old(mapInfo)
    {
      hide Inv, Slots;
      NoNegativeId(h, Now());
      if service.addr !in mapAddr {
        return;
      }
      KnownId(h, Now(), service.addr);
      var id := mapAddr[service.addr];
      var info := mapInfo[id];
      if info.service != service {
        return;
      }
      info := info.(nLastTry := time);
      if fCountFailure && info.nLastCountAttempt < nLastGood {
        info := info.(nLastCountAttempt := time, nAttempts := info.nAttempts + 1);
      }
      SetStats(id, info);
    }

    /** GetAddr_: a random selection of addresses worth passing on. The choices of RandomInt are arbitrary. */
    method GetAddresses(now: int) returns (found: seq<int>)
      requires Valid()
      modifies this`mapInfo, this`vRandom
      ensures Valid() && OnlyMoved(old(Now()), Now())
      ensures |found| <= 2500 && 100 * |found| <= 23 * |vRandom|
      ensures forall i, j :: 0 <= i < j < |found| ==> found[i] != found[j]
      ensures forall i :: 0 <= i < |found| ==> found[i] in mapInfo && !IsTerrible(mapInfo[found[i]], now)
      ensures |found| < 2500 && |found| < 23 * |vRandom| / 100 ==> forall id :: id in mapInfo && !IsTerrible(mapInfo[id], now) ==> id in found
    {
      hide Inv, IndexOk, OnlyMoved, Slots, SwapRandom, IsTerrible, Gathered;
      var nNodes := 23 * |vRandom| / 100;
      if nNodes > 2500 {
        nNodes := 2500;
      }
      found := [];
      ghost var start := Now();
      InvIndex(h, start, {}, {});
      GatheredNone(start, now);
      var n := 0;
      while n < |vRandom| && |found| < nNodes
        invariant n <= |vRandom| == |old(vRandom)| && |found| <= nNodes
        invariant Shaped() && Inv(h, Now(), {}, {}) && IndexOk(Now()) && Gathered(start, Now(), found, n, now)
      {
        var nRndPos := RandomFrom(n, |vRandom|);
        ghost var m := Now();
        SwapKeeps(h, m, {}, {}, n, nRndPos);
        GatherSwap(start, m, found, n, nRndPos, now);
        SwapRandomPositions(n, nRndPos);
        InvIndex(h, Now(), {}, {});
        GatherMore(start, Now(), found, n, now);
        var id := vRandom[n];
        if !IsTerrible(mapInfo[id], now) {
          found := found + [id];
        }
        n := n + 1;
      }
      GatheredAll(start, Now(), found, n, now);
    }
  }

  method RandomFrom(lo: nat, hi: nat) returns (r: nat)
    requires lo < hi
    ensures lo <= r < hi
  {
    r :| lo <= r < hi;
  }

  ghost predicate NotHeldIn(h: Hasher, m: Man, id: int, b: int)
    requires id in m.infos
  {
    var s := Slot(b, NewPos(h, m.infos[id].service, b));
    s in m.newTab ==> m.newTab[s] != id
  }

  lemma HeldSomewhere(h: Hasher, m: Man, id: int, b: int)
    requires id in m.infos && !NotHeldIn(h, m, id, b)
    ensures SlotsOf(m.newTab, id) != {}
  {
    assert Slot(b, NewPos(h, m.infos[id].service, b)) in SlotsOf(m.newTab, id);
  }

  lemma NowhereHeld(h: Hasher, m: Man, id: int)
    requires Consistent(h, m) && id in m.infos && forall b :: 0 <= b < NEW_BUCKETS ==> NotHeldIn(h, m, id, b)
    ensures SlotsOf(m.newTab, id) == {}
  {
    hide NewPos;
    forall s | s in m.newTab ensures m.newTab[s] != id {
      assert NotHeldIn(h, m, id, s.bucket);
    }
  }

  function Rotated(n: nat, nRnd: nat): nat {
    (n + nRnd) % NEW_BUCKETS
  }

  lemma Rotation(b: nat, r: nat)
    requires b < NEW_BUCKETS && r < NEW_BUCKETS
    ensures var k := (b - r) % NEW_BUCKETS; 0 <= k < NEW_BUCKETS && Rotated(k, r) == b
  {
  }

  /** A new entry that is not floating holds some slot, so Good_ always finds its bucket. */
  lemma SomewhereHeld(h: Hasher, m: Man, id: int)
    requires Consistent(h, m) && id in m.infos && !m.infos[id].fInTried
    ensures SlotsOf(m.newTab, id) != {}
  {
    assert RefOk(m, {}, id);
  }

  lemma NamedByInv(h: Hasher, m: Man, F: set<int>, id: int)
    requires Inv(h, m, F, {}) && id in m.infos
    ensures id != -1
  {
  }

  lemma NoNegativeId(h: Hasher, m: Man)
    requires Consistent(h, m)
    ensures -1 !in m.infos
  {
  }

  lemma MovedTwice(a: Man, b: Man, c: Man)
    requires OnlyMoved(a, b) && OnlyMoved(b, c)
    ensures OnlyMoved(a, c)
  {
    forall id | id in a.infos ensures Unmoved(c.infos[id]) == Unmoved(a.infos[id]) {
      assert Unmoved(b.infos[id]) == Unmoved(a.infos[id]);
    }
  }

  /** Of the first n places in vRandom, all that are not terrible have been found. */
  ghost predicate Seen(m: Man, found: seq<int>, n: nat, now: int) {
    n <= |m.order| && forall i :: 0 <= i < n ==> m.order[i] in m.infos && (IsTerrible(m.infos[m.order[i]], now) || m.order[i] in found)
  }

  /** Halfway through GetAddr_: distinct addresses found among the first n places, none terrible and none missed. */
  ghost predicate Gathered(start: Man, m: Man, found: seq<int>, n: nat, now: int) {
    && OnlyMoved(start, m) && |m.order| == |start.order| && Seen(m, found, n, now)
    && (forall i :: 0 <= i < |found| ==> found[i] in m.order[..n])
    && (forall i, j :: 0 <= i < j < |found| ==> found[i] != found[j])
    && (forall i :: 0 <= i < |found| ==> found[i] in m.infos && !IsTerrible(m.infos[found[i]], now))
  }

  lemma GatheredNone(m: Man, now: int)
    ensures Gathered(m, m, [], 0, now)
  {
    hide IsTerrible;
  }

  lemma GatherSwap(start: Man, m: Man, found: seq<int>, n: nat, pos: nat, now: int)
    requires IndexOk(m) && Gathered(start, m, found, n, now) && n <= pos < |m.order| && n < |m.order|
    ensures m.order[n] in m.infos && m.order[pos] in m.infos && |SwapRandom(m, n, pos).order| == |m.order|
    ensures Gathered(start, SwapRandom(m, n, pos), found, n, now)
  {
    IndexAt(m, n);
    IndexAt(m, pos);
    SwapMoves(m, n, pos);
    hide IndexOk, SwapRandom, OnlyMoved, Seen, IsTerrible;
    var r := SwapRandom(m, n, pos);
    assert r.order[..n] == m.order[..n];
    MovedTwice(start, m, r);
    FoundStays(m, r, found, now);
    SeenStays(m, r, found, n, now);
  }

  lemma IndexAt(m: Man, k: nat)
    requires IndexOk(m) && k < |m.order|
    ensures Placed(m) && m.order[k] in m.infos
  {
  }

  lemma GatherMore(start: Man, m: Man, found: seq<int>, n: nat, now: int)
    requires IndexOk(m) && Gathered(start, m, found, n, now) && n < |m.order|
    ensures m.order[n] in m.infos
    ensures IsTerrible(m.infos[m.order[n]], now) ==> Gathered(start, m, found, n + 1, now)
    ensures !IsTerrible(m.infos[m.order[n]], now) ==> Gathered(start, m, found + [m.order[n]], n + 1, now)
  {
    NotBefore(m, n);
    SeenMore(m, found, n, now);
    hide IndexOk, OnlyMoved, Seen, IsTerrible;
    assert m.order[..n + 1] == m.order[..n] + [m.order[n]];
  }

  lemma GatheredAll(start: Man, m: Man, found: seq<int>, n: nat, now: int)
    requires IndexOk(m) && Gathered(start, m, found, n, now)
    ensures OnlyMoved(start, m)
    ensures forall i, j :: 0 <= i < j < |found| ==> found[i] != found[j]
    ensures forall i :: 0 <= i < |found| ==> found[i] in m.infos && !IsTerrible(m.infos[found[i]], now)
    ensures n == |m.order| ==> forall id :: id in m.infos && !IsTerrible(m.infos[id], now) ==> id in found
  {
    hide IsTerrible, OnlyMoved;
    if n == |m.order| { SeenAll(m, found, now); }
  }

  lemma SeenStays(m: Man, r: Man, found: seq<int>, n: nat, now: int)
    requires OnlyMoved(m, r) && Seen(m, found, n, now) && n <= |r.order| && r.order[..n] == m.order[..n]
    ensures Seen(r, found, n, now)
  {
    forall i | 0 <= i < n ensures r.order[i] in r.infos && (IsTerrible(r.infos[r.order[i]], now) || r.order[i] in found) {
      assert r.order[i] == r.order[..n][i] == m.order[i];
      var id := m.order[i];
      assert Unmoved(r.infos[id]) == Unmoved(m.infos[id]);
    }
  }

  lemma SeenMore(m: Man, found: seq<int>, n: nat, now: int)
    requires Seen(m, found, n, now) && n < |m.order| && m.order[n] in m.infos
    ensures Seen(m, found + [m.order[n]], n + 1, now)
    ensures IsTerrible(m.infos[m.order[n]], now) ==> Seen(m, found, n + 1, now)
  {
    hide IsTerrible;
  }

  lemma SeenAll(m: Man, found: seq<int>, now: int)
    requires IndexOk(m) && Seen(m, found, |m.order|, now)
    ensures forall id :: id in m.infos && !IsTerrible(m.infos[id], now) ==> id in found
  {
    hide IsTerrible;
    forall id | id in m.infos && !IsTerrible(m.infos[id], now) ensures id in found {
      assert m.order[m.infos[id].nRandomPos] == id;
    }
  }

  lemma FoundStays(m: Man, r: Man, found: seq<int>, now: int)
    requires OnlyMoved(m, r) && forall i :: 0 <= i < |found| ==> found[i] in m.infos && !IsTerrible(m.infos[found[i]], now)
    ensures forall i :: 0 <= i < |found| ==> found[i] in r.infos && !IsTerrible(r.infos[found[i]], now)
  {
    forall i | 0 <= i < |found| ensures found[i] in r.infos && !IsTerrible(r.infos[found[i]], now) {
      var id := found[i];
      assert id in m.infos && id in r.infos && Unmoved(r.infos[id]) == Unmoved(m.infos[id]);
      TerribleUnmoved(m.infos[id], now);
      TerribleUnmoved(r.infos[id], now);
    }
  }

  lemma TerribleUnmoved(info: Info, now: int)
    ensures IsTerrible(Unmoved(info), now) == IsTerrible(info, now)
  {
  }

  lemma FloatingStanding(h: Hasher, m: Man, F: set<int>, U: set<int>, id: int)
    requires Inv(h, m, F, U) && id in F
    ensures IndexOk(m) && id in m.infos && !m.infos[id].fInTried && m.infos[id].nRefCount == 0
    ensures CanDelete(m, id)
  {
    FloatingInNoSlot(m, F, id);
    assert RefOk(m, F, id);
    IndexPlace(m, id);
  }

  lemma NotBefore(m: Man, n: nat)
    requires IndexOk(m) && n < |m.order|
    ensures m.order[n] !in m.order[..n] && m.order[n] in m.infos
  {
    forall k | 0 <= k < n ensures m.order[k] != m.order[n] {
      assert m.infos[m.order[k]].nRandomPos == k && m.infos[m.order[n]].nRandomPos == n;
    }
  }

  lemma PosRange(h: Hasher, service: Service, bucket: int)
    ensures 0 <= NewPos(h, service, bucket) < BUCKET_SIZE
  {
  }

  lemma TriedRange(h: Hasher, service: Service)
    ensures var s := TriedSlot(h, service); 0 <= s.bucket < TRIED_BUCKETS && 0 <= s.pos < BUCKET_SIZE
  {
  }

  ghost function HeldBelow(t: map<Slot, int>, id: int, bucket: int): set<Slot> {
    set s | s in SlotsOf(t, id) && s.bucket < bucket
  }

  lemma HeldEnds(h: Hasher, m: Man, id: int)
    requires Consistent(h, m)
    ensures HeldBelow(m.newTab, id, 0) == {} && HeldBelow(m.newTab, id, NEW_BUCKETS) == SlotsOf(m.newTab, id)
  {
  }

  /** In any bucket an entry can only sit at its hashed position. */
  lemma HeldStep(h: Hasher, m: Man, id: int, bucket: int)
    requires Consistent(h, m) && id in m.infos
    ensures id != -1
    ensures var s, below := Slot(bucket, NewPos(h, m.infos[id].service, bucket)), HeldBelow(m.newTab, id, bucket);
            && s !in below
            && HeldBelow(m.newTab, id, bucket + 1) == if s in m.newTab && m.newTab[s] == id then below + {s} else below
  {
    hide NewPos;
    var s, below := Slot(bucket, NewPos(h, m.infos[id].service, bucket)), HeldBelow(m.newTab, id, bucket);
    assert forall x :: x in SlotsOf(m.newTab, id) && x.bucket == bucket ==> x == s;
    if s in m.newTab && m.newTab[s] == id {
      assert HeldBelow(m.newTab, id, bucket + 1) == below + {s};
    } else {
      assert HeldBelow(m.newTab, id, bucket + 1) == below;
    }
  }

  lemma NamedByIndex(h: Hasher, m: Man, id: int)
    requires Consistent(h, m) && id in m.infos
    ensures id != -1
  {
  }

  /** Clearing a slot leaves it free, and floating entries known. */
  lemma ClearedSlot(h: Hasher, m: Man, F: set<int>, s: Slot)
    requires Inv(h, m, F, F)
    ensures CanClear(m, s) && s !in ClearNew(m, s).newTab
  {
    hide Inv, ClearNew, CanClear;
    ClearNewKeeps(h, m, F, F, s);
  }

  lemma EvictedIsNamed(h: Hasher, m: Man, F: set<int>, s: Slot)
    requires Inv(h, m, F, F) && s in m.tried
    ensures m.tried[s] in m.infos && m.tried[s] != -1
  {
  }
}
