/** Which stored entries find a place when they are loaded, read off the stored form: whoever claims a hashed
    slot first gets it.
 */
module AddrClaims {
  import opened AddrMan
  import opened AddrStore
  import opened AddrLoading

  // ---------------------------------------------------------------------------------------------
  // Claims

  /** No tried entry stored before has the same slot. */
  ghost predicate TriedFits(h: Hasher, st: Stored, k: nat)
    requires k < |st.trieds|
  {
    forall j :: 0 <= j < k ==> TriedSlot(h, st.trieds[j].service) != TriedSlot(h, st.trieds[k].service)
  }

  /** How many of the first n tried entries fit. */
  ghost function Fits(h: Hasher, st: Stored, n: nat): nat
    requires n <= |st.trieds|
  {
    if n == 0 then 0 else Fits(h, st, n - 1) + if TriedFits(h, st, n - 1) then 1 else 0
  }

  /** No new entry stored before has the same slot; this matters when the bucket data cannot be used. */
  ghost predicate FirstClaim(h: Hasher, st: Stored, i: nat)
    requires i < |st.news|
  {
    forall j :: 0 <= j < i ==> NewSlot(h, st.news[j].service, st.news[j].source) != NewSlot(h, st.news[i].service, st.news[i].source)
  }

  /** Reference n of bucket b is within range, its position is not taken yet, and its entry has fewer than eight. */
  ghost predicate Granted(h: Hasher, st: Stored, b: nat, n: nat)
    requires b < |st.buckets| && n < |st.buckets[b]|
    decreases b, n, 1
  {
    var i := st.buckets[b][n];
    0 <= i < |st.news| && !Taken(h, st, b, n, NewPos(h, st.news[i].service, b)) && Grants(h, st, b, n, i) < NEW_BUCKETS_PER_ADDRESS
  }

  /** One of the first n references of bucket b got the position. */
  ghost predicate Taken(h: Hasher, st: Stored, b: nat, n: nat, pos: int)
    requires b < |st.buckets| && n <= |st.buckets[b]|
    decreases b, n, 0
  {
    n > 0 && (Taken(h, st, b, n - 1, pos) || (Granted(h, st, b, n - 1) && NewPos(h, st.news[st.buckets[b][n - 1]].service, b) == pos))
  }

  /** How many references entry i has got from buckets before b and the first n references of bucket b. */
  ghost function Grants(h: Hasher, st: Stored, b: nat, n: nat, i: int): nat
    requires if b < |st.buckets| then n <= |st.buckets[b]| else b == |st.buckets| && n == 0
    decreases b, n, 0
  {
    if n > 0 then Grants(h, st, b, n - 1, i) + if st.buckets[b][n - 1] == i && Granted(h, st, b, n - 1) then 1 else 0
    else if b == 0 then 0
    else Grants(h, st, b - 1, |st.buckets[b - 1]|, i)
  }

  ghost predicate HasPlace(h: Hasher, st: Stored, i: nat)
    requires i < |st.news|
  {
    if Usable(st) then Grants(h, st, |st.buckets|, 0, i) > 0 else FirstClaim(h, st, i)
  }

  /** No two stored entries share an address, unless one of them is a tried entry that does not fit or both are
      new ones without a place. */
  ghost predicate NoSharing(h: Hasher, st: Stored) {
    && (forall i, j :: 0 <= i < j < |st.news| && st.news[i].service.addr == st.news[j].service.addr ==>
          !HasPlace(h, st, i) && !HasPlace(h, st, j))
    && (forall i, k :: 0 <= i < |st.news| && 0 <= k < |st.trieds| && TriedFits(h, st, k) ==>
          st.news[i].service.addr != st.trieds[k].service.addr)
    && (forall k, l :: 0 <= k < l < |st.trieds| && TriedFits(h, st, k) && TriedFits(h, st, l) ==>
          st.trieds[k].service.addr != st.trieds[l].service.addr)
  }

  // ---------------------------------------------------------------------------------------------
  // Tried entries

  lemma {:induction false} FitsGrow(h: Hasher, st: Stored, k: nat, n: nat)
    requires k < n <= |st.trieds|
    ensures Fits(h, st, k) + (if TriedFits(h, st, k) then 1 else 0) <= Fits(h, st, n)
    decreases n
  {
    hide TriedFits;
    if k < n - 1 { FitsGrow(h, st, k, n - 1); }
  }

  /** The id a tried entry that fits is read under. */
  ghost function TriedId(h: Hasher, st: Stored, k: nat): int
    requires k < |st.trieds|
  {
    |st.news| + Fits(h, st, k)
  }

  ghost predicate TriedAt(m: Man, id: int, s: Service) {
    id in m.infos && m.infos[id].service == s && m.infos[id].fInTried
  }

  ghost predicate FromTried(h: Hasher, st: Stored, n: nat, id: int)
    requires n <= |st.trieds|
  {
    exists k :: 0 <= k < n && TriedFits(h, st, k) && id == TriedId(h, st, k)
  }

  ghost predicate SlotClaimed(h: Hasher, st: Stored, n: nat, s: Slot)
    requires n <= |st.trieds|
  {
    exists k :: 0 <= k < n && TriedSlot(h, st.trieds[k].service) == s
  }

  /** The first n tried entries have been read: those that fit, numbered in order. */
  ghost predicate TriedsAre(h: Hasher, st: Stored, n: nat, m: Man)
    requires n <= |st.trieds|
  {
    && m.nIdCount == |st.news| + Fits(h, st, n)
    && (forall k :: 0 <= k < n && TriedFits(h, st, k) ==> TriedAt(m, TriedId(h, st, k), st.trieds[k].service))
    && (forall id :: |st.news| <= id < m.nIdCount ==> FromTried(h, st, n, id))
  }

  lemma FromTriedMore(h: Hasher, st: Stored, n: nat)
    requires n < |st.trieds|
    ensures forall id :: FromTried(h, st, n, id) ==> FromTried(h, st, n + 1, id)
    ensures TriedFits(h, st, n) ==> FromTried(h, st, n + 1, TriedId(h, st, n))
  {
    hide TriedFits, TriedId;
  }

  lemma SlotClaimedMore(h: Hasher, st: Stored, n: nat)
    requires n < |st.trieds|
    ensures forall s :: SlotClaimed(h, st, n + 1, s) <==> SlotClaimed(h, st, n, s) || s == TriedSlot(h, st.trieds[n].service)
    ensures TriedFits(h, st, n) <==> !SlotClaimed(h, st, n, TriedSlot(h, st.trieds[n].service))
  {
    hide TriedSlot;
    forall s ensures SlotClaimed(h, st, n + 1, s) <==> SlotClaimed(h, st, n, s) || s == TriedSlot(h, st.trieds[n].service) {
      if SlotClaimed(h, st, n + 1, s) {
        var k :| 0 <= k < n + 1 && TriedSlot(h, st.trieds[k].service) == s;
      }
    }
  }

  lemma TriedsStart(h: Hasher, st: Stored)
    ensures TriedsAre(h, st, 0, LoadTrieds(h, st, 0)) && forall s :: s in LoadTrieds(h, st, 0).tried <==> SlotClaimed(h, st, 0, s)
  {
    NoTriedYet(h, st, |st.news|);
    hide LoadNews;
  }

  lemma {:induction false} TriedsClaim(h: Hasher, st: Stored, n: nat)
    requires n <= |st.trieds|
    ensures TriedsAre(h, st, n, LoadTrieds(h, st, n)) && forall s :: s in LoadTrieds(h, st, n).tried <==> SlotClaimed(h, st, n, s)
    decreases n
  {
    hide TriedSlot, LoadNews, SlotClaimed, TriedFits, TriedsAre, Numbered, AddTried, Fits;
    if n == 0 {
      TriedsStart(h, st);
    } else {
      TriedsClaim(h, st, n - 1);
      SlotClaimedMore(h, st, n - 1);
      var m := LoadTrieds(h, st, n - 1);
      TriedNext(h, st, n, m);
      TriedTable(h, m, st.trieds[n - 1]);
    }
  }

  lemma TriedTable(h: Hasher, m: Man, s: Saved)
    ensures forall t :: t in AddTried(h, m, s).tried <==> t in m.tried || t == TriedSlot(h, s.service)
  {
    hide TriedSlot;
  }

  lemma {:induction false} NoTriedYet(h: Hasher, st: Stored, n: nat)
    requires n <= |st.news|
    ensures LoadNews(h, st, n).tried == map[]
  {
    if n > 0 { NoTriedYet(h, st, n - 1); }
  }

  lemma TriedNext(h: Hasher, st: Stored, n: nat, m: Man)
    requires 0 < n <= |st.trieds| && TriedsAre(h, st, n - 1, m) && Numbered(m, m.nIdCount)
    requires TriedSlot(h, st.trieds[n - 1].service) in m.tried <==> !TriedFits(h, st, n - 1)
    ensures TriedsAre(h, st, n, AddTried(h, m, st.trieds[n - 1]))
  {
    NextIsFree(m, m.nIdCount);
    hide TriedSlot, TriedFits, Numbered;
    var s, id := st.trieds[n - 1], m.nIdCount;
    FromTriedMore(h, st, n - 1);
    hide FromTried;
    if TriedFits(h, st, n - 1) {
      TriedTaken(h, st, n, m, AddTried(h, m, s));
    } else {
      TriedPassed(h, st, n, m, AddTried(h, m, s));
    }
  }

  lemma TriedPassed(h: Hasher, st: Stored, n: nat, m: Man, r: Man)
    requires 0 < n <= |st.trieds| && TriedsAre(h, st, n - 1, m) && !TriedFits(h, st, n - 1) && r.infos == m.infos && r.nIdCount == m.nIdCount
    requires forall id :: FromTried(h, st, n - 1, id) ==> FromTried(h, st, n, id)
    ensures TriedsAre(h, st, n, r)
  {
    hide TriedFits, FromTried, TriedId, Fits;
    FitsStep(h, st, n);
    forall k | 0 <= k < n && TriedFits(h, st, k) ensures TriedAt(r, TriedId(h, st, k), st.trieds[k].service) {
      assert TriedAt(m, TriedId(h, st, k), st.trieds[k].service);
    }
  }

  lemma TriedTaken(h: Hasher, st: Stored, n: nat, m: Man, r: Man)
    requires 0 < n <= |st.trieds| && TriedsAre(h, st, n - 1, m) && TriedFits(h, st, n - 1)
    requires m.nIdCount !in m.infos && m.nIdCount in r.infos && r.infos == m.infos[m.nIdCount := r.infos[m.nIdCount]]
    requires r.nIdCount == m.nIdCount + 1 && TriedAt(r, m.nIdCount, st.trieds[n - 1].service)
    requires forall id :: FromTried(h, st, n - 1, id) ==> FromTried(h, st, n, id)
    requires FromTried(h, st, n, TriedId(h, st, n - 1))
    ensures TriedsAre(h, st, n, r)
  {
    hide TriedFits, FromTried, TriedId, Fits, TriedAt;
    FitsStep(h, st, n);
    forall k | 0 <= k < n - 1 && TriedFits(h, st, k) ensures TriedAt(r, TriedId(h, st, k), st.trieds[k].service) {
      TriedStays(m, r, TriedId(h, st, k), st.trieds[k].service);
    }
  }

  lemma FitsStep(h: Hasher, st: Stored, n: nat)
    requires 0 < n <= |st.trieds|
    ensures Fits(h, st, n) == Fits(h, st, n - 1) + (if TriedFits(h, st, n - 1) then 1 else 0) && TriedId(h, st, n - 1) == |st.news| + Fits(h, st, n - 1)
  {
    hide TriedFits;
  }

  lemma TriedStays(m: Man, r: Man, id: int, s: Service)
    requires TriedAt(m, id, s) && m.nIdCount !in m.infos && m.nIdCount in r.infos && r.infos == m.infos[m.nIdCount := r.infos[m.nIdCount]]
    ensures TriedAt(r, id, s)
  {
  }

  // ---------------------------------------------------------------------------------------------
  // New entries

  /** Entry i as stored, with a number of references. */
  ghost predicate NewAt(st: Stored, m: Man, i: nat, refs: nat)
    requires i < |st.news|
  {
    i in m.infos && m.infos[i].service == st.news[i].service && !m.infos[i].fInTried && m.infos[i].nRefCount == refs
  }

  ghost function Refs(h: Hasher, st: Stored, i: nat): nat
    requires i < |st.news|
  {
    if !Usable(st) && FirstClaim(h, st, i) then 1 else 0
  }

  ghost predicate NewClaimed(h: Hasher, st: Stored, n: nat, s: Slot)
    requires n <= |st.news|
  {
    !Usable(st) && exists i :: 0 <= i < n && NewSlot(h, st.news[i].service, st.news[i].source) == s
  }

  lemma NewClaimedMore(h: Hasher, st: Stored, n: nat)
    requires n < |st.news|
    ensures var slot := NewSlot(h, st.news[n].service, st.news[n].source);
            && (forall s :: NewClaimed(h, st, n + 1, s) <==> NewClaimed(h, st, n, s) || (!Usable(st) && s == slot))
            && Refs(h, st, n) == if !Usable(st) && !NewClaimed(h, st, n, slot) then 1 else 0
  {
    hide NewSlot;
    var slot := NewSlot(h, st.news[n].service, st.news[n].source);
    forall s ensures NewClaimed(h, st, n + 1, s) <==> NewClaimed(h, st, n, s) || (!Usable(st) && s == slot) {
      if NewClaimed(h, st, n + 1, s) {
        var i :| 0 <= i < n + 1 && NewSlot(h, st.news[i].service, st.news[i].source) == s;
      }
    }
  }

  lemma NumberedSize(m: Man, n: nat)
    requires Numbered(m, n)
    ensures |m.order| == n
  {
  }

  lemma NewTable(h: Hasher, st: Stored, m: Man, s: Saved)
    ensures var r, n, slot := AddNew(h, st, m, s), |m.order|, NewSlot(h, s.service, s.source);
            && (forall t :: t in r.newTab <==> t in m.newTab || (!Usable(st) && t == slot))
            && n in r.infos && r.infos[n].service == s.service && !r.infos[n].fInTried
            && r.infos[n].nRefCount == (if !Usable(st) && slot !in m.newTab then 1 else 0)
            && (forall i :: i in m.infos && i != n ==> i in r.infos && r.infos[i] == m.infos[i])
  {
    hide NewSlot;
  }

  lemma {:induction false} NewsClaim(h: Hasher, st: Stored, n: nat)
    requires n <= |st.news|
    ensures var m := LoadNews(h, st, n);
            (forall i :: 0 <= i < n ==> NewAt(st, m, i, Refs(h, st, i))) && forall s :: s in m.newTab <==> NewClaimed(h, st, n, s)
    decreases n
  {
    if n > 0 {
      hide NewSlot, NewClaimed, Refs, AddNew, Numbered;
      NewsClaim(h, st, n - 1);
      NewClaimedMore(h, st, n - 1);
      var m := LoadNews(h, st, n - 1);
      NumberedSize(m, n - 1);
      NewTable(h, st, m, st.news[n - 1]);
      var r := AddNew(h, st, m, st.news[n - 1]);
      forall i | 0 <= i < n ensures NewAt(st, r, i, Refs(h, st, i)) {
        if i < n - 1 { assert NewAt(st, m, i, Refs(h, st, i)); }
      }
      var slot := NewSlot(h, st.news[n - 1].service, st.news[n - 1].source);
      forall t ensures t in r.newTab <==> NewClaimed(h, st, n, t) {
        assert NewClaimed(h, st, n, t) <==> NewClaimed(h, st, n - 1, t) || (!Usable(st) && t == slot);
      }
    }
  }

  lemma {:induction false} TriedsLeaveNews(h: Hasher, st: Stored, n: nat)
    requires n <= |st.trieds|
    ensures var m, r := LoadNews(h, st, |st.news|), LoadTrieds(h, st, n);
            r.newTab == m.newTab && forall i :: 0 <= i < |st.news| ==> i in r.infos && i in m.infos && r.infos[i] == m.infos[i]
    decreases n
  {
    hide TriedSlot, LoadNews;
    if n > 0 { TriedsLeaveNews(h, st, n - 1); }
  }

  // ---------------------------------------------------------------------------------------------
  // References

  /** The references read so far: every new entry has got its grants, and the positions taken are those granted. */
  ghost predicate RefsAre(h: Hasher, st: Stored, b: nat, n: nat, m: Man)
    requires if b < |st.buckets| then n <= |st.buckets[b]| else b == |st.buckets| && n == 0
  {
    && (forall i :: 0 <= i < |st.news| ==> NewAt(st, m, i, Grants(h, st, b, n, i)))
    && (forall s :: s in m.newTab ==> s.bucket <= b)
    && (forall pos :: Slot(b, pos) in m.newTab <==> b < |st.buckets| && Taken(h, st, b, n, pos))
  }

  lemma RefsStart(h: Hasher, st: Stored)
    requires Usable(st)
    ensures RefsAre(h, st, 0, 0, LoadTrieds(h, st, |st.trieds|))
  {
    NewsClaim(h, st, |st.news|);
    TriedsLeaveNews(h, st, |st.trieds|);
    hide LoadTrieds, LoadNews;
    var m := LoadTrieds(h, st, |st.trieds|);
    forall i | 0 <= i < |st.news| ensures NewAt(st, m, i, Grants(h, st, 0, 0, i)) {
      assert NewAt(st, LoadNews(h, st, |st.news|), i, Refs(h, st, i));
    }
  }

  lemma RefsNextBucket(h: Hasher, st: Stored, b: nat, m: Man)
    requires b < |st.buckets| && RefsAre(h, st, b, |st.buckets[b]|, m)
    ensures RefsAre(h, st, b + 1, 0, m)
  {
    hide Granted;
    var c := b + 1;
    forall i | 0 <= i < |st.news| ensures NewAt(st, m, i, Grants(h, st, c, 0, i)) {
      assert NewAt(st, m, i, Grants(h, st, b, |st.buckets[b]|, i));
    }
  }

  lemma RefsNext(h: Hasher, st: Stored, b: nat, n: nat, m: Man)
    requires Usable(st) && b < |st.buckets| && 0 < n <= |st.buckets[b]| && RefsAre(h, st, b, n - 1, m)
    ensures RefsAre(h, st, b, n, AddSlot(h, st, m, b, st.buckets[b][n - 1]))
  {
    hide NewPos;
    var index := st.buckets[b][n - 1];
    var r := AddSlot(h, st, m, b, index);
    if 0 <= index < |st.news| { assert NewAt(st, m, index, Grants(h, st, b, n - 1, index)); }
    GrantStep(h, st, b, n);
    hide Granted, Taken, Grants;
    forall i | 0 <= i < |st.news| ensures NewAt(st, r, i, Grants(h, st, b, n, i)) {
      assert NewAt(st, m, i, Grants(h, st, b, n - 1, i));
    }
  }

  /** One reference more. */
  lemma GrantStep(h: Hasher, st: Stored, b: nat, n: nat)
    requires b < |st.buckets| && 0 < n <= |st.buckets[b]|
    ensures var i := st.buckets[b][n - 1]; var granted := Granted(h, st, b, n - 1);
            && (granted <==> 0 <= i < |st.news| && !Taken(h, st, b, n - 1, NewPos(h, st.news[i].service, b)) && Grants(h, st, b, n - 1, i) < NEW_BUCKETS_PER_ADDRESS)
            && (forall j :: Grants(h, st, b, n, j) == Grants(h, st, b, n - 1, j) + if i == j && granted then 1 else 0)
            && (forall pos :: Taken(h, st, b, n, pos) <==> Taken(h, st, b, n - 1, pos) || (granted && NewPos(h, st.news[i].service, b) == pos))
  {
    hide NewPos;
  }

  lemma {:induction false} RefsClaim(h: Hasher, st: Stored, b: nat, n: nat)
    requires Usable(st) && if b < |st.buckets| then n <= |st.buckets[b]| else b == |st.buckets| && n == 0
    ensures RefsAre(h, st, b, n, LoadSlots(h, st, b, n))
    decreases b, n
  {
    hide RefsAre, AddSlot, LoadTrieds, Numbered;
    if n > 0 {
      RefsClaim(h, st, b, n - 1);
      RefsNext(h, st, b, n, LoadSlots(h, st, b, n - 1));
    } else if b == 0 {
      RefsStart(h, st);
    } else {
      RefsClaim(h, st, b - 1, |st.buckets[b - 1]|);
      RefsNextBucket(h, st, b - 1, LoadSlots(h, st, b - 1, |st.buckets[b - 1]|));
    }
  }

  /** References concern new entries only, and none is used unless all can be. */
  lemma {:induction false} SlotsLeaveTrieds(h: Hasher, st: Stored, b: nat, n: nat)
    requires if b < |st.buckets| then n <= |st.buckets[b]| else b == |st.buckets| && n == 0
    ensures var m, r := LoadTrieds(h, st, |st.trieds|), LoadSlots(h, st, b, n);
            && r.nIdCount == m.nIdCount && r.infos.Keys == m.infos.Keys && (!Usable(st) ==> r == m)
            && forall id :: id in m.infos && id >= |st.news| ==> r.infos[id] == m.infos[id]
    decreases b, n
  {
    hide LoadTrieds, NewPos, Numbered;
    if n > 0 {
      SlotsLeaveTrieds(h, st, b, n - 1);
    } else if b > 0 {
      SlotsLeaveTrieds(h, st, b - 1, |st.buckets[b - 1]|);
    }
  }

  // ---------------------------------------------------------------------------------------------
  // Everything that was read

  lemma ReadNew(h: Hasher, st: Stored, i: nat)
    requires i < |st.news|
    ensures var m := Read(h, st);
            i in m.infos && m.infos[i].service == st.news[i].service && (i in Homeless(m) <==> !HasPlace(h, st, i))
  {
    var m := Read(h, st);
    if Usable(st) {
      RefsClaim(h, st, |st.buckets|, 0);
      hide LoadSlots, Grants;
      assert NewAt(st, m, i, Grants(h, st, |st.buckets|, 0, i));
    } else {
      NewsClaim(h, st, |st.news|);
      TriedsLeaveNews(h, st, |st.trieds|);
      SlotsLeaveTrieds(h, st, |st.buckets|, 0);
      hide LoadSlots, LoadTrieds, LoadNews, FirstClaim;
      assert NewAt(st, LoadNews(h, st, |st.news|), i, Refs(h, st, i));
    }
  }

  lemma ReadTried(h: Hasher, st: Stored, k: nat)
    requires k < |st.trieds| && TriedFits(h, st, k)
    ensures var m, id := Read(h, st), TriedId(h, st, k);
            id >= |st.news| && id in m.infos && m.infos[id].service == st.trieds[k].service && id !in Homeless(m)
  {
    TriedsClaim(h, st, |st.trieds|);
    SlotsLeaveTrieds(h, st, |st.buckets|, 0);
    assert TriedId(h, st, k) >= |st.news|;
    hide LoadSlots, LoadTrieds, TriedFits, TriedId;
    assert TriedAt(LoadTrieds(h, st, |st.trieds|), TriedId(h, st, k), st.trieds[k].service);
  }

  lemma ReadAll(h: Hasher, st: Stored, id: int) returns (k: nat)
    requires id in Read(h, st).infos && id >= |st.news|
    ensures k < |st.trieds| && TriedFits(h, st, k) && id == TriedId(h, st, k)
  {
    TriedsClaim(h, st, |st.trieds|);
    SlotsLeaveTrieds(h, st, |st.buckets|, 0);
    var m := LoadTrieds(h, st, |st.trieds|);
    assert id < m.nIdCount;
    hide LoadSlots, LoadTrieds, TriedFits, TriedId;
    assert FromTried(h, st, |st.trieds|, id);
    k :| 0 <= k < |st.trieds| && TriedFits(h, st, k) && id == TriedId(h, st, k);
  }

  lemma ReadIds(h: Hasher, st: Stored)
    ensures forall id :: id in Read(h, st).infos ==> id >= 0
  {
  }

  lemma SharingClashes(h: Hasher, st: Stored)
    requires NoClash(Read(h, st))
    ensures NoSharing(h, st)
  {
    hide HasPlace, TriedFits, Read, TriedId, Homeless;
    var m := Read(h, st);
    forall i, j | 0 <= i < j < |st.news| && st.news[i].service.addr == st.news[j].service.addr
      ensures !HasPlace(h, st, i) && !HasPlace(h, st, j)
    {
      ReadNew(h, st, i);
      ReadNew(h, st, j);
    }
    forall i, k | 0 <= i < |st.news| && 0 <= k < |st.trieds| && TriedFits(h, st, k)
      ensures st.news[i].service.addr != st.trieds[k].service.addr
    {
      ReadNew(h, st, i);
      ReadTried(h, st, k);
    }
    forall k, l | 0 <= k < l < |st.trieds| && TriedFits(h, st, k) && TriedFits(h, st, l)
      ensures st.trieds[k].service.addr != st.trieds[l].service.addr
    {
      ReadTried(h, st, k);
      ReadTried(h, st, l);
      TriedIdsDiffer(h, st, k, l);
    }
  }

  lemma TriedIdsDiffer(h: Hasher, st: Stored, k: nat, l: nat)
    requires k < l < |st.trieds| && TriedFits(h, st, k)
    ensures TriedId(h, st, k) < TriedId(h, st, l)
  {
    hide TriedFits;
    FitsGrow(h, st, k, l);
  }

  lemma ClashShares(h: Hasher, st: Stored, i: int, j: int)
    requires NoSharing(h, st) && i in Read(h, st).infos && j in Read(h, st).infos && i < j
    requires Read(h, st).infos[i].service.addr == Read(h, st).infos[j].service.addr
    ensures i in Homeless(Read(h, st)) && j in Homeless(Read(h, st))
  {
    hide HasPlace, TriedFits, Read, TriedId, Homeless;
    ReadIds(h, st);
    if j < |st.news| {
      ReadNew(h, st, i);
      ReadNew(h, st, j);
    } else {
      var l := ReadAll(h, st, j);
      ReadTried(h, st, l);
      if i < |st.news| {
        ReadNew(h, st, i);
        assert false;
      } else {
        var k := ReadAll(h, st, i);
        ReadTried(h, st, k);
        if l < k { TriedIdsDiffer(h, st, l, k); }
        assert false;
      }
    }
  }

  /** Main result: whatever was stored, within the limits loading gives a consistent address manager if and only
      if no stored entry that gets a place shares its address with another one that is read. */
  lemma LoadsConsistently(h: Hasher, st: Stored)
    requires |st.news| <= NEW_BUCKETS * BUCKET_SIZE && |st.trieds| <= TRIED_BUCKETS * BUCKET_SIZE
    ensures Load(h, st).Some? && (Consistent(h, Load(h, st).value) <==> NoSharing(h, st))
  {
    hide Consistent, Load, Read, NoSharing, Pruned;
    LoadedIsConsistent(h, st);
    var m := Read(h, st);
    if NoClash(m) { SharingClashes(h, st); }
    if NoSharing(h, st) {
      forall i, j | i in m.infos && j in m.infos && i != j && m.infos[i].service.addr == m.infos[j].service.addr
        ensures i in Homeless(m) && j in Homeless(m)
      {
        if i < j { ClashShares(h, st, i, j); } else { ClashShares(h, st, j, i); }
      }
    }
  }
}
