/** How large the encoding of a partial Merkle tree gets. */
module MerkleBounds {
  import opened Products
  import opened FlagBits
  import opened PartialMerkle

  lemma EncodeLeafOrBare(H: (Hash, Hash) -> Hash, txids: seq<Hash>, marks: seq<bool>, h: nat, pos: nat)
    requires |marks| == |txids| && pos < Width(|txids|, h) && Last(|txids|, h, pos) <= |txids|
    requires h == 0 || !AnyMatch(marks, First(h, pos), Last(|txids|, h, pos))
    ensures |Encode(H, txids, marks, h, pos).bits| == 1 && |Encode(H, txids, marks, h, pos).hashes| == 1
  {
  }

  /** No more hashes than transactions below the node. */
  lemma {:induction false} HashesWithinLeaves(H: (Hash, Hash) -> Hash, txids: seq<Hash>, marks: seq<bool>, h: nat, pos: nat)
    requires |marks| == |txids| && pos < Width(|txids|, h)
    ensures 1 <= |Encode(H, txids, marks, h, pos).hashes| <= Last(|txids|, h, pos) - First(h, pos)
    ensures |Encode(H, txids, marks, h, pos).hashes| <= |Encode(H, txids, marks, h, pos).bits|
    decreases h
  {
    hide Width, First, Last, CalcHash, AnyMatch, Encode;
    var n := |txids|;
    NodeNotEmpty(n, h, pos);
    if h == 0 || !AnyMatch(marks, First(h, pos), Last(n, h, pos)) {
      EncodeLeafOrBare(H, txids, marks, h, pos);
    } else {
      Children(n, h, pos);
      EncodeInner(H, txids, marks, h, pos);
      HashesWithinLeaves(H, txids, marks, h - 1, 2 * pos);
      if 2 * pos + 1 < Width(n, h - 1) {
        HashesWithinLeaves(H, txids, marks, h - 1, 2 * pos + 1);
      }
    }
  }

  /** At most one hash, and one more per matched transaction and level. */
  lemma {:induction false} HashesWithinMatches(H: (Hash, Hash) -> Hash, txids: seq<Hash>, marks: seq<bool>, h: nat, pos: nat)
    requires |marks| == |txids| && pos < Width(|txids|, h)
    ensures First(h, pos) <= Last(|txids|, h, pos) <= |txids|
    ensures |Encode(H, txids, marks, h, pos).hashes| <= 1 + |MatchedIn(txids, marks, First(h, pos), Last(|txids|, h, pos))| * h
    decreases h
  {
    hide Width, First, Last, CalcHash, AnyMatch, Encode, MatchedIn;
    var n := |txids|;
    NodeNotEmpty(n, h, pos);
    var m := |MatchedIn(txids, marks, First(h, pos), Last(n, h, pos))|;
    NothingMatched(txids, marks, First(h, pos), Last(n, h, pos));
    if h == 0 || !AnyMatch(marks, First(h, pos), Last(n, h, pos)) {
      EncodeLeafOrBare(H, txids, marks, h, pos);
      MulNonNegative(m, h);
    } else {
      Children(n, h, pos);
      EncodeInner(H, txids, marks, h, pos);
      HashesWithinMatches(H, txids, marks, h - 1, 2 * pos);
      assert m * h == m * (h - 1) + m;
      if 2 * pos + 1 < Width(n, h - 1) {
        HashesWithinMatches(H, txids, marks, h - 1, 2 * pos + 1);
        var mid := First(h - 1, 2 * pos + 1);
        MatchedSplits(txids, marks, First(h, pos), mid, Last(n, h, pos));
        var m1, m2 := |MatchedIn(txids, marks, First(h, pos), mid)|, |MatchedIn(txids, marks, mid, Last(n, h, pos))|;
        assert m * (h - 1) == m1 * (h - 1) + m2 * (h - 1);
      }
    }
  }

  // ---------------------------------------------------------------------------------------------
  // Flag bits. The format's description allows 2N - 1 of them for N hashes, but a node with a single
  // child costs one more when it is descended into.

  /** The last node at height k has no right child, and something below it is matched. */
  predicate Lonely(marks: seq<bool>, k: nat)
    requires k > 0 && |marks| > 0
  {
    var n := |marks|;
    NodeExists(n, k, 0);
    WidthRounds(n, k);
    Width(n, k - 1) % 2 == 1 && AnyMatch(marks, First(k, Width(n, k) - 1), n)
  }

  function LonelyCount(marks: seq<bool>, h: nat): nat
    requires |marks| > 0
  {
    if h == 0 then 0 else LonelyCount(marks, h - 1) + if Lonely(marks, h) then 1 else 0
  }

  /** A node's share of extra bits: only the last node of a level has lonely nodes below it. */
  function Extra(marks: seq<bool>, h: nat, pos: nat): nat
    requires |marks| > 0
  {
    if pos + 1 == Width(|marks|, h) then LonelyCount(marks, h) else 0
  }

  lemma LastNode(n: nat, h: nat)
    requires n > 0
    ensures Width(n, h) > 0 && First(h, Width(n, h) - 1) < n == Last(n, h, Width(n, h) - 1)
  {
    hide Width, Pow2;
    NodeExists(n, h, 0);
    NodeExists(n, h, Width(n, h) - 1);
    NodeExists(n, h, Width(n, h));
  }

  lemma LastNodeNarrows(n: nat, h: nat)
    requires n > 0 && h > 0
    ensures Width(n, h) > 0 && Width(n, h - 1) > 0 && First(h, Width(n, h) - 1) <= First(h - 1, Width(n, h - 1) - 1)
  {
    hide Width;
    LastNode(n, h);
    LastNode(n, h - 1);
    WidthHalves(n, h - 1);
    var w := Width(n, h) - 1;
    MulAssoc(w, 2, Pow2(h - 1));
    MulMono(2 * w, Width(n, h - 1) - 1, Pow2(h - 1));
  }

  lemma {:induction false} NoneLonely(marks: seq<bool>, h: nat)
    requires |marks| > 0
    requires Width(|marks|, h) > 0 && !AnyMatch(marks, First(h, Width(|marks|, h) - 1), |marks|)
    ensures LonelyCount(marks, h) == 0
    decreases h
  {
    hide Width, First;
    if h > 0 {
      LastNodeNarrows(|marks|, h);
      NoneLonely(marks, h - 1);
    }
  }

  /** Exactly how many flag bits a node takes. */
  lemma {:induction false} BitCount(H: (Hash, Hash) -> Hash, txids: seq<Hash>, marks: seq<bool>, h: nat, pos: nat)
    requires |marks| == |txids| && pos < Width(|txids|, h) && |marks| > 0
    ensures |Encode(H, txids, marks, h, pos).bits| == 2 * |Encode(H, txids, marks, h, pos).hashes| - 1 + Extra(marks, h, pos)
    decreases h
  {
    hide Width, First, Last, CalcHash, AnyMatch, Encode;
    var n := |txids|;
    NodeNotEmpty(n, h, pos);
    LastNode(n, h);
    if h == 0 || !AnyMatch(marks, First(h, pos), Last(n, h, pos)) {
      EncodeLeafOrBare(H, txids, marks, h, pos);
      if h > 0 && pos + 1 == Width(n, h) { NoneLonely(marks, h); }
    } else {
      Children(n, h, pos);
      EncodeInner(H, txids, marks, h, pos);
      WidthHalves(n, h - 1);
      BitCount(H, txids, marks, h - 1, 2 * pos);
      if 2 * pos + 1 < Width(n, h - 1) {
        BitCount(H, txids, marks, h - 1, 2 * pos + 1);
      }
    }
  }

  lemma {:induction false} LonelyAtMost(marks: seq<bool>, h: nat)
    requires |marks| > 0
    ensures LonelyCount(marks, h) <= h
    ensures LonelyCount(marks, h) == 0 <==> forall k :: 1 <= k <= h ==> !Lonely(marks, k)
  {
    if h > 0 { LonelyAtMost(marks, h - 1); }
  }

  /** The whole tree: the documented bounds on hashes hold always. The one on flag bits holds exactly when no
      node without a right child has anything matched below it, and is off by at most the height. The one on
      the serialised size holds exactly within the allowance of extra flag bits. */
  lemma SizeBounds(H: (Hash, Hash) -> Hash, txids: seq<Hash>, marks: seq<bool>, h: nat)
    requires |marks| == |txids| > 0 && IsHeight(|txids|, h)
    ensures 0 < Width(|txids|, h)
    ensures var code := Encode(H, txids, marks, h, 0);
            && 1 <= |code.hashes| <= |txids| && |code.hashes| <= |code.bits|
            && |code.hashes| <= 1 + |MatchedIn(txids, marks, 0, |txids|)| * h
            && (|code.bits| <= 2 * |code.hashes| - 1 <==> forall k :: 1 <= k <= h ==> !Lonely(marks, k))
            && 2 * |code.hashes| - 1 <= |code.bits| <= 2 * |code.hashes| - 1 + h
            && (SerializedSize(code) <= DocumentedSize(|code.hashes|) <==> SizeAllowed(|code.hashes|, LonelyCount(marks, h)))
            && (|code.hashes| < 253 && h <= 33 ==> SerializedSize(code) <= DocumentedSize(|code.hashes|))
  {
    hide Width, First, Last, Encode, Lonely, MatchedIn;
    RootCoversAll(|txids|, h);
    HashesWithinLeaves(H, txids, marks, h, 0);
    HashesWithinMatches(H, txids, marks, h, 0);
    BitCount(H, txids, marks, h, 0);
    LonelyAtMost(marks, h);
    SizeWithinDocumented(|Encode(H, txids, marks, h, 0).hashes|, LonelyCount(marks, h));
  }

  // ---------------------------------------------------------------------------------------------
  // The serialised size: four bytes for the number of transactions, then the hashes and the bytes of flag
  // bits, each preceded by their number in compact form.

  function CompactSizeLength(n: nat): nat {
    if n < 253 then 1 else if n <= 0xFFFF then 3 else if n <= 0xFFFF_FFFF then 5 else 9
  }

  function SerializedSize(code: Code): nat {
    var bytes := ByteCount(|code.bits|);
    4 + CompactSizeLength(|code.hashes|) + 32 * |code.hashes| + CompactSizeLength(bytes) + bytes
  }

  /** The documented limit for N hashes: 10 + 32.25 N, rounded up. */
  function DocumentedSize(hashes: nat): nat {
    10 + (129 * hashes + 3) / 4
  }

  /** How many extra flag bits the documented limit leaves room for: the compact lengths use up what it
      reserves, and the bits that fill the last byte come for free. From 65536 hashes on there is no room. */
  predicate SizeAllowed(hashes: nat, extra: nat)
    requires hashes > 0
  {
    var free := 2 * ((4 - hashes % 4) % 4);
    if hashes < 253 then extra <= 33 + free
    else if ByteCount(2 * hashes - 1 + extra) < 253 then extra <= 17 + free
    else hashes <= 0xFFFF && extra <= 1 + free
  }

  lemma SizeWithinDocumented(hashes: nat, extra: nat)
    requires hashes > 0
    ensures var bytes := ByteCount(2 * hashes - 1 + extra);
            4 + CompactSizeLength(hashes) + 32 * hashes + CompactSizeLength(bytes) + bytes <= DocumentedSize(hashes) <==> SizeAllowed(hashes, extra)
  {
    var quarters, free := (hashes + 3) / 4, 2 * ((4 - hashes % 4) % 4);
    assert 2 * hashes == 8 * quarters - free;
    assert DocumentedSize(hashes) == 10 + 32 * hashes + quarters;
    var bytes := ByteCount(2 * hashes - 1 + extra);
    assert bytes == quarters + (extra + 6 - free + 8) / 8 - 1;
  }

  /** Matching everything stores every transaction id. */
  lemma {:induction false} AllMatched(H: (Hash, Hash) -> Hash, txids: seq<Hash>, marks: seq<bool>, h: nat, pos: nat)
    requires |marks| == |txids| && pos < Width(|txids|, h) && forall p :: 0 <= p < |marks| ==> marks[p]
    ensures |Encode(H, txids, marks, h, pos).hashes| == Last(|txids|, h, pos) - First(h, pos)
    decreases h
  {
    hide Width, First, Last, CalcHash, Encode;
    var n := |txids|;
    NodeNotEmpty(n, h, pos);
    if h == 0 {
      EncodeLeafOrBare(H, txids, marks, h, pos);
      NodeWithinOne(n, pos);
    } else {
      assert marks[First(h, pos)];
      Children(n, h, pos);
      EncodeInner(H, txids, marks, h, pos);
      AllMatched(H, txids, marks, h - 1, 2 * pos);
      if 2 * pos + 1 < Width(n, h - 1) { AllMatched(H, txids, marks, h - 1, 2 * pos + 1); }
    }
  }

  lemma NodeWithinOne(n: nat, pos: nat)
    requires pos < Width(n, 0)
    ensures Last(n, 0, pos) - First(0, pos) == 1
  {
  }

  /** The widths of a tree over 1012 transactions: those at heights 2 and 3 are odd. */
  lemma WidthsOf1012()
    ensures Width(1012, 0) == 1012 && Width(1012, 1) == 506 && Width(1012, 2) == 253 && Width(1012, 3) == 127
    ensures Width(1012, 4) == 64 && Width(1012, 5) == 32 && Width(1012, 6) == 16 && Width(1012, 7) == 8
    ensures Width(1012, 8) == 4 && Width(1012, 9) == 2 && Width(1012, 10) == 1
  {
    hide Width;
    assert Width(1012, 0) == 1012 by { WidthAtLeaves(1012); }
    WidthHalves(1012, 0);
    WidthHalves(1012, 1);
    WidthHalves(1012, 2);
    WidthHalves(1012, 3);
    WidthHalves(1012, 4);
    WidthHalves(1012, 5);
    WidthHalves(1012, 6);
    WidthHalves(1012, 7);
    WidthHalves(1012, 8);
    WidthHalves(1012, 9);
  }

  lemma LonelyStep(marks: seq<bool>, k: nat)
    requires k > 0 && |marks| > 0 && forall p :: 0 <= p < |marks| ==> marks[p]
    ensures LonelyCount(marks, k) == LonelyCount(marks, k - 1) + Width(|marks|, k - 1) % 2
  {
    hide Width, First;
    LastNode(|marks|, k);
    if Width(|marks|, k - 1) % 2 == 1 { assert marks[|marks| - 1]; }
  }

  lemma LonelyOf1012(marks: seq<bool>)
    requires |marks| == 1012 && forall p :: 0 <= p < |marks| ==> marks[p]
    ensures LonelyCount(marks, 10) == 2
  {
    hide Width, Lonely;
    WidthsOf1012();
    LonelyStep(marks, 1);
    LonelyStep(marks, 2);
    LonelyStep(marks, 3);
    LonelyStep(marks, 4);
    LonelyStep(marks, 5);
    LonelyStep(marks, 6);
    LonelyStep(marks, 7);
    LonelyStep(marks, 8);
    LonelyStep(marks, 9);
    LonelyStep(marks, 10);
  }

  /** A block of 1012 transactions, all matched: 2025 flag bits take 254 bytes, and the encoding is one byte
      longer than documented. */
  lemma FullTreeExceedsDocumentedSize(H: (Hash, Hash) -> Hash, txids: seq<Hash>, marks: seq<bool>)
    requires |txids| == |marks| == 1012 && forall p :: 0 <= p < |marks| ==> marks[p]
    ensures IsHeight(1012, 10) && 0 < Width(1012, 10)
    ensures var code := Encode(H, txids, marks, 10, 0);
            |code.hashes| == 1012 && |code.bits| == 2025 && SerializedSize(code) == 32648 && DocumentedSize(1012) == 32647
  {
    hide Width, First, Last, Encode, LonelyCount;
    WidthsOf1012();
    RootCoversAll(1012, 10);
    AllMatched(H, txids, marks, 10, 0);
    BitCount(H, txids, marks, 10, 0);
    LonelyOf1012(marks);
  }

  lemma ThreeLeaves()
    ensures Width(3, 0) == 3 && Width(3, 1) == 2 && Width(3, 2) == 1
    ensures First(0, 2) == 2 && Last(3, 0, 2) == 3 && First(1, 0) == 0 && Last(3, 1, 0) == 2
    ensures First(1, 1) == 2 && Last(3, 1, 1) == 3 && First(2, 0) == 0 && Last(3, 2, 0) == 3
  {
    assert Pow2(1) == 2 && Pow2(2) == 4;
  }

  /** Three transactions of which only the last is matched: two hashes, but four flag bits. */
  lemma LonelyTreeExceedsDocumentedBits(H: (Hash, Hash) -> Hash, txids: seq<Hash>)
    requires |txids| == 3
    ensures IsHeight(3, 2) && 0 < Width(3, 2)
    ensures var code := Encode(H, txids, [false, false, true], 2, 0); |code.hashes| == 2 && |code.bits| == 4
  {
    hide Encode, CalcHash, Width, First, Last;
    var marks := [false, false, true];
    ThreeLeaves();
    assert marks[2];
    EncodeLeafOrBare(H, txids, marks, 0, 2);
    EncodeInner(H, txids, marks, 1, 1);
    EncodeLeafOrBare(H, txids, marks, 1, 0);
    EncodeInner(H, txids, marks, 2, 0);
  }
}
