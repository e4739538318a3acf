/** Partial Merkle trees: a subset of a block's transaction ids encoded as flag bits and hashes in
    depth-first order, and the traversal that recovers it. The node hash is a parameter.
 */
module PartialMerkle {
  import opened Products

  type Hash = int
  const NULL_HASH: Hash := 0
  const MAX_BLOCK_BASE_SIZE: nat := 2000000
  const MIN_TX_SIZE: nat := 60

  ghost predicate Injective(H: (Hash, Hash) -> Hash) {
    forall a, b, c, d :: H(a, b) == H(c, d) ==> a == c && b == d
  }

  // ---------------------------------------------------------------------------------------------
  // The shape of the tree

  /** Number of nodes at a height of the tree over n leaves. */
  function Width(n: nat, h: nat): nat {
    (n + Pow2(h) - 1) / Pow2(h)
  }

  /** w is n divided by p, rounded up. */
  ghost predicate RoundedUp(n: nat, p: nat, w: nat) {
    w * p >= n && (w > 0 ==> (w - 1) * p < n)
  }

  lemma WidthRounds(n: nat, h: nat)
    ensures RoundedUp(n, Pow2(h), Width(n, h))
  {
    hide Pow2;
    var p, w := Pow2(h), Width(n, h);
    assert w * p <= n + p - 1 < w * p + p;
    assert (w - 1) * p == w * p - p;
  }

  lemma RoundedUpUnique(n: nat, p: nat, v: nat, w: nat)
    requires p > 0 && RoundedUp(n, p, v) && RoundedUp(n, p, w)
    ensures v == w
  {
    if v < w { MulMono(v, w - 1, p); assert false; }
    if w < v { MulMono(w, v - 1, p); assert false; }
  }

  /** Each level halves the one below, rounding up. */
  lemma WidthHalves(n: nat, h: nat)
    ensures Width(n, h + 1) == (Width(n, h) + 1) / 2
  {
    hide Width;
    WidthRounds(n, h);
    WidthRounds(n, h + 1);
    HalfRounds(n, Pow2(h), Width(n, h));
    RoundedUpUnique(n, Pow2(h + 1), (Width(n, h) + 1) / 2, Width(n, h + 1));
  }

  lemma HalfRounds(n: nat, p: nat, w: nat)
    requires RoundedUp(n, p, w)
    ensures RoundedUp(n, 2 * p, (w + 1) / 2)
  {
    var v := (w + 1) / 2;
    MulMono(w, 2 * v, p);
    MulAssoc(v, 2, p);
    assert v * 2 == 2 * v;
    if v > 0 {
      MulMono(2 * v - 2, w - 1, p);
      MulAssoc(v - 1, 2, p);
      assert (v - 1) * 2 == 2 * v - 2;
    }
  }

  /** A node exists exactly when its first leaf does. */
  lemma NodeExists(n: nat, h: nat, pos: nat)
    ensures pos < Width(n, h) <==> pos * Pow2(h) < n
  {
    hide Width, Pow2;
    WidthRounds(n, h);
    if pos < Width(n, h) {
      MulMono(pos, Width(n, h) - 1, Pow2(h));
    } else {
      MulMono(Width(n, h), pos, Pow2(h));
    }
  }

  lemma WidthAtLeaves(n: nat)
    ensures Width(n, 0) == n
  {
    assert Pow2(0) == 1;
  }

  /** The leaves below a node: from First up to, not including, Last. */
  function First(h: nat, pos: nat): nat {
    pos * Pow2(h)
  }

  function Last(n: nat, h: nat, pos: nat): nat {
    if First(h, pos + 1) < n then First(h, pos + 1) else n
  }

  /** A node's leaves are those of its left child followed by those of its right child, if it has one. */
  lemma Children(n: nat, h: nat, pos: nat)
    requires h > 0 && pos < Width(n, h)
    ensures 2 * pos < Width(n, h - 1)
    ensures First(h, pos) == First(h - 1, 2 * pos) < Last(n, h - 1, 2 * pos) <= Last(n, h, pos) <= n
    ensures if 2 * pos + 1 < Width(n, h - 1) then
              Last(n, h - 1, 2 * pos) == First(h - 1, 2 * pos + 1) < Last(n, h - 1, 2 * pos + 1) == Last(n, h, pos)
            else Last(n, h - 1, 2 * pos) == Last(n, h, pos)
  {
    hide Width;
    var p := Pow2(h - 1);
    MulAssoc(pos, 2, p);
    MulAssoc(pos + 1, 2, p);
    assert First(h, pos) == First(h - 1, 2 * pos);
    assert First(h, pos + 1) == First(h - 1, 2 * pos + 2);
    assert First(h - 1, 2 * pos + 1) == First(h - 1, 2 * pos) + p;
    assert First(h - 1, 2 * pos + 2) == First(h - 1, 2 * pos + 1) + p;
    NodeExists(n, h, pos);
    NodeExists(n, h - 1, 2 * pos);
    NodeExists(n, h - 1, 2 * pos + 1);
  }

  lemma Leaf(n: nat, pos: nat)
    requires pos < Width(n, 0)
    ensures First(0, pos) == pos < n && Last(n, 0, pos) == pos + 1
  {
    WidthAtLeaves(n);
  }

  /** The tree's height: the first level with at most one node. */
  ghost predicate IsHeight(n: nat, h: nat) {
    Width(n, h) <= 1 && forall k :: 0 <= k < h ==> Width(n, k) > 1
  }

  lemma RootCoversAll(n: nat, h: nat)
    requires n > 0 && IsHeight(n, h)
    ensures Width(n, h) == 1 && First(h, 0) == 0 && Last(n, h, 0) == n
  {
    hide Width, Pow2;
    NodeExists(n, h, 0);
    NodeExists(n, h, 1);
  }

  // ---------------------------------------------------------------------------------------------
  // Hashes, encoding and traversal

  function CalcHash(H: (Hash, Hash) -> Hash, txids: seq<Hash>, h: nat, pos: nat): Hash
    requires pos < Width(|txids|, h)
    decreases h
  {
    if h == 0 then
      Leaf(|txids|, pos);
      txids[pos]
    else
      Children(|txids|, h, pos);
      var left := CalcHash(H, txids, h - 1, 2 * pos);
      var right := if 2 * pos + 1 < Width(|txids|, h - 1) then CalcHash(H, txids, h - 1, 2 * pos + 1) else left;
      H(left, right)
  }

  predicate AnyMatch(marks: seq<bool>, lo: nat, hi: nat)
    requires hi <= |marks|
  {
    exists p :: lo <= p < hi && marks[p]
  }

  datatype Code = Code(bits: seq<bool>, hashes: seq<Hash>)

  function Join(a: Code, b: Code): Code {
    Code(a.bits + b.bits, a.hashes + b.hashes)
  }

  /** What TraverseAndBuild appends for a node. */
  function Encode(H: (Hash, Hash) -> Hash, txids: seq<Hash>, marks: seq<bool>, h: nat, pos: nat): Code
    requires |marks| == |txids| && pos < Width(|txids|, h)
    decreases h
  {
    var matched := AnyMatch(marks, First(h, pos), Last(|txids|, h, pos));
    if h == 0 || !matched then
      Code([matched], [CalcHash(H, txids, h, pos)])
    else
      Children(|txids|, h, pos);
      var left := Encode(H, txids, marks, h - 1, 2 * pos);
      var below := if 2 * pos + 1 < Width(|txids|, h - 1) then Join(left, Encode(H, txids, marks, h - 1, 2 * pos + 1)) else left;
      Join(Code([true], []), below)
  }

  datatype Found = Found(index: nat, txid: Hash)

  datatype Walk = Walk(hash: Hash, bitsUsed: nat, hashUsed: nat, bad: bool, found: seq<Found>)

  /** TraverseAndExtract: what a node yields, where the cursors end, and whether anything was wrong. */
  function Traverse(H: (Hash, Hash) -> Hash, n: nat, code: Code, h: nat, pos: nat, bit: nat, used: nat): Walk
    decreases h
  {
    if bit >= |code.bits| then Walk(NULL_HASH, bit, used, true, [])
    else
      var matched := code.bits[bit];
      if h == 0 || !matched then
        if used >= |code.hashes| then Walk(NULL_HASH, bit + 1, used, true, [])
        else
          var hash := code.hashes[used];
          Walk(hash, bit + 1, used + 1, false, if h == 0 && matched then [Found(pos, hash)] else [])
      else
        var left := Traverse(H, n, code, h - 1, 2 * pos, bit + 1, used);
        if 2 * pos + 1 < Width(n, h - 1) then
          var right := Traverse(H, n, code, h - 1, 2 * pos + 1, left.bitsUsed, left.hashUsed);
          Walk(H(left.hash, right.hash), right.bitsUsed, right.hashUsed, left.bad || right.bad || left.hash == right.hash,
               left.found + right.found)
        else
          Walk(H(left.hash, left.hash), left.bitsUsed, left.hashUsed, left.bad, left.found)
  }

  /** A node that is descended into, from the walks of its children. */
  function FromChildren(H: (Hash, Hash) -> Hash, left: Walk, right: Walk): Walk {
    Walk(H(left.hash, right.hash), right.bitsUsed, right.hashUsed, left.bad || right.bad || left.hash == right.hash, left.found + right.found)
  }

  /** One node of the traversal. */
  lemma TraverseStep(H: (Hash, Hash) -> Hash, n: nat, code: Code, h: nat, pos: nat, bit: nat, used: nat)
    ensures var w := Traverse(H, n, code, h, pos, bit, used);
            if bit >= |code.bits| then w == Walk(NULL_HASH, bit, used, true, [])
            else if h == 0 || !code.bits[bit] then
              if used >= |code.hashes| then w == Walk(NULL_HASH, bit + 1, used, true, [])
              else w == Walk(code.hashes[used], bit + 1, used + 1, false, if h == 0 && code.bits[bit] then [Found(pos, code.hashes[used])] else [])
            else
              var left := Traverse(H, n, code, h - 1, 2 * pos, bit + 1, used);
              if 2 * pos + 1 < Width(n, h - 1)
              then w == FromChildren(H, left, Traverse(H, n, code, h - 1, 2 * pos + 1, left.bitsUsed, left.hashUsed))
              else w == left.(hash := H(left.hash, left.hash))
  {
  }

  // ---------------------------------------------------------------------------------------------
  // Soundness

  ghost predicate Genuine(txids: seq<Hash>, found: seq<Found>) {
    forall k :: 0 <= k < |found| ==> found[k].index < |txids| && txids[found[k].index] == found[k].txid
  }

  /** Whatever the bits and hashes are, if a node comes out with its true hash then every leaf extracted
      below it is the block's transaction at that position. */
  lemma {:induction false} TrueHashMeansGenuine(H: (Hash, Hash) -> Hash, txids: seq<Hash>, code: Code, h: nat, pos: nat, bit: nat, used: nat)
    requires Injective(H) && pos < Width(|txids|, h)
    requires Traverse(H, |txids|, code, h, pos, bit, used).hash == CalcHash(H, txids, h, pos)
    requires !Traverse(H, |txids|, code, h, pos, bit, used).bad
    ensures Genuine(txids, Traverse(H, |txids|, code, h, pos, bit, used).found)
    decreases h
  {
    hide Width;
    var n := |txids|;
    var w := Traverse(H, n, code, h, pos, bit, used);
    if h == 0 {
      Leaf(n, pos);
    } else if code.bits[bit] {
      Children(n, h, pos);
      TrueHashMeansGenuine(H, txids, code, h - 1, 2 * pos, bit + 1, used);
      if 2 * pos + 1 < Width(n, h - 1) {
        var left := Traverse(H, n, code, h - 1, 2 * pos, bit + 1, used);
        TrueHashMeansGenuine(H, txids, code, h - 1, 2 * pos + 1, left.bitsUsed, left.hashUsed);
      }
    }
  }

  /** Positions strictly ascending and below the given node. */
  ghost predicate InOrder(found: seq<Found>, lo: nat, hi: nat) {
    && (forall k :: 0 <= k < |found| ==> lo <= found[k].index < hi)
    && (forall j, k :: 0 <= j < k < |found| ==> found[j].index < found[k].index)
  }

  /** No position is reported twice, whatever the bits and hashes are. */
  lemma {:induction false} FoundInOrder(H: (Hash, Hash) -> Hash, n: nat, code: Code, h: nat, pos: nat, bit: nat, used: nat)
    requires pos < Width(n, h)
    ensures InOrder(Traverse(H, n, code, h, pos, bit, used).found, First(h, pos), Last(n, h, pos))
    decreases h
  {
    hide Width, First, Last, Traverse;
    TraverseStep(H, n, code, h, pos, bit, used);
    if h == 0 {
      Leaf(n, pos);
    } else if bit < |code.bits| && code.bits[bit] {
      Children(n, h, pos);
      FoundInOrder(H, n, code, h - 1, 2 * pos, bit + 1, used);
      var left := Traverse(H, n, code, h - 1, 2 * pos, bit + 1, used);
      if 2 * pos + 1 < Width(n, h - 1) {
        FoundInOrder(H, n, code, h - 1, 2 * pos + 1, left.bitsUsed, left.hashUsed);
      }
    }
  }

  // ---------------------------------------------------------------------------------------------
  // Round trip

  ghost predicate Distinct(txids: seq<Hash>) {
    forall i, j :: 0 <= i < j < |txids| ==> txids[i] != txids[j]
  }

  /** Different nodes of a level have different hashes when the transaction ids are distinct. */
  lemma {:induction false} LevelDistinct(H: (Hash, Hash) -> Hash, txids: seq<Hash>, h: nat, i: nat, j: nat)
    requires Injective(H) && Distinct(txids) && i < j < Width(|txids|, h)
    ensures CalcHash(H, txids, h, i) != CalcHash(H, txids, h, j)
    decreases h
  {
    hide Width;
    if h == 0 {
      Leaf(|txids|, i);
      Leaf(|txids|, j);
    } else {
      Children(|txids|, h, i);
      Children(|txids|, h, j);
      LevelDistinct(H, txids, h - 1, 2 * i, 2 * j);
    }
  }

  /** The marked transactions between two positions, in order. */
  function MatchedIn(txids: seq<Hash>, marks: seq<bool>, lo: nat, hi: nat): seq<Found>
    requires lo <= hi <= |txids| == |marks|
    decreases hi - lo
  {
    if lo == hi then []
    else MatchedIn(txids, marks, lo, hi - 1) + if marks[hi - 1] then [Found(hi - 1, txids[hi - 1])] else []
  }

  lemma {:induction false} MatchedSplits(txids: seq<Hash>, marks: seq<bool>, lo: nat, mid: nat, hi: nat)
    requires lo <= mid <= hi <= |txids| == |marks|
    ensures MatchedIn(txids, marks, lo, hi) == MatchedIn(txids, marks, lo, mid) + MatchedIn(txids, marks, mid, hi)
    decreases hi - mid
  {
    if mid < hi {
      MatchedSplits(txids, marks, lo, mid, hi - 1);
    }
  }

  lemma {:induction false} NothingMatched(txids: seq<Hash>, marks: seq<bool>, lo: nat, hi: nat)
    requires lo <= hi <= |txids| == |marks|
    ensures AnyMatch(marks, lo, hi) <==> MatchedIn(txids, marks, lo, hi) != []
    decreases hi - lo
  {
    if lo < hi { NothingMatched(txids, marks, lo, hi - 1); }
  }

  /** What b says sits in a at the given places. */
  ghost predicate Holds(a: Code, bit: nat, used: nat, b: Code) {
    && bit + |b.bits| <= |a.bits| && a.bits[bit..bit + |b.bits|] == b.bits
    && used + |b.hashes| <= |a.hashes| && a.hashes[used..used + |b.hashes|] == b.hashes
  }

  lemma HoldsJoin(a: Code, bit: nat, used: nat, b: Code, c: Code)
    requires Holds(a, bit, used, Join(b, c))
    ensures Holds(a, bit, used, b) && Holds(a, bit + |b.bits|, used + |b.hashes|, c)
  {
    var bits, hashes := Join(b, c).bits, Join(b, c).hashes;
    assert b.bits == bits[..|b.bits|] && c.bits == bits[|b.bits|..];
    assert b.hashes == hashes[..|b.hashes|] && c.hashes == hashes[|b.hashes|..];
  }

  /** The walk a node's own encoding must produce. */
  function Expected(H: (Hash, Hash) -> Hash, txids: seq<Hash>, marks: seq<bool>, h: nat, pos: nat, bit: nat, used: nat): Walk
    requires |marks| == |txids| && pos < Width(|txids|, h) && First(h, pos) <= Last(|txids|, h, pos)
  {
    var code := Encode(H, txids, marks, h, pos);
    Walk(CalcHash(H, txids, h, pos), bit + |code.bits|, used + |code.hashes|, false,
         MatchedIn(txids, marks, First(h, pos), Last(|txids|, h, pos)))
  }

  lemma NodeNotEmpty(n: nat, h: nat, pos: nat)
    requires pos < Width(n, h)
    ensures First(h, pos) < Last(n, h, pos) <= n
  {
    hide Width;
    NodeExists(n, h, pos);
    assert First(h, pos + 1) == First(h, pos) + Pow2(h);
  }

  /** A node that was not descended into is read back from its bit and its hash. */
  lemma StoredNode(H: (Hash, Hash) -> Hash, txids: seq<Hash>, marks: seq<bool>, code: Code, h: nat, pos: nat, bit: nat, used: nat)
    requires |marks| == |txids| && pos < Width(|txids|, h) && First(h, pos) < Last(|txids|, h, pos) <= |txids|
    requires h == 0 || !AnyMatch(marks, First(h, pos), Last(|txids|, h, pos))
    requires Holds(code, bit, used, Encode(H, txids, marks, h, pos))
    ensures Traverse(H, |txids|, code, h, pos, bit, used) == Expected(H, txids, marks, h, pos, bit, used)
  {
    hide Width, CalcHash;
    var b := Encode(H, txids, marks, h, pos);
    assert code.bits[bit] == code.bits[bit..bit + 1][0] == b.bits[0];
    assert code.hashes[used] == code.hashes[used..used + 1][0] == b.hashes[0];
    NothingMatched(txids, marks, First(h, pos), Last(|txids|, h, pos));
    if h == 0 {
      Leaf(|txids|, pos);
      CalcLeaf(H, txids, pos);
      assert MatchedIn(txids, marks, pos, pos + 1) == MatchedIn(txids, marks, pos, pos) + if marks[pos] then [Found(pos, txids[pos])] else [];
    }
  }

  lemma CalcLeaf(H: (Hash, Hash) -> Hash, txids: seq<Hash>, pos: nat)
    requires pos < Width(|txids|, 0)
    ensures pos < |txids| && CalcHash(H, txids, 0, pos) == txids[pos]
  {
    Leaf(|txids|, pos);
  }

  lemma CalcInner(H: (Hash, Hash) -> Hash, txids: seq<Hash>, h: nat, pos: nat)
    requires h > 0 && pos < Width(|txids|, h)
    ensures 2 * pos < Width(|txids|, h - 1)
    ensures CalcHash(H, txids, h, pos) ==
            H(CalcHash(H, txids, h - 1, 2 * pos), CalcHash(H, txids, h - 1, if 2 * pos + 1 < Width(|txids|, h - 1) then 2 * pos + 1 else 2 * pos))
  {
    Children(|txids|, h, pos);
  }

  /** The children a node is descended into, as one encoding. */
  function Below(H: (Hash, Hash) -> Hash, txids: seq<Hash>, marks: seq<bool>, h: nat, pos: nat): Code
    requires h > 0 && |marks| == |txids| && 2 * pos < Width(|txids|, h - 1)
  {
    var left := Encode(H, txids, marks, h - 1, 2 * pos);
    if 2 * pos + 1 < Width(|txids|, h - 1) then Join(left, Encode(H, txids, marks, h - 1, 2 * pos + 1)) else left
  }

  lemma EncodeInner(H: (Hash, Hash) -> Hash, txids: seq<Hash>, marks: seq<bool>, h: nat, pos: nat)
    requires h > 0 && |marks| == |txids| && pos < Width(|txids|, h) && First(h, pos) < Last(|txids|, h, pos) <= |txids|
    requires AnyMatch(marks, First(h, pos), Last(|txids|, h, pos))
    ensures 2 * pos < Width(|txids|, h - 1)
    ensures Encode(H, txids, marks, h, pos) == Join(Code([true], []), Below(H, txids, marks, h, pos))
  {
    Children(|txids|, h, pos);
  }

  lemma TwoChildren(H: (Hash, Hash) -> Hash, txids: seq<Hash>, marks: seq<bool>, code: Code, h: nat, pos: nat, bit: nat, used: nat,
                    left: Walk, right: Walk)
    requires |marks| == |txids| && h > 0 && pos < Width(|txids|, h) && First(h, pos) < Last(|txids|, h, pos) <= |txids|
    requires 2 * pos + 1 < Width(|txids|, h - 1) && AnyMatch(marks, First(h, pos), Last(|txids|, h, pos))
    requires bit < |code.bits| && code.bits[bit]
    requires First(h - 1, 2 * pos) < Last(|txids|, h - 1, 2 * pos) && First(h - 1, 2 * pos + 1) < Last(|txids|, h - 1, 2 * pos + 1)
    requires left == Traverse(H, |txids|, code, h - 1, 2 * pos, bit + 1, used) == Expected(H, txids, marks, h - 1, 2 * pos, bit + 1, used)
    requires right == Traverse(H, |txids|, code, h - 1, 2 * pos + 1, left.bitsUsed, left.hashUsed)
                   == Expected(H, txids, marks, h - 1, 2 * pos + 1, left.bitsUsed, left.hashUsed)
    requires left.hash != right.hash
    ensures Traverse(H, |txids|, code, h, pos, bit, used) == Expected(H, txids, marks, h, pos, bit, used)
  {
    hide Width, First, Last, CalcHash, MatchedIn, AnyMatch, Encode;
    var n := |txids|;
    Children(n, h, pos);
    CalcInner(H, txids, h, pos);
    EncodeInner(H, txids, marks, h, pos);
    MatchedSplits(txids, marks, First(h, pos), First(h - 1, 2 * pos + 1), Last(n, h, pos));
  }

  lemma OneChild(H: (Hash, Hash) -> Hash, txids: seq<Hash>, marks: seq<bool>, code: Code, h: nat, pos: nat, bit: nat, used: nat, left: Walk)
    requires |marks| == |txids| && h > 0 && pos < Width(|txids|, h) && First(h, pos) < Last(|txids|, h, pos) <= |txids|
    requires 2 * pos < Width(|txids|, h - 1) == 2 * pos + 1 && AnyMatch(marks, First(h, pos), Last(|txids|, h, pos))
    requires bit < |code.bits| && code.bits[bit] && First(h - 1, 2 * pos) < Last(|txids|, h - 1, 2 * pos)
    requires left == Traverse(H, |txids|, code, h - 1, 2 * pos, bit + 1, used) == Expected(H, txids, marks, h - 1, 2 * pos, bit + 1, used)
    ensures Traverse(H, |txids|, code, h, pos, bit, used) == Expected(H, txids, marks, h, pos, bit, used)
  {
    hide Width, First, Last, CalcHash, MatchedIn, AnyMatch, Encode;
    Children(|txids|, h, pos);
    CalcInner(H, txids, h, pos);
    EncodeInner(H, txids, marks, h, pos);
  }

  /** Decoding undoes encoding: reading a node's encoding yields its hash and exactly the marked transactions below it. */
  lemma {:induction false} DecodeEncode(H: (Hash, Hash) -> Hash, txids: seq<Hash>, marks: seq<bool>, code: Code, h: nat, pos: nat, bit: nat, used: nat)
    requires Injective(H) && Distinct(txids) && |marks| == |txids| && pos < Width(|txids|, h)
    requires Holds(code, bit, used, Encode(H, txids, marks, h, pos))
    ensures First(h, pos) < Last(|txids|, h, pos)
    ensures Traverse(H, |txids|, code, h, pos, bit, used) == Expected(H, txids, marks, h, pos, bit, used)
    decreases h
  {
    hide Width, First, Last, Injective, Distinct, CalcHash, MatchedIn, AnyMatch, Holds, Traverse, Encode;
    var n := |txids|;
    NodeNotEmpty(n, h, pos);
    if h == 0 || !AnyMatch(marks, First(h, pos), Last(n, h, pos)) {
      StoredNode(H, txids, marks, code, h, pos, bit, used);
    } else {
      Children(n, h, pos);
      EncodeInner(H, txids, marks, h, pos);
      HoldsJoin(code, bit, used, Code([true], []), Below(H, txids, marks, h, pos));
      HoldsTrue(code, bit, used);
      var code1 := Encode(H, txids, marks, h - 1, 2 * pos);
      var left := Traverse(H, n, code, h - 1, 2 * pos, bit + 1, used);
      if 2 * pos + 1 < Width(n, h - 1) {
        HoldsJoin(code, bit + 1, used, code1, Encode(H, txids, marks, h - 1, 2 * pos + 1));
        DecodeEncode(H, txids, marks, code, h - 1, 2 * pos, bit + 1, used);
        DecodeEncode(H, txids, marks, code, h - 1, 2 * pos + 1, left.bitsUsed, left.hashUsed);
        LevelDistinct(H, txids, h - 1, 2 * pos, 2 * pos + 1);
        TwoChildren(H, txids, marks, code, h, pos, bit, used, left, Traverse(H, n, code, h - 1, 2 * pos + 1, left.bitsUsed, left.hashUsed));
      } else {
        DecodeEncode(H, txids, marks, code, h - 1, 2 * pos, bit + 1, used);
        OneChild(H, txids, marks, code, h, pos, bit, used, left);
      }
    }
  }

  lemma HoldsTrue(a: Code, bit: nat, used: nat)
    requires Holds(a, bit, used, Code([true], []))
    ensures bit < |a.bits| && a.bits[bit]
  {
    assert a.bits[bit] == a.bits[bit..bit + 1][0];
  }
}
