/** The partial Merkle tree object: building, extracting, and its wire form. */
module MerkleTree {
  import opened PartialMerkle
  import opened MerkleBounds
  import opened FlagBits

  function HeightFrom(n: nat, h: nat): (r: nat)
    requires forall k :: 0 <= k < h ==> Width(n, k) > 1
    ensures IsHeight(n, r)
    decreases Width(n, h)
  {
    if Width(n, h) <= 1 then h else
      WidthHalves(n, h);
      HeightFrom(n, h + 1)
  }

  function Height(n: nat): (r: nat)
    ensures IsHeight(n, r)
  {
    HeightFrom(n, 0)
  }

  lemma HeightIsUnique(n: nat, h: nat)
    requires IsHeight(n, h)
    ensures h == Height(n)
  {
    hide Width, Height;
    if h < Height(n) {
      assert false;
    }
  }

  predicate PlausibleSizes(n: nat, code: Code) {
    0 < n <= MAX_BLOCK_BASE_SIZE / MIN_TX_SIZE && |code.hashes| <= n && |code.hashes| <= |code.bits|
  }

  predicate Consumed(code: Code, w: Walk) {
    ByteCount(w.bitsUsed) == ByteCount(|code.bits|) && w.hashUsed == |code.hashes|
  }

  function RootWalk(H: (Hash, Hash) -> Hash, n: nat, code: Code): Walk {
    Traverse(H, n, code, Height(n), 0, 0, 0)
  }

  /** ExtractMatches: the root, or the null hash when anything is wrong. */
  function Extracted(H: (Hash, Hash) -> Hash, n: nat, code: Code, bad: bool): Hash {
    if !PlausibleSizes(n, code) then NULL_HASH
    else
      var w := RootWalk(H, n, code);
      if bad || w.bad || !Consumed(code, w) then NULL_HASH else w.hash
  }

  function MerkleRoot(H: (Hash, Hash) -> Hash, txids: seq<Hash>): Hash
    requires |txids| > 0
  {
    RootCoversAll(|txids|, Height(|txids|));
    CalcHash(H, txids, Height(|txids|), 0)
  }

  function EncodeTree(H: (Hash, Hash) -> Hash, txids: seq<Hash>, marks: seq<bool>): Code
    requires |marks| == |txids| > 0
  {
    RootCoversAll(|txids|, Height(|txids|));
    Encode(H, txids, marks, Height(|txids|), 0)
  }

  /** Soundness: whatever a peer sends, if it extracts to the block's Merkle root then every transaction it
      reports is the block's transaction at that position, and no position is reported twice. */
  lemma ExtractionIsSound(H: (Hash, Hash) -> Hash, txids: seq<Hash>, code: Code, bad: bool)
    requires Injective(H) && |txids| > 0
    requires Extracted(H, |txids|, code, bad) == MerkleRoot(H, txids) != NULL_HASH
    ensures Genuine(txids, RootWalk(H, |txids|, code).found)
    ensures InOrder(RootWalk(H, |txids|, code).found, 0, |txids|)
  {
    hide Width, Traverse, CalcHash, Genuine, InOrder, Height, First, Last;
    var h := Height(|txids|);
    RootCoversAll(|txids|, h);
    TrueHashMeansGenuine(H, txids, code, h, 0, 0, 0);
    FoundInOrder(H, |txids|, code, h, 0, 0, 0);
  }

  /** Round trip: extracting an encoding, also after padding it to whole bytes, gives the Merkle root and
      exactly the marked transactions in order, provided the block is within the size limit. */
  lemma ExtractionInvertsEncoding(H: (Hash, Hash) -> Hash, txids: seq<Hash>, marks: seq<bool>, code: Code)
    requires Injective(H) && Distinct(txids) && |marks| == |txids| > 0
    requires EncodeTree(H, txids, marks).bits <= code.bits && ByteCount(|code.bits|) == ByteCount(|EncodeTree(H, txids, marks).bits|)
    requires code.hashes == EncodeTree(H, txids, marks).hashes
    ensures Extracted(H, |txids|, code, false) ==
            if |txids| <= MAX_BLOCK_BASE_SIZE / MIN_TX_SIZE then MerkleRoot(H, txids) else NULL_HASH
    ensures RootWalk(H, |txids|, code).found == MatchedIn(txids, marks, 0, |txids|)
  {
    hide Width, Traverse, CalcHash, Encode, Height, First, Last, MatchedIn, Injective, Distinct;
    var h := Height(|txids|);
    RootCoversAll(|txids|, h);
    var e := EncodeTree(H, txids, marks);
    assert code.bits[0..|e.bits|] == e.bits && code.hashes[0..|e.hashes|] == e.hashes;
    DecodeEncode(H, txids, marks, code, h, 0, 0, 0);
    HashesWithinLeaves(H, txids, marks, h, 0);
  }

  class PartialTree {
    const H: (Hash, Hash) -> Hash
    var nTransactions: nat
    var vBits: seq<bool>
    var vHash: seq<Hash>
    var fBad: bool

    /** Builds the partial tree of the marked transactions. */
    constructor (H: (Hash, Hash) -> Hash, txids: seq<Hash>, marks: seq<bool>)
      requires |marks| == |txids| > 0
      ensures nTransactions == |txids| && !fBad && Code(vBits, vHash) == EncodeTree(H, txids, marks) && this.H == H
    {
      this.H := H;
      nTransactions, vBits, vHash, fBad := |txids|, [], [], false;
      new;
      var h := TreeHeight();
      RootCoversAll(|txids|, h);
      TraverseAndBuild(h, 0, txids, marks);
    }

    /** Reads a tree from its wire form. */
    constructor Deserialize(H: (Hash, Hash) -> Hash, n: nat, hashes: seq<Hash>, bytes: seq<bv8>)
      ensures nTransactions == n && vHash == hashes && !fBad && this.H == H
      ensures |vBits| == 8 * |bytes| && forall p :: 0 <= p < |vBits| ==> vBits[p] == BitAt(bytes, p)
    {
      this.H := H;
      nTransactions, vHash, fBad := n, hashes, false;
      var bits := Unpack(bytes);
      vBits := bits;
    }

    method Serialize() returns (n: nat, hashes: seq<Hash>, bytes: array<bv8>)
      ensures n == nTransactions && hashes == vHash && fresh(bytes)
      ensures bytes.Length == ByteCount(|vBits|) && Packed(vBits, |vBits|, bytes[..])
    {
      n, hashes := nTransactions, vHash;
      bytes := Pack(vBits);
    }

    method TreeHeight() returns (h: nat)
      ensures h == Height(nTransactions)
    {
      hide Width;
      h := 0;
      while Width(nTransactions, h) > 1
        invariant forall k :: 0 <= k < h ==> Width(nTransactions, k) > 1
        decreases Width(nTransactions, h)
      {
        WidthHalves(nTransactions, h);
        h := h + 1;
      }
      HeightIsUnique(nTransactions, h);
    }

    method TraverseAndBuild(h: nat, pos: nat, txids: seq<Hash>, marks: seq<bool>)
      requires |marks| == |txids| == nTransactions && pos < Width(nTransactions, h)
      modifies this`vBits, this`vHash
      ensures vBits == old(vBits) + Encode(H, txids, marks, h, pos).bits
      ensures vHash == old(vHash) + Encode(H, txids, marks, h, pos).hashes
      decreases h
    {
      hide Width, First, Last, CalcHash, Encode;
      NodeNotEmpty(nTransactions, h, pos);
      var fParentOfMatch := false;
      var p, end := First(h, pos), First(h, pos + 1);
      assert Last(nTransactions, h, pos) == if end < nTransactions then end else nTransactions by { LastMeans(nTransactions, h, pos); }
      while p < end && p < nTransactions
        invariant First(h, pos) <= p <= Last(nTransactions, h, pos)
        invariant fParentOfMatch == AnyMatch(marks, First(h, pos), p)
      {
        fParentOfMatch := fParentOfMatch || marks[p];
        p := p + 1;
      }
      vBits := vBits + [fParentOfMatch];
      if h == 0 || !fParentOfMatch {
        EncodeStored(H, txids, marks, h, pos);
        vHash := vHash + [CalcHash(H, txids, h, pos)];
      } else {
        EncodeInner(H, txids, marks, h, pos);
        TraverseAndBuild(h - 1, 2 * pos, txids, marks);
        if 2 * pos + 1 < Width(nTransactions, h - 1) {
          TraverseAndBuild(h - 1, 2 * pos + 1, txids, marks);
        }
      }
    }

    /** Walks the tree from given cursors, appending what it finds and recording trouble. */
    method TraverseAndExtract(h: nat, pos: nat, bit: nat, used: nat, vMatch: seq<Hash>, vnIndex: seq<nat>)
      returns (hash: Hash, bit': nat, used': nat, vMatch': seq<Hash>, vnIndex': seq<nat>)
      modifies this`fBad
      ensures var w := Traverse(H, nTransactions, Code(vBits, vHash), h, pos, bit, used);
              && hash == w.hash && bit' == w.bitsUsed && used' == w.hashUsed && fBad == (old(fBad) || w.bad)
              && vMatch' == vMatch + Txids(w.found) && vnIndex' == vnIndex + Indices(w.found)
      decreases h
    {
      hide Width, Txids, Indices, Traverse;
      TraverseStep(H, nTransactions, Code(vBits, vHash), h, pos, bit, used);
      FoundNothing(vMatch, vnIndex);
      bit', used', vMatch', vnIndex' := bit, used, vMatch, vnIndex;
      if bit >= |vBits| {
        fBad := true;
        return NULL_HASH, bit', used', vMatch', vnIndex';
      }
      var fParentOfMatch := vBits[bit];
      bit' := bit + 1;
      if h == 0 || !fParentOfMatch {
        if used >= |vHash| {
          fBad := true;
          return NULL_HASH, bit', used', vMatch', vnIndex';
        }
        hash := vHash[used];
        used' := used + 1;
        if h == 0 && fParentOfMatch {
          vMatch', vnIndex' := vMatch + [hash], vnIndex + [pos];
          FoundOne(pos, hash);
        }
      } else {
        var left, right;
        ghost var code := Code(vBits, vHash);
        ghost var w1 := Traverse(H, nTransactions, code, h - 1, 2 * pos, bit', used');
        left, bit', used', vMatch', vnIndex' := TraverseAndExtract(h - 1, 2 * pos, bit', used', vMatch', vnIndex');
        if 2 * pos + 1 < Width(nTransactions, h - 1) {
          ghost var w2 := Traverse(H, nTransactions, code, h - 1, 2 * pos + 1, bit', used');
          FoundTogether(w1.found, w2.found, vMatch, vnIndex);
          right, bit', used', vMatch', vnIndex' := TraverseAndExtract(h - 1, 2 * pos + 1, bit', used', vMatch', vnIndex');
          if right == left {
            fBad := true;
          }
        } else {
          right := left;
        }
        hash := H(left, right);
      }
    }

    /** The Merkle root and the matches, or the null hash. Only vMatch is cleared first. */
    method ExtractMatches(vnIndex: seq<nat>) returns (root: Hash, vMatch: seq<Hash>, vnIndex': seq<nat>)
      modifies this`fBad
      ensures root == Extracted(H, nTransactions, Code(vBits, vHash), old(fBad))
      ensures if PlausibleSizes(nTransactions, Code(vBits, vHash)) then
                var w := RootWalk(H, nTransactions, Code(vBits, vHash));
                vMatch == Txids(w.found) && vnIndex' == vnIndex + Indices(w.found) && fBad == (old(fBad) || w.bad)
              else vMatch == [] && vnIndex' == vnIndex && fBad == old(fBad)
    {
      hide Width, Traverse, Height;
      vMatch, vnIndex' := [], vnIndex;
      if nTransactions == 0 || nTransactions > MAX_BLOCK_BASE_SIZE / MIN_TX_SIZE {
        return NULL_HASH, vMatch, vnIndex';
      }
      if |vHash| > nTransactions || |vBits| < |vHash| {
        return NULL_HASH, vMatch, vnIndex';
      }
      var h := TreeHeight();
      var nBitsUsed, nHashUsed;
      root, nBitsUsed, nHashUsed, vMatch, vnIndex' := TraverseAndExtract(h, 0, 0, 0, vMatch, vnIndex');
      if fBad || (nBitsUsed + 7) / 8 != (|vBits| + 7) / 8 || nHashUsed != |vHash| {
        root := NULL_HASH;
      }
    }
  }

  function Txids(found: seq<Found>): seq<Hash> {
    seq(|found|, i requires 0 <= i < |found| => found[i].txid)
  }

  function Indices(found: seq<Found>): seq<nat> {
    seq(|found|, i requires 0 <= i < |found| => found[i].index)
  }

  lemma FoundNothing(hashes: seq<Hash>, indices: seq<nat>)
    ensures hashes + Txids([]) == hashes && indices + Indices([]) == indices
  {
  }

  lemma FoundOne(pos: nat, hash: Hash)
    ensures Txids([Found(pos, hash)]) == [hash] && Indices([Found(pos, hash)]) == [pos]
  {
  }

  lemma FoundTogether(a: seq<Found>, b: seq<Found>, hashes: seq<Hash>, indices: seq<nat>)
    ensures hashes + Txids(a) + Txids(b) == hashes + Txids(a + b)
    ensures indices + Indices(a) + Indices(b) == indices + Indices(a + b)
  {
    assert Txids(a) + Txids(b) == Txids(a + b);
    assert Indices(a) + Indices(b) == Indices(a + b);
  }

  lemma LastMeans(n: nat, h: nat, pos: nat)
    ensures Last(n, h, pos) == if First(h, pos + 1) < n then First(h, pos + 1) else n
  {
  }

  lemma EncodeStored(H: (Hash, Hash) -> Hash, txids: seq<Hash>, marks: seq<bool>, h: nat, pos: nat)
    requires |marks| == |txids| && pos < Width(|txids|, h) && Last(|txids|, h, pos) <= |txids|
    requires h == 0 || !AnyMatch(marks, First(h, pos), Last(|txids|, h, pos))
    ensures Encode(H, txids, marks, h, pos) == Code([AnyMatch(marks, First(h, pos), Last(|txids|, h, pos))], [CalcHash(H, txids, h, pos)])
  {
  }

  /** A block's marked transactions survive being built into a tree, sent over the wire and extracted. */
  method BuildSendExtract(H: (Hash, Hash) -> Hash, txids: seq<Hash>, marks: seq<bool>)
    returns (root: Hash, vMatch: seq<Hash>, vnIndex: seq<nat>)
    requires Injective(H) && Distinct(txids) && |marks| == |txids| && 0 < |txids| <= MAX_BLOCK_BASE_SIZE / MIN_TX_SIZE
    ensures root == MerkleRoot(H, txids)
    ensures vMatch == Txids(MatchedIn(txids, marks, 0, |txids|)) && vnIndex == Indices(MatchedIn(txids, marks, 0, |txids|))
  {
    hide Injective, Distinct, MerkleRoot, EncodeTree, Packed, MatchedIn, Extracted, RootWalk, BitAt;
    var sent := new PartialTree(H, txids, marks);
    var n, hashes, bytes := sent.Serialize();
    var got := new PartialTree.Deserialize(H, n, hashes, bytes[..]);
    UnpackPack(sent.vBits, bytes[..], got.vBits);
    ExtractionInvertsEncoding(H, txids, marks, Code(got.vBits, got.vHash));
    EncodingIsPlausible(H, txids, marks);
    root, vMatch, vnIndex := got.ExtractMatches([]);
    assert [] + Indices(MatchedIn(txids, marks, 0, |txids|)) == Indices(MatchedIn(txids, marks, 0, |txids|));
  }

  lemma EncodingIsPlausible(H: (Hash, Hash) -> Hash, txids: seq<Hash>, marks: seq<bool>)
    requires |marks| == |txids| > 0
    ensures |EncodeTree(H, txids, marks).hashes| <= |txids| && |EncodeTree(H, txids, marks).hashes| <= |EncodeTree(H, txids, marks).bits|
  {
    hide Encode, Width, First, Last, Height;
    RootCoversAll(|txids|, Height(|txids|));
    HashesWithinLeaves(H, txids, marks, Height(|txids|), 0);
  }
}
