/** Flag bits packed eight to a byte, least significant first. */
module FlagBits {

  /** 1 << k for a byte. */
  function Mask(k: nat): bv8
    requires k < 8
  {
    match k
    case 0 => 1
    case 1 => 2
    case 2 => 4
    case 3 => 8
    case 4 => 16
    case 5 => 32
    case 6 => 64
    case 7 => 128
  }

  predicate Test(b: bv8, k: nat)
    requires k < 8
  {
    b & Mask(k) != 0
  }

  lemma TestSet(b: bv8, j: nat, k: nat)
    requires j < 8 && k < 8
    ensures Test(b | Mask(j), k) <==> k == j || Test(b, k)
  {
    TestAll(b, Mask(j), k);
  }

  lemma TestAll(b: bv8, m: bv8, k: nat)
    requires k < 8
    ensures Test(b | m, k) <==> Test(m, k) || Test(b, k)
  {
  }

  lemma TestUnset(b: bv8, j: nat, k: nat)
    requires j < 8 && k < 8
    ensures Test(b & !Mask(j), k) <==> k != j && Test(b, k)
  {
  }

  lemma TestFull(k: nat)
    requires k < 8
    ensures Test(0xFF, k)
  {
  }

  lemma TestZero(k: nat)
    requires k < 8
    ensures !Test(0, k)
  {
  }

  function ByteCount(n: nat): nat {
    (n + 7) / 8
  }

  /** Bit p of a byte sequence. */
  predicate BitAt(bytes: seq<bv8>, p: nat)
    requires p / 8 < |bytes|
  {
    Test(bytes[p / 8], p % 8)
  }

  /** The bytes hold the first n bits and nothing else. */
  ghost predicate Packed(bits: seq<bool>, n: nat, bytes: seq<bv8>)
    requires n <= |bits|
  {
    forall p :: 0 <= p < 8 * |bytes| ==> PackedAt(bits, n, bytes, p)
  }

  ghost predicate PackedAt(bits: seq<bool>, n: nat, bytes: seq<bv8>, p: nat)
    requires n <= |bits| && p < 8 * |bytes|
  {
    BitAt(bytes, p) <==> p < n && bits[p]
  }

  method Pack(bits: seq<bool>) returns (bytes: array<bv8>)
    ensures fresh(bytes) && bytes.Length == ByteCount(|bits|) && Packed(bits, |bits|, bytes[..])
  {
    bytes := new bv8[ByteCount(|bits|)](_ => 0);
    NothingPacked(bits, bytes[..]);
    var p := 0;
    while p < |bits|
      invariant 0 <= p <= |bits| && Packed(bits, p, bytes[..])
    {
      ghost var before := bytes[..];
      if bits[p] {
        bytes[p / 8] := bytes[p / 8] | Mask(p % 8);
      }
      PackOne(bits, p, before, bytes[..]);
      p := p + 1;
    }
  }

  lemma NothingPacked(bits: seq<bool>, bytes: seq<bv8>)
    requires forall i :: 0 <= i < |bytes| ==> bytes[i] == 0
    ensures Packed(bits, 0, bytes)
  {
    forall p | 0 <= p < 8 * |bytes| ensures PackedAt(bits, 0, bytes, p) { TestZero(p % 8); }
  }

  lemma PackOne(bits: seq<bool>, p: nat, before: seq<bv8>, after: seq<bv8>)
    requires p < |bits| && p / 8 < |before| && Packed(bits, p, before)
    requires after == if bits[p] then before[p / 8 := before[p / 8] | Mask(p % 8)] else before
    ensures Packed(bits, p + 1, after)
  {
    hide Test, Mask;
    var n := p + 1;
    forall q | 0 <= q < 8 * |after| ensures PackedAt(bits, n, after, q) {
      assert PackedAt(bits, p, before, q);
      assert q == 8 * (q / 8) + q % 8 && p == 8 * (p / 8) + p % 8;
      if bits[p] && q / 8 == p / 8 { TestSet(before[p / 8], p % 8, q % 8); }
    }
  }

  method Unpack(bytes: seq<bv8>) returns (bits: seq<bool>)
    ensures |bits| == 8 * |bytes| && forall p :: 0 <= p < |bits| ==> bits[p] == BitAt(bytes, p)
  {
    bits := [];
    var p := 0;
    while p < 8 * |bytes|
      invariant 0 <= p <= 8 * |bytes| && |bits| == p
      invariant forall q :: 0 <= q < p ==> bits[q] == BitAt(bytes, q)
    {
      bits := bits + [BitAt(bytes, p)];
      p := p + 1;
    }
  }

  /** Unpacking gives the bits back, padded with zeros to whole bytes. */
  lemma UnpackPack(bits: seq<bool>, bytes: seq<bv8>, back: seq<bool>)
    requires |bytes| == ByteCount(|bits|) && Packed(bits, |bits|, bytes)
    requires |back| == 8 * |bytes| && forall p :: 0 <= p < |back| ==> back[p] == BitAt(bytes, p)
    ensures bits <= back && ByteCount(|back|) == ByteCount(|bits|) && forall p :: |bits| <= p < |back| ==> !back[p]
  {
    hide Test;
    forall p | 0 <= p < |back| ensures back[p] <==> p < |bits| && bits[p] {
      assert PackedAt(bits, |bits|, bytes, p);
    }
  }
}
