/**
 The consensus bitmap check, and what it means for the sets of signers that bitmaps denote.
 */
module Quorum {
  import opened Machine

  datatype BitmapError = WrongSizeBitmap | PaddingBitsSet | NotEnoughSignatures

  /** core.GetPBFTThreshold: floor(2n/3) + 1. */
  function PBFTThreshold(consensusSize: nat): nat { consensusSize * 2 / 3 + 1 }

  /** core.GetPBFTFallbackThreshold: floor(n/2) + 1. */
  function PBFTFallbackThreshold(consensusSize: nat): nat { consensusSize / 2 + 1 }

  function RequiredSignatures(consensusSize: nat, fallback: bool): nat {
    if fallback then PBFTFallbackThreshold(consensusSize) else PBFTThreshold(consensusSize)
  }

  // ---------- the signers of a bitmap ----------

  predicate Bit(b: bv8, k: nat)
    requires k < 8
  {
    (b >> k) & 1 == 1
  }

  /** Signer i is bit i % 8 of byte i / 8. */
  predicate Signed(bitmap: seq<bv8>, i: nat) {
    i / 8 < |bitmap| && Bit(bitmap[i / 8], i % 8)
  }

  ghost function Signers(bitmap: seq<bv8>): set<nat> {
    set i: nat | i < 8 * |bitmap| && Signed(bitmap, i)
  }

  function BitCount(b: bv8, k: nat): nat
    requires k < 8
  {
    if Bit(b, k) then 1 else 0
  }

  /** bits.OnesCount8. */
  function OnesCount8(b: bv8): nat {
    BitCount(b, 0) + BitCount(b, 1) + BitCount(b, 2) + BitCount(b, 3) +
    BitCount(b, 4) + BitCount(b, 5) + BitCount(b, 6) + BitCount(b, 7)
  }

  function OnesCount(bitmap: seq<bv8>): nat {
    if bitmap == [] then 0 else OnesCount(bitmap[..|bitmap| - 1]) + OnesCount8(bitmap[|bitmap| - 1])
  }

  /** Signer i is one of byte j, whose value is b. */
  predicate SignedIn(b: bv8, j: nat, i: nat) {
    8 * j <= i < 8 * j + 8 && Bit(b, i - 8 * j)
  }

  /** The signers that bits 0 to k - 1 of byte j denote. */
  ghost function ByteSigners(b: bv8, j: nat, k: nat): set<nat>
    requires k <= 8
  {
    set i: nat | i < 8 * j + k && SignedIn(b, j, i)
  }

  lemma {:induction false} ByteSignersCount(b: bv8, j: nat, k: nat)
    requires k <= 8
    ensures |ByteSigners(b, j, k)| == PrefixCount(b, k)
  {
    hide Bit;
    if k == 0 {
      assert ByteSigners(b, j, 0) == {};
    } else {
      ByteSignersCount(b, j, k - 1);
      if Bit(b, k - 1) {
        assert SignedIn(b, j, 8 * j + k - 1);
        assert ByteSigners(b, j, k) == ByteSigners(b, j, k - 1) + {8 * j + k - 1};
      } else {
        assert ByteSigners(b, j, k) == ByteSigners(b, j, k - 1);
      }
    }
  }

  ghost function PrefixCount(b: bv8, k: nat): nat
    requires k <= 8
  {
    if k == 0 then 0 else PrefixCount(b, k - 1) + BitCount(b, k - 1)
  }

  lemma PrefixCountAll(b: bv8)
    ensures PrefixCount(b, 8) == OnesCount8(b)
  {
    hide Bit;
    assert PrefixCount(b, 8) == PrefixCount(b, 7) + BitCount(b, 7);
    assert PrefixCount(b, 7) == PrefixCount(b, 6) + BitCount(b, 6);
    assert PrefixCount(b, 6) == PrefixCount(b, 5) + BitCount(b, 5);
    assert PrefixCount(b, 5) == PrefixCount(b, 4) + BitCount(b, 4);
    assert PrefixCount(b, 4) == PrefixCount(b, 3) + BitCount(b, 3);
    assert PrefixCount(b, 3) == PrefixCount(b, 2) + BitCount(b, 2);
    assert PrefixCount(b, 2) == PrefixCount(b, 1) + BitCount(b, 1);
  }

  lemma SignersSplit(front: seq<bv8>, last: bv8)
    ensures Signers(front + [last]) == Signers(front) + ByteSigners(last, |front|, 8)
    ensures Signers(front) !! ByteSigners(last, |front|, 8)
  {
    hide Bit;
    var all := front + [last];
    forall i: nat
      ensures i in Signers(all) <==> i in Signers(front) || i in ByteSigners(last, |front|, 8)
    {
      if i / 8 < |front| {
        assert all[i / 8] == front[i / 8];
      } else if i / 8 == |front| {
        assert all[i / 8] == last && i % 8 == i - 8 * |front|;
      }
    }
  }

  /** The ones that the loop counts are the signers. */
  lemma {:induction false} OnesCountIsSigners(bitmap: seq<bv8>)
    ensures OnesCount(bitmap) == |Signers(bitmap)|
  {
    if bitmap != [] {
      var front, last := bitmap[..|bitmap| - 1], bitmap[|bitmap| - 1];
      OnesCountIsSigners(front);
      SignersSplit(front, last);
      PrefixCountAll(last);
      ByteSignersCount(last, |front|, 8);
      assert bitmap == front + [last];
      hide OnesCount8, PrefixCount, Signers, ByteSigners;
    }
  }

  /** No bit from `padding` on is set exactly if the mask of the padding bits meets no bit. */
  lemma PaddingMask(b: bv8, padding: nat)
    requires 0 < padding < 8
    ensures b & (0xFF << padding) == 0 <==> forall k :: padding <= k < 8 ==> !Bit(b, k)
  {
    if padding == 1 {
      MaskBits1(b);
    } else if padding == 2 {
      MaskBits2(b);
    } else if padding == 3 {
      MaskBits3(b);
    } else if padding == 4 {
      MaskBits4(b);
    } else if padding == 5 {
      MaskBits5(b);
    } else if padding == 6 {
      MaskBits6(b);
    } else {
      MaskBits7(b);
    }
  }

  lemma MaskBits7(b: bv8) ensures b & 0x80 == 0 <==> !Bit(b, 7) {}
  lemma MaskBits6(b: bv8) ensures b & 0xC0 == 0 <==> !Bit(b, 6) && !Bit(b, 7) {}
  lemma MaskBits5(b: bv8) ensures b & 0xE0 == 0 <==> !Bit(b, 5) && !Bit(b, 6) && !Bit(b, 7) {}
  lemma MaskBits4(b: bv8) ensures b & 0xF0 == 0 <==> !Bit(b, 4) && !Bit(b, 5) && !Bit(b, 6) && !Bit(b, 7) {}
  lemma MaskBits3(b: bv8) ensures b & 0xF8 == 0 <==> !Bit(b, 3) && !Bit(b, 4) && !Bit(b, 5) && !Bit(b, 6) && !Bit(b, 7) {}
  lemma MaskBits2(b: bv8)
    ensures b & 0xFC == 0 <==> !Bit(b, 2) && !Bit(b, 3) && !Bit(b, 4) && !Bit(b, 5) && !Bit(b, 6) && !Bit(b, 7) {}
  lemma MaskBits1(b: bv8)
    ensures b & 0xFE == 0 <==> !Bit(b, 1) && !Bit(b, 2) && !Bit(b, 3) && !Bit(b, 4) && !Bit(b, 5) && !Bit(b, 6) && !Bit(b, 7) {}

  // ---------- the check ----------

  method GetBitmapSize(consensusSize: nat) returns (expectedBitmapSize: nat)
    ensures 8 * (expectedBitmapSize - 1) < consensusSize <= 8 * expectedBitmapSize || expectedBitmapSize == consensusSize == 0
  {
    expectedBitmapSize := consensusSize / 8;
    if consensusSize % 8 != 0 {
      expectedBitmapSize := expectedBitmapSize + 1;
    }
  }

  /** A bitmap of the right size whose signers all belong to the group and are numerous enough. */
  ghost predicate IsQuorum(consensusSize: nat, bitmap: seq<bv8>, fallback: bool) {
    && |bitmap| == (consensusSize + 7) / 8
    && (forall i :: i in Signers(bitmap) ==> i < consensusSize)
    && |Signers(bitmap)| >= RequiredSignatures(consensusSize, fallback)
  }

  /** More than two thirds of the group, or with the fallback more than half of it, and no more than needed for that. */
  lemma ThresholdMeaning(consensusSize: nat, bitmap: seq<bv8>, fallback: bool)
    ensures |Signers(bitmap)| >= RequiredSignatures(consensusSize, fallback) <==>
            if fallback then 2 * |Signers(bitmap)| > consensusSize else 3 * |Signers(bitmap)| > 2 * consensusSize
  {
    hide Signers;
  }

  lemma PaddingIsOutside(consensusSize: nat, bitmap: seq<bv8>)
    requires |bitmap| == (consensusSize + 7) / 8 && consensusSize % 8 != 0
    ensures bitmap[|bitmap| - 1] & (0xFF << (consensusSize % 8)) == 0 <==>
            forall i :: i in Signers(bitmap) ==> i < consensusSize
  {
    hide Bit, Signers;
    var last, padding := |bitmap| - 1, consensusSize % 8;
    PaddingMask(bitmap[last], padding);
    assert consensusSize == 8 * last + padding;
    if forall k :: padding <= k < 8 ==> !Bit(bitmap[last], k) {
      NoPaddingSigner(bitmap, bitmap[last], padding);
    } else {
      var k :| padding <= k < 8 && Bit(bitmap[last], k);
      SignerOfBit(bitmap, k);
      assert 8 * last + k >= consensusSize;
    }
  }

  lemma NoPaddingSigner(bitmap: seq<bv8>, last: bv8, padding: nat)
    requires bitmap != [] && last == bitmap[|bitmap| - 1] && forall k :: padding <= k < 8 ==> !Bit(last, k)
    ensures forall i :: i in Signers(bitmap) ==> i < 8 * (|bitmap| - 1) + padding
  {
    hide Bit;
    forall i | i in Signers(bitmap)
      ensures i < 8 * (|bitmap| - 1) + padding
    {
      assert i / 8 == |bitmap| - 1 ==> i % 8 < padding;
    }
  }

  lemma SignerOfBit(bitmap: seq<bv8>, k: nat)
    requires bitmap != [] && k < 8 && Bit(bitmap[|bitmap| - 1], k)
    ensures 8 * (|bitmap| - 1) + k in Signers(bitmap)
  {
    hide Bit;
    var i := 8 * (|bitmap| - 1) + k;
    assert i / 8 == |bitmap| - 1 && i % 8 == k;
  }

  /** IsConsensusBitmapValid accepts exactly the quorums. */
  method IsConsensusBitmapValid(consensusSize: nat, bitmap: seq<bv8>, shouldApplyFallbackValidation: bool)
      returns (err: Option<BitmapError>)
    ensures err == None <==> IsQuorum(consensusSize, bitmap, shouldApplyFallbackValidation)
    ensures err == None <==>
              && |bitmap| == (consensusSize + 7) / 8 && (forall i :: i in Signers(bitmap) ==> i < consensusSize)
              && if shouldApplyFallbackValidation then 2 * |Signers(bitmap)| > consensusSize
                 else 3 * |Signers(bitmap)| > 2 * consensusSize
    ensures err == Some(NotEnoughSignatures) ==> |Signers(bitmap)| < consensusSize || consensusSize == 0
    ensures err == Some(WrongSizeBitmap) <==> |bitmap| != (consensusSize + 7) / 8
    ensures err == Some(PaddingBitsSet) <==>
              |bitmap| == (consensusSize + 7) / 8 && exists i :: i in Signers(bitmap) && i >= consensusSize
  {
    hide Bit, Signers;
    ThresholdMeaning(consensusSize, bitmap, shouldApplyFallbackValidation);
    err := None;
    var expectedBitmapSize := GetBitmapSize(consensusSize);
    assert expectedBitmapSize == (consensusSize + 7) / 8;
    if |bitmap| != expectedBitmapSize {
      err := Some(WrongSizeBitmap);
      return;
    }
    var paddingBits := consensusSize % 8;
    SignersBelow(bitmap);
    if paddingBits != 0 {
      PaddingIsOutside(consensusSize, bitmap);
      var paddingMask: bv8 := 0xFF << paddingBits;
      if bitmap[|bitmap| - 1] & paddingMask != 0 {
        err := Some(PaddingBitsSet);
        return;
      }
    }
    var numOfOnesInBitmap := CountOnes(bitmap);
    var minNumRequiredSignatures := PBFTThreshold(consensusSize);
    if shouldApplyFallbackValidation {
      minNumRequiredSignatures := PBFTFallbackThreshold(consensusSize);
    }
    if numOfOnesInBitmap >= minNumRequiredSignatures {
      return;
    }
    err := Some(NotEnoughSignatures);
  }

  lemma SignersBelow(bitmap: seq<bv8>)
    ensures forall i :: i in Signers(bitmap) ==> i < 8 * |bitmap|
  {
  }

  /** The counting loop. */
  method CountOnes(bitmap: seq<bv8>) returns (numOfOnesInBitmap: nat)
    ensures numOfOnesInBitmap == |Signers(bitmap)|
  {
    OnesCountIsSigners(bitmap);
    hide OnesCount8, Signers;
    numOfOnesInBitmap := 0;
    var index := 0;
    while index < |bitmap|
      invariant index <= |bitmap|
      invariant numOfOnesInBitmap == OnesCount(bitmap[..index])
    {
      assert bitmap[..index + 1][..index] == bitmap[..index];
      numOfOnesInBitmap := numOfOnesInBitmap + OnesCount8(bitmap[index]);
      index := index + 1;
    }
    assert bitmap[..index] == bitmap;
  }

  // ---------- quorum intersection ----------

  lemma SubsetSize<T>(a: set<T>, b: set<T>)
    requires a <= b
    ensures |a| <= |b|
  {
    assert b == a + (b - a);
  }

  ghost function Members(n: nat): (r: set<nat>)
    ensures |r| == n && forall i: nat :: i in r <==> i < n
  {
    if n == 0 then {} else Members(n - 1) + {n - 1}
  }

  lemma Overlap(a: set<nat>, b: set<nat>, n: nat)
    requires forall i :: i in a || i in b ==> i < n
    ensures |a * b| >= |a| + |b| - n
  {
    SubsetSize(a + b, Members(n));
  }

  /**
   Quorum intersection: the signers of two quorums of the same group lie within the group and
   share more than a third of it; with the fallback on one or both sides they share a member.
   */
  lemma QuorumsIntersect(n: nat, x: seq<bv8>, y: seq<bv8>, fallbackX: bool, fallbackY: bool)
    requires IsQuorum(n, x, fallbackX) && IsQuorum(n, y, fallbackY)
    ensures Signers(x) <= Members(n) && Signers(y) <= Members(n)
    ensures |Signers(x) * Signers(y)| >= 1
    ensures !fallbackX && !fallbackY ==> 3 * |Signers(x) * Signers(y)| > n
  {
    hide Signers, Members;
    Overlap(Signers(x), Signers(y), n);
  }

  /** The bounds are tight: a group of four has two quorums that share just two of its members. */
  lemma IntersectionIsTight()
    ensures IsQuorum(4, [0x07], false) && IsQuorum(4, [0x0E], false)
    ensures Signers([0x07]) * Signers([0x0E]) == {1, 2}
  {
    FirstThree();
    LastThree();
    hide Signers;
  }

  /** The fallback bounds are tight too: in a group of three, two fallback quorums share just one member. */
  lemma FallbackIsTight()
    ensures IsQuorum(3, [0x03], true) && IsQuorum(3, [0x06], true)
    ensures Signers([0x03]) * Signers([0x06]) == {1}
  {
    FirstTwo();
    LastTwo();
    hide Signers;
  }

  lemma FirstTwo()
    ensures Signers([0x03]) == {0, 1}
  {
  }

  lemma LastTwo()
    ensures Signers([0x06]) == {1, 2}
  {
  }

  lemma FirstThree()
    ensures Signers([0x07]) == {0, 1, 2}
  {
  }

  lemma LastThree()
    ensures Signers([0x0E]) == {1, 2, 3}
  {
  }
}
