/**
 Base-128 varints (Protocol Buffers Encoding, section "Base 128 Varints"): the generated
 writer and length function, the reading loop, and their specifications.
 */
module Varint {
  import opened Machine
  import opened Bits

  datatype Error =
    | IntOverflow
    | UnexpectedEOF
    | InvalidLength
    | UnexpectedEndOfGroup
    | IllegalWireType
    | EndGroupForNonGroup
    | IllegalTag
    | WrongWireType

  // ---------- writing ----------

  /** The base-128 digits of v, least significant first; all but the last carry the high bit. */
  function EncodeVarint(v: nat): (r: seq<byte>)
    ensures 1 <= |r|
  {
    if v < 128 then [v] else [v % 128 + 128] + EncodeVarint(v / 128)
  }

  /** math/bits.Len64. */
  function BitLen(x: nat): nat {
    if x == 0 then 0 else 1 + BitLen(x / 2)
  }

  /** The generated length function sov. */
  function Sov(x: uint64): nat {
    (BitLen(Or(x, 1)) + 6) / 7
  }

  lemma BitLenOfDigit(x: nat)
    requires x < 128
    ensures BitLen(x) <= 7
    ensures x > 0 ==> BitLen(x) >= 1
  {
    if x > 0 {
      assert BitLen(x) == 1 + BitLen(x / 2);
      if x / 2 > 0 {
        var a := x / 2 / 2;
        assert BitLen(x / 2) == 1 + BitLen(a);
        var b := a / 2 / 2;
        assert a > 0 ==> BitLen(a) == 1 + BitLen(a / 2);
        assert a / 2 > 0 ==> BitLen(a / 2) == 1 + BitLen(b);
        var c := b / 2 / 2;
        assert b > 0 ==> BitLen(b) == 1 + BitLen(b / 2);
        assert b / 2 > 0 ==> BitLen(b / 2) == 1 + BitLen(c);
        assert c > 0 ==> c == 1;
      }
    }
  }

  lemma BitLenShift(x: nat)
    requires x >= 128
    ensures BitLen(x) == 7 + BitLen(x / 128)
  {
    var a := x / 2;
    var b := a / 2;
    var c := b / 2;
    var d := c / 2;
    var e := d / 2;
    var f := e / 2;
    assert BitLen(x) == 1 + BitLen(a) == 2 + BitLen(b) == 3 + BitLen(c);
    assert BitLen(c) == 1 + BitLen(d) == 2 + BitLen(e) == 3 + BitLen(f) == 4 + BitLen(f / 2);
    assert f / 2 == x / 128;
  }

  lemma {:induction false} BitLenIsDigitCount(x: nat)
    requires x > 0
    ensures (BitLen(x) + 6) / 7 == |EncodeVarint(x)|
  {
    if x < 128 {
      BitLenOfDigit(x);
    } else {
      BitLenShift(x);
      BitLenIsDigitCount(x / 128);
    }
  }

  lemma {:induction false} OddHasSameLength(x: nat)
    requires x % 2 == 0
    ensures |EncodeVarint(x + 1)| == |EncodeVarint(x)|
    decreases x
  {
    if x >= 128 {
      assert (x + 1) / 128 == x / 128;
    }
  }

  /** sov(x) is the number of bytes the varint of x takes. */
  lemma SovIsLength(x: uint64)
    ensures Sov(x) == |EncodeVarint(x)|
  {
    OddIsItself(x);
    hide Or;
    if x % 2 == 0 {
      OddHasSameLength(x);
      BitLenIsDigitCount(x + 1);
    } else {
      BitLenIsDigitCount(x);
    }
  }

  /** x << 7 * k, before any truncation. */
  function ShiftLeft(x: nat, k: nat): nat {
    if k == 0 then x else 128 * ShiftLeft(x, k - 1)
  }

  lemma {:induction false} LengthBound(v: nat, k: nat)
    requires k >= 1 && v < ShiftLeft(1, k)
    ensures |EncodeVarint(v)| <= k
  {
    if v >= 128 {
      assert ShiftLeft(1, 1) == 128 * ShiftLeft(1, 0);
      assert ShiftLeft(1, k) == 128 * ShiftLeft(1, k - 1);
      LengthBound(v / 128, k - 1);
    }
  }

  lemma ShiftValues(x: nat)
    ensures ShiftLeft(x, 0) == x
    ensures ShiftLeft(x, 1) == x * 0x80
    ensures ShiftLeft(x, 2) == x * 0x4000
    ensures ShiftLeft(x, 3) == x * 0x20_0000
    ensures ShiftLeft(x, 4) == x * 0x1000_0000
    ensures ShiftLeft(x, 5) == x * 0x8_0000_0000
    ensures ShiftLeft(x, 6) == x * 0x400_0000_0000
    ensures ShiftLeft(x, 7) == x * 0x2_0000_0000_0000
    ensures ShiftLeft(x, 8) == x * 0x100_0000_0000_0000
    ensures ShiftLeft(x, 9) == x * 0x8000_0000_0000_0000
    ensures ShiftLeft(x, 10) == x * 0x40_0000_0000_0000_0000
  {
    assert ShiftLeft(x, 1) == 128 * ShiftLeft(x, 0);
    assert ShiftLeft(x, 2) == 128 * ShiftLeft(x, 1);
    assert ShiftLeft(x, 3) == 128 * ShiftLeft(x, 2);
    assert ShiftLeft(x, 4) == 128 * ShiftLeft(x, 3);
    assert ShiftLeft(x, 5) == 128 * ShiftLeft(x, 4);
    assert ShiftLeft(x, 6) == 128 * ShiftLeft(x, 5);
    assert ShiftLeft(x, 7) == 128 * ShiftLeft(x, 6);
    assert ShiftLeft(x, 8) == 128 * ShiftLeft(x, 7);
    assert ShiftLeft(x, 9) == 128 * ShiftLeft(x, 8);
    assert ShiftLeft(x, 10) == 128 * ShiftLeft(x, 9);
  }

  /** A uint64 takes at most ten bytes. */
  lemma AtMostTenBytes(v: uint64)
    ensures |EncodeVarint(v)| <= 10
  {
    ShiftValues(1);
    LengthBound(v, 10);
  }

  /** The bytes from i up to end now hold `content`; all others are as before. */
  ghost predicate Written(before: seq<byte>, now: seq<byte>, i: nat, end: nat, content: seq<byte>) {
    && |before| == |now| && i + |content| == end <= |now|
    && now[i..end] == content
    && now[..i] == before[..i] && now[end..] == before[end..]
  }

  /** Writing on, just before what was written last. */
  lemma WrittenThen(before: seq<byte>, mid: seq<byte>, now: seq<byte>, i: nat, at: nat, end: nat,
                    front: seq<byte>, back: seq<byte>)
    requires Written(before, mid, at, end, back) && Written(mid, now, i, at, front)
    ensures Written(before, now, i, end, front + back)
  {
    assert now[i..end] == now[i..at] + now[at..][..end - at];
    assert mid[at..][..end - at] == mid[at..end];
    assert now[..i] == mid[..at][..i];
    assert now[end..] == now[at..][end - at..];
  }

  lemma WrittenLength(before: seq<byte>, now: seq<byte>, i: nat, end: nat, content: seq<byte>)
    requires Written(before, now, i, end, content)
    ensures i + |content| == end <= |now| == |before|
  {
  }

  lemma NothingWritten(before: seq<byte>, end: nat)
    requires end <= |before|
    ensures Written(before, before, end, end, [])
  {
  }

  /** Writes the varint of v so that it ends just before `offset`, and returns where it starts. */
  method EncodeVarintAt(dAtA: array<byte>, offset: nat, v: uint64) returns (base: nat)
    requires |EncodeVarint(v)| <= offset <= dAtA.Length
    modifies dAtA
    ensures Written(old(dAtA[..]), dAtA[..], base, offset, EncodeVarint(v))
  {
    SovIsLength(v);
    var i, rest := offset - Sov(v), v;
    base := i;
    ghost var before := dAtA[..];
    ghost var digits: seq<byte> := [];
    NothingWritten(before, base);
    while rest >= 0x80
      invariant 0 <= i && i + |EncodeVarint(rest)| == offset
      invariant Written(before, dAtA[..], base, i, digits)
      invariant digits + EncodeVarint(rest) == EncodeVarint(v)
      decreases rest
    {
      DigitsStep(digits, rest);
      LowSevenBits(rest);
      ContinuationBit(rest % 128);
      ghost var mid := dAtA[..];
      dAtA[i] := Or(And(rest, 0x7F), 0x80);
      WrittenNext(before, mid, dAtA[..], base, i, digits, rest % 128 + 128);
      digits := digits + [rest % 128 + 128];
      rest := rest / 128;
      i := i + 1;
      hide Written;
    }
    ghost var mid := dAtA[..];
    dAtA[i] := rest;
    WrittenNext(before, mid, dAtA[..], base, i, digits, rest);
  }

  lemma DigitsStep(digits: seq<byte>, rest: nat)
    requires rest >= 0x80
    ensures digits + [rest % 128 + 128] + EncodeVarint(rest / 128) == digits + EncodeVarint(rest)
    ensures |EncodeVarint(rest)| == 1 + |EncodeVarint(rest / 128)|
  {
  }

  lemma WrittenNext(before: seq<byte>, mid: seq<byte>, now: seq<byte>, base: nat, i: nat, content: seq<byte>, b: byte)
    requires Written(before, mid, base, i, content) && i < |mid| && now == mid[i := b]
    ensures Written(before, now, base, i + 1, content + [b])
  {
    assert now[base..i + 1] == mid[base..i] + [b];
  }

  // ---------- reading ----------

  /**
   The unbounded value of the varint at index i, of which k bytes were read before, and the
   index after it. At most ten bytes are read: the loop stops once its shift reaches 64.
   */
  function ReadRaw(d: seq<byte>, i: nat, k: nat := 0): (r: Result<(nat, nat), Error>)
    ensures r.Ok? ==> i < r.value.1 <= |d|
    decreases 10 - k
  {
    if k >= 10 then Err(IntOverflow)
    else if i >= |d| then Err(UnexpectedEOF)
    else if d[i] < 128 then Ok((d[i], i + 1))
    else
      match ReadRaw(d, i + 1, k + 1)
      case Ok((v, j)) => Ok((d[i] - 128 + 128 * v, j))
      case Err(e) => Err(e)
  }

  /** The accumulators of the reading loops: uint32 and int32, or uint64 and int. */
  datatype Width = W32 | W64

  /** The low bits of x, as an accumulator of that width keeps them. */
  function Narrow(x: nat, width: Width): uint64 {
    if width == W32 then x % TWO_32 else x % TWO_64
  }

  function ReadVarint(d: seq<byte>, i: nat, width: Width): (r: Result<(uint64, nat), Error>) {
    match ReadRaw(d, i)
    case Ok((v, j)) => Ok((Narrow(v, width), j))
    case Err(e) => Err(e)
  }

  lemma {:induction false} ShiftOfDigit(sum: nat, chunk: nat, k: nat)
    requires chunk < 128 && sum < ShiftLeft(1, k)
    ensures sum + ShiftLeft(chunk, k) < ShiftLeft(1, k + 1)
  {
    ShiftMonotone(chunk, 127, k);
    ShiftAdds(127, 1, k);
    ShiftAssociates(1, k);
  }

  lemma {:induction false} ShiftMonotone(x: nat, y: nat, k: nat)
    requires x <= y
    ensures ShiftLeft(x, k) <= ShiftLeft(y, k)
  {
    if k > 0 {
      ShiftMonotone(x, y, k - 1);
    }
  }

  lemma {:induction false} ShiftAdds(x: nat, y: nat, k: nat)
    ensures ShiftLeft(x + y, k) == ShiftLeft(x, k) + ShiftLeft(y, k)
  {
    if k > 0 {
      ShiftAdds(x, y, k - 1);
    }
  }

  lemma {:induction false} ShiftAssociates(x: nat, k: nat)
    ensures ShiftLeft(128 * x, k) == ShiftLeft(x, k + 1)
  {
    if k > 0 {
      ShiftAssociates(x, k - 1);
    }
  }

  lemma {:induction false} ShiftIsShl(x: nat, k: nat)
    ensures ShiftLeft(x, k) == Shl(x, 7 * k)
  {
    if k > 0 {
      ShiftIsShl(x, k - 1);
      var n := 7 * (k - 1);
      assert Shl(x, n + 3) == 2 * Shl(x, n + 2) == 4 * Shl(x, n + 1) == 8 * Shl(x, n);
      assert Shl(x, n + 7) == 2 * Shl(x, n + 6) == 4 * Shl(x, n + 5) == 8 * Shl(x, n + 4) == 16 * Shl(x, n + 3);
    }
  }

  lemma {:induction false} ShiftZero(k: nat)
    ensures ShiftLeft(0, k) == 0
  {
    if k > 0 {
      ShiftZero(k - 1);
    }
  }

  lemma {:induction false} ShiftBound(chunk: nat, k: nat)
    requires chunk < 128
    ensures ShiftLeft(chunk, k) < ShiftLeft(1, k + 1)
  {
    if k > 0 {
      ShiftBound(chunk, k - 1);
    } else {
      assert ShiftLeft(1, 1) == 128 * ShiftLeft(1, 0);
    }
  }

  /** What an accumulator keeps of the k-th chunk is again a chunk at that place. */
  function Kept(chunk: nat, k: nat, width: Width): nat {
    if width == W64 then (if k == 9 then chunk % 2 else chunk)
    else if k < 4 then chunk
    else if k == 4 then chunk % 16
    else 0
  }

  lemma NarrowedChunk64(chunk: nat, k: nat)
    requires k < 10 && chunk < 128
    ensures Narrow(ShiftLeft(chunk, k), W64) == ShiftLeft(Kept(chunk, k, W64), k)
  {
    if k == 9 {
      ShiftValues(chunk);
      ShiftValues(chunk % 2);
      hide ShiftLeft;
      DropMultiples64(chunk % 2 * 0x8000_0000_0000_0000, chunk / 2);
    } else {
      ShiftBound(chunk, k);
      hide ShiftLeft;
      FitsIn64(k);
      SmallMod(ShiftLeft(chunk, k), TWO_64);
    }
  }

  lemma NarrowedChunk32(chunk: nat, k: nat)
    requires k < 10 && chunk < 128
    ensures Narrow(ShiftLeft(chunk, k), W32) == ShiftLeft(Kept(chunk, k, W32), k)
  {
    if k < 4 {
      ShiftBound(chunk, k);
      hide ShiftLeft;
      FitsIn32(k);
      SmallMod(ShiftLeft(chunk, k), TWO_32);
    } else if k == 4 {
      ShiftValues(chunk);
      ShiftValues(chunk % 16);
      hide ShiftLeft;
      DropMultiples32(chunk % 16 * 0x1000_0000, chunk / 16);
    } else {
      ShiftZero(k);
      ShiftIsMultiple(chunk, k - 5);
      hide ShiftLeft;
      DropMultiples32(0, ShiftLeft(8 * chunk, k - 5));
    }
  }

  lemma NarrowAtMost(x: nat, width: Width)
    ensures Narrow(x, width) <= x
  {
  }

  /** An accumulator of either width: or-ing the k-th chunk, shifted and truncated, into it adds it. */
  lemma OrNarrowed(sum: nat, chunk: nat, k: nat, width: Width)
    requires k < 10 && chunk < 128 && sum < ShiftLeft(1, k)
    ensures Or(Narrow(sum, width), Narrow(ShiftLeft(chunk, k), width)) ==
            Narrow(sum, width) + Narrow(ShiftLeft(chunk, k), width)
  {
    hide *;
    var kept := Kept(chunk, k, width);
    if width == W64 {
      NarrowedChunk64(chunk, k);
    } else {
      NarrowedChunk32(chunk, k);
    }
    ShiftIsShl(kept, k);
    ShiftIsShl(1, k);
    NarrowAtMost(sum, width);
    OrAboveIsSum(Narrow(sum, width), kept, 7 * k);
  }

  /** Or-ing the k-th chunk, shifted and truncated, into the accumulator keeps it the narrowed sum. */
  lemma AccumulateNarrowed(sum: nat, chunk: nat, k: nat, width: Width)
    requires k < 10 && chunk < 128 && sum < ShiftLeft(1, k)
    ensures Or(Narrow(sum, width), Narrow(ShiftLeft(chunk, k), width)) == Narrow(sum + ShiftLeft(chunk, k), width)
  {
    OrNarrowed(sum, chunk, k, width);
    hide Or;
    ShiftOfDigit(sum, chunk, k);
    if width == W64 {
      Accumulate64(sum, chunk, k);
    } else {
      Accumulate32(sum, chunk, k);
    }
  }

  lemma FitsIn64(k: nat)
    requires k < 9
    ensures ShiftLeft(1, k + 1) <= TWO_64
  {
    ShiftValues(1);
    hide ShiftLeft;
    assert k == 0 || k == 1 || k == 2 || k == 3 || k == 4 || k == 5 || k == 6 || k == 7 || k == 8;
  }

  lemma FitsIn32(k: nat)
    requires k < 4
    ensures ShiftLeft(1, k + 1) <= TWO_32
  {
    ShiftValues(1);
    hide ShiftLeft;
    assert k == 0 || k == 1 || k == 2 || k == 3;
  }

  lemma Accumulate64(sum: nat, chunk: nat, k: nat)
    requires k < 10 && chunk < 128 && sum < ShiftLeft(1, k)
    requires sum + ShiftLeft(chunk, k) < ShiftLeft(1, k + 1)
    ensures sum % TWO_64 + ShiftLeft(chunk, k) % TWO_64 == (sum + ShiftLeft(chunk, k)) % TWO_64
  {
    hide ShiftLeft;
    if k == 9 {
      ShiftValues(1);
      ShiftValues(chunk);
      SplitSum64(sum, chunk % 2 * 0x8000_0000_0000_0000, chunk / 2);
    } else {
      FitsIn64(k);
      SmallSum(sum, ShiftLeft(chunk, k), TWO_64);
    }
  }

  /** From the sixth chunk on, nothing reaches the low 32 bits. */
  lemma Accumulate32(sum: nat, chunk: nat, k: nat)
    requires k < 10 && chunk < 128 && sum < ShiftLeft(1, k)
    requires sum + ShiftLeft(chunk, k) < ShiftLeft(1, k + 1)
    ensures sum % TWO_32 + ShiftLeft(chunk, k) % TWO_32 == (sum + ShiftLeft(chunk, k)) % TWO_32
  {
    hide ShiftLeft;
    if k < 4 {
      FitsIn32(k);
      SmallSum(sum, ShiftLeft(chunk, k), TWO_32);
    } else if k == 4 {
      ShiftValues(1);
      ShiftValues(chunk);
      SplitSum32(sum, chunk % 16 * 0x1000_0000, chunk / 16);
    } else {
      ShiftIsMultiple(chunk, k - 5);
      DropMultiples32(0, ShiftLeft(8 * chunk, k - 5));
      DropMultiples32(sum, ShiftLeft(8 * chunk, k - 5));
    }
  }

  lemma SplitSum64(sum: nat, low: nat, q: nat)
    requires sum + low < TWO_64
    ensures sum % TWO_64 + (low + q * TWO_64) % TWO_64 == (sum + (low + q * TWO_64)) % TWO_64
  {
    DropMultiples64(low, q);
    DropMultiples64(sum + low, q);
  }

  lemma SplitSum32(sum: nat, low: nat, q: nat)
    requires sum + low < TWO_32
    ensures sum % TWO_32 + (low + q * TWO_32) % TWO_32 == (sum + (low + q * TWO_32)) % TWO_32
  {
    DropMultiples32(low, q);
    DropMultiples32(sum + low, q);
  }

  lemma {:induction false} ShiftIsMultiple(chunk: nat, k: nat)
    ensures ShiftLeft(chunk, k + 5) == ShiftLeft(8 * chunk, k) * TWO_32
  {
    ShiftValues(chunk);
    if k > 0 {
      ShiftIsMultiple(chunk, k - 1);
    }
  }

  lemma SmallSum(x: nat, y: nat, modulus: nat)
    requires x + y < modulus
    ensures x % modulus + y % modulus == (x + y) % modulus
  {
    SmallMod(x, modulus);
    SmallMod(y, modulus);
    SmallMod(x + y, modulus);
  }

  lemma SmallMod(x: nat, modulus: nat)
    requires x < modulus
    ensures x % modulus == x
  {
  }

  lemma DropMultiples32(x: nat, q: nat)
    ensures (x + q * TWO_32) % TWO_32 == x % TWO_32
  {
  }

  lemma DropMultiples64(x: nat, q: nat)
    ensures (x + q * TWO_64) % TWO_64 == x % TWO_64
  {
  }

  /** A value read after k bytes that contributed `sum`. */
  function Prepend(sum: nat, k: nat, r: Result<(nat, nat), Error>): Result<(nat, nat), Error> {
    match r
    case Ok((v, j)) => Ok((sum + ShiftLeft(v, k), j))
    case Err(e) => Err(e)
  }

  lemma PrependNext(d: seq<byte>, i: nat, k: nat, sum: nat)
    requires k < 10 && i < |d|
    ensures d[i] >= 128 ==>
              Prepend(sum, k, ReadRaw(d, i, k)) == Prepend(sum + ShiftLeft(d[i] % 128, k), k + 1, ReadRaw(d, i + 1, k + 1))
    ensures d[i] < 128 ==> Prepend(sum, k, ReadRaw(d, i, k)) == Ok((sum + ShiftLeft(d[i] % 128, k), i + 1))
  {
    hide ShiftLeft;
    if d[i] >= 128 && ReadRaw(d, i + 1, k + 1).Ok? {
      var v := ReadRaw(d, i + 1, k + 1).value.0;
      ShiftAdds(d[i] - 128, 128 * v, k);
      ShiftAssociates(v, k);
    }
  }

  /** What the digits collected from index i on amount to, whether or not the varint is complete. */
  function Collected(d: seq<byte>, i: nat, k: nat := 0): nat
    decreases 10 - k
  {
    if k >= 10 || i >= |d| then 0
    else if d[i] < 128 then d[i]
    else d[i] - 128 + 128 * Collected(d, i + 1, k + 1)
  }

  lemma CollectedNext(d: seq<byte>, i: nat, k: nat, sum: nat)
    requires k < 10 && i < |d|
    ensures d[i] >= 128 ==>
              sum + ShiftLeft(Collected(d, i, k), k) ==
              sum + ShiftLeft(d[i] % 128, k) + ShiftLeft(Collected(d, i + 1, k + 1), k + 1)
    ensures d[i] < 128 ==> Collected(d, i, k) == d[i] % 128
  {
    if d[i] >= 128 {
      var v := Collected(d, i + 1, k + 1);
      ShiftAdds(d[i] - 128, 128 * v, k);
      ShiftAssociates(v, k);
    }
  }

  /** A complete varint is what was collected. */
  lemma {:induction false} CollectedIsRead(d: seq<byte>, i: nat, k: nat)
    requires ReadRaw(d, i, k).Ok?
    ensures Collected(d, i, k) == ReadRaw(d, i, k).value.0
    decreases 10 - k
  {
    if d[i] >= 128 {
      CollectedIsRead(d, i + 1, k + 1);
    }
  }

  /** `sum` is what the first k bytes from `start` on contribute. */
  ghost predicate ReadSoFar(d: seq<byte>, start: nat, k: nat, sum: nat) {
    && sum < ShiftLeft(1, k)
    && ReadRaw(d, start) == Prepend(sum, k, ReadRaw(d, start + k, k))
    && Collected(d, start) == sum + ShiftLeft(Collected(d, start + k, k), k)
  }

  lemma ReadSoFarStarts(d: seq<byte>, start: nat, width: Width)
    ensures ReadSoFar(d, start, 0, 0) && Narrow(0, width) == 0
  {
    hide ReadRaw, Collected;
    assert Prepend(0, 0, ReadRaw(d, start)) == ReadRaw(d, start);
  }

  lemma ReadSoFarTurn(d: seq<byte>, start: nat, k: nat, sum: nat, width: Width)
    requires k < 10 && start + k < |d| && ReadSoFar(d, start, k, sum)
    ensures var b, sum' := d[start + k], sum + ShiftLeft(d[start + k] % 128, k);
            && Or(Narrow(sum, width), Narrow(ShiftLeft(And(b, 0x7F), k), width)) == Narrow(sum', width)
            && if b >= 128 then ReadSoFar(d, start, k + 1, sum')
               else ReadVarint(d, start, width) == Ok((Narrow(sum', width), start + k + 1)) && Collected(d, start) == sum'
  {
    hide ReadRaw, Collected, ShiftLeft, Narrow, Prepend, Or, And;
    LowSevenBits(d[start + k]);
    PrependNext(d, start + k, k, sum);
    CollectedNext(d, start + k, k, sum);
    AccumulateNarrowed(sum, d[start + k] % 128, k, width);
    ShiftOfDigit(sum, d[start + k] % 128, k);
  }

  lemma ReadSoFarStops(d: seq<byte>, start: nat, k: nat, sum: nat, width: Width)
    requires ReadSoFar(d, start, k, sum)
    ensures k >= 10 ==> ReadVarint(d, start, width) == Err(IntOverflow)
    ensures k < 10 && start + k >= |d| ==> ReadVarint(d, start, width) == Err(UnexpectedEOF)
    ensures k >= 10 || start + k >= |d| ==> Collected(d, start) == sum
  {
    ShiftZero(k);
    hide ShiftLeft, Narrow;
  }

  /** The generated reading loop: `acc |= T(b & 0x7F) << shift`, with shift = 7 * k. */
  method ReadVarintLoop(dAtA: seq<byte>, start: nat, width: Width)
      returns (acc: uint64, iNdEx: nat, err: Option<Error>)
    ensures err == None ==> ReadVarint(dAtA, start, width) == Ok((acc, iNdEx)) && start < iNdEx <= |dAtA|
    ensures err.Some? ==> ReadVarint(dAtA, start, width) == Err(err.value)
    ensures acc == Narrow(Collected(dAtA, start), width)
  {
    hide *;
    acc, iNdEx, err := 0, start, None;
    var k := 0;
    ghost var sum: nat := 0;
    ReadSoFarStarts(dAtA, start, width);
    while true
      invariant k <= 10 && iNdEx == start + k
      invariant ReadSoFar(dAtA, start, k, sum) && acc == Narrow(sum, width)
      decreases 10 - k
    {
      ReadSoFarStops(dAtA, start, k, sum, width);
      if k >= 10 {
        err := Some(IntOverflow);
        return;
      }
      if iNdEx >= |dAtA| {
        err := Some(UnexpectedEOF);
        return;
      }
      ReadSoFarTurn(dAtA, start, k, sum, width);
      var b := dAtA[iNdEx];
      iNdEx := iNdEx + 1;
      acc := Or(acc, Narrow(ShiftLeft(And(b, 0x7F), k), width));
      sum := sum + ShiftLeft(b % 128, k);
      if b < 0x80 {
        return;
      }
      k := k + 1;
    }
  }

  // ---------- reading what was written ----------

  /** The bytes of d appear in `whole` at index k. */
  ghost predicate Window(whole: seq<byte>, k: nat, d: seq<byte>) {
    k + |d| <= |whole| && forall x :: 0 <= x < |d| ==> whole[k + x] == d[x]
  }

  lemma {:induction false} ReadRawOfEncoded(d: seq<byte>, i: nat, v: nat, k: nat)
    requires Window(d, i, EncodeVarint(v)) && k + |EncodeVarint(v)| <= 10
    ensures ReadRaw(d, i, k) == Ok((v, i + |EncodeVarint(v)|))
    decreases v
  {
    var e := EncodeVarint(v);
    assert d[i + 0] == e[0];
    if v >= 128 {
      forall x | 0 <= x < |EncodeVarint(v / 128)|
        ensures d[i + 1 + x] == EncodeVarint(v / 128)[x]
      {
        assert e[x + 1] == EncodeVarint(v / 128)[x];
        assert d[i + (x + 1)] == e[x + 1];
      }
      ReadRawOfEncoded(d, i + 1, v / 128, k + 1);
    }
  }

  /** Reading undoes writing, wherever the varint of a uint64 stands. */
  lemma ReadVarintOfEncoded(d: seq<byte>, i: nat, v: uint64)
    requires Window(d, i, EncodeVarint(v))
    ensures ReadVarint(d, i, W64) == Ok((v, i + |EncodeVarint(v)|))
  {
    AtMostTenBytes(v);
    ReadRawOfEncoded(d, i, v, 0);
  }

  /** r, read in a part of a buffer that starts at k. */
  function Shift<T>(r: Result<(T, nat), Error>, k: nat): Result<(T, nat), Error> {
    match r
    case Ok((v, j)) => Ok((v, k + j))
    case Err(e) => Err(e)
  }

  lemma {:induction false} ReadRawInWindow(whole: seq<byte>, k: nat, d: seq<byte>, i: nat, n: nat)
    requires Window(whole, k, d) && i <= |d|
    requires ReadRaw(d, i, n).Ok? || k + |d| == |whole|
    ensures ReadRaw(whole, k + i, n) == Shift(ReadRaw(d, i, n), k)
    decreases 10 - n
  {
    if n < 10 && i < |d| {
      assert whole[k + i] == d[i];
      if d[i] >= 128 {
        ReadRawInWindow(whole, k, d, i + 1, n + 1);
      }
    }
  }

  /** What is read does not depend on the bytes around; an error remains one when nothing follows. */
  lemma ReadVarintInWindow(whole: seq<byte>, k: nat, d: seq<byte>, i: nat, width: Width)
    requires Window(whole, k, d) && i <= |d|
    requires ReadVarint(d, i, width).Ok? || k + |d| == |whole|
    ensures ReadVarint(whole, k + i, width) == Shift(ReadVarint(d, i, width), k)
  {
    ReadRawInWindow(whole, k, d, i, 0);
  }

  lemma {:induction false} CollectedAtEnd(whole: seq<byte>, k: nat, d: seq<byte>, i: nat, n: nat)
    requires Window(whole, k, d) && i <= |d| && k + |d| == |whole|
    ensures Collected(whole, k + i, n) == Collected(d, i, n)
    decreases 10 - n
  {
    if n < 10 && i < |d| {
      assert whole[k + i] == d[i];
      if d[i] >= 128 {
        CollectedAtEnd(whole, k, d, i + 1, n + 1);
      }
    }
  }

  // ---------- varints that cannot be read ----------

  /** Exactly when a varint is too long, and when the buffer ends inside it. */
  lemma {:induction false} ReadRawFails(d: seq<byte>, i: nat, k: nat)
    requires i <= |d| && k <= 10
    ensures ReadRaw(d, i, k) == Err(IntOverflow) <==> i + (10 - k) <= |d| && forall x :: i <= x < i + (10 - k) ==> d[x] >= 128
    ensures ReadRaw(d, i, k) == Err(UnexpectedEOF) <==> |d| < i + (10 - k) && forall x :: i <= x < |d| ==> d[x] >= 128
    ensures ReadRaw(d, i, k).Err? ==> ReadRaw(d, i, k).error == IntOverflow || ReadRaw(d, i, k).error == UnexpectedEOF
    decreases 10 - k
  {
    if k < 10 && i < |d| && d[i] >= 128 {
      ReadRawFails(d, i + 1, k + 1);
    }
  }

  /** From index i on, d holds the beginning of s, and ends before s does. */
  ghost predicate Cut(d: seq<byte>, i: nat, s: seq<byte>) {
    i <= |d| < i + |s| && forall x :: i <= x < |d| ==> d[x] == s[x - i]
  }

  lemma {:induction false} AllButLast(v: nat, x: nat)
    requires x < |EncodeVarint(v)| - 1
    ensures EncodeVarint(v)[x] >= 128
  {
    if x > 0 {
      AllButLast(v / 128, x - 1);
    }
  }

  /** A varint that is cut short is an unexpected end. */
  lemma CutVarint(d: seq<byte>, i: nat, v: uint64)
    requires Cut(d, i, EncodeVarint(v))
    ensures ReadVarint(d, i, W64) == Err(UnexpectedEOF)
  {
    AtMostTenBytes(v);
    hide EncodeVarint, ReadRaw;
    forall x | i <= x < |d|
      ensures d[x] >= 128
    {
      AllButLast(v, x - i);
    }
    ReadRawFails(d, i, 0);
  }

  /** The value of the k least significant digits of v. */
  function LowDigits(v: nat, k: nat): nat {
    if k == 0 then 0 else v % 128 + 128 * LowDigits(v / 128, k - 1)
  }

  /** Those digits are the remainder by 128 to the k. */
  lemma {:induction false} LowDigitsAreRemainder(v: nat, k: nat) returns (q: nat)
    ensures LowDigits(v, k) < ShiftLeft(1, k) && v == LowDigits(v, k) + ShiftLeft(q, k)
  {
    if k == 0 {
      q := v;
    } else {
      q := LowDigitsAreRemainder(v / 128, k - 1);
    }
  }

  /** From a varint cut short, the digits before the cut are collected. */
  lemma {:induction false} CollectedOfCut(d: seq<byte>, i: nat, v: nat, k: nat, n: nat)
    requires Cut(d, i, EncodeVarint(v)) && k == |d| - i && n + |EncodeVarint(v)| <= 10
    ensures Collected(d, i, n) == LowDigits(v, k)
    decreases k
  {
    if k > 0 {
      var e := EncodeVarint(v);
      assert d[i] == e[0] && v >= 128;
      forall x | i + 1 <= x < |d|
        ensures d[x] == EncodeVarint(v / 128)[x - (i + 1)]
      {
        assert e[x - i] == EncodeVarint(v / 128)[x - i - 1];
      }
      CollectedOfCut(d, i + 1, v / 128, k - 1, n + 1);
    }
  }
}
