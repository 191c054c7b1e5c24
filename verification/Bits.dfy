/**
 The bitwise operations of unsigned machine integers, bit by bit, and what they amount to
 where the generated codecs use them.
 */
module Bits {

  function Or(x: nat, y: nat): nat
    decreases x + y
  {
    if x == 0 && y == 0 then 0 else (if x % 2 == 1 || y % 2 == 1 then 1 else 0) + 2 * Or(x / 2, y / 2)
  }

  function And(x: nat, y: nat): nat {
    if x == 0 || y == 0 then 0 else (if x % 2 == 1 && y % 2 == 1 then 1 else 0) + 2 * And(x / 2, y / 2)
  }

  /** x << n, before any truncation. */
  function Shl(x: nat, n: nat): nat {
    if n == 0 then x else 2 * Shl(x, n - 1)
  }

  lemma {:induction false} OrZero(x: nat)
    ensures Or(x, 0) == x && Or(0, x) == x
  {
    if x > 0 {
      OrZero(x / 2);
    }
  }

  /** Or-ing a value above all the bits of x adds it. */
  lemma {:induction false} OrAboveIsSum(x: nat, y: nat, n: nat)
    requires x < Shl(1, n)
    ensures Or(x, Shl(y, n)) == x + Shl(y, n)
    decreases n
  {
    if n == 0 {
      OrZero(y);
    } else {
      OrAboveIsSum(x / 2, y, n - 1);
      assert Shl(y, n) / 2 == Shl(y, n - 1) && Shl(y, n) % 2 == 0;
    }
  }

  lemma MaskBit(x: nat, m: nat)
    ensures And(x, 2 * m + 1) == x % 2 + 2 * And(x / 2, m)
  {
    assert (2 * m + 1) / 2 == m && (2 * m + 1) % 2 == 1;
  }

  lemma MaskNibble(x: nat, m: nat)
    ensures And(x, 16 * m + 15) == x % 16 + 16 * And(x / 16, m)
  {
    hide And;
    MaskBit(x, 8 * m + 7);
    MaskBit(x / 2, 4 * m + 3);
    MaskBit(x / 2 / 2, 2 * m + 1);
    MaskBit(x / 2 / 2 / 2, m);
    assert x / 2 / 2 / 2 / 2 == x / 16;
  }

  lemma LowThreeBits(x: nat)
    ensures And(x, 0x7) == x % 8
  {
    MaskBit(x, 3);
    MaskBit(x / 2, 1);
    MaskBit(x / 2 / 2, 0);
    assert And(x / 2 / 2 / 2, 0) == 0;
    hide And;
  }

  lemma ByteParts(high: nat, mid: nat, low: nat, x: nat)
    requires x == 128 * high + 16 * mid + low && mid < 8 && low < 16
    ensures x % 128 == 16 * mid + low
  {
  }

  lemma LowSevenBits(x: nat)
    ensures And(x, 0x7F) == x % 128
  {
    hide And;
    MaskNibble(x, 7);
    LowThreeBits(x / 16);
    ByteParts(x / 16 / 8, x / 16 % 8, x % 16, x);
  }

  /** The continuation bit is above the seven bits of a digit. */
  lemma ContinuationBit(digit: nat)
    requires digit < 128
    ensures Or(digit, 0x80) == digit + 128
  {
    OrAboveIsSum(digit, 1, 7);
    assert Shl(1, 7) == 128;
  }

  lemma OddIsItself(x: nat)
    ensures Or(x, 1) == if x % 2 == 0 then x + 1 else x
  {
    OrZero(x / 2);
  }
}
