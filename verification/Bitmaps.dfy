/** The received-chunk bitmap: bit k is bit k % 8 of byte k / 8. */
module Bitmaps {
  import opened Basics

  /** b & (1 << j) is not zero. */
  predicate BitIn(b: nat, j: nat) {
    if j == 0 then b % 2 == 1 else BitIn(b / 2, j - 1)
  }

  /** b | (1 << j). */
  function SetBit(b: nat, j: nat): nat {
    if j == 0 then b - b % 2 + 1 else 2 * SetBit(b / 2, j - 1) + b % 2
  }

  lemma {:induction false} SetBitBound(b: nat, j: nat, n: nat)
    requires b < Pow2(n) && j < n
    ensures SetBit(b, j) < Pow2(n)
  {
    if j > 0 {
      SetBitBound(b / 2, j - 1, n - 1);
    }
  }

  lemma {:induction false} SetBitExact(b: nat, i: nat, j: nat)
    ensures BitIn(SetBit(b, i), j) <==> i == j || BitIn(b, j)
  {
    if i > 0 && j > 0 {
      SetBitExact(b / 2, i - 1, j - 1);
    }
  }

  function SetIn(b: byte, j: nat): byte
    requires j < 8
  {
    assert Pow2(4) == 16 && Pow2(8) == 0x100;
    SetBitBound(b, j, 8);
    SetBit(b, j)
  }

  predicate Has(bitmap: seq<byte>, k: nat)
    requires k < 8 * |bitmap|
  {
    BitIn(bitmap[k / 8], k % 8)
  }

  function Mark(bitmap: seq<byte>, k: nat): (r: seq<byte>)
    requires k < 8 * |bitmap|
    ensures |r| == |bitmap|
  {
    bitmap[k / 8 := SetIn(bitmap[k / 8], k % 8)]
  }

  /** Marking k sets bit k and no other. */
  lemma MarkExact(bitmap: seq<byte>, k: nat, m: nat)
    requires k < 8 * |bitmap| && m < 8 * |bitmap|
    ensures Has(Mark(bitmap, k), m) <==> m == k || Has(bitmap, m)
  {
    if m / 8 == k / 8 {
      SetBitExact(bitmap[k / 8], k % 8, m % 8);
    }
  }

  /** How many of the first n bits are set. */
  function Count(bitmap: seq<byte>, n: nat): (c: nat)
    requires n <= 8 * |bitmap|
    ensures c <= n
  {
    if n == 0 then 0 else Count(bitmap, n - 1) + if Has(bitmap, n - 1) then 1 else 0
  }

  lemma {:induction false} CountMark(bitmap: seq<byte>, k: nat, n: nat)
    requires k < 8 * |bitmap| && n <= 8 * |bitmap| && !Has(bitmap, k)
    ensures Count(Mark(bitmap, k), n) == Count(bitmap, n) + if k < n then 1 else 0
  {
    if n > 0 {
      CountMark(bitmap, k, n - 1);
      MarkExact(bitmap, k, n - 1);
    }
  }

  /** The count reaches n exactly when every one of the n bits is set. */
  lemma {:induction false} CountFull(bitmap: seq<byte>, n: nat)
    requires n <= 8 * |bitmap|
    ensures Count(bitmap, n) == n <==> forall k :: 0 <= k < n ==> Has(bitmap, k)
  {
    if n > 0 {
      CountFull(bitmap, n - 1);
    }
  }

  lemma {:induction false} CountZero(bytes: nat, n: nat)
    requires n <= 8 * bytes
    ensures Count(seq(bytes, _ => 0), n) == 0
  {
    if n > 0 {
      CountZero(bytes, n - 1);
    }
  }
}
