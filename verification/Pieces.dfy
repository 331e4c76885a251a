/** Cutting a blob into pieces of d bytes, the last one possibly shorter. */
module Pieces {
  import opened Basics

  function PieceEnd(n: nat, d: nat, k: nat): nat {
    if (k + 1) * d < n then (k + 1) * d else n
  }

  lemma MulMono(a: nat, b: nat, d: nat)
    requires a <= b
    ensures a * d <= b * d
  {
  }

  lemma MulSucc(k: nat, d: nat)
    ensures (k + 1) * d == k * d + d
  {
  }

  /** Piece k exists exactly when it starts inside the blob. */
  lemma PieceExists(n: nat, d: nat, k: nat)
    requires d > 0
    ensures k < CeilDiv(n, d) <==> k * d < n
  {
    CeilDivLeast(n, d);
    if k < CeilDiv(n, d) {
      assert !(n <= k * d);
    } else {
      MulMono(CeilDiv(n, d), k, d);
    }
  }

  lemma PieceStart(n: nat, d: nat, k: nat)
    requires d > 0 && k < CeilDiv(n, d)
    ensures k * d < n && k * d < PieceEnd(n, d, k) <= n && (k + 1) * d == k * d + d
  {
    PieceExists(n, d, k);
    MulSucc(k, d);
  }

  /** Piece k of b. */
  function Piece(b: seq<byte>, d: nat, k: nat): seq<byte>
    requires d > 0 && k < CeilDiv(|b|, d)
  {
    PieceStart(|b|, d, k);
    b[k * d..PieceEnd(|b|, d, k)]
  }

  /** Piece k of r is piece k of b. */
  predicate Holds(r: seq<byte>, b: seq<byte>, d: nat, k: nat)
    requires d > 0 && |r| == |b| && k < CeilDiv(|b|, d)
  {
    Piece(r, d, k) == Piece(b, d, k)
  }

  /** A blob is determined by its pieces. */
  lemma PiecesDetermine(a: seq<byte>, b: seq<byte>, d: nat)
    requires d > 0 && |a| == |b|
    requires forall k :: 0 <= k < CeilDiv(|b|, d) ==> Holds(a, b, d, k)
    ensures a == b
  {
    forall x | 0 <= x < |b|
      ensures a[x] == b[x]
    {
      PieceOf(|b|, d, x);
      var k := x / d;
      assert Holds(a, b, d, k);
      assert Piece(a, d, k)[x - k * d] == a[x] && Piece(b, d, k)[x - k * d] == b[x];
    }
  }

  lemma PieceOf(n: nat, d: nat, x: nat)
    requires d > 0 && x < n
    ensures var k := x / d; k < CeilDiv(n, d) && k * d <= x < PieceEnd(n, d, k)
  {
    var k := x / d;
    MulSucc(k, d);
    assert k * d <= x < k * d + d;
    PieceExists(n, d, k);
  }

  /** Overwriting (part of) piece k leaves every other piece alone. */
  lemma PieceKept(r: seq<byte>, d: nat, k: nat, data: seq<byte>, j: nat)
    requires d > 0 && k < CeilDiv(|r|, d) && j < CeilDiv(|r|, d) && j != k
    requires k * d + |data| <= PieceEnd(|r|, d, k)
    ensures Piece(Splice(r, k * d, data), d, j) == Piece(r, d, j)
  {
    PieceStart(|r|, d, k);
    PieceStart(|r|, d, j);
    if j < k {
      MulMono(j + 1, k, d);
    } else {
      MulMono(k + 1, j, d);
    }
    SpliceOutside(r, k * d, data, j * d, PieceEnd(|r|, d, j));
  }

  /** Overwriting all of piece k replaces it. */
  lemma PieceReplaced(r: seq<byte>, d: nat, k: nat, data: seq<byte>)
    requires d > 0 && k < CeilDiv(|r|, d) && k * d + |data| == PieceEnd(|r|, d, k)
    ensures Piece(Splice(r, k * d, data), d, k) == data
  {
    PieceStart(|r|, d, k);
    SpliceInside(r, k * d, data);
  }

  ghost predicate HoldsFirst(r: seq<byte>, b: seq<byte>, d: nat, n: nat)
    requires d > 0
  {
    |r| == |b| && n <= CeilDiv(|b|, d) && forall k :: 0 <= k < n ==> Holds(r, b, d, k)
  }

  /** Writing the next piece extends the prefix that holds. */
  lemma HoldsNext(r: seq<byte>, b: seq<byte>, d: nat, n: nat)
    requires d > 0 && HoldsFirst(r, b, d, n) && n < CeilDiv(|b|, d)
    ensures n * d + |Piece(b, d, n)| <= |r| && HoldsFirst(Splice(r, n * d, Piece(b, d, n)), b, d, n + 1)
  {
    var p := Piece(b, d, n);
    PieceStart(|b|, d, n);
    PieceReplaced(r, d, n, p);
    forall j | 0 <= j < n
      ensures Holds(Splice(r, n * d, p), b, d, j)
    {
      assert Holds(r, b, d, j);
      PieceKept(r, d, n, p, j);
    }
  }

  /** The first n pieces of b, joined. */
  function Joined(b: seq<byte>, d: nat, n: nat): seq<byte>
    requires d > 0 && n <= CeilDiv(|b|, d)
  {
    if n == 0 then [] else Joined(b, d, n - 1) + Piece(b, d, n - 1)
  }

  /** Joining all pieces gives the blob back. */
  lemma {:induction false} JoinedPrefix(b: seq<byte>, d: nat, n: nat)
    requires d > 0 && n <= CeilDiv(|b|, d)
    ensures n > 0 ==> PieceEnd(|b|, d, n - 1) <= |b|
    ensures Joined(b, d, n) == if n == 0 then [] else b[..PieceEnd(|b|, d, n - 1)]
  {
    if n > 0 {
      JoinedPrefix(b, d, n - 1);
      PieceStart(|b|, d, n - 1);
      if n > 1 {
        PieceStart(|b|, d, n - 2);
        assert PieceEnd(|b|, d, n - 2) == (n - 1) * d;
      }
    }
  }

  lemma JoinedAll(b: seq<byte>, d: nat)
    requires d > 0
    ensures Joined(b, d, CeilDiv(|b|, d)) == b
  {
    CeilDivLeast(|b|, d);
    JoinedPrefix(b, d, CeilDiv(|b|, d));
  }
}
