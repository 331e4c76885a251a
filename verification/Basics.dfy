/** Integer widths, byte strings and the two or three sequence facts everything else needs. */
module Basics {

  type byte = x: int | 0 <= x < 0x100
  type uint8 = x: int | 0 <= x < 0x100
  type uint16 = x: int | 0 <= x < 0x1_0000
  type uint32 = x: int | 0 <= x < 0x1_0000_0000
  type uint64 = x: int | 0 <= x < 0x1_0000_0000_0000_0000

  datatype Option<+T> = None | Some(value: T)

  function Min(a: nat, b: nat): nat {
    if a < b then a else b
  }

  function Pow2(n: nat): (p: nat)
    ensures p > 0
  {
    if n == 0 then 1 else 2 * Pow2(n - 1)
  }

  /** Rounding division, written in the firmware as (n + d - 1) / d. */
  function CeilDiv(n: nat, d: nat): (q: nat)
    requires d > 0
  {
    (n + d - 1) / d
  }

  /** CeilDiv is the least number of d-sized pieces that cover n. */
  lemma CeilDivLeast(n: nat, d: nat)
    requires d > 0
    ensures n <= CeilDiv(n, d) * d < n + d
    ensures forall q: nat :: n <= q * d ==> CeilDiv(n, d) <= q
  {
    var q0 := CeilDiv(n, d);
    assert q0 * d == (n + d - 1) - (n + d - 1) % d;
    forall q: nat | q < q0
      ensures q * d < n
    {
      assert (q + 1) * d <= q0 * d;
    }
  }

  /** mem with the bytes at addr .. addr + |b| replaced by b. */
  function Splice(mem: seq<byte>, addr: nat, b: seq<byte>): (r: seq<byte>)
    requires addr + |b| <= |mem|
    ensures |r| == |mem|
  {
    mem[..addr] + b + mem[addr + |b|..]
  }

  /** The spliced range holds b. */
  lemma SpliceInside(mem: seq<byte>, addr: nat, b: seq<byte>)
    requires addr + |b| <= |mem|
    ensures Splice(mem, addr, b)[addr..addr + |b|] == b
  {
  }

  /** A splice leaves every slice outside its range as it was. */
  lemma SpliceOutside(mem: seq<byte>, addr: nat, b: seq<byte>, lo: nat, hi: nat)
    requires addr + |b| <= |mem| && lo <= hi <= |mem|
    requires hi <= addr || addr + |b| <= lo
    ensures Splice(mem, addr, b)[lo..hi] == mem[lo..hi]
  {
  }

  /** s with element i taken out. */
  function Without<T>(s: seq<T>, i: nat): (r: seq<T>)
    requires i < |s|
    ensures |r| == |s| - 1
  {
    s[..i] + s[i + 1..]
  }

  function Each<T, U>(f: T -> U, s: seq<T>): (r: seq<U>)
    ensures |r| == |s| && forall i :: 0 <= i < |s| ==> r[i] == f(s[i])
  {
    seq(|s|, i requires 0 <= i < |s| => f(s[i]))
  }

  lemma EachWithout<T, U>(f: T -> U, s: seq<T>, i: nat)
    requires i < |s|
    ensures Each(f, Without(s, i)) == Without(Each(f, s), i)
  {
  }

  lemma EachUpdated<T, U>(f: T -> U, s: seq<T>, i: nat, x: T)
    requires i < |s|
    ensures Each(f, s[i := x]) == Each(f, s)[i := f(x)]
  {
  }

  lemma EachAppended<T, U>(f: T -> U, s: seq<T>, x: T)
    ensures Each(f, s + [x]) == Each(f, s) + [f(x)]
  {
  }

  /** f applied to the first n elements. */
  function FirstEach<T>(f: T -> T, s: seq<T>, n: nat): (r: seq<T>)
    ensures |r| == |s| && forall i :: 0 <= i < |s| ==> r[i] == if i < n then f(s[i]) else s[i]
  {
    seq(|s|, i requires 0 <= i < |s| => if i < n then f(s[i]) else s[i])
  }

  lemma FirstEachStep<T>(f: T -> T, s: seq<T>, n: nat)
    requires n < |s|
    ensures FirstEach(f, s, n)[n] == s[n] && FirstEach(f, s, n + 1) == FirstEach(f, s, n)[n := f(s[n])]
    ensures FirstEach(f, s, 0) == s
  {
  }

  lemma FirstEachAll<T>(f: T -> T, s: seq<T>, n: nat)
    requires n >= |s|
    ensures FirstEach(f, s, n) == FirstEach(f, s, |s|)
  {
  }

  lemma {:induction false} SubsetSize<T>(a: set<T>, b: set<T>)
    requires a <= b
    ensures |a| <= |b|
  {
    if a != {} {
      var x :| x in a;
      SubsetSize(a - {x}, b - {x});
    }
  }
}
