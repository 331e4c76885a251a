/** The CRC-16/CCITT-FALSE of tools/sensor_sim.py. The 16-bit register is a row of bits, most
    significant first, so that `crc & 0x8000` is bit 0 and `crc << 1` drops it. */
module Crc16CcittFalse {
  import opened Basics
  import opened Folding

  type Reg = r: seq<bool> | |r| == 16 witness seq(16, _ => false)

  /** The set bits of 0x1021. */
  function Poly(i: nat): bool {
    i == 3 || i == 10 || i == 15
  }

  function Ones(): Reg {
    seq(16, _ => true)
  }

  function Xor(x: Reg, y: Reg): Reg {
    seq(16, i requires 0 <= i < 16 => x[i] != y[i])
  }

  function Shift(c: Reg): Reg {
    seq(16, i requires 0 <= i < 16 => (i < 15 && c[i + 1]) != (c[0] && Poly(i)))
  }

  function Shifts(c: Reg, n: nat): Reg {
    if n == 0 then c else Shift(Shifts(c, n - 1))
  }

  /** The n low bits of v, most significant first. */
  function BitsOf(v: nat, n: nat): (r: seq<bool>)
    ensures |r| == n
  {
    if n == 0 then [] else BitsOf(v / 2, n - 1) + [v % 2 == 1]
  }

  function Bits(b: byte): (r: seq<bool>)
    ensures |r| == 8
  {
    BitsOf(b, 8)
  }

  /** Bits w at the top of an otherwise zero register. */
  function Pad(w: seq<bool>): Reg
    requires |w| <= 16
  {
    w + seq(16 - |w|, _ => false)
  }

  function Step(c: Reg, b: byte): Reg {
    Shifts(Xor(c, Pad(Bits(b))), 8)
  }

  function Number(bits: seq<bool>): nat {
    if bits == [] then 0 else 2 * Number(bits[..|bits| - 1]) + if bits[|bits| - 1] then 1 else 0
  }

  lemma {:induction false} NumberBound(bits: seq<bool>)
    ensures Number(bits) < Pow2(|bits|)
  {
    if bits != [] {
      NumberBound(bits[..|bits| - 1]);
    }
  }

  /** Different bit patterns are different numbers. */
  lemma {:induction false} NumberInjective(x: seq<bool>, y: seq<bool>)
    requires |x| == |y| && Number(x) == Number(y)
    ensures x == y
  {
    if x != [] {
      NumberInjective(x[..|x| - 1], y[..|y| - 1]);
    }
  }

  function Register(data: seq<byte>): Reg {
    Run(Step, Ones(), data)
  }

  function Crc16(data: seq<byte>): uint16 {
    NumberBound(Register(data));
    assert Pow2(4) == 16 && Pow2(8) == 256 && Pow2(12) == 4096 && Pow2(16) == 0x1_0000;
    Number(Register(data))
  }

  method Crc16Ccitt(data: seq<byte>) returns (crc: Reg)
    ensures Number(crc) == Crc16(data)
  {
    crc := Ones();
    for i := 0 to |data|
      invariant Run(Step, crc, data[i..]) == Register(data)
    {
      ghost var before := crc;
      crc := Xor(crc, Pad(Bits(data[i])));
      for k := 0 to 8
        invariant crc == Shifts(Xor(before, Pad(Bits(data[i]))), k)
      {
        crc := Shift(crc);
      }
      assert data[i..][1..] == data[i + 1..];
    }
  }

  // The same register read one bit at a time.

  function BitStep(c: Reg, bit: bool): Reg {
    Shift(Xor(c, Pad([bit])))
  }

  function MessageBits(data: seq<byte>): (r: seq<bool>)
    ensures |r| == 8 * |data|
  {
    if data == [] then [] else Bits(data[0]) + MessageBits(data[1..])
  }

  lemma ShiftLinear(x: Reg, y: Reg)
    ensures Shift(Xor(x, y)) == Xor(Shift(x), Shift(y))
  {
  }

  lemma ShiftInjective(x: Reg, y: Reg)
    requires Shift(x) == Shift(y)
    ensures x == y
  {
    assert Shift(x)[15] == x[0] && Shift(y)[15] == y[0];
    forall j | 1 <= j < 16
      ensures x[j] == y[j]
    {
      assert Shift(x)[j - 1] == Shift(y)[j - 1];
    }
  }

  lemma {:induction false} ShiftsFirst(c: Reg, n: nat)
    ensures Shifts(Shift(c), n) == Shifts(c, n + 1)
  {
    if n > 0 {
      ShiftsFirst(c, n - 1);
    }
  }

  /** Absorbing a word at the top and shifting it through is absorbing its bits one by one. */
  lemma {:induction false} WordIsBits(c: Reg, w: seq<bool>)
    requires |w| <= 16
    ensures Shifts(Xor(c, Pad(w)), |w|) == Run(BitStep, c, w)
    decreases |w|
  {
    if w == [] {
      assert Xor(c, Pad(w)) == c;
    } else {
      var t := w[1..];
      var rest := [false] + t;
      assert Xor(c, Pad(w)) == Xor(Xor(c, Pad([w[0]])), Pad(rest));
      ShiftLinear(Xor(c, Pad([w[0]])), Pad(rest));
      assert Shift(Pad(rest)) == Pad(t);
      assert Shift(Xor(c, Pad(w))) == Xor(BitStep(c, w[0]), Pad(t));
      ShiftsFirst(Xor(c, Pad(w)), |t|);
      WordIsBits(BitStep(c, w[0]), t);
    }
  }

  lemma {:induction false} RegisterIsBits(c: Reg, data: seq<byte>)
    ensures Run(Step, c, data) == Run(BitStep, c, MessageBits(data))
    decreases |data|
  {
    if data != [] {
      WordIsBits(c, Bits(data[0]));
      RunConcat(BitStep, c, Bits(data[0]), MessageBits(data[1..]));
      RegisterIsBits(Step(c, data[0]), data[1..]);
    }
  }

  /** Equal suffixes never bring two different registers together. */
  lemma {:induction false} BitsInjective(c: Reg, d: Reg, bits: seq<bool>)
    requires Run(BitStep, c, bits) == Run(BitStep, d, bits)
    ensures c == d
    decreases |bits|
  {
    if bits != [] {
      BitsInjective(BitStep(c, bits[0]), BitStep(d, bits[0]), bits[1..]);
      var p := Pad([bits[0]]);
      ShiftInjective(Xor(c, p), Xor(d, p));
      forall i | 0 <= i < 16
        ensures c[i] == d[i]
      {
        assert Xor(c, p)[i] == Xor(d, p)[i];
      }
    }
  }

  lemma {:induction false} ShiftsInjective(x: Reg, y: Reg, n: nat)
    requires Shifts(x, n) == Shifts(y, n)
    ensures x == y
  {
    if n > 0 {
      ShiftInjective(Shifts(x, n - 1), Shifts(y, n - 1));
      ShiftsInjective(x, y, n - 1);
    }
  }

  /** Two messages that share a prefix p and a suffix q of bits and differ between by at most
      16 bits have different registers. */
  lemma WindowInjective(p: seq<bool>, u: seq<bool>, v: seq<bool>, q: seq<bool>)
    requires |u| == |v| <= 16
    requires Run(BitStep, Ones(), p + u + q) == Run(BitStep, Ones(), p + v + q)
    ensures u == v
  {
    var c := Run(BitStep, Ones(), p);
    BitsRun3(p, u, q);
    BitsRun3(p, v, q);
    BitsInjective(Run(BitStep, c, u), Run(BitStep, c, v), q);
    WordIsBits(c, u);
    WordIsBits(c, v);
    ShiftsInjective(Xor(c, Pad(u)), Xor(c, Pad(v)), |u|);
    forall k | 0 <= k < |u|
      ensures u[k] == v[k]
    {
      assert Xor(c, Pad(u))[k] == Xor(c, Pad(v))[k];
    }
  }

  /** Any error burst of at most 16 bits, wherever it starts in the message, changes the checksum. */
  lemma BurstDetected(m: seq<byte>, n: seq<byte>, i: nat, j: nat)
    requires |m| == |n| && m != n && i <= j <= 8 * |m| && j - i <= 16
    requires MessageBits(m)[..i] == MessageBits(n)[..i] && MessageBits(m)[j..] == MessageBits(n)[j..]
    ensures Crc16(m) != Crc16(n)
  {
    RegisterIsBits(Ones(), m);
    RegisterIsBits(Ones(), n);
    if Crc16(m) == Crc16(n) {
      NumberInjective(Register(m), Register(n));
      WindowAgrees(MessageBits(m), MessageBits(n), i, j);
      MessageBitsInjective(m, n);
    }
  }

  lemma WindowAgrees(x: seq<bool>, y: seq<bool>, i: nat, j: nat)
    requires |x| == |y| && i <= j <= |x| && j - i <= 16
    requires x[..i] == y[..i] && x[j..] == y[j..]
    requires Run(BitStep, Ones(), x) == Run(BitStep, Ones(), y)
    ensures x == y
  {
    assert x == x[..i] + x[i..j] + x[j..];
    assert y == x[..i] + y[i..j] + x[j..];
    WindowInjective(x[..i], x[i..j], y[i..j], x[j..]);
  }

  lemma {:induction false} BitsOfPrefix(data: seq<byte>, i: nat)
    requires i <= |data|
    ensures MessageBits(data) == MessageBits(data[..i]) + MessageBits(data[i..])
  {
    if i > 0 {
      BitsOfPrefix(data[1..], i - 1);
      assert data[1..][..i - 1] == data[..i][1..] && data[1..][i - 1..] == data[i..];
      assert data[..i][0] == data[0];
    } else {
      assert data[i..] == data;
    }
  }

  /** In particular a change confined to two adjacent bytes is always noticed. */
  lemma TwoByteChangeDetected(m: seq<byte>, n: seq<byte>, i: nat)
    requires |m| == |n| && m != n && i + 2 <= |m|
    requires m[..i] == n[..i] && m[i + 2..] == n[i + 2..]
    ensures Crc16(m) != Crc16(n)
  {
    BitsOfPrefix(m, i);
    BitsOfPrefix(n, i);
    BitsOfPrefix(m, i + 2);
    BitsOfPrefix(n, i + 2);
    BurstDetected(m, n, 8 * i, 8 * i + 16);
  }

  lemma BitsRun3(a: seq<bool>, b: seq<bool>, c: seq<bool>)
    ensures Run(BitStep, Ones(), a + b + c) == Run(BitStep, Run(BitStep, Run(BitStep, Ones(), a), b), c)
  {
    RunConcat(BitStep, Ones(), a + b, c);
    RunConcat(BitStep, Ones(), a, b);
  }

  lemma {:induction false} NumberOfBits(v: nat, n: nat)
    requires v < Pow2(n)
    ensures Number(BitsOf(v, n)) == v
  {
    if n > 0 {
      NumberOfBits(v / 2, n - 1);
    }
  }

  lemma BitsOfByteInjective(a: byte, b: byte)
    requires Bits(a) == Bits(b)
    ensures a == b
  {
    assert Pow2(4) == 16 && Pow2(8) == 256;
    NumberOfBits(a, 8);
    NumberOfBits(b, 8);
  }

  lemma {:induction false} MessageBitsInjective(m: seq<byte>, n: seq<byte>)
    requires |m| == |n| && MessageBits(m) == MessageBits(n)
    ensures m == n
    decreases |m|
  {
    if m != [] {
      var x, y := MessageBits(m), MessageBits(n);
      assert x[..8] == Bits(m[0]) && y[..8] == Bits(n[0]);
      assert x[8..] == MessageBits(m[1..]) && y[8..] == MessageBits(n[1..]);
      BitsOfByteInjective(m[0], n[0]);
      MessageBitsInjective(m[1..], n[1..]);
      assert m == [m[0]] + m[1..] && n == [n[0]] + n[1..];
    }
  }
}
