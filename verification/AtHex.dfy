/** Hexadecimal numbers and payloads of the serial lines: the readers of src/slm_at_main.c against the
    formats that src/large_data.c and tools/sensor_sim.py print. */
module AtHex {
  import opened Basics

  // ----------------------------------------------------------------- nibbles

  /** hex_nibble. */
  function Nibble(c: char): (v: int)
    ensures -1 <= v < 16
  {
    if '0' <= c <= '9' then c as int - '0' as int
    else if 'a' <= c <= 'f' then c as int - 'a' as int + 10
    else if 'A' <= c <= 'F' then c as int - 'A' as int + 10
    else -1
  }

  /** HEX_LUT, and the digits of the formats X. */
  function Digit(n: nat): char
    requires n < 16
  {
    "0123456789ABCDEF"[n]
  }

  /** Neither a quote nor a line break. */
  predicate PlainChar(c: char) {
    c != '"' && c != '\r' && c != '\n'
  }

  predicate Plain(s: string) {
    forall i :: 0 <= i < |s| ==> PlainChar(s[i])
  }

  lemma NibbleDigit(n: nat)
    requires n < 16
    ensures Nibble(Digit(n)) == n && PlainChar(Digit(n))
  {
  }

  // ------------------------------------------------------------------ numbers

  /** The value of a string of hexadecimal digits, if it is one. */
  function HexValue(s: string): (v: Option<nat>) {
    if s == [] then Some(0)
    else
      match HexValue(s[..|s| - 1])
      case None => None
      case Some(v) => var d := Nibble(s[|s| - 1]); if d < 0 then None else Some(16 * v + d)
  }

  /** The loop of field_hex_u64: the accumulator has 64 bits. */
  function HexU64(s: string): (v: Option<uint64>) {
    if s == [] then Some(0)
    else
      match HexU64(s[..|s| - 1])
      case None => None
      case Some(v) =>
        var d := Nibble(s[|s| - 1]);
        if d < 0 then None else Some((16 * v + d) % 0x1_0000_0000_0000_0000)
  }

  lemma WrapStep(v: nat, d: nat)
    ensures (16 * (v % 0x1_0000_0000_0000_0000) + d) % 0x1_0000_0000_0000_0000 == (16 * v + d) % 0x1_0000_0000_0000_0000
  {
  }

  /** A field that is too long for 64 bits is not rejected but cut: the result is the value modulo 2^64. */
  lemma {:induction false} HexU64Wraps(s: string)
    ensures HexU64(s) == match HexValue(s) case None => None case Some(v) => Some(v % 0x1_0000_0000_0000_0000)
  {
    if s != [] {
      var front := s[..|s| - 1];
      HexU64Wraps(front);
      if HexValue(front).Some? && Nibble(s[|s| - 1]) >= 0 {
        WrapStep(HexValue(front).value, Nibble(s[|s| - 1]));
      }
    }
  }

  /** The hexadecimal digits of v, at least w of them (%0wX). */
  function PrintHex(v: nat, w: nat): (s: string)
    ensures |s| >= 1
    decreases v, w
  {
    if v < 16 && w <= 1 then [Digit(v)] else PrintHex(v / 16, if w > 0 then w - 1 else 0) + [Digit(v % 16)]
  }

  lemma HexSnoc(s: string, n: nat)
    requires n < 16
    ensures HexValue(s + [Digit(n)]) == match HexValue(s) case None => None case Some(v) => Some(16 * v + n)
  {
    NibbleDigit(n);
    assert (s + [Digit(n)])[..|s|] == s;
  }

  lemma {:induction false} PrintHexReads(v: nat, w: nat)
    ensures HexValue(PrintHex(v, w)) == Some(v) && Plain(PrintHex(v, w))
    decreases v, w
  {
    NibbleDigit(v % 16);
    if v < 16 && w <= 1 {
      HexSnoc([], v);
      assert [] + [Digit(v)] == [Digit(v)];
    } else {
      PrintHexReads(v / 16, if w > 0 then w - 1 else 0);
      HexSnoc(PrintHex(v / 16, if w > 0 then w - 1 else 0), v % 16);
    }
  }

  lemma NoWrap(s: string, v: uint64)
    requires HexValue(s) == Some(v)
    ensures HexU64(s) == Some(v)
  {
    HexU64Wraps(s);
  }

  /** Parsing inverts printing for every 64-bit value and every width. */
  lemma PrintHexRoundTrip(v: uint64, w: nat)
    ensures HexU64(PrintHex(v, w)) == Some(v)
  {
    PrintHexReads(v, w);
    NoWrap(PrintHex(v, w), v);
  }

  /** A value that fits w digits is printed in exactly w. */
  lemma {:induction false} PrintHexWidth(v: nat, w: nat)
    requires w >= 1 && v < Pow2(4 * w)
    ensures |PrintHex(v, w)| == w
  {
    if w > 1 {
      assert Pow2(4 * w) == 2 * Pow2(4 * w - 1) && Pow2(4 * w - 1) == 2 * Pow2(4 * w - 2);
      assert Pow2(4 * w - 2) == 2 * Pow2(4 * w - 3) && Pow2(4 * w - 3) == 2 * Pow2(4 * (w - 1));
      PrintHexWidth(v / 16, w - 1);
    } else {
      assert Pow2(4) == 16;
    }
  }

  // ----------------------------------------------------------------- payloads

  /** hex_decode: the bytes, or None for any of its errors. */
  function HexDecode(s: string, max: nat): Option<seq<byte>> {
    if |s| % 2 != 0 || |s| / 2 > max then None else DecodePairs(s)
  }

  /** The loop of hex_decode over pairs of digits. */
  function DecodePairs(s: string): Option<seq<byte>>
    requires |s| % 2 == 0
  {
    if s == [] then Some([])
    else
      match DecodePairs(s[..|s| - 2])
      case None => None
      case Some(b) =>
        var hi, lo := Nibble(s[|s| - 2]), Nibble(s[|s| - 1]);
        if hi < 0 || lo < 0 then None else Some(b + [16 * hi + lo])
  }

  /** Two digits per byte, high nibble first. */
  function HexEncode(b: seq<byte>): (s: string)
    ensures |s| == 2 * |b|
  {
    if b == [] then [] else HexEncode(b[..|b| - 1]) + [Digit(b[|b| - 1] / 16), Digit(b[|b| - 1] % 16)]
  }

  lemma PairSnoc(s: string, b: seq<byte>, hi: nat, lo: nat)
    requires |s| % 2 == 0 && hi < 16 && lo < 16 && DecodePairs(s) == Some(b) && Plain(s)
    ensures var t := s + [Digit(hi), Digit(lo)]; DecodePairs(t) == Some(b + [16 * hi + lo]) && Plain(t)
  {
    NibbleDigit(hi);
    NibbleDigit(lo);
    TakePair(s, Digit(hi), Digit(lo));
  }

  lemma TakePair(s: string, x: char, y: char)
    ensures var t := s + [x, y]; t[..|t| - 2] == s && t[|t| - 2] == x && t[|t| - 1] == y
  {
  }

  lemma OneMoreByte(front: seq<byte>, last: byte)
    requires DecodePairs(HexEncode(front)) == Some(front) && Plain(HexEncode(front))
    ensures var b := front + [last]; DecodePairs(HexEncode(b)) == Some(b) && Plain(HexEncode(b))
  {
    PairSnoc(HexEncode(front), front, last / 16, last % 16);
    LastByte(front, last);
  }

  lemma {:induction false} EncodedPairs(b: seq<byte>)
    ensures DecodePairs(HexEncode(b)) == Some(b) && Plain(HexEncode(b))
  {
    if b != [] {
      var front, last := b[..|b| - 1], b[|b| - 1];
      assert b == front + [last];
      EncodedPairs(front);
      OneMoreByte(front, last);
    }
  }

  lemma LastByte(front: seq<byte>, last: byte)
    ensures HexEncode(front + [last]) == HexEncode(front) + [Digit(last / 16), Digit(last % 16)]
    ensures front + [16 * (last / 16) + last % 16] == front + [last]
  {
    assert (front + [last])[..|front|] == front;
  }

  /** Decoding inverts encoding exactly as long as the payload fits the buffer. */
  lemma DecodeEncode(b: seq<byte>, max: nat)
    ensures HexDecode(HexEncode(b), max) == if |b| <= max then Some(b) else None
  {
    var s := HexEncode(b);
    EncodedPairs(b);
    assert |s| / 2 == |b| && |s| % 2 == 0;
  }

  // ---------------------------------------------------------- as the code runs

  /** The loop of field_hex_u64 over the characters of a field. */
  method ParseU64(s: string) returns (out: Option<uint64>)
    ensures out == HexU64(s)
  {
    var v: uint64 := 0;
    for i := 0 to |s|
      invariant HexU64(s[..i]) == Some(v)
    {
      var nib := Nibble(s[i]);
      BadDigit(s, i);
      if nib < 0 {
        return None;
      }
      v := (16 * v + nib) % 0x1_0000_0000_0000_0000;
    }
    assert s[..|s|] == s;
    return Some(v);
  }

  /** One more digit of a number; a character that is no digit spoils the whole. */
  lemma BadDigit(s: string, i: nat)
    requires i < |s| && HexU64(s[..i]).Some?
    ensures Nibble(s[i]) < 0 ==> HexU64(s) == None
    ensures Nibble(s[i]) >= 0 ==>
              HexU64(s[..i + 1]) == Some((16 * HexU64(s[..i]).value + Nibble(s[i])) % 0x1_0000_0000_0000_0000)
  {
    assert s[..i + 1][..i] == s[..i];
    if Nibble(s[i]) < 0 {
      Spoiled(s, i + 1);
    }
  }

  lemma {:induction false} Spoiled(s: string, i: nat)
    requires i <= |s| && HexU64(s[..i]) == None
    ensures HexU64(s) == None
    decreases |s| - i
  {
    if i < |s| {
      assert s[..i + 1][..i] == s[..i];
      Spoiled(s, i + 1);
    } else {
      assert s[..i] == s;
    }
  }

  /** hex_decode into a buffer of max bytes. */
  method HexDecodeInto(hex: string, max: nat) returns (out: Option<seq<byte>>)
    ensures out == HexDecode(hex, max)
  {
    if |hex| % 2 != 0 {
      return None;
    }
    var bytes := |hex| / 2;
    if bytes > max {
      return None;
    }
    var b: seq<byte> := [];
    for i := 0 to bytes
      invariant DecodePairs(hex[..2 * i]) == Some(b)
    {
      var hi, lo := Nibble(hex[2 * i]), Nibble(hex[2 * i + 1]);
      NextPair(hex, i);
      if hi < 0 || lo < 0 {
        return None;
      }
      b := b + [16 * hi + lo];
    }
    assert hex[..2 * bytes] == hex;
    return Some(b);
  }

  lemma NextPair(s: string, i: nat)
    requires |s| % 2 == 0 && 2 * i + 1 < |s| && DecodePairs(s[..2 * i]).Some?
    ensures var (hi, lo) := (Nibble(s[2 * i]), Nibble(s[2 * i + 1]));
      if hi < 0 || lo < 0 then DecodePairs(s) == None
      else DecodePairs(s[..2 * (i + 1)]) == Some(DecodePairs(s[..2 * i]).value + [16 * hi + lo])
  {
    PairUnfolds(s[..2 * (i + 1)], s[..2 * i]);
    if Nibble(s[2 * i]) < 0 || Nibble(s[2 * i + 1]) < 0 {
      SpoiledPairs(s, i + 1);
    }
  }

  lemma PairUnfolds(t: string, front: string)
    requires |t| % 2 == 0 && |t| >= 2 && front == t[..|t| - 2] && DecodePairs(front).Some?
    ensures var (hi, lo) := (Nibble(t[|t| - 2]), Nibble(t[|t| - 1]));
      DecodePairs(t) == if hi < 0 || lo < 0 then None else Some(DecodePairs(front).value + [16 * hi + lo])
  {
  }

  lemma {:induction false} SpoiledPairs(s: string, i: nat)
    requires |s| % 2 == 0 && 2 * i <= |s| && DecodePairs(s[..2 * i]) == None
    ensures DecodePairs(s) == None
    decreases |s| - i
  {
    if 2 * i < |s| {
      var t := s[..2 * (i + 1)];
      assert t[..|t| - 2] == s[..2 * i];
      SpoiledPairs(s, i + 1);
    } else {
      assert s[..2 * i] == s;
    }
  }
}
