/** The CRC-32 of section 8 of RFC 1952, the checksum of a whole transfer. */
module Crc32Ieee {
  import opened Basics
  import opened Folding

  function Shift32(c: bv32): bv32 {
    if c & 1 != 0 then (c >> 1) ^ 0xEDB8_8320 else c >> 1
  }

  function Shifts32(c: bv32, n: nat): bv32 {
    if n == 0 then c else Shift32(Shifts32(c, n - 1))
  }

  /** One byte through the register: table[(c ^ b) & 0xff] ^ (c >> 8), with
      table[n] the register after eight shifts of n. */
  function Step32(c: bv32, b: byte): bv32 {
    Shifts32((c ^ (b as bv32)) & 0xFF, 8) ^ (c >> 8)
  }

  function Invert32(c: bv32): bv32 {
    c ^ 0xFFFF_FFFF
  }

  /** crc32_ieee_update: the checksum of what crc covers followed by data. */
  function Crc32Update(crc: bv32, data: seq<byte>): bv32 {
    Invert32(Run(Step32, Invert32(crc), data))
  }

  function Value(crc: bv32): uint32 {
    crc as int
  }

  function Crc32(data: seq<byte>): uint32 {
    Value(Crc32Update(0, data))
  }

  lemma Invert32Twice(c: bv32)
    ensures Invert32(Invert32(c)) == c
  {
  }

  /** Updating the checksum of a with b gives the checksum of a + b. */
  lemma Crc32UpdateConcat(crc: bv32, a: seq<byte>, b: seq<byte>)
    ensures Crc32Update(Crc32Update(crc, a), b) == Crc32Update(crc, a + b)
  {
    RunConcat(Step32, Invert32(crc), a, b);
    Invert32Twice(Run(Step32, Invert32(crc), a));
  }
}
