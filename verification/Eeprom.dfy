/** The EEPROM image (src/storage.c): partitions of fixed-size records behind a header with a magic and a
    count. Records are packed little-endian structs that end in a CRC-32 of what precedes it. */
module Eeprom {
  import opened Basics
  import opened Pieces
  import opened Crc32Ieee

  const ROM_SIZE: nat := 0x40000    // 256 KB
  const HEADER: nat := 4            // STORAGE_HEADER_SIZE
  const MAGIC_0: byte := 0xDE
  const MAGIC_1: byte := 0xC7

  type Rom = r: seq<byte> | |r| == ROM_SIZE witness seq(ROM_SIZE, _ => 0xFF)

  // ------------------------------------------------------------ packed fields

  /** n bytes of v, least significant first. */
  function LittleEndian(v: nat, n: nat): (r: seq<byte>)
    ensures |r| == n
  {
    if n == 0 then [] else [v % 0x100] + LittleEndian(v / 0x100, n - 1)
  }

  function FromLittleEndian(b: seq<byte>): nat {
    if b == [] then 0 else b[0] + 0x100 * FromLittleEndian(b[1..])
  }

  /** One more than the largest value of n bytes. */
  function Limit(n: nat): nat {
    if n == 0 then 1 else 0x100 * Limit(n - 1)
  }

  lemma {:induction false} LittleEndianRoundTrip(v: nat, n: nat)
    requires v < Limit(n)
    ensures FromLittleEndian(LittleEndian(v, n)) == v
  {
    if n > 0 {
      LittleEndianRoundTrip(v / 0x100, n - 1);
      assert LittleEndian(v, n)[1..] == LittleEndian(v / 0x100, n - 1);
    }
  }

  /** The sum of the field widths. */
  function Total(ws: seq<nat>): nat {
    if ws == [] then 0 else ws[0] + Total(ws[1..])
  }

  predicate Fit(fs: seq<nat>, ws: seq<nat>) {
    |fs| == |ws| && forall i :: 0 <= i < |fs| ==> fs[i] < Limit(ws[i])
  }

  /** The fields of a packed struct one after the other. */
  function Pack(fs: seq<nat>, ws: seq<nat>): (b: seq<byte>)
    requires |fs| == |ws|
    ensures |b| == Total(ws)
  {
    if fs == [] then [] else LittleEndian(fs[0], ws[0]) + Pack(fs[1..], ws[1..])
  }

  function Unpack(b: seq<byte>, ws: seq<nat>): (fs: seq<nat>)
    requires |b| == Total(ws)
    ensures |fs| == |ws|
    decreases |ws|
  {
    if ws == [] then [] else [FromLittleEndian(b[..ws[0]])] + Unpack(b[ws[0]..], ws[1..])
  }

  /** Unpacking a packed struct gives its fields back. */
  lemma {:induction false} UnpackPack(fs: seq<nat>, ws: seq<nat>)
    requires Fit(fs, ws)
    ensures Unpack(Pack(fs, ws), ws) == fs
    decreases |fs|
  {
    if fs != [] {
      var head, tail := LittleEndian(fs[0], ws[0]), Pack(fs[1..], ws[1..]);
      assert Pack(fs, ws)[..ws[0]] == head && Pack(fs, ws)[ws[0]..] == tail;
      LittleEndianRoundTrip(fs[0], ws[0]);
      UnpackPack(fs[1..], ws[1..]);
    }
  }

  // ------------------------------------------------------------------ records

  /** A record: the packed fields and their checksum (write_entry_with_crc). */
  function Record(fs: seq<nat>, ws: seq<nat>): (b: seq<byte>)
    requires |fs| == |ws|
    ensures |b| == Total(ws) + 4
  {
    Pack(fs, ws) + LittleEndian(Crc32(Pack(fs, ws)), 4)
  }

  /** entry_crc_ok. */
  predicate CrcOk(b: seq<byte>)
    requires |b| >= 4
  {
    FromLittleEndian(b[|b| - 4..]) == Crc32(b[..|b| - 4])
  }

  /** The fields and the checksum of a record, if the checksum is right. */
  function ReadRecord(b: seq<byte>, ws: seq<nat>): (r: Option<(seq<nat>, nat)>)
    requires |b| == Total(ws) + 4
    ensures r.Some? ==> |r.value.0| == |ws|
  {
    if CrcOk(b) then Some((Unpack(b[..|b| - 4], ws), FromLittleEndian(b[|b| - 4..]))) else None
  }

  /** What is written reads back: the checksum matches and the fields are those written. */
  lemma RecordReads(fs: seq<nat>, ws: seq<nat>)
    requires Fit(fs, ws)
    ensures ReadRecord(Record(fs, ws), ws) == Some((fs, Crc32(Pack(fs, ws))))
  {
    var b, body := Record(fs, ws), Pack(fs, ws);
    assert b[..|b| - 4] == body && b[|b| - 4..] == LittleEndian(Crc32(body), 4);
    assert Limit(4) == 0x1_0000_0000 by {
      assert Limit(1) == 0x100 && Limit(2) == 0x1_0000 && Limit(3) == 0x100_0000;
    }
    LittleEndianRoundTrip(Crc32(body), 4);
    UnpackPack(fs, ws);
  }

  // --------------------------------------------------------------- partitions

  function Header(count: uint16): (b: seq<byte>)
    ensures |b| == HEADER
  {
    [MAGIC_0, MAGIC_1, count % 0x100, count / 0x100]
  }

  /** read_header. */
  function Count(rom: Rom, base: nat): uint16
    requires base + HEADER <= ROM_SIZE
  {
    if rom[base] != MAGIC_0 || rom[base + 1] != MAGIC_1 then 0
    else
      var lo: nat, hi: nat := rom[base + 2], rom[base + 3];
      lo + 0x100 * hi
  }

  /** Where record i of k bytes is. */
  function Addr(base: nat, k: nat, i: nat): nat {
    base + HEADER + i * k
  }

  function RecordAt(rom: Rom, base: nat, k: nat, i: nat): seq<byte>
    requires Addr(base, k, i) + k <= ROM_SIZE
  {
    rom[Addr(base, k, i)..Addr(base, k, i) + k]
  }

  /** The first n records of the partition are recs[..n]. */
  ghost predicate Stores(rom: Rom, base: nat, k: nat, recs: seq<seq<byte>>, n: nat) {
    && n <= |recs| && Addr(base, k, |recs|) <= ROM_SIZE
    && forall i :: 0 <= i < n ==>
         |recs[i]| == k && Addr(base, k, i) + k <= ROM_SIZE && RecordAt(rom, base, k, i) == recs[i]
  }

  /** The partition holds exactly these records. */
  ghost predicate ImageOf(rom: Rom, base: nat, k: nat, recs: seq<seq<byte>>) {
    base + HEADER <= ROM_SIZE && Stores(rom, base, k, recs, |recs|) && Count(rom, base) == |recs|
  }

  lemma AddrMono(base: nat, k: nat, i: nat, j: nat)
    requires i < j
    ensures Addr(base, k, i) + k == Addr(base, k, i + 1) <= Addr(base, k, j)
  {
    MulMono(i + 1, j, k);
    MulSucc(i, k);
  }

  /** A write that touches none of the first n records keeps them. */
  lemma StoresFrame(rom: Rom, base: nat, k: nat, recs: seq<seq<byte>>, n: nat, at: nat, b: seq<byte>)
    requires Stores(rom, base, k, recs, n) && at + |b| <= ROM_SIZE
    requires at + |b| <= base + HEADER || Addr(base, k, n) <= at
    ensures Stores(Splice(rom, at, b), base, k, recs, n)
  {
    forall i | 0 <= i < n
      ensures RecordAt(Splice(rom, at, b), base, k, i) == recs[i]
    {
      AddrMono(base, k, i, n);
      SpliceOutside(rom, at, b, Addr(base, k, i), Addr(base, k, i) + k);
    }
  }

  /** Writing record n after the first n. */
  lemma StoresNext(rom: Rom, base: nat, k: nat, recs: seq<seq<byte>>, n: nat)
    requires Stores(rom, base, k, recs, n) && n < |recs| && |recs[n]| == k
    ensures Addr(base, k, n) + k <= ROM_SIZE
    ensures Stores(Splice(rom, Addr(base, k, n), recs[n]), base, k, recs, n + 1)
  {
    AddrMono(base, k, n, |recs|);
    StoresFrame(rom, base, k, recs, n, Addr(base, k, n), recs[n]);
    SpliceInside(rom, Addr(base, k, n), recs[n]);
  }

  lemma HeaderCounts(rom: Rom, base: nat, count: uint16)
    requires base + HEADER <= ROM_SIZE
    ensures Count(Splice(rom, base, Header(count)), base) == count
  {
    var r := Splice(rom, base, Header(count));
    assert r[base] == MAGIC_0 && r[base + 1] == MAGIC_1 && r[base + 2] == count % 0x100 && r[base + 3] == count / 0x100;
  }

  /** Writing the header last makes the records current. */
  lemma HeaderSeals(rom: Rom, base: nat, k: nat, recs: seq<seq<byte>>)
    requires Stores(rom, base, k, recs, |recs|) && |recs| <= 0xFFFF
    ensures base + HEADER <= ROM_SIZE && ImageOf(Splice(rom, base, Header(|recs|)), base, k, recs)
  {
    StoresFrame(rom, base, k, recs, |recs|, base, Header(|recs|));
    HeaderCounts(rom, base, |recs|);
  }

  lemma CountFrame(rom: Rom, rom': Rom, base: nat)
    requires base + HEADER <= ROM_SIZE && rom'[base..base + HEADER] == rom[base..base + HEADER]
    ensures Count(rom', base) == Count(rom, base)
  {
    var x, y := rom[base..base + HEADER], rom'[base..base + HEADER];
    assert rom[base] == x[0] && rom[base + 1] == x[1] && rom[base + 2] == x[2] && rom[base + 3] == x[3];
    assert rom'[base] == y[0] && rom'[base + 1] == y[1] && rom'[base + 2] == y[2] && rom'[base + 3] == y[3];
  }

  /** The image of one partition does not depend on writes to another. */
  lemma ImageFrame(rom: Rom, rom': Rom, base: nat, k: nat, recs: seq<seq<byte>>, size: nat)
    requires ImageOf(rom, base, k, recs) && Addr(base, k, |recs|) <= base + size <= ROM_SIZE
    requires rom'[base..base + size] == rom[base..base + size]
    ensures ImageOf(rom', base, k, recs)
  {
    MulMono(0, |recs|, k);
    SubSlices(rom, rom', base, base + size, base, base + HEADER);
    CountFrame(rom, rom', base);
    forall i | 0 <= i < |recs|
      ensures RecordAt(rom', base, k, i) == recs[i]
    {
      RecordFrame(rom, rom', base, k, |recs|, i, size);
    }
  }

  lemma RecordFrame(rom: Rom, rom': Rom, base: nat, k: nat, n: nat, i: nat, size: nat)
    requires i < n && Addr(base, k, n) <= base + size <= ROM_SIZE
    requires rom'[base..base + size] == rom[base..base + size]
    ensures Addr(base, k, i) + k <= ROM_SIZE && RecordAt(rom', base, k, i) == RecordAt(rom, base, k, i)
  {
    AddrMono(base, k, i, n);
    MulMono(0, i, k);
    SubSlices(rom, rom', base, base + size, Addr(base, k, i), Addr(base, k, i) + k);
  }

  lemma SubSlices(a: seq<byte>, b: seq<byte>, lo: nat, hi: nat, x: nat, y: nat)
    requires |a| == |b| && lo <= x <= y <= hi <= |a| && a[lo..hi] == b[lo..hi]
    ensures a[x..y] == b[x..y]
  {
    forall i | x <= i < y
      ensures a[i] == b[i]
    {
      assert a[lo..hi][i - lo] == b[lo..hi][i - lo];
    }
  }

  // -------------------------------------------------------------------- flush

  /** Writes records i.. and then the header (flush_infra_to_eeprom, flush_sensors_to_eeprom); `good` EEPROM
      writes succeed. The flag says whether all did. */
  function Flush(rom: Rom, base: nat, k: nat, recs: seq<seq<byte>>, i: nat, good: nat): (r: (Rom, bool))
    requires i <= |recs| <= 0xFFFF && Addr(base, k, |recs|) <= ROM_SIZE
    requires forall j :: 0 <= j < |recs| ==> |recs[j]| == k
    decreases |recs| - i
  {
    if good == 0 then (rom, false)
    else if i == |recs| then (Splice(rom, base, Header(|recs|)), true)
    else
      AddrMono(base, k, i, |recs|);
      Flush(Splice(rom, Addr(base, k, i), recs[i]), base, k, recs, i + 1, good - 1)
  }

  lemma {:induction false} FlushStores(rom: Rom, base: nat, k: nat, recs: seq<seq<byte>>, i: nat, good: nat)
    requires i <= |recs| <= 0xFFFF && Stores(rom, base, k, recs, i) && forall j :: 0 <= j < |recs| ==> |recs[j]| == k
    ensures var (r, ok) := Flush(rom, base, k, recs, i, good); ok ==> ImageOf(r, base, k, recs)
    decreases |recs| - i
  {
    if good > 0 {
      if i == |recs| {
        HeaderSeals(rom, base, k, recs);
      } else {
        StoresNext(rom, base, k, recs, i);
        FlushStores(Splice(rom, Addr(base, k, i), recs[i]), base, k, recs, i + 1, good - 1);
      }
    }
  }

  /** A flush that succeeds leaves exactly these records; it writes nowhere else, successful or not. */
  lemma FlushImage(rom: Rom, base: nat, k: nat, recs: seq<seq<byte>>, good: nat)
    requires |recs| <= 0xFFFF && Addr(base, k, |recs|) <= ROM_SIZE && forall j :: 0 <= j < |recs| ==> |recs[j]| == k
    ensures var (r, ok) := Flush(rom, base, k, recs, 0, good); ok ==> ImageOf(r, base, k, recs)
  {
    FlushStores(rom, base, k, recs, 0, good);
  }

  lemma {:induction false} FlushElsewhere(rom: Rom, base: nat, k: nat, recs: seq<seq<byte>>, i: nat, good: nat,
                                          lo: nat, hi: nat)
    requires i <= |recs| <= 0xFFFF && Addr(base, k, |recs|) <= ROM_SIZE
    requires forall j :: 0 <= j < |recs| ==> |recs[j]| == k
    requires lo <= hi <= ROM_SIZE && (hi <= base || Addr(base, k, |recs|) <= lo)
    ensures Flush(rom, base, k, recs, i, good).0[lo..hi] == rom[lo..hi]
    decreases |recs| - i
  {
    if good > 0 {
      if i == |recs| {
        AddrMono(base, k, 0, |recs| + 1);
        MulMono(0, |recs|, k);
        SpliceOutside(rom, base, Header(|recs|), lo, hi);
      } else {
        AddrMono(base, k, i, |recs|);
        MulMono(0, i, k);
        SpliceOutside(rom, Addr(base, k, i), recs[i], lo, hi);
        FlushElsewhere(Splice(rom, Addr(base, k, i), recs[i]), base, k, recs, i + 1, good - 1, lo, hi);
      }
    }
  }

  // --------------------------------------------- one record at a time, in place

  /** storage_mesh_add: record n, then the header. */
  lemma AppendImage(rom: Rom, base: nat, k: nat, recs: seq<seq<byte>>, rec: seq<byte>)
    requires ImageOf(rom, base, k, recs) && |rec| == k && |recs| < 0xFFFF && Addr(base, k, |recs| + 1) <= ROM_SIZE
    ensures Addr(base, k, |recs|) + k <= ROM_SIZE
    ensures ImageOf(Splice(Splice(rom, Addr(base, k, |recs|), rec), base, Header(|recs| + 1)), base, k, recs + [rec])
  {
    var more := recs + [rec];
    assert Stores(rom, base, k, more, |recs|);
    StoresNext(rom, base, k, more, |recs|);
    HeaderSeals(Splice(rom, Addr(base, k, |recs|), rec), base, k, more);
  }

  /** storage_mesh_update: record i alone. */
  lemma UpdateImage(rom: Rom, base: nat, k: nat, recs: seq<seq<byte>>, i: nat, rec: seq<byte>)
    requires ImageOf(rom, base, k, recs) && |rec| == k && i < |recs|
    ensures Addr(base, k, i) + k <= ROM_SIZE
    ensures ImageOf(Splice(rom, Addr(base, k, i), rec), base, k, recs[i := rec])
  {
    AddrMono(base, k, i, |recs|);
    var r := Splice(rom, Addr(base, k, i), rec);
    SpliceInside(rom, Addr(base, k, i), rec);
    forall j | 0 <= j < |recs| && j != i
      ensures RecordAt(r, base, k, j) == recs[j]
    {
      OtherRecord(rom, base, k, |recs|, i, rec, j);
    }
    MulMono(0, i, k);
    SpliceOutside(rom, Addr(base, k, i), rec, base, base + HEADER);
    CountFrame(rom, r, base);
  }

  lemma OtherRecord(rom: Rom, base: nat, k: nat, n: nat, i: nat, rec: seq<byte>, j: nat)
    requires i < n && j < n && i != j && |rec| == k && Addr(base, k, n) <= ROM_SIZE
    ensures Addr(base, k, i) + k <= ROM_SIZE && Addr(base, k, j) + k <= ROM_SIZE
    ensures RecordAt(Splice(rom, Addr(base, k, i), rec), base, k, j) == RecordAt(rom, base, k, j)
  {
    AddrMono(base, k, i, n);
    AddrMono(base, k, j, n);
    if j < i {
      AddrMono(base, k, j, i);
    } else {
      AddrMono(base, k, i, j);
    }
    SpliceOutside(rom, Addr(base, k, i), rec, Addr(base, k, j), Addr(base, k, j) + k);
  }

  /** The records after the block move, before the header is written. */
  function Moved(rom: Rom, base: nat, k: nat, n: nat, i: nat): Rom
    requires i < n && Addr(base, k, n) <= ROM_SIZE
  {
    AddrMono(base, k, i, n);
    Splice(rom, Addr(base, k, i), rom[Addr(base, k, i + 1)..Addr(base, k, n)])
  }

  /** storage_mesh_remove: the records after i move up as one block, then the header. */
  function ShiftOut(rom: Rom, base: nat, k: nat, n: nat, i: nat): Rom
    requires i < n <= 0xFFFF && Addr(base, k, n) <= ROM_SIZE
  {
    MulMono(0, n, k);
    Splice(Moved(rom, base, k, n, i), base, Header(n - 1))
  }

  lemma MovedRecord(rom: Rom, base: nat, k: nat, recs: seq<seq<byte>>, i: nat, j: nat)
    requires Stores(rom, base, k, recs, |recs|) && i < |recs| && j < |recs| - 1
    ensures Addr(base, k, j) + k <= ROM_SIZE &&
              RecordAt(Moved(rom, base, k, |recs|, i), base, k, j) == Without(recs, i)[j]
  {
    var n := |recs|;
    AddrMono(base, k, i, n);
    AddrMono(base, k, j, n);
    if j < i {
      AddrMono(base, k, j, i);
      SpliceOutside(rom, Addr(base, k, i), rom[Addr(base, k, i + 1)..Addr(base, k, n)], Addr(base, k, j),
          Addr(base, k, j) + k);
    } else {
      ShiftedRecord(rom, base, k, n, i, j);
      assert RecordAt(rom, base, k, j + 1) == recs[j + 1];
    }
  }

  lemma MovedStores(rom: Rom, base: nat, k: nat, recs: seq<seq<byte>>, i: nat)
    requires Stores(rom, base, k, recs, |recs|) && i < |recs|
    ensures Stores(Moved(rom, base, k, |recs|, i), base, k, Without(recs, i), |recs| - 1)
  {
    AddrMono(base, k, |recs| - 1, |recs|);
    forall j | 0 <= j < |recs| - 1
      ensures Addr(base, k, j) + k <= ROM_SIZE &&
                RecordAt(Moved(rom, base, k, |recs|, i), base, k, j) == Without(recs, i)[j]
    {
      MovedRecord(rom, base, k, recs, i, j);
    }
  }

  lemma ShiftImage(rom: Rom, base: nat, k: nat, recs: seq<seq<byte>>, i: nat)
    requires ImageOf(rom, base, k, recs) && i < |recs| <= 0xFFFF
    ensures ImageOf(ShiftOut(rom, base, k, |recs|, i), base, k, Without(recs, i))
  {
    MovedStores(rom, base, k, recs, i);
    HeaderSeals(Moved(rom, base, k, |recs|, i), base, k, Without(recs, i));
  }

  /** After the block move, record j >= i is what record j + 1 was. */
  lemma ShiftedRecord(rom: Rom, base: nat, k: nat, n: nat, i: nat, j: nat)
    requires i <= j < n - 1 && Addr(base, k, n) <= ROM_SIZE
    ensures Addr(base, k, i + 1) <= Addr(base, k, n) && Addr(base, k, j) + k <= ROM_SIZE &&
              Addr(base, k, j + 1) + k <= ROM_SIZE
    ensures Addr(base, k, i) + (Addr(base, k, n) - Addr(base, k, i + 1)) <= ROM_SIZE
    ensures RecordAt(Splice(rom, Addr(base, k, i), rom[Addr(base, k, i + 1)..Addr(base, k, n)]), base, k, j) ==
              RecordAt(rom, base, k, j + 1)
  {
    AddrMono(base, k, i, n);
    AddrMono(base, k, i, j + 1);
    AddrMono(base, k, j, n);
    AddrMono(base, k, j + 1, n);
    var at, block := Addr(base, k, i), rom[Addr(base, k, i + 1)..Addr(base, k, n)];
    var r := Splice(rom, at, block);
    assert forall x :: at <= x < at + |block| ==> r[x] == rom[x + k];
  }

  lemma ShiftElsewhere(rom: Rom, base: nat, k: nat, n: nat, i: nat, lo: nat, hi: nat)
    requires i < n <= 0xFFFF && Addr(base, k, n) <= ROM_SIZE
    requires lo <= hi <= ROM_SIZE && (hi <= base || Addr(base, k, n) <= lo)
    ensures ShiftOut(rom, base, k, n, i)[lo..hi] == rom[lo..hi]
  {
    AddrMono(base, k, i, n);
    MulMono(0, i, k);
    SpliceOutside(rom, Addr(base, k, i), rom[Addr(base, k, i + 1)..Addr(base, k, n)], lo, hi);
    SpliceOutside(Moved(rom, base, k, n, i), base, Header(n - 1), lo, hi);
  }
}
