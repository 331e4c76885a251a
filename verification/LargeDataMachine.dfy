/** src/large_data.c as it runs: arrays for the slot table and the page map, the external RAM behind its
    driver, the flag ld_busy and the sender record. Every method is tied to the step function of the
    same operation, about which the other modules prove their results. */
module LargeDataMachine {
  import opened Basics
  import opened LargeDataTypes
  import opened Bitmaps
  import opened PsramDriver
  import opened Crc32Ieee
  import opened LargeDataStore
  import opened LargeDataReceiver
  import opened LargeDataSender
  import opened LargeDataTicks
  import opened LargeDataSerial
  import opened Crc16CcittFalse

  const NO_SLOT := -1

  /** The index a lookup returns, or NO_SLOT. */
  function AsIndex(o: Option<nat>): int {
    match o
    case None => NO_SLOT
    case Some(i) => i
  }

  function ZeroSlot(): Slot {
    Slot(false, false, false, false, 0, 0, 0, 0, 0, 0, 0, 0, 0, ClearBitmap(), 0, 0)
  }

  function ZeroSender(): Sender {
    Sender(false, 0, 0, 0, 0, 0, 0, 0, 0, 0, 0, 0)
  }

  lemma LeftmostRun(empty: seq<bool>, n: nat, p: nat)
    requires IsRun(empty, p, n) && forall q :: 0 <= q < p ==> !IsRun(empty, q, n)
    ensures RunFrom(empty, n, 0) == Some(p)
  {
  }

  lemma NoRun(empty: seq<bool>, n: nat)
    requires forall q :: 0 <= q && q + n <= |empty| ==> !IsRun(empty, q, n)
    ensures RunFrom(empty, n, 0) == None
  {
  }

  /** The size test of the scan stops it at the wanted number of pages. */
  lemma EnoughPages(avail: nat, size: nat)
    requires 1 <= avail <= PagesWanted(size)
    ensures avail * PAGE_SIZE >= size <==> avail == PagesWanted(size)
  {
    if size > 0 {
      CeilDivLeast(size, PAGE_SIZE);
    }
  }

  /** The scan's state: the last `avail` pages before i are empty, and no run of n pages ends before i. */
  ghost predicate Scanned(empty: seq<bool>, n: nat, i: nat, avail: nat) {
    && avail <= i <= |empty| && avail < n
    && (forall k :: i - avail <= k < i ==> empty[k])
    && (i - avail == 0 || !empty[i - avail - 1])
    && (forall q :: 0 <= q && q + n <= i ==> !IsRun(empty, q, n))
  }

  lemma ScanStep(empty: seq<bool>, n: nat, i: nat, avail: nat)
    requires Scanned(empty, n, i, avail) && i < |empty|
    ensures !empty[i] ==> Scanned(empty, n, i + 1, 0)
    ensures empty[i] && avail + 1 < n ==> Scanned(empty, n, i + 1, avail + 1)
    ensures empty[i] && avail + 1 == n ==> RunFrom(empty, n, 0) == Some(i - avail)
  {
    if empty[i] && avail + 1 == n {
      LeftmostRun(empty, n, i - avail);
    }
  }

  const CRC_FAIL := 2   // STATUS_CRC_FAIL

  lemma PlacedInside(sl: Slot)
    requires Placed(sl)
    ensures sl.base + sl.totalSize <= PSRAM_SIZE
  {
    TransferBounds(sl.totalSize);
  }

  /** One more stage of the checksum. */
  lemma NextStage(mem: seq<byte>, base: nat, offset: nat, n: nat)
    requires base + offset + n <= |mem|
    ensures Crc32Update(Crc32Update(0, mem[base..base + offset]), mem[base + offset..base + offset + n]) ==
              Crc32Update(0, mem[base..base + offset + n])
    ensures Crc32Update(0, mem[base..base]) == 0
  {
    Crc32UpdateConcat(0, mem[base..base + offset], mem[base + offset..base + offset + n]);
    assert mem[base..base + offset] + mem[base + offset..base + offset + n] == mem[base..base + offset + n];
    assert Crc32Update(0, mem[base..base]) == Invert32(Invert32(0));
    Invert32Twice(0);
  }

  function Claimed(s: Ld, idx: nat, first: nat, count: nat): Ld
    requires Shape(s) && idx < SLOTS && first + count <= MAX_PAGES
  {
    s.(slots := s.slots[idx := s.slots[idx].(active := true, base := LD_BASE + first * PAGE_SIZE)],
       empty := SetPages(s.empty, first, count, false))
  }

  function Indexed(r: (Ld, Option<nat>)): (Ld, int) {
    (r.0, AsIndex(r.1))
  }

  lemma ReserveClaims(s: Ld, size: nat, idx: nat, p: nat)
    requires Shape(s) && InactiveFrom(s.slots, 0) == idx < SLOTS && RunFrom(s.empty, PagesWanted(size), 0) == Some(p)
    ensures p + PagesWanted(size) <= MAX_PAGES
    ensures Reserve(s, size) == (Claimed(s, idx, p, PagesWanted(size)), Some(idx))
  {
  }

  /** After `done` full stages, crc is the checksum of the first offset bytes of the region. */
  ghost predicate ReadBack(mem: seq<byte>, sl: Slot, crc: bv32, left: nat, offset: nat, done: nat) {
    && sl.base + sl.totalSize <= |mem| && offset + left == sl.totalSize
    && (if left > 0 then offset == done * CRC_STAGE else sl.totalSize <= done * CRC_STAGE)
    && crc == Crc32Update(0, mem[sl.base..sl.base + offset])
  }

  /** crc32_ieee for the first stage, crc32_ieee_update for the others. */
  function Absorb(first: bool, crc: bv32, bytes: seq<byte>): bv32 {
    if first then Crc32Update(0, bytes) else Crc32Update(crc, bytes)
  }

  lemma AbsorbNext(mem: seq<byte>, base: nat, offset: nat, first: bool, crc: bv32, bytes: seq<byte>)
    requires base + offset + |bytes| <= |mem| && bytes == mem[base + offset..base + offset + |bytes|]
    requires crc == Crc32Update(0, mem[base..base + offset]) && (first ==> crc == 0)
    ensures Absorb(first, crc, bytes) == Crc32Update(0, mem[base..base + offset + |bytes|])
  {
    NextStage(mem, base, offset, |bytes|);
  }

  lemma ReadBackStep(mem: seq<byte>, sl: Slot, first: bool, crc: bv32, left: nat, offset: nat, done: nat,
                     bytes: seq<byte>)
    requires ReadBack(mem, sl, crc, left, offset, done) && left > 0 && (first ==> crc == 0)
    requires |bytes| == (if left > CRC_STAGE then CRC_STAGE else left)
    requires bytes == mem[sl.base + offset..sl.base + offset + |bytes|]
    ensures ReadBack(mem, sl, Absorb(first, crc, bytes), left - |bytes|, offset + |bytes|, done + 1)
  {
    AbsorbNext(mem, sl.base, offset, first, crc, bytes);
  }

  lemma ReadBackFails(mem: seq<byte>, sl: Slot, crc: bv32, left: nat, offset: nat, fault: nat)
    requires ReadBack(mem, sl, crc, left, offset, fault) && left > 0
    ensures !VerifyOk(mem, sl, fault)
  {
  }

  lemma ReadBackEnds(mem: seq<byte>, sl: Slot, crc: bv32, offset: nat, done: nat, fault: nat)
    requires ReadBack(mem, sl, crc, 0, offset, done) && done <= fault
    ensures VerifyOk(mem, sl, fault) <==> Value(crc) == sl.crc32
  {
  }

  /** Chunk k of the slot has its bitmap bit and its place in memory. */
  predicate Fits(sl: Slot, k: nat) {
    Placed(sl) && k < BitmapBits() && sl.lastChunkSize <= CHUNK && ChunkAddr(sl, k) + ChunkLen(sl, k) <= PSRAM_SIZE
  }

  /** What ValidateChunk makes of chunk k of slot idx, once it is accepted. */
  function Accepted(s: Ld, idx: nat, k: nat, p: ChunkPkt, good: nat, fault: nat): (Ld, Status)
    requires Shape(s) && idx < SLOTS && Fits(s.slots[idx], k) && |p.data| == CHUNK
  {
    var sl := s.slots[idx];
    var mem := Store(s.mem, ChunkAddr(sl, k), p.data[..ChunkLen(sl, k)], good);
    if !StoreOk(ChunkAddr(sl, k), ChunkLen(sl, k), good) then (s.(mem := mem), Failure)
    else Finish(s.(mem := mem, slots := s.slots[idx := Received(sl, k)]), idx, fault)
  }

  lemma AcceptedChunk(s: Ld, idx: nat, p: ChunkPkt, good: nat, fault: nat)
    requires Receiving(s) && |p.data| == CHUNK && FindSlot(s.slots, p.gen, p.dataId) == Some(idx)
    requires InRange(s.slots[idx], p) && !Has(s.slots[idx].bitmap, Linear(p.page, p.chunk))
    ensures idx < SLOTS && Fits(s.slots[idx], Linear(p.page, p.chunk))
    ensures ValidateChunk(s, p, good, fault) == Accepted(s, idx, Linear(p.page, p.chunk), p, good, fault)
  {
    ChunkInPages(s.slots[idx], Linear(p.page, p.chunk));
  }

  /** A sender record as a radio tick sets it up. */
  predicate Usable(snd: Sender) {
    0 < snd.lastChunkSize <= CHUNK && snd.base <= PSRAM_SIZE
  }

  /** The packets out are the first i of the window; what follows is the rest of it. */
  ghost predicate WindowFrom(s: Ld, out: seq<ChunkPkt>, i: nat, good: nat)
    requires Shape(s) && s.snd.lastChunkSize <= CHUNK
  {
    var end := s.snd.nextChunk + WINDOW;
    i <= good && Window(s, s.snd.nextChunk, end, good) ==
      (out + Window(s, s.snd.nextChunk + i, end, good - i).0, Window(s, s.snd.nextChunk + i, end, good - i).1)
  }

  lemma WindowStarts(s: Ld, good: nat)
    requires Shape(s) && s.snd.lastChunkSize <= CHUNK
    ensures WindowFrom(s, [], 0, good)
  {
    var w := Window(s, s.snd.nextChunk, s.snd.nextChunk + WINDOW, good);
    assert [] + w.0 == w.0;
  }

  /** The loop stops short: at the end of the transfer, or because a read fails. */
  lemma WindowStops(s: Ld, out: seq<ChunkPkt>, i: nat, good: nat)
    requires Shape(s) && s.snd.lastChunkSize <= CHUNK && i <= WINDOW && WindowFrom(s, out, i, good)
    ensures i == WINDOW || s.snd.nextChunk + i >= s.snd.totalChunks ==> SendNext(s, good) == (s, out, true)
    ensures var k := s.snd.nextChunk + i;
      i < WINDOW && k < s.snd.totalChunks && (good == i || s.snd.base + k * CHUNK + SendLen(s.snd, k) > PSRAM_SIZE) ==>
        SendNext(s, good) == (Deactivate(s), out, false)
  {
    assert out + [] == out;
  }

  lemma WindowStep(s: Ld, out: seq<ChunkPkt>, i: nat, good: nat)
    requires Shape(s) && s.snd.lastChunkSize <= CHUNK && i < WINDOW && WindowFrom(s, out, i, good)
    requires s.snd.nextChunk + i < s.snd.totalChunks && i < good
    requires s.snd.base + (s.snd.nextChunk + i) * CHUNK + SendLen(s.snd, s.snd.nextChunk + i) <= PSRAM_SIZE
    ensures var k := s.snd.nextChunk + i;
      WindowFrom(s, out + [Packet(s, k, k / CHUNKS_PER_PAGE % 0x100, k % CHUNKS_PER_PAGE)], i + 1, good)
  {
    var k := s.snd.nextChunk + i;
    var p := Packet(s, k, k / CHUNKS_PER_PAGE % 0x100, k % CHUNKS_PER_PAGE);
    var (rest, ok) := Window(s, k + 1, s.snd.nextChunk + WINDOW, good - i - 1);
    assert Window(s, k, s.snd.nextChunk + WINDOW, good - i) == ([p] + rest, ok);
    assert out + ([p] + rest) == (out + [p]) + rest;
  }

  /** The answer to an acknowledgement that is neither the last nor an abort. */
  function Answered(s: Ld, a: ChunkAck, good: nat): (Ld, seq<ChunkPkt>)
    requires Shape(s) && s.snd.lastChunkSize <= CHUNK
  {
    if a.status == Failure || a.status == InvalidParameter then
      var (t, again, ok) := Resend(s, a.page, a.chunk, good);
      if !ok then (t, again) else (CountAck(t, good - 1).0, again + CountAck(t, good - 1).1)
    else CountAck(s, good)
  }

  lemma AnsweredIs(s: Ld, role: DeviceType, a: ChunkAck, good: nat)
    requires Shape(s) && s.snd.lastChunkSize <= CHUNK && Counted(s, role, a)
    ensures HandleChunkAck(s, role, a, good) == Answered(s, a, good)
  {
  }

  lemma SerialFields(size: nat)
    requires 0 < size <= MAX_TRANSFER
    ensures var total := (size + AT_CHUNK - 1) / AT_CHUNK;
      && 1 <= total == AtChunks(size) <= 434 && size - (total - 1) * AT_CHUNK == LastPiece(size, AT_CHUNK) <= AT_CHUNK
      && (total + CHUNKS_PER_PAGE - 1) / CHUNKS_PER_PAGE == CeilDiv(total, CHUNKS_PER_PAGE) <= 14
  {
    TransferBounds(size);
    LastPieceBounds(size, AT_CHUNK);
  }

  class LargeData {
    const slots: array<Slot>
    const empty: array<bool>
    const ram: Psram
    const stage: array<byte>
    var busy: bool
    var snd: Sender

    ghost predicate Valid()
      reads this, ram
    {
      && slots.Length == SLOTS && empty.Length == MAX_PAGES && stage.Length == CRC_STAGE
      && ram.Valid() && ram.ready && stage != ram.data
    }

    ghost function Abs(): (s: Ld)
      reads this, slots, empty, ram, ram.data
      requires Valid()
      ensures Shape(s)
    {
      Ld(slots[..], empty[..], ram.data[..], busy, snd)
    }

    /** large_data_init on zeroed statics. */
    constructor (ram: Psram)
      requires ram.Valid() && ram.ready
      ensures Valid() && fresh(slots) && fresh(empty) && fresh(stage) && this.ram == ram && !busy && !snd.active
      ensures Ownership(Abs())
    {
      slots := new Slot[SLOTS](_ => ZeroSlot());
      empty := new bool[MAX_PAGES](_ => false);
      stage := new byte[CRC_STAGE](_ => 0);
      this.ram := ram;
      busy := false;
      snd := ZeroSender();
      new;
      for i := 0 to SLOTS
        modifies slots
        invariant forall k :: 0 <= k < i ==> !slots[k].active
      {
        slots[i] := slots[i].(active := false);
      }
      for i := 0 to MAX_PAGES
        modifies empty
        invariant forall k :: 0 <= k < i ==> empty[k]
      {
        empty[i] := true;
      }
      InitOwnership(Abs());
    }

    method FindLargeDataSlot(gen: uint16, dataId: uint8) returns (idx: int)
      requires Valid()
      ensures idx == AsIndex(FindSlot(slots[..], gen, dataId))
    {
      for i := 0 to SLOTS
        invariant forall j :: 0 <= j < i ==> !(slots[j].active && slots[j].gen == gen && slots[j].dataId == dataId)
      {
        if slots[i].active && slots[i].gen == gen && slots[i].dataId == dataId {
          return i;
        }
      }
      return NO_SLOT;
    }

    /** Sets the page map for count pages from first. */
    method MarkPages(first: nat, count: nat, v: bool)
      requires Valid() && first + count <= MAX_PAGES
      modifies empty
      ensures empty[..] == SetPages(old(empty[..]), first, count, v)
    {
      for j := first to first + count
        invariant forall k :: 0 <= k < MAX_PAGES ==> empty[k] == if first <= k < j then v else old(empty[k])
      {
        empty[j] := v;
      }
    }

    method FirstInactive() returns (idx: nat)
      requires Valid()
      ensures idx == InactiveFrom(slots[..], 0)
    {
      idx := 0;
      while idx < SLOTS
        invariant idx <= SLOTS
        invariant forall j :: 0 <= j < idx ==> slots[j].active
      {
        if !slots[idx].active {
          break;
        }
        idx := idx + 1;
      }
    }

    /** Takes count pages from first for slot idx. */
    method Claim(idx: nat, first: nat, count: nat)
      requires Valid() && idx < SLOTS && first + count <= MAX_PAGES
      modifies slots, empty
      ensures Abs() == Claimed(old(Abs()), idx, first, count)
    {
      MarkPages(first, count, false);
      slots[idx] := slots[idx].(active := true, base := LD_BASE + first * PAGE_SIZE);
    }

    method AllocLargeDataSlot(size: uint32) returns (idx: int)
      requires Valid()
      modifies slots, empty
      ensures (Abs(), idx) == Indexed(Reserve(old(Abs()), size))
    {
      var free := FirstInactive();
      if free >= SLOTS {
        return NO_SLOT;
      }
      ghost var n := PagesWanted(size);
      var avail := 0;
      for i := 0 to MAX_PAGES
        invariant Scanned(empty[..], n, i, avail)
        invariant empty[..] == old(empty[..]) && slots[..] == old(slots[..])
      {
        ScanStep(empty[..], n, i, avail);
        if empty[i] {
          avail := avail + 1;
          EnoughPages(avail, size);
          if avail * PAGE_SIZE >= size {
            ReserveClaims(Abs(), size, free, i - avail + 1);
            Claim(free, i - avail + 1, avail);
            return free;
          }
        } else {
          avail := 0;
        }
      }
      NoRun(empty[..], n);
      return NO_SLOT;
    }

    method FreeLargeDataSlot(idx: nat)
      requires Valid() && idx < SLOTS && Placed(slots[idx])
      modifies slots, empty
      ensures Abs() == Release(old(Abs()), idx)
    {
      slots[idx] := slots[idx].(active := false);
      var first := (slots[idx].base - LD_BASE) / PAGE_SIZE;
      var count := (slots[idx].totalSize + PAGE_SIZE - 1) / PAGE_SIZE;
      MarkPages(first, count, true);
    }

    /** One stage of the read-back. */
    method ReadStage(addr: nat, n: nat, ok: bool) returns (err: int, bytes: seq<byte>)
      requires Valid() && 0 < n <= CRC_STAGE && addr + n <= PSRAM_SIZE
      modifies stage
      ensures err == if ok then OK else EIO
      ensures |bytes| == n && (ok ==> bytes == ram.data[..][addr..addr + n])
    {
      TwoBursts(addr, n, 2);
      err := ram.Read(addr, stage, n, if ok then 2 else 0);
      bytes := stage[..n];
    }

    /** The staged read-back; read number `fault` fails, if the loop gets that far. */
    method VerifyCrc32(idx: nat, fault: nat) returns (err: int)
      requires Valid() && idx < SLOTS && Placed(slots[idx])
      modifies stage
      ensures err == 0 <==> VerifyOk(ram.data[..], slots[idx], fault)
    {
      var sl := slots[idx];
      ghost var mem := ram.data[..];
      PlacedInside(sl);
      NextStage(mem, sl.base, 0, 0);
      var crc: bv32, left: nat, offset: nat, first, done := 0, sl.totalSize, 0, true, 0;
      while left > 0
        invariant ReadBack(mem, sl, crc, left, offset, done) && done <= fault
        invariant first ==> crc == 0
      {
        var n := if left > CRC_STAGE then CRC_STAGE else left;
        var e, bytes := ReadStage(sl.base + offset, n, done != fault);
        if e != OK {
          ReadBackFails(mem, sl, crc, left, offset, fault);
          return e;
        }
        ReadBackStep(mem, sl, first, crc, left, offset, done, bytes);
        crc := Absorb(first, crc, bytes);
        first, done, offset, left := false, done + 1, offset + n, left - n;
      }
      ReadBackEnds(mem, sl, crc, offset, done, fault);
      return if Value(crc) != sl.crc32 then CRC_FAIL else 0;
    }

    method ValidateLargeDataSlot(p: InitPkt, priority: uint8) returns (st: Status)
      requires Valid() && InitAcceptable(p)
      modifies this, slots, empty
      ensures Valid() && (Abs(), st) == ValidateSlot(old(Abs()), p, priority)
    {
      if busy {
        return Busy;
      }
      var idx := FindLargeDataSlot(p.gen, p.dataId);
      if idx >= 0 {
        return if slots[idx].ready then Complete else AlreadyExists;
      }
      idx := AllocLargeDataSlot(p.totalSize);
      if idx < 0 {
        return ResourceUnavailable;
      }
      FillSlot(idx, p, priority);
      busy := true;
      return Success;
    }

    /** The fields of an INIT, written over what the slot had. */
    method FillSlot(idx: nat, p: InitPkt, priority: uint8)
      requires Valid() && idx < SLOTS && InitAcceptable(p)
      modifies slots
      ensures slots[..] == old(slots[..])[idx := Announced(old(slots[idx]), p, priority)]
    {
      TransferBounds(p.totalSize);
      slots[idx] := slots[idx].(active := true, ready := false, gen := p.gen, reportTime := p.reportTime,
        dataId := p.dataId, priority := priority, totalSize := p.totalSize, pageCount := p.pageCount,
        lastChunkSize := p.lastChunkSize, crc32 := p.crc32, received := 0,
        totalChunks := (p.totalSize + CHUNK - 1) / CHUNK, bitmap := ClearBitmap());
    }

    /** psram_write as a function of the memory before. */
    method WriteRam(addr: uint32, bytes: seq<byte>, good: nat) returns (err: int)
      requires Valid() && addr + |bytes| < 0x1_0000_0000
      modifies ram.data
      ensures err == OK <==> StoreOk(addr, |bytes|, good)
      ensures ram.data[..] == Store(old(ram.data[..]), addr, bytes, good)
    {
      ghost var before := ram.data[..];
      err := ram.Write(addr, bytes, good);
      if addr + |bytes| <= PSRAM_SIZE {
        StoredByPoints(before, ram.data[..], addr, bytes, good);
      }
    }

    method ValidateLargeDataChunk(p: ChunkPkt, good: nat, fault: nat) returns (st: Status)
      requires Valid() && Receiving(Abs()) && |p.data| == CHUNK
      modifies this, slots, empty, stage, ram.data
      ensures Valid() && (Abs(), st) == ValidateChunk(old(Abs()), p, good, fault)
    {
      var idx := FindLargeDataSlot(p.gen, p.dataId);
      if idx < 0 {
        return NotFound;
      }
      var sl := slots[idx];
      if p.page >= sl.pageCount || p.chunk >= CHUNKS_PER_PAGE || p.page * CHUNKS_PER_PAGE + p.chunk >= sl.totalChunks {
        return InvalidParameter;
      }
      var k := p.page * CHUNKS_PER_PAGE + p.chunk;
      if BitIn(sl.bitmap[k / 8], k % 8) {
        return AlreadyExists;
      }
      AcceptedChunk(Abs(), idx, p, good, fault);
      st := StoreChunk(idx, k, p, good, fault);
    }

    /** The middle of validate_large_data_chunk: a chunk not seen before is stored and counted. */
    method StoreChunk(idx: nat, k: nat, p: ChunkPkt, good: nat, fault: nat) returns (st: Status)
      requires Valid() && idx < SLOTS && Fits(slots[idx], k) && |p.data| == CHUNK
      modifies this, slots, empty, stage, ram.data
      ensures Valid() && (Abs(), st) == Accepted(old(Abs()), idx, k, p, good, fault)
    {
      ghost var s := Abs();
      var addr := slots[idx].base + k * CHUNK;
      var csz := if k == slots[idx].totalChunks - 1 then slots[idx].lastChunkSize else CHUNK;
      var err := WriteRam(addr, p.data[..csz], good);
      ghost var m := Store(s.mem, addr, p.data[..csz], good);
      assert Abs() == s.(mem := m);
      if err != OK {
        return Failure;
      }
      CountChunk(idx, k);
      assert Abs() == s.(mem := m, slots := s.slots[idx := Received(s.slots[idx], k)]);
      st := FinishReception(idx, fault);
    }

    method CountChunk(idx: nat, k: nat)
      requires Valid() && idx < SLOTS && k < BitmapBits()
      modifies slots
      ensures slots[..] == old(slots[..])[idx := Received(old(slots[idx]), k)]
    {
      var sl := slots[idx];
      slots[idx] := sl.(received := (sl.received + 1) % 0x1_0000,
                        bitmap := sl.bitmap[k / 8 := SetIn(sl.bitmap[k / 8], k % 8)]);
    }

    /** The end of validate_large_data_chunk: the last missing chunk triggers the checksum. */
    method FinishReception(idx: nat, fault: nat) returns (st: Status)
      requires Valid() && idx < SLOTS && Placed(slots[idx])
      modifies this, slots, empty, stage
      ensures Valid() && (Abs(), st) == Finish(old(Abs()), idx, fault)
    {
      if slots[idx].received >= slots[idx].totalChunks {
        var err := VerifyCrc32(idx, fault);
        if err != 0 {
          FreeLargeDataSlot(idx);
          busy := false;
          return CrcFail;
        }
        slots[idx] := slots[idx].(ready := true);
        busy := false;
      }
      return Success;
    }

    // ---------------------------------------------------------------- sending

    /** A chunk packet's data: csz bytes read from addr, the rest zero. */
    method ReadChunk(addr: uint32, csz: nat, ok: bool) returns (err: int, data: seq<byte>)
      requires Valid() && 0 < csz <= CHUNK && addr + csz < 0x1_0000_0000
      ensures err == OK <==> ok && addr + csz <= PSRAM_SIZE
      ensures err == OK ==> data == ram.data[..][addr..addr + csz] + seq(CHUNK - csz, _ => 0)
    {
      var buf := new byte[CHUNK](_ => 0);
      TwoBursts(addr, csz, 2);
      err := ram.Read(addr, buf, csz, if ok then 2 else 0);
      data := buf[..];
    }

    method SendNextLargeDataChunk(good: nat) returns (out: seq<ChunkPkt>, ok: bool)
      requires Valid() && Usable(snd)
      modifies this`snd
      ensures (Abs(), out, ok) == SendNext(old(Abs()), good)
    {
      ghost var s := Abs();
      out := [];
      WindowStarts(s, good);
      for i := 0 to WINDOW
        invariant Abs() == s && WindowFrom(s, out, i, good)
      {
        WindowStops(s, out, i, good);
        var k := snd.nextChunk + i;
        if k / CHUNKS_PER_PAGE * CHUNKS_PER_PAGE + k % CHUNKS_PER_PAGE >= snd.totalChunks {
          return out, true;
        }
        var p, err := MakePacket(k, k / CHUNKS_PER_PAGE % 0x100, k % CHUNKS_PER_PAGE, good > i);
        if err != OK {
          snd := snd.(active := false);
          return out, false;
        }
        WindowStep(s, out, i, good);
        assert p == Packet(s, k, k / CHUNKS_PER_PAGE % 0x100, k % CHUNKS_PER_PAGE);
        out := out + [p];
      }
      WindowStops(s, out, WINDOW, good);
      return out, true;
    }

    /** The packet for chunk k, labelled page and chunk. */
    method MakePacket(k: nat, page: uint8, chunk: uint8, ok: bool) returns (p: ChunkPkt, err: int)
      requires Valid() && Usable(snd) && k < 0x2_0000
      ensures err == OK <==> ok && snd.base + k * CHUNK + SendLen(snd, k) <= PSRAM_SIZE
      ensures err == OK ==> p == Packet(Abs(), k, page, chunk)
    {
      var csz := if k == snd.totalChunks - 1 then snd.lastChunkSize else CHUNK;
      var data;
      err, data := ReadChunk(snd.base + k * CHUNK, csz, ok);
      p := ChunkPkt(snd.gen, snd.dataId, page, chunk, data);
    }

    method ResendLargeDataChunk(page: uint8, chunk: uint8, good: nat) returns (out: seq<ChunkPkt>, ok: bool)
      requires Valid() && Usable(snd)
      modifies this`snd
      ensures (Abs(), out, ok) == Resend(old(Abs()), page, chunk, good)
    {
      var p, err := MakePacket(page * CHUNKS_PER_PAGE + chunk, page, chunk, good > 0);
      if err != OK {
        snd := snd.(active := false);
        return [], false;
      }
      return [p], true;
    }

    // --------------------------------------------------------------- handlers

    method HandleLargeDataInit(role: DeviceType, fromType: DeviceType, p: InitPkt, priority: uint8)
      returns (reply: Option<Status>)
      requires Valid()
      modifies this, slots, empty
      ensures Valid() && (Abs(), reply) == HandleInit(old(Abs()), role, fromType, p, priority)
    {
      if fromType == UnknownType {
        return None;
      }
      if p.totalSize == 0 || p.totalSize > MAX_TRANSFER || p.pageCount == 0 || p.lastChunkSize == 0 ||
          p.lastChunkSize > CHUNK {
        return Some(InvalidParameter);
      }
      match role
      case Gateway | Anchor =>
        if fromType == Anchor || fromType == Sensor {
          var st := ValidateLargeDataSlot(p, priority);
          return Some(st);
        }
        return None;
      case _ => return None;
    }

    method HandleLargeDataChunk(role: DeviceType, fromType: DeviceType, p: ChunkPkt, good: nat, fault: nat)
      returns (reply: Option<Status>)
      requires Valid() && (Relay(role) ==> Receiving(Abs())) && |p.data| == CHUNK
      modifies this, slots, empty, stage, ram.data
      ensures Valid() && (Abs(), reply) == HandleChunk(old(Abs()), role, fromType, p, good, fault)
    {
      match role
      case Gateway | Anchor =>
        if fromType == Anchor || fromType == Sensor {
          var st := ValidateLargeDataChunk(p, good, fault);
          return Some(st);
        }
        return None;
      case _ => return None;
    }

    /** The slot the sender works for is looked up and its is_sent set or cleared. */
    method FlagSent(sent: bool)
      requires Valid()
      modifies slots
      ensures Abs() == MarkSent(old(Abs()), sent)
    {
      var idx := FindLargeDataSlot(snd.gen, snd.dataId);
      if idx >= 0 {
        slots[idx] := slots[idx].(sent := sent);
      }
    }

    method HandleLargeDataInitAck(role: DeviceType, a: InitAck, good: nat) returns (out: seq<ChunkPkt>)
      requires Valid() && (Downstream(role) && snd.active ==> Usable(snd)) &&
                 (Downstream(role) ==> snd.lastChunkSize <= CHUNK)
      modifies this, slots
      ensures Valid() && (Abs(), out) == HandleInitAck(old(Abs()), role, a, good)
    {
      ghost var s := Abs();
      out := [];
      if (role != Anchor && role != Sensor) || (a.fromType != Gateway && a.fromType != Anchor) {
        return;
      }
      if !(snd.active && snd.gen == a.gen && snd.dataId == a.dataId) {
        return;
      }
      var idx := FindLargeDataSlot(snd.gen, snd.dataId);
      if idx < 0 {
        return;
      }
      if a.status == Busy {
        slots[idx] := slots[idx].(sent := false);
      } else if a.status == Success || a.status == AlreadyExists {
        if snd.dst != a.from {
          return;
        }
        var ok;
        out, ok := SendNextLargeDataChunk(good);
      } else if a.status == Complete {
        snd := snd.(active := false);
        slots[idx] := slots[idx].(transferred := true);
        busy := false;
        assert Abs() == Deactivate(s).(slots := s.slots[idx := s.slots[idx].(transferred := true)], busy := false);
      }
    }

    method HandleLargeDataChunkAck(role: DeviceType, a: ChunkAck, good: nat) returns (out: seq<ChunkPkt>)
      requires Valid() && (Downstream(role) && snd.active ==> Usable(snd)) &&
                 (Downstream(role) ==> snd.lastChunkSize <= CHUNK)
      modifies this, slots
      ensures Valid() && (Abs(), out) == HandleChunkAck(old(Abs()), role, a, good)
    {
      out := [];
      if !(snd.active && snd.gen == a.gen && snd.dataId == a.dataId) || snd.dst != a.from {
        return;
      }
      if (a.status == Success || a.status == AlreadyExists) && a.page == snd.pageCount - 1 &&
         snd.totalChunks > 0 && a.chunk == (snd.totalChunks - 1) % CHUNKS_PER_PAGE {
        FlagSent(true);
        return;
      }
      if (role != Anchor && role != Sensor) || (a.fromType != Gateway && a.fromType != Anchor) {
        return;
      }
      if a.status == NotFound || a.status == ResourceUnavailable || a.status == CrcFail {
        snd := snd.(active := false);
        FlagSent(false);
        return;
      }
      AnsweredIs(Abs(), role, a, good);
      out := AnswerChunkAck(a, good);
    }

    /** The end of handle_large_data_chunk_ack: repeat the chunk if asked to, then count. */
    method AnswerChunkAck(a: ChunkAck, good: nat) returns (out: seq<ChunkPkt>)
      requires Valid() && Usable(snd)
      modifies this`snd, slots
      ensures Valid() && (Abs(), out) == Answered(old(Abs()), a, good)
    {
      if a.status == Failure || a.status == InvalidParameter {
        var again, ok := ResendLargeDataChunk(a.page, a.chunk, good);
        if !ok {
          return again;
        }
        var more := CountChunkAck(good - 1);
        return again + more;
      }
      out := CountChunkAck(good);
    }

    /** The counting tail of handle_large_data_chunk_ack. */
    method CountChunkAck(good: nat) returns (out: seq<ChunkPkt>)
      requires Valid() && Usable(snd)
      modifies this`snd, slots
      ensures Valid() && (Abs(), out) == CountAck(old(Abs()), good)
    {
      snd := snd.(nextChunk := (snd.nextChunk + 1) % 0x1_0000);
      if snd.nextChunk % 4 != 0 {
        return [];
      }
      var ok;
      out, ok := SendNextLargeDataChunk(good);
      if !ok {
        FlagSent(false);
      }
    }

    // ------------------------------------------------------------------ ticks

    method FirstWaiting() returns (idx: nat)
      requires Valid()
      ensures idx == WaitingFrom(slots[..], 0)
    {
      idx := 0;
      while idx < SLOTS
        invariant idx <= SLOTS
        invariant forall j :: 0 <= j < idx ==> !(slots[j].active && slots[j].ready && !slots[j].sent)
      {
        if slots[idx].active && slots[idx].ready && !slots[idx].sent {
          break;
        }
        idx := idx + 1;
      }
    }

    /** anchor_large_data_tick and sensor_large_data_tick. */
    method RadioLargeDataTick(role: DeviceType, expired: bool, parent: uint16, now: int) returns (out: Option<InitPkt>)
      requires Valid() && Ownership(Abs())
      modifies this`snd, slots, empty
      ensures Valid() && (Abs(), out) == RadioTick(old(Abs()), role, expired, parent, now)
    {
      if snd.active {
        if expired {
          if role == Anchor {
            FlagSent(false);
          }
          snd := snd.(active := false);
        }
        return None;
      }
      var idx := FirstWaiting();
      if idx >= SLOTS {
        return None;
      }
      var sl := slots[idx];
      if sl.gen == 0 || sl.dataId == 0 || sl.totalSize == 0 || sl.pageCount == 0 || sl.totalChunks == 0 ||
         sl.lastChunkSize == 0 || sl.crc32 == 0 || sl.base == 0 {
        FreeLargeDataSlot(idx);
        return None;
      }
      snd := Sender(true, parent, sl.gen, sl.dataId, sl.priority, sl.totalSize, sl.pageCount, sl.lastChunkSize,
                    sl.totalChunks, 0, sl.crc32, sl.base);
      slots[idx] := sl.(sent := true);
      return Some(InitPkt(snd.gen, snd.dataId, now, snd.totalSize, sl.pageCount, snd.lastChunkSize, snd.crc32));
    }

    /** gateway_large_data_tick; the flag says whether AT#LDINIT went out. */
    method GatewayLargeDataTick(known: bool, written: bool) returns (announced: bool)
      requires Valid() && Ownership(Abs())
      modifies this`snd, slots, empty
      ensures Valid() && (Abs(), announced) == GatewayTick(old(Abs()), known, written)
    {
      if snd.active {
        return false;
      }
      var idx := FirstWaiting();
      if idx >= SLOTS {
        return false;
      }
      SetSerialSender(idx);
      if !known {
        var j := FindLargeDataSlot(snd.gen, snd.dataId);
        if j >= 0 {
          FreeLargeDataSlot(j);
        }
        snd := snd.(active := false);
        return false;
      }
      if !written {
        snd := snd.(active := false);
        return false;
      }
      slots[idx] := slots[idx].(sent := true);
      return true;
    }

    /** The sender record for slot idx, cut into serial chunks. */
    method SetSerialSender(idx: nat)
      requires Valid() && idx < SLOTS && 0 < slots[idx].totalSize <= MAX_TRANSFER
      modifies this`snd
      ensures snd == SerialSender(old(snd), slots[idx])
    {
      var sl := slots[idx];
      SerialFields(sl.totalSize);
      var total := (sl.totalSize + AT_CHUNK - 1) / AT_CHUNK;
      snd := Sender(true, snd.dst, sl.gen, sl.dataId, sl.priority, sl.totalSize,
                    (total + CHUNKS_PER_PAGE - 1) / CHUNKS_PER_PAGE, sl.totalSize - (total - 1) * AT_CHUNK,
                    total, 0, sl.crc32, sl.base);
    }

    // ---------------------------------------------------------- serial staging

    method CmdLdInitLine(d: Device, l: InitLine) returns (ok: bool)
      requires Valid()
      modifies slots, empty
      ensures Valid() && (Abs(), ok) == CmdLdInit(old(Abs()), d, l)
    {
      if d.role != Sensor || !d.paired {
        return false;
      }
      var crc := Crc16Ccitt(MetaBytes(l));
      if l.crc16 > 0xFFFF || Number(crc) != l.crc16 || l.sn != d.sn {
        return false;
      }
      if l.id > 0xFF || l.total == 0 || l.total > MAX_TRANSFER || l.chunks == 0 || l.chunks > 0xFFFF ||
         l.crc32 > 0xFFFF_FFFF || l.last == 0 || l.last > AT_CHUNK {
        return false;
      }
      if l.total != (l.chunks - 1) * AT_CHUNK + l.last {
        return false;
      }
      ok := ReserveStaging(d, l);
    }

    /** The accepting half of cmd_ld_init. */
    method ReserveStaging(d: Device, l: InitLine) returns (ok: bool)
      requires Valid() && InitLineOk(d, l)
      modifies slots, empty
      ensures Valid() && (Abs(), ok) == CmdLdInit(old(Abs()), d, l)
    {
      var idx := FindLargeDataSlot(d.id, l.id);
      if idx >= 0 {
        return false;
      }
      idx := AllocLargeDataSlot(l.total);
      if idx < 0 {
        return false;
      }
      InitLineConsistent(d, l);
      TransferBounds(l.total);
      slots[idx] := slots[idx].(ready := false, sent := false, transferred := false, gen := d.id, dataId := l.id,
        priority := 0, totalSize := l.total, totalChunks := l.chunks, lastChunkSize := l.last,
        pageCount := (l.chunks + CHUNKS_PER_PAGE - 1) / CHUNKS_PER_PAGE, crc32 := l.crc32, received := 0);
      return true;
    }

    method CmdLdChunkLine(d: Device, l: ChunkLine, good: nat, fault: nat) returns (ok: bool)
      requires Valid() && Ownership(Abs())
      modifies slots, empty, stage, ram.data
      ensures Valid() && (Abs(), ok) == CmdLdChunk(old(Abs()), d, l, good, fault)
    {
      if d.role != Sensor || |l.payload| == 0 || |l.payload| > AT_CHUNK {
        return false;
      }
      var crc := Crc16Ccitt(l.payload);
      if l.crc16 > 0xFFFF || Number(crc) != l.crc16 || l.sn != d.sn {
        return false;
      }
      if l.id > 0xFF || l.page > 0xFF || l.chunk >= CHUNKS_PER_PAGE {
        return false;
      }
      ok := StageLine(d, l, good, fault);
    }

    /** The part of cmd_ld_chunk after the checks on the line itself. */
    method StageLine(d: Device, l: ChunkLine, good: nat, fault: nat) returns (ok: bool)
      requires Valid() && Ownership(Abs()) && ChunkLineOk(d, l)
      modifies slots, empty, stage, ram.data
      ensures Valid() && (Abs(), ok) == CmdLdChunk(old(Abs()), d, l, good, fault)
    {
      var idx := FindLargeDataSlot(d.id, l.id);
      if idx < 0 {
        return false;
      }
      var k := l.page * CHUNKS_PER_PAGE + l.chunk;
      if k >= slots[idx].totalChunks || |l.payload| != ExpectedLen(slots[idx], k) {
        return false;
      }
      if slots[idx].received > k {
        return true;
      }
      ok := StageChunk(idx, k, l.payload, good, fault);
    }

    /** The writing half of cmd_ld_chunk. */
    method StageChunk(idx: nat, k: nat, payload: seq<byte>, good: nat, fault: nat) returns (ok: bool)
      requires Valid() && idx < SLOTS && Placed(slots[idx]) &&
                 slots[idx].base + k * AT_CHUNK + |payload| < 0x1_0000_0000
      modifies slots, empty, stage, ram.data
      ensures Valid() && (Abs(), ok) == StagedChunk(old(Abs()), idx, k, payload, good, fault)
    {
      ghost var s := Abs();
      var addr := slots[idx].base + k * AT_CHUNK;
      var err := WriteRam(addr, payload, good);
      assert Abs() == s.(mem := Store(s.mem, addr, payload, good));
      if err != OK {
        FreeLargeDataSlot(idx);
        return false;
      }
      slots[idx] := slots[idx].(received := (slots[idx].received + 1) % 0x1_0000);
      assert Abs() == s.(mem := Store(s.mem, addr, payload, good), slots := s.slots[idx := CountSerial(s.slots[idx])]);
      ok := FinishStagedSlot(idx, fault);
    }

    /** The end of cmd_ld_chunk: after the last serial chunk, check the whole and cut it for the radio. */
    method FinishStagedSlot(idx: nat, fault: nat) returns (ok: bool)
      requires Valid() && idx < SLOTS && Placed(slots[idx])
      modifies slots, empty, stage
      ensures Valid() && (Abs(), ok) == FinishStaging(old(Abs()), idx, fault)
    {
      if slots[idx].received >= slots[idx].totalChunks {
        var err := VerifyCrc32(idx, fault);
        if err != 0 {
          FreeLargeDataSlot(idx);
          return false;
        }
        RecutSlot(idx);
      }
      return true;
    }

    method RecutSlot(idx: nat)
      requires Valid() && idx < SLOTS && Placed(slots[idx])
      modifies slots
      ensures slots[..] == old(slots[..])[idx := Recut(old(slots[idx]))]
    {
      var sl := slots[idx];
      TransferBounds(sl.totalSize);
      LastPieceBounds(sl.totalSize, CHUNK);
      var total := (sl.totalSize + CHUNK - 1) / CHUNK;
      slots[idx] := sl.(totalChunks := total, lastChunkSize := sl.totalSize - (total - 1) * CHUNK,
        pageCount := (total + CHUNKS_PER_PAGE - 1) / CHUNKS_PER_PAGE, received := total, ready := true);
    }

    // -------------------------------------------------- the gateway's host side

    /** at_send_next_chunk; dev is device_id_cache, readOk and writeOk say whether the memory read and the
        serial write succeed. */
    method AtSendNextChunk(dev: uint16, page: nat, chunk: nat, readOk: bool,
                           writeOk: bool) returns (out: Option<LdLine>)
      requires Valid() && (snd.active ==> 0 < snd.lastChunkSize <= AT_CHUNK && snd.base <= PSRAM_SIZE)
      ensures out == AtSend(Abs(), dev, page, chunk, readOk && writeOk)
    {
      if !snd.active || page >= snd.pageCount || chunk >= CHUNKS_PER_PAGE {
        return None;
      }
      var k := page * CHUNKS_PER_PAGE + chunk;
      if k >= snd.totalChunks || snd.nextChunk >= snd.totalChunks {
        return None;
      }
      var csz := if k == snd.totalChunks - 1 then snd.lastChunkSize else AT_CHUNK;
      var err, payload := ReadPayload(snd.base + k * AT_CHUNK, csz, readOk);
      if err != OK || !writeOk {
        return None;
      }
      return Some(LdLine(dev, snd.dataId, page, chunk, payload));
    }

    method ReadPayload(addr: uint32, csz: nat, ok: bool) returns (err: int, payload: seq<byte>)
      requires Valid() && 0 < csz <= AT_CHUNK && addr + csz < 0x1_0000_0000
      ensures err == OK <==> ok && addr + csz <= PSRAM_SIZE
      ensures err == OK ==> payload == ram.data[..][addr..addr + csz]
    {
      var buf := new byte[AT_CHUNK](_ => 0);
      TwoBursts(addr, csz, 2);
      err := ram.Read(addr, buf, csz, if ok then 2 else 0);
      payload := buf[..csz];
    }

    /** cmd_ld_chunk_ack on the OK that follows the host's #LD line. */
    method CmdLdChunkReady(dev: uint16, readOk: bool, writeOk: bool) returns (out: Option<LdLine>)
      requires Valid() && snd.totalChunks > 0 && 0 < snd.lastChunkSize <= AT_CHUNK && snd.base <= PSRAM_SIZE
      modifies this`snd, slots
      ensures Valid() && (Abs(), out) == NextLine(old(Abs()), dev, readOk && writeOk)
    {
      if snd.nextChunk >= snd.totalChunks - 1 {
        snd := snd.(active := false);
        var idx := FindLargeDataSlot(snd.gen, snd.dataId);
        if idx >= 0 {
          slots[idx] := slots[idx].(transferred := true);
        }
        return None;
      }
      snd := snd.(nextChunk := snd.nextChunk + 1);
      out := AtSendNextChunk(dev, snd.nextChunk / CHUNKS_PER_PAGE, snd.nextChunk % CHUNKS_PER_PAGE, readOk, writeOk);
    }
  }
}
