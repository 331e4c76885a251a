/** Staging a blob on the sensor that generates it: the serial chunks arrive in order, a chunk that
    was already staged may be repeated. */
module LargeDataStaging {
  import opened Basics
  import opened Pieces
  import opened LargeDataTypes
  import opened PsramDriver
  import opened Crc32Ieee
  import opened LargeDataStore
  import opened LargeDataReceiver
  import opened LargeDataSerial
  import opened LargeDataContent

  /** The bookkeeping of a slot on a sensor: serial counts while it is staged, radio counts after. */
  ghost predicate Booked(sl: Slot) {
    && Placed(sl)
    && if sl.ready then sl.received == sl.totalChunks == Chunks(sl.totalSize) && sl.lastChunkSize <= CHUNK
       else sl.totalChunks == AtChunks(sl.totalSize) && sl.received < sl.totalChunks
  }

  ghost predicate StagingBooks(s: Ld) {
    Ownership(s) && forall i :: 0 <= i < SLOTS && s.slots[i].active ==> Booked(s.slots[i])
  }

  /** The size a serial chunk must have is the size of that piece of the blob. */
  lemma ExpectedIsPiece(sl: Slot, k: nat)
    requires Booked(sl) && !sl.ready && k < sl.totalChunks
    ensures k * AT_CHUNK + ExpectedLen(sl, k) == PieceEnd(sl.totalSize, AT_CHUNK, k) <= sl.totalSize
  {
    PieceStart(sl.totalSize, AT_CHUNK, k);
    PieceExists(sl.totalSize, AT_CHUNK, k + 1);
  }

  lemma SerialInitBooks(s: Ld, d: Device, l: InitLine)
    requires StagingBooks(s)
    ensures StagingBooks(CmdLdInit(s, d, l).0) && CmdLdInit(s, d, l).0.mem == s.mem
  {
    if InitLineOk(d, l) && FindSlot(s.slots, d.id, l.id).None? && Place(s, l.total).Some? {
      var (i, _) := Place(s, l.total).value;
      var t := CmdLdInit(s, d, l).0;
      AllocKeepsOwnership(s, l.total, Staged(s.slots[i], d, l));
      InitLineConsistent(d, l);
      TransferBounds(l.total);
      PlacedAt(s, l.total, Staged(s.slots[i], d, l));
      assert forall j :: 0 <= j < SLOTS && j != i ==> t.slots[j] == s.slots[j];
    }
  }

  /** The line reaches the memory write of cmd_ld_chunk for slot i. */
  predicate Writes(s: Ld, d: Device, l: ChunkLine, i: nat)
    requires Shape(s)
  {
    && i < SLOTS && ChunkLineOk(d, l) && FindSlot(s.slots, d.id, l.id) == Some(i)
    && Linear(l.page, l.chunk) < s.slots[i].totalChunks
    && |l.payload| == ExpectedLen(s.slots[i], Linear(l.page, l.chunk))
    && s.slots[i].received <= Linear(l.page, l.chunk)
  }

  /** A line that does not reach the write changes nothing at all; in particular no line writes to a
      slot that is complete. */
  lemma OnlyWritesChange(s: Ld, d: Device, l: ChunkLine, good: nat, fault: nat)
    requires StagingBooks(s)
    ensures (forall i: nat :: !Writes(s, d, l, i)) ==> CmdLdChunk(s, d, l, good, fault).0 == s
    ensures forall i: nat :: Writes(s, d, l, i) ==> s.slots[i].active && !s.slots[i].ready
  {
    if ChunkLineOk(d, l) {
      var f := FindSlot(s.slots, d.id, l.id);
      if f.Some? {
        assert Writes(s, d, l, f.value) || !Writes(s, d, l, f.value);
      }
    }
  }

  /** The state after the write and the count. */
  function Written(s: Ld, l: ChunkLine, i: nat, good: nat): Ld
    requires Shape(s) && i < SLOTS
  {
    s.(mem := Store(s.mem, s.slots[i].base + Linear(l.page, l.chunk) * AT_CHUNK, l.payload, good),
       slots := s.slots[i := CountSerial(s.slots[i])])
  }

  lemma ChunkOutcome(s: Ld, d: Device, l: ChunkLine, good: nat, fault: nat, i: nat)
    requires Ownership(s) && Writes(s, d, l, i)
    ensures var addr := s.slots[i].base + Linear(l.page, l.chunk) * AT_CHUNK;
      && 0 < s.slots[i].totalSize <= MAX_TRANSFER
      && CmdLdChunk(s, d, l, good, fault) ==
           if StoreOk(addr, |l.payload|, good) then FinishStaging(Written(s, l, i, good), i, fault)
           else (Release(s.(mem := Store(s.mem, addr, l.payload, good)), i), false)
  {
    ChunkStaged(s, d, l, good, fault, i);
    StagedOutcome(s, i, l, good, fault);
  }

  /** The line passes the checks and comes to the write. */
  lemma ChunkStaged(s: Ld, d: Device, l: ChunkLine, good: nat, fault: nat, i: nat)
    requires Ownership(s) && Writes(s, d, l, i)
    ensures Placed(s.slots[i])
    ensures CmdLdChunk(s, d, l, good, fault) == StagedChunk(s, i, Linear(l.page, l.chunk), l.payload, good, fault)
  {
    assert s.slots[i].active;
  }

  /** The write succeeds or fails. */
  lemma StagedOutcome(s: Ld, i: nat, l: ChunkLine, good: nat, fault: nat)
    requires Shape(s) && i < SLOTS && Placed(s.slots[i])
    ensures var addr := s.slots[i].base + Linear(l.page, l.chunk) * AT_CHUNK;
      StagedChunk(s, i, Linear(l.page, l.chunk), l.payload, good, fault) ==
        if StoreOk(addr, |l.payload|, good) then FinishStaging(Written(s, l, i, good), i, fault)
        else (Release(s.(mem := Store(s.mem, addr, l.payload, good)), i), false)
  {
    var addr := s.slots[i].base + Linear(l.page, l.chunk) * AT_CHUNK;
    var stored := s.(mem := Store(s.mem, addr, l.payload, good));
    assert stored.(slots := s.slots[i := CountSerial(s.slots[i])]) == Written(s, l, i, good);
  }

  lemma ReleaseBooks(s: Ld, i: nat)
    requires Ownership(s) && i < SLOTS && s.slots[i].active
    requires forall j :: 0 <= j < SLOTS && j != i && s.slots[j].active ==> Booked(s.slots[j])
    ensures StagingBooks(Release(s, i))
  {
    ReleaseKeepsOwnership(s, i);
  }

  lemma FinishBooks(s: Ld, i: nat, fault: nat)
    requires Ownership(s) && i < SLOTS && s.slots[i].active && !s.slots[i].ready
    requires s.slots[i].totalChunks == AtChunks(s.slots[i].totalSize)
    requires forall j :: 0 <= j < SLOTS && j != i && s.slots[j].active ==> Booked(s.slots[j])
    ensures StagingBooks(FinishStaging(s, i, fault).0)
  {
    var t := FinishStaging(s, i, fault).0;
    if s.slots[i].received < s.slots[i].totalChunks {
    } else if VerifyOk(s.mem, s.slots[i], fault) {
      SameFootprint(s, t, i);
    } else {
      ReleaseBooks(s, i);
    }
  }

  /** Any serial line, in order or not, keeps the bookkeeping, and stores only inside the region of the
      incomplete slot it names. */
  lemma SerialChunkBooks(s: Ld, d: Device, l: ChunkLine, good: nat, fault: nat)
    requires StagingBooks(s)
    ensures StagingBooks(CmdLdChunk(s, d, l, good, fault).0)
  {
    OnlyWritesChange(s, d, l, good, fault);
    if i: nat :| Writes(s, d, l, i) {
      ChunkOutcome(s, d, l, good, fault, i);
      StagedBooks(s, i, l, good, fault);
    }
  }

  lemma StagedBooks(s: Ld, i: nat, l: ChunkLine, good: nat, fault: nat)
    requires StagingBooks(s) && i < SLOTS && s.slots[i].active && !s.slots[i].ready
    ensures StagingBooks(StagedChunk(s, i, Linear(l.page, l.chunk), l.payload, good, fault).0)
  {
    StagedOutcome(s, i, l, good, fault);
    var addr := s.slots[i].base + Linear(l.page, l.chunk) * AT_CHUNK;
    if StoreOk(addr, |l.payload|, good) {
      WrittenBooks(s, l, i, good, fault);
    } else {
      var t := s.(mem := Store(s.mem, addr, l.payload, good));
      SameSlotsOwnership(s, t);
      ReleaseBooks(t, i);
    }
  }

  lemma WrittenBooks(s: Ld, l: ChunkLine, i: nat, good: nat, fault: nat)
    requires StagingBooks(s) && i < SLOTS && s.slots[i].active && !s.slots[i].ready
    ensures StagingBooks(FinishStaging(Written(s, l, i, good), i, fault).0)
  {
    SameFootprint(s, Written(s, l, i, good), i);
    FinishBooks(Written(s, l, i, good), i, fault);
  }

  // -------------------------------------------------------------- isolation

  lemma FinishTouchesOne(s: Ld, i: nat, fault: nat, j: nat)
    requires Shape(s) && i < SLOTS && 0 < s.slots[i].totalSize <= MAX_TRANSFER && j < SLOTS && i != j
    ensures var t := FinishStaging(s, i, fault).0; t.snd == s.snd && t.slots[j] == s.slots[j] && t.mem == s.mem
  {
  }

  lemma WriteKeepsOthers(s: Ld, d: Device, l: ChunkLine, good: nat, fault: nat, i: nat, j: nat)
    requires StagingBooks(s) && Writes(s, d, l, i) && j < SLOTS && i != j && s.slots[j].active
    ensures var t := CmdLdChunk(s, d, l, good, fault).0;
      t.snd == s.snd && t.slots[j] == s.slots[j] && Region(t.mem, s.slots[j]) == Region(s.mem, s.slots[j])
  {
    WriteInRegion(s, d, l, i);
    RegionElsewhere(s, i, j, Linear(l.page, l.chunk) * AT_CHUNK, l.payload, good);
    WriteOutcome(s, d, l, good, fault, i, j);
  }

  lemma WriteOutcome(s: Ld, d: Device, l: ChunkLine, good: nat, fault: nat, i: nat, j: nat)
    requires StagingBooks(s) && Writes(s, d, l, i) && j < SLOTS && i != j
    ensures var t := CmdLdChunk(s, d, l, good, fault).0;
      && t.snd == s.snd && t.slots[j] == s.slots[j]
      && t.mem == Store(s.mem, s.slots[i].base + Linear(l.page, l.chunk) * AT_CHUNK, l.payload, good)
  {
    ChunkOutcome(s, d, l, good, fault, i);
    FinishTouchesOne(Written(s, l, i, good), i, fault, j);
  }

  /** Once a staged slot is complete no serial line whatsoever changes its record or its region. */
  lemma SerialReadyFrozen(s: Ld, d: Device, l: ChunkLine, good: nat, fault: nat, j: nat)
    requires StagingBooks(s) && j < SLOTS && s.slots[j].active && s.slots[j].ready
    ensures var t := CmdLdChunk(s, d, l, good, fault).0;
      t.slots[j] == s.slots[j] && Region(t.mem, s.slots[j]) == Region(s.mem, s.slots[j])
  {
    OnlyWritesChange(s, d, l, good, fault);
    if i: nat :| Writes(s, d, l, i) {
      WriteKeepsOthers(s, d, l, good, fault, i, j);
    }
  }

  // ---------------------------------------------------------------- content

  /** The first `received` serial chunks of the region are the blob's; after completion all of it is. */
  ghost predicate StagedContent(mem: seq<byte>, sl: Slot, blobs: Blobs) {
    sl.active ==>
      && (sl.gen, sl.dataId) in blobs
      && var b := blobs[(sl.gen, sl.dataId)];
      if sl.ready then Whole(mem, sl, b)
      else StagedPrefix(mem, sl, b)
  }

  ghost predicate StagedPrefix(mem: seq<byte>, sl: Slot, b: Blob) {
    sl.totalSize == |b| && sl.crc32 == Crc32(b) && HoldsFirst(Region(mem, sl), b, AT_CHUNK, sl.received)
  }

  ghost predicate Staging(s: Ld, blobs: Blobs) {
    StagingBooks(s) && forall i :: 0 <= i < SLOTS ==> StagedContent(s.mem, s.slots[i], blobs)
  }

  /** The host announces and cuts the blob of its key. */
  ghost predicate GenuineInitLine(d: Device, l: InitLine, blobs: Blobs) {
    l.id <= 0xFF ==> (d.id, l.id) in blobs && l.total == |blobs[(d.id, l.id)]| && l.crc32 == Crc32(blobs[(d.id, l.id)])
  }

  ghost predicate GenuineChunkLine(d: Device, l: ChunkLine, blobs: Blobs) {
    l.id <= 0xFF && (d.id, l.id) in blobs ==>
      var b, k := blobs[(d.id, l.id)], Linear(l.page, l.chunk);
      k < AtChunks(|b|) ==> l.payload == Piece(b, AT_CHUNK, k)
  }

  /** The host sends the next chunk or repeats an earlier one; it never runs ahead. */
  ghost predicate NotAhead(s: Ld, d: Device, l: ChunkLine)
    requires Shape(s)
  {
    forall i: nat :: Writes(s, d, l, i) ==> Linear(l.page, l.chunk) <= s.slots[i].received
  }

  lemma SerialInitContent(s: Ld, d: Device, l: InitLine, blobs: Blobs)
    requires Staging(s, blobs) && GenuineInitLine(d, l, blobs)
    ensures Staging(CmdLdInit(s, d, l).0, blobs)
  {
    SerialInitBooks(s, d, l);
    if InitLineOk(d, l) && FindSlot(s.slots, d.id, l.id).None? && Place(s, l.total).Some? {
      var (i, _) := Place(s, l.total).value;
      var t := CmdLdInit(s, d, l).0;
      PlacedAt(s, l.total, Staged(s.slots[i], d, l));
      RegionInside(t.mem, t.slots[i]);
      assert forall j :: 0 <= j < SLOTS && j != i ==> t.slots[j] == s.slots[j];
    }
  }

  /** Writing the next serial chunk of a slot extends the prefix it holds. */
  lemma StoreSerial(mem: seq<byte>, sl: Slot, b: Blob, p: seq<byte>, good: nat)
    requires |mem| == PSRAM_SIZE && Placed(sl) && StagedPrefix(mem, sl, b) && sl.received < AtChunks(|b|)
    requires p == Piece(b, AT_CHUNK, sl.received) && StoreOk(sl.base + sl.received * AT_CHUNK, |p|, good)
    ensures StagedPrefix(Store(mem, sl.base + sl.received * AT_CHUNK, p, good), CountSerial(sl), b)
  {
    HoldsNext(Region(mem, sl), b, AT_CHUNK, sl.received);
    RegionAfterFullStore(mem, sl, sl.received * AT_CHUNK, p, good);
    CountedPrefixExact(Store(mem, sl.base + sl.received * AT_CHUNK, p, good), sl, b);
  }

  lemma CountsOn(mem: seq<byte>, sl: Slot, b: Blob)
    requires sl.received < AtChunks(|b|)
    ensures CountSerial(sl).received == sl.received + 1 && Region(mem, CountSerial(sl)) == Region(mem, sl)
  {
    TransferBounds(|b|);
    SameRegion(mem, sl, CountSerial(sl));
  }

  lemma SameRegion(mem: seq<byte>, a: Slot, b: Slot)
    requires a.base == b.base && a.totalSize == b.totalSize
    ensures Region(mem, a) == Region(mem, b)
  {
  }

  lemma OtherStaged(s: Ld, blobs: Blobs, i: nat, j: nat, off: nat, data: seq<byte>, good: nat)
    requires Staging(s, blobs) && i < SLOTS && j < SLOTS && i != j && s.slots[i].active
    requires off + |data| <= s.slots[i].totalSize
    ensures StagedContent(Store(s.mem, s.slots[i].base + off, data, good), s.slots[j], blobs)
  {
    if s.slots[j].active {
      RegionElsewhere(s, i, j, off, data, good);
    }
  }

  /** After the last serial chunk, the slot holds the whole blob, cut for the radio. */
  lemma RecutWhole(mem: seq<byte>, sl: Slot, b: Blob)
    requires |mem| == PSRAM_SIZE && Placed(sl) && StagedPrefix(mem, sl, b) && sl.received == AtChunks(|b|)
    ensures Whole(mem, Recut(sl), b)
  {
    PiecesDetermine(Region(mem, sl), b, AT_CHUNK);
    TransferBounds(|b|);
    SameRegion(mem, sl, Recut(sl));
  }

  /** Everything but slot i, whose content is given separately. */
  ghost predicate StagedBut(s: Ld, i: nat, blobs: Blobs) {
    Shape(s) && forall j :: 0 <= j < SLOTS && j != i ==> StagedContent(s.mem, s.slots[j], blobs)
  }

  lemma FinishContent(s: Ld, i: nat, fault: nat, blobs: Blobs)
    requires StagedBut(s, i, blobs) && i < SLOTS && s.slots[i].active && !s.slots[i].ready && Placed(s.slots[i])
    requires (s.slots[i].gen, s.slots[i].dataId) in blobs
    requires StagedPrefix(s.mem, s.slots[i], blobs[(s.slots[i].gen, s.slots[i].dataId)])
    requires s.slots[i].totalChunks == AtChunks(s.slots[i].totalSize)
    ensures var t := FinishStaging(s, i, fault).0;
      forall j :: 0 <= j < SLOTS ==> StagedContent(t.mem, t.slots[j], blobs)
  {
    var t := FinishStaging(s, i, fault).0;
    var b := blobs[(s.slots[i].gen, s.slots[i].dataId)];
    assert forall j :: 0 <= j < SLOTS && j != i ==> t.slots[j] == s.slots[j];
    if s.slots[i].received >= s.slots[i].totalChunks {
      RecutWhole(s.mem, s.slots[i], b);
    }
  }

  lemma OthersStaged(s: Ld, blobs: Blobs, i: nat, off: nat, data: seq<byte>, good: nat)
    requires Staging(s, blobs) && i < SLOTS && s.slots[i].active && off + |data| <= s.slots[i].totalSize
    ensures StagedBut(s.(mem := Store(s.mem, s.slots[i].base + off, data, good)), i, blobs)
  {
    forall j | 0 <= j < SLOTS && j != i
      ensures StagedContent(Store(s.mem, s.slots[i].base + off, data, good), s.slots[j], blobs)
    {
      OtherStaged(s, blobs, i, j, off, data, good);
    }
  }

  lemma ReleasedContent(s: Ld, i: nat, blobs: Blobs)
    requires StagedBut(s, i, blobs) && i < SLOTS
    ensures forall j :: 0 <= j < SLOTS ==> StagedContent(Release(s, i).mem, Release(s, i).slots[j], blobs)
  {
    assert forall j :: 0 <= j < SLOTS && j != i ==> Release(s, i).slots[j] == s.slots[j];
  }

  /** The line carries exactly the next serial chunk of the slot's blob. */
  ghost predicate BringsNext(sl: Slot, l: ChunkLine, blobs: Blobs) {
    && (sl.gen, sl.dataId) in blobs && Linear(l.page, l.chunk) == sl.received
    && sl.received < AtChunks(|blobs[(sl.gen, sl.dataId)]|)
    && l.payload == Piece(blobs[(sl.gen, sl.dataId)], AT_CHUNK, sl.received)
  }

  lemma WritesNext(s: Ld, d: Device, l: ChunkLine, i: nat, blobs: Blobs)
    requires Staging(s, blobs) && GenuineChunkLine(d, l, blobs) && NotAhead(s, d, l) && Writes(s, d, l, i)
    ensures BringsNext(s.slots[i], l, blobs)
  {
    OnlyWritesChange(s, d, l, 0, 0);
    assert StagedContent(s.mem, s.slots[i], blobs);
  }

  lemma ButFrame(u: Ld, t: Ld, i: nat, blobs: Blobs)
    requires StagedBut(u, i, blobs) && Shape(t) && t.mem == u.mem
    requires forall j :: 0 <= j < SLOTS && j != i ==> t.slots[j] == u.slots[j]
    ensures StagedBut(t, i, blobs)
  {
  }

  /** The write for slot i stays inside its region. */
  lemma WriteInRegion(s: Ld, d: Device, l: ChunkLine, i: nat)
    requires StagingBooks(s) && Writes(s, d, l, i)
    ensures s.slots[i].active && !s.slots[i].ready && Placed(s.slots[i])
    ensures Linear(l.page, l.chunk) * AT_CHUNK + |l.payload| <= s.slots[i].totalSize
  {
    OnlyWritesChange(s, d, l, 0, 0);
    ExpectedIsPiece(s.slots[i], Linear(l.page, l.chunk));
  }

  lemma WrittenOthers(s: Ld, l: ChunkLine, i: nat, good: nat, off: nat, blobs: Blobs)
    requires Staging(s, blobs) && i < SLOTS && s.slots[i].active
    requires off == Linear(l.page, l.chunk) * AT_CHUNK && off + |l.payload| <= s.slots[i].totalSize
    ensures StagedBut(Written(s, l, i, good), i, blobs)
  {
    OthersStaged(s, blobs, i, off, l.payload, good);
    var mem := Store(s.mem, s.slots[i].base + off, l.payload, good);
    ButFrame(s.(mem := mem), Written(s, l, i, good), i, blobs);
  }

  /** The next serial chunk of slot i is written and counted: the other slots. */
  lemma NextOthers(s: Ld, d: Device, l: ChunkLine, i: nat, good: nat, blobs: Blobs)
    requires Staging(s, blobs) && Writes(s, d, l, i)
    ensures StagedBut(Written(s, l, i, good), i, blobs)
  {
    WriteInRegion(s, d, l, i);
    WrittenOthers(s, l, i, good, Linear(l.page, l.chunk) * AT_CHUNK, blobs);
  }

  lemma WrittenSelf(s: Ld, l: ChunkLine, i: nat, good: nat, n: nat)
    requires Shape(s) && i < SLOTS && Linear(l.page, l.chunk) == n
    ensures var t := Written(s, l, i, good);
      t.mem == Store(s.mem, s.slots[i].base + n * AT_CHUNK, l.payload, good) && t.slots[i] == CountSerial(s.slots[i])
  {
  }

  /** The next serial chunk of slot i is written and counted: the slot itself. */
  lemma NextSelf(s: Ld, d: Device, l: ChunkLine, i: nat, good: nat, blobs: Blobs)
    requires Staging(s, blobs) && Writes(s, d, l, i) && BringsNext(s.slots[i], l, blobs)
    requires StoreOk(s.slots[i].base + Linear(l.page, l.chunk) * AT_CHUNK, |l.payload|, good)
    ensures var t := Written(s, l, i, good);
      StagedPrefix(t.mem, t.slots[i], blobs[(s.slots[i].gen, s.slots[i].dataId)])
  {
    var sl := s.slots[i];
    WriteInRegion(s, d, l, i);
    assert StagedContent(s.mem, sl, blobs);
    StoreSerial(s.mem, sl, blobs[(sl.gen, sl.dataId)], l.payload, good);
    WrittenSelf(s, l, i, good, sl.received);
  }

  lemma FinishCounted(s: Ld, sl: Slot, i: nat, fault: nat, blobs: Blobs)
    requires StagedBut(s, i, blobs) && i < SLOTS && s.slots[i] == CountSerial(sl)
    requires sl.active && !sl.ready && Booked(sl) && (sl.gen, sl.dataId) in blobs
    requires StagedPrefix(s.mem, CountSerial(sl), blobs[(sl.gen, sl.dataId)])
    ensures var t := FinishStaging(s, i, fault).0;
      forall j :: 0 <= j < SLOTS ==> StagedContent(t.mem, t.slots[j], blobs)
  {
    FinishContent(s, i, fault, blobs);
  }

  lemma StoredContent(s: Ld, d: Device, l: ChunkLine, i: nat, good: nat, fault: nat, blobs: Blobs)
    requires Staging(s, blobs) && Writes(s, d, l, i) && BringsNext(s.slots[i], l, blobs)
    requires StoreOk(s.slots[i].base + Linear(l.page, l.chunk) * AT_CHUNK, |l.payload|, good)
    requires 0 < s.slots[i].totalSize <= MAX_TRANSFER
    ensures var t := FinishStaging(Written(s, l, i, good), i, fault).0;
      forall j :: 0 <= j < SLOTS ==> StagedContent(t.mem, t.slots[j], blobs)
  {
    WriteInRegion(s, d, l, i);
    NextOthers(s, d, l, i, good, blobs);
    NextSelf(s, d, l, i, good, blobs);
    WrittenSelf(s, l, i, good, Linear(l.page, l.chunk));
    FinishCounted(Written(s, l, i, good), s.slots[i], i, fault, blobs);
  }

  lemma CutShortContent(s: Ld, d: Device, l: ChunkLine, i: nat, good: nat, blobs: Blobs)
    requires Staging(s, blobs) && Writes(s, d, l, i)
    ensures
      var mem := Store(s.mem, s.slots[i].base + Linear(l.page, l.chunk) * AT_CHUNK, l.payload, good);
      var t := Release(s.(mem := mem), i);
      forall j :: 0 <= j < SLOTS ==> StagedContent(t.mem, t.slots[j], blobs)
  {
    WriteInRegion(s, d, l, i);
    OthersStaged(s, blobs, i, Linear(l.page, l.chunk) * AT_CHUNK, l.payload, good);
    ReleasedContent(s.(mem := Store(s.mem, s.slots[i].base + Linear(l.page, l.chunk) * AT_CHUNK, l.payload, good)),
        i, blobs);
  }

  /** Genuine lines that never run ahead keep the staged prefix exact, and a slot that completes holds
      the whole blob. */
  lemma SerialChunkContent(s: Ld, d: Device, l: ChunkLine, good: nat, fault: nat, blobs: Blobs)
    requires Staging(s, blobs) && GenuineChunkLine(d, l, blobs) && NotAhead(s, d, l)
    ensures Staging(CmdLdChunk(s, d, l, good, fault).0, blobs)
  {
    SerialChunkBooks(s, d, l, good, fault);
    OnlyWritesChange(s, d, l, good, fault);
    if i: nat :| Writes(s, d, l, i) {
      ChunkOutcome(s, d, l, good, fault, i);
      WritesNext(s, d, l, i, blobs);
      if StoreOk(s.slots[i].base + Linear(l.page, l.chunk) * AT_CHUNK, |l.payload|, good) {
        StoredContent(s, d, l, i, good, fault, blobs);
      } else {
        CutShortContent(s, d, l, i, good, blobs);
      }
    }
  }

  /** cmd_ld_chunk accepts a chunk ahead of the one due, counts it, and from then on ignores the one it
      skipped. The staged prefix survives a written line exactly when the line brings the chunk due, or
      the memory happened to hold the skipped chunk's bytes already. */
  lemma AheadLeavesGap(mem: seq<byte>, sl: Slot, b: Blob, k: nat, good: nat)
    requires |mem| == PSRAM_SIZE && Placed(sl) && StagedPrefix(mem, sl, b)
    requires sl.received <= k < AtChunks(|b|) && StoreOk(sl.base + k * AT_CHUNK, |Piece(b, AT_CHUNK, k)|, good)
    ensures StagedPrefix(Store(mem, sl.base + k * AT_CHUNK, Piece(b, AT_CHUNK, k), good), CountSerial(sl), b) <==>
              k == sl.received || Holds(Region(mem, sl), b, AT_CHUNK, sl.received)
  {
    if k == sl.received {
      StoreSerial(mem, sl, b, Piece(b, AT_CHUNK, k), good);
    } else {
      var r, p := Region(mem, sl), Piece(b, AT_CHUNK, k);
      PieceStart(|b|, AT_CHUNK, k);
      RegionAfterFullStore(mem, sl, k * AT_CHUNK, p, good);
      AheadPieces(r, b, sl.received, k);
      CountedPrefixExact(Store(mem, sl.base + k * AT_CHUNK, p, good), sl, b);
    }
  }

  lemma CountedPrefixExact(mem: seq<byte>, sl: Slot, b: Blob)
    requires sl.totalSize == |b| && sl.crc32 == Crc32(b) && sl.received < AtChunks(|b|)
    ensures StagedPrefix(mem, CountSerial(sl), b) <==> HoldsFirst(Region(mem, sl), b, AT_CHUNK, sl.received + 1)
  {
    CountsOn(mem, sl, b);
  }

  lemma AheadPieces(r: seq<byte>, b: seq<byte>, n: nat, k: nat)
    requires HoldsFirst(r, b, AT_CHUNK, n) && n < k < CeilDiv(|b|, AT_CHUNK)
    ensures k * AT_CHUNK + |Piece(b, AT_CHUNK, k)| <= |r|
    ensures HoldsFirst(Splice(r, k * AT_CHUNK, Piece(b, AT_CHUNK, k)), b, AT_CHUNK, n + 1) <==> Holds(r, b, AT_CHUNK, n)
  {
    var p := Piece(b, AT_CHUNK, k);
    PieceStart(|b|, AT_CHUNK, k);
    forall j | 0 <= j < n + 1
      ensures Holds(Splice(r, k * AT_CHUNK, p), b, AT_CHUNK, j) <==> Holds(r, b, AT_CHUNK, j)
    {
      PieceKept(r, AT_CHUNK, k, p, j);
    }
    PrefixOneMore(r, Splice(r, k * AT_CHUNK, p), b, n);
  }

  lemma PrefixOneMore(r: seq<byte>, t: seq<byte>, b: seq<byte>, n: nat)
    requires HoldsFirst(r, b, AT_CHUNK, n) && |t| == |b| && n < CeilDiv(|b|, AT_CHUNK)
    requires forall j :: 0 <= j < n + 1 ==> (Holds(t, b, AT_CHUNK, j) <==> Holds(r, b, AT_CHUNK, j))
    ensures HoldsFirst(t, b, AT_CHUNK, n + 1) <==> Holds(r, b, AT_CHUNK, n)
  {
  }
}
