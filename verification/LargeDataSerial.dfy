/** The two serial ends: a host stages a blob on a sensor with AT#LDINIT and AT#LD, and the gateway
    hands a complete blob to its host (src/large_data.c, cmd_ld_init, cmd_ld_chunk,
    at_send_next_chunk, cmd_ld_init_ack, cmd_ld_chunk_ack). */
module LargeDataSerial {
  import opened Basics
  import opened LargeDataTypes
  import opened PsramDriver
  import opened Crc16CcittFalse
  import opened LargeDataStore
  import opened LargeDataReceiver
  import opened LargeDataSender

  // ------------------------------------------------------ staging on a sensor

  /** n bytes of v, most significant first, as sys_put_beXX and struct.pack(">...") write them. */
  function BigEndian(v: nat, n: nat): (r: seq<byte>)
    ensures |r| == n
  {
    if n == 0 then [] else BigEndian(v / 0x100, n - 1) + [v % 0x100]
  }

  /** The parsed fields of one AT#LDINIT line, before any range check. */
  datatype InitLine = InitLine(
    sn: uint64, id: uint64, total: uint64, chunks: uint64, last: uint64, crc32: uint64, crc16: uint64)

  datatype ChunkLine = ChunkLine(sn: uint64, id: uint64, page: uint64, chunk: uint64, crc16: uint64, payload: seq<byte>)

  /** The device as the handlers see it. */
  datatype Device = Device(role: DeviceType, id: uint16, sn: uint64, paired: bool)

  /** The bytes the line's CRC-16 covers. */
  function MetaBytes(l: InitLine): seq<byte> {
    BigEndian(l.sn, 8) + BigEndian(l.id, 2) + BigEndian(l.total, 4) + BigEndian(l.chunks, 2) +
    BigEndian(l.last, 2) + BigEndian(l.crc32, 4)
  }

  predicate InitLineOk(d: Device, l: InitLine) {
    && d.role == Sensor && d.paired
    && l.crc16 == Crc16(MetaBytes(l)) && l.sn == d.sn
    && l.id <= 0xFF && 0 < l.total <= MAX_TRANSFER && 0 < l.chunks <= 0xFFFF && l.crc32 <= 0xFFFF_FFFF
    && 0 < l.last <= AT_CHUNK
    && l.total == (l.chunks - 1) * AT_CHUNK + l.last
  }

  /** An accepted announcement describes the cut of its total into serial chunks. */
  lemma InitLineConsistent(d: Device, l: InitLine)
    requires InitLineOk(d, l)
    ensures l.chunks == AtChunks(l.total) && l.last == LastPiece(l.total, AT_CHUNK)
  {
  }

  function Staged(was: Slot, d: Device, l: InitLine): Slot
    requires InitLineOk(d, l)
  {
    InitLineConsistent(d, l);
    TransferBounds(l.total);
    was.(active := true, ready := false, sent := false, transferred := false, gen := d.id, dataId := l.id,
         priority := 0, totalSize := l.total, totalChunks := l.chunks, lastChunkSize := l.last,
         pageCount := CeilDiv(l.chunks, CHUNKS_PER_PAGE), crc32 := l.crc32, received := 0)
  }

  /** cmd_ld_init; the flag says whether the answer is OK. */
  function CmdLdInit(s: Ld, d: Device, l: InitLine): (r: (Ld, bool))
    requires Shape(s)
    ensures Shape(r.0)
  {
    if !InitLineOk(d, l) || FindSlot(s.slots, d.id, l.id).Some? then (s, false)
    else match Place(s, l.total)
      case None => (s, false)
      case Some((i, _)) => (Filled(s, l.total, Staged(s.slots[i], d, l)), true)
  }

  /** The size cmd_ld_chunk expects of serial chunk k: the subtraction is in 32 bits and the result
      is cut to 16. */
  function ExpectedLen(sl: Slot, k: nat): nat {
    if k == sl.totalChunks - 1 then (sl.totalSize - k * AT_CHUNK) % 0x1_0000_0000 % 0x1_0000 else AT_CHUNK
  }

  predicate ChunkLineOk(d: Device, l: ChunkLine) {
    && d.role == Sensor
    && 0 < |l.payload| <= AT_CHUNK
    && l.crc16 == Crc16(l.payload) && l.sn == d.sn
    && l.id <= 0xFF && l.page <= 0xFF && l.chunk < CHUNKS_PER_PAGE
  }

  /** What the slot becomes when its last serial chunk is staged: the same blob cut for the radio. */
  function Recut(sl: Slot): Slot
    requires 0 < sl.totalSize <= MAX_TRANSFER
  {
    TransferBounds(sl.totalSize);
    LastPieceBounds(sl.totalSize, CHUNK);
    var n := Chunks(sl.totalSize);
    sl.(totalChunks := n, lastChunkSize := LastPiece(sl.totalSize, CHUNK), pageCount := CeilDiv(n, CHUNKS_PER_PAGE),
        received := n, ready := true)
  }

  /** The end of cmd_ld_chunk, after the payload is stored and counted. */
  function FinishStaging(s: Ld, i: nat, fault: nat): (r: (Ld, bool))
    requires Shape(s) && i < SLOTS && 0 < s.slots[i].totalSize <= MAX_TRANSFER
    ensures Shape(r.0)
  {
    if s.slots[i].received < s.slots[i].totalChunks then (s, true)
    else if !VerifyOk(s.mem, s.slots[i], fault) then (Release(s, i), false)
    else (s.(slots := s.slots[i := Recut(s.slots[i])]), true)
  }

  function CountSerial(sl: Slot): Slot {
    sl.(received := (sl.received + 1) % 0x1_0000)
  }

  /** The writing half of cmd_ld_chunk, for serial chunk k of slot i. */
  function StagedChunk(s: Ld, i: nat, k: nat, payload: seq<byte>, good: nat, fault: nat): (r: (Ld, bool))
    requires Shape(s) && i < SLOTS && Placed(s.slots[i])
    ensures Shape(r.0)
  {
    var addr := s.slots[i].base + k * AT_CHUNK;
    var stored := s.(mem := Store(s.mem, addr, payload, good));
    if !StoreOk(addr, |payload|, good) then (Release(stored, i), false)
    else FinishStaging(stored.(slots := s.slots[i := CountSerial(s.slots[i])]), i, fault)
  }

  /** cmd_ld_chunk. */
  function CmdLdChunk(s: Ld, d: Device, l: ChunkLine, good: nat, fault: nat): (r: (Ld, bool))
    requires Ownership(s)
    ensures Shape(r.0)
  {
    if !ChunkLineOk(d, l) then (s, false)
    else match FindSlot(s.slots, d.id, l.id)
      case None => (s, false)
      case Some(i) =>
        var sl, k := s.slots[i], Linear(l.page, l.chunk);
        if k >= sl.totalChunks || |l.payload| != ExpectedLen(sl, k) then (s, false)
        else if sl.received > k then (s, true)
        else StagedChunk(s, i, k, l.payload, good, fault)
  }

  // -------------------------------------------- handing a blob to the gateway's host

  /** An AT#LD line: dev is the device id printed in its first field. */
  datatype LdLine = LdLine(dev: uint16, dataId: uint8, page: nat, chunk: nat, payload: seq<byte>)

  /** at_send_next_chunk: the line written, if the checks, the memory read and the write succeed. dev is
      device_id_cache. */
  function AtSend(s: Ld, dev: uint16, page: nat, chunk: nat, ok: bool): Option<LdLine>
    requires Shape(s)
  {
    var k := Linear(page, chunk);
    if !s.snd.active || page >= s.snd.pageCount || chunk >= CHUNKS_PER_PAGE || k >= s.snd.totalChunks ||
       s.snd.nextChunk >= s.snd.totalChunks then None
    else
      var n := if k == s.snd.totalChunks - 1 then s.snd.lastChunkSize else AT_CHUNK;
      var addr := s.snd.base + k * AT_CHUNK;
      if !ok || addr + n > PSRAM_SIZE then None
      else Some(LdLine(dev, s.snd.dataId, page, chunk, s.mem[addr..addr + n]))
  }

  /** What the next OK or ERROR from the host will answer; OtherPending is a report or a configuration,
      which share the one pending acknowledgement. */
  datatype Pending = NoAck | InitPending | ChunkPending | OtherPending

  datatype HostLine =
    | InitReply(dev: Option<uint16>, id: uint64)   // #LDINIT with the serial number already looked up
    | ChunkReply(id: uint64, page: uint64, chunk: uint64)   // #LD
    | OtherReply   // #REPORT or #CONFIG
    | OkLine
    | ErrorLine

  /** The gateway's side of the conversation: cached is sender_idx_cache >= 0, dev is device_id_cache. */
  datatype Conv = Conv(ld: Ld, pending: Pending, cached: bool, dev: uint16)

  /** The second half of cmd_ld_chunk_ack: an OK for the chunk last sent. */
  function NextLine(s: Ld, dev: uint16, ok: bool): (r: (Ld, Option<LdLine>))
    requires Shape(s)
    ensures Shape(r.0)
  {
    if s.snd.nextChunk >= (s.snd.totalChunks - 1) % 0x1_0000 then
      match FindSlot(s.slots, s.snd.gen, s.snd.dataId)
      case None => (Deactivate(s), None)
      case Some(i) => (Deactivate(s).(slots := s.slots[i := s.slots[i].(transferred := true)]), None)
    else
      var t := Advance(s);
      (t, AtSend(t, dev, t.snd.nextChunk / CHUNKS_PER_PAGE, t.snd.nextChunk % CHUNKS_PER_PAGE, ok))
  }

  /** One line from the host, as dispatch() routes it on the gateway. */
  function HostStep(c: Conv, l: HostLine, ok: bool): (r: (Conv, Option<LdLine>))
    requires Shape(c.ld)
    ensures Shape(r.0.ld)
  {
    match l
    case InitReply(dev, id) =>
      if dev.None? then (c, None)
      else if Matches(c.ld.snd, dev.value, id % 0x100) then
        (c.(cached := true, dev := dev.value, pending := InitPending), None)
      else (c.(cached := false), None)
    case ChunkReply(id, page, chunk) =>
      if !c.cached || c.ld.snd.dataId != id % 0x100 || page >= c.ld.snd.pageCount ||
          chunk >= CHUNKS_PER_PAGE then (c, None)
      else (c.(pending := ChunkPending), None)
    case OtherReply => (c.(pending := OtherPending), None)
    case ErrorLine => (c.(pending := NoAck), None)
    case OkLine =>
      var d := c.(pending := NoAck);
      if c.pending == InitPending then (d, if c.cached then AtSend(c.ld, c.dev, 0, 0, ok) else None)
      else if c.pending == ChunkPending && c.cached then
        var (t, out) := NextLine(c.ld, c.dev, ok);
        (d.(ld := t), out)
      else (d, None)
  }
}
