/** Starting a transfer to the next hop (src/large_data.c, the anchor, sensor and gateway ticks). */
module LargeDataTicks {
  import opened Basics
  import opened LargeDataTypes
  import opened LargeDataStore
  import opened LargeDataReceiver
  import opened LargeDataSender

  /** The first slot that waits to be forwarded, or SLOTS. */
  function WaitingFrom(slots: seq<Slot>, i: nat): (r: nat)
    requires i <= |slots|
    ensures i <= r <= |slots|
    ensures r < |slots| ==> slots[r].active && slots[r].ready && !slots[r].sent
    ensures forall j :: i <= j < r ==> !(slots[j].active && slots[j].ready && !slots[j].sent)
    decreases |slots| - i
  {
    if i == |slots| || (slots[i].active && slots[i].ready && !slots[i].sent) then i else WaitingFrom(slots, i + 1)
  }

  /** The check before a radio transfer starts: a slot with a zero in any of these is dropped. */
  predicate Sendable(sl: Slot) {
    sl.gen != 0 && sl.dataId != 0 && sl.totalSize != 0 && sl.pageCount != 0 && sl.totalChunks != 0 &&
    sl.lastChunkSize != 0 && sl.crc32 != 0 && sl.base != 0
  }

  /** The sender record for forwarding a slot by radio. */
  function RadioSender(sl: Slot, parent: uint16): Sender {
    Sender(true, parent, sl.gen, sl.dataId, sl.priority, sl.totalSize, sl.pageCount, sl.lastChunkSize,
           sl.totalChunks, 0, sl.crc32, sl.base)
  }

  function InitFor(snd: Sender, now: int): InitPkt
    requires snd.pageCount < 0x100
  {
    InitPkt(snd.gen, snd.dataId, now, snd.totalSize, snd.pageCount, snd.lastChunkSize, snd.crc32)
  }

  /** anchor_large_data_tick and sensor_large_data_tick: the two differ only in what an expired timer
      does to is_sent. */
  function RadioTick(s: Ld, role: DeviceType, expired: bool, parent: uint16, now: int): (r: (Ld, Option<InitPkt>))
    requires Shape(s)
    ensures Shape(r.0)
  {
    if s.snd.active then
      if !expired then (s, None)
      else (Deactivate(if role == Anchor then MarkSent(s, false) else s), None)
    else
      var i := WaitingFrom(s.slots, 0);
      if i == SLOTS then (s, None)
      else if !Sendable(s.slots[i]) then (Release(s, i), None)
      else
        var snd := RadioSender(s.slots[i], parent);
        (s.(snd := snd, slots := s.slots[i := s.slots[i].(sent := true)]), Some(InitFor(snd, now)))
  }

  /** The sender record for forwarding a slot over the serial line, in AT_CHUNK pieces. Only the fields
      the gateway sets change; dst keeps its value. */
  function SerialSender(was: Sender, sl: Slot): Sender
    requires 0 < sl.totalSize <= MAX_TRANSFER
  {
    TransferBounds(sl.totalSize);
    LastPieceBounds(sl.totalSize, AT_CHUNK);
    var n := AtChunks(sl.totalSize);
    Sender(true, was.dst, sl.gen, sl.dataId, sl.priority, sl.totalSize, CeilDiv(n, CHUNKS_PER_PAGE),
           LastPiece(sl.totalSize, AT_CHUNK), n, 0, sl.crc32, sl.base)
  }

  /** gateway_large_data_tick. known says whether the generator's serial number is in the mesh table,
      written whether the AT#LDINIT line went out. */
  function GatewayTick(s: Ld, known: bool, written: bool): (r: (Ld, bool))
    requires Ownership(s)
    ensures Shape(r.0)
  {
    if s.snd.active then (s, false)
    else
      var i := WaitingFrom(s.slots, 0);
      if i == SLOTS then (s, false)
      else
        var t := s.(snd := SerialSender(s.snd, s.slots[i]));
        if !known then
          match FindSlot(t.slots, t.snd.gen, t.snd.dataId)
          case None => (Deactivate(t), false)
          case Some(j) => (Deactivate(Release(t, j)), false)
        else if !written then (Deactivate(t), false)
        else (t.(slots := t.slots[i := t.slots[i].(sent := true)]), true)
  }

  /** A sender that a tick has just activated is at the start of a window run. */
  lemma ActivationStartsRun(s: Ld, role: DeviceType, parent: uint16, now: int)
    requires Receiving(s) && !s.snd.active && WaitingFrom(s.slots, 0) < SLOTS
    requires var sl := s.slots[WaitingFrom(s.slots, 0)]; Sendable(sl) && sl.pageCount == Pages(sl.totalSize)
    ensures InWindow(Run(RadioTick(s, role, false, parent, now).0, {}, {}, 0, false))
  {
    var sl := s.slots[WaitingFrom(s.slots, 0)];
    TransferBounds(sl.totalSize);
  }
}
