/** The retransmission pool of src/tracker.c: 128 entries in internal RAM, their payloads with a CRC-16 in
    external RAM. The checksum is a library function, so it is a parameter here. */
module TrackerPool {
  import opened Basics
  import opened PsramDriver
  import opened Timeout

  const ENTRIES: nat := 128        // TRACKER_MAX_ENTRIES
  const PAYLOAD_MAX: nat := 200    // TRACKER_PAYLOAD_MAX = QUEUE_DATA_MAX
  const SLOT_SIZE: nat := 202      // TRACKER_SLOT_SIZE
  const REGION: nat := 0x8000      // TRACKER_PSRAM_SIZE; TRACKER_PSRAM_BASE is 0

  type Crc = seq<byte> -> uint16

  /** struct tracker_index. */
  datatype Entry = Entry(dst: uint16, prev: uint16, id: uint8, ptype: uint8, timer: Timer, active: bool, len: uint16)

  datatype Pool = Pool(entries: seq<Entry>, mem: seq<byte>, next: uint8)

  ghost predicate Shape(p: Pool) {
    |p.entries| == ENTRIES && |p.mem| == PSRAM_SIZE && forall i :: 0 <= i < ENTRIES ==> p.entries[i].len <= PAYLOAD_MAX
  }

  /** psram_slot_addr. */
  function Addr(i: nat): nat {
    i * SLOT_SIZE
  }

  /** Slots are disjoint and inside the tracker's partition. */
  lemma SlotsDisjoint(i: nat, j: nat)
    requires i < ENTRIES && j < ENTRIES && i != j
    ensures Addr(i) + SLOT_SIZE <= REGION <= PSRAM_SIZE
    ensures Addr(i) + SLOT_SIZE <= Addr(j) || Addr(j) + SLOT_SIZE <= Addr(i)
  {
  }

  /** What tx_queue_put and tracker_add keep of a packet. */
  function Cut(payload: seq<byte>): (r: seq<byte>)
    ensures |r| == Min(|payload|, PAYLOAD_MAX)
  {
    if |payload| > PAYLOAD_MAX then payload[..PAYLOAD_MAX] else payload
  }

  /** The payload followed by its checksum, low byte first. */
  function Image(crc: Crc, payload: seq<byte>): (r: seq<byte>)
    ensures |r| == |payload| + 2
  {
    payload + [crc(payload) % 0x100, crc(payload) / 0x100]
  }

  /** psram_payload_write. */
  function Put(mem: seq<byte>, i: nat, payload: seq<byte>, crc: Crc, good: nat): (r: seq<byte>)
    requires |mem| == PSRAM_SIZE
    ensures |r| == PSRAM_SIZE
  {
    Store(mem, Addr(i), Image(crc, payload), good)
  }

  predicate PutOk(i: nat, payload: seq<byte>, good: nat) {
    StoreOk(Addr(i), |payload| + 2, good)
  }

  /** psram_payload_read: ok says whether the memory read succeeds. */
  function Read(mem: seq<byte>, i: nat, len: nat, crc: Crc, ok: bool): (r: Option<seq<byte>>)
    requires |mem| == PSRAM_SIZE && i < ENTRIES && len <= PAYLOAD_MAX
    ensures r.Some? ==> |r.value| == len
  {
    var data := mem[Addr(i)..Addr(i) + len];
    if ok && mem[Addr(i) + len] == crc(data) % 0x100 && mem[Addr(i) + len + 1] == crc(data) / 0x100
    then Some(data) else None
  }

  // -------------------------------------------------------------- operations

  function FreeFrom(es: seq<Entry>, i: nat): (r: nat)
    requires i <= |es|
    ensures i <= r <= |es|
    ensures r < |es| ==> !es[r].active
    ensures forall j :: i <= j < r ==> es[j].active
    decreases |es| - i
  {
    if i == |es| || !es[i].active then i else FreeFrom(es, i + 1)
  }

  function NewEntry(dst: uint16, prev: uint16, id: uint8, ptype: uint8, duration: uint32, max: uint8, now: int,
                    len: nat): Entry
    requires len <= PAYLOAD_MAX
  {
    Entry(dst, prev, id, ptype, Start(Init(duration, max), now), true, len)
  }

  /** tracker_add; an absent payload is an empty one. */
  function Add(p: Pool, dst: uint16, prev: uint16, id: uint8, ptype: uint8, duration: uint32, max: uint8, now: int,
               payload: seq<byte>, crc: Crc, good: nat): (r: (Pool, Option<nat>))
    requires Shape(p)
    ensures Shape(r.0)
  {
    var i := FreeFrom(p.entries, 0);
    if i == ENTRIES then (p, None)
    else
      var data := Cut(payload);
      (p.(entries := p.entries[i := NewEntry(dst, prev, id, ptype, duration, max, now, |data|)],
          mem := if |data| > 0 then Put(p.mem, i, data, crc, good) else p.mem), Some(i))
  }

  /** The first active entry with a tracking id, or ENTRIES. */
  function FindFrom(es: seq<Entry>, id: uint8, i: nat): (r: nat)
    requires i <= |es|
    ensures i <= r <= |es|
    ensures r < |es| ==> es[r].active && es[r].id == id
    ensures forall j :: i <= j < r ==> !(es[j].active && es[j].id == id)
    decreases |es| - i
  {
    if i == |es| || (es[i].active && es[i].id == id) then i else FindFrom(es, id, i + 1)
  }

  function Dropped(e: Entry): Entry {
    e.(active := false, timer := Stop(e.timer))
  }

  /** tracker_remove_by_tracking_id. */
  function RemoveById(p: Pool, id: uint8): (r: Pool)
    requires Shape(p)
    ensures Shape(r)
  {
    var i := FindFrom(p.entries, id, 0);
    if i == ENTRIES then p else p.(entries := p.entries[i := Dropped(p.entries[i])])
  }

  /** tracker_remove_by_device. */
  function RemoveByDevice(p: Pool, dst: uint16): (r: Pool)
    requires Shape(p)
    ensures Shape(r)
  {
    p.(entries := seq(ENTRIES, i requires 0 <= i < ENTRIES =>
         if p.entries[i].active && p.entries[i].dst == dst then Dropped(p.entries[i]) else p.entries[i]))
  }

  /** tracker_update_payload; the flag says whether it returned 0. */
  function Update(p: Pool, id: uint8, payload: seq<byte>, crc: Crc, good: nat): (r: (Pool, bool))
    requires Shape(p)
    ensures Shape(r.0)
  {
    var i := FindFrom(p.entries, id, 0);
    if i == ENTRIES then (p, false)
    else
      var data := Cut(payload);
      (p.(entries := p.entries[i := p.entries[i].(len := |data|)], mem := Put(p.mem, i, data, crc, good)),
          PutOk(i, data, good))
  }

  /** What one look of tracker_tick makes of an entry. */
  function Looked(e: Entry, r: Reading): Entry {
    if !e.active || !Expired(e.timer, r.seen) then e
    else
      var (t, exhausted) := Retry(e.timer, r.again);
      e.(timer := t, active := !exhausted)
  }

  predicate Fires1(e: Entry, r: Reading) {
    e.active && Expired(e.timer, r.seen)
  }

  /** What the callback is given: the entry after the look, and its payload or nothing. */
  datatype Report = Report(index: nat, entry: Entry, payload: seq<byte>, exhausted: bool)

  function Reported(p: Pool, i: nat, r: Reading, crc: Crc, ok: bool): Report
    requires Shape(p) && i < ENTRIES
  {
    var e := Looked(p.entries[i], r);
    var data := if e.len > 0 then Read(p.mem, i, e.len, crc, ok) else None;
    Report(i, e, if data.Some? then data.value else [], !e.active)
  }

  /** The callbacks of one pass, from entry i on. clock and oks give the clock readings and the outcome of
      the memory read for each entry. */
  function ReportsFrom(p: Pool, clock: seq<Reading>, oks: seq<bool>, crc: Crc, i: nat): seq<Report>
    requires Shape(p) && |clock| == |oks| == ENTRIES && i <= ENTRIES
    decreases ENTRIES - i
  {
    if i == ENTRIES then []
    else (if Fires1(p.entries[i], clock[i]) then [Reported(p, i, clock[i], crc, oks[i])] else []) +
         ReportsFrom(p, clock, oks, crc, i + 1)
  }

  function LookedEntries(p: Pool, clock: seq<Reading>): (es: seq<Entry>)
    requires Shape(p) && |clock| == ENTRIES
    ensures |es| == ENTRIES
  {
    seq(ENTRIES, i requires 0 <= i < ENTRIES => Looked(p.entries[i], clock[i]))
  }

  /** tracker_tick. */
  function Tick(p: Pool, clock: seq<Reading>, oks: seq<bool>, crc: Crc): (r: (Pool, seq<Report>))
    requires Shape(p) && |clock| == |oks| == ENTRIES
    ensures Shape(r.0)
  {
    (p.(entries := LookedEntries(p, clock)), ReportsFrom(p, clock, oks, crc, 0))
  }

  /** tracker_default_expired_cb: the packet put on the transmit queue again, if any. */
  function Resent(r: Report): Option<seq<byte>> {
    if !r.exhausted && |r.payload| > 0 then Some(Cut(r.payload)) else None
  }

  // ------------------------------------------------------------ tracking ids

  function NextId(id: uint8): uint8 {
    if id + 1 >= 255 then 1 else id + 1
  }

  /** The id of draw number k since start-up. */
  function Draw(k: nat): (id: uint8)
    ensures 1 <= id <= 254
  {
    1 + k % 254
  }

  lemma DrawNext(k: nat)
    ensures NextId(Draw(k)) == Draw(k + 1)
  {
  }

  /** Any 254 consecutive draws are distinct, and draw k + 254 repeats draw k. */
  lemma DrawsDistinct(j: nat, k: nat)
    requires j < k
    ensures k < j + 254 ==> Draw(j) != Draw(k)
    ensures k == j + 254 ==> Draw(j) == Draw(k)
  {
  }

  /** drawn says with which draw each active entry got its id; total draws have been made. */
  ghost predicate Numbered(p: Pool, drawn: seq<nat>, total: nat) {
    && Shape(p) && |drawn| == ENTRIES && p.next == Draw(total)
    && (forall i :: 0 <= i < ENTRIES && p.entries[i].active ==> p.entries[i].id == Draw(drawn[i]) && drawn[i] < total)
    && (forall i, j :: 0 <= i < j < ENTRIES && p.entries[i].active && p.entries[j].active ==> drawn[i] != drawn[j])
  }

  /** Every active entry was drawn within the last 254 draws. */
  ghost predicate Recent(p: Pool, drawn: seq<nat>, total: nat) {
    |p.entries| == |drawn| == ENTRIES && forall i :: 0 <= i < ENTRIES && p.entries[i].active ==> total <= drawn[i] + 254
  }

  lemma ActiveIdsDistinct(p: Pool, drawn: seq<nat>, total: nat, i: nat, j: nat)
    requires Numbered(p, drawn, total) && Recent(p, drawn, total)
    requires i < j < ENTRIES && p.entries[i].active && p.entries[j].active
    ensures p.entries[i].id != p.entries[j].id
  {
    if drawn[i] < drawn[j] {
      DrawsDistinct(drawn[i], drawn[j]);
    } else {
      DrawsDistinct(drawn[j], drawn[i]);
    }
  }

  /** An acknowledgement for entry j removes entry j, and only it, exactly when no entry before it waits
      under the same id. */
  lemma RemoveExact(p: Pool, j: nat)
    requires Shape(p) && j < ENTRIES && p.entries[j].active
    ensures RemoveById(p, p.entries[j].id) == p.(entries := p.entries[j := Dropped(p.entries[j])]) <==>
            forall i :: 0 <= i < j && p.entries[i].active ==> p.entries[i].id != p.entries[j].id
  {
    var q := RemoveById(p, p.entries[j].id);
    var f := FindFrom(p.entries, p.entries[j].id, 0);
    assert f <= j;
    if f != j {
      assert q.entries[j].active;
      assert p.entries[j := Dropped(p.entries[j])][j] == Dropped(p.entries[j]);
    }
  }

  /** So while active entries are recent, an ACK removes exactly the entry it names. */
  lemma AckRemovesNamed(p: Pool, drawn: seq<nat>, total: nat, j: nat)
    requires Numbered(p, drawn, total) && Recent(p, drawn, total) && j < ENTRIES && p.entries[j].active
    ensures RemoveById(p, p.entries[j].id) == p.(entries := p.entries[j := Dropped(p.entries[j])])
    ensures Numbered(RemoveById(p, p.entries[j].id), drawn, total)
  {
    forall i | 0 <= i < j && p.entries[i].active
      ensures p.entries[i].id != p.entries[j].id
    {
      ActiveIdsDistinct(p, drawn, total, i, j);
    }
    RemoveExact(p, j);
  }

  /** An entry that has waited for 254 draws shadows a newer one behind it. */
  lemma OldEntryShadows(p: Pool, drawn: seq<nat>, total: nat, i: nat, j: nat)
    requires Numbered(p, drawn, total) && i < j < ENTRIES && p.entries[i].active && p.entries[j].active
    requires drawn[j] == drawn[i] + 254
    ensures RemoveById(p, p.entries[j].id).entries[j].active
  {
    DrawsDistinct(drawn[i], drawn[j]);
  }

  // ---------------------------------------------------------------- fidelity

  /** External RAM slot i holds the payload and its checksum. */
  predicate Held(mem: seq<byte>, i: nat, payload: seq<byte>, crc: Crc)
    requires |mem| == PSRAM_SIZE && i < ENTRIES && |payload| <= PAYLOAD_MAX
  {
    mem[Addr(i)..Addr(i) + |payload| + 2] == Image(crc, payload)
  }

  /** The packet last handed over for an entry, and whether the external RAM accepted it. */
  datatype Packet = Packet(bytes: seq<byte>, stored: bool)

  /** Every accepted packet is whole in its entry's slot. */
  ghost predicate Faithful(p: Pool, held: seq<Packet>, crc: Crc) {
    && Shape(p) && |held| == ENTRIES
    && forall i :: 0 <= i < ENTRIES && p.entries[i].active && p.entries[i].len > 0 && held[i].stored ==>
         |held[i].bytes| == p.entries[i].len && Held(p.mem, i, held[i].bytes, crc)
  }

  lemma HeldReads(mem: seq<byte>, i: nat, payload: seq<byte>, crc: Crc, ok: bool)
    requires |mem| == PSRAM_SIZE && i < ENTRIES && |payload| <= PAYLOAD_MAX && Held(mem, i, payload, crc)
    ensures Read(mem, i, |payload|, crc, ok) == if ok then Some(payload) else None
  {
    var n, w := |payload|, mem[Addr(i)..Addr(i) + |payload| + 2];
    assert w[..n] == payload && w[..n] == mem[Addr(i)..Addr(i) + n];
    assert w[n] == mem[Addr(i) + n] && w[n + 1] == mem[Addr(i) + n + 1];
  }

  /** How much of a payload and its checksum reaches memory before a burst fails. */
  function Reached(i: nat, payload: seq<byte>, good: nat): (n: nat)
    ensures n <= |payload| + 2
  {
    Covered(Addr(i), |payload| + 2, good)
  }

  /** Exactly when the payload ends up whole in its slot: when the part that a failing write does not
      reach was there already. tracker_add ignores the failure. */
  lemma PutExact(mem: seq<byte>, i: nat, payload: seq<byte>, crc: Crc, good: nat)
    requires |mem| == PSRAM_SIZE && i < ENTRIES && |payload| <= PAYLOAD_MAX
    ensures Held(Put(mem, i, payload, crc, good), i, payload, crc) <==>
              var n := Reached(i, payload, good);
              mem[Addr(i) + n..Addr(i) + |payload| + 2] == Image(crc, payload)[n..]
  {
    var (image, n, a) := (Image(crc, payload), Reached(i, payload, good), Addr(i));
    var after := Put(mem, i, payload, crc, good);
    assert after == Splice(mem, a, image[..n]);
    assert after[a..a + |image|] == image[..n] + mem[a + n..a + |image|];
    assert image == image[..n] + image[n..];
    TailDecides(image[..n], mem[a + n..a + |image|], image[n..]);
  }

  lemma TailDecides(head: seq<byte>, x: seq<byte>, y: seq<byte>)
    ensures head + x == head + y <==> x == y
  {
    if head + x == head + y {
      assert x == (head + x)[|head|..] && y == (head + y)[|head|..];
    }
  }

  lemma PutHolds(mem: seq<byte>, i: nat, payload: seq<byte>, crc: Crc, good: nat)
    requires |mem| == PSRAM_SIZE && i < ENTRIES && |payload| <= PAYLOAD_MAX && PutOk(i, payload, good)
    ensures Held(Put(mem, i, payload, crc, good), i, payload, crc)
  {
    PutExact(mem, i, payload, crc, good);
  }

  lemma PutElsewhere(mem: seq<byte>, i: nat, payload: seq<byte>, crc: Crc, good: nat, j: nat, other: seq<byte>)
    requires |mem| == PSRAM_SIZE && i < ENTRIES && j < ENTRIES && i != j
    requires |payload| <= PAYLOAD_MAX && |other| <= PAYLOAD_MAX && Held(mem, j, other, crc)
    ensures Held(Put(mem, i, payload, crc, good), j, other, crc)
  {
    SlotsDisjoint(i, j);
    SlotsDisjoint(j, i);
    StoreOutside(mem, Addr(i), Image(crc, payload), good, Addr(j), Addr(j) + |other| + 2);
  }

  /** A write that fails outright leaves the previous packet of the slot, whose checksum is valid, to be
      sent under the new entry. */
  lemma StalePayloadResent(p: Pool, i: nat, stale: seq<byte>, payload: seq<byte>, crc: Crc)
    requires Shape(p) && FreeFrom(p.entries, 0) == i < ENTRIES
    requires 0 < |stale| == |payload| <= PAYLOAD_MAX && Held(p.mem, i, stale, crc)
    ensures var (q, r) := Add(p, 0, 0, 1, 1, 100, 5, 0, payload, crc, 0);
      r == Some(i) && Resent(Reported(q, i, Reading(100, 100), crc, true)) == Some(stale)
  {
    var (q, _) := Add(p, 0, 0, 1, 1, 100, 5, 0, payload, crc, 0);
    assert q.mem == p.mem;
    HeldReads(p.mem, i, stale, crc, true);
  }

  /** A payload written into slot i, or cut short on its way. */
  lemma PutFaithful(p: Pool, q: Pool, held: seq<Packet>, i: nat, payload: seq<byte>, crc: Crc, good: nat)
    requires Faithful(p, held, crc) && Shape(q) && i < ENTRIES && |payload| <= PAYLOAD_MAX
    requires q.mem == Put(p.mem, i, payload, crc, good) && q.entries[i].len == |payload|
    requires forall j :: 0 <= j < ENTRIES && j != i ==> q.entries[j] == p.entries[j]
    ensures Faithful(q, held[i := Packet(payload, PutOk(i, payload, good))], crc)
  {
    if PutOk(i, payload, good) {
      PutHolds(p.mem, i, payload, crc, good);
    }
    forall j | 0 <= j < ENTRIES && j != i && q.entries[j].active && q.entries[j].len > 0 && held[j].stored
      ensures Held(q.mem, j, held[j].bytes, crc)
    {
      PutElsewhere(p.mem, i, payload, crc, good, j, held[j].bytes);
    }
  }

  lemma AddFaithful(p: Pool, held: seq<Packet>, dst: uint16, prev: uint16, id: uint8, ptype: uint8, duration: uint32,
                    max: uint8, now: int, payload: seq<byte>, crc: Crc, good: nat)
    requires Faithful(p, held, crc)
    ensures var (q, r) := Add(p, dst, prev, id, ptype, duration, max, now, payload, crc, good);
      var data := Cut(payload);
      Faithful(q, if r.Some? then held[r.value := Packet(data, PutOk(r.value, data, good))] else held, crc)
  {
    var (q, r) := Add(p, dst, prev, id, ptype, duration, max, now, payload, crc, good);
    if r.Some? && |payload| > 0 {
      PutFaithful(p, q, held, r.value, Cut(payload), crc, good);
    }
  }

  lemma UpdateFaithful(p: Pool, held: seq<Packet>, id: uint8, payload: seq<byte>, crc: Crc, good: nat)
    requires Faithful(p, held, crc)
    ensures var i := FindFrom(p.entries, id, 0);
      Faithful(Update(p, id, payload, crc, good).0,
               if i < ENTRIES then held[i := Packet(Cut(payload), PutOk(i, Cut(payload), good))] else held, crc)
  {
    var i := FindFrom(p.entries, id, 0);
    if i < ENTRIES {
      PutFaithful(p, Update(p, id, payload, crc, good).0, held, i, Cut(payload), crc, good);
    }
  }

  /** Entries that are dropped or whose timers move hold what they held. */
  lemma FewerFaithful(p: Pool, q: Pool, held: seq<Packet>, crc: Crc)
    requires Faithful(p, held, crc) && Shape(q) && q.mem == p.mem
    requires forall i :: 0 <= i < ENTRIES && q.entries[i].active ==>
      p.entries[i].active && q.entries[i].len == p.entries[i].len
    ensures Faithful(q, held, crc)
  {
  }

  /** A packet put on the transmit queue again, beside the one handed over last for its entry. */
  datatype Sending = Sending(bytes: seq<byte>, first: Packet)

  function SendingsOf(rs: seq<Report>, held: seq<Packet>): seq<Sending>
    requires forall r :: r in rs ==> r.index < |held|
  {
    if rs == [] then []
    else
      (if Resent(rs[0]).Some? then [Sending(Resent(rs[0]).value, held[rs[0].index])] else []) +
          SendingsOf(rs[1..], held)
  }

  /** Whatever the external RAM accepted is sent again byte for byte. */
  ghost predicate AllIdentical(log: seq<Sending>) {
    forall x :: x in log && x.first.stored ==> x.bytes == x.first.bytes
  }

  lemma {:induction false} ReportsInRange(p: Pool, clock: seq<Reading>, oks: seq<bool>, crc: Crc, i: nat)
    requires Shape(p) && |clock| == |oks| == ENTRIES && i <= ENTRIES
    ensures forall r :: r in ReportsFrom(p, clock, oks, crc, i) ==> r.index < ENTRIES
    decreases ENTRIES - i
  {
    if i < ENTRIES {
      ReportsInRange(p, clock, oks, crc, i + 1);
    }
  }

  /** A retransmission carries exactly the bytes first queued, if it carries any. */
  lemma ResentIdentical(p: Pool, held: seq<Packet>, i: nat, r: Reading, crc: Crc, ok: bool)
    requires Faithful(p, held, crc) && i < ENTRIES && Fires1(p.entries[i], r) && held[i].stored
    ensures var x := Resent(Reported(p, i, r, crc, ok));
      x.Some? <==> ok && p.entries[i].len > 0 && Looked(p.entries[i], r).active
    ensures var x := Resent(Reported(p, i, r, crc, ok)); x.Some? ==> x.value == held[i].bytes
  {
    if p.entries[i].len > 0 {
      HeldReads(p.mem, i, held[i].bytes, crc, ok);
    }
  }

  ghost predicate ResentAsHeld(rs: seq<Report>, held: seq<Packet>) {
    forall r :: r in rs ==>
      r.index < |held| && (Resent(r).Some? && held[r.index].stored ==> Resent(r).value == held[r.index].bytes)
  }

  lemma {:induction false} ReportsFaithful(p: Pool, held: seq<Packet>, clock: seq<Reading>, oks: seq<bool>, crc: Crc,
                                           i: nat)
    requires Faithful(p, held, crc) && |clock| == |oks| == ENTRIES && i <= ENTRIES
    ensures ResentAsHeld(ReportsFrom(p, clock, oks, crc, i), held)
    decreases ENTRIES - i
  {
    if i < ENTRIES {
      if Fires1(p.entries[i], clock[i]) && held[i].stored {
        ResentIdentical(p, held, i, clock[i], crc, oks[i]);
      }
      ReportsFaithful(p, held, clock, oks, crc, i + 1);
    }
  }

  lemma {:induction false} SendingsIdentical(rs: seq<Report>, held: seq<Packet>)
    requires ResentAsHeld(rs, held)
    ensures AllIdentical(SendingsOf(rs, held))
  {
    if rs != [] {
      SendingsIdentical(rs[1..], held);
    }
  }

  // --------------------------------------------------------------- whole runs

  datatype Op =
    | OpAdd(dst: uint16, prev: uint16, ptype: uint8, duration: uint32, max: uint8, now: int, payload: seq<byte>,
        good: nat)
    | OpDraw   // an id for a packet that is not tracked
    | OpAck(id: uint8)
    | OpForget(dst: uint16)
    | OpUpdate(id: uint8, payload: seq<byte>, good: nat)
    | OpTick(clock: seq<Reading>, oks: seq<bool>)

  /** One reading of the clock and one memory read for every entry. */
  predicate OpOk(op: Op) {
    op.OpTick? ==> |op.clock| == |op.oks| == ENTRIES
  }

  /** The pool, the packet last handed over for each entry, everything sent again so far, and which draw gave each
      entry its id out of how many. */
  datatype Trace = Trace(pool: Pool, held: seq<Packet>, log: seq<Sending>, drawn: seq<nat>, total: nat)

  ghost predicate TraceOk(t: Trace, crc: Crc) {
    Faithful(t.pool, t.held, crc) && AllIdentical(t.log) && Numbered(t.pool, t.drawn, t.total)
  }

  /** Handing a packet over: its id is drawn first, and lost if the pool is full. */
  function Handover(t: Trace, op: Op, crc: Crc): Trace
    requires Shape(t.pool) && |t.held| == |t.drawn| == ENTRIES && op.OpAdd?
  {
    var (q, r) := Add(t.pool.(next := NextId(t.pool.next)), op.dst, op.prev, t.pool.next, op.ptype, op.duration, op.max,
                      op.now, op.payload, crc, op.good);
    if r.None? then t.(pool := q, total := t.total + 1)
    else
      var (i, data) := (r.value, Cut(op.payload));
      Trace(q, t.held[i := Packet(data, PutOk(i, data, op.good))], t.log, t.drawn[i := t.total], t.total + 1)
  }

  function Perform(t: Trace, op: Op, crc: Crc): (u: Trace)
    requires Shape(t.pool) && |t.held| == |t.drawn| == ENTRIES && OpOk(op)
    ensures Shape(u.pool) && |u.held| == |u.drawn| == ENTRIES
  {
    match op
    case OpAdd(_, _, _, _, _, _, _, _) => Handover(t, op, crc)
    case OpDraw => t.(pool := t.pool.(next := NextId(t.pool.next)), total := t.total + 1)
    case OpAck(id) => t.(pool := RemoveById(t.pool, id))
    case OpForget(dst) => t.(pool := RemoveByDevice(t.pool, dst))
    case OpUpdate(id, payload, good) =>
      var i, data := FindFrom(t.pool.entries, id, 0), Cut(payload);
      t.(pool := Update(t.pool, id, payload, crc, good).0,
         held := if i < ENTRIES then t.held[i := Packet(data, PutOk(i, data, good))] else t.held)
    case OpTick(clock, oks) =>
      var (q, rs) := Tick(t.pool, clock, oks, crc);
      ReportsInRange(t.pool, clock, oks, crc, 0);
      t.(pool := q, log := t.log + SendingsOf(rs, t.held))
  }

  /** Entries keep their ids while they are active. */
  lemma FewerNumbered(p: Pool, q: Pool, drawn: seq<nat>, total: nat)
    requires Numbered(p, drawn, total) && Shape(q) && q.next == p.next
    requires forall i :: 0 <= i < ENTRIES && q.entries[i].active ==>
      p.entries[i].active && q.entries[i].id == p.entries[i].id
    ensures Numbered(q, drawn, total)
  {
  }

  lemma HandoverKeeps(t: Trace, op: Op, crc: Crc)
    requires TraceOk(t, crc) && op.OpAdd?
    ensures TraceOk(Handover(t, op, crc), crc)
  {
    var drawn := t.pool.(next := NextId(t.pool.next));
    FewerFaithful(t.pool, drawn, t.held, crc);
    AddFaithful(drawn, t.held, op.dst, op.prev, t.pool.next, op.ptype, op.duration, op.max, op.now, op.payload, crc,
        op.good);
    DrawNext(t.total);
  }

  lemma LookedKeeps(p: Pool, held: seq<Packet>, drawn: seq<nat>, total: nat, clock: seq<Reading>, crc: Crc)
    requires Faithful(p, held, crc) && Numbered(p, drawn, total) && |clock| == ENTRIES
    ensures var q := p.(entries := LookedEntries(p, clock)); Faithful(q, held, crc) && Numbered(q, drawn, total)
  {
    var q := p.(entries := LookedEntries(p, clock));
    FewerFaithful(p, q, held, crc);
    FewerNumbered(p, q, drawn, total);
  }

  lemma LogKeeps(p: Pool, held: seq<Packet>, log: seq<Sending>, clock: seq<Reading>, oks: seq<bool>, crc: Crc)
    requires Faithful(p, held, crc) && AllIdentical(log) && |clock| == |oks| == ENTRIES
    requires forall r :: r in ReportsFrom(p, clock, oks, crc, 0) ==> r.index < ENTRIES
    ensures AllIdentical(log + SendingsOf(ReportsFrom(p, clock, oks, crc, 0), held))
  {
    ReportsFaithful(p, held, clock, oks, crc, 0);
    SendingsIdentical(ReportsFrom(p, clock, oks, crc, 0), held);
  }

  lemma TickKeeps(t: Trace, clock: seq<Reading>, oks: seq<bool>, crc: Crc)
    requires TraceOk(t, crc) && |clock| == |oks| == ENTRIES
    ensures TraceOk(Perform(t, OpTick(clock, oks), crc), crc)
  {
    LookedKeeps(t.pool, t.held, t.drawn, t.total, clock, crc);
    ReportsInRange(t.pool, clock, oks, crc, 0);
    LogKeeps(t.pool, t.held, t.log, clock, oks, crc);
  }

  lemma RemovalKeeps(t: Trace, q: Pool, crc: Crc)
    requires TraceOk(t, crc) && Shape(q) && q.mem == t.pool.mem && q.next == t.pool.next
    requires forall i :: 0 <= i < ENTRIES && q.entries[i].active ==> q.entries[i] == t.pool.entries[i]
    ensures TraceOk(t.(pool := q), crc)
  {
    FewerFaithful(t.pool, q, t.held, crc);
    FewerNumbered(t.pool, q, t.drawn, t.total);
  }

  lemma PerformKeeps(t: Trace, op: Op, crc: Crc)
    requires TraceOk(t, crc) && OpOk(op)
    ensures TraceOk(Perform(t, op, crc), crc)
  {
    match op
    case OpAdd(_, _, _, _, _, _, _, _) => HandoverKeeps(t, op, crc);
    case OpDraw =>
      FewerFaithful(t.pool, t.pool.(next := NextId(t.pool.next)), t.held, crc);
      DrawNext(t.total);
    case OpAck(id) => RemovalKeeps(t, RemoveById(t.pool, id), crc);
    case OpForget(dst) => RemovalKeeps(t, RemoveByDevice(t.pool, dst), crc);
    case OpUpdate(id, payload, good) =>
      UpdateFaithful(t.pool, t.held, id, payload, crc, good);
      FewerNumbered(t.pool, Update(t.pool, id, payload, crc, good).0, t.drawn, t.total);
    case OpTick(clock, oks) => TickKeeps(t, clock, oks, crc);
  }

  function PerformAll(t: Trace, ops: seq<Op>, crc: Crc): (u: Trace)
    requires Shape(t.pool) && |t.held| == |t.drawn| == ENTRIES && forall op :: op in ops ==> OpOk(op)
    ensures Shape(u.pool) && |u.held| == |u.drawn| == ENTRIES
    decreases |ops|
  {
    if ops == [] then t else PerformAll(Perform(t, ops[0], crc), ops[1..], crc)
  }

  lemma {:induction false} RunKeeps(t: Trace, ops: seq<Op>, crc: Crc)
    requires TraceOk(t, crc) && forall op :: op in ops ==> OpOk(op)
    ensures TraceOk(PerformAll(t, ops, crc), crc)
    decreases |ops|
  {
    if ops != [] {
      PerformKeeps(t, ops[0], crc);
      RunKeeps(Perform(t, ops[0], crc), ops[1..], crc);
    }
  }

  /** tracker_init. */
  ghost predicate Fresh(t: Trace) {
    && Shape(t.pool) && t.pool.next == 1 && |t.held| == |t.drawn| == ENTRIES && t.log == [] && t.total == 0
    && forall i :: 0 <= i < ENTRIES ==> !t.pool.entries[i].active
  }

  /** In every run from start-up, whichever memory writes fail, across slot reuse and payload updates, a packet
      that the external RAM accepted is sent again byte for byte as it was first put on the transmit queue. */
  lemma RetransmissionsIdentical(t: Trace, ops: seq<Op>, crc: Crc)
    requires Fresh(t) && forall op :: op in ops ==> OpOk(op)
    ensures AllIdentical(PerformAll(t, ops, crc).log)
  {
    RunKeeps(t, ops, crc);
  }

  /** In every state of every run from start-up the ids of active entries are those of their draws; so as long as
      each was drawn within the last 254 draws, they are pairwise distinct and an ACK removes exactly the entry it
      names. */
  lemma IdsOverRuns(t: Trace, ops: seq<Op>, crc: Crc, j: nat)
    requires Fresh(t) && (forall op :: op in ops ==> OpOk(op)) && j < ENTRIES
    ensures var u := PerformAll(t, ops, crc);
      && Numbered(u.pool, u.drawn, u.total)
      && (Recent(u.pool, u.drawn, u.total) && u.pool.entries[j].active ==>
            && RemoveById(u.pool, u.pool.entries[j].id) ==
                 u.pool.(entries := u.pool.entries[j := Dropped(u.pool.entries[j])])
            && forall i :: 0 <= i < ENTRIES && i != j && u.pool.entries[i].active ==>
                 u.pool.entries[i].id != u.pool.entries[j].id)
  {
    RunKeeps(t, ops, crc);
    var u := PerformAll(t, ops, crc);
    if Recent(u.pool, u.drawn, u.total) && u.pool.entries[j].active {
      AckRemovesNamed(u.pool, u.drawn, u.total, j);
      forall i | 0 <= i < ENTRIES && i != j && u.pool.entries[i].active
        ensures u.pool.entries[i].id != u.pool.entries[j].id
      {
        if i < j {
          ActiveIdsDistinct(u.pool, u.drawn, u.total, i, j);
        } else {
          ActiveIdsDistinct(u.pool, u.drawn, u.total, j, i);
        }
      }
    }
  }

  // ----------------------------------------------------- timers and termination

  /** Every active entry waits for a deadline. */
  ghost predicate TimersRun(p: Pool) {
    Shape(p) && forall i :: 0 <= i < ENTRIES && p.entries[i].active ==> p.entries[i].timer.deadline != 0
  }

  /** tracker_add leaves the timer running exactly unless the clock and the duration are both zero. */
  lemma AddStartsTimer(p: Pool, dst: uint16, prev: uint16, id: uint8, ptype: uint8, duration: uint32, max: uint8,
                       now: int, payload: seq<byte>, crc: Crc, good: nat)
    requires TimersRun(p) && now >= 0 && FreeFrom(p.entries, 0) < ENTRIES
    ensures TimersRun(Add(p, dst, prev, id, ptype, duration, max, now, payload, crc, good).0) <==> now + duration > 0
  {
    var (q, r) := Add(p, dst, prev, id, ptype, duration, max, now, payload, crc, good);
    assert q.entries[r.value].active;
  }

  /** Every timer that the pass restarts gets a deadline. */
  predicate Restarts(p: Pool, clock: seq<Reading>)
    requires Shape(p) && |clock| == ENTRIES
  {
    forall i :: 0 <= i < ENTRIES && Fires1(p.entries[i], clock[i]) && Looked(p.entries[i], clock[i]).active ==>
      clock[i].again + p.entries[i].timer.duration != 0
  }

  /** A pass keeps every active entry's timer running exactly unless a restart meets clock and duration zero. */
  lemma TickTimersExact(p: Pool, clock: seq<Reading>)
    requires TimersRun(p) && |clock| == ENTRIES
    ensures TimersRun(p.(entries := LookedEntries(p, clock))) <==> Restarts(p, clock)
  {
    var q := p.(entries := LookedEntries(p, clock));
    assert forall i :: 0 <= i < ENTRIES ==> q.entries[i] == Looked(p.entries[i], clock[i]);
  }

  /** The clock has started and every timer that is set has a duration. */
  predicate Timely(op: Op) {
    match op
    case OpAdd(_, _, _, duration, _, now, _, _) => now >= 0 && duration > 0
    case OpTick(clock, _) => forall i :: 0 <= i < |clock| ==> clock[i].again >= 0
    case _ => true
  }

  /** Every active entry waits for a deadline and would get another. */
  ghost predicate TimersSet(p: Pool) {
    TimersRun(p) && forall i :: 0 <= i < ENTRIES && p.entries[i].active ==> p.entries[i].timer.duration > 0
  }

  lemma PerformKeepsTimers(t: Trace, op: Op, crc: Crc)
    requires TimersSet(t.pool) && |t.held| == |t.drawn| == ENTRIES && OpOk(op) && Timely(op)
    ensures TimersSet(Perform(t, op, crc).pool)
  {
    if op.OpTick? {
      LookedTimers(t.pool, op.clock);
    } else if op.OpAdd? {
      AddedTimers(t.pool.(next := NextId(t.pool.next)), op, t.pool.next, crc);
    } else {
      FewerTimers(t.pool, Perform(t, op, crc).pool);
    }
  }

  lemma LookedTimers(p: Pool, clock: seq<Reading>)
    requires TimersSet(p) && |clock| == ENTRIES && forall i :: 0 <= i < ENTRIES ==> clock[i].again >= 0
    ensures TimersSet(p.(entries := LookedEntries(p, clock)))
  {
    var q := p.(entries := LookedEntries(p, clock));
    TickTimersExact(p, clock);
    assert forall i :: 0 <= i < ENTRIES ==> q.entries[i] == Looked(p.entries[i], clock[i]);
  }

  lemma AddedTimers(p: Pool, op: Op, id: uint8, crc: Crc)
    requires TimersSet(p) && op.OpAdd? && Timely(op)
    ensures TimersSet(Add(p, op.dst, op.prev, id, op.ptype, op.duration, op.max, op.now, op.payload, crc, op.good).0)
  {
  }

  lemma FewerTimers(p: Pool, q: Pool)
    requires TimersSet(p) && Shape(q)
    requires forall i :: 0 <= i < ENTRIES && q.entries[i].active ==>
               p.entries[i].active && q.entries[i].timer == p.entries[i].timer
    ensures TimersSet(q)
  {
  }

  /** In every state of every run from start-up every active entry has a running timer, so that the looks left in
      the pool measure how long it can go on. */
  lemma {:induction false} TimersOverRuns(t: Trace, ops: seq<Op>, crc: Crc)
    requires TimersSet(t.pool) && |t.held| == |t.drawn| == ENTRIES
    requires forall op :: op in ops ==> OpOk(op) && Timely(op)
    ensures TimersSet(PerformAll(t, ops, crc).pool)
    decreases |ops|
  {
    if ops != [] {
      PerformKeepsTimers(t, ops[0], crc);
      TimersOverRuns(Perform(t, ops[0], crc), ops[1..], crc);
    }
  }

  /** The looks an entry has left before it is dropped; with max = 255 there is no end. */
  function Left(e: Entry): nat {
    if !e.active then 0
    else if e.timer.retries <= e.timer.maxRetries then e.timer.maxRetries - e.timer.retries + 1
    else 1
  }

  function LeftFrom(es: seq<Entry>, i: nat): nat
    requires i <= |es|
    decreases |es| - i
  {
    if i == |es| then 0 else Left(es[i]) + LeftFrom(es, i + 1)
  }

  predicate Bounded(e: Entry) {
    e.active ==> e.timer.maxRetries <= 254 && e.timer.retries <= 254
  }

  lemma LookedLeft(e: Entry, r: Reading)
    requires Bounded(e)
    ensures Bounded(Looked(e, r)) && Left(e) == Left(Looked(e, r)) + if Fires1(e, r) then 1 else 0
  {
  }

  /** Every callback of a pass uses up exactly one of the looks left in the pool, so with nothing added the
      callbacks of any number of passes are no more than the looks left at the start. */
  lemma {:induction false} TickUsesUp(p: Pool, clock: seq<Reading>, oks: seq<bool>, crc: Crc, i: nat)
    requires Shape(p) && |clock| == |oks| == ENTRIES && i <= ENTRIES
    requires forall k :: 0 <= k < ENTRIES ==> Bounded(p.entries[k])
    ensures LeftFrom(p.entries, i) == LeftFrom(LookedEntries(p, clock), i) + |ReportsFrom(p, clock, oks, crc, i)|
    decreases ENTRIES - i
  {
    if i < ENTRIES {
      LookedLeft(p.entries[i], clock[i]);
      TickUsesUp(p, clock, oks, crc, i + 1);
    }
  }
}
