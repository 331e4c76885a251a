/** src/tracker.c as it runs: the index pool in an array, payloads in the external RAM. Every method is tied
    to the step function of the same operation. */
module TrackerMachine {
  import opened Basics
  import opened PsramDriver
  import opened Timeout
  import opened TrackerPool

  const NO_ENTRY := -1

  function IdleEntry(): Entry {
    Entry(0, 0, 0, 0, Timer(0, 0, 0, 0), false, 0)
  }

  class Tracker {
    const pool: array<Entry>
    const ram: Psram
    const buf: array<byte>
    const crc: Crc
    var next: uint8

    ghost predicate Valid()
      reads this, pool, ram
    {
      && pool.Length == ENTRIES && buf.Length == SLOT_SIZE && ram.Valid() && ram.ready && buf != ram.data
      && forall i :: 0 <= i < ENTRIES ==> pool[i].len <= PAYLOAD_MAX
    }

    ghost function Abs(): (p: Pool)
      reads this, pool, ram, ram.data
      requires Valid()
      ensures Shape(p)
    {
      Pool(pool[..], ram.data[..], next)
    }

    /** tracker_init on zeroed statics. */
    constructor (ram: Psram, crc: Crc)
      requires ram.Valid() && ram.ready
      ensures Valid() && fresh(pool) && fresh(buf) && this.ram == ram && this.crc == crc && next == Draw(0)
      ensures forall i :: 0 <= i < ENTRIES ==> !pool[i].active
    {
      pool := new Entry[ENTRIES](_ => IdleEntry());
      buf := new byte[SLOT_SIZE](_ => 0);
      this.ram := ram;
      this.crc := crc;
      next := 1;
      new;
      for i := 0 to ENTRIES
        modifies pool
        invariant forall k :: 0 <= k < ENTRIES ==> pool[k].len <= PAYLOAD_MAX
        invariant forall k :: 0 <= k < i ==> !pool[k].active
      {
        pool[i] := pool[i].(active := false);
      }
    }

    /** tracker_next_id. */
    method NextTrackingId() returns (id: uint8)
      requires Valid()
      modifies this`next
      ensures id == old(next) && Abs() == old(Abs()).(next := NextId(old(next)))
    {
      id := next;
      next := (next + 1) % 0x100;
      if next >= 255 || next == 0 {
        next := 1;
      }
    }

    /** The two memcpy calls of psram_payload_write. */
    method FillBuffer(payload: seq<byte>)
      requires Valid() && |payload| <= PAYLOAD_MAX
      modifies buf
      ensures buf[..|payload| + 2] == Image(crc, payload)
    {
      var c := crc(payload);
      forall k | 0 <= k < |payload| {
        buf[k] := payload[k];
      }
      buf[|payload|], buf[|payload| + 1] := c % 0x100, c / 0x100;
    }

    /** psram_payload_write: payload and checksum in one write. */
    method PayloadWrite(i: nat, payload: seq<byte>, good: nat) returns (err: int)
      requires Valid() && i < ENTRIES && |payload| <= PAYLOAD_MAX
      modifies buf, ram.data
      ensures err == OK <==> PutOk(i, payload, good)
      ensures ram.data[..] == Put(old(ram.data[..]), i, payload, crc, good)
    {
      FillBuffer(payload);
      ghost var before := ram.data[..];
      err := ram.Write(i * SLOT_SIZE, buf[..|payload| + 2], good);
      StoredByPoints(before, ram.data[..], Addr(i), Image(crc, payload), good);
    }

    /** psram_payload_read: the payload, unless the read fails or the checksum differs. */
    method PayloadRead(i: nat, len: nat, ok: bool) returns (data: Option<seq<byte>>)
      requires Valid() && i < ENTRIES && len <= PAYLOAD_MAX
      modifies buf
      ensures data == Read(ram.data[..], i, len, crc, ok)
    {
      TwoBursts(i * SLOT_SIZE, len + 2, 2);
      var err := ram.Read(i * SLOT_SIZE, buf, len + 2, if ok then 2 else 0);
      if err != OK {
        return None;
      }
      var payload := buf[..len];
      assert payload == ram.data[..][Addr(i)..Addr(i) + len];
      var lo: nat, hi: nat := buf[len], buf[len + 1];
      TwoBytes(lo, hi, crc(payload));
      if lo + 0x100 * hi != crc(payload) {
        return None;
      }
      return Some(payload);
    }

    method FirstFree() returns (i: nat)
      requires Valid()
      ensures i == FreeFrom(pool[..], 0)
    {
      i := 0;
      while i < ENTRIES
        invariant i <= ENTRIES
        invariant forall j :: 0 <= j < i ==> pool[j].active
      {
        if !pool[i].active {
          break;
        }
        i := i + 1;
      }
    }

    method Find(id: uint8) returns (i: nat)
      requires Valid()
      ensures i == FindFrom(pool[..], id, 0)
    {
      i := 0;
      while i < ENTRIES
        invariant i <= ENTRIES
        invariant forall j :: 0 <= j < i ==> !(pool[j].active && pool[j].id == id)
      {
        if pool[i].active && pool[i].id == id {
          break;
        }
        i := i + 1;
      }
    }

    /** tracker_add; the clock is read once, when the timer is started. */
    method AddEntry(dst: uint16, prev: uint16, id: uint8, ptype: uint8, duration: uint32, max: uint8, now: int,
                    payload: seq<byte>, good: nat)
      returns (i: int)
      requires Valid()
      modifies pool, buf, ram.data
      ensures Valid()
      ensures var (q, r) := Add(old(Abs()), dst, prev, id, ptype, duration, max, now, payload, crc, good);
        Abs() == q && i == if r.Some? then r.value else NO_ENTRY
    {
      i := FirstFree();
      if i >= ENTRIES {
        return NO_ENTRY;
      }
      ghost var p := Abs();
      var timer := Start(Init(duration, max), now);
      pool[i] := Entry(dst, prev, id, ptype, timer, true, 0);
      if |payload| > 0 {
        var data := if |payload| > PAYLOAD_MAX then payload[..PAYLOAD_MAX] else payload;
        pool[i] := pool[i].(len := |data|);
        var _ := PayloadWrite(i, data, good);
      }
    }

    /** tracker_remove_by_tracking_id. */
    method RemoveByTrackingId(id: uint8)
      requires Valid()
      modifies pool
      ensures Valid() && Abs() == RemoveById(old(Abs()), id)
    {
      var i := Find(id);
      if i < ENTRIES {
        pool[i] := pool[i].(active := false, timer := Stop(pool[i].timer));
      }
    }

    /** tracker_remove_by_device. */
    method RemoveAllFor(dst: uint16)
      requires Valid()
      modifies pool
      ensures Valid() && Abs() == RemoveByDevice(old(Abs()), dst)
    {
      for i := 0 to ENTRIES
        invariant Valid()
        invariant forall k :: i <= k < ENTRIES ==> pool[k] == old(pool[k])
        invariant forall k :: 0 <= k < i ==>
          pool[k] == if old(pool[k]).active && old(pool[k]).dst == dst then Dropped(old(pool[k])) else old(pool[k])
      {
        if pool[i].active && pool[i].dst == dst {
          pool[i] := pool[i].(active := false, timer := Stop(pool[i].timer));
        }
      }
    }

    /** tracker_update_payload. */
    method UpdatePayload(id: uint8, payload: seq<byte>, good: nat) returns (ok: bool)
      requires Valid()
      modifies pool, buf, ram.data
      ensures Valid() && (Abs(), ok) == Update(old(Abs()), id, payload, crc, good)
    {
      var i := Find(id);
      if i >= ENTRIES {
        return false;
      }
      var data := if |payload| > PAYLOAD_MAX then payload[..PAYLOAD_MAX] else payload;
      pool[i] := pool[i].(len := |data|);
      var err := PayloadWrite(i, data, good);
      return err == OK;
    }

    /** One turn of tracker_tick: the callback for entry i, if there is one. */
    method LookAt(i: nat, r: Reading, ok: bool) returns (rep: Option<Report>)
      requires Valid() && i < ENTRIES
      modifies pool, buf
      ensures Valid() && pool[..] == old(pool[..])[i := Looked(old(pool[i]), r)]
      ensures rep == if Fires1(old(pool[i]), r) then Some(Reported(old(Abs()), i, r, crc, ok)) else None
    {
      if !pool[i].active || !Expired(pool[i].timer, r.seen) {
        return None;
      }
      var (timer, exhausted) := Retry(pool[i].timer, r.again);
      pool[i] := pool[i].(timer := timer);
      if exhausted {
        pool[i] := pool[i].(active := false);
      }
      var payload := [];
      if pool[i].len > 0 {
        var data := PayloadRead(i, pool[i].len, ok);
        payload := if data.Some? then data.value else [];
      }
      return Some(Report(i, pool[i], payload, exhausted));
    }

    /** tracker_tick; rs are the callbacks in the order they are made. */
    method TickAll(clock: seq<Reading>, oks: seq<bool>) returns (rs: seq<Report>)
      requires Valid() && |clock| == |oks| == ENTRIES
      modifies pool, buf
      ensures Valid() && (Abs(), rs) == Tick(old(Abs()), clock, oks, crc)
    {
      ghost var p := Abs();
      rs := [];
      assert [] + ReportsFrom(p, clock, oks, crc, 0) == ReportsFrom(p, clock, oks, crc, 0);
      for i := 0 to ENTRIES
        invariant Valid() && ram.data[..] == p.mem && next == p.next
        invariant PartlyLooked(p, pool[..], clock, i)
        invariant ReportsFrom(p, clock, oks, crc, 0) == rs + ReportsFrom(p, clock, oks, crc, i)
      {
        ReportsStep(p, clock, oks, crc, rs, i);
        SameReport(p, Abs(), i, clock[i], crc, oks[i]);
        ghost var es := pool[..];
        var rep := LookAt(i, clock[i], oks[i]);
        OneMoreLooked(p, es, clock, i);
        if rep.Some? {
          rs := rs + [rep.value];
        }
      }
      assert rs + [] == rs;
      AllLooked(p, pool[..], clock);
    }
  }

  /** A stored checksum, low byte first. */
  lemma TwoBytes(lo: nat, hi: nat, c: uint16)
    requires lo < 0x100 && hi < 0x100
    ensures lo + 0x100 * hi == c <==> lo == c % 0x100 && hi == c / 0x100
  {
  }

  /** The pass has looked at the entries before i. */
  ghost predicate PartlyLooked(p: Pool, es: seq<Entry>, clock: seq<Reading>, i: nat)
    requires Shape(p) && |clock| == ENTRIES
  {
    && |es| == ENTRIES
    && forall k :: 0 <= k < ENTRIES ==> es[k] == if k < i then Looked(p.entries[k], clock[k]) else p.entries[k]
  }

  lemma OneMoreLooked(p: Pool, es: seq<Entry>, clock: seq<Reading>, i: nat)
    requires Shape(p) && |clock| == ENTRIES && i < ENTRIES && PartlyLooked(p, es, clock, i)
    ensures PartlyLooked(p, es[i := Looked(es[i], clock[i])], clock, i + 1)
  {
  }

  lemma AllLooked(p: Pool, es: seq<Entry>, clock: seq<Reading>)
    requires Shape(p) && |clock| == ENTRIES && PartlyLooked(p, es, clock, ENTRIES)
    ensures es == LookedEntries(p, clock)
  {
  }

  /** A report depends on the entry and the payload memory only. */
  lemma SameReport(p: Pool, q: Pool, i: nat, r: Reading, crc: Crc, ok: bool)
    requires Shape(p) && Shape(q) && i < ENTRIES && q.mem == p.mem && q.entries[i] == p.entries[i]
    ensures Reported(q, i, r, crc, ok) == Reported(p, i, r, crc, ok)
  {
  }

  lemma ReportsStep(p: Pool, clock: seq<Reading>, oks: seq<bool>, crc: Crc, rs: seq<Report>, i: nat)
    requires Shape(p) && |clock| == |oks| == ENTRIES && i < ENTRIES
    requires ReportsFrom(p, clock, oks, crc, 0) == rs + ReportsFrom(p, clock, oks, crc, i)
    ensures ReportsFrom(p, clock, oks, crc, 0) ==
      (if Fires1(p.entries[i], clock[i]) then rs + [Reported(p, i, clock[i], crc, oks[i])] else rs) +
      ReportsFrom(p, clock, oks, crc, i + 1)
  {
    var rest := ReportsFrom(p, clock, oks, crc, i + 1);
    if Fires1(p.entries[i], clock[i]) {
      var r := Reported(p, i, clock[i], crc, oks[i]);
      assert rs + ([r] + rest) == (rs + [r]) + rest;
    } else {
      assert [] + rest == rest;
    }
  }
}
