/** The retry bound over runs of the pool: what the callbacks of src/tracker.c report about one packet, whatever else
    happens to the pool between two passes. */
module TrackerRetries {
  import opened Basics
  import opened Timeout
  import opened TrackerPool

  // ------------------------------------------------------ the callbacks of one pass

  /** How many reports are about entry i, exhausted or not. */
  function About(rs: seq<Report>, i: nat, exhausted: bool): nat {
    if rs == [] then 0
    else (if rs[0].index == i && rs[0].exhausted == exhausted then 1 else 0) + About(rs[1..], i, exhausted)
  }

  lemma {:induction false} AboutConcat(a: seq<Report>, b: seq<Report>, i: nat, exhausted: bool)
    ensures About(a + b, i, exhausted) == About(a, i, exhausted) + About(b, i, exhausted)
    decreases |a|
  {
    if a == [] {
      assert a + b == b;
    } else {
      assert (a + b)[1..] == a[1..] + b;
      AboutConcat(a[1..], b, i, exhausted);
    }
  }

  /** Whether a look at the entry makes a callback of that kind. */
  function Calls(e: Entry, r: Reading, exhausted: bool): nat {
    if Fires1(e, r) && Looked(e, r).active == !exhausted then 1 else 0
  }

  /** A pass makes exactly one callback for an entry whose timer has expired, and none for another. */
  lemma {:induction false} PassCallbacks(p: Pool, clock: seq<Reading>, oks: seq<bool>, crc: Crc, k: nat, i: nat,
                                         exhausted: bool)
    requires Shape(p) && |clock| == |oks| == ENTRIES && k <= ENTRIES && i < ENTRIES
    ensures About(ReportsFrom(p, clock, oks, crc, k), i, exhausted) ==
              if k <= i then Calls(p.entries[i], clock[i], exhausted) else 0
    decreases ENTRIES - k
  {
    if k < ENTRIES {
      PassCallbacks(p, clock, oks, crc, k + 1, i, exhausted);
      var head := if Fires1(p.entries[k], clock[k]) then [Reported(p, k, clock[k], crc, oks[k])] else [];
      AboutConcat(head, ReportsFrom(p, clock, oks, crc, k + 1), i, exhausted);
      OneReport(head, i, exhausted);
    }
  }

  lemma OneReport(rs: seq<Report>, i: nat, exhausted: bool)
    requires |rs| <= 1
    ensures About(rs, i, exhausted) == if |rs| == 1 && rs[0].index == i && rs[0].exhausted == exhausted then 1 else 0
  {
    if |rs| == 1 {
      assert rs[1..] == [];
    }
  }

  // -------------------------------------------------------- one packet in a run

  /** The operation gives entry i to another packet. */
  predicate Reuses(p: Pool, op: Op, i: nat)
    requires Shape(p)
  {
    op.OpAdd? && FreeFrom(p.entries, 0) == i
  }

  /** The operation drops the packet of entry i: an acknowledgement that finds it, or its device is forgotten. */
  predicate Drops(p: Pool, op: Op, i: nat)
    requires Shape(p) && i < ENTRIES
  {
    match op
    case OpAck(id) => FindFrom(p.entries, id, 0) == i
    case OpForget(dst) => p.entries[i].active && p.entries[i].dst == dst
    case _ => false
  }

  /** The callbacks about the packet in entry i, exhausted or not, until the entry is given to another one. */
  function Callbacks(t: Trace, ops: seq<Op>, crc: Crc, i: nat, exhausted: bool): nat
    requires Shape(t.pool) && |t.held| == |t.drawn| == ENTRIES && forall op :: op in ops ==> OpOk(op)
    decreases |ops|
  {
    if ops == [] || Reuses(t.pool, ops[0], i) then 0
    else
      assert OpOk(ops[0]);
      (if ops[0].OpTick? then About(Tick(t.pool, ops[0].clock, ops[0].oks, crc).1, i, exhausted) else 0) +
      Callbacks(Perform(t, ops[0], crc), ops[1..], crc, i, exhausted)
  }

  /** No operation drops the packet in entry i before the entry is given to another one. */
  predicate Unanswered(t: Trace, ops: seq<Op>, crc: Crc, i: nat)
    requires Shape(t.pool) && |t.held| == |t.drawn| == ENTRIES && (forall op :: op in ops ==> OpOk(op)) && i < ENTRIES
    decreases |ops|
  {
    ops == [] || Reuses(t.pool, ops[0], i) ||
    (!Drops(t.pool, ops[0], i) && Unanswered(Perform(t, ops[0], crc), ops[1..], crc, i))
  }

  /** The clock readings of the looks at entry i. */
  function Looks(ops: seq<Op>, i: nat): seq<Reading>
    requires (forall op :: op in ops ==> OpOk(op)) && i < ENTRIES
  {
    if ops == [] then []
    else
      assert OpOk(ops[0]);
      (if ops[0].OpTick? then [ops[0].clock[i]] else []) + Looks(ops[1..], i)
  }

  /** What is not a look at entry i, does not drop its packet and does not reuse it, leaves its timer alone. */
  lemma OthersLeaveTimer(t: Trace, op: Op, crc: Crc, i: nat)
    requires Shape(t.pool) && |t.held| == |t.drawn| == ENTRIES && OpOk(op) && i < ENTRIES
    requires !op.OpTick? && !Reuses(t.pool, op, i) && !Drops(t.pool, op, i)
    ensures var (e, f) := (t.pool.entries[i], Perform(t, op, crc).pool.entries[i]);
      f.timer == e.timer && f.active == e.active
  {
  }

  lemma TickLooks(t: Trace, op: Op, crc: Crc, i: nat)
    requires Shape(t.pool) && |t.held| == |t.drawn| == ENTRIES && OpOk(op) && op.OpTick? && i < ENTRIES
    ensures Perform(t, op, crc).pool.entries[i] == Looked(t.pool.entries[i], op.clock[i])
  {
  }

  /** The entry is at this point of its timer's life. */
  predicate Lives(e: Entry, l: Life) {
    && e.timer == l.timer && l.reported <= 1 && (e.active <==> l.reported == 0)
    && (!e.active ==> e.timer.deadline == 0)
  }

  lemma LookLives(e: Entry, l: Life, r: Reading)
    requires Lives(e, l)
    ensures Lives(Looked(e, r), Look(l, r))
    ensures Look(l, r).resent == l.resent + Calls(e, r, false)
    ensures Look(l, r).reported == l.reported + Calls(e, r, true)
  {
  }

  /** An entry that waits unanswered in the pool lives the life of its timer, and the callbacks about it are those
      of that life. */
  lemma {:induction false} RunIsLife(t: Trace, ops: seq<Op>, crc: Crc, i: nat, l: Life)
    requires Shape(t.pool) && |t.held| == |t.drawn| == ENTRIES && (forall op :: op in ops ==> OpOk(op)) && i < ENTRIES
    requires Lives(t.pool.entries[i], l) && Unanswered(t, ops, crc, i)
    ensures var u := Live(l, Looks(ops, i));
      && Callbacks(t, ops, crc, i, false) == u.resent - l.resent
      && Callbacks(t, ops, crc, i, true) == u.reported - l.reported
    decreases |ops|
  {
    if ops != [] {
      var op := ops[0];
      if Reuses(t.pool, op, i) {
        StoppedLife(l, Looks(ops, i));
      } else {
        var u := Perform(t, op, crc);
        if op.OpTick? {
          TickLooks(t, op, crc, i);
          LookLives(t.pool.entries[i], l, op.clock[i]);
          PassCallbacks(t.pool, op.clock, op.oks, crc, 0, i, false);
          PassCallbacks(t.pool, op.clock, op.oks, crc, 0, i, true);
          RunIsLife(u, ops[1..], crc, i, Look(l, op.clock[i]));
          assert Looks(ops, i)[0] == op.clock[i] && Looks(ops, i)[1..] == Looks(ops[1..], i);
        } else {
          OthersLeaveTimer(t, op, crc, i);
          RunIsLife(u, ops[1..], crc, i, l);
          assert Looks(ops, i) == Looks(ops[1..], i);
        }
      }
    }
  }

  /** The operation hands a packet over and entry i takes it. */
  predicate TakenBy(t: Trace, op: Op, i: nat)
    requires Shape(t.pool)
  {
    op.OpAdd? && i < ENTRIES && FreeFrom(t.pool.entries, 0) == i
  }

  lemma HandedOver(t: Trace, op: Op, crc: Crc, i: nat)
    requires Shape(t.pool) && |t.held| == |t.drawn| == ENTRIES && OpOk(op) && TakenBy(t, op, i)
    ensures var e := Perform(t, op, crc).pool.entries[i];
      e.timer == Start(Init(op.duration, op.max), op.now) && e.active
  {
  }

  /** The retry bound over every run of the pool: a packet handed over in any state, and neither acknowledged nor
      forgotten with its device in what follows, whatever other packets are added, acknowledged, forgotten and
      rewritten in between, is sent again on each of the first max - 1 expiries of its timer and reported exhausted
      once, on expiry number max (on the first one if max is 0), no earlier than max durations after it was handed
      over. With max = 255 it is sent again for ever. */
  lemma RetryBoundOverRuns(t: Trace, op: Op, ops: seq<Op>, crc: Crc, i: nat)
    requires Shape(t.pool) && |t.held| == |t.drawn| == ENTRIES && OpOk(op) && TakenBy(t, op, i)
    requires (forall o :: o in ops ==> OpOk(o)) && Unanswered(Perform(t, op, crc), ops, crc, i)
    requires op.now >= 0 && op.now + op.duration > 0 && Monotone(op.now, Looks(ops, i))
    ensures var u := Perform(t, op, crc);
      var (again, exhausted) := (Callbacks(u, ops, crc, i, false), Callbacks(u, ops, crc, i, true));
      var n := Fires(op.now + op.duration, op.duration, Looks(ops, i));
      && (op.max <= 254 ==> again == Min(n, Last(op.max) - 1) && exhausted == (if n >= Last(op.max) then 1 else 0))
      && (op.max == 255 ==> again == n && exhausted == 0)
      && (exhausted == 1 && op.max >= 1 ==>
            Looks(ops, i) != [] && Looks(ops, i)[|Looks(ops, i)| - 1].seen >= op.now + op.max * op.duration)
  {
    var (u, rs, l) := (Perform(t, op, crc), Looks(ops, i), Life(Start(Init(op.duration, op.max), op.now), 0, 0));
    HandedOver(t, op, crc, i);
    RunIsLife(u, ops, crc, i, l);
    RetryBound(op.duration, op.max, op.now, rs);
    if Live(l, rs).reported == 1 && op.max >= 1 {
      ExhaustedNotBefore(op.duration, op.max, op.now, rs);
    }
  }

  /** While the packet waits unanswered, its entry is still its own exactly as long as it was not reported
      exhausted. */
  lemma {:induction false} ActiveUntilExhausted(t: Trace, ops: seq<Op>, crc: Crc, i: nat, l: Life)
    requires Shape(t.pool) && |t.held| == |t.drawn| == ENTRIES && (forall op :: op in ops ==> OpOk(op)) && i < ENTRIES
    requires Lives(t.pool.entries[i], l) && l.reported == 0 && Unanswered(t, ops, crc, i)
    requires Callbacks(t, ops, crc, i, true) == 0
    ensures PerformAll(t, ops, crc).pool.entries[i].active
    decreases |ops|
  {
    if ops != [] {
      var op := ops[0];
      if op.OpTick? {
        TickLooks(t, op, crc, i);
        LookLives(t.pool.entries[i], l, op.clock[i]);
        PassCallbacks(t.pool, op.clock, op.oks, crc, 0, i, true);
        ActiveUntilExhausted(Perform(t, op, crc), ops[1..], crc, i, Look(l, op.clock[i]));
      } else {
        OthersLeaveTimer(t, op, crc, i);
        ActiveUntilExhausted(Perform(t, op, crc), ops[1..], crc, i, l);
      }
    }
  }

  // ------------------------------------------------------------ a termination measure

  /** All callbacks of a run. */
  function AllCallbacks(t: Trace, ops: seq<Op>, crc: Crc): nat
    requires Shape(t.pool) && |t.held| == |t.drawn| == ENTRIES && forall op :: op in ops ==> OpOk(op)
    decreases |ops|
  {
    if ops == [] then 0
    else
      assert OpOk(ops[0]);
      (if ops[0].OpTick? then |Tick(t.pool, ops[0].clock, ops[0].oks, crc).1| else 0) +
      AllCallbacks(Perform(t, ops[0], crc), ops[1..], crc)
  }

  lemma {:induction false} LeftMono(es: seq<Entry>, fs: seq<Entry>, i: nat)
    requires i <= |es| == |fs| && forall k :: 0 <= k < |es| ==> Left(fs[k]) <= Left(es[k])
    ensures LeftFrom(fs, i) <= LeftFrom(es, i)
    decreases |es| - i
  {
    if i < |es| {
      LeftMono(es, fs, i + 1);
    }
  }

  ghost predicate AllBounded(p: Pool) {
    Shape(p) && forall k :: 0 <= k < ENTRIES ==> Bounded(p.entries[k])
  }

  /** The operation drops no packet before its time. */
  predicate Patient(op: Op) {
    op.OpTick? || op.OpDraw? || op.OpUpdate?
  }

  /** One operation other than adding uses up at least as many looks as it makes callbacks, and no more if it drops
      nothing. */
  lemma OpUsesUp(t: Trace, op: Op, crc: Crc)
    requires AllBounded(t.pool) && |t.held| == |t.drawn| == ENTRIES && OpOk(op) && !op.OpAdd?
    ensures AllBounded(Perform(t, op, crc).pool)
    ensures LeftFrom(t.pool.entries, 0) >= LeftFrom(Perform(t, op, crc).pool.entries, 0) +
              if op.OpTick? then |Tick(t.pool, op.clock, op.oks, crc).1| else 0
    ensures Patient(op) ==>
      LeftFrom(t.pool.entries, 0) == LeftFrom(Perform(t, op, crc).pool.entries, 0) +
        if op.OpTick? then |Tick(t.pool, op.clock, op.oks, crc).1| else 0
  {
    if op.OpTick? {
      TickUsesUp(t.pool, op.clock, op.oks, crc, 0);
      forall k | 0 <= k < ENTRIES
        ensures Bounded(LookedEntries(t.pool, op.clock)[k])
      {
        LookedLeft(t.pool.entries[k], op.clock[k]);
      }
    } else {
      LeftMono(t.pool.entries, Perform(t, op, crc).pool.entries, 0);
      if Patient(op) {
        LeftMono(Perform(t, op, crc).pool.entries, t.pool.entries, 0);
      }
    }
  }

  /** With nothing added, a run of the pool makes no more callbacks than looks were left at its start, whatever is
      acknowledged, forgotten or rewritten, and uses up exactly one for each callback when nothing is dropped. */
  lemma {:induction false} CallbacksRunOut(t: Trace, ops: seq<Op>, crc: Crc)
    requires AllBounded(t.pool) && |t.held| == |t.drawn| == ENTRIES
    requires forall op :: op in ops ==> OpOk(op) && !op.OpAdd?
    ensures LeftFrom(t.pool.entries, 0) >= LeftFrom(PerformAll(t, ops, crc).pool.entries, 0) + AllCallbacks(t, ops, crc)
    ensures (forall op :: op in ops ==> Patient(op)) ==>
      LeftFrom(t.pool.entries, 0) == LeftFrom(PerformAll(t, ops, crc).pool.entries, 0) + AllCallbacks(t, ops, crc)
    decreases |ops|
  {
    if ops != [] {
      OpUsesUp(t, ops[0], crc);
      CallbacksRunOut(Perform(t, ops[0], crc), ops[1..], crc);
    }
  }
}
