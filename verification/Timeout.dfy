/** The non-blocking timer of src/timeout.c and how often it lets an unanswered packet be sent again. */
module Timeout {
  import opened Basics

  /** struct nbtimeout; deadline 0 means not running. */
  datatype Timer = Timer(deadline: int, duration: uint32, retries: uint8, maxRetries: uint8)

  function Init(duration: uint32, maxRetries: uint8): Timer {
    Timer(0, duration, 1, maxRetries)
  }

  function Start(t: Timer, now: int): Timer {
    t.(deadline := now + t.duration)
  }

  function Stop(t: Timer): Timer {
    t.(deadline := 0)
  }

  predicate Expired(t: Timer, now: int) {
    t.deadline != 0 && now >= t.deadline
  }

  /** nbtimeout_retry: the eight-bit counter is raised before it is compared. */
  function Retry(t: Timer, now: int): (Timer, bool) {
    var u := t.(retries := (t.retries + 1) % 0x100);
    if u.retries > u.maxRetries then (Stop(u), true) else (Start(u, now), false)
  }

  /** The timer as the firmware has it: a record updated in place. */
  class NbTimeout {
    var deadline: int
    var duration: uint32
    var retries: uint8
    var maxRetries: uint8

    ghost function Abs(): Timer
      reads this
    {
      Timer(deadline, duration, retries, maxRetries)
    }

    constructor (durationMs: uint32, max: uint8)
      ensures Abs() == Init(durationMs, max)
    {
      deadline, duration, retries, maxRetries := 0, durationMs, 1, max;
    }

    method StartFrom(now: int)
      modifies this`deadline
      ensures Abs() == Start(old(Abs()), now)
    {
      deadline := now + duration;
    }

    method StopTimer()
      modifies this`deadline
      ensures Abs() == Stop(old(Abs()))
    {
      deadline := 0;
    }

    method HasExpired(now: int) returns (r: bool)
      ensures r <==> Expired(Abs(), now)
    {
      if deadline == 0 {
        return false;
      }
      return now >= deadline;
    }

    /** now is read when the timer is restarted. */
    method RetryFrom(now: int) returns (exhausted: bool)
      modifies this
      ensures (Abs(), exhausted) == Retry(old(Abs()), now)
    {
      retries := (retries + 1) % 0x100;
      if retries > maxRetries {
        StopTimer();
        return true;
      }
      StartFrom(now);
      return false;
    }
  }

  // ------------------------------------------------------- the life of an entry

  /** The two clock readings of one look at a timer: in nbtimeout_expired and, if it has expired, in the
      restart. */
  datatype Reading = Reading(seen: int, again: int)

  /** The readings never go back. */
  predicate Monotone(from: int, rs: seq<Reading>)
    decreases |rs|
  {
    rs == [] || (from <= rs[0].seen <= rs[0].again && Monotone(rs[0].again, rs[1..]))
  }

  /** A packet's timer, how often it was sent again and how often it was reported exhausted. */
  datatype Life = Life(timer: Timer, resent: nat, reported: nat)

  function Look(l: Life, r: Reading): Life {
    if !Expired(l.timer, r.seen) then l
    else
      var (t, exhausted) := Retry(l.timer, r.again);
      if exhausted then Life(t, l.resent, l.reported + 1) else Life(t, l.resent + 1, l.reported)
  }

  function Live(l: Life, rs: seq<Reading>): Life
    decreases |rs|
  {
    if rs == [] then l else Live(Look(l, rs[0]), rs[1..])
  }

  /** How often a timer that is restarted every time would have expired. */
  function Fires(deadline: int, duration: nat, rs: seq<Reading>): nat
    decreases |rs|
  {
    if rs == [] then 0
    else if rs[0].seen >= deadline then 1 + Fires(rs[0].again + duration, duration, rs[1..])
    else Fires(deadline, duration, rs[1..])
  }

  /** The expiry that exhausts: number max, or the first one when no retry is allowed. */
  function Last(maxRetries: nat): nat {
    if maxRetries == 0 then 1 else maxRetries
  }

  /** A stopped timer stays stopped. */
  lemma {:induction false} StoppedLife(l: Life, rs: seq<Reading>)
    requires l.timer.deadline == 0
    ensures Live(l, rs) == l
    decreases |rs|
  {
    if rs != [] {
      StoppedLife(l, rs[1..]);
    }
  }

  /** The state after `resent` restarts. */
  predicate Running(l: Life, duration: nat, max: nat, from: int) {
    && l.timer.duration == duration && l.timer.maxRetries == max && l.reported == 0
    && l.timer.deadline > 0 && from >= 0 && from + duration > 0
    && l.timer.retries == (1 + l.resent) % 0x100
  }

  lemma {:induction false} LifeFrom(l: Life, duration: nat, max: nat, from: int, rs: seq<Reading>)
    requires Running(l, duration, max, from) && Monotone(from, rs)
    requires max <= 254 ==> l.resent < Last(max)
    ensures var (n, u) := (l.resent + Fires(l.timer.deadline, duration, rs), Live(l, rs));
      && (max <= 254 ==> u.resent == Min(n, Last(max) - 1) && u.reported == (if n >= Last(max) then 1 else 0))
      && (max == 255 ==> u.resent == n && u.reported == 0)
      && (u.timer.deadline == 0 <==> u.reported == 1)
    decreases |rs|
  {
    if rs != [] {
      var m := Look(l, rs[0]);
      if !Expired(l.timer, rs[0].seen) {
        LifeFrom(l, duration, max, rs[0].again, rs[1..]);
      } else if m.reported == 1 {
        StoppedLife(m, rs[1..]);
      } else {
        LifeFrom(m, duration, max, rs[0].again, rs[1..]);
      }
    }
  }

  /** The retry bound, for every monotone run of the clock: a packet added at time t0 that is never
      acknowledged is sent again on each of its first max - 1 expiries and reported exhausted, once, on
      expiry number max (on the first one if max is 0). With max = 255 the counter wraps and it is sent
      again for ever. */
  lemma RetryBound(duration: uint32, max: uint8, t0: int, rs: seq<Reading>)
    requires t0 >= 0 && t0 + duration > 0 && Monotone(t0, rs)
    ensures var (n, u) := (Fires(t0 + duration, duration, rs), Live(Life(Start(Init(duration, max), t0), 0, 0), rs));
      && (max <= 254 ==> u.resent == Min(n, Last(max) - 1) && u.reported == (if n >= Last(max) then 1 else 0))
      && (max == 255 ==> u.resent == n && u.reported == 0)
      && (u.timer.deadline == 0 <==> u.reported == 1)
  {
    LifeFrom(Life(Start(Init(duration, max), t0), 0, 0), duration, max, t0, rs);
  }

  /** k expiries take at least k - 1 further durations after the first deadline. */
  lemma {:induction false} FiresTakeTime(deadline: int, duration: nat, from: int, rs: seq<Reading>)
    requires Monotone(from, rs)
    ensures var n := Fires(deadline, duration, rs);
      n > 0 ==> rs != [] && rs[|rs| - 1].seen >= deadline + (n - 1) * duration
    decreases |rs|
  {
    if rs != [] {
      var n := Fires(deadline, duration, rs);
      if rs[0].seen >= deadline {
        FiresTakeTime(rs[0].again + duration, duration, rs[0].again, rs[1..]);
        if n == 1 {
          MonotoneLast(from, rs);
        } else {
          Spread(rs[0].again, duration, n, deadline);
        }
      } else {
        FiresTakeTime(deadline, duration, rs[0].again, rs[1..]);
      }
    }
  }

  lemma Spread(again: int, duration: nat, n: nat, deadline: int)
    requires n >= 2 && again >= deadline
    ensures again + duration + (n - 2) * duration >= deadline + (n - 1) * duration
  {
  }

  lemma {:induction false} MonotoneLast(from: int, rs: seq<Reading>)
    requires Monotone(from, rs) && rs != []
    ensures rs[|rs| - 1].seen >= rs[0].seen
    decreases |rs|
  {
    if |rs| > 1 {
      MonotoneLast(rs[0].again, rs[1..]);
    }
  }

  /** A packet is reported exhausted no earlier than max durations after it was added. */
  lemma ExhaustedNotBefore(duration: uint32, max: uint8, t0: int, rs: seq<Reading>)
    requires t0 >= 0 && t0 + duration > 0 && Monotone(t0, rs) && 1 <= max
    requires Live(Life(Start(Init(duration, max), t0), 0, 0), rs).reported == 1
    ensures rs != [] && rs[|rs| - 1].seen >= t0 + max * duration
  {
    RetryBound(duration, max, t0, rs);
    FiresTakeTime(t0 + duration, duration, t0, rs);
    var n := Fires(t0 + duration, duration, rs);
    MulAtLeast(max, n, duration);
  }

  lemma MulAtLeast(m: nat, n: nat, d: nat)
    requires 1 <= m <= n
    ensures m * d <= d + (n - 1) * d
  {
  }

  /** Successive readings at least a duration apart. */
  predicate Spaced(deadline: int, duration: nat, rs: seq<Reading>)
    decreases |rs|
  {
    rs == [] || (rs[0].seen >= deadline && Spaced(rs[0].again + duration, duration, rs[1..]))
  }

  lemma {:induction false} SpacedAllFire(deadline: int, duration: nat, rs: seq<Reading>)
    requires Spaced(deadline, duration, rs)
    ensures Fires(deadline, duration, rs) == |rs|
    decreases |rs|
  {
    if rs != [] {
      SpacedAllFire(rs[0].again + duration, duration, rs[1..]);
    }
  }

  /** Looking once per duration is enough: after max looks the packet has been sent again max - 1 times
      and reported. */
  lemma PollingExhausts(duration: uint32, max: uint8, t0: int, rs: seq<Reading>)
    requires t0 >= 0 && t0 + duration > 0 && Monotone(t0, rs) && 1 <= max <= 254
    requires Spaced(t0 + duration, duration, rs) && |rs| >= max
    ensures var u := Live(Life(Start(Init(duration, max), t0), 0, 0), rs); u.resent == max - 1 && u.reported == 1
  {
    SpacedAllFire(t0 + duration, duration, rs);
    RetryBound(duration, max, t0, rs);
  }
}
