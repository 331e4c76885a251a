/** The sender's window over whole runs of the network: every anchor and sensor, whatever it receives and whatever
    else it does between two acknowledgements. */
module LargeDataWindows {
  import opened Basics
  import opened LargeDataTypes
  import opened LargeDataStore
  import opened LargeDataReceiver
  import opened LargeDataSender
  import opened LargeDataTicks
  import opened LargeDataContent
  import opened LargeDataNetwork

  /** The act activates the sender of an anchor or a sensor. */
  predicate Activates(n: Node, a: Act)
    requires Shape(n.conv.ld)
  {
    a.Tick? && RadioTick(n.conv.ld, n.dev.role, a.expired, a.parent, a.now).1.Some?
  }

  /** An act as an event of the sender. */
  function AsEvent(n: Node, a: Act): Event
    requires Kept(n.dev.role, n.conv.ld) && Sized(a)
  {
    match a
    case RxInitAck(ia, good) => OnInitAck(ia, good)
    case RxChunkAck(ca, good) => OnChunkAck(ca, good)
    case _ => OnOther(NodeStep(n, a).0.conv.ld, !NodeStep(n, a).0.conv.ld.snd.active)
  }

  /** The history of the sender after the act. */
  function Traced(n: Node, a: Act, r: Run): Run
    requires Kept(n.dev.role, n.conv.ld) && Sized(a) && r.s == n.conv.ld && WellFormed(r)
  {
    if Activates(n, a) then Run(NodeStep(n, a).0.conv.ld, {}, {}, 0, false)
    else Step(r, n.dev.role, AsEvent(n, a))
  }

  /** Whether the transfer was admitted in order and every acknowledgement counted since was in turn. */
  ghost predicate TurnAfter(n: Node, a: Act, r: Run, turn: bool)
    requires Kept(n.dev.role, n.conv.ld) && Sized(a) && r.s == n.conv.ld && WellFormed(r)
  {
    Activates(n, a) || (turn && StepInTurn(r, n.dev.role, AsEvent(n, a)))
  }

  ghost predicate Tracked(n: Node, r: Run, turn: bool) {
    r.s == n.conv.ld && WellFormed(r) && (turn ==> InWindow(r))
  }

  /** Receptions, serial lines and ticks that do not activate the sender leave it alone or switch it off. */
  lemma OthersLeaveSender(n: Node, a: Act)
    requires Kept(n.dev.role, n.conv.ld) && Sized(a) && Downstream(n.dev.role)
    requires !a.RxInitAck? && !a.RxChunkAck? && !Activates(n, a)
    ensures var (s, t) := (n.conv.ld, NodeStep(n, a).0.conv.ld);
      t.snd == s.snd.(active := s.snd.active && t.snd.active)
  {
    var s := n.conv.ld;
    match a
    case RxInit(p, fromType, priority) => HandleInitKeepsSender(s, n.dev.role, fromType, p, priority);
    case RxChunk(p, fromType, good, fault) =>
      if Relay(n.dev.role) {
        ChunkKeepsSender(s, p, good, fault);
      }
    case Tick(expired, parent, now, sn, written) => IdleTick(s, n.dev.role, expired, parent, now);
    case SerialInit(l) =>
    case SerialChunk(l, good, fault) =>
      if n.dev.role == Sensor {
        SerialChunkKeepsSender(s, n.dev, l, good, fault);
      }
    case HostSays(l, ok) =>
    case _ =>
  }

  lemma IdleTick(s: Ld, role: DeviceType, expired: bool, parent: uint16, now: int)
    requires Shape(s) && RadioTick(s, role, expired, parent, now).1.None?
    ensures var t := RadioTick(s, role, expired, parent, now).0; t.snd == s.snd.(active := s.snd.active && t.snd.active)
  {
  }

  /** The sender that a tick activates is at the start of a window. */
  lemma ActivatedInWindow(n: Node, a: Act, blobs: Blobs)
    requires NodeOk(n, blobs) && Downstream(n.dev.role) && Activates(n, a) && NodeOk(NodeStep(n, a).0, blobs)
    ensures InWindow(Run(NodeStep(n, a).0.conv.ld, {}, {}, 0, false))
  {
    var s := NodeStep(n, a).0.conv.ld;
    if s.snd.active {
      TransferBounds(|blobs[(s.snd.gen, s.snd.dataId)]|);
      assert s.snd.nextChunk == 0;
    }
  }

  lemma TracedState(n: Node, a: Act, r: Run)
    requires Kept(n.dev.role, n.conv.ld) && Sized(a) && r.s == n.conv.ld && WellFormed(r) && Downstream(n.dev.role)
    ensures Traced(n, a, r).s == NodeStep(n, a).0.conv.ld
  {
    if !Activates(n, a) && !a.RxInitAck? && !a.RxChunkAck? {
      OthersLeaveSender(n, a);
    }
  }

  lemma StepTracked(n: Node, a: Act, r: Run, turn: bool, blobs: Blobs)
    requires NodeOk(n, blobs) && Sized(a) && Downstream(n.dev.role) && Tracked(n, r, turn)
    requires NodeOk(NodeStep(n, a).0, blobs)
    ensures Tracked(NodeStep(n, a).0, Traced(n, a, r), TurnAfter(n, a, r, turn))
  {
    TracedState(n, a, r);
    if Activates(n, a) {
      ActivatedInWindow(n, a, blobs);
    } else {
      var e := AsEvent(n, a);
      StepWellFormed(r, n.dev.role, e);
      if turn {
        StepKeepsWindow(r, n.dev.role, e);
      }
    }
  }

  // ------------------------------------------------------------------ whole runs

  /** A sender's history at the end of a run, and whether its transfer was admitted in order and every
      acknowledgement counted since was in turn. */
  datatype History = History(run: Run, turn: bool)

  ghost function Trace(w: Net, moves: seq<Move>, i: nat, h: History, blobs: Blobs): (g: History)
    requires NetOk(w, blobs) && Schedule(w, moves, blobs)
    requires i < |w.nodes| && Downstream(w.nodes[i].dev.role) && Tracked(w.nodes[i], h.run, h.turn)
    ensures i < |After(w, moves, blobs).nodes| && Tracked(After(w, moves, blobs).nodes[i], g.run, g.turn)
    decreases |moves|
  {
    if moves == [] then h
    else
      var (j, a) := (moves[0].node, moves[0].act);
      NetStepKeeps(w, j, a, blobs);
      StepKeepsDevice(w.nodes[j], a, blobs);
      TraceStep(w, j, a, i, h, blobs);
      Trace(NetStep(w, j, a, blobs), moves[1..], i, Next(w.nodes[i], j == i, a, h), blobs)
  }

  ghost function Next(n: Node, here: bool, a: Act, h: History): History
    requires Kept(n.dev.role, n.conv.ld) && (here ==> Sized(a))
    requires h.run.s == n.conv.ld && WellFormed(h.run)
  {
    if here then History(Traced(n, a, h.run), TurnAfter(n, a, h.run, h.turn)) else h
  }

  lemma TraceStep(w: Net, j: nat, a: Act, i: nat, h: History, blobs: Blobs)
    requires NetOk(w, blobs) && j < |w.nodes| && Possible(w.nodes[j], a, w.air, blobs)
    requires i < |w.nodes| && Downstream(w.nodes[i].dev.role) && Tracked(w.nodes[i], h.run, h.turn)
    ensures var (n, g) := (NetStep(w, j, a, blobs).nodes[i], Next(w.nodes[i], j == i, a, h));
      Tracked(n, g.run, g.turn) && n.dev == w.nodes[i].dev
  {
    StepKeepsDevice(w.nodes[j], a, blobs);
    if j == i {
      StepKeeps(w.nodes[i], a, w.air, blobs);
      StepTracked(w.nodes[i], a, h.run, h.turn, blobs);
    }
  }

  /** A sender after start-up. */
  function FreshHistory(n: Node): History {
    History(Run(n.conv.ld, {}, {}, 0, false), true)
  }

  lemma FreshTracked(n: Node)
    requires Fresh(n)
    ensures Tracked(n, FreshHistory(n).run, true)
  {
  }

  ghost function HistoryOf(w: Net, moves: seq<Move>, i: nat, blobs: Blobs): History
    requires NetRun(w, moves, blobs) && i < |w.nodes| && Downstream(w.nodes[i].dev.role)
  {
    StartOk(w, blobs);
    FreshTracked(w.nodes[i]);
    Trace(w, moves, i, FreshHistory(w.nodes[i]), blobs)
  }

  /** In every state of every run of any network: while an anchor's or a sensor's transfer was admitted in order and
      the acknowledgements counted since were in turn, what it has sent of it is a prefix within the window, and as
      long as the transfer goes on some chunk sent still lacks its acknowledgement. */
  lemma SenderNeverStalls(w: Net, moves: seq<Move>, i: nat, blobs: Blobs)
    requires NetRun(w, moves, blobs) && i < |w.nodes| && Downstream(w.nodes[i].dev.role)
    ensures i < |Outcome(w, moves, blobs).nodes|
    ensures var (s, h) := (Outcome(w, moves, blobs).nodes[i].conv.ld, HistoryOf(w, moves, i, blobs));
      && h.run.s == s
      && (h.turn && s.snd.active && h.run.started ==>
            SentPrefix(h.run.sent, s.snd.totalChunks, h.run.acks) && Waits(h.run))
  {
    StartOk(w, blobs);
    FreshTracked(w.nodes[i]);
    var h := HistoryOf(w, moves, i, blobs);
    if h.turn && h.run.s.snd.active && h.run.started {
      WindowWaits(h.run);
    }
  }
}
