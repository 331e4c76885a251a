/** Delivery to the gateway's host over whole runs of the network: when the chunks of a transfer go out each
    once and in order, and what the host puts together. */
module LargeDataDelivery {
  import opened Basics
  import opened LargeDataTypes
  import opened LargeDataStore
  import opened LargeDataTicks
  import opened LargeDataSerial
  import opened LargeDataContent
  import opened LargeDataGateway
  import opened HostReader
  import opened LargeDataNetwork

  /** The conversation of a gateway about the transfer announced last. */
  function TalkOf(n: Node): Talk {
    Talk(n.conv, Current(n.log))
  }

  /** The blob announced last. */
  function LatestBlob(n: Node, blobs: Blobs): Blob
    requires Latest(n.log).Some? && (Latest(n.log).value.gen, Latest(n.log).value.dataId) in blobs
  {
    BlobOf(Latest(n.log).value, blobs)
  }

  /** The act disorders the stream of the transfer being sent. */
  predicate Spoils(n: Node, a: Act) {
    a.HostSays? && Disorders(n.conv, Current(n.log) != [], a.hl, a.ok)
  }

  /** The act announces a transfer. */
  predicate Opens(n: Node, a: Act)
    requires Ownership(n.conv.ld)
  {
    a.Tick? && GatewayTick(n.conv.ld, a.sn.Some?, a.written).1
  }

  /** Whether the stream of the current transfer is still undisturbed after the act. */
  predicate CleanAfter(n: Node, a: Act, clean: bool)
    requires Ownership(n.conv.ld)
  {
    Opens(n, a) || (clean && !Spoils(n, a))
  }

  /** What a gateway's state says of its stream: clean tells whether anything has spoiled it since the transfer
      was announced. */
  ghost predicate Told(n: Node, clean: bool, blobs: Blobs) {
    && n.dev.role == Gateway && Shape(n.conv.ld) && Keyed(n.conv) && ServesLatest(n)
    && (n.conv.ld.snd.active ==>
          Announces(Latest(n.log).value, blobs) && Underway(TalkOf(n), clean, LatestBlob(n, blobs)))
    && (!n.conv.ld.snd.active && Latest(n.log).Some? ==>
          Announces(Latest(n.log).value, blobs) &&
          Ended(Current(n.log), Latest(n.log).value, clean, LatestBlob(n, blobs)))
  }

  ghost predicate Underway(t: Talk, clean: bool, b: Blob) {
    if clean then InStep(t, b) && Own(t) else OffTrack(t, b)
  }

  ghost predicate Ended(ls: seq<LdLine>, a: Announcement, clean: bool, b: Blob) {
    (clean <==> WholeStream(ls, b)) && (clean ==> Labelled(ls, a.gen, a.dataId))
  }

  // --------------------------------------------------------- steps of a gateway

  /** Steps that leave the sender, the conversation and the log alone. */
  lemma ToldFrame(n: Node, m: Node, clean: bool, blobs: Blobs)
    requires Told(n, clean, blobs) && m.dev == n.dev && m.log == n.log && m.conv == n.conv.(ld := m.conv.ld)
    requires m.conv.ld.snd == n.conv.ld.snd && Shape(m.conv.ld)
    requires n.conv.ld.snd.active ==> Serves(m.conv.ld, LatestBlob(n, blobs))
    ensures Told(m, clean, blobs)
  {
  }

  lemma SoundServes(n: Node, blobs: Blobs)
    requires NodeOk(n, blobs) && n.dev.role == Gateway && n.conv.ld.snd.active
    ensures Latest(n.log).Some? && Announces(Latest(n.log).value, blobs) && Serves(n.conv.ld, LatestBlob(n, blobs))
  {
    LatestTrue(n.log, blobs);
  }

  /** A tick that announces starts a stream in step with nothing sent. */
  lemma OpensInStep(n: Node, sn: uint64, blobs: Blobs)
    requires NodeOk(n, blobs) && n.dev.role == Gateway && Keyed(n.conv)
    requires GatewayTick(n.conv.ld, true, true).1
    ensures Told(TickGateway(n, Some(sn), true), true, blobs)
  {
    var m := TickGateway(n, Some(sn), true);
    GatewayTickTells(n, Some(sn), true, blobs);
    TickSender(n.conv.ld, true, true);
    Appended(n.log, Announce(AnnouncementFor(m.conv.ld.snd, sn)));
    SoundServes(m, blobs);
  }

  lemma TickTold(n: Node, sn: Option<uint64>, written: bool, clean: bool, blobs: Blobs)
    requires NodeOk(n, blobs) && n.dev.role == Gateway && Told(n, clean, blobs)
    ensures Told(TickGateway(n, sn, written), GatewayTick(n.conv.ld, sn.Some?, written).1 || clean, blobs)
  {
    TickSender(n.conv.ld, sn.Some?, written);
    if GatewayTick(n.conv.ld, sn.Some?, written).1 {
      assert sn.Some? && written;
      OpensInStep(n, sn.value, blobs);
    }
  }

  /** A host line during a transfer is one step of its conversation. */
  lemma SaidTo(n: Node, l: HostLine, ok: bool)
    requires Shape(n.conv.ld) && Latest(n.log).Some?
    ensures TalkOf(Heeds(n, l, ok)) == Say(TalkOf(n), l, ok) && Latest(Heeds(n, l, ok).log) == Latest(n.log)
  {
    var (c, out) := HostStep(n.conv, l, ok);
    if out.Some? {
      Appended(n.log, Deliver(out.value));
    }
  }

  lemma TalkStep(t: Talk, l: HostLine, ok: bool, clean: bool, b: Blob)
    requires Underway(t, clean, b)
    ensures Underway(Say(t, l, ok), clean && !Disorders(t.c, t.log != [], l, ok), b)
  {
    if clean {
      StepExact(t, l, ok, b);
      if !Disorders(t.c, t.log != [], l, ok) {
        StepOwn(t, l, ok);
      }
    } else {
      OffTrackStays(t, l, ok, b);
    }
  }

  lemma TalkEnds(t: Talk, clean: bool, a: Announcement, b: Blob)
    requires Underway(t, clean, b) && !t.c.ld.snd.active && t.c.ld.snd.gen == a.gen && t.c.ld.snd.dataId == a.dataId
    ensures Ended(t.log, a, clean, b)
  {
    if !clean {
      OffTrackStays(t, OkLine, true, b);
    }
  }

  /** A host line when nothing is being sent writes nothing. */
  lemma IdleLine(c: Conv, l: HostLine, ok: bool)
    requires Shape(c.ld) && !c.ld.snd.active
    ensures HostStep(c, l, ok).1.None? && !HostStep(c, l, ok).0.ld.snd.active
  {
    HostStepTransfer(c, l, ok);
  }

  lemma HostToldActive(n: Node, l: HostLine, ok: bool, clean: bool, blobs: Blobs)
    requires Told(n, clean, blobs) && n.conv.ld.snd.active
    ensures Told(Heeds(n, l, ok), clean && !Spoils(n, HostSays(l, ok)), blobs)
  {
    HostStepKeyed(n.conv, l, ok);
    HostStepTransfer(n.conv, l, ok);
    SaidTo(n, l, ok);
    var (m, b, now) := (Heeds(n, l, ok), LatestBlob(n, blobs), clean && !Spoils(n, HostSays(l, ok)));
    TalkStep(TalkOf(n), l, ok, clean, b);
    if !m.conv.ld.snd.active {
      TalkEnds(TalkOf(m), now, Latest(n.log).value, b);
    }
  }

  lemma HostToldIdle(n: Node, l: HostLine, ok: bool, clean: bool, blobs: Blobs)
    requires Told(n, clean, blobs) && !n.conv.ld.snd.active
    ensures Told(Heeds(n, l, ok), clean && !Spoils(n, HostSays(l, ok)), blobs)
  {
    HostStepKeyed(n.conv, l, ok);
    IdleLine(n.conv, l, ok);
  }

  lemma HostTold(n: Node, l: HostLine, ok: bool, clean: bool, blobs: Blobs)
    requires Told(n, clean, blobs)
    ensures Told(Heeds(n, l, ok), clean && !Spoils(n, HostSays(l, ok)), blobs)
  {
    if n.conv.ld.snd.active {
      HostToldActive(n, l, ok, clean, blobs);
    } else {
      HostToldIdle(n, l, ok, clean, blobs);
    }
  }

  /** Any step of a gateway. */
  lemma StepTold(n: Node, a: Act, clean: bool, blobs: Blobs)
    requires NodeOk(n, blobs) && Told(n, clean, blobs) && Sized(a)
    requires NodeOk(NodeStep(n, a).0, blobs)
    ensures Told(NodeStep(n, a).0, CleanAfter(n, a, clean), blobs)
  {
    if a.HostSays? {
      HostTold(n, a.hl, a.ok, clean, blobs);
    } else if a.Tick? {
      TickTold(n, a.sn, a.written, clean, blobs);
    } else {
      QuietTold(n, a, clean, blobs);
    }
  }

  lemma QuietTold(n: Node, a: Act, clean: bool, blobs: Blobs)
    requires NodeOk(n, blobs) && Told(n, clean, blobs) && Sized(a)
    requires !a.HostSays? && !a.Tick? && NodeOk(NodeStep(n, a).0, blobs)
    ensures Told(NodeStep(n, a).0, clean, blobs)
  {
    var m := NodeStep(n, a).0;
    QuietStep(n, a, blobs);
    if n.conv.ld.snd.active {
      SoundServes(m, blobs);
    }
    ToldFrame(n, m, clean, blobs);
  }

  /** Receptions and acknowledgements leave a gateway's sender, conversation and log alone. */
  lemma QuietStep(n: Node, a: Act, blobs: Blobs)
    requires NodeOk(n, blobs) && n.dev.role == Gateway && Sized(a)
    requires !a.HostSays? && !a.Tick?
    ensures var m := NodeStep(n, a).0;
      m.dev == n.dev && m.log == n.log && m.conv == n.conv.(ld := m.conv.ld) && m.conv.ld.snd == n.conv.ld.snd
  {
    match a
    case RxInit(p, fromType, priority) => HandleInitKeepsSender(n.conv.ld, Gateway, fromType, p, priority);
    case RxChunk(p, fromType, good, fault) => ChunkKeepsSender(n.conv.ld, p, good, fault);
    case RxChunkAck(ca, good) => StrayAckQuiet(n.conv.ld, ca, good);
    case _ =>
  }

  // ------------------------------------------------------------------ whole runs

  /** Whether the stream of the transfer that gateway i announced last is still undisturbed when the run ends;
      `clean` says so of its start. */
  ghost predicate Clean(w: Net, moves: seq<Move>, i: nat, clean: bool, blobs: Blobs)
    requires NetOk(w, blobs) && Schedule(w, moves, blobs) && i < |w.nodes| && w.nodes[i].dev.role == Gateway
    decreases |moves|
  {
    if moves == [] then clean
    else
      var m := moves[0];
      NetStepKeeps(w, m.node, m.act, blobs);
      StepKeepsDevice(w.nodes[m.node], m.act, blobs);
      Clean(NetStep(w, m.node, m.act, blobs), moves[1..], i,
            if m.node == i then CleanAfter(w.nodes[i], m.act, clean) else clean, blobs)
  }

  lemma {:induction false} RunTold(w: Net, moves: seq<Move>, i: nat, clean: bool, blobs: Blobs)
    requires NetOk(w, blobs) && Schedule(w, moves, blobs) && i < |w.nodes| && Told(w.nodes[i], clean, blobs)
    ensures i < |After(w, moves, blobs).nodes|
    ensures Told(After(w, moves, blobs).nodes[i], Clean(w, moves, i, clean, blobs), blobs)
    decreases |moves|
  {
    if moves != [] {
      var (j, a) := (moves[0].node, moves[0].act);
      NetStepKeeps(w, j, a, blobs);
      StepKeepsDevice(w.nodes[j], a, blobs);
      if j == i {
        StepKeeps(w.nodes[i], a, w.air, blobs);
        StepTold(w.nodes[i], a, clean, blobs);
      }
      var now := if j == i then CleanAfter(w.nodes[i], a, clean) else clean;
      RunTold(NetStep(w, j, a, blobs), moves[1..], i, now, blobs);
    }
  }

  lemma FreshTold(n: Node, clean: bool, blobs: Blobs)
    requires Fresh(n) && n.dev.role == Gateway
    ensures Told(n, clean, blobs)
  {
  }

  /** Over a run from start-up: no OK has spoiled the stream of the transfer that gateway i announced last. */
  ghost predicate Unspoilt(w: Net, moves: seq<Move>, i: nat, blobs: Blobs)
    requires NetRun(w, moves, blobs) && i < |w.nodes| && w.nodes[i].dev.role == Gateway
  {
    StartOk(w, blobs);
    Clean(w, moves, i, true, blobs)
  }

  lemma ReachedTold(w: Net, moves: seq<Move>, i: nat, blobs: Blobs)
    requires NetRun(w, moves, blobs) && i < |w.nodes| && w.nodes[i].dev.role == Gateway
    ensures i < |Outcome(w, moves, blobs).nodes|
    ensures Told(Outcome(w, moves, blobs).nodes[i], Unspoilt(w, moves, i, blobs), blobs)
  {
    StartOk(w, blobs);
    assert Fresh(w.nodes[i]);
    FreshTold(w.nodes[i], true, blobs);
    RunTold(w, moves, i, true, blobs);
  }

  /** Ordered delivery over every run of any network, whatever is lost, repeated, reordered or received in
      between: as long as no OK has spoiled the stream since AT#LDINIT, the lines for the transfer are its chunks
      from 0 on, each once, in order and under its own device id; and once the sender has finished, the lines are
      exactly the whole blob if and only if no OK has. */
  lemma OrderedDelivery(w: Net, moves: seq<Move>, i: nat, blobs: Blobs)
    requires NetRun(w, moves, blobs) && i < |w.nodes| && w.nodes[i].dev.role == Gateway
    requires i < |Outcome(w, moves, blobs).nodes| && Latest(Outcome(w, moves, blobs).nodes[i].log).Some?
    ensures var n := Outcome(w, moves, blobs).nodes[i];
      var (a, ls, clean) := (Latest(n.log).value, Current(n.log), Unspoilt(w, moves, i, blobs));
      && Announces(a, blobs)
      && var b := BlobOf(a, blobs);
         && (clean ==> InOrder(ls, b) && Labelled(ls, a.gen, a.dataId))
         && (n.conv.ld.snd.active ==> (InStep(TalkOf(n), b) <==> clean))
         && (!n.conv.ld.snd.active ==> (WholeStream(ls, b) <==> clean))
         && (!n.conv.ld.snd.active && clean ==> Payloads(ls) == b)
  {
    ReachedTold(w, moves, i, blobs);
    var n := Outcome(w, moves, blobs).nodes[i];
    var (clean, b) := (Unspoilt(w, moves, i, blobs), LatestBlob(n, blobs));
    if n.conv.ld.snd.active && !clean {
      OffTrackStays(TalkOf(n), OkLine, true, b);
    }
    if !n.conv.ld.snd.active && clean {
      WholePayloads(Current(n.log), b);
    }
  }

  // ---------------------------------------------------------- what the host has

  lemma LogTrue(w: Net, moves: seq<Move>, i: nat, blobs: Blobs)
    requires NetRun(w, moves, blobs) && i < |Outcome(w, moves, blobs).nodes|
    ensures Truthful(Outcome(w, moves, blobs).nodes[i].log, blobs)
  {
    assert NodeOk(Outcome(w, moves, blobs).nodes[i], blobs);
  }

  /** End to end over every run, spoilt or not: the host behind a gateway has put together exactly those announced
      transfers, each the blob staged at its origin and each once, whose last missing chunk was written while no other
      transfer was open at it under the same data id. That is all transfers whose chunks were all written if and only
      if none of them was completed beside such a rival, in particular if none was announced beside one. */
  lemma EndToEnd(w: Net, moves: seq<Move>, i: nat, blobs: Blobs)
    requires NetRun(w, moves, blobs) && i < |Outcome(w, moves, blobs).nodes|
    requires var log := Outcome(w, moves, blobs).nodes[i].log; Unambiguous(log) || Unrivalled(log)
    ensures var log := Outcome(w, moves, blobs).nodes[i].log;
      && ReadAll(log).done == ReadReceipts(log, blobs)
      && (ReadAll(log).done == Receipts(log, blobs) <==> NeverBlocked(log, blobs))
      && (Unrivalled(log) ==> NeverBlocked(log, blobs))
  {
    var log := Outcome(w, moves, blobs).nodes[i].log;
    LogTrue(w, moves, i, blobs);
    if Unrivalled(log) {
      UnrivalledClear(log, blobs);
    }
    ReaderReads(log, blobs);
    ReaderExact(log, blobs);
  }

  /** No OK in the whole run spoils a stream of gateway i. */
  ghost predicate NeverSpoilt(w: Net, moves: seq<Move>, i: nat, blobs: Blobs)
    requires NetOk(w, blobs) && Schedule(w, moves, blobs) && i < |w.nodes|
    decreases |moves|
  {
    moves == [] ||
    (var m := moves[0];
     && (m.node == i ==> !Spoils(w.nodes[i], m.act))
     && (NetStepKeeps(w, m.node, m.act, blobs);
         NeverSpoilt(NetStep(w, m.node, m.act, blobs), moves[1..], i, blobs)))
  }

  /** A gateway none of whose streams was spoilt. */
  ghost predicate Flawless(n: Node, blobs: Blobs) {
    Told(n, true, blobs) && Truthful(n.log, blobs) && WholeBefore(n.log, blobs)
  }

  lemma HeedsFlawless(n: Node, l: HostLine, ok: bool, blobs: Blobs)
    requires Shape(n.conv.ld) && WholeBefore(n.log, blobs)
    ensures WholeBefore(Heeds(n, l, ok).log, blobs)
  {
    var out := HostStep(n.conv, l, ok).1;
    if out.Some? {
      Appended(n.log, Deliver(out.value));
    }
  }

  lemma TickFlawless(n: Node, sn: Option<uint64>, written: bool, blobs: Blobs)
    requires Flawless(n, blobs) && Ownership(n.conv.ld)
    ensures WholeBefore(TickGateway(n, sn, written).log, blobs)
  {
    TickSender(n.conv.ld, sn.Some?, written);
    if GatewayTick(n.conv.ld, sn.Some?, written).1 {
      Appended(n.log, Announce(AnnouncementFor(GatewayTick(n.conv.ld, true, written).0.snd, sn.value)));
    }
  }

  lemma StepWhole(n: Node, a: Act, blobs: Blobs)
    requires NodeOk(n, blobs) && Flawless(n, blobs) && Sized(a)
    ensures WholeBefore(NodeStep(n, a).0.log, blobs)
  {
    if a.HostSays? {
      HeedsFlawless(n, a.hl, a.ok, blobs);
    } else if a.Tick? {
      TickFlawless(n, a.sn, a.written, blobs);
    } else {
      QuietStep(n, a, blobs);
    }
  }

  lemma StepFlawless(n: Node, a: Act, blobs: Blobs)
    requires NodeOk(n, blobs) && Flawless(n, blobs) && Sized(a) && !Spoils(n, a)
    requires NodeOk(NodeStep(n, a).0, blobs)
    ensures Flawless(NodeStep(n, a).0, blobs)
  {
    StepTold(n, a, true, blobs);
    StepWhole(n, a, blobs);
  }

  lemma {:induction false} RunFlawless(w: Net, moves: seq<Move>, i: nat, blobs: Blobs)
    requires NetOk(w, blobs) && Schedule(w, moves, blobs) && i < |w.nodes| && Flawless(w.nodes[i], blobs)
    requires NeverSpoilt(w, moves, i, blobs)
    ensures i < |After(w, moves, blobs).nodes| && Flawless(After(w, moves, blobs).nodes[i], blobs)
    decreases |moves|
  {
    if moves != [] {
      var (j, a) := (moves[0].node, moves[0].act);
      NetStepKeeps(w, j, a, blobs);
      if j == i {
        StepKeeps(w.nodes[i], a, w.air, blobs);
        StepFlawless(w.nodes[i], a, blobs);
      }
      RunFlawless(NetStep(w, j, a, blobs), moves[1..], i, blobs);
    }
  }

  /** Over a run from start-up. */
  ghost predicate FlawlessRun(w: Net, moves: seq<Move>, i: nat, blobs: Blobs)
    requires NetRun(w, moves, blobs) && i < |w.nodes|
  {
    StartOk(w, blobs);
    NeverSpoilt(w, moves, i, blobs)
  }

  /** What the host has put together of everything announced. */
  ghost predicate Delivered(n: Node, blobs: Blobs)
    requires Truthful(n.log, blobs)
  {
    var (h, all) := (ReadAll(n.log), AllReceipts(n.log, blobs));
    if !n.conv.ld.snd.active then h == Host(map[], all)
    else
      && Latest(n.log).Some? && Announces(Latest(n.log).value, blobs)
      && AllBut(h, all, Latest(n.log).value, LatestBlob(n, blobs), |Current(n.log)|)
  }

  lemma FlawlessDelivered(n: Node, blobs: Blobs)
    requires Flawless(n, blobs)
    ensures Delivered(n, blobs)
  {
    OrderedReader(n.log, blobs);
  }

  /** When no OK spoils a stream, the host has put together every transfer that the gateway has finished: it has
      exactly the announced blobs, each the one staged at its origin, in order, lacks only the one whose chunks are
      still going out, and has nothing else open. */
  lemma HostHasEveryBlob(w: Net, moves: seq<Move>, i: nat, blobs: Blobs)
    requires NetRun(w, moves, blobs) && i < |w.nodes| && w.nodes[i].dev.role == Gateway
    requires FlawlessRun(w, moves, i, blobs)
    ensures i < |Outcome(w, moves, blobs).nodes| && Truthful(Outcome(w, moves, blobs).nodes[i].log, blobs)
    ensures Delivered(Outcome(w, moves, blobs).nodes[i], blobs)
  {
    StartOk(w, blobs);
    assert Fresh(w.nodes[i]);
    FreshTold(w.nodes[i], true, blobs);
    RunFlawless(w, moves, i, blobs);
    FlawlessDelivered(Outcome(w, moves, blobs).nodes[i], blobs);
  }
}
