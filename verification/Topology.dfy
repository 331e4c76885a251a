/** Parent and hop number of an anchor (src/product_info.c, device_info_update; src/mesh.c,
    check_infra_storage and update_infra_storage), and the parent chains they make. */
module Topology {
  import opened Basics
  import opened LargeDataTypes
  import opened InfraOrder
  import opened StorageTables

  const MAX_DEPTH: nat := 4
  const NO_HOP: uint8 := 0xFF
  const NO_DEVICE: uint16 := 0xFFFF

  // -------------------------------------------------------- order over every run

  lemma StampedOrder(rows: seq<InfraRow>, n: nat)
    ensures Ordered(rows) ==> Ordered(InfraStamped(rows, n))
    ensures DistinctIds(rows) ==> DistinctIds(InfraStamped(rows, n))
  {
  }

  lemma FlushedInfra(s: Store, rows: seq<InfraRow>, good: nat)
    requires |rows| <= MAX_ANCHORS && Ordered(rows)
    ensures Ordered(FlushInfra(s, rows, good).0.infra)
    ensures DistinctIds(rows) ==> DistinctIds(FlushInfra(s, rows, good).0.infra)
  {
    StampedOrder(rows, good + 1);
  }

  datatype Room = Free | Known | Full

  /** check_infra_storage: STATUS_SUCCESS, STATUS_ALREADY_EXISTS or STATUS_STORAGE_FULL. */
  function CheckInfra(rows: seq<InfraRow>, id: uint16, forSensor: bool): Room {
    if forSensor then
      if |rows| >= 1 && rows[0].entry.deviceId == id then Known else if |rows| >= 1 then Full else Free
    else if HasId(rows, id) then Known
    else if |rows| >= MAX_ANCHORS then Full
    else Free
  }

  /** Operations on the infra table as the mesh code calls them: an entry is added after check_infra_storage
      said so, and update_infra_storage leaves the id of the row it changes alone. */
  predicate Guarded(s: Store, op: Op) {
    match op
    case AddInfra(e) => CheckInfra(s.infra, e.deviceId, false) == Free
    case UpdateInfra(i, e) => i < |s.infra| ==> e.deviceId == s.infra[i].entry.deviceId
    case _ => true
  }

  lemma AddKeepsOrder(s: Store, e: InfraEntry, good: nat)
    requires |s.infra| < MAX_ANCHORS && Ordered(s.infra)
    ensures var t := InfraAdd(s, e, good).0;
      Ordered(t.infra) && (DistinctIds(s.infra) && !HasId(s.infra, e.deviceId) ==> DistinctIds(t.infra))
  {
    var rows := s.infra + [NewInfra(e)];
    SortOrders(rows);
    FlushedInfra(s, Sort(rows), good);
    if DistinctIds(s.infra) {
      AddDistinctExact(s.infra, NewInfra(e));
    }
  }

  lemma UpdateKeepsOrder(s: Store, i: nat, e: InfraEntry, good: nat)
    requires i < |s.infra| <= MAX_ANCHORS && Ordered(s.infra)
    ensures var t := InfraUpdate(s, i, e, good).0;
      Ordered(t.infra) && (DistinctIds(s.infra) && e.deviceId == s.infra[i].entry.deviceId ==> DistinctIds(t.infra))
  {
    var rows := s.infra[i := s.infra[i].(entry := e)];
    SortOrders(rows);
    FlushedInfra(s, Sort(rows), good);
    if DistinctIds(s.infra) && e.deviceId == s.infra[i].entry.deviceId {
      SameIdDistinct(s.infra, i, e);
      SortDistinct(rows);
    }
  }

  lemma SameIdDistinct(rows: seq<InfraRow>, i: nat, e: InfraEntry)
    requires i < |rows| && DistinctIds(rows) && e.deviceId == rows[i].entry.deviceId
    ensures DistinctIds(rows[i := rows[i].(entry := e)])
  {
  }

  lemma RemoveKeepsOrder(s: Store, i: nat, good: nat)
    requires i < |s.infra| <= MAX_ANCHORS && Ordered(s.infra)
    ensures var t := InfraRemove(s, i, good).0;
      Ordered(t.infra) && (DistinctIds(s.infra) ==> DistinctIds(t.infra))
  {
    FlushedInfra(s, Without(s.infra, i), good);
  }

  /** After every operation, whether or not its EEPROM writes succeed, the table is in order, and its ids are
      distinct if the callers keep to their checks. */
  lemma ApplyKeepsOrder(s: Store, op: Op, good: nat)
    requires Sized(s) && Ordered(s.infra)
    ensures var t := Apply(s, op, good).0;
      Ordered(t.infra) && (DistinctIds(s.infra) && Guarded(s, op) ==> DistinctIds(t.infra))
  {
    match op
    case AddInfra(e) =>
      if |s.infra| < MAX_ANCHORS {
        AddKeepsOrder(s, e, good);
      }
    case UpdateInfra(i, e) =>
      if i < |s.infra| {
        UpdateKeepsOrder(s, i, e, good);
      }
    case RemoveInfra(i) =>
      if i < |s.infra| {
        RemoveKeepsOrder(s, i, good);
      }
    case _ => OtherOpsKeepInfra(s, op, good);
  }

  /** An operation and how many of its EEPROM writes succeed. */
  datatype Attempt = Attempt(op: Op, good: nat)

  function Attempted(s: Store, xs: seq<Attempt>): (t: Store)
    requires Sized(s)
    ensures Sized(t)
    decreases |xs|
  {
    if xs == [] then s
    else
      ApplySized(s, xs[0].op, xs[0].good);
      Attempted(Apply(s, xs[0].op, xs[0].good).0, xs[1..])
  }

  /** Along the run the callers keep to their checks. */
  predicate AllGuarded(s: Store, xs: seq<Attempt>)
    requires Sized(s)
    decreases |xs|
  {
    xs == [] ||
    (Guarded(s, xs[0].op) &&
     (ApplySized(s, xs[0].op, xs[0].good);
      AllGuarded(Apply(s, xs[0].op, xs[0].good).0, xs[1..])))
  }

  /** In every state of every run of storage operations, whichever EEPROM writes fail, the infra table is in order,
      and its ids are distinct as long as the callers keep to their checks. */
  lemma {:induction false} OrderOverRuns(s: Store, xs: seq<Attempt>)
    requires Sized(s) && Ordered(s.infra)
    ensures Ordered(Attempted(s, xs).infra)
    ensures DistinctIds(s.infra) && AllGuarded(s, xs) ==> DistinctIds(Attempted(s, xs).infra)
    decreases |xs|
  {
    if xs != [] {
      ApplyKeepsOrder(s, xs[0].op, xs[0].good);
      ApplySized(s, xs[0].op, xs[0].good);
      OrderOverRuns(Apply(s, xs[0].op, xs[0].good).0, xs[1..]);
    }
  }

  lemma OtherOpsKeepInfra(s: Store, op: Op, good: nat)
    requires Sized(s) && !op.AddInfra? && !op.UpdateInfra? && !op.RemoveInfra?
    ensures Apply(s, op, good).0.infra == s.infra || Apply(s, op, good).0.infra == []
  {
  }

  /** Without the check the ids stay distinct exactly when the id is new anyway. */
  lemma UncheckedAdd(s: Store, e: InfraEntry, good: nat)
    requires |s.infra| < MAX_ANCHORS && DistinctIds(s.infra)
    ensures DistinctIds(InfraAdd(s, e, good).0.infra) <==> !HasId(s.infra, e.deviceId)
  {
    var rows := Sort(s.infra + [NewInfra(e)]);
    AddDistinctExact(s.infra, NewInfra(e));
    StampedIds(rows, good + 1);
  }

  lemma StampedIds(rows: seq<InfraRow>, n: nat)
    ensures DistinctIds(rows) <==> DistinctIds(InfraStamped(rows, n))
  {
    assert forall i :: 0 <= i < |rows| ==> InfraStamped(rows, n)[i].entry.deviceId == rows[i].entry.deviceId;
  }

  // --------------------------------------------------------- device_info_update

  datatype Info = Info(hop: uint8, connected: uint16)

  /** What device_info_update comes to: it returns, perhaps after a factory reset or after announcing a
      new hop number, or it restarts the device. */
  datatype Outcome = Returned(info: Info, reset: bool, announced: bool) | Restarted

  predicate SomeUpstream(rows: seq<InfraRow>, hop: uint8) {
    exists i :: 0 <= i < |rows| && hop >= rows[i].entry.hop
  }

  function DeviceInfoUpdate(role: DeviceType, rows: seq<InfraRow>, info: Info): Outcome {
    if role != Anchor then Returned(info, false, false)
    else if rows == [] then Returned(Info(NO_HOP, NO_DEVICE), true, false)
    else if !SomeUpstream(rows, info.hop) then Restarted
    else
      var hop := if rows[0].entry.hop < 0xFE then rows[0].entry.hop + 1 else NO_HOP;
      if hop == NO_HOP || hop > MAX_DEPTH then Restarted
      else Returned(Info(hop, rows[0].entry.deviceId), false, hop != info.hop && info.hop != NO_HOP)
  }

  /** check_infra_storage, a scan with early exit. */
  method CheckInfraStorage(rows: seq<InfraRow>, id: uint16, forSensor: bool) returns (r: Room)
    ensures r == CheckInfra(rows, id, forSensor)
  {
    if forSensor {
      if |rows| >= 1 && rows[0].entry.deviceId == id {
        return Known;
      }
      return if |rows| >= 1 then Full else Free;
    }
    for i := 0 to |rows|
      invariant forall k :: 0 <= k < i ==> rows[k].entry.deviceId != id
    {
      if rows[i].entry.deviceId == id {
        return Known;
      }
    }
    return if |rows| >= MAX_ANCHORS then Full else Free;
  }

  /** The static device_info: hop number and parent. */
  class DeviceInfo {
    var hop: uint8
    var connected: uint16

    ghost function Abs(): Info
      reads this
    {
      Info(hop, connected)
    }

    constructor ()
      ensures Abs() == Info(NO_HOP, NO_DEVICE)
    {
      hop, connected := NO_HOP, NO_DEVICE;
    }

    /** device_info_update; a restart leaves the fields as they were. */
    method Update(role: DeviceType, rows: seq<InfraRow>) returns (o: Outcome)
      modifies this
      ensures o == DeviceInfoUpdate(role, rows, old(Abs()))
      ensures Abs() == if o.Returned? then o.info else old(Abs())
    {
      if role != Anchor {
        return Returned(Info(hop, connected), false, false);
      }
      if |rows| == 0 {
        hop, connected := NO_HOP, NO_DEVICE;
        return Returned(Info(hop, connected), true, false);
      }
      var i := 0;
      while i < |rows|
        invariant i < |rows| && forall k :: 0 <= k < i ==> hop < rows[k].entry.hop
      {
        if hop >= rows[i].entry.hop {
          break;
        }
        if i == |rows| - 1 {
          return Restarted;
        }
        i := i + 1;
      }
      var temp := if rows[0].entry.hop < 0xFE then rows[0].entry.hop + 1 else NO_HOP;
      if temp == NO_HOP || temp > MAX_DEPTH {
        return Restarted;
      }
      var announce := temp != hop && hop != NO_HOP;
      connected := rows[0].entry.deviceId;
      hop := temp;
      return Returned(Info(hop, connected), false, announce);
    }
  }

  /** The least hop number recorded in the table. */
  function LeastHop(rows: seq<InfraRow>): uint8
    requires rows != []
  {
    if |rows| == 1 then rows[0].entry.hop
    else
      var rest := LeastHop(rows[1..]);
      if rows[0].entry.hop < rest then rows[0].entry.hop else rest
  }

  lemma {:induction false} LeastHopIsLeast(rows: seq<InfraRow>)
    requires rows != []
    ensures forall i :: 0 <= i < |rows| ==> LeastHop(rows) <= rows[i].entry.hop
    ensures exists i :: 0 <= i < |rows| && LeastHop(rows) == rows[i].entry.hop
  {
    if |rows| > 1 {
      LeastHopIsLeast(rows[1..]);
      var i :| 0 <= i < |rows[1..]| && LeastHop(rows[1..]) == rows[1..][i].entry.hop;
      assert rows[i + 1] == rows[1..][i];
      assert LeastHop(rows) == rows[0].entry.hop || LeastHop(rows) == rows[i + 1].entry.hop;
      forall k | 1 <= k < |rows|
        ensures LeastHop(rows[1..]) <= rows[k].entry.hop
      {
        assert rows[k] == rows[1..][k - 1];
      }
    } else {
      assert LeastHop(rows) == rows[0].entry.hop;
    }
  }

  /** In an ordered table the first row has the least hop and the strongest signal among those. */
  lemma FirstIsBest(rows: seq<InfraRow>)
    requires Ordered(rows) && rows != []
    ensures rows[0].entry.hop == LeastHop(rows)
    ensures forall i :: 0 <= i < |rows| && rows[i].entry.hop == LeastHop(rows) ==>
              rows[i].entry.rssi <= rows[0].entry.rssi
  {
    LeastHopIsLeast(rows);
    assert forall i :: 0 < i < |rows| ==> !Worse(rows[0], rows[i]);
  }

  /** On an anchor with a non-empty ordered table the update returns exactly when the least recorded hop is
      neither above its own nor at the depth limit, and then its hop is one more, between 1 and 4, and its
      parent is a device with that least hop. */
  lemma UpdateExact(rows: seq<InfraRow>, info: Info)
    requires Ordered(rows) && rows != []
    ensures var o := DeviceInfoUpdate(Anchor, rows, info);
      && (o.Returned? <==> LeastHop(rows) <= info.hop && LeastHop(rows) < MAX_DEPTH)
      && (o.Returned? ==> o.info.hop == LeastHop(rows) + 1 && 1 <= o.info.hop <= MAX_DEPTH
                          && o.info.connected == rows[0].entry.deviceId && !o.reset)
  {
    FirstIsBest(rows);
    LeastHopIsLeast(rows);
    if LeastHop(rows) <= info.hop {
      assert info.hop >= rows[0].entry.hop;
    }
  }

  // -------------------------------------------------------------- parent chains

  /** An anchor: its table, and hop and parent before and after its last device_info_update. */
  datatype AnchorNode = AnchorNode(rows: seq<InfraRow>, before: Info, info: Info)

  type Anchors = map<uint16, AnchorNode>

  function HopOf(net: Anchors, gateway: uint16, id: uint16): uint8 {
    if id == gateway then 0 else if id in net then net[id].info.hop else NO_HOP
  }

  /** Every anchor's last update returned, and the hop its table records for its parent is the parent's
      present hop (0 for the gateway). */
  ghost predicate UpToDate(net: Anchors, gateway: uint16) {
    gateway !in net && forall id :: id in net ==>
      var n := net[id];
      var o := DeviceInfoUpdate(Anchor, n.rows, n.before);
      && n.rows != [] && Ordered(n.rows) && o.Returned? && o.info == n.info
      && (n.info.connected == gateway || n.info.connected in net)
      && n.rows[0].entry.hop == HopOf(net, gateway, n.info.connected)
  }

  /** The device k steps up the chain. */
  function Up(net: Anchors, id: uint16, k: nat): uint16
    decreases k
  {
    if k == 0 then id else if id in net then Up(net, net[id].info.connected, k - 1) else id
  }

  /** Each step to the parent drops the hop number by one. */
  lemma ParentIsNearer(net: Anchors, gateway: uint16, id: uint16)
    requires UpToDate(net, gateway) && id in net
    ensures var p := net[id].info.connected;
      (p == gateway || p in net) && HopOf(net, gateway, p) == net[id].info.hop - 1
  {
    UpdateExact(net[id].rows, net[id].before);
    FirstIsBest(net[id].rows);
  }

  lemma {:induction false} HopDrops(net: Anchors, gateway: uint16, id: uint16, k: nat)
    requires UpToDate(net, gateway) && id in net && k <= net[id].info.hop
    ensures HopOf(net, gateway, Up(net, id, k)) == net[id].info.hop - k
    ensures Up(net, id, k) == gateway || Up(net, id, k) in net
    decreases k
  {
    if k > 0 {
      ParentIsNearer(net, gateway, id);
      var p := net[id].info.connected;
      if p in net {
        HopDrops(net, gateway, p, k - 1);
      }
    }
  }

  /** So every parent chain reaches the gateway after as many steps as the hop number says, and passes no
      device twice. */
  lemma ChainsReachGateway(net: Anchors, gateway: uint16, id: uint16)
    requires UpToDate(net, gateway) && id in net
    ensures Up(net, id, net[id].info.hop) == gateway
    ensures forall j, k :: 0 <= j < k <= net[id].info.hop ==> Up(net, id, j) != Up(net, id, k)
  {
    var h := net[id].info.hop;
    HopDrops(net, gateway, id, h);
    forall j, k | 0 <= j < k <= h
      ensures Up(net, id, j) != Up(net, id, k)
    {
      HopDrops(net, gateway, id, j);
      HopDrops(net, gateway, id, k);
    }
  }
}
