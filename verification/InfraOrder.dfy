/** The order of the infrastructure table (src/storage.c, sort_infra_devices): nearest to the gateway first,
    strongest signal first among equals. */
module InfraOrder {
  import opened Basics

  type int16 = x: int | -0x8000 <= x < 0x8000

  /** infra_entry_t and the row that holds it in RAM. */
  datatype InfraEntry = InfraEntry(
    deviceType: uint8, deviceId: uint16, hop: uint8, version: uint16, rssi: int16, crc32: uint32)

  datatype InfraRow = InfraRow(entry: InfraEntry, lastComm: nat, failures: uint8, pinged: bool)

  /** The comparison of the sort: a must not stand before b. */
  predicate Worse(a: InfraRow, b: InfraRow) {
    a.entry.hop > b.entry.hop || (a.entry.hop == b.entry.hop && a.entry.rssi < b.entry.rssi)
  }

  predicate Ordered(s: seq<InfraRow>) {
    forall i, j :: 0 <= i < j < |s| ==> !Worse(s[i], s[j])
  }

  function Swapped(s: seq<InfraRow>, j: nat): (r: seq<InfraRow>)
    requires j + 1 < |s|
    ensures |r| == |s| && multiset(r) == multiset(s)
  {
    s[j := s[j + 1]][j + 1 := s[j]]
  }

  function Compared(s: seq<InfraRow>, j: nat): (r: seq<InfraRow>)
    requires j + 1 < |s|
    ensures |r| == |s| && multiset(r) == multiset(s)
  {
    if Worse(s[j], s[j + 1]) then Swapped(s, j) else s
  }

  /** The inner loop from j up to end. */
  function Pass(s: seq<InfraRow>, j: nat, end: nat): (r: seq<InfraRow>)
    requires j <= end < |s|
    ensures |r| == |s| && multiset(r) == multiset(s)
    decreases end - j
  {
    if j == end then s else Pass(Compared(s, j), j + 1, end)
  }

  /** The outer loop from pass i on. */
  function Passes(s: seq<InfraRow>, i: nat): (r: seq<InfraRow>)
    requires i < |s|
    ensures |r| == |s| && multiset(r) == multiset(s)
    decreases |s| - i
  {
    if i == |s| - 1 then s else Passes(Pass(s, 0, |s| - 1 - i), i + 1)
  }

  /** The table after sort_infra_devices. */
  function Sort(s: seq<InfraRow>): (r: seq<InfraRow>)
    ensures |r| == |s| && multiset(r) == multiset(s)
  {
    if |s| < 2 then s else Passes(s, 0)
  }

  /** Rows from m on are in place: nothing before them is worse. */
  predicate Settled(s: seq<InfraRow>, m: nat) {
    forall i, j :: 0 <= i < j < |s| && m <= j ==> !Worse(s[i], s[j])
  }

  predicate NoneWorse(s: seq<InfraRow>, n: nat, x: InfraRow)
    requires n <= |s|
  {
    forall k :: 0 <= k < n ==> !Worse(s[k], x)
  }

  /** A pass moves rows only below end + 1, and what bounds those rows still does. */
  lemma {:induction false} PassBelow(s: seq<InfraRow>, j: nat, end: nat)
    requires j <= end < |s|
    ensures forall k :: end < k < |s| ==> Pass(s, j, end)[k] == s[k]
    decreases end - j
  {
    if j < end {
      PassBelow(Compared(s, j), j + 1, end);
    }
  }

  lemma {:induction false} PassKeepsBound(s: seq<InfraRow>, j: nat, end: nat, x: InfraRow)
    requires j <= end < |s| && NoneWorse(s, end + 1, x)
    ensures NoneWorse(Pass(s, j, end), end + 1, x)
    decreases end - j
  {
    if j < end {
      PassKeepsBound(Compared(s, j), j + 1, end, x);
    }
  }

  /** A pass carries the worst row to its end. */
  lemma {:induction false} PassCarriesWorst(s: seq<InfraRow>, j: nat, end: nat)
    requires j <= end < |s| && NoneWorse(s, j, s[j])
    ensures NoneWorse(Pass(s, j, end), end, Pass(s, j, end)[end])
    decreases end - j
  {
    if j < end {
      PassCarriesWorst(Compared(s, j), j + 1, end);
    }
  }

  lemma PassSettles(s: seq<InfraRow>, end: nat)
    requires end < |s| && Settled(s, end + 1)
    ensures Settled(Pass(s, 0, end), end)
  {
    var r := Pass(s, 0, end);
    PassBelow(s, 0, end);
    PassCarriesWorst(s, 0, end);
    forall i, j | 0 <= i < j < |s| && end < j
      ensures !Worse(r[i], r[j])
    {
      if i <= end {
        PassKeepsBound(s, 0, end, s[j]);
      } else {
        assert r[i] == s[i] && r[j] == s[j];
      }
    }
  }

  lemma {:induction false} PassesSettle(s: seq<InfraRow>, i: nat)
    requires i < |s| && Settled(s, |s| - i)
    ensures Ordered(Passes(s, i))
    decreases |s| - i
  {
    if i < |s| - 1 {
      PassSettles(s, |s| - 1 - i);
      PassesSettle(Pass(s, 0, |s| - 1 - i), i + 1);
    }
  }

  /** The sort puts the table in order and loses or invents no row. */
  lemma SortOrders(s: seq<InfraRow>)
    ensures Ordered(Sort(s)) && multiset(Sort(s)) == multiset(s)
  {
    if |s| >= 2 {
      PassesSettle(s, 0);
    }
  }

  // ------------------------------------------------------------- distinct ids

  predicate DistinctIds(s: seq<InfraRow>) {
    forall i, j :: 0 <= i < j < |s| ==> s[i].entry.deviceId != s[j].entry.deviceId
  }

  lemma ComparedDistinct(s: seq<InfraRow>, j: nat)
    requires j + 1 < |s| && DistinctIds(s)
    ensures DistinctIds(Compared(s, j))
  {
  }

  lemma {:induction false} PassDistinct(s: seq<InfraRow>, j: nat, end: nat)
    requires j <= end < |s| && DistinctIds(s)
    ensures DistinctIds(Pass(s, j, end))
    decreases end - j
  {
    if j < end {
      ComparedDistinct(s, j);
      PassDistinct(Compared(s, j), j + 1, end);
    }
  }

  lemma {:induction false} PassesDistinct(s: seq<InfraRow>, i: nat)
    requires i < |s| && DistinctIds(s)
    ensures DistinctIds(Passes(s, i))
    decreases |s| - i
  {
    if i < |s| - 1 {
      PassDistinct(s, 0, |s| - 1 - i);
      PassesDistinct(Pass(s, 0, |s| - 1 - i), i + 1);
    }
  }

  lemma SortDistinct(s: seq<InfraRow>)
    requires DistinctIds(s)
    ensures DistinctIds(Sort(s))
  {
    if |s| >= 2 {
      PassesDistinct(s, 0);
    }
  }

  predicate HasId(s: seq<InfraRow>, id: uint16) {
    exists i :: 0 <= i < |s| && s[i].entry.deviceId == id
  }

  /** Adding a row keeps the ids distinct exactly when its id is new, which is what check_infra_storage
      asks. */
  lemma AddDistinctExact(s: seq<InfraRow>, r: InfraRow)
    requires DistinctIds(s)
    ensures DistinctIds(Sort(s + [r])) <==> !HasId(s, r.entry.deviceId)
  {
    var t := s + [r];
    if HasId(s, r.entry.deviceId) {
      var i :| 0 <= i < |s| && s[i].entry.deviceId == r.entry.deviceId;
      TwiceInSort(t, i, |s|);
    } else {
      assert DistinctIds(t);
      SortDistinct(t);
    }
  }

  /** Two rows with one id are still two rows after the sort. */
  lemma TwiceInSort(s: seq<InfraRow>, i: nat, j: nat)
    requires i < j < |s| && s[i].entry.deviceId == s[j].entry.deviceId
    ensures !DistinctIds(Sort(s))
  {
    var r := Sort(s);
    if DistinctIds(r) {
      if s[i] == s[j] {
        TwoOf(s, i, j);
        OneOf(r, s[i]);
      } else {
        assert s[i] in multiset(s) && s[j] in multiset(s);
        assert s[i] in r && s[j] in r;
      }
    }
  }

  lemma TwoOf(s: seq<InfraRow>, i: nat, j: nat)
    requires i < j < |s| && s[i] == s[j]
    ensures multiset(s)[s[i]] >= 2
  {
    assert s == s[..j] + s[j..];
    assert s[i] in s[..j] && s[i] in s[j..];
  }

  lemma {:induction false} OneOf(s: seq<InfraRow>, x: InfraRow)
    requires DistinctIds(s)
    ensures multiset(s)[x] <= 1
  {
    if s != [] {
      assert s == [s[0]] + s[1..];
      OneOf(s[1..], x);
      if s[0] == x {
        assert x !in s[1..];
      }
    }
  }
}
