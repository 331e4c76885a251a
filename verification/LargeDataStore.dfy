/** The slot table and the page map: which slot owns which pages of the external RAM
    (src/large_data.c, alloc_large_data_slot and free_large_data_slot). */
module LargeDataStore {
  import opened Basics
  import opened LargeDataTypes
  import opened PsramDriver

  /** The module's whole state. mem is the external RAM. */
  datatype Ld = Ld(slots: seq<Slot>, empty: seq<bool>, mem: seq<byte>, busy: bool, snd: Sender)

  ghost predicate Shape(s: Ld) {
    |s.slots| == SLOTS && |s.empty| == MAX_PAGES && |s.mem| == PSRAM_SIZE
  }

  /** The first active slot for a transfer, or SLOTS. */
  function FindFrom(slots: seq<Slot>, gen: uint16, dataId: uint8, i: nat): (r: nat)
    requires i <= |slots|
    ensures i <= r <= |slots|
    ensures r < |slots| ==> slots[r].active && slots[r].gen == gen && slots[r].dataId == dataId
    ensures forall j :: i <= j < r ==> !(slots[j].active && slots[j].gen == gen && slots[j].dataId == dataId)
    decreases |slots| - i
  {
    if i == |slots| || (slots[i].active && slots[i].gen == gen && slots[i].dataId == dataId) then i
    else FindFrom(slots, gen, dataId, i + 1)
  }

  function FindSlot(slots: seq<Slot>, gen: uint16, dataId: uint8): Option<nat> {
    var i := FindFrom(slots, gen, dataId, 0);
    if i < |slots| then Some(i) else None
  }

  function InactiveFrom(slots: seq<Slot>, i: nat): (r: nat)
    requires i <= |slots|
    ensures i <= r <= |slots|
    ensures r < |slots| ==> !slots[r].active
    ensures forall j :: i <= j < r ==> slots[j].active
    decreases |slots| - i
  {
    if i == |slots| || !slots[i].active then i else InactiveFrom(slots, i + 1)
  }

  /** n empty pages in a row starting at page p. */
  predicate IsRun(empty: seq<bool>, p: nat, n: nat) {
    p + n <= |empty| && forall k :: p <= k < p + n ==> empty[k]
  }

  /** The leftmost run of n empty pages at or after page p. */
  function RunFrom(empty: seq<bool>, n: nat, p: nat): (r: Option<nat>)
    requires p <= |empty|
    ensures r.Some? ==> p <= r.value && IsRun(empty, r.value, n) && forall q :: p <= q < r.value ==> !IsRun(empty, q, n)
    ensures r.None? ==> forall q :: p <= q ==> !IsRun(empty, q, n)
    decreases |empty| - p
  {
    if IsRun(empty, p, n) then Some(p) else if p == |empty| then None else RunFrom(empty, n, p + 1)
  }

  /** The pages the scan looks for: it tests the size only after counting a page. */
  function PagesWanted(size: nat): nat {
    if size == 0 then 1 else Pages(size)
  }

  /** alloc_large_data_slot: a slot index and the first of its pages. */
  function Place(s: Ld, size: nat): Option<(nat, nat)>
  {
    var idx := InactiveFrom(s.slots, 0);
    if idx == |s.slots| then None
    else match RunFrom(s.empty, PagesWanted(size), 0)
      case None => None
      case Some(p) => Some((idx, p))
  }

  function SetPages(empty: seq<bool>, p: int, n: nat, v: bool): (r: seq<bool>)
    ensures |r| == |empty|
    ensures forall k :: 0 <= k < |empty| ==> r[k] == if p <= k < p + n then v else empty[k]
  {
    seq(|empty|, k requires 0 <= k < |empty| => if p <= k < p + n then v else empty[k])
  }

  /** The state and slot index after allocation. */
  function Reserve(s: Ld, size: nat): (r: (Ld, Option<nat>))
    requires Shape(s)
    ensures Shape(r.0)
  {
    match Place(s, size)
    case None => (s, None)
    case Some((idx, p)) =>
      var base: uint32 := LD_BASE + p * PAGE_SIZE;
      (s.(slots := s.slots[idx := s.slots[idx].(active := true, base := base)],
          empty := SetPages(s.empty, p, PagesWanted(size), false)),
       Some(idx))
  }

  function StartPage(sl: Slot): int {
    (sl.base - LD_BASE) / PAGE_SIZE
  }

  /** free_large_data_slot without its sender part. */
  function Release(s: Ld, idx: nat): (r: Ld)
    requires Shape(s) && idx < SLOTS
    ensures Shape(r)
  {
    var sl := s.slots[idx];
    s.(slots := s.slots[idx := sl.(active := false)],
       empty := SetPages(s.empty, StartPage(sl), Pages(sl.totalSize), true))
  }

  // ------------------------------------------------------------ ownership

  predicate Owns(sl: Slot, p: int) {
    sl.active && StartPage(sl) <= p < StartPage(sl) + Pages(sl.totalSize)
  }

  /** A slot's region is a whole number of pages inside the large-data partition. */
  predicate Placed(sl: Slot) {
    && 0 < sl.totalSize <= MAX_TRANSFER
    && LD_BASE <= sl.base && sl.base == LD_BASE + StartPage(sl) * PAGE_SIZE
    && StartPage(sl) + Pages(sl.totalSize) <= MAX_PAGES
  }

  ghost predicate Owned(slots: seq<Slot>, p: int) {
    exists i :: 0 <= i < |slots| && Owns(slots[i], p)
  }

  /** Active slots own disjoint page ranges, and a page is marked empty exactly when it is unowned. */
  ghost predicate Ownership(s: Ld) {
    && Shape(s)
    && (forall i :: 0 <= i < SLOTS && s.slots[i].active ==> Placed(s.slots[i]))
    && (forall i, j, p :: 0 <= i < SLOTS && 0 <= j < SLOTS && Owns(s.slots[i], p) && Owns(s.slots[j], p) ==> i == j)
    && (forall p :: 0 <= p < MAX_PAGES ==> (s.empty[p] <==> !Owned(s.slots, p)))
  }

  /** large_data_init. */
  lemma InitOwnership(s: Ld)
    requires Shape(s) && (forall i :: 0 <= i < SLOTS ==> !s.slots[i].active)
    requires forall p :: 0 <= p < MAX_PAGES ==> s.empty[p]
    ensures Ownership(s)
  {
  }

  /** Allocation fails exactly when every slot is in use or no long enough run of pages is empty,
      and then changes nothing; otherwise it takes the leftmost such run and the first free slot. */
  lemma ReserveComplete(s: Ld, size: nat)
    requires Shape(s)
    ensures var (t, r) := Reserve(s, size);
      && (r.None? <==>
            (forall i :: 0 <= i < SLOTS ==> s.slots[i].active) || (forall p :: !IsRun(s.empty, p, PagesWanted(size))))
      && (r.None? ==> t == s)
      && (r.Some? ==>
           var p := StartPage(t.slots[r.value]);
           && r.value < SLOTS && !s.slots[r.value].active && (forall i :: 0 <= i < r.value ==> s.slots[i].active)
           && IsRun(s.empty, p, PagesWanted(size)) && (forall q :: 0 <= q < p ==> !IsRun(s.empty, q, PagesWanted(size)))
           && (forall k :: 0 <= k < MAX_PAGES ==> t.empty[k] == (s.empty[k] && !(p <= k < p + PagesWanted(size)))))
  {
  }

  /** What the callers of alloc_large_data_slot leave behind: slot idx filled in with the size that
      was allocated and the base address that allocation chose. */
  function Filled(s: Ld, size: nat, sl: Slot): Ld
    requires Shape(s) && Place(s, size).Some?
  {
    var (t, r) := Reserve(s, size);
    var total: uint32 := if size < 0x1_0000_0000 then size else 0;
    t.(slots := t.slots[r.value := sl.(active := true, totalSize := total, base := t.slots[r.value].base)])
  }

  lemma PlacedAt(s: Ld, size: nat, sl: Slot)
    requires Shape(s) && 0 < size <= MAX_TRANSFER && Place(s, size).Some?
    ensures var (idx, p) := Place(s, size).value; var t := Filled(s, size, sl);
            && idx < SLOTS && StartPage(t.slots[idx]) == p && Placed(t.slots[idx])
            && forall k :: Owns(t.slots[idx], k) <==> p <= k < p + Pages(size)
  {
    var (idx, p) := Place(s, size).value;
    TransferBounds(size);
    assert Filled(s, size, sl).slots[idx].base == LD_BASE + p * PAGE_SIZE;
  }

  /** Allocation followed by filling in the slot keeps the ownership map, when the size is not zero. */
  lemma AllocKeepsOwnership(s: Ld, size: nat, sl: Slot)
    requires Ownership(s) && 0 < size <= MAX_TRANSFER && Place(s, size).Some?
    ensures Ownership(Filled(s, size, sl))
  {
    var (idx, p) := Place(s, size).value;
    var t := Filled(s, size, sl);
    PlacedAt(s, size, sl);
    assert forall i :: 0 <= i < SLOTS && i != idx ==> t.slots[i] == s.slots[i];
    assert forall k :: !Owns(s.slots[idx], k);
    forall k | 0 <= k < MAX_PAGES
      ensures t.empty[k] <==> !Owned(t.slots, k)
    {
      if p <= k < p + Pages(size) {
        assert Owns(t.slots[idx], k);
      } else if Owned(s.slots, k) {
        var i :| 0 <= i < SLOTS && Owns(s.slots[i], k);
        assert Owns(t.slots[i], k);
      } else {
        assert forall i :: 0 <= i < SLOTS && i != idx ==> !Owns(t.slots[i], k);
      }
    }
    forall i, k | 0 <= i < SLOTS && i != idx && Owns(t.slots[i], k)
      ensures !Owns(t.slots[idx], k)
    {
      assert Owns(s.slots[i], k);
      assert Owned(s.slots, k);
    }
  }

  /** For size 0 a page is taken that no slot owns, so the callers' check for zero is needed. */
  lemma ZeroSizeLeaksPage(s: Ld, sl: Slot)
    requires Ownership(s) && Place(s, 0).Some?
    ensures exists k :: 0 <= k < MAX_PAGES && !Filled(s, 0, sl).empty[k] && !Owned(Filled(s, 0, sl).slots, k)
  {
    var (idx, p) := Place(s, 0).value;
    var t := Filled(s, 0, sl);
    assert forall i :: 0 <= i < SLOTS && i != idx ==> t.slots[i] == s.slots[i];
    assert s.empty[p] && !Owned(s.slots, p);
    assert !Owned(t.slots, p);
    assert !t.empty[p];
  }

  /** Freeing a slot gives back exactly its own pages. */
  lemma ReleaseKeepsOwnership(s: Ld, idx: nat)
    requires Ownership(s) && idx < SLOTS && s.slots[idx].active
    ensures Ownership(Release(s, idx))
    ensures forall k :: 0 <= k < MAX_PAGES ==> Release(s, idx).empty[k] == (s.empty[k] || Owns(s.slots[idx], k))
  {
    var t := Release(s, idx);
    assert forall i :: 0 <= i < SLOTS && i != idx ==> t.slots[i] == s.slots[i];
    forall k | 0 <= k < MAX_PAGES
      ensures t.empty[k] <==> !Owned(t.slots, k)
    {
      if Owns(s.slots[idx], k) {
        assert forall i :: 0 <= i < SLOTS && i != idx ==> !Owns(s.slots[i], k);
      } else if Owned(s.slots, k) {
        var i :| 0 <= i < SLOTS && Owns(s.slots[i], k);
        assert Owns(t.slots[i], k);
      } else {
        assert forall i :: 0 <= i < SLOTS ==> !Owns(s.slots[i], k);
      }
    }
    forall i, j, k | 0 <= i < SLOTS && 0 <= j < SLOTS && Owns(t.slots[i], k) && Owns(t.slots[j], k)
      ensures i == j
    {
      assert Owns(s.slots[i], k) && Owns(s.slots[j], k);
    }
  }
}
