/** The external RAM behind SPI (src/psram.c). One SPI transaction ("burst") never crosses a
    1024-byte device page, so read and write split a transfer into bursts. */
module PsramDriver {
  import opened Basics

  const PSRAM_SIZE: nat := 8 * 1024 * 1024
  const PAGE: nat := 1024

  const OK := 0
  const EIO := -5
  const ENODEV := -19
  const EINVAL := -22

  /** The length of the next burst: up to the end of the device page. */
  function BurstLen(addr: nat, left: nat): (n: nat)
    requires left > 0
    ensures 0 < n <= left
  {
    var pageLeft := PAGE - addr % PAGE;
    if left < pageLeft then left else pageLeft
  }

  lemma BurstInPage(addr: nat, left: nat)
    requires left > 0
    ensures addr / PAGE == (addr + BurstLen(addr, left) - 1) / PAGE
  {
  }

  /** The bytes a transfer of len bytes at addr carries when `good` bursts succeed before one fails. */
  function Covered(addr: nat, len: nat, good: nat): (n: nat)
    ensures n <= len
    decreases len
  {
    if len == 0 || good == 0 then 0
    else
      var n := BurstLen(addr, len);
      n + Covered(addr + n, len - n, good - 1)
  }

  /** A transfer that fails after `good` bursts has carried everything up to the end of the
      good-th device page it touches. */
  lemma {:induction false} CoveredClosedForm(addr: nat, len: nat, good: nat)
    requires good > 0
    ensures var reach := (addr / PAGE + good) * PAGE - addr;
            Covered(addr, len, good) == if len <= reach then len else reach
    decreases len
  {
    if len > 0 {
      var n := BurstLen(addr, len);
      if good > 1 {
        CoveredClosedForm(addr + n, len - n, good - 1);
      }
    }
  }

  /** The bounds check as the compiler sees it: the sum is taken in 32 bits. */
  function OutOfBounds(addr: uint32, len: uint32): bool {
    (addr + len) % 0x1_0000_0000 > PSRAM_SIZE
  }

  /** The sum of address and length passes 2^32 and lands inside the device again. */
  predicate WrapsIntoRange(addr: uint32, len: uint32) {
    addr + len >= 0x1_0000_0000 && addr + len - 0x1_0000_0000 <= PSRAM_SIZE
  }

  /** The check rejects exactly the transfers that leave the device, as long as the sum does not
      reach 2^32 or stays above the device size after wrapping. */
  lemma BoundsCheckExact(addr: uint32, len: uint32)
    ensures (OutOfBounds(addr, len) <==> addr + len > PSRAM_SIZE) <==> !WrapsIntoRange(addr, len)
  {
  }

  /** A request whose sum wraps passes the check although it leaves the device. */
  lemma BoundsCheckWraps()
    ensures !OutOfBounds(0xFFFF_FFFF, 2) && 0xFFFF_FFFF + 2 > PSRAM_SIZE
  {
  }

  class Psram {
    const data: array<byte>
    var ready: bool

    ghost predicate Valid()
      reads this
    {
      data.Length == PSRAM_SIZE
    }

    constructor (ready: bool)
      ensures Valid() && fresh(data) && this.ready == ready
    {
      data := new byte[PSRAM_SIZE];
      this.ready := ready;
    }

    /** One SPI read transaction; the device allows none that is empty or crosses a page. */
    method SpiRead(a: nat, buf: array<byte>, at: nat, n: nat, ok: bool) returns (err: int)
      requires Valid() && buf != data && a + n <= PSRAM_SIZE && at + n <= buf.Length
      requires n > 0 && a / PAGE == (a + n - 1) / PAGE
      modifies buf
      ensures err == if ok then OK else EIO
      ensures forall j :: 0 <= j < buf.Length ==>
        buf[j] == if ok && at <= j < at + n then data[a + (j - at)] else old(buf[j])
    {
      if !ok {
        return EIO;
      }
      forall j | at <= j < at + n {
        buf[j] := data[a + (j - at)];
      }
      err := OK;
    }

    /** One SPI write transaction, of n bytes of src, under the same restriction. */
    method SpiWrite(a: nat, src: seq<byte>, at: nat, n: nat, ok: bool) returns (err: int)
      requires Valid() && a + n <= PSRAM_SIZE && at + n <= |src|
      requires n > 0 && a / PAGE == (a + n - 1) / PAGE
      modifies data
      ensures err == if ok then OK else EIO
      ensures forall j :: 0 <= j < PSRAM_SIZE ==>
        data[j] == if ok && a <= j < a + n then src[at + (j - a)] else old(data[j])
    {
      if !ok {
        return EIO;
      }
      forall j | a <= j < a + n {
        data[j] := src[at + (j - a)];
      }
      err := OK;
    }

    /** Reads len bytes at addr into buf. `good` is the number of SPI transactions that succeed
        before one fails. */
    method Read(addr: uint32, buf: array<byte>, len: uint32, good: nat) returns (err: int)
      requires Valid() && buf != data && len <= buf.Length && !WrapsIntoRange(addr, len)
      modifies buf
      ensures !ready ==> err == ENODEV && buf[..] == old(buf[..])
      ensures ready && addr + len > PSRAM_SIZE ==> err == EINVAL && buf[..] == old(buf[..])
      ensures ready && addr + len <= PSRAM_SIZE ==>
        var n := Covered(addr, len, good);
        && err == (if n == len then OK else EIO)
        && forall j :: 0 <= j < buf.Length ==> buf[j] == if j < n then data[addr + j] else old(buf[j])
    {
      if !ready {
        return ENODEV;
      }
      if OutOfBounds(addr, len) {
        return EINVAL;
      }
      err := ReadBursts(addr, buf, len, good);
    }

    method ReadBursts(addr: nat, buf: array<byte>, len: nat, good: nat) returns (err: int)
      requires Valid() && buf != data && len <= buf.Length && addr + len <= PSRAM_SIZE
      modifies buf
      ensures err == if Covered(addr, len, good) == len then OK else EIO
      ensures forall j :: 0 <= j < buf.Length ==>
        buf[j] == if j < Covered(addr, len, good) then data[addr + j] else old(buf[j])
    {
      var at, k := 0, good;
      ghost var total := Covered(addr, len, good);
      while at < len
        invariant at <= len
        invariant at + Covered(addr + at, len - at, k) == total
        invariant forall j :: 0 <= j < buf.Length ==> buf[j] == if j < at then data[addr + j] else old(buf[j])
        decreases len - at
      {
        BurstInPage(addr + at, len - at);
        var n := BurstLen(addr + at, len - at);
        err := SpiRead(addr + at, buf, at, n, k > 0);
        if err != OK {
          return;
        }
        at, k := at + n, k - 1;
      }
      return OK;
    }

    /** Writes src at addr. */
    method Write(addr: uint32, src: seq<byte>, good: nat) returns (err: int)
      requires Valid() && |src| < 0x1_0000_0000 && !WrapsIntoRange(addr, |src|)
      modifies data
      ensures !ready ==> err == ENODEV && data[..] == old(data[..])
      ensures ready && addr + |src| > PSRAM_SIZE ==> err == EINVAL && data[..] == old(data[..])
      ensures ready && addr + |src| <= PSRAM_SIZE ==>
        var n := Covered(addr, |src|, good);
        && err == (if n == |src| then OK else EIO)
        && forall j :: 0 <= j < PSRAM_SIZE ==>
             data[j] == if addr <= j < addr + n then src[j - addr] else old(data[j])
    {
      if !ready {
        return ENODEV;
      }
      if OutOfBounds(addr, |src|) {
        return EINVAL;
      }
      err := WriteBursts(addr, src, good);
    }

    method WriteBursts(addr: nat, src: seq<byte>, good: nat) returns (err: int)
      requires Valid() && addr + |src| <= PSRAM_SIZE
      modifies data
      ensures err == if Covered(addr, |src|, good) == |src| then OK else EIO
      ensures forall j :: 0 <= j < PSRAM_SIZE ==>
        data[j] == if addr <= j < addr + Covered(addr, |src|, good) then src[j - addr] else old(data[j])
    {
      var at, k := 0, good;
      ghost var total := Covered(addr, |src|, good);
      while at < |src|
        invariant at <= |src|
        invariant at + Covered(addr + at, |src| - at, k) == total
        invariant forall j :: 0 <= j < PSRAM_SIZE ==>
          data[j] == if addr <= j < addr + at then src[j - addr] else old(data[j])
        decreases |src| - at
      {
        BurstInPage(addr + at, |src| - at);
        var n := BurstLen(addr + at, |src| - at);
        err := SpiWrite(addr + at, src, at, n, k > 0);
        if err != OK {
          return;
        }
        at, k := at + n, k - 1;
      }
      return OK;
    }

    /** Zero-fills len bytes at addr, 256 at a time. `good` bounds every single write. */
    method Clear(addr: uint32, len: uint32, good: nat) returns (err: int)
      requires Valid() && !WrapsIntoRange(addr, len)
      modifies data
      ensures !ready ==> err == ENODEV && data[..] == old(data[..])
      ensures ready && addr + len > PSRAM_SIZE ==> err == EINVAL && data[..] == old(data[..])
      ensures ready && addr + len <= PSRAM_SIZE ==>
        && (good >= 2 ==> err == OK)
        && (forall j :: 0 <= j < PSRAM_SIZE && !(addr <= j < addr + len) ==> data[j] == old(data[j]))
        && (err == OK ==> forall j :: addr <= j < addr + len ==> data[j] == 0)
    {
      if !ready {
        return ENODEV;
      }
      if OutOfBounds(addr, len) {
        return EINVAL;
      }
      var at := 0;
      while at < len
        invariant at <= len
        invariant forall j :: 0 <= j < PSRAM_SIZE && !(addr <= j < addr + len) ==> data[j] == old(data[j])
        invariant forall j :: addr <= j < addr + at ==> data[j] == 0
      {
        var chunk := if len - at > 256 then 256 else len - at;
        if good >= 2 {
          TwoBursts(addr + at, chunk, good);
        }
        err := Write(addr + at, seq(chunk, _ => 0), good);
        if err != OK {
          return;
        }
        at := at + chunk;
      }
      return OK;
    }
  }

  /** A transfer no longer than a device page takes at most two bursts. */
  lemma TwoBursts(addr: nat, len: nat, good: nat)
    requires len <= PAGE && good >= 2
    ensures Covered(addr, len, good) == len
  {
    if len > 0 {
      var n := BurstLen(addr, len);
      assert Covered(addr, len, good) == n + Covered(addr + n, len - n, good - 1);
    }
  }

  /** A successful write is a splice, and reading the same range back returns what was written. */
  lemma WriteThenRead(before: seq<byte>, after: seq<byte>, addr: nat, src: seq<byte>)
    requires |before| == |after| == PSRAM_SIZE && addr + |src| <= PSRAM_SIZE
    requires forall j :: 0 <= j < PSRAM_SIZE ==>
      after[j] == if addr <= j < addr + |src| then src[j - addr] else before[j]
    ensures after == Splice(before, addr, src)
    ensures after[addr..addr + |src|] == src
  {
  }

  // ------------------------------------------------- the memory as a value

  predicate StoreOk(addr: nat, len: nat, good: nat) {
    addr + len <= PSRAM_SIZE && Covered(addr, len, good) == len
  }

  /** psram_write with `good` successful bursts. */
  function Store(mem: seq<byte>, addr: nat, data: seq<byte>, good: nat): (r: seq<byte>)
    requires |mem| == PSRAM_SIZE
    ensures |r| == PSRAM_SIZE
  {
    if addr + |data| > PSRAM_SIZE then mem else Splice(mem, addr, data[..Covered(addr, |data|, good)])
  }

  lemma StoredByPoints(before: seq<byte>, after: seq<byte>, addr: nat, bytes: seq<byte>, good: nat)
    requires |before| == |after| == PSRAM_SIZE && addr + |bytes| <= PSRAM_SIZE
    requires var n := Covered(addr, |bytes|, good);
      forall j :: 0 <= j < PSRAM_SIZE ==> after[j] == if addr <= j < addr + n then bytes[j - addr] else before[j]
    ensures after == Store(before, addr, bytes, good)
  {
    WriteThenRead(before, after, addr, bytes[..Covered(addr, |bytes|, good)]);
  }

  lemma StoreOutside(mem: seq<byte>, addr: nat, data: seq<byte>, good: nat, lo: nat, hi: nat)
    requires |mem| == PSRAM_SIZE && lo <= hi <= PSRAM_SIZE && (hi <= addr || addr + |data| <= lo)
    ensures Store(mem, addr, data, good)[lo..hi] == mem[lo..hi]
  {
    if addr + |data| <= PSRAM_SIZE {
      SpliceOutside(mem, addr, data[..Covered(addr, |data|, good)], lo, hi);
    }
  }
}
