// The boot page tables and descriptor table, and the address space they give (crates/vmm).
module BootTables {
  import opened Bytes
  import opened Bits
  import opened Paging

  const PML4_ADDR: nat := 0x7_0000
  const PDPT_ADDR: nat := 0x7_1000
  const PD_ADDR: nat := 0x7_2000
  const MIB: nat := 0x10_0000
  const MIN_RAM_MB: nat := 512
  const MAX_RAM_MB: nat := 8192

  /** The range of RAM sizes that `DeviceConfig::validate` accepts. */
  predicate ValidRam(ramMb: nat) {
    MIN_RAM_MB <= ramMb <= MAX_RAM_MB
  }

  /** The number of 2 MiB entries written: RAM rounded up, at most one directory. */
  function Pages(ramMb: nat): nat {
    var pages := (ramMb * MIB + PAGE_2M - 1) / PAGE_2M;
    if pages < 512 then pages else 512
  }

  function PdEntry(i: nat): nat {
    Or(i * PAGE_2M, 0x83)
  }

  /** Memory after the first `n` page-directory entries are written. */
  function PdEntries(mem: seq<byte>, n: nat): (m: seq<byte>)
    requires n <= 512 && PD_ADDR + 0x1000 <= |mem|
    ensures |m| == |mem|
  {
    if n == 0 then mem else Store(PdEntries(mem, n - 1), PD_ADDR + (n - 1) * 8, ToLe(PdEntry(n - 1), 8))
  }

  function PageTables(mem: seq<byte>, ramMb: nat): (m: seq<byte>)
    requires PD_ADDR + 0x1000 <= |mem|
    ensures |m| == |mem|
  {
    var m1 := Store(mem, PML4_ADDR, ToLe(Or(PDPT_ADDR, 3), 8));
    var m2 := Store(m1, PDPT_ADDR, ToLe(Or(PD_ADDR, 3), 8));
    PdEntries(m2, Pages(ramMb))
  }

  lemma PdEntryValue(i: nat)
    requires i < 512
    ensures PdEntry(i) == i * PAGE_2M + 0x83 < U64
  {
    Pow2Values();
    Pow2Add(1, 12);
    Pow2Add(13, 8);
    OrDisjoint(i, 0x83, 21);
  }

  /** Each directory entry is written once and stays; nothing else in memory moves. */
  lemma {:induction false} PdEntriesAre(mem: seq<byte>, n: nat, i: nat, a: nat)
    requires n <= 512 && PD_ADDR + 0x1000 <= |mem|
    ensures i < n ==> LeAt(PdEntries(mem, n), PD_ADDR + i * 8, 8) == i * PAGE_2M + 0x83
    ensures a < |mem| && !(PD_ADDR <= a < PD_ADDR + n * 8) ==> PdEntries(mem, n)[a] == mem[a]
  {
    hide ToLe, Le, Or;
    if n > 0 {
      PdEntriesAre(mem, n - 1, i, a);
      var before := PdEntries(mem, n - 1);
      if i == n - 1 {
        EntryStored(before, i);
      } else if i < n {
        LeAtSame(before, PdEntries(mem, n), PD_ADDR + i * 8, 8);
      }
    }
  }

  lemma EntryStored(mem: seq<byte>, i: nat)
    requires i < 512 && PD_ADDR + 0x1000 <= |mem|
    ensures LeAt(Store(mem, PD_ADDR + i * 8, ToLe(PdEntry(i), 8)), PD_ADDR + i * 8, 8) == i * PAGE_2M + 0x83
  {
    hide Store;
    LeAtStored(mem, PD_ADDR + i * 8, ToLe(PdEntry(i), 8));
    PdEntryValue(i);
    PowValues();
    LeOfToLe(PdEntry(i), 8);
  }

  ghost predicate ZeroIn(mem: seq<byte>, lo: nat, hi: nat) {
    hi <= |mem| && forall a :: lo <= a < hi ==> mem[a] == 0
  }

  /** The three table pages hold the identity map of `pages` large pages and nothing else. */
  ghost predicate IdentityTables(mem: seq<byte>, pages: nat) {
    && PD_ADDR + 0x1000 <= |mem| && pages <= 512
    && (forall i: nat :: i < 512 ==> EntryAt(mem, PML4_ADDR, i) == if i == 0 then PDPT_ADDR + 3 else 0)
    && (forall i: nat :: i < 512 ==> EntryAt(mem, PDPT_ADDR, i) == if i == 0 then PD_ADDR + 3 else 0)
    && (forall i: nat :: i < 512 ==> EntryAt(mem, PD_ADDR, i) == if i < pages then i * PAGE_2M + 0x83 else 0)
  }

  lemma ZeroInt(mem: seq<byte>, addr: nat, n: nat)
    requires addr + n <= |mem| && forall a :: addr <= a < addr + n ==> mem[a] == 0
    ensures LeAt(mem, addr, n) == 0
    decreases n
  {
    LeOfZeros(mem[addr..addr + n]);
  }

  // A table page with one entry and zeroes after it.
  lemma OneEntry(m: seq<byte>, table: nat, entry: nat)
    requires table <= PD_ADDR && table + 0x1000 <= |m|
    requires LeAt(m, table, 8) == entry && ZeroIn(m, table + 8, table + 0x1000)
    ensures forall i: nat :: i < 512 ==> EntryAt(m, table, i) == if i == 0 then entry else 0
  {
    hide LeAt;
    forall i: nat | 0 < i < 512 ensures EntryAt(m, table, i) == 0 {
      ZeroInt(m, table + 8 * i, 8);
    }
  }

  /** Writing the tables over zeroed pages gives exactly the identity map. */
  lemma TablesAreIdentity(mem: seq<byte>, ramMb: nat)
    requires PD_ADDR + 0x1000 <= |mem| && ZeroIn(mem, PML4_ADDR, PD_ADDR + 0x1000)
    ensures IdentityTables(PageTables(mem, ramMb), Pages(ramMb))
  {
    hide LeAt, ToLe, Or, EntryAt, PdEntries;
    var m1 := Store(mem, PML4_ADDR, ToLe(Or(PDPT_ADDR, 3), 8));
    var m2 := Store(m1, PDPT_ADDR, ToLe(Or(PD_ADDR, 3), 8));
    var n := Pages(ramMb);
    var m := PageTables(mem, ramMb);
    forall a: nat | a < |mem| && !(PD_ADDR <= a < PD_ADDR + n * 8) ensures m[a] == m2[a] {
      PdEntriesAre(m2, n, 0, a);
    }
    TopEntry(mem, PML4_ADDR, 0x71);
    LeAtSame(m1, m, PML4_ADDR, 8);
    OneEntry(m, PML4_ADDR, PDPT_ADDR + 3);
    TopEntry(m1, PDPT_ADDR, 0x72);
    LeAtSame(m2, m, PDPT_ADDR, 8);
    OneEntry(m, PDPT_ADDR, PD_ADDR + 3);
    forall i: nat | i < 512 ensures EntryAt(m, PD_ADDR, i) == if i < n then i * PAGE_2M + 0x83 else 0 {
      DirectoryEntry(m2, n, i);
    }
  }

  lemma DirectoryEntry(mem: seq<byte>, n: nat, i: nat)
    requires i < 512 && n <= 512 && PD_ADDR + 0x1000 <= |mem| && ZeroIn(mem, PD_ADDR, PD_ADDR + 0x1000)
    ensures EntryAt(PdEntries(mem, n), PD_ADDR, i) == if i < n then i * PAGE_2M + 0x83 else 0
  {
    hide LeAt, PdEntries;
    var m := PdEntries(mem, n);
    PdEntriesAre(mem, n, i, 0);
    if n <= i {
      forall a: nat | PD_ADDR + 8 * i <= a < PD_ADDR + 8 * i + 8 ensures m[a] == 0 {
        PdEntriesAre(mem, n, i, a);
      }
      ZeroInt(m, PD_ADDR + 8 * i, 8);
    }
  }

  lemma TopEntry(mem: seq<byte>, addr: nat, frame: nat)
    requires addr + 8 <= |mem| && frame < 0x1000
    ensures LeAt(Store(mem, addr, ToLe(Or(frame * 0x1000, 3), 8)), addr, 8) == frame * 0x1000 + 3
  {
    Pow2Values();
    OrDisjoint(frame, 3, 12);
    PowValues();
    LeAtStored(mem, addr, ToLe(Or(frame * 0x1000, 3), 8));
    LeOfToLe(frame * 0x1000 + 3, 8);
  }

  // The upper indices of an address are zero exactly in the first gigabyte.
  lemma Indices(v: nat)
    requires v < SPAN_48
    ensures v / SPAN_512G % 512 == 0 && v / PAGE_1G % 512 == 0 <==> v < PAGE_1G
    ensures v < PAGE_1G ==> v / PAGE_2M % 512 == v / PAGE_2M < 512
    ensures v == v / PAGE_2M * PAGE_2M + v % PAGE_2M
  {
  }

  lemma PointerEntries()
    ensures forall e :: e == PDPT_ADDR + 3 || e == PD_ADDR + 3 ==>
      Present(e) && Writable(e) && !User(e) && !PageSize(e) && !NoExecute(e) && Frame(e) == e - 3
  {
  }

  /** A walk over identity tables maps `v` to itself below the limit and faults above it. */
  lemma WalkIsIdentity(mem: seq<byte>, pages: nat, v: nat)
    requires IdentityTables(mem, pages) && v < SPAN_48
    ensures Walk(mem, PML4_ADDR, v) == if v < pages * PAGE_2M then Mapped(v, true, false) else Fault
  {
    hide EntryAt, Present, Writable, User, PageSize, NoExecute, Frame;
    Indices(v);
    PointerEntries();
    NoEntry();
    if v < PAGE_1G { LargeEntry(v / PAGE_2M); }
    var i4, i3, i2 := v / SPAN_512G % 512, v / PAGE_1G % 512, v / PAGE_2M % 512;
    assert EntryAt(mem, PML4_ADDR, i4) == if i4 == 0 then PDPT_ADDR + 3 else 0;
    assert EntryAt(mem, PDPT_ADDR, i3) == if i3 == 0 then PD_ADDR + 3 else 0;
    assert EntryAt(mem, PD_ADDR, i2) == if i2 < pages then i2 * PAGE_2M + 0x83 else 0;
  }

  lemma NoEntry()
    ensures !Present(0)
  {
  }

  lemma LargeEntry(i: nat)
    requires i < 512
    ensures var e := i * PAGE_2M + 0x83;
      && Present(e) && Writable(e) && !User(e) && PageSize(e) && !NoExecute(e)
      && e / 0x2000 % 0x100 == 0 && e / PAGE_2M % 0x8000_0000 == i
  {
    var e := i * PAGE_2M + 0x83;
    ModIs(e, 2, i * 0x10_0000 + 0x41, 1);
    ModIs(i * 0x10_0000 + 0x41, 2, i * 0x8_0000 + 0x20, 1);
    ModIs(e, 4, i * 0x8_0000 + 0x20, 3);
    ModIs(i * 0x8_0000 + 0x20, 2, i * 0x4_0000 + 0x10, 0);
    ModIs(e, 0x80, i * 0x4000 + 1, 3);
    ModIs(i * 0x4000 + 1, 2, i * 0x2000, 1);
    ModIs(e, 0x2000, i * 0x100, 0x83);
    ModIs(i * 0x100, 0x100, i, 0);
    ModIs(e, PAGE_2M, i, 0x83);
    ModIs(i, 0x8000_0000, 0, i);
    ModIs(e, 0x8000_0000_0000_0000, 0, e);
  }

  /**
   * Page-table correctness: over zeroed table pages, for every accepted RAM size, the tables map each
   * 48-bit address below min(ceil(ram / 2 MiB), 512) * 2 MiB to itself, writable and supervisor-only,
   * and map no other address.
   */
  lemma PageTablesMapIdentity(mem: seq<byte>, ramMb: nat, v: nat)
    requires ValidRam(ramMb) && |mem| == ramMb * MIB && v < SPAN_48
    requires ZeroIn(mem, PML4_ADDR, PD_ADDR + 0x1000)
    ensures Walk(PageTables(mem, ramMb), PML4_ADDR, v) ==
      if v < Pages(ramMb) * PAGE_2M then Mapped(v, true, false) else Fault
    ensures Pages(ramMb) == if ramMb < 1024 then (ramMb + 1) / 2 else 512
  {
    hide Walk, PageTables;
    TablesAreIdentity(mem, ramMb);
    WalkIsIdentity(PageTables(mem, ramMb), Pages(ramMb), v);
  }

  /** Every mapped page is backed by RAM exactly when the RAM size is even or fills the 1 GiB the directory spans. */
  lemma MapStaysInRamIff(mem: seq<byte>, ramMb: nat)
    requires ValidRam(ramMb) && |mem| == ramMb * MIB
    requires ZeroIn(mem, PML4_ADDR, PD_ADDR + 0x1000)
    ensures (forall v: nat :: v < SPAN_48 && Walk(PageTables(mem, ramMb), PML4_ADDR, v).Mapped?
               ==> Walk(PageTables(mem, ramMb), PML4_ADDR, v).physical < |mem|)
      <==> ramMb % 2 == 0 || ramMb >= 1024
  {
    hide Walk, PageTables;
    forall v: nat | v < SPAN_48
      ensures Walk(PageTables(mem, ramMb), PML4_ADDR, v) ==
        if v < Pages(ramMb) * PAGE_2M then Mapped(v, true, false) else Fault
    {
      PageTablesMapIdentity(mem, ramMb, v);
    }
    PageTablesMapIdentity(mem, ramMb, 0);
    var end := ramMb * MIB;
    assert end < SPAN_48;
    if ramMb % 2 == 1 && ramMb < 1024 {
      assert Walk(PageTables(mem, ramMb), PML4_ADDR, end) == Mapped(end, true, false);
    }
  }
}
