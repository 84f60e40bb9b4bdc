// What guest memory holds once a machine is loaded and set up. Addresses and sizes are written out:
// setup sectors at 64 KiB, command line at 128 KiB, tables at 448 KiB, descriptors at 512 KiB, zero page
// at 576 KiB, kernel at 1 MiB, initramfs at 128 MiB.
module BootProofs {
  import opened Bytes
  import opened Bits
  import opened Results
  import opened GuestRam
  import opened Paging
  import opened BootTables
  import opened Boot

  lemma HoldsStored(mem: seq<byte>, addr: nat, data: seq<byte>)
    requires addr + |data| <= |mem|
    ensures Holds(Store(mem, addr, data), addr, data)
  {
  }

  lemma HoldsKept(m: seq<byte>, m': seq<byte>, addr: nat, data: seq<byte>)
    requires |m| == |m'| && Holds(m, addr, data)
    requires forall a: nat :: addr <= a < addr + |data| ==> m'[a] == m[a]
    ensures Holds(m', addr, data)
  {
    assert m'[addr..addr + |data|] == m[addr..addr + |data|];
  }

  // ---- From a fresh machine to a prepared one ----

  /** `new`, `load_kernel`, `load_initramfs` and `setup_boot` in the order they are called. */
  function Booted(ramMb: nat, kernel: File, initramfs: File, cmdline: seq<byte>): Result<Machine>
    requires ValidRam(ramMb)
  {
    var (m1, r1) := LoadKernel(Fresh(ramMb), kernel);
    if r1.Err? then Err(r1.error) else
    var (m2, r2) := LoadInitramfs(m1, initramfs);
    if r2.Err? then Err(r2.error) else
    var (m3, r3) := SetupBoot(m2, ramMb, cmdline);
    if r3.Err? then Err(r3.error) else Ok(m3)
  }

  /** A bzImage whose payload fields exist, name a plausible offset, and leave bytes after the setup sectors. */
  predicate GoodHeader(data: seq<byte>)
    requires IsBzImage(data)
  {
    0x250 <= |data| && 0x200 <= LeAt(data, 0x248, 4) && (data[0x1f1] as nat + 1) * 512 < |data|
  }

  /** A bzImage by the boot protocol: "HdrS" at 0x202, and one sector more of setup than byte 0x1f1 counts. */
  lemma BzImageIff(data: seq<byte>)
    ensures IsBzImage(data) <==>
      |data| >= 0x206 && data[0x202] == 0x48 && data[0x203] == 0x64 && data[0x204] == 0x72 && data[0x205] == 0x53
    ensures IsBzImage(data) ==> SetupSize(data) == 512 * (data[0x1f1] as nat + 1)
  {
    if |data| >= 0x206 {
      var magic := data[0x202..0x206];
      assert magic == [magic[0], magic[1], magic[2], magic[3]];
    }
  }

  /** The payload of a bzImage is what follows its setup sectors. */
  lemma PayloadFollowsSetup(setup: seq<byte>, payload: seq<byte>)
    requires IsBzImage(setup) && |setup| == 512 * (setup[0x1f1] as nat + 1)
    ensures IsBzImage(setup + payload) && Payload(setup + payload) == payload
  {
    var data := setup + payload;
    assert data[0x202..0x206] == setup[0x202..0x206];
    assert data[|setup|..] == payload;
  }

  /** A kernel file the loader takes: it fits in RAM, and as a bzImage has a good and complete header. */
  predicate Loadable(ramMb: nat, kernel: File) {
    && kernel.Found?
    && 0x10_0000 + |Payload(kernel.data)| <= ramMb * 0x10_0000
    && (IsBzImage(kernel.data) ==> GoodHeader(kernel.data) && 0x290 <= |kernel.data|)
  }

  predicate Bootable(ramMb: nat, kernel: File, initramfs: File, cmdline: seq<byte>) {
    && Loadable(ramMb, kernel) && initramfs.Found?
    && 0x800_0000 + |initramfs.data| <= ramMb * 0x10_0000
    && (IsBzImage(kernel.data) ==> |cmdline| < 0x800)
  }

  lemma LoadKernelIs(ramMb: nat, kernel: File)
    requires ValidRam(ramMb)
    ensures var (m, r) := LoadKernel(Fresh(ramMb), kernel);
      && |m.mem| == ramMb * 0x10_0000 && m.initramfsSize == 0
      && (r.Ok? <==> Loadable(ramMb, kernel))
      && (r.Ok? ==> m.isBzImage == IsBzImage(kernel.data) && Holds(m.mem, 0x10_0000, Payload(kernel.data)))
      && (r.Ok? && m.isBzImage ==>
            |m.header| == 0x290 - 0x1f1 && m.header == kernel.data[0x1f1..0x290])
      && (r.Ok? && m.isBzImage ==> Holds(m.mem, 0x1_0000, kernel.data[..SetupSize(kernel.data)]))
      && (r.Ok? && !m.isBzImage ==> ZeroIn(m.mem, 0, 0x10_0000))
  {
    hide LeAt, CheckBzImage, GoodHeader, Holds, IsBzImage, Store;
    if kernel.Found? {
      var data, mem := kernel.data, Fresh(ramMb).mem;
      if 0x10_0000 + |Payload(data)| <= ramMb * 0x10_0000 {
        if IsBzImage(data) {
          CheckedSize(data);
          if SetupSize(data) <= |data| {
            SetupThenPayload(mem, data[..SetupSize(data)], data[SetupSize(data)..]);
          }
        } else {
          HoldsStored(mem, 0x10_0000, data);
          ZeroBelow(mem, data);
        }
      } else if IsBzImage(data) {
        CheckedSize(data);
      }
    }
  }

  lemma CheckedSize(data: seq<byte>)
    requires IsBzImage(data)
    ensures SetupSize(data) <= 0x2_0000 && (GoodHeader(data) ==> SetupSize(data) < |data|)
    ensures CheckBzImage(data).Ok? <==> GoodHeader(data)
  {
    hide LeAt;
  }

  lemma SetupThenPayload(mem: seq<byte>, setup: seq<byte>, payload: seq<byte>)
    requires |setup| <= 0x2_0000 && 0x10_0000 + |payload| <= |mem|
    ensures var m := Store(Store(mem, 0x1_0000, setup), 0x10_0000, payload);
      Holds(m, 0x1_0000, setup) && Holds(m, 0x10_0000, payload)
  {
    var m1 := Store(mem, 0x1_0000, setup);
    HoldsStored(mem, 0x1_0000, setup);
    HoldsPast(m1, 0x10_0000, payload, 0x1_0000, setup);
    HoldsStored(m1, 0x10_0000, payload);
  }

  lemma ZeroBelow(mem: seq<byte>, data: seq<byte>)
    requires 0x10_0000 + |data| <= |mem| && ZeroIn(mem, 0, |mem|)
    ensures ZeroIn(Store(mem, 0x10_0000, data), 0, 0x10_0000)
  {
  }

  /** Which error a kernel or initramfs that is not loaded gives. */
  lemma LoadErrors(ramMb: nat, file: File)
    requires ValidRam(ramMb)
    ensures var r := LoadKernel(Fresh(ramMb), file).1;
      && (r == Err(KernelNotFound) <==> file.Missing?) && (r == Err(KernelLoadFailed) <==> file.Unreadable?)
      && (file.Found? && !IsBzImage(file.data) && !Loadable(ramMb, file) ==>
            r == Err(GuestAddressOutOfRange(0x10_0000)))
      && (file.Found? && IsBzImage(file.data) && 0x250 <= |file.data| && !GoodHeader(file.data) ==>
            r == Err(InvalidPayloadRange))
      && (file.Found? && IsBzImage(file.data) && |file.data| < 0x250 ==>
            r == Err(MissingHeaderField(if |file.data| < 0x24c then 0x248 else 0x24c)))
      && (file.Found? && IsBzImage(file.data) && GoodHeader(file.data) ==>
            (0x10_0000 + |Payload(file.data)| > ramMb * 0x10_0000 <==> r == Err(GuestAddressOutOfRange(0x10_0000))))
    ensures var r := LoadInitramfs(Fresh(ramMb), file).1;
      && (r == Err(InitramfsNotFound) <==> file.Missing?) && (r == Err(KernelLoadFailed) <==> file.Unreadable?)
      && (file.Found? && 0x800_0000 + |file.data| > ramMb * 0x10_0000 ==> r == Err(GuestAddressOutOfRange(0x800_0000)))
  {
    hide LeAt, Store, IsBzImage;
    if file.Found? && IsBzImage(file.data) { CheckedSize(file.data); }
  }

  /** The panic of `load_kernel`: a bzImage that passes every check but ends before its setup header does. */
  lemma LoadKernelPanicsIff(m: Machine, data: seq<byte>)
    requires 0x10_0000 + |data| <= |m.mem| < MAX_REGION
    ensures LoadKernel(m, Found(data)).1 == Err(Panicked)
      <==> IsBzImage(data) && GoodHeader(data) && |data| < 0x290
  {
    hide LeAt;
    if IsBzImage(data) { CheckedSize(data); }
  }

  /** Preparation succeeds exactly on bootable files. */
  lemma BootedIff(ramMb: nat, kernel: File, initramfs: File, cmdline: seq<byte>)
    requires ValidRam(ramMb)
    ensures Booted(ramMb, kernel, initramfs, cmdline).Ok? <==> Bootable(ramMb, kernel, initramfs, cmdline)
  {
    hide LoadKernel, Loadable, Payload, IsBzImage, PageTables, BootParams, Gdt64, Gdt32, Store, SetupBoot;
    LoadKernelIs(ramMb, kernel);
    var (m1, r1) := LoadKernel(Fresh(ramMb), kernel);
    if r1.Ok? && initramfs.Found? {
      var (m2, r2) := LoadInitramfs(m1, initramfs);
      SetupBootIff(m2, ramMb, cmdline);
    }
  }

  lemma SetupBootIff(m: Machine, ramMb: nat, cmdline: seq<byte>)
    requires ValidRam(ramMb) && |m.mem| == ramMb * 0x10_0000
    requires m.isBzImage ==> |m.header| == 0x290 - 0x1f1
    ensures SetupBoot(m, ramMb, cmdline).1.Ok? <==> (m.isBzImage ==> |cmdline| < 0x800)
  {
    hide PageTables, BootParams, Gdt64, Gdt32, Store;
  }

  lemma PageTablesKeep(mem: seq<byte>, ramMb: nat, a: nat)
    requires 0x7_2000 + 0x1000 <= |mem|
    ensures a < |mem| && !(0x7_0000 <= a < 0x7_2000 + 0x1000) ==> PageTables(mem, ramMb)[a] == mem[a]
  {
    hide PdEntries;
    var m1 := Store(mem, 0x7_0000, ToLe(Or(PDPT_ADDR, 3), 8));
    var m2 := Store(m1, PDPT_ADDR, ToLe(Or(0x7_2000, 3), 8));
    PdEntriesAre(m2, Pages(ramMb), 0, a);
  }

  // ---- Images in memory ----

  // A store outside a range keeps what the range holds.
  lemma HoldsPast(mem: seq<byte>, at: nat, later: seq<byte>, addr: nat, data: seq<byte>)
    requires at + |later| <= |mem| && Holds(mem, addr, data)
    requires addr + |data| <= at || at + |later| <= addr
    ensures Holds(Store(mem, at, later), addr, data)
  {
    HoldsKept(mem, Store(mem, at, later), addr, data);
  }

  lemma KernelAndInitramfs(ramMb: nat, kernel: File, initramfs: File)
    requires ValidRam(ramMb) && Loadable(ramMb, kernel) && initramfs.Found?
    requires 0x800_0000 + |initramfs.data| <= ramMb * 0x10_0000
    requires 0x10_0000 + |Payload(kernel.data)| <= 0x800_0000
    ensures var m1 := LoadKernel(Fresh(ramMb), kernel).0;
      var m := LoadInitramfs(m1, initramfs).0;
      && |m.mem| == ramMb * 0x10_0000 && m.isBzImage == IsBzImage(kernel.data) && m.initramfsSize == |initramfs.data|
      && Holds(m.mem, 0x10_0000, Payload(kernel.data))
      && Holds(m.mem, 0x800_0000, initramfs.data)
      && (m.isBzImage ==> m.header == kernel.data[0x1f1..0x290]
                          && Holds(m.mem, 0x1_0000, kernel.data[..SetupSize(kernel.data)]))
      && (!m.isBzImage ==> ZeroIn(m.mem, 0, 0x10_0000))
  {
    hide LoadKernel, GoodHeader, Payload;
    LoadKernelIs(ramMb, kernel);
    var m1 := LoadKernel(Fresh(ramMb), kernel).0;
    HoldsStored(m1.mem, 0x800_0000, initramfs.data);
    HoldsPast(m1.mem, 0x800_0000, initramfs.data, 0x10_0000, Payload(kernel.data));
    if m1.isBzImage {
      SetupFits(ramMb, kernel);
      var setup := kernel.data[..SetupSize(kernel.data)];
      HoldsPast(m1.mem, 0x800_0000, initramfs.data, 0x1_0000, setup);
    }
  }

  /** Plain kernel: both images read back exactly, and the walk of the finished memory is the identity map. */
  lemma PlainBootIntegrity(ramMb: nat, kernel: File, initramfs: File, cmdline: seq<byte>, v: nat)
    requires ValidRam(ramMb) && Bootable(ramMb, kernel, initramfs, cmdline) && !IsBzImage(kernel.data)
    requires 0x10_0000 + |kernel.data| <= 0x800_0000
    ensures Booted(ramMb, kernel, initramfs, cmdline).Ok?
    ensures var mem := Booted(ramMb, kernel, initramfs, cmdline).value.mem;
      && Holds(mem, 0x10_0000, kernel.data)
      && Holds(mem, 0x800_0000, initramfs.data)
      && Holds(mem, 0x8_0000, Gdt64())
      && (v < SPAN_48 ==>
            Walk(mem, 0x7_0000, v) == if v < Pages(ramMb) * PAGE_2M then Mapped(v, true, false) else Fault)
  {
    hide LoadKernel, GoodHeader, PageTables, Gdt64, Walk, LoadInitramfs, IsBzImage;
    BootedIff(ramMb, kernel, initramfs, cmdline);
    LoadKernelIs(ramMb, kernel);
    KernelAndInitramfs(ramMb, kernel, initramfs);
    var m := LoadInitramfs(LoadKernel(Fresh(ramMb), kernel).0, initramfs).0;
    var tables := PageTables(m.mem, ramMb);
    forall a: nat | 0x10_0000 <= a < |m.mem| ensures tables[a] == m.mem[a] {
      PageTablesKeep(m.mem, ramMb, a);
    }
    HoldsKept(m.mem, tables, 0x10_0000, kernel.data);
    HoldsKept(m.mem, tables, 0x800_0000, initramfs.data);
    HoldsPast(tables, 0x8_0000, Gdt64(), 0x10_0000, kernel.data);
    HoldsPast(tables, 0x8_0000, Gdt64(), 0x800_0000, initramfs.data);
    HoldsStored(tables, 0x8_0000, Gdt64());
    if v < SPAN_48 {
      TablesAreIdentity(m.mem, ramMb);
      TablesSurvive(tables, Pages(ramMb), 0x8_0000, Gdt64());
      WalkIsIdentity(Store(tables, 0x8_0000, Gdt64()), Pages(ramMb), v);
    }
  }

  lemma TablesSurvive(mem: seq<byte>, pages: nat, addr: nat, data: seq<byte>)
    requires IdentityTables(mem, pages) && 0x7_2000 + 0x1000 <= addr && addr + |data| <= |mem|
    ensures IdentityTables(Store(mem, addr, data), pages)
  {
    hide LeAt;
    var m := Store(mem, addr, data);
    forall t: nat, i: nat | i < 512 && t + 0x1000 <= 0x7_2000 + 0x1000 ensures EntryAt(m, t, i) == EntryAt(mem, t, i) {
      LeAtSame(mem, m, t + 8 * i, 8);
    }
  }

  /**
   * bzImage: both images, the command line with its terminating zero, the zero page and the descriptor
   * table all read back exactly; the setup sectors too when they stop short of the command line.
   */
  lemma BzImageBootIntegrity(ramMb: nat, kernel: File, initramfs: File, cmdline: seq<byte>)
    requires ValidRam(ramMb) && Bootable(ramMb, kernel, initramfs, cmdline) && IsBzImage(kernel.data)
    requires 0x10_0000 + |Payload(kernel.data)| <= 0x800_0000
    ensures Booted(ramMb, kernel, initramfs, cmdline).Ok?
    ensures var mem := Booted(ramMb, kernel, initramfs, cmdline).value.mem;
      && Holds(mem, 0x10_0000, Payload(kernel.data))
      && Holds(mem, 0x800_0000, initramfs.data)
      && Holds(mem, 0x2_0000, cmdline + [0])
      && Holds(mem, 0x9_0000, BootParams(kernel.data[0x1f1..0x290], |cmdline|, |initramfs.data|))
      && Holds(mem, 0x8_0000, Gdt32())
      && (0x1_0000 + SetupSize(kernel.data) <= 0x2_0000 ==>
            SetupSize(kernel.data) <= |kernel.data| && Holds(mem, 0x1_0000, kernel.data[..SetupSize(kernel.data)]))
  {
    hide LoadKernel, GoodHeader, Gdt32, BootParams, LoadInitramfs, IsBzImage, Payload, Holds, Store, SetupBoot, Bz;
    SetupFits(ramMb, kernel);
    BootedIff(ramMb, kernel, initramfs, cmdline);
    LoadKernelIs(ramMb, kernel);
    KernelAndInitramfs(ramMb, kernel, initramfs);
    var m := LoadInitramfs(LoadKernel(Fresh(ramMb), kernel).0, initramfs).0;
    var params := BootParams(m.header, |cmdline|, m.initramfsSize);
    SetupBzIs(m, ramMb, cmdline);
    BzStores(m.mem, cmdline + [0], params, 0x10_0000, Payload(kernel.data));
    BzStores(m.mem, cmdline + [0], params, 0x800_0000, initramfs.data);
    BzOwn(m.mem, cmdline + [0], params);
    if 0x1_0000 + SetupSize(kernel.data) <= 0x2_0000 {
      BzStores(m.mem, cmdline + [0], params, 0x1_0000, kernel.data[..SetupSize(kernel.data)]);
    }
  }

  // The three stores of the 32-bit boot path.
  ghost function Bz(mem: seq<byte>, cmdline: seq<byte>, params: seq<byte>): (m: seq<byte>)
    requires 0x2_0000 + |cmdline| <= |mem| && |params| == 0x1000 && 0x10_0000 <= |mem|
    ensures |m| == |mem|
  {
    Store(Store(Store(mem, 0x2_0000, cmdline), 0x9_0000, params), 0x8_0000, Gdt32())
  }

  lemma SetupBzIs(m: Machine, ramMb: nat, cmdline: seq<byte>)
    requires ValidRam(ramMb) && |m.mem| == ramMb * 0x10_0000 && m.isBzImage
    requires |m.header| == 0x290 - 0x1f1 && |cmdline| < 0x800
    ensures SetupBoot(m, ramMb, cmdline) ==
      (m.(mem := Bz(m.mem, cmdline + [0], BootParams(m.header, |cmdline|, m.initramfsSize))), Ok(Unit))
  {
    hide BootParams, Gdt32, Store, PageTables;
  }

  lemma SetupFits(ramMb: nat, kernel: File)
    requires Loadable(ramMb, kernel) && IsBzImage(kernel.data)
    ensures SetupSize(kernel.data) < |kernel.data|
  {
  }

  lemma BzStores(mem: seq<byte>, cmdline: seq<byte>, params: seq<byte>, addr: nat, data: seq<byte>)
    requires |cmdline| <= 0x800 && |params| == 0x1000 && 0x10_0000 <= |mem|
    requires Holds(mem, addr, data) && (0x10_0000 <= addr || addr + |data| <= 0x2_0000)
    ensures Holds(Bz(mem, cmdline, params), addr, data)
  {
    HoldsPast(mem, 0x2_0000, cmdline, addr, data);
    var mem1 := Store(mem, 0x2_0000, cmdline);
    HoldsPast(mem1, 0x9_0000, params, addr, data);
    HoldsPast(Store(mem1, 0x9_0000, params), 0x8_0000, Gdt32(), addr, data);
  }

  lemma BzOwn(mem: seq<byte>, cmdline: seq<byte>, params: seq<byte>)
    requires |cmdline| <= 0x800 && |params| == 0x1000 && 0x10_0000 <= |mem|
    ensures var m := Bz(mem, cmdline, params);
      Holds(m, 0x2_0000, cmdline) && Holds(m, 0x9_0000, params) && Holds(m, 0x8_0000, Gdt32())
  {
    hide Gdt32;
    var mem1 := Store(mem, 0x2_0000, cmdline);
    var mem2 := Store(mem1, 0x9_0000, params);
    HoldsStored(mem, 0x2_0000, cmdline);
    HoldsPast(mem1, 0x9_0000, params, 0x2_0000, cmdline);
    HoldsPast(mem2, 0x8_0000, Gdt32(), 0x2_0000, cmdline);
    HoldsStored(mem1, 0x9_0000, params);
    HoldsPast(mem2, 0x8_0000, Gdt32(), 0x9_0000, params);
    HoldsStored(mem2, 0x8_0000, Gdt32());
  }

  // ---- The zero page ----

  /** The header fields the boot loader fills in. */
  ghost predicate LoaderField(off: nat) {
    || off == 0x210 || off == 0x211 || 0x218 <= off < 0x220 || 0x224 <= off < 0x226
    || 0x228 <= off < 0x22c || 0x238 <= off < 0x23c
  }

  /**
   * The zero page describes the stored command line and the initramfs, marks a custom loader with a
   * usable heap, keeps the kernel's header in every other field and is zero elsewhere. Its initramfs
   * length is the true one exactly below 4 GiB.
   */
  lemma ZeroPageFields(header: seq<byte>, cmdlineLen: nat, initramfsSize: nat, off: nat)
    requires |header| == 0x290 - 0x1f1 && cmdlineLen < 0x800
    ensures var p := BootParams(header, cmdlineLen, initramfsSize);
      && LeAt(p, 0x228, 4) == 0x2_0000 && LeAt(p, 0x238, 4) == cmdlineLen
      && LeAt(p, 0x218, 4) == 0x800_0000 && LeAt(p, 0x21c, 4) == initramfsSize % U32
      && (LeAt(p, 0x21c, 4) == initramfsSize <==> initramfsSize < U32)
      && LeAt(p, 0x224, 2) == 0x7fff && p[0x210] == 0xff && p[0x211] == Or(header[0x211 - 0x1f1], 0x80)
      && (off < 0x1000 && !LoaderField(off) ==>
            p[off] == if 0x1f1 <= off < 0x290 then header[off - 0x1f1] else 0)
  {
    hide Le, ToLe, Or;
    PowValues();
    var p := BootParams(header, cmdlineLen, initramfsSize);
    var p0 := BlankParams(header);
    var p1 := Store(p0, 0x228, ToLe(0x2_0000, 4));
    var p2 := Store(p1, 0x238, ToLe(cmdlineLen % U32, 4));
    var p3 := Store(p2, 0x218, ToLe(0x800_0000, 4));
    var p4 := Store(p3, 0x21c, ToLe(initramfsSize % U32, 4));
    var p5 := Store(p4, 0x224, ToLe(0x7fff, 2));
    FieldIs(p0, p, 0x228, 0x2_0000, 4);
    FieldIs(p1, p, 0x238, cmdlineLen, 4);
    FieldIs(p2, p, 0x218, 0x800_0000, 4);
    FieldIs(p3, p, 0x21c, initramfsSize % U32, 4);
    FieldIs(p4, p, 0x224, 0x7fff, 2);
  }

  lemma FieldIs(before: seq<byte>, after: seq<byte>, off: nat, value: nat, n: nat)
    requires off + n <= |before| == |after| && value < Pow256(n)
    requires forall a: nat :: off <= a < off + n ==> after[a] == Store(before, off, ToLe(value, n))[a]
    ensures LeAt(after, off, n) == value
  {
    LeAtStored(before, off, ToLe(value, n));
    LeOfToLe(value, n);
    LeAtSame(Store(before, off, ToLe(value, n)), after, off, n);
  }

  // ---- What a later image does to an earlier one ----

  /**
   * A first image survives every second image of a given non-zero length exactly when their ranges
   * are disjoint.
   */
  lemma SurvivesIff(mem: seq<byte>, addr: nat, data: seq<byte>, later: nat, len: nat)
    requires addr + |data| <= |mem| && later + len <= |mem| && 0 < len && 0 < |data|
    ensures (forall second: seq<byte> :: |second| == len
               ==> Holds(Store(Store(mem, addr, data), later, second), addr, data))
      <==> addr + |data| <= later || later + len <= addr
  {
    var first := Store(mem, addr, data);
    if addr + |data| <= later || later + len <= addr {
      forall second: seq<byte> | |second| == len ensures Holds(Store(first, later, second), addr, data) {
        HoldsStored(mem, addr, data);
        HoldsPast(first, later, second, addr, data);
      }
    } else {
      var hit := if addr < later then later else addr;
      var second: seq<byte> := seq(len, _ => (data[hit - addr] as int + 1) % 256);
      Damaged(first, later, second, addr, data, hit);
    }
  }

  lemma Damaged(mem: seq<byte>, at: nat, later: seq<byte>, addr: nat, data: seq<byte>, hit: nat)
    requires at + |later| <= |mem| && addr + |data| <= |mem|
    requires at <= hit < at + |later| && addr <= hit < addr + |data| && later[hit - at] != data[hit - addr]
    ensures !Holds(Store(mem, at, later), addr, data)
  {
    var m := Store(mem, at, later);
    assert m[hit] == later[hit - at];
    hide Store;
    var held := m[addr..addr + |data|];
    assert held[hit - addr] == m[hit];
  }

  /**
   * What runs of a loaded kernel, plain or bzImage, survives every initramfs of a given length exactly when it
   * ends below the initramfs.
   */
  lemma KernelSurvivesIff(m: Machine, kernel: seq<byte>, len: nat)
    requires LoadKernel(m, Found(kernel)).1.Ok?
    requires 0x800_0000 + len <= |m.mem| < MAX_REGION && 0 < len
    ensures var m1 := LoadKernel(m, Found(kernel)).0;
      (forall initramfs: seq<byte> :: |initramfs| == len
         ==> Holds(LoadInitramfs(m1, Found(initramfs)).0.mem, 0x10_0000, Payload(kernel)))
      <==> 0x10_0000 + |Payload(kernel)| <= 0x800_0000
  {
    hide IsBzImage, Store, CheckBzImage;
    var mem := m.mem;
    if IsBzImage(kernel) {
      CheckedSize(kernel);
      mem := Store(mem, 0x1_0000, kernel[..SetupSize(kernel)]);
    }
    if Payload(kernel) != [] {
      SurvivesIff(mem, 0x10_0000, Payload(kernel), 0x800_0000, len);
    }
  }

  /** The setup sectors survive every accepted command line exactly when they stop short of its buffer. */
  lemma SetupSectorsSurviveIff(m: Machine, ramMb: nat, setup: seq<byte>)
    requires ValidRam(ramMb) && |m.mem| == ramMb * 0x10_0000 && m.isBzImage && |m.header| == 0x290 - 0x1f1
    requires Holds(m.mem, 0x1_0000, setup) && 0x1_0000 + |setup| <= 0x3_0000
    ensures (forall cmdline: seq<byte> :: |cmdline| < 0x800 ==>
               SetupBoot(m, ramMb, cmdline).1.Ok? && Holds(SetupBoot(m, ramMb, cmdline).0.mem, 0x1_0000, setup))
      <==> 0x1_0000 + |setup| <= 0x2_0000
  {
    hide BootParams, Gdt32, SetupBoot, Bz;
    if 0x1_0000 + |setup| <= 0x2_0000 {
      forall cmdline: seq<byte> | |cmdline| < 0x800
        ensures SetupBoot(m, ramMb, cmdline).1.Ok? && Holds(SetupBoot(m, ramMb, cmdline).0.mem, 0x1_0000, setup)
      {
        SetupBzIs(m, ramMb, cmdline);
        BzStores(m.mem, cmdline + [0], BootParams(m.header, |cmdline|, m.initramfsSize), 0x1_0000, setup);
      }
    } else {
      var at := 0x2_0000 - 0x1_0000;
      var other: byte := if setup[at] == 0 then 1 else 0;
      var cmdline: seq<byte> := [other];
      SetupBzIs(m, ramMb, cmdline);
      BzOwn(m.mem, cmdline + [0], BootParams(m.header, 1, m.initramfsSize));
      var mem := SetupBoot(m, ramMb, cmdline).0.mem;
      assert mem[0x2_0000..0x2_0000 + 2][0] == other;
      assert mem[0x1_0000..0x1_0000 + |setup|][at] == mem[0x2_0000];
    }
  }
}
