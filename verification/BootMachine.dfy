// The virtual machine object that loads images and writes boot structures in place (crates/vmm).
module BootMachine {
  import opened Bytes
  import opened Bits
  import opened Results
  import opened GuestRam
  import opened Paging
  import opened BootTables
  import opened Boot

  class VirtualMachine {
    const memory: GuestMemory
    const ramMb: nat
    const cmdline: seq<byte>
    var kernelIsBzImage: bool
    var bzImageHeader: seq<byte>
    var initramfsSize: nat

    constructor (memory: GuestMemory, ramMb: nat, cmdline: seq<byte>)
      requires ValidRam(ramMb) && memory.Valid() && memory.bytes.Length == ramMb * MIB
      ensures Valid() && this.memory == memory && this.ramMb == ramMb && this.cmdline == cmdline
      ensures Snapshot() == Machine(memory.Contents(), false, [], 0)
    {
      this.memory := memory;
      this.ramMb := ramMb;
      this.cmdline := cmdline;
      kernelIsBzImage, bzImageHeader, initramfsSize := false, [], 0;
    }

    /** `new`: `validate`, then RAM; `maps` says whether the host grants the mapping. */
    static method Create(config: Config, maps: bool) returns (r: Result<VirtualMachine>)
      ensures !ValidConfig(config) ==> r == Err(ConfigError)
      ensures ValidConfig(config) && !maps ==> r == Err(MemoryMapFailed)
      ensures r.Ok? <==> ValidConfig(config) && maps
      ensures r.Ok? ==> fresh(r.value) && r.value.Valid() && fresh(r.value.memory) && fresh(r.value.memory.bytes)
      ensures r.Ok? ==> r.value.ramMb == config.ramMb && r.value.cmdline == config.cmdline
      ensures r.Ok? ==> r.value.Snapshot() == Fresh(config.ramMb)
    {
      if config.ramMb < MIN_RAM_MB {
        return Err(ConfigError);
      }
      if config.ramMb > MAX_RAM_MB {
        return Err(ConfigError);
      }
      if config.vcpus == 0 {
        return Err(ConfigError);
      }
      if config.abis == [] {
        return Err(ConfigError);
      }
      var memory :- GuestMemory.Create(config.ramMb * MIB, maps);
      var vm := new VirtualMachine(memory, config.ramMb, config.cmdline);
      return Ok(vm);
    }

    ghost predicate Valid()
      reads this, memory
    {
      ValidRam(ramMb) && memory.Valid() && memory.bytes.Length == ramMb * MIB
    }

    ghost function Snapshot(): Machine
      reads this, memory, memory.bytes
    {
      Machine(memory.Contents(), kernelIsBzImage, bzImageHeader, initramfsSize)
    }

    method LoadKernel(file: File) returns (r: Result<Unit>)
      requires Valid() && (file.Found? ==> |file.data| < U64)
      modifies this`kernelIsBzImage, this`bzImageHeader, memory.bytes
      ensures Valid() && (Snapshot(), r) == Boot.LoadKernel(old(Snapshot()), file)
    {
      hide Store, LeAt;
      if file.Missing? {
        return Err(KernelNotFound);
      }
      if file.Unreadable? {
        return Err(KernelLoadFailed);
      }
      var data := file.data;
      if |data| >= 0x206 && data[0x202..0x206] == MAGIC_HDRS {
        var setupSize := (data[0x1f1] as nat + 1) * 512;
        var payloadOffset :- HeaderField(data, 0x248);
        var payloadLength :- HeaderField(data, 0x24c);
        if setupSize < 0x200 || payloadOffset < 0x200 || setupSize >= |data| {
          return Err(InvalidPayloadRange);
        }
        var _ := memory.WriteGuest(SETUP_ADDR, data[..setupSize]);  // at most 128 KiB: always in RAM
        var _ :- memory.WriteGuest(KERNEL_LOAD_ADDR, data[setupSize..]);
        kernelIsBzImage := true;
        if |data| < HEADER_END {
          return Err(Panicked);
        }
        bzImageHeader := data[HEADER_START..HEADER_END];
        return Ok(Unit);
      }
      r := memory.WriteGuest(KERNEL_LOAD_ADDR, data);
    }

    method LoadInitramfs(file: File) returns (r: Result<Unit>)
      requires Valid() && (file.Found? ==> |file.data| < U64)
      modifies this`initramfsSize, memory.bytes
      ensures Valid() && (Snapshot(), r) == Boot.LoadInitramfs(old(Snapshot()), file)
    {
      if file.Missing? {
        return Err(InitramfsNotFound);
      }
      if file.Unreadable? {
        return Err(KernelLoadFailed);
      }
      var _ :- memory.WriteGuest(INITRAMFS_LOAD_ADDR, file.data);
      initramfsSize := |file.data|;
      return Ok(Unit);
    }

    method SetupPageTables()
      requires Valid()
      modifies memory.bytes
      ensures Valid() && memory.Contents() == PageTables(old(memory.Contents()), ramMb)
    {
      hide ToLe, Or, Store;
      var numPages := (ramMb * MIB + PAGE_2M - 1) / PAGE_2M;
      var _ := memory.WriteGuest(PML4_ADDR, ToLe(Or(PDPT_ADDR, 0x03), 8));
      var _ := memory.WriteGuest(PDPT_ADDR, ToLe(Or(PD_ADDR, 0x03), 8));
      ghost var start := memory.Contents();
      var last := if numPages < 512 then numPages else 512;
      for i := 0 to last
        invariant memory.Contents() == PdEntries(start, i)
      {
        var addr := i * 2 * 1024 * 1024;
        var _ := memory.WriteGuest(PD_ADDR + i * 8, ToLe(Or(addr, 0x83), 8));
      }
    }

    method SetupGdt()
      requires Valid()
      modifies memory.bytes
      ensures Valid() && memory.Contents() == Store(old(memory.Contents()), GDT_ADDR, Gdt64())
    {
      ghost var start := memory.Contents();
      var zero := ToLe(0, 8);
      var _ := memory.WriteGuest(GDT_ADDR, zero);
      var _ := memory.WriteGuest(GDT_ADDR + 8, zero);
      var _ := memory.WriteGuest(GDT_ADDR + 16, ToLe(CODE_SEGMENT_64, 8));
      var _ := memory.WriteGuest(GDT_ADDR + 24, ToLe(DATA_SEGMENT_64, 8));
      FourEntries(start, zero, ToLe(CODE_SEGMENT_64, 8), ToLe(DATA_SEGMENT_64, 8));
    }

    static lemma FourEntries(mem: seq<byte>, zero: seq<byte>, code: seq<byte>, data: seq<byte>)
      requires GDT_ADDR + 32 <= |mem| && zero == ToLe(0, 8) && |code| == |data| == 8
      ensures var zeroed := Store(Store(mem, GDT_ADDR, zero), GDT_ADDR + 8, zero);
        Store(Store(zeroed, GDT_ADDR + 16, code), GDT_ADDR + 24, data)
          == Store(mem, GDT_ADDR, seq(16, _ => 0) + code + data)
    {
      ToLeZero(8);
      hide ToLe, Store;
      assert zero + zero == seq(16, _ => 0);
      StoreTwice(mem, GDT_ADDR, zero, zero);
      StoreTwice(mem, GDT_ADDR, zero + zero, code);
      StoreTwice(mem, GDT_ADDR, zero + zero + code, data);
    }

    static lemma StoreTwice(mem: seq<byte>, addr: nat, a: seq<byte>, b: seq<byte>)
      requires addr + |a| + |b| <= |mem|
      ensures Store(Store(mem, addr, a), addr + |a|, b) == Store(mem, addr, a + b)
    {
    }

    method SetupGdt32() returns (r: Result<Unit>)
      requires Valid()
      modifies memory.bytes
      ensures Valid() && (memory.Contents(), r) == WriteMem(old(memory.Contents()), GDT_ADDR, Gdt32())
    {
      hide ToLe, Store;
      var gdt := new byte[32](_ => 0);
      var code, data := ToLe(CODE_SEGMENT_32, 8), ToLe(DATA_SEGMENT_32, 8);
      forall i | 0 <= i < 8 { gdt[0x10 + i] := code[i]; }
      forall i | 0 <= i < 8 { gdt[0x18 + i] := data[i]; }
      assert gdt[..] == Gdt32();
      r := memory.WriteGuest(GDT_ADDR, gdt[..]);
    }

    method SetupBzImageBoot() returns (r: Result<Unit>)
      requires Valid() && initramfsSize < U64
      modifies memory.bytes
      ensures Valid() && (Snapshot(), r) == SetupBzImage(old(Snapshot()), cmdline)
    {
      hide ToLe, Or, Gdt32, Store;
      var bootParams := new byte[BOOT_PARAMS_SIZE](_ => 0);
      assert bootParams[..] == ZeroPage();
      if |bzImageHeader| != 0x9f {
        return Err(HeaderNotRetained);
      }
      Put(bootParams, HEADER_START, bzImageHeader);
      if |cmdline| + 1 > MAX_CMDLINE {
        return Err(CommandLineTooLong);
      }
      // Below 1 MiB, so inside RAM: neither copy can fail.
      var _ := memory.WriteGuest(CMDLINE_ADDR, cmdline + [0]);
      Put(bootParams, 0x228, ToLe(CMDLINE_ADDR, 4));
      Put(bootParams, 0x238, ToLe(|cmdline| % U32, 4));
      Put(bootParams, 0x218, ToLe(INITRAMFS_LOAD_ADDR, 4));
      Put(bootParams, 0x21c, ToLe(initramfsSize % U32, 4));
      Put(bootParams, 0x224, ToLe(0x7fff, 2));
      Put(bootParams, 0x210, [0xff]);
      OrByte(bootParams[0x211]);
      Put(bootParams, 0x211, [Or(bootParams[0x211], 0x80)]);
      assert bootParams[..] == BootParams(bzImageHeader, |cmdline|, initramfsSize);
      var _ := memory.WriteGuest(BOOT_PARAMS_ADDR, bootParams[..]);
      r := SetupGdt32();
    }

    /** `copy_from_slice` into a range of a buffer: `write_u16`, `write_u32` and the header copy. */
    static method Put(buf: array<byte>, offset: nat, data: seq<byte>)
      requires offset + |data| <= buf.Length
      modifies buf
      ensures buf[..] == Store(old(buf[..]), offset, data)
    {
      forall i | 0 <= i < |data| { buf[offset + i] := data[i]; }
    }

    method SetupBoot() returns (r: Result<Unit>)
      requires Valid() && initramfsSize < U64
      modifies memory.bytes
      ensures Valid() && (Snapshot(), r) == Boot.SetupBoot(old(Snapshot()), ramMb, cmdline)
    {
      hide SetupBzImage, PageTables, Gdt64;
      if kernelIsBzImage {
        r := SetupBzImageBoot();
        return;
      }
      SetupPageTables();
      SetupGdt();
      return Ok(Unit);
    }
  }
}
