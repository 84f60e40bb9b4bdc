// Loading a kernel and an initramfs and preparing the first vCPU's memory (crates/vmm).
module Boot {
  import opened Bytes
  import opened Bits
  import opened Results
  import opened GuestRam
  import opened BootTables

  const KERNEL_LOAD_ADDR: nat := 0x10_0000
  const INITRAMFS_LOAD_ADDR: nat := 0x800_0000
  const SETUP_ADDR: nat := 0x1_0000
  const CMDLINE_ADDR: nat := 0x2_0000
  const GDT_ADDR: nat := 0x8_0000
  const BOOT_PARAMS_ADDR: nat := 0x9_0000
  const BOOT_PARAMS_SIZE: nat := 0x1000
  const HEADER_START: nat := 0x1f1
  const HEADER_END: nat := 0x290
  const MAX_CMDLINE: nat := 0x800
  const MAGIC_HDRS: seq<byte> := [0x48, 0x64, 0x72, 0x53]
  const CODE_SEGMENT_32: nat := 0x00cf_9a00_0000_ffff
  const DATA_SEGMENT_32: nat := 0x00cf_9200_0000_ffff
  const CODE_SEGMENT_64: nat := 0x00af_9b00_0000_0000
  const DATA_SEGMENT_64: nat := 0x00cf_9300_0000_ffff

  /** What the machine keeps between loading and boot. */
  datatype Machine = Machine(mem: seq<byte>, isBzImage: bool, header: seq<byte>, initramfsSize: nat)

  function Fresh(ramMb: nat): Machine {
    Machine(seq(ramMb * MIB, _ => 0), false, [], 0)
  }

  /** A path as the loader meets it: absent, there but unreadable, or read in full. */
  datatype File = Missing | Unreadable | Found(data: seq<byte>)

  predicate IsBzImage(data: seq<byte>) {
    |data| >= 0x206 && data[0x202..0x206] == MAGIC_HDRS
  }

  function SetupSize(data: seq<byte>): nat
    requires IsBzImage(data)
  {
    (data[0x1f1] as nat + 1) * 512
  }

  /** The part of a kernel file that runs: what follows the setup sectors of a bzImage, or all of it. */
  function Payload(data: seq<byte>): seq<byte> {
    if !IsBzImage(data) then data
    else if SetupSize(data) <= |data| then data[SetupSize(data)..] else []
  }

  function HeaderField(data: seq<byte>, offset: nat): Result<nat> {
    if offset + 4 <= |data| then Ok(LeAt(data, offset, 4)) else Err(MissingHeaderField(offset))
  }

  /** The checks on a bzImage before anything is copied. */
  function CheckBzImage(data: seq<byte>): Result<Unit>
    requires IsBzImage(data)
  {
    var payloadOffset :- HeaderField(data, 0x248);
    var payloadLength :- HeaderField(data, 0x24c);
    if SetupSize(data) < 0x200 || payloadOffset < 0x200 || SetupSize(data) >= |data| then Err(InvalidPayloadRange)
    else Ok(Unit)
  }

  /** What `validate` looks at, and the command line. */
  datatype Config = Config(ramMb: nat, vcpus: nat, abis: seq<string>, cmdline: seq<byte>)

  /** The configurations that `validate` accepts. */
  predicate ValidConfig(c: Config) {
    512 <= c.ramMb <= 8192 && c.vcpus > 0 && c.abis != []
  }

  function LoadKernel(m: Machine, file: File): (Machine, Result<Unit>) {
    match file
    case Missing => (m, Err(KernelNotFound))
    case Unreadable => (m, Err(KernelLoadFailed))
    case Found(data) =>
      if !IsBzImage(data) then
        var (mem, r) := WriteMem(m.mem, KERNEL_LOAD_ADDR, data);
        (m.(mem := mem), r)
      else
        var check := CheckBzImage(data);
        if check.Err? then (m, check) else
        var (mem1, r1) := WriteMem(m.mem, SETUP_ADDR, data[..SetupSize(data)]);
        if r1.Err? then (m.(mem := mem1), r1) else
        var (mem2, r2) := WriteMem(mem1, KERNEL_LOAD_ADDR, data[SetupSize(data)..]);
        if r2.Err? then (m.(mem := mem2), r2) else
        if |data| < HEADER_END then (m.(mem := mem2, isBzImage := true), Err(Panicked))
        else (m.(mem := mem2, isBzImage := true, header := data[HEADER_START..HEADER_END]), Ok(Unit))
  }

  function LoadInitramfs(m: Machine, file: File): (Machine, Result<Unit>) {
    match file
    case Missing => (m, Err(InitramfsNotFound))
    case Unreadable => (m, Err(KernelLoadFailed))
    case Found(data) =>
      var (mem, r) := WriteMem(m.mem, INITRAMFS_LOAD_ADDR, data);
      (if r.Ok? then m.(mem := mem, initramfsSize := |data|) else m.(mem := mem), r)
  }

  /** The zero page before the boot-loader fields are filled in: the kernel's own header, zero elsewhere. */
  function BlankParams(header: seq<byte>): seq<byte>
    requires |header| == HEADER_END - HEADER_START
  {
    Store(ZeroPage(), HEADER_START, header)
  }

  function ZeroPage(): seq<byte> {
    seq(BOOT_PARAMS_SIZE, _ => 0)
  }

  /** The zero page: pointers to and lengths of the command line and initramfs, and the loader flags. */
  function BootParams(header: seq<byte>, cmdlineLen: nat, initramfsSize: nat): (p: seq<byte>)
    requires |header| == HEADER_END - HEADER_START
    ensures |p| == BOOT_PARAMS_SIZE
  {
    var p0 := BlankParams(header);
    var p1 := Store(p0, 0x228, ToLe(CMDLINE_ADDR, 4));
    var p2 := Store(p1, 0x238, ToLe(cmdlineLen % U32, 4));
    var p3 := Store(p2, 0x218, ToLe(INITRAMFS_LOAD_ADDR, 4));
    var p4 := Store(p3, 0x21c, ToLe(initramfsSize % U32, 4));
    var p5 := Store(p4, 0x224, ToLe(0x7fff, 2));
    var p6 := Store(p5, 0x210, [0xff]);
    OrByte(p6[0x211]);
    Store(p6, 0x211, [Or(p6[0x211], 0x80)])
  }

  lemma OrByte(b: byte)
    ensures Or(b, 0x80) < 256
  {
    Pow2Values();
    OrBelow(b, 0x80, 8);
  }

  function Gdt32(): (g: seq<byte>)
    ensures |g| == 32
  {
    seq(16, _ => 0) + ToLe(CODE_SEGMENT_32, 8) + ToLe(DATA_SEGMENT_32, 8)
  }

  function Gdt64(): (g: seq<byte>)
    ensures |g| == 32
  {
    seq(16, _ => 0) + ToLe(CODE_SEGMENT_64, 8) + ToLe(DATA_SEGMENT_64, 8)
  }

  function SetupBzImage(m: Machine, cmdline: seq<byte>): (Machine, Result<Unit>) {
    if |m.header| != 0x9f then (m, Err(HeaderNotRetained))
    else if |cmdline| + 1 > MAX_CMDLINE then (m, Err(CommandLineTooLong))
    else
      var (mem1, r1) := WriteMem(m.mem, CMDLINE_ADDR, cmdline + [0]);
      if r1.Err? then (m.(mem := mem1), r1) else
      var (mem2, r2) := WriteMem(mem1, BOOT_PARAMS_ADDR, BootParams(m.header, |cmdline|, m.initramfsSize));
      if r2.Err? then (m.(mem := mem2), r2) else
      var (mem3, r3) := WriteMem(mem2, GDT_ADDR, Gdt32());
      (m.(mem := mem3), r3)
  }

  /** `setup_boot` on memory; the vCPU registers are not modelled. */
  function SetupBoot(m: Machine, ramMb: nat, cmdline: seq<byte>): (Machine, Result<Unit>)
    requires ValidRam(ramMb) && |m.mem| == ramMb * MIB
  {
    if m.isBzImage then SetupBzImage(m, cmdline)
    else (m.(mem := Store(PageTables(m.mem, ramMb), GDT_ADDR, Gdt64())), Ok(Unit))
  }
}
