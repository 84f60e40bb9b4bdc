// The MMIO windows shared by the bus and the VMM loop (crates/core).
module Constants {
  const MMIO_START: nat := 0xfea0_0000
  const MMIO_SIZE: nat := 0x200
  const MAX_DEVICES: nat := 16
}
