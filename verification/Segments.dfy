// Segment descriptors, read as section 3.4.5 of the Intel SDM volume 3A lays them out and
// independent of the code that writes the two boot tables.
module Segments {
  import opened Bytes
  import opened GuestRam
  import opened Boot

  datatype Segment = Segment(base: nat, limit: nat, kind: nat, code: bool, dpl: nat, present: bool,
                             long: bool, big: bool, granular: bool)

  /** Bits `lo` and up of a descriptor, as many as make up `span`. */
  function Field(e: nat, lo: nat, span: nat): nat
    requires lo > 0 && span > 0
  {
    e / lo % span
  }

  /** `kind` holds the low three type bits; `code` is the fourth, meaningful since the S bit is set. */
  function SegmentOf(e: nat): Segment {
    Segment(
      Field(e, 0x1_0000, 0x100_0000) + Field(e, 0x100_0000_0000_0000, 0x100) * 0x100_0000,
      Field(e, 1, 0x1_0000) + Field(e, 0x1_0000_0000_0000, 0x10) * 0x1_0000,
      Field(e, 0x100_0000_0000, 8),
      Field(e, 0x800_0000_0000, 2) == 1,
      Field(e, 0x2000_0000_0000, 4),
      Field(e, 0x8000_0000_0000, 2) == 1,
      Field(e, 0x20_0000_0000_0000, 2) == 1,
      Field(e, 0x40_0000_0000_0000, 2) == 1,
      Field(e, 0x80_0000_0000_0000, 2) == 1)
  }

  /** Neither a system segment nor absent from the table. */
  predicate CodeOrData(e: nat) {
    Field(e, 0x1000_0000_0000, 2) == 1
  }

  /** Entry `i` of the descriptor table at `table`. */
  function EntryOf(mem: seq<byte>, table: nat, i: nat): nat
    requires table + 8 * i + 8 <= |mem|
  {
    LeAt(mem, table + 8 * i, 8)
  }

  lemma Fits64(e: nat)
    requires e < U64
    ensures Le(ToLe(e, 8)) == e
  {
    PowValues();
    LeOfToLe(e, 8);
  }

  lemma EntriesHeld(mem: seq<byte>, table: nat, code: nat, data: nat)
    requires code < U64 && data < U64 && Holds(mem, table, seq(16, _ => 0) + ToLe(code, 8) + ToLe(data, 8))
    ensures EntryOf(mem, table, 0) == 0 && EntryOf(mem, table, 1) == 0
    ensures EntryOf(mem, table, 2) == code && EntryOf(mem, table, 3) == data
  {
    TwoNulls();
    hide ToLe, Le, Holds, EntryOf;
    var none, x, y := ToLe(0, 8), ToLe(code, 8), ToLe(data, 8);
    Quarters(none, none, x, y);
    var all := none + none + x + y;
    EntryIs(mem, table, all, 0, 0);
    EntryIs(mem, table, all, 1, 0);
    EntryIs(mem, table, all, 2, code);
    EntryIs(mem, table, all, 3, data);
  }

  lemma TwoNulls()
    ensures seq(16, _ => 0) == ToLe(0, 8) + ToLe(0, 8)
  {
    ToLeZero(8);
    hide ToLe;
    assert ToLe(0, 8) + ToLe(0, 8) == seq(16, _ => 0);
  }

  lemma Quarters(a: seq<byte>, b: seq<byte>, c: seq<byte>, d: seq<byte>)
    requires |a| == |b| == |c| == |d| == 8
    ensures var all := a + b + c + d;
      all[0..8] == a && all[8..16] == b && all[16..24] == c && all[24..32] == d
  {
  }

  lemma EntryIs(mem: seq<byte>, table: nat, all: seq<byte>, i: nat, value: nat)
    requires Holds(mem, table, all) && 8 * i + 8 <= |all| && value < U64
    requires all[8 * i..8 * i + 8] == ToLe(value, 8)
    ensures table + 8 * i + 8 <= |mem| && EntryOf(mem, table, i) == value
  {
    hide ToLe, Le;
    Fits64(value);
    var p, q := mem[table + 8 * i..table + 8 * i + 8], all[8 * i..8 * i + 8];
    forall k | 0 <= k < 8 ensures p[k] == q[k] {
      assert mem[table..table + |all|][8 * i + k] == p[k];
    }
    assert p == q;
  }

  /**
   * The 64-bit table: two null entries, a present, readable 64-bit code segment and a present, writable data
   * segment, both at base 0 and privilege 0.
   */
  lemma Gdt64Reads(mem: seq<byte>)
    requires Holds(mem, 0x8_0000, Gdt64())
    ensures EntryOf(mem, 0x8_0000, 0) == 0 && EntryOf(mem, 0x8_0000, 1) == 0
    ensures var code := EntryOf(mem, 0x8_0000, 2);
      CodeOrData(code) && SegmentOf(code) == Segment(0, 0xf_0000, 3, true, 0, true, true, false, true)
    ensures var data := EntryOf(mem, 0x8_0000, 3);
      CodeOrData(data) && SegmentOf(data) == Segment(0, 0xf_ffff, 3, false, 0, true, false, true, true)
  {
    hide ToLe;
    EntriesHeld(mem, 0x8_0000, 0x00af_9b00_0000_0000, 0x00cf_9300_0000_ffff);
  }

  /** The 32-bit table: two null entries, then flat 4 GiB code and data segments at privilege 0. */
  lemma Gdt32Reads(mem: seq<byte>)
    requires Holds(mem, 0x8_0000, Gdt32())
    ensures EntryOf(mem, 0x8_0000, 0) == 0 && EntryOf(mem, 0x8_0000, 1) == 0
    ensures var code := EntryOf(mem, 0x8_0000, 2);
      CodeOrData(code) && SegmentOf(code) == Segment(0, 0xf_ffff, 2, true, 0, true, false, true, true)
    ensures var data := EntryOf(mem, 0x8_0000, 3);
      CodeOrData(data) && SegmentOf(data) == Segment(0, 0xf_ffff, 2, false, 0, true, false, true, true)
  {
    hide ToLe;
    EntriesHeld(mem, 0x8_0000, 0x00cf_9a00_0000_ffff, 0x00cf_9200_0000_ffff);
  }
}
