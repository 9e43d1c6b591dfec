/**
  Common platform-layer definitions: the fixed-width integer ranges the
  records use, the PMU node record and table, the PCIe BDF
  (segment/bus/device/function) packing, and the 8-byte align-up used
  when walking firmware tables.
*/
module PalCommonSupport {

  type u8 = x: int | 0 <= x < 0x100
  type u32 = x: int | 0 <= x < 0x1_0000_0000
  type u64 = x: int | 0 <= x < 0x1_0000_0000_0000_0000

  /** Addition of two uint64_t values, wrapping at 2^64 as C does. */
  function AddU64(a: u64, b: u64): (r: u64)
    ensures a + b < 0x1_0000_0000_0000_0000 ==> r == a + b
    ensures a + b >= 0x1_0000_0000_0000_0000 ==> r == a + b - 0x1_0000_0000_0000_0000
  {
    (a + b) % 0x1_0000_0000_0000_0000
  }

  // -----------------------------------------------------------------------
  // PMU_INFO_BLOCK and PMU_INFO_TABLE
  // -----------------------------------------------------------------------

  /** One PMU node as described by the firmware topology. */
  datatype PmuInfoBlock = PmuInfoBlock(
    nodeType: u8,              // component the PMU is associated with
    primaryInstance: u64,      // node-type specific primary instance
    secondaryInstance: u32,    // node-type specific secondary instance
    dualPageExtension: u8,     // whether the dual-page register layout is implemented
    base0: u64,                // base address of register page 0
    base1: u64,                // base address of register page 1, meaningful only with the dual-page extension
    coresightCompliant: u32)   // set by the classification pass
  {
    /** Page 1 is in use exactly when the dual-page extension flag is 1. */
    predicate Page1Meaningful() { dualPageExtension == 1 }
  }

  /** The node table: a count followed by that many records in a flexible array. */
  datatype PmuInfoTable = PmuInfoTable(pmuCount: u32, info: seq<PmuInfoBlock>) {
    /** The table holds exactly `pmuCount` records. */
    predicate WellFormed() { |info| == pmuCount }
  }

  /** The same table with one node's record replaced. */
  function WithEntry(t: PmuInfoTable, i: nat, b: PmuInfoBlock): (r: PmuInfoTable)
    requires t.WellFormed() && i < t.pmuCount
    ensures r.WellFormed() && r.pmuCount == t.pmuCount
    ensures r.info[i] == b
    ensures forall j :: 0 <= j < |r.info| && j != i ==> r.info[j] == t.info[j]
  {
    PmuInfoTable(t.pmuCount, t.info[i := b])
  }

  // -----------------------------------------------------------------------
  // PCIe BDF packing
  // -----------------------------------------------------------------------

  /** PCIE_CREATE_BDF: segment in bits 31..24, bus in 23..16, device in 15..8, function in 7..0. */
  function PcieCreateBdf(seg: bv32, bus: bv32, dev: bv32, func: bv32): bv32
  {
    (seg << 24) | (bus << 16) | (dev << 8) | func
  }

  function PcieExtractBdfSeg(bdf: bv32): bv32 { (bdf >> 24) & 0xFF }
  function PcieExtractBdfBus(bdf: bv32): bv32 { (bdf >> 16) & 0xFF }
  function PcieExtractBdfDev(bdf: bv32): bv32 { (bdf >> 8) & 0xFF }
  function PcieExtractBdfFunc(bdf: bv32): bv32 { bdf & 0xFF }

  /** Each extracted component fits in a byte. */
  lemma BdfComponentsFitInByte(bdf: bv32)
    ensures PcieExtractBdfSeg(bdf) < 256 && PcieExtractBdfBus(bdf) < 256
    ensures PcieExtractBdfDev(bdf) < 256 && PcieExtractBdfFunc(bdf) < 256
  {
  }

  /** Unpacking a packed BDF gives back each byte-sized component. */
  lemma BdfExtractCreate(seg: bv32, bus: bv32, dev: bv32, func: bv32)
    requires seg < 256 && bus < 256 && dev < 256 && func < 256
    ensures PcieExtractBdfSeg(PcieCreateBdf(seg, bus, dev, func)) == seg
    ensures PcieExtractBdfBus(PcieCreateBdf(seg, bus, dev, func)) == bus
    ensures PcieExtractBdfDev(PcieCreateBdf(seg, bus, dev, func)) == dev
    ensures PcieExtractBdfFunc(PcieCreateBdf(seg, bus, dev, func)) == func
  {
  }

  /** Packing the unpacked components of any 32-bit BDF gives it back. */
  lemma BdfCreateExtract(bdf: bv32)
    ensures PcieCreateBdf(PcieExtractBdfSeg(bdf), PcieExtractBdfBus(bdf),
                          PcieExtractBdfDev(bdf), PcieExtractBdfFunc(bdf)) == bdf
  {
  }

  /** Packing is injective on byte-sized components. */
  lemma BdfCreateInjective(s: bv32, b: bv32, d: bv32, f: bv32, s': bv32, b': bv32, d': bv32, f': bv32)
    requires s < 256 && b < 256 && d < 256 && f < 256
    requires s' < 256 && b' < 256 && d' < 256 && f' < 256
    requires PcieCreateBdf(s, b, d, f) == PcieCreateBdf(s', b', d', f')
    ensures s == s' && b == b' && d == d' && f == f'
  {
    BdfExtractCreate(s, b, d, f);
    BdfExtractCreate(s', b', d', f');
  }

  // -----------------------------------------------------------------------
  // ALIGN_MEMORY_ACCESS (bare-metal build, BOUND = 8)
  // -----------------------------------------------------------------------

  const BOUND: bv64 := 0x08

  /** Rounds an address up to the next multiple of BOUND, in uint64_t arithmetic. */
  function AlignMemoryAccess(b: bv64): bv64
  {
    (b + BOUND - 1) & !(BOUND - 1)
  }

  /** The aligned address is a multiple of 8. */
  lemma AlignMemoryAccessAligned(b: bv64)
    ensures AlignMemoryAccess(b) & 7 == 0
  {
  }

  /** For addresses that do not wrap, the aligned address is not below `b`
      and less than 8 above it. */
  lemma AlignMemoryAccessRoundsUp(b: bv64)
    requires b <= 0xFFFF_FFFF_FFFF_FFF8
    ensures b <= AlignMemoryAccess(b)
    ensures AlignMemoryAccess(b) - b < 8
  {
  }

  /** An address that is already aligned is left unchanged. */
  lemma AlignMemoryAccessKeepsAligned(b: bv64)
    requires b & 7 == 0
    ensures AlignMemoryAccess(b) == b
  {
  }

  /** Aligning twice is the same as aligning once. */
  lemma AlignMemoryAccessIdempotent(b: bv64)
    ensures AlignMemoryAccess(AlignMemoryAccess(b)) == AlignMemoryAccess(b)
  {
    AlignMemoryAccessAligned(b);
    AlignMemoryAccessKeepsAligned(AlignMemoryAccess(b));
  }

  /** The aligned address is the least multiple of 8 that is not below `b`. */
  lemma AlignMemoryAccessLeast(b: bv64, c: bv64)
    requires b <= 0xFFFF_FFFF_FFFF_FFF8
    requires c & 7 == 0 && b <= c
    ensures AlignMemoryAccess(b) <= c
  {
  }
}
