/**
  The validation layer's access to Arm CoreSight PMUs described by the
  APMT: the PMU node table and its queries, the register-access engine
  over memory-mapped PMU registers, the AArch64 cycle-counter save and
  restore, and the reverse lookups from a proximity domain or an ACPI
  identifier to a node index.

  Memory-mapped registers are a passive map from 64-bit address to 32-bit
  value (an address never written reads as 0). The register offsets and
  field positions are a `Layout` parameter: every property holds for any
  valid layout.
*/
module AcsPmu {
  import opened PalCommonSupport
  import opened Bitfield

  datatype Option<T> = None | Some(value: T)

  // -----------------------------------------------------------------------
  // Constants
  // -----------------------------------------------------------------------

  /** Returned by the lookups when no node matches. */
  const PMU_INVALID_INDEX: u32 := 0xFFFF_FFFF
  /** Returned by the event provider for an event the node does not support. */
  const PMU_EVENT_INVALID: u32 := 0xFFFF_FFFF
  /** APMT node types: memory controller and ACPI device. */
  const PMU_NODE_MEM_CNTR: u8 := 0
  const PMU_NODE_ACPI_DEVICE: u8 := 3
  /** PMDEVARCH.ARCHITECT of a PMU designed by Arm Limited. */
  const ARCHITECT_ARM: nat := 0x23B
  /** Largest PMCFGR.SIZE for which every counter is at most 32 bits wide (0b011111). */
  const SIZE_MAX_32BIT: nat := 0x1F

  const TWO32: nat := 0x1_0000_0000

  /** Register offsets within a node's page and the fields the layer uses. */
  datatype Layout = Layout(
    regPmevcntr: u64,        // 32-bit counter n at regPmevcntr + 4n
    regPmevcntrL: u64,       // low word of 64-bit counter n at + 8n
    regPmevcntrH: u64,       // high word of 64-bit counter n at + 8n
    regPmevtyper: u64,       // event type of counter n at + 4n
    regPmcntenset: u64,      // counter enable set, one bit per counter
    regPmcntenclr: u64,      // counter enable clear, one bit per counter
    regPmcfgr: u64,          // configuration
    regPmcr: u64,            // control
    regPmdevarch: u64,       // device architecture
    regPmscrL: u64,          // secure control, low word
    pmcfgrN: Field,          // number of counters minus one
    pmcfgrCc: Field,         // dedicated cycle counter implemented
    pmcfgrNcg: Field,        // number of counter groups minus one
    pmcfgrSize: Field,       // size of the largest counter minus one
    pmcrE: Field,            // global enable
    pmcrP: Field,            // reset all counters
    pmdevarchArchitect: Field,
    pmscrImpl: Field,        // PMSCR implemented
    pmscrNsra: Field,        // non-secure and realm register access
    pmccfiltrNshEnBit: nat,  // PMCCFILTR_EL0: count cycles at EL2
    pmcntensetCEnBit: nat,   // PMCNTENSET_EL0: cycle counter enable
    pmcrLcEnBit: nat,        // PMCR_EL0: long cycle counter
    pmcrCResetBit: nat,      // PMCR_EL0: cycle counter reset
    pmcrEnBit: nat)          // PMCR_EL0: global enable
  {
    predicate Valid() {
      && pmcfgrN.Valid() && pmcfgrCc.Valid() && pmcfgrNcg.Valid() && pmcfgrSize.Valid()
      && pmcrE.Valid() && pmcrP.Valid() && pmdevarchArchitect.Valid()
      && pmscrImpl.Valid() && pmscrNsra.Valid()
      && pmcrE.width == 1 && pmcrP.width == 1 && Disjoint(pmcrE, pmcrP)
      && pmccfiltrNshEnBit < 32 && pmcntensetCEnBit < 32
      && pmcrLcEnBit < 32 && pmcrCResetBit < 32 && pmcrEnBit < 32
    }
  }

  // -----------------------------------------------------------------------
  // The node table and attribute queries
  // -----------------------------------------------------------------------

  /** The attributes a caller can ask of a node; `Unsupported` is any other selector value. */
  datatype InfoSelector =
    | NodeType | NodeBase0 | NodeBase1 | NodePriInst | NodeSecInst
    | NodeCount | NodeDpExtn | NodeCsCom
    | Unsupported(code: nat)

  /** The table pointer is NULL or points at a table holding `pmuCount` records. */
  predicate TableOk(t: Option<PmuInfoTable>) {
    t.Some? ==> t.value.WellFormed()
  }

  /** The index check as the source writes it: it rejects only indices above the count. */
  predicate IndexAcceptedAsWritten(t: PmuInfoTable, idx: nat) {
    !(idx > t.pmuCount)
  }

  /** The index check the model uses: the index names one of the table's records. */
  predicate IndexInRange(t: PmuInfoTable, idx: nat) {
    idx < t.pmuCount
  }

  /** The written check lets through the index one past the last record. */
  lemma AsWrittenCheckAdmitsEnd(t: PmuInfoTable)
    requires t.WellFormed()
    ensures IndexAcceptedAsWritten(t, t.pmuCount)
    ensures !(t.pmuCount < |t.info|)
  {
  }

  /** The corrected check accepts exactly the indices of existing records. */
  lemma IndexInRangeExact(t: PmuInfoTable, idx: nat)
    requires t.WellFormed()
    ensures IndexInRange(t, idx) <==> idx < |t.info|
    ensures IndexInRange(t, idx) ==> IndexAcceptedAsWritten(t, idx)
  {
  }

  /** val_pmu_get_info: one attribute of a node, or 0 without a table, for a bad index
      or for an unsupported selector. */
  function GetInfo(t: Option<PmuInfoTable>, sel: InfoSelector, idx: nat): (r: u64)
    requires TableOk(t)
    ensures t.None? ==> r == 0
    ensures t.Some? && !IndexInRange(t.value, idx) ==> r == 0
  {
    if t.None? then 0
    else if !IndexInRange(t.value, idx) then 0
    else
      var e := t.value.info[idx];
      match sel
      case NodeType => e.nodeType
      case NodeBase0 => e.base0
      case NodeBase1 => e.base1
      case NodePriInst => e.primaryInstance
      case NodeSecInst => e.secondaryInstance
      case NodeCount => t.value.pmuCount
      case NodeDpExtn => e.dualPageExtension
      case NodeCsCom => e.coresightCompliant
      case Unsupported(_) => 0
  }

  /** For a valid index each selector yields the matching field of that node's record. */
  lemma GetInfoOfEntry(t: PmuInfoTable, idx: nat)
    requires t.WellFormed() && idx < t.pmuCount
    ensures GetInfo(Some(t), NodeType, idx) == t.info[idx].nodeType
    ensures GetInfo(Some(t), NodeBase0, idx) == t.info[idx].base0
    ensures GetInfo(Some(t), NodeBase1, idx) == t.info[idx].base1
    ensures GetInfo(Some(t), NodePriInst, idx) == t.info[idx].primaryInstance
    ensures GetInfo(Some(t), NodeSecInst, idx) == t.info[idx].secondaryInstance
    ensures GetInfo(Some(t), NodeCount, idx) == t.pmuCount
    ensures GetInfo(Some(t), NodeDpExtn, idx) == t.info[idx].dualPageExtension
    ensures GetInfo(Some(t), NodeCsCom, idx) == t.info[idx].coresightCompliant
    ensures forall c :: GetInfo(Some(t), Unsupported(c), idx) == 0
  {
  }

  /** val_pmu_set_node_coresight_complaint on the table: sets one node's compliance flag,
      and does nothing without a table or for a bad index. */
  function SetCompliant(t: Option<PmuInfoTable>, flag: u32, idx: nat): (r: Option<PmuInfoTable>)
    requires TableOk(t)
    ensures TableOk(r)
    ensures r.Some? == t.Some?
    ensures (t.None? || !IndexInRange(t.value, idx)) ==> r == t
  {
    if t.None? || !IndexInRange(t.value, idx) then t
    else Some(WithEntry(t.value, idx, t.value.info[idx].(coresightCompliant := flag)))
  }

  /** Setting the flag changes that one field of that one record and nothing else. */
  lemma SetCompliantOnlyThatFlag(t: PmuInfoTable, flag: u32, idx: nat)
    requires t.WellFormed() && idx < t.pmuCount
    ensures SetCompliant(Some(t), flag, idx).Some?
    ensures SetCompliant(Some(t), flag, idx).value.pmuCount == t.pmuCount
    ensures SetCompliant(Some(t), flag, idx).value.info[idx] == t.info[idx].(coresightCompliant := flag)
    ensures forall j :: 0 <= j < |t.info| && j != idx ==>
      SetCompliant(Some(t), flag, idx).value.info[j] == t.info[j]
    ensures GetInfo(SetCompliant(Some(t), flag, idx), NodeCsCom, idx) == flag
  {
  }

  /** Every other attribute query gives the same answer after the flag is set. */
  lemma SetCompliantKeepsOtherAttributes(t: Option<PmuInfoTable>, flag: u32, idx: nat, sel: InfoSelector, j: nat)
    requires TableOk(t)
    requires sel != NodeCsCom || j != idx
    ensures GetInfo(SetCompliant(t, flag, idx), sel, j) == GetInfo(t, sel, j)
  {
  }

  // -----------------------------------------------------------------------
  // The compliance classification done by val_pmu_create_info_table
  // -----------------------------------------------------------------------

  type Mmio = map<u64, u32>

  /** val_mmio_read on the passive register map. */
  function MmioRead(m: Mmio, a: u64): u32 {
    if a in m then m[a] else 0
  }

  /** The value of a field of a 32-bit register. */
  function ReadField(m: Mmio, a: u64, f: Field): (r: nat)
    requires f.Valid()
    ensures r < Pow2(f.width)
  {
    Extract(MmioRead(m, a), f)
  }

  /** PMDEVARCH.ARCHITECT of the node whose page 0 starts at `e.base0`. */
  function ArchitectOf(e: PmuInfoBlock, m: Mmio, layout: Layout): nat
    requires layout.Valid()
  {
    ReadField(m, AddU64(e.base0, layout.regPmdevarch), layout.pmdevarchArchitect)
  }

  /** The record with its compliance flag set from the node's PMDEVARCH. */
  function ClassifyEntry(e: PmuInfoBlock, m: Mmio, layout: Layout): PmuInfoBlock
    requires layout.Valid()
  {
    e.(coresightCompliant := if ArchitectOf(e, m, layout) == ARCHITECT_ARM then 1 else 0)
  }

  /** The table after the classification pass over every node. */
  function Classified(t: PmuInfoTable, m: Mmio, layout: Layout): (r: PmuInfoTable)
    requires t.WellFormed() && layout.Valid()
    ensures r.WellFormed() && r.pmuCount == t.pmuCount
  {
    PmuInfoTable(t.pmuCount, seq(|t.info|, i requires 0 <= i < |t.info| => ClassifyEntry(t.info[i], m, layout)))
  }

  /** After classification a node is compliant (flag 1) exactly when its architect is Arm,
      and otherwise has flag 0; nothing but the flag changes. */
  lemma ClassifiedFlag(t: PmuInfoTable, m: Mmio, layout: Layout, i: nat)
    requires t.WellFormed() && layout.Valid() && i < t.pmuCount
    ensures Classified(t, m, layout).info[i].coresightCompliant == 1 <==> ArchitectOf(t.info[i], m, layout) == ARCHITECT_ARM
    ensures Classified(t, m, layout).info[i].coresightCompliant == 0 <==> ArchitectOf(t.info[i], m, layout) != ARCHITECT_ARM
    ensures Classified(t, m, layout).info[i].(coresightCompliant := t.info[i].coresightCompliant) == t.info[i]
  {
  }

  // -----------------------------------------------------------------------
  // Capability reads (PMCFGR, PMSCR)
  // -----------------------------------------------------------------------

  function Base0(t: Option<PmuInfoTable>, idx: nat): u64
    requires TableOk(t)
  {
    GetInfo(t, NodeBase0, idx)
  }

  /** A field of a register in the node's page 0. */
  function Page0Field(t: Option<PmuInfoTable>, m: Mmio, idx: nat, reg: u64, f: Field): (r: nat)
    requires TableOk(t) && f.Valid()
    ensures r < Pow2(f.width) && r < TWO32
  {
    FieldBelowTwo32(f);
    ReadField(m, AddU64(Base0(t, idx), reg), f)
  }

  lemma {:induction false} Pow2Monotone(a: nat, b: nat)
    requires a <= b
    ensures Pow2(a) <= Pow2(b)
  {
    if a < b {
      Pow2Monotone(a, b - 1);
    }
  }

  /** A field of a 32-bit register holds less than 2^32. */
  lemma FieldBelowTwo32(f: Field)
    requires f.Valid()
    ensures Pow2(f.width) <= TWO32
  {
    Pow2Monotone(f.width, Width);
    Pow2Values();
  }

  /** A field narrower than the register holds at most 2^31, so adding one cannot wrap. */
  lemma NarrowFieldNoWrap(f: Field)
    requires f.Valid() && f.width < Width
    ensures Pow2(f.width) <= 0x8000_0000
  {
    Pow2Monotone(f.width, Width - 1);
    Pow2Values();
    assert Pow2(Width) == 2 * Pow2(Width - 1);
  }

  /** val_pmu_supports_dedicated_cycle_counter: PMCFGR.CC, returned as a uint8_t. */
  function SupportsDedicatedCycleCounter(t: Option<PmuInfoTable>, m: Mmio, layout: Layout, idx: nat): u8
    requires TableOk(t) && layout.Valid()
  {
    Page0Field(t, m, idx, layout.regPmcfgr, layout.pmcfgrCc) % 0x100
  }

  /** With a CC field of at most 8 bits the uint8_t result is the field's value unchanged. */
  lemma SupportsDedicatedCycleCounterIsCc(t: Option<PmuInfoTable>, m: Mmio, layout: Layout, idx: nat)
    requires TableOk(t) && layout.Valid() && layout.pmcfgrCc.width <= 8
    ensures SupportsDedicatedCycleCounter(t, m, layout, idx) == Page0Field(t, m, idx, layout.regPmcfgr, layout.pmcfgrCc)
  {
    ByteFieldFits(layout.pmcfgrCc);
  }

  lemma ByteFieldFits(f: Field)
    requires f.width <= 8
    ensures Pow2(f.width) <= 0x100
  {
    Pow2Monotone(f.width, 8);
    assert Pow2(4) == 16;
    Pow2Add(4, 4);
  }

  /** val_pmu_get_monitor_count: PMCFGR.N when a dedicated cycle counter takes the last slot,
      PMCFGR.N + 1 otherwise (in uint32_t arithmetic). */
  function MonitorCount(t: Option<PmuInfoTable>, m: Mmio, layout: Layout, idx: nat): u32
    requires TableOk(t) && layout.Valid()
  {
    var n := Page0Field(t, m, idx, layout.regPmcfgr, layout.pmcfgrN);
    if SupportsDedicatedCycleCounter(t, m, layout, idx) != 0 then n else (n + 1) % TWO32
  }

  /** For a one-bit CC field and an N field narrower than the register, the count of
      monitors is N when CC is set and N + 1 when it is clear, without wrap-around. */
  lemma MonitorCountByCycleCounter(t: Option<PmuInfoTable>, m: Mmio, layout: Layout, idx: nat)
    requires TableOk(t) && layout.Valid()
    requires layout.pmcfgrCc.width == 1 && layout.pmcfgrN.width < Width
    ensures var n := Page0Field(t, m, idx, layout.regPmcfgr, layout.pmcfgrN);
            var cc := Page0Field(t, m, idx, layout.regPmcfgr, layout.pmcfgrCc);
            MonitorCount(t, m, layout, idx) == if cc == 1 then n else n + 1
  {
    NarrowFieldNoWrap(layout.pmcfgrN);
  }

  /** val_pmu_get_monitor_group_count: PMCFGR.NCG + 1 (in uint32_t arithmetic). */
  function MonitorGroupCount(t: Option<PmuInfoTable>, m: Mmio, layout: Layout, idx: nat): u32
    requires TableOk(t) && layout.Valid()
  {
    (Page0Field(t, m, idx, layout.regPmcfgr, layout.pmcfgrNcg) + 1) % TWO32
  }

  /** With an NCG field narrower than the register there is at least one group and
      the count is NCG + 1 exactly. */
  lemma MonitorGroupCountExact(t: Option<PmuInfoTable>, m: Mmio, layout: Layout, idx: nat)
    requires TableOk(t) && layout.Valid() && layout.pmcfgrNcg.width < Width
    ensures MonitorGroupCount(t, m, layout, idx) == Page0Field(t, m, idx, layout.regPmcfgr, layout.pmcfgrNcg) + 1
    ensures MonitorGroupCount(t, m, layout, idx) >= 1
  {
    NarrowFieldNoWrap(layout.pmcfgrNcg);
  }

  /** val_pmu_get_max_monitor_size: PMCFGR.SIZE. */
  function MaxMonitorSize(t: Option<PmuInfoTable>, m: Mmio, layout: Layout, idx: nat): (r: u32)
    requires TableOk(t) && layout.Valid()
    ensures r < Pow2(layout.pmcfgrSize.width)
    ensures t.Some? && IndexInRange(t.value, idx) ==>
              r == ReadField(m, AddU64(t.value.info[idx].base0, layout.regPmcfgr), layout.pmcfgrSize)
  {
    Page0Field(t, m, idx, layout.regPmcfgr, layout.pmcfgrSize)
  }

  /** val_pmu_implements_pmscr: PMSCR.IMPL. */
  function ImplementsPmscr(t: Option<PmuInfoTable>, m: Mmio, layout: Layout, idx: nat): (r: u32)
    requires TableOk(t) && layout.Valid()
    ensures r < Pow2(layout.pmscrImpl.width)
    ensures t.Some? && IndexInRange(t.value, idx) ==>
              r == ReadField(m, AddU64(t.value.info[idx].base0, layout.regPmscrL), layout.pmscrImpl)
  {
    Page0Field(t, m, idx, layout.regPmscrL, layout.pmscrImpl)
  }

  /** val_pmu_is_secure: PMSCR.NSRA when PMSCR is implemented, 0 otherwise. */
  function IsSecure(t: Option<PmuInfoTable>, m: Mmio, layout: Layout, idx: nat): (r: u32)
    requires TableOk(t) && layout.Valid()
    ensures r != 0 ==> ImplementsPmscr(t, m, layout, idx) != 0
    ensures ImplementsPmscr(t, m, layout, idx) != 0 ==> r == Page0Field(t, m, idx, layout.regPmscrL, layout.pmscrNsra)
  {
    if ImplementsPmscr(t, m, layout, idx) != 0 then Page0Field(t, m, idx, layout.regPmscrL, layout.pmscrNsra) else 0
  }

  /** Without a table every capability read goes to the register at address 0 + offset. */
  lemma NoTableReadsAtZero(m: Mmio, layout: Layout, idx: nat)
    requires layout.Valid()
    ensures Base0(None, idx) == 0
    ensures forall reg: u64, f: Field | f.Valid() :: Page0Field(None, m, idx, reg, f) == ReadField(m, reg, f)
  {
  }

  // -----------------------------------------------------------------------
  // Global control: read-modify-write of one PMCR field
  // -----------------------------------------------------------------------

  function PmcrAddr(t: Option<PmuInfoTable>, layout: Layout, idx: nat): u64
    requires TableOk(t)
  {
    AddU64(Base0(t, idx), layout.regPmcr)
  }

  /** The register map after PMCR of the node is read, one field replaced, and written back. */
  function WritePmcrField(t: Option<PmuInfoTable>, m: Mmio, layout: Layout, idx: nat, f: Field, x: nat): Mmio
    requires TableOk(t) && f.Valid()
  {
    var a := PmcrAddr(t, layout, idx);
    Pow2Values();
    m[a := Insert(MmioRead(m, a), f, x)]
  }

  /** The read-modify-write stores `x` in the field, keeps every PMCR bit outside it
      and every field disjoint from it, and leaves every other register alone. */
  lemma WritePmcrFieldEffect(t: Option<PmuInfoTable>, m: Mmio, layout: Layout, idx: nat, f: Field, x: nat)
    requires TableOk(t) && f.Valid() && x < Pow2(f.width)
    ensures var a := PmcrAddr(t, layout, idx);
            ReadField(WritePmcrField(t, m, layout, idx, f, x), a, f) == x
    ensures var a := PmcrAddr(t, layout, idx);
            forall i :: 0 <= i < Width && !f.Covers(i) ==>
              ToBits(MmioRead(WritePmcrField(t, m, layout, idx, f, x), a), Width)[i] == ToBits(MmioRead(m, a), Width)[i]
    ensures forall b :: b != PmcrAddr(t, layout, idx) ==>
              MmioRead(WritePmcrField(t, m, layout, idx, f, x), b) == MmioRead(m, b)
  {
    var a := PmcrAddr(t, layout, idx);
    ExtractInsertSame(MmioRead(m, a), f, x);
    InsertBits(MmioRead(m, a), f, x);
  }

  /** Writing one PMCR field keeps the value of any field disjoint from it. */
  lemma WritePmcrFieldKeepsOther(t: Option<PmuInfoTable>, m: Mmio, layout: Layout, idx: nat, f: Field, g: Field, x: nat)
    requires TableOk(t) && f.Valid() && g.Valid() && Disjoint(f, g)
    ensures var a := PmcrAddr(t, layout, idx);
            ReadField(WritePmcrField(t, m, layout, idx, f, x), a, g) == ReadField(m, a, g)
  {
    ExtractInsertOther(MmioRead(m, PmcrAddr(t, layout, idx)), f, g, x);
  }

  /** val_pmu_disable_all_monitors: PMCR.E := 0. */
  function DisableAll(t: Option<PmuInfoTable>, m: Mmio, layout: Layout, idx: nat): Mmio
    requires TableOk(t) && layout.Valid()
  {
    WritePmcrField(t, m, layout, idx, layout.pmcrE, 0)
  }

  /** val_pmu_enable_all_monitors: PMCR.E := 1. */
  function EnableAll(t: Option<PmuInfoTable>, m: Mmio, layout: Layout, idx: nat): Mmio
    requires TableOk(t) && layout.Valid()
  {
    WritePmcrField(t, m, layout, idx, layout.pmcrE, 1)
  }

  /** val_pmu_reset_all_monitors: PMCR.P := 1. */
  function ResetAll(t: Option<PmuInfoTable>, m: Mmio, layout: Layout, idx: nat): Mmio
    requires TableOk(t) && layout.Valid()
  {
    WritePmcrField(t, m, layout, idx, layout.pmcrP, 1)
  }

  /** Disable-all clears PMCR.E and keeps PMCR.P and every other PMCR bit. */
  lemma DisableAllEffect(t: Option<PmuInfoTable>, m: Mmio, layout: Layout, idx: nat)
    requires TableOk(t) && layout.Valid()
    ensures var a := PmcrAddr(t, layout, idx);
            var m' := DisableAll(t, m, layout, idx);
            && ReadField(m', a, layout.pmcrE) == 0
            && ReadField(m', a, layout.pmcrP) == ReadField(m, a, layout.pmcrP)
            && (forall i :: 0 <= i < Width && !layout.pmcrE.Covers(i) ==>
                  ToBits(MmioRead(m', a), Width)[i] == ToBits(MmioRead(m, a), Width)[i])
            && (forall b :: b != a ==> MmioRead(m', b) == MmioRead(m, b))
  {
    WritePmcrFieldEffect(t, m, layout, idx, layout.pmcrE, 0);
    WritePmcrFieldKeepsOther(t, m, layout, idx, layout.pmcrE, layout.pmcrP, 0);
  }

  /** Enable-all sets PMCR.E and keeps PMCR.P and every other PMCR bit. */
  lemma EnableAllEffect(t: Option<PmuInfoTable>, m: Mmio, layout: Layout, idx: nat)
    requires TableOk(t) && layout.Valid()
    ensures var a := PmcrAddr(t, layout, idx);
            var m' := EnableAll(t, m, layout, idx);
            && ReadField(m', a, layout.pmcrE) == 1
            && ReadField(m', a, layout.pmcrP) == ReadField(m, a, layout.pmcrP)
            && (forall i :: 0 <= i < Width && !layout.pmcrE.Covers(i) ==>
                  ToBits(MmioRead(m', a), Width)[i] == ToBits(MmioRead(m, a), Width)[i])
            && (forall b :: b != a ==> MmioRead(m', b) == MmioRead(m, b))
  {
    WritePmcrFieldEffect(t, m, layout, idx, layout.pmcrE, 1);
    WritePmcrFieldKeepsOther(t, m, layout, idx, layout.pmcrE, layout.pmcrP, 1);
  }

  /** Reset-all sets PMCR.P and keeps PMCR.E and every other PMCR bit. */
  lemma ResetAllEffect(t: Option<PmuInfoTable>, m: Mmio, layout: Layout, idx: nat)
    requires TableOk(t) && layout.Valid()
    ensures var a := PmcrAddr(t, layout, idx);
            var m' := ResetAll(t, m, layout, idx);
            && ReadField(m', a, layout.pmcrP) == 1
            && ReadField(m', a, layout.pmcrE) == ReadField(m, a, layout.pmcrE)
            && (forall i :: 0 <= i < Width && !layout.pmcrP.Covers(i) ==>
                  ToBits(MmioRead(m', a), Width)[i] == ToBits(MmioRead(m, a), Width)[i])
            && (forall b :: b != a ==> MmioRead(m', b) == MmioRead(m, b))
  {
    WritePmcrFieldEffect(t, m, layout, idx, layout.pmcrP, 1);
    WritePmcrFieldKeepsOther(t, m, layout, idx, layout.pmcrP, layout.pmcrE, 1);
  }

  // -----------------------------------------------------------------------
  // Per-monitor configuration, enable and disable
  // -----------------------------------------------------------------------

  /** The provider of event encodings: pal_pmu_get_event_info(event, node type). */
  type EventInfo = (nat, u32) -> u32

  /** Address of `reg` for monitor `inst` at the given stride, in uint32_t/uint64_t arithmetic. */
  function MonitorRegAddr(base: u64, stride: nat, inst: u32, reg: u64): u64
  {
    AddU64(AddU64(base, (stride * inst) % TWO32), reg)
  }

  datatype ConfigureOutcome = ConfigureOutcome(status: u32, mmio: Mmio)

  /** val_pmu_configure_monitor: disable all; look up the event; if it is supported write it
      to the monitor's PMEVTYPER, then enable all and reset all. */
  function Configure(t: Option<PmuInfoTable>, m: Mmio, layout: Layout, idx: nat,
                     event: nat, inst: u32, eventInfo: EventInfo): ConfigureOutcome
    requires TableOk(t) && layout.Valid()
  {
    var m1 := DisableAll(t, m, layout, idx);
    var data := eventInfo(event, GetInfo(t, NodeType, idx) % TWO32);
    if data == PMU_EVENT_INVALID then ConfigureOutcome(1, m1)
    else
      var m2 := m1[MonitorRegAddr(Base0(t, idx), 4, inst, layout.regPmevtyper) := data];
      ConfigureOutcome(0, ResetAll(t, EnableAll(t, m2, layout, idx), layout, idx))
  }

  /** An unsupported event fails with status 1 after the monitors have been disabled,
      and no PMEVTYPER is written. */
  lemma ConfigureRejectsUnsupportedEvent(t: Option<PmuInfoTable>, m: Mmio, layout: Layout, idx: nat,
                                         event: nat, inst: u32, eventInfo: EventInfo)
    requires TableOk(t) && layout.Valid()
    requires eventInfo(event, GetInfo(t, NodeType, idx) % TWO32) == PMU_EVENT_INVALID
    ensures Configure(t, m, layout, idx, event, inst, eventInfo).status == 1
    ensures Configure(t, m, layout, idx, event, inst, eventInfo).mmio == DisableAll(t, m, layout, idx)
    ensures var a := PmcrAddr(t, layout, idx);
            ReadField(Configure(t, m, layout, idx, event, inst, eventInfo).mmio, a, layout.pmcrE) == 0
    ensures var e := MonitorRegAddr(Base0(t, idx), 4, inst, layout.regPmevtyper);
            e != PmcrAddr(t, layout, idx) ==>
              MmioRead(Configure(t, m, layout, idx, event, inst, eventInfo).mmio, e) == MmioRead(m, e)
  {
    DisableAllEffect(t, m, layout, idx);
  }

  /** A supported event succeeds with status 0: the event id is in the monitor's PMEVTYPER
      (unless that address is PMCR itself), and PMCR ends with E and P both set. */
  lemma ConfigureProgramsSupportedEvent(t: Option<PmuInfoTable>, m: Mmio, layout: Layout, idx: nat,
                                        event: nat, inst: u32, eventInfo: EventInfo)
    requires TableOk(t) && layout.Valid()
    requires eventInfo(event, GetInfo(t, NodeType, idx) % TWO32) != PMU_EVENT_INVALID
    ensures Configure(t, m, layout, idx, event, inst, eventInfo).status == 0
    ensures var a := PmcrAddr(t, layout, idx);
            var m' := Configure(t, m, layout, idx, event, inst, eventInfo).mmio;
            ReadField(m', a, layout.pmcrE) == 1 && ReadField(m', a, layout.pmcrP) == 1
    ensures var e := MonitorRegAddr(Base0(t, idx), 4, inst, layout.regPmevtyper);
            e != PmcrAddr(t, layout, idx) ==>
              MmioRead(Configure(t, m, layout, idx, event, inst, eventInfo).mmio, e)
                == eventInfo(event, GetInfo(t, NodeType, idx) % TWO32)
  {
    var data := eventInfo(event, GetInfo(t, NodeType, idx) % TWO32);
    var m1 := DisableAll(t, m, layout, idx);
    var m2 := m1[MonitorRegAddr(Base0(t, idx), 4, inst, layout.regPmevtyper) := data];
    EnableAllEffect(t, m2, layout, idx);
    ResetAllEffect(t, EnableAll(t, m2, layout, idx), layout, idx);
  }

  /** A supported event changes no register other than PMEVTYPER and PMCR. */
  lemma ConfigureSupportedKeepsRest(t: Option<PmuInfoTable>, m: Mmio, layout: Layout, idx: nat,
                                    event: nat, inst: u32, eventInfo: EventInfo)
    requires TableOk(t) && layout.Valid()
    requires eventInfo(event, GetInfo(t, NodeType, idx) % TWO32) != PMU_EVENT_INVALID
    ensures var a := PmcrAddr(t, layout, idx);
            var e := MonitorRegAddr(Base0(t, idx), 4, inst, layout.regPmevtyper);
            var m' := Configure(t, m, layout, idx, event, inst, eventInfo).mmio;
            forall b :: b != a && b != e ==> MmioRead(m', b) == MmioRead(m, b)
  {
  }

  /** A supported event changes no PMCR bit outside E and P (when PMEVTYPER is not PMCR). */
  lemma ConfigureSupportedKeepsPmcr(t: Option<PmuInfoTable>, m: Mmio, layout: Layout, idx: nat,
                                    event: nat, inst: u32, eventInfo: EventInfo)
    requires TableOk(t) && layout.Valid()
    requires eventInfo(event, GetInfo(t, NodeType, idx) % TWO32) != PMU_EVENT_INVALID
    requires MonitorRegAddr(Base0(t, idx), 4, inst, layout.regPmevtyper) != PmcrAddr(t, layout, idx)
    ensures var a := PmcrAddr(t, layout, idx);
            var m' := Configure(t, m, layout, idx, event, inst, eventInfo).mmio;
            forall i :: 0 <= i < Width && !layout.pmcrE.Covers(i) && !layout.pmcrP.Covers(i) ==>
              ToBits(MmioRead(m', a), Width)[i] == ToBits(MmioRead(m, a), Width)[i]
  {
    var data := eventInfo(event, GetInfo(t, NodeType, idx) % TWO32);
    var m1 := DisableAll(t, m, layout, idx);
    var m2 := m1[MonitorRegAddr(Base0(t, idx), 4, inst, layout.regPmevtyper) := data];
    DisableAllEffect(t, m, layout, idx);
    EnableAllEffect(t, m2, layout, idx);
    ResetAllEffect(t, EnableAll(t, m2, layout, idx), layout, idx);
  }

  /** PMCNTENSET/PMCNTENCLR word offset of monitor `inst`: one 32-bit word per 32 monitors. */
  function MonitorWordOffset(inst: u32): u32 {
    inst / 32 * 4
  }

  /** Bit of monitor `inst` within its word. */
  function MonitorBit(inst: u32): nat {
    inst % 32
  }

  /** The word offset and the bit together name the monitor: the word is word-aligned,
      the bit is below 32, and the monitor number is recovered from them. */
  lemma MonitorSelectDecodes(inst: u32)
    ensures MonitorWordOffset(inst) % 4 == 0 && MonitorBit(inst) < 32
    ensures inst == MonitorWordOffset(inst) / 4 * 32 + MonitorBit(inst)
  {
  }

  /** Distinct monitors are never selected by the same word and bit. */
  lemma MonitorSelectInjective(i: u32, j: u32)
    requires MonitorWordOffset(i) == MonitorWordOffset(j) && MonitorBit(i) == MonitorBit(j)
    ensures i == j
  {
    MonitorSelectDecodes(i);
    MonitorSelectDecodes(j);
  }

  /** The value written to select monitor `inst`: `1 << (inst % 32)`. */
  function MonitorMask(inst: u32): (r: u32)
  {
    Pow2Values();
    Pow2Monotone(MonitorBit(inst), 31);
    Pow2(MonitorBit(inst))
  }

  /** The selection value has exactly the monitor's bit set. */
  lemma MonitorMaskOneBit(inst: u32, i: nat)
    requires i < Width
    ensures ToBits(MonitorMask(inst), Width)[i] == (i == MonitorBit(inst))
  {
    Pow2Bits(MonitorBit(inst), Width, i);
  }

  /** Monitor 35 is bit 3 of the word at offset 4. */
  lemma MonitorSelectExample()
    ensures MonitorWordOffset(35) == 4 && MonitorBit(35) == 3 && MonitorMask(35) == 8
  {
  }

  /** val_pmu_enable_monitor: write the monitor's bit to its PMCNTENSET word. */
  function EnableMonitorWrite(t: Option<PmuInfoTable>, m: Mmio, layout: Layout, idx: nat, inst: u32): Mmio
    requires TableOk(t)
  {
    m[AddU64(AddU64(Base0(t, idx), MonitorWordOffset(inst)), layout.regPmcntenset) := MonitorMask(inst)]
  }

  /** val_pmu_disable_monitor: write the monitor's bit to its PMCNTENCLR word, then reset all. */
  function DisableMonitorWrite(t: Option<PmuInfoTable>, m: Mmio, layout: Layout, idx: nat, inst: u32): Mmio
    requires TableOk(t) && layout.Valid()
  {
    var m1 := m[AddU64(AddU64(Base0(t, idx), MonitorWordOffset(inst)), layout.regPmcntenclr) := MonitorMask(inst)];
    ResetAll(t, m1, layout, idx)
  }

  /** Enabling a monitor writes only its PMCNTENSET word, with only its bit set. */
  lemma EnableMonitorEffect(t: Option<PmuInfoTable>, m: Mmio, layout: Layout, idx: nat, inst: u32)
    requires TableOk(t)
    ensures var a := AddU64(AddU64(Base0(t, idx), MonitorWordOffset(inst)), layout.regPmcntenset);
            var m' := EnableMonitorWrite(t, m, layout, idx, inst);
            && (forall i :: 0 <= i < Width ==> ToBits(MmioRead(m', a), Width)[i] == (i == MonitorBit(inst)))
            && (forall b :: b != a ==> MmioRead(m', b) == MmioRead(m, b))
  {
    forall i | 0 <= i < Width
      ensures ToBits(MonitorMask(inst), Width)[i] == (i == MonitorBit(inst))
    {
      MonitorMaskOneBit(inst, i);
    }
  }

  /** Disabling a monitor leaves PMCR.P set. */
  lemma DisableMonitorResets(t: Option<PmuInfoTable>, m: Mmio, layout: Layout, idx: nat, inst: u32)
    requires TableOk(t) && layout.Valid()
    ensures ReadField(DisableMonitorWrite(t, m, layout, idx, inst), PmcrAddr(t, layout, idx), layout.pmcrP) == 1
  {
    var c := AddU64(AddU64(Base0(t, idx), MonitorWordOffset(inst)), layout.regPmcntenclr);
    ResetAllEffect(t, m[c := MonitorMask(inst)], layout, idx);
  }

  /** Disabling a monitor changes no register other than its PMCNTENCLR word and PMCR,
      and (when the two differ) keeps PMCR.E and every PMCR bit outside P. */
  lemma DisableMonitorKeepsRest(t: Option<PmuInfoTable>, m: Mmio, layout: Layout, idx: nat, inst: u32)
    requires TableOk(t) && layout.Valid()
    ensures var a := PmcrAddr(t, layout, idx);
            var c := AddU64(AddU64(Base0(t, idx), MonitorWordOffset(inst)), layout.regPmcntenclr);
            var m' := DisableMonitorWrite(t, m, layout, idx, inst);
            forall b :: b != a && b != c ==> MmioRead(m', b) == MmioRead(m, b)
    ensures var a := PmcrAddr(t, layout, idx);
            var c := AddU64(AddU64(Base0(t, idx), MonitorWordOffset(inst)), layout.regPmcntenclr);
            var m' := DisableMonitorWrite(t, m, layout, idx, inst);
            c != a ==>
              && ReadField(m', a, layout.pmcrE) == ReadField(m, a, layout.pmcrE)
              && forall i :: 0 <= i < Width && !layout.pmcrP.Covers(i) ==>
                   ToBits(MmioRead(m', a), Width)[i] == ToBits(MmioRead(m, a), Width)[i]
  {
    var c := AddU64(AddU64(Base0(t, idx), MonitorWordOffset(inst)), layout.regPmcntenclr);
    ResetAllEffect(t, m[c := MonitorMask(inst)], layout, idx);
  }

  /** Disabling a monitor leaves its PMCNTENCLR word holding only its bit (unless that
      word is PMCR itself). */
  lemma DisableMonitorClearWord(t: Option<PmuInfoTable>, m: Mmio, layout: Layout, idx: nat, inst: u32)
    requires TableOk(t) && layout.Valid()
    requires AddU64(AddU64(Base0(t, idx), MonitorWordOffset(inst)), layout.regPmcntenclr) != PmcrAddr(t, layout, idx)
    ensures MmioRead(DisableMonitorWrite(t, m, layout, idx, inst),
                     AddU64(AddU64(Base0(t, idx), MonitorWordOffset(inst)), layout.regPmcntenclr)) == MonitorMask(inst)
  {
    var c := AddU64(AddU64(Base0(t, idx), MonitorWordOffset(inst)), layout.regPmcntenclr);
    ResetAllEffect(t, m[c := MonitorMask(inst)], layout, idx);
  }

  // -----------------------------------------------------------------------
  // Counter reads
  // -----------------------------------------------------------------------

  /** Counters live on page 1 when the dual-page extension is implemented, on page 0 otherwise. */
  function CounterPage(t: Option<PmuInfoTable>, idx: nat): u64
    requires TableOk(t)
  {
    if GetInfo(t, NodeDpExtn, idx) != 0 then GetInfo(t, NodeBase1, idx) else GetInfo(t, NodeBase0, idx)
  }

  /** The counter page is base1 exactly for a node with the dual-page flag, base0 otherwise. */
  lemma CounterPageOfEntry(t: PmuInfoTable, idx: nat)
    requires t.WellFormed() && idx < t.pmuCount
    ensures CounterPage(Some(t), idx) == if t.info[idx].dualPageExtension != 0 then t.info[idx].base1 else t.info[idx].base0
    ensures t.info[idx].Page1Meaningful() ==> CounterPage(Some(t), idx) == t.info[idx].base1
  {
  }

  /** `(uint64_t)hi << 32 | lo` for 32-bit halves. */
  function Compose64(hi: u32, lo: u32): (r: u64)
  {
    hi * TWO32 + lo
  }

  /** The composed value splits back into its halves. */
  lemma Compose64Splits(hi: u32, lo: u32)
    ensures Compose64(hi, lo) / TWO32 == hi && Compose64(hi, lo) % TWO32 == lo
  {
  }

  /** val_pmu_read_count: counters wider than 32 bits are read as two words at stride 8,
      others as one word at stride 4. */
  function ReadCount(t: Option<PmuInfoTable>, m: Mmio, layout: Layout, idx: nat, inst: u32): u64
    requires TableOk(t) && layout.Valid()
  {
    var base := CounterPage(t, idx);
    if MaxMonitorSize(t, m, layout, idx) > SIZE_MAX_32BIT then
      Compose64(MmioRead(m, MonitorRegAddr(base, 8, inst, layout.regPmevcntrH)),
                MmioRead(m, MonitorRegAddr(base, 8, inst, layout.regPmevcntrL)))
    else
      MmioRead(m, MonitorRegAddr(base, 4, inst, layout.regPmevcntr))
  }

  /** With wide counters the high and low words come from the stride-8 pair on the counter page. */
  lemma ReadCountWide(t: Option<PmuInfoTable>, m: Mmio, layout: Layout, idx: nat, inst: u32)
    requires TableOk(t) && layout.Valid()
    requires MaxMonitorSize(t, m, layout, idx) > SIZE_MAX_32BIT
    ensures ReadCount(t, m, layout, idx, inst) / TWO32 == MmioRead(m, MonitorRegAddr(CounterPage(t, idx), 8, inst, layout.regPmevcntrH))
    ensures ReadCount(t, m, layout, idx, inst) % TWO32 == MmioRead(m, MonitorRegAddr(CounterPage(t, idx), 8, inst, layout.regPmevcntrL))
  {
    Compose64Splits(MmioRead(m, MonitorRegAddr(CounterPage(t, idx), 8, inst, layout.regPmevcntrH)),
                    MmioRead(m, MonitorRegAddr(CounterPage(t, idx), 8, inst, layout.regPmevcntrL)));
  }

  /** With counters of at most 32 bits the count is one word at stride 4 and fits in 32 bits. */
  lemma ReadCountNarrow(t: Option<PmuInfoTable>, m: Mmio, layout: Layout, idx: nat, inst: u32)
    requires TableOk(t) && layout.Valid()
    requires MaxMonitorSize(t, m, layout, idx) <= SIZE_MAX_32BIT
    ensures ReadCount(t, m, layout, idx, inst) == MmioRead(m, MonitorRegAddr(CounterPage(t, idx), 4, inst, layout.regPmevcntr))
    ensures ReadCount(t, m, layout, idx, inst) < TWO32
  {
  }

  /** A node without the dual-page flag reads its counters on page 0, whatever base1 holds. */
  lemma ReadCountIgnoresBase1(t: PmuInfoTable, m: Mmio, layout: Layout, idx: nat, inst: u32, other: u64)
    requires t.WellFormed() && layout.Valid() && idx < t.pmuCount
    requires t.info[idx].dualPageExtension == 0
    ensures ReadCount(Some(t), m, layout, idx, inst) ==
            ReadCount(SetBase1(t, idx, other), m, layout, idx, inst)
  {
  }

  function SetBase1(t: PmuInfoTable, idx: nat, b: u64): (r: Option<PmuInfoTable>)
    requires t.WellFormed() && idx < t.pmuCount
    ensures TableOk(r) && r.Some?
  {
    Some(WithEntry(t, idx, t.info[idx].(base1 := b)))
  }

  // -----------------------------------------------------------------------
  // Reverse lookups
  // -----------------------------------------------------------------------

  predicate NodeMatches(e: PmuInfoBlock, nodeType: u8, key: u64) {
    e.nodeType == nodeType && e.primaryInstance == key
  }

  /** The least index of a record of the given type whose primary instance is `key`. */
  function FindNode(info: seq<PmuInfoBlock>, nodeType: u8, key: u64): (r: Option<nat>)
    ensures r.Some? ==> r.value < |info| && NodeMatches(info[r.value], nodeType, key)
    ensures r.Some? ==> forall j :: 0 <= j < r.value ==> !NodeMatches(info[j], nodeType, key)
    ensures r.None? ==> forall j :: 0 <= j < |info| ==> !NodeMatches(info[j], nodeType, key)
  {
    if |info| == 0 then None
    else if NodeMatches(info[0], nodeType, key) then Some(0)
    else match FindNode(info[1..], nodeType, key)
      case None => None
      case Some(k) => Some(k + 1)
  }

  /** The answer a lookup returns: the found index, or PMU_INVALID_INDEX. */
  function LookupResult(t: PmuInfoTable, nodeType: u8, key: u64): u32
    requires t.WellFormed()
  {
    match FindNode(t.info, nodeType, key)
    case None => PMU_INVALID_INDEX
    case Some(k) => k
  }

  /** The sentinel is never a valid node index, so callers can tell "not found" apart. */
  lemma InvalidIndexIsNoNode(t: PmuInfoTable)
    requires t.WellFormed()
    ensures !IndexInRange(t, PMU_INVALID_INDEX)
  {
  }

  /** The two-node table: memory controller with domain 3, ACPI device with id 7. */
  lemma LookupExample(a: PmuInfoBlock, b: PmuInfoBlock)
    requires a.nodeType == PMU_NODE_MEM_CNTR && a.primaryInstance == 3
    requires b.nodeType == PMU_NODE_ACPI_DEVICE && b.primaryInstance == 7
    ensures LookupResult(PmuInfoTable(2, [a, b]), PMU_NODE_MEM_CNTR, 3) == 0
    ensures LookupResult(PmuInfoTable(2, [a, b]), PMU_NODE_MEM_CNTR, 5) == PMU_INVALID_INDEX
    ensures LookupResult(PmuInfoTable(2, [a, b]), PMU_NODE_ACPI_DEVICE, 7) == 1
  {
    assert [a, b][1..] == [b];
    assert FindNode([b], PMU_NODE_ACPI_DEVICE, 7) == Some(0);
  }

  // -----------------------------------------------------------------------
  // AArch64 cycle counter: PMCR_EL0, PMCCFILTR_EL0, PMCNTENSET_EL0
  // -----------------------------------------------------------------------

  /** The value of the C expression `1 << n` (an int) once widened to uint64_t, for the
      bit positions where the shift is computed: bit 31 lands in the sign bit and the
      widening copies it into bits 32..63. */
  function CIntShiftAsU64(n: nat): (r: u64)
    requires n <= 31
  {
    Pow2Values();
    Pow2Monotone(n, 31);
    if n < 31 then Pow2(n) else 0x1_0000_0000_0000_0000 - 0x8000_0000
  }

  /** As written, the mask for bit 31 is not a single bit. */
  lemma CIntShiftBit31SignExtends()
    ensures CIntShiftAsU64(31) == 0xFFFF_FFFF_8000_0000
    ensures CIntShiftAsU64(31) != Bit64(31)
  {
    Pow2Values();
    assert Pow2(32) == 2 * Pow2(31);
  }

  /** The intended mask, `1ULL << n`. */
  function Bit64(n: nat): (r: u64)
    requires n < 64
  {
    Pow2Values();
    Pow2Monotone(n, 63);
    assert Pow2(64) == 2 * Pow2(63);
    Pow2(n)
  }

  /** The intended mask has exactly bit n set, and agrees with the written one below bit 31. */
  lemma Bit64OneBit(n: nat, i: nat)
    requires n < 64 && i < 64
    ensures ToBits(Bit64(n), 64)[i] == (i == n)
    ensures n < 31 ==> CIntShiftAsU64(n) == Bit64(n)
  {
    Pow2Bits(n, 64, i);
  }

  /** Bitwise OR of two 64-bit register values. */
  function Or64(a: u64, b: u64): u64
  {
    Pow2Values();
    Or(a, b, 64)
  }

  /** The system registers the cycle counter uses, and the two saved copies. */
  datatype SysRegs = SysRegs(pmcr: u64, pmccfiltr: u64, pmcntenset: u64,
                             controlRegBackup: u64, ccFiltRegBackup: u64)

  /** val_pmu_cycle_counter_start: save PMCCFILTR and PMCR, then set the EL2 filter bit,
      the cycle-counter enable bit and the long-counter, reset and enable bits of PMCR. */
  function CycleCounterStarted(s: SysRegs, layout: Layout): SysRegs
    requires layout.Valid()
  {
    SysRegs(
      pmcr := Or64(s.pmcr, Or64(Or64(Bit64(layout.pmcrLcEnBit), Bit64(layout.pmcrCResetBit)), Bit64(layout.pmcrEnBit))),
      pmccfiltr := Or64(s.pmccfiltr, Bit64(layout.pmccfiltrNshEnBit)),
      pmcntenset := Or64(s.pmcntenset, Bit64(layout.pmcntensetCEnBit)),
      controlRegBackup := s.pmcr,
      ccFiltRegBackup := s.pmccfiltr)
  }

  /** val_pmu_cycle_counter_stop: write both saved values back; PMCNTENSET is left as is. */
  function CycleCounterStopped(s: SysRegs): SysRegs
  {
    s.(pmcr := s.controlRegBackup, pmccfiltr := s.ccFiltRegBackup)
  }

  /** Starting sets exactly the named bits and keeps every other bit of the three registers. */
  lemma CycleCounterStartedBits(s: SysRegs, layout: Layout, i: nat)
    requires layout.Valid() && i < 64
    ensures ToBits(CycleCounterStarted(s, layout).pmcr, 64)[i] ==
            (ToBits(s.pmcr, 64)[i] || i == layout.pmcrLcEnBit || i == layout.pmcrCResetBit || i == layout.pmcrEnBit)
    ensures ToBits(CycleCounterStarted(s, layout).pmccfiltr, 64)[i] ==
            (ToBits(s.pmccfiltr, 64)[i] || i == layout.pmccfiltrNshEnBit)
    ensures ToBits(CycleCounterStarted(s, layout).pmcntenset, 64)[i] ==
            (ToBits(s.pmcntenset, 64)[i] || i == layout.pmcntensetCEnBit)
  {
    Pow2Values();
    var lc, cr, en := Bit64(layout.pmcrLcEnBit), Bit64(layout.pmcrCResetBit), Bit64(layout.pmcrEnBit);
    Bit64OneBit(layout.pmcrLcEnBit, i);
    Bit64OneBit(layout.pmcrCResetBit, i);
    Bit64OneBit(layout.pmcrEnBit, i);
    Bit64OneBit(layout.pmccfiltrNshEnBit, i);
    Bit64OneBit(layout.pmcntensetCEnBit, i);
    OrBits(lc, cr, 64, i);
    OrBits(Or64(lc, cr), en, 64, i);
    OrBits(s.pmcr, Or64(Or64(lc, cr), en), 64, i);
    OrBits(s.pmccfiltr, Bit64(layout.pmccfiltrNshEnBit), 64, i);
    OrBits(s.pmcntenset, Bit64(layout.pmcntensetCEnBit), 64, i);
  }

  /** Stop after start puts back PMCR and PMCCFILTR as they were before the start, whatever
      happened to the live registers in between, as long as the saved copies were left alone;
      the cycle counter stays enabled in PMCNTENSET. */
  lemma StartStopRestores(s: SysRegs, layout: Layout, between: SysRegs)
    requires layout.Valid()
    requires between.controlRegBackup == CycleCounterStarted(s, layout).controlRegBackup
    requires between.ccFiltRegBackup == CycleCounterStarted(s, layout).ccFiltRegBackup
    ensures CycleCounterStopped(between).pmcr == s.pmcr
    ensures CycleCounterStopped(between).pmccfiltr == s.pmccfiltr
    ensures CycleCounterStopped(between).pmcntenset == between.pmcntenset
  {
  }

  /** A second start before a stop overwrites the saved copies with the already modified
      values, so the following stop leaves PMCR with its enable bit set, even when it
      was clear before the first start. */
  lemma SecondStartLosesSnapshot(s: SysRegs, layout: Layout)
    requires layout.Valid() && !ToBits(s.pmcr, 64)[layout.pmcrEnBit]
    ensures var twice := CycleCounterStarted(CycleCounterStarted(s, layout), layout);
            CycleCounterStopped(twice).pmcr == CycleCounterStarted(s, layout).pmcr
    ensures var twice := CycleCounterStarted(CycleCounterStarted(s, layout), layout);
            CycleCounterStopped(twice).pmcr != s.pmcr
  {
    CycleCounterStartedBits(s, layout, layout.pmcrEnBit);
  }

  // -----------------------------------------------------------------------
  // The layer's state
  // -----------------------------------------------------------------------

  /** The global table pointer, the saved cycle-counter registers, and the hardware
      the layer drives: the memory-mapped PMU registers and three system registers. */
  class PmuLayer {
    const layout: Layout
    var infoTable: Option<PmuInfoTable>   // g_pmu_info_table; None is NULL
    var mmio: Mmio
    var pmcrEl0: u64
    var pmccfiltrEl0: u64
    var pmcntensetEl0: u64
    var controlRegBackup: u64
    var ccFiltRegBackup: u64

    predicate Valid()
      reads this
    {
      layout.Valid() && TableOk(infoTable)
    }

    function SysRegState(): SysRegs
      reads this
    {
      SysRegs(pmcrEl0, pmccfiltrEl0, pmcntensetEl0, controlRegBackup, ccFiltRegBackup)
    }

    /** The state at boot: no table, nothing saved, the hardware as given. */
    constructor (layout: Layout, mmio: Mmio, pmcr: u64, pmccfiltr: u64, pmcntenset: u64)
      requires layout.Valid()
      ensures Valid()
      ensures this.layout == layout && infoTable.None? && this.mmio == mmio
      ensures SysRegState() == SysRegs(pmcr, pmccfiltr, pmcntenset, 0, 0)
    {
      this.layout := layout;
      infoTable := None;
      this.mmio := mmio;
      pmcrEl0, pmccfiltrEl0, pmcntensetEl0 := pmcr, pmccfiltr, pmcntenset;
      controlRegBackup, ccFiltRegBackup := 0, 0;
    }

    /** val_pmu_create_info_table: with a NULL buffer nothing happens; otherwise the table
      the platform layer fills in (`produced`) is bound and each node is classified. */
    method CreateInfoTable(buffer: bool, produced: PmuInfoTable)
      requires Valid() && produced.WellFormed()
      modifies this`infoTable
      ensures Valid()
      ensures infoTable == if buffer then Some(Classified(produced, mmio, layout)) else old(infoTable)
    {
      if !buffer {
        return;
      }
      infoTable := Some(produced);
      var n := produced.pmuCount;
      var i: nat := 0;
      while i < n
        invariant i <= n && Valid()
        invariant infoTable.Some? && infoTable.value.pmuCount == n
        invariant forall j :: 0 <= j < i ==> infoTable.value.info[j] == ClassifyEntry(produced.info[j], mmio, layout)
        invariant forall j :: i <= j < n ==> infoTable.value.info[j] == produced.info[j]
      {
        var base := GetInfo(infoTable, NodeBase0, i);
        var reg := Extract(MmioRead(mmio, AddU64(base, layout.regPmdevarch)), layout.pmdevarchArchitect);
        if reg == ARCHITECT_ARM {
          SetNodeCoresightCompliant(1, i);
        } else {
          SetNodeCoresightCompliant(0, i);
        }
        i := i + 1;
      }
      assert infoTable.value.info == Classified(produced, mmio, layout).info;
    }

    /** val_pmu_set_node_coresight_complaint. */
    method SetNodeCoresightCompliant(flag: u32, idx: nat)
      requires Valid()
      modifies this`infoTable
      ensures Valid()
      ensures infoTable == SetCompliant(old(infoTable), flag, idx)
    {
      if infoTable.None? {
        return;
      }
      if !IndexInRange(infoTable.value, idx) {
        return;
      }
      var t := infoTable.value;
      infoTable := Some(PmuInfoTable(t.pmuCount, t.info[idx := t.info[idx].(coresightCompliant := flag)]));
    }

    /** val_pmu_free_info_table: the table pointer becomes NULL (and stays NULL if it was). */
    method FreeInfoTable()
      requires Valid()
      modifies this`infoTable
      ensures Valid() && infoTable.None?
    {
      if infoTable.Some? {
        infoTable := None;
      }
    }

    method DisableAllMonitors(idx: nat)
      requires Valid()
      modifies this`mmio
      ensures Valid()
      ensures mmio == DisableAll(infoTable, old(mmio), layout, idx)
    {
      var a := AddU64(GetInfo(infoTable, NodeBase0, idx), layout.regPmcr);
      Pow2Values();
      var data: u32 := Insert(MmioRead(mmio, a), layout.pmcrE, 0);
      mmio := mmio[a := data];
    }

    method EnableAllMonitors(idx: nat)
      requires Valid()
      modifies this`mmio
      ensures Valid()
      ensures mmio == EnableAll(infoTable, old(mmio), layout, idx)
    {
      var a := AddU64(GetInfo(infoTable, NodeBase0, idx), layout.regPmcr);
      Pow2Values();
      var data: u32 := Insert(MmioRead(mmio, a), layout.pmcrE, 1);
      mmio := mmio[a := data];
    }

    method ResetAllMonitors(idx: nat)
      requires Valid()
      modifies this`mmio
      ensures Valid()
      ensures mmio == ResetAll(infoTable, old(mmio), layout, idx)
    {
      var a := AddU64(GetInfo(infoTable, NodeBase0, idx), layout.regPmcr);
      Pow2Values();
      var data: u32 := Insert(MmioRead(mmio, a), layout.pmcrP, 1);
      mmio := mmio[a := data];
    }

    /** val_pmu_configure_monitor; the event provider is a parameter. */
    method ConfigureMonitor(idx: nat, event: nat, inst: u32, eventInfo: EventInfo) returns (status: u32)
      requires Valid()
      modifies this`mmio
      ensures Valid()
      ensures ConfigureOutcome(status, mmio) == Configure(infoTable, old(mmio), layout, idx, event, inst, eventInfo)
    {
      var base := GetInfo(infoTable, NodeBase0, idx);
      var offset: u32 := (4 * inst) % TWO32;
      DisableAllMonitors(idx);
      var nodeType: u32 := GetInfo(infoTable, NodeType, idx) % TWO32;
      var data := eventInfo(event, nodeType);
      if data == PMU_EVENT_INVALID {
        return 1;
      }
      mmio := mmio[AddU64(AddU64(base, offset), layout.regPmevtyper) := data];
      EnableAllMonitors(idx);
      ResetAllMonitors(idx);
      return 0;
    }

    /** val_pmu_enable_monitor. */
    method EnableMonitor(idx: nat, inst: u32)
      requires Valid()
      modifies this`mmio
      ensures Valid()
      ensures mmio == EnableMonitorWrite(infoTable, old(mmio), layout, idx, inst)
    {
      var base := GetInfo(infoTable, NodeBase0, idx);
      var regOffset := inst / 32 * 4;
      mmio := mmio[AddU64(AddU64(base, regOffset), layout.regPmcntenset) := MonitorMask(inst)];
    }

    /** val_pmu_disable_monitor. */
    method DisableMonitor(idx: nat, inst: u32)
      requires Valid()
      modifies this`mmio
      ensures Valid()
      ensures mmio == DisableMonitorWrite(infoTable, old(mmio), layout, idx, inst)
    {
      var base := GetInfo(infoTable, NodeBase0, idx);
      var regOffset := inst / 32 * 4;
      mmio := mmio[AddU64(AddU64(base, regOffset), layout.regPmcntenclr) := MonitorMask(inst)];
      ResetAllMonitors(idx);
    }

    /** The first-match scan shared by the two lookups. */
    method ScanNodes(nodeType: u8, key: u64) returns (index: u32)
      requires Valid() && infoTable.Some?
      ensures index == LookupResult(infoTable.value, nodeType, key)
    {
      var t := infoTable.value;
      var nodeIndex: nat := 0;
      while nodeIndex < t.pmuCount
        invariant nodeIndex <= t.pmuCount
        invariant forall j :: 0 <= j < nodeIndex ==> !NodeMatches(t.info[j], nodeType, key)
      {
        var entry := t.info[nodeIndex];
        if entry.nodeType == nodeType && entry.primaryInstance == key {
          return nodeIndex;
        }
        nodeIndex := nodeIndex + 1;
      }
      return PMU_INVALID_INDEX;
    }

    /** val_pmu_get_node_index: the memory-controller node of a proximity domain. The
        source scans the table without checking it exists, so a table is required. */
    method GetNodeIndex(proxDomain: u64) returns (index: u32)
      requires Valid() && infoTable.Some?
      ensures index != PMU_INVALID_INDEX ==>
                index < infoTable.value.pmuCount
                && NodeMatches(infoTable.value.info[index], PMU_NODE_MEM_CNTR, proxDomain)
                && forall j :: 0 <= j < index ==> !NodeMatches(infoTable.value.info[j], PMU_NODE_MEM_CNTR, proxDomain)
      ensures index == PMU_INVALID_INDEX <==>
                forall j :: 0 <= j < infoTable.value.pmuCount ==> !NodeMatches(infoTable.value.info[j], PMU_NODE_MEM_CNTR, proxDomain)
    {
      index := ScanNodes(PMU_NODE_MEM_CNTR, proxDomain);
    }

    /** val_pmu_get_index_acpiid: the ACPI-device node with the given ACPI identifier. */
    method GetIndexAcpiid(acpiId: u64) returns (index: u32)
      requires Valid() && infoTable.Some?
      ensures index != PMU_INVALID_INDEX ==>
                index < infoTable.value.pmuCount
                && NodeMatches(infoTable.value.info[index], PMU_NODE_ACPI_DEVICE, acpiId)
                && forall j :: 0 <= j < index ==> !NodeMatches(infoTable.value.info[j], PMU_NODE_ACPI_DEVICE, acpiId)
      ensures index == PMU_INVALID_INDEX <==>
                forall j :: 0 <= j < infoTable.value.pmuCount ==> !NodeMatches(infoTable.value.info[j], PMU_NODE_ACPI_DEVICE, acpiId)
    {
      index := ScanNodes(PMU_NODE_ACPI_DEVICE, acpiId);
    }

    /** val_pmu_cycle_counter_start. */
    method CycleCounterStart()
      requires Valid()
      modifies this`pmcrEl0, this`pmccfiltrEl0, this`pmcntensetEl0, this`controlRegBackup, this`ccFiltRegBackup
      ensures Valid()
      ensures SysRegState() == CycleCounterStarted(old(SysRegState()), layout)
    {
      var ccFiltReg := pmccfiltrEl0;
      ccFiltRegBackup := ccFiltReg;
      var controlReg := pmcrEl0;
      controlRegBackup := controlReg;
      ccFiltReg := Or64(ccFiltReg, Bit64(layout.pmccfiltrNshEnBit));
      pmccfiltrEl0 := ccFiltReg;
      var ccEnableSetReg := pmcntensetEl0;
      ccEnableSetReg := Or64(ccEnableSetReg, Bit64(layout.pmcntensetCEnBit));
      pmcntensetEl0 := ccEnableSetReg;
      controlReg := Or64(controlReg, Or64(Or64(Bit64(layout.pmcrLcEnBit), Bit64(layout.pmcrCResetBit)), Bit64(layout.pmcrEnBit)));
      pmcrEl0 := controlReg;
    }

    /** val_pmu_cycle_counter_stop. */
    method CycleCounterStop()
      requires Valid()
      modifies this`pmcrEl0, this`pmccfiltrEl0
      ensures Valid()
      ensures SysRegState() == CycleCounterStopped(old(SysRegState()))
    {
      pmcrEl0 := controlRegBackup;
      pmccfiltrEl0 := ccFiltRegBackup;
    }
  }
}
