# CoreSight PMU access layer (APMT) — a Dafny model

This project models the validation layer's access to Arm CoreSight
performance monitoring units (PMUs) described by the ACPI APMT, as
implemented in `val/src/acs_pmu.c`. It also models the record layout in
`pal/baremetal/base/include/pal_common_support.h`, together with that header's
PCIe BDF packing macros and its 8-byte align-up.

- `pal_common_support.dfy` (module `PalCommonSupport`) defines the following:
  - the fixed-width integer ranges;
  - `PMU_INFO_BLOCK` and `PMU_INFO_TABLE`, where a table holds exactly
    `pmu_count` records;
  - `PCIE_CREATE_BDF` and `PCIE_EXTRACT_BDF_*` on 32-bit vectors;
  - `ALIGN_MEMORY_ACCESS` with `BOUND = 8` on 64-bit vectors.
- `bitfield.dfy` (module `Bitfield`) covers the register bitfield reads and
  writes that every PMU register access goes through (`BITFIELD_READ`,
  `BITFIELD_WRITE`).
  - A 32-bit register value is a natural number below 2^32.
  - Its bits, least significant first, are `ToBits(v, 32)`.
  - A field is any run of bits `(shift, width)` inside the register.
  - Every lemma holds for every field position. The actual positions come
    from the register header, which is not part of this model.
- `acs_pmu.dfy` (module `AcsPmu`) covers the node table and its attribute
  query, the register-access engine, the counter reads, the reverse
  lookups and the AArch64 cycle-counter save and restore.
  - Memory-mapped I/O is a map from 64-bit address to 32-bit value. An
    address that was never written reads as 0.
  - Register offsets, field positions and system-register bit numbers are
    a `Layout` value. Every property is proved for every valid layout.
  - The pure parts of the C file are functions. The lemmas about them state
    what the source promises.
  - The state the C file mutates is the class `PmuLayer`. That state is the
    global table pointer, the memory-mapped registers, the three system
    registers and the two static backups.
  - Each `PmuLayer` method is proved to produce exactly the state that the
    corresponding function computes from the old state.
  - The table-building pass and the two lookups keep the source's loops,
    with their invariants.

C integer arithmetic is written out:
- `base + offset + REG_x` is two uint64_t additions that wrap at 2^64.
- `4 * mon_inst` and `8 * mon_inst` wrap at 2^32.
- `BITFIELD_READ(...) + 1` wraps at 2^32.
- The uint8_t result of `val_pmu_supports_dedicated_cycle_counter` is
  reduced modulo 256.

## Model

| member | source | states |
|---|---|---|
| PalCommonSupport.BdfExtractCreate | pal/baremetal/base/include/pal_common_support.h:54-75 | unpacking a BDF packed from byte-sized segment, bus, device and function gives back each component |
| PalCommonSupport.BdfCreateExtract | pal/baremetal/base/include/pal_common_support.h:54-75 | packing the four components unpacked from any 32-bit BDF gives the BDF back |
| PalCommonSupport.BdfComponentsFitInByte | pal/baremetal/base/include/pal_common_support.h:54-57 | every unpacked component is below 256 |
| PalCommonSupport.BdfCreateInjective | pal/baremetal/base/include/pal_common_support.h:54-75 | two packings of byte-sized components are equal only if all four components are equal |
| PalCommonSupport.AlignMemoryAccessAligned | pal/baremetal/base/include/pal_common_support.h:639-641 | the aligned address is a multiple of 8 |
| PalCommonSupport.AlignMemoryAccessRoundsUp | pal/baremetal/base/include/pal_common_support.h:639-641 | when the address does not wrap, the aligned address is at least `b` and less than `b + 8` |
| PalCommonSupport.AlignMemoryAccessKeepsAligned | pal/baremetal/base/include/pal_common_support.h:639-641 | an address that is already 8-aligned is unchanged |
| PalCommonSupport.AlignMemoryAccessIdempotent | pal/baremetal/base/include/pal_common_support.h:639-641 | aligning twice gives the same result as aligning once |
| PalCommonSupport.AlignMemoryAccessLeast | pal/baremetal/base/include/pal_common_support.h:639-641 | the aligned address is the least multiple of 8 that is not below `b` |
| PalCommonSupport.WithEntry | pal/baremetal/base/include/pal_common_support.h:787-790 | replacing one record keeps the count and the other records, and the table still holds exactly `pmu_count` records |
| Bitfield.ExtractInsertSame | val/src/acs_pmu.c:336-338 | reading a field after writing a value that fits in it gives that value back |
| Bitfield.ExtractInsertOther | val/src/acs_pmu.c:372-374 | writing one field leaves every disjoint field's value unchanged |
| Bitfield.InsertBits | val/src/acs_pmu.c:354-356 | after a field write, each bit inside the field is the new value's bit and each bit outside it is the old register's bit |
| Bitfield.InsertOutside | val/src/acs_pmu.c:336-338 | a field write leaves every register bit outside the field unchanged |
| Bitfield.InsertExtract | val/src/acs_pmu.c:336-338 | writing back the value just read from a field leaves the register unchanged |
| Bitfield.InsertInsert | val/src/acs_pmu.c:336-338 | of two writes to the same field, the second one wins |
| Bitfield.Pow2Bits | val/src/acs_pmu.c:472 | `1 << k` has bit k set and no other bit |
| Bitfield.OrBits | val/src/acs_pmu.c:115 | a bit of the OR of `a` and `b` is set exactly when it is set in `a` or in `b` |
| AcsPmu.AsWrittenCheckAdmitsEnd | val/src/acs_pmu.c:258-263 | the index check as written accepts `node_index == pmu_count`, which names no record |
| AcsPmu.IndexInRangeExact | val/src/acs_pmu.c:258-263 | the corrected check accepts exactly the indices of existing records, and each of them is also accepted by the written check |
| AcsPmu.GetInfo | val/src/acs_pmu.c:249-286 | the result is 0 when there is no table and 0 for an index that names no record |
| AcsPmu.GetInfoOfEntry | val/src/acs_pmu.c:263-285 | for a valid index, each selector returns the matching field of that node's record, the count selector returns `pmu_count`, and an unsupported selector returns 0 |
| AcsPmu.SetCompliant | val/src/acs_pmu.c:204-220 | the table stays well formed and stays present or absent, and nothing changes when there is no table or the index is bad |
| AcsPmu.SetCompliantOnlyThatFlag | val/src/acs_pmu.c:218-219 | only `coresight_compliant` of the named record changes, every other record is unchanged, and the query then returns the flag |
| AcsPmu.SetCompliantKeepsOtherAttributes | val/src/acs_pmu.c:204-220 | every attribute query other than this node's compliance flag gives the same answer after the flag is set |
| AcsPmu.Classified | val/src/acs_pmu.c:182-195 | the classification pass keeps the count and the number of records |
| AcsPmu.ClassifiedFlag | val/src/acs_pmu.c:187-192 | after classification a node's flag is 1 exactly when PMDEVARCH.ARCHITECT at `base0 + REG_PMDEVARCH` is 0x23B, and 0 otherwise; no other field of the record changes |
| AcsPmu.SupportsDedicatedCycleCounterIsCc | val/src/acs_pmu.c:294-301 | with a CC field of at most 8 bits, the uint8_t result is PMCFGR.CC itself |
| AcsPmu.MonitorCountByCycleCounter | val/src/acs_pmu.c:309-321 | the monitor count is PMCFGR.N when CC is 1 and PMCFGR.N + 1 when CC is 0 |
| AcsPmu.MonitorGroupCountExact | val/src/acs_pmu.c:383-391 | the group count is PMCFGR.NCG + 1 without wrap-around, so it is at least 1 |
| AcsPmu.MaxMonitorSize | val/src/acs_pmu.c:399-406 | for a valid index the result is PMCFGR.SIZE of the register at the node's `base0 + REG_PMCFGR`, and it fits in that field |
| AcsPmu.ImplementsPmscr | val/src/acs_pmu.c:571-578 | for a valid index the result is PMSCR.IMPL of the register at the node's `base0 + REG_PMSCR_L`, and it fits in that field |
| AcsPmu.IsSecure | val/src/acs_pmu.c:587-598 | the result is PMSCR.NSRA when PMSCR is implemented, and it is non-zero only if PMSCR is implemented |
| AcsPmu.NoTableReadsAtZero | val/src/acs_pmu.c:253-256 | without a table the base address is 0, so every page-0 field read goes to the register at the bare offset |
| AcsPmu.WritePmcrFieldEffect | val/src/acs_pmu.c:336-338 | the PMCR read-modify-write stores the value in the field, keeps every other PMCR bit and leaves every other address unchanged |
| AcsPmu.WritePmcrFieldKeepsOther | val/src/acs_pmu.c:372-374 | the PMCR read-modify-write keeps every field disjoint from the one written |
| AcsPmu.DisableAllEffect | val/src/acs_pmu.c:329-339 | disable-all makes PMCR.E 0 and keeps PMCR.P, every other PMCR bit and every other register |
| AcsPmu.EnableAllEffect | val/src/acs_pmu.c:347-357 | enable-all makes PMCR.E 1 and keeps PMCR.P, every other PMCR bit and every other register |
| AcsPmu.ResetAllEffect | val/src/acs_pmu.c:365-375 | reset-all makes PMCR.P 1 and keeps PMCR.E, every other PMCR bit and every other register |
| AcsPmu.ConfigureRejectsUnsupportedEvent | val/src/acs_pmu.c:430-438 | for an unsupported event the status is 1, the only change is the disable-all write (so PMCR.E is 0), and the monitor's PMEVTYPER is not written |
| AcsPmu.ConfigureProgramsSupportedEvent | val/src/acs_pmu.c:440-449 | for a supported event the status is 0, the event id is in PMEVTYPER at `base0 + 4*mon_inst`, and PMCR ends with both E and P set |
| AcsPmu.ConfigureSupportedKeepsRest | val/src/acs_pmu.c:440-447 | for a supported event, no register other than the monitor's PMEVTYPER and PMCR changes |
| AcsPmu.ConfigureSupportedKeepsPmcr | val/src/acs_pmu.c:430-447 | for a supported event (PMEVTYPER not being PMCR), every PMCR bit outside E and P keeps its old value |
| AcsPmu.MonitorSelectDecodes | val/src/acs_pmu.c:469-470 | the word offset is word-aligned, the bit is below 32, and the monitor number is recovered from the two |
| AcsPmu.MonitorSelectInjective | val/src/acs_pmu.c:469-470 | two distinct monitors never share a word and a bit |
| AcsPmu.MonitorMaskOneBit | val/src/acs_pmu.c:472 | the value written to select a monitor has exactly that monitor's bit set |
| AcsPmu.MonitorSelectExample | val/src/acs_pmu.c:469-472 | monitor 35 is bit 3 of the word at offset 4 |
| AcsPmu.EnableMonitorEffect | val/src/acs_pmu.c:459-473 | enable writes only the monitor's PMCNTENSET word, and that word has only the monitor's bit set |
| AcsPmu.DisableMonitorResets | val/src/acs_pmu.c:495-498 | after disabling a monitor, PMCR.P is set |
| AcsPmu.DisableMonitorKeepsRest | val/src/acs_pmu.c:492-498 | disabling a monitor changes no register other than its PMCNTENCLR word and PMCR, and (when the two differ) keeps PMCR.E and every PMCR bit outside P |
| AcsPmu.DisableMonitorClearWord | val/src/acs_pmu.c:492-495 | after disabling a monitor, its PMCNTENCLR word holds the monitor's bit (unless that word is PMCR itself) |
| AcsPmu.CounterPageOfEntry | val/src/acs_pmu.c:514-518 | counters are read from `base1` exactly when the node's dual-page flag is non-zero, and from `base0` otherwise; in particular from `base1` when the flag is 1, the one case in which `base1` is meaningful |
| AcsPmu.ReadCountIgnoresBase1 | val/src/acs_pmu.c:514-518 | for a node without the dual-page flag, the count of every monitor does not depend on `base1` |
| AcsPmu.Compose64Splits | val/src/acs_pmu.c:527-528 | the composed 64-bit count has the high word as its upper 32 bits and the low word as its lower 32 bits |
| AcsPmu.ReadCountWide | val/src/acs_pmu.c:525-528 | when PMCFGR.SIZE is above 0b011111, the count's upper and lower halves are `PMEVCNTR_H` and `PMEVCNTR_L` at stride 8 on the counter page |
| AcsPmu.ReadCountNarrow | val/src/acs_pmu.c:530-533 | otherwise the count is the single `PMEVCNTR` word at stride 4, so it is below 2^32 |
| AcsPmu.FindNode | val/src/acs_pmu.c:549-559 | the result is the least index of a record with the given type and primary instance, or none when no record matches |
| AcsPmu.InvalidIndexIsNoNode | val/src/acs_pmu.c:559 | `PMU_INVALID_INDEX` never names a record, so "not found" cannot be mistaken for a node |
| AcsPmu.LookupExample | val/src/acs_pmu.c:544-559 | in a two-node table (memory controller with domain 3, ACPI device with id 7), lookup(3) is 0, lookup(5) is invalid and the ACPI lookup of 7 is 1 |
| AcsPmu.CIntShiftBit31SignExtends | val/src/acs_pmu.c:121 | the int `1 << 31`, widened for the uint64_t OR, is 0xFFFF_FFFF_8000_0000 rather than the single bit 31 |
| AcsPmu.Bit64OneBit | val/src/acs_pmu.c:115-126 | the corrected mask `1ULL << n` has exactly bit n set, and it agrees with the int shift for n below 31 |
| AcsPmu.CycleCounterStartedBits | val/src/acs_pmu.c:98-130 | with the corrected 64-bit masks, start sets the EL2 filter bit, the cycle-counter enable bit and PMCR's LC, C and E bits, and keeps every other bit of the three registers |
| AcsPmu.StartStopRestores | val/src/acs_pmu.c:139-153 | stop after start restores PMCR_EL0 and PMCCFILTR_EL0 to their values before start, whatever came in between, as long as the backups were untouched; PMCNTENSET is not restored |
| AcsPmu.SecondStartLosesSnapshot | val/src/acs_pmu.c:106-112 | a second start overwrites the backups, so the following stop leaves PMCR with its enable bit set even when it was clear before the first start |
| AcsPmu.PmuLayer.constructor | val/src/acs_pmu.c:26-29 | the layer starts with no table and zero backups |
| AcsPmu.PmuLayer.CreateInfoTable | val/src/acs_pmu.c:164-198 | a NULL buffer changes nothing; otherwise the table becomes the produced table with every node classified |
| AcsPmu.PmuLayer.SetNodeCoresightCompliant | val/src/acs_pmu.c:204-220 | the table becomes `SetCompliant` of the old table |
| AcsPmu.PmuLayer.FreeInfoTable | val/src/acs_pmu.c:226-237 | afterwards the table pointer is NULL |
| AcsPmu.PmuLayer.DisableAllMonitors | val/src/acs_pmu.c:329-339 | the registers become `DisableAll` of the old registers |
| AcsPmu.PmuLayer.EnableAllMonitors | val/src/acs_pmu.c:347-357 | the registers become `EnableAll` of the old registers |
| AcsPmu.PmuLayer.ResetAllMonitors | val/src/acs_pmu.c:365-375 | the registers become `ResetAll` of the old registers |
| AcsPmu.PmuLayer.ConfigureMonitor | val/src/acs_pmu.c:417-450 | the status and the registers are the outcome that `Configure` computes |
| AcsPmu.PmuLayer.EnableMonitor | val/src/acs_pmu.c:459-473 | the registers become `EnableMonitorWrite` of the old registers |
| AcsPmu.PmuLayer.DisableMonitor | val/src/acs_pmu.c:482-499 | the registers become `DisableMonitorWrite` of the old registers |
| AcsPmu.PmuLayer.ScanNodes | val/src/acs_pmu.c:549-557 | the scan returns the first matching index, or `PMU_INVALID_INDEX` when no record matches |
| AcsPmu.PmuLayer.GetNodeIndex | val/src/acs_pmu.c:544-560 | a returned index is the least one whose record is a memory controller with the given proximity domain, and the invalid index is returned exactly when there is none |
| AcsPmu.PmuLayer.GetIndexAcpiid | val/src/acs_pmu.c:638-654 | a returned index is the least one whose record is an ACPI device with the given ACPI id, and the invalid index is returned exactly when there is none |
| AcsPmu.PmuLayer.CycleCounterStart | val/src/acs_pmu.c:98-130 | the system registers and backups become `CycleCounterStarted` of the old ones |
| AcsPmu.PmuLayer.CycleCounterStop | val/src/acs_pmu.c:139-153 | the system registers become `CycleCounterStopped` of the old ones |

## Left out

- `val_pmu_reg_read` and `val_pmu_reg_write` (val/src/acs_pmu.c:37-89) are dispatchers to system-register intrinsics. PMCR_EL0, PMCCFILTR_EL0 and PMCNTENSET_EL0 are plain fields of `PmuLayer`. The re-reads after each write in `val_pmu_cycle_counter_start` have no effect on these fields and are not modelled.
- `val_print`, `val_mmu_update_entry` and `pal_mem_free_aligned` are left out for these reasons:
  - `val_print` is output;
  - `val_mmu_update_entry` only changes the page mapping;
  - `pal_mem_free_aligned` is a memory release. Freeing is modelled only as the pointer becoming NULL.
- `pal_pmu_create_info_table` and `pal_pmu_get_event_info` are platform code outside this model:
  - the table that `pal_pmu_create_info_table` fills in is the `produced` parameter of `CreateInfoTable`;
  - `pal_pmu_get_event_info` is the `eventInfo` function parameter of `Configure`.
- `val_pmu_check_monitor_count_value`, `val_generate_traffic` and `val_pmu_get_multi_traffic_support_interface` (val/src/acs_pmu.c:609-613, 625-629, 663-667) are one-line forwards to platform traffic code. They are not modelled.
- The caller's buffer in `val_pmu_create_info_table` is modelled only as NULL or not.
- Hardware side effects are not modelled. Memory-mapped registers are passive: PMCR.P does not clear itself, counters do not count, and an address that was never written reads as 0.
- `acs_pmu_reg.h` is not part of this model. The following are all taken as the `Layout` parameter, and only assumed to be well formed:
  - the register offsets;
  - the positions and widths of the PMCFGR, PMCR, PMDEVARCH and PMSCR fields;
  - the bit numbers in PMCCFILTR_EL0, PMCNTENSET_EL0 and PMCR_EL0.
- The values of `PMU_INVALID_INDEX` and `PMU_EVENT_INVALID`, and the node-type codes for memory controller and ACPI device, are defined in headers that are not part of this model. They are taken from the APMT encoding and the all-ones convention.
- Only the `TARGET_BM_BOOT` variant of `ALIGN_MEMORY_ACCESS` is modelled. The other build leaves the address unchanged.
- `MonitorMask`: `1 << bit_offset` for bit 31 overflows a C int but is passed as a uint32_t. The model takes its value to be 0x8000_0000.
- Register values are natural numbers below 2^32 or 2^64, and bitfield access works through their bit sequences rather than through machine bit-vectors. The BDF and align-up macros do use bit-vectors.
- `val_pmu_get_node_index` and `val_pmu_get_index_acpiid` dereference the table pointer without checking it. The two methods therefore require a table.
- GetInfo: models the corrected index check (`node_index < pmu_count`) of the first Findings row, not the written `node_index > pmu_count`. The written check would go on to read `info[pmu_count]`, a record past the end of the table that the model has no value for.
- SetCompliant: models the same corrected check. The written code would store the flag in `info[pmu_count]`, past the end of the table.
- PmuLayer.SetNodeCoresightCompliant: models the same corrected check, since its contract is `SetCompliant`.
- CycleCounterStarted: builds every mask as the 64-bit shift `1ULL << n`, the corrected mask of the second Findings row. The written code uses int shifts, which for bit 31 also set bits 32..63 of the register.
- PmuLayer.CycleCounterStart: uses the same corrected 64-bit masks as `CycleCounterStarted`.
- CycleCounterStartedBits: "keeps every other bit" holds for the corrected masks. With the written int shift and PMCNTENSET_EL0.C at bit 31, start would also set bits 32..63 of PMCNTENSET_EL0.
- Layout: the system-register bit numbers are required to be below 32, since the source shifts an int by them and a larger shift is undefined in C.
- MonitorCountByCycleCounter: stated for a one-bit CC field and an N field narrower than 32 bits. For a 32-bit N field the uint32_t `N + 1` can wrap to 0, and the function models that wrap.
- MonitorGroupCountExact: stated for an NCG field narrower than 32 bits, for the same reason.
- SupportsDedicatedCycleCounterIsCc: stated for a CC field of at most 8 bits. A wider field is truncated to its low byte, as the function models.
- AlignMemoryAccessRoundsUp: stated only for addresses that do not wrap past 2^64.
- `ReadCountWide` states the 64-bit count through its upper and lower halves. No bit-level lemma for the shift-and-OR is given.

## Findings

| source | as written | input that shows it | evidently intended | confidence | as-written member | corrected member |
|---|---|---|---|---|---|---|
| val/src/acs_pmu.c:213, val/src/acs_pmu.c:258 | the index check rejects only `node_index > pmu_count` | `node_index == pmu_count` is accepted, and `info[pmu_count]` is then read (or written) one past the last record | reject `node_index >= pmu_count` | high, not executed | AcsPmu.AsWrittenCheckAdmitsEnd | AcsPmu.IndexInRangeExact |
| val/src/acs_pmu.c:121 | the PMCNTENSET_EL0 mask is `1 << PMCNTENSET_C_EN_BIT`, an int shift | with the architectural bit number 31, the int `1 << 31` is negative and widens to 0xFFFF_FFFF_8000_0000, setting bits 31..63 of PMCNTENSET_EL0 | `1ULL << 31`, which sets bit 31 only | medium (the bit number is in a header that is not part of this model), not executed | AcsPmu.CIntShiftBit31SignExtends | AcsPmu.Bit64OneBit |
