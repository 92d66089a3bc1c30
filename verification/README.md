# Marvell MVEBU coherency fabric, in Dafny

This project models the boot-time support for the hardware coherency fabric of
the Marvell Armada 370/XP, 375 and 380 SoCs (`arch/arm/mach-mvebu/coherency.c`),
together with two related pieces of the Armada 375 platform: SMP bring-up
(`platsmp-375.c`) and machine setup (`armada-375.c`).

- `kernel.dfy` (module `Kernel`) holds the shared vocabulary. Addresses are `nat` and `NULL` is 0. It also defines the outcome of a step that may `panic` or `BUG`, and `HwEvent`, one constructor per hardware access or kernel service call the code makes. `Log` is the ordered record of those events.
- `device_tree.dfy` (module `DeviceTree`) holds the device tree as a sequence of nodes in all-nodes order. It defines the lookups the code uses: `of_find_matching_node`, `of_find_node_by_name`, `of_iomap` and `of_address_to_resource`. The result of `of_get_child_count` is the node field `childCount`.
- `coherency.dfy` (module `Coherency`) covers the following:
  - fabric classification against `of_coherency_table`;
  - the four globals as the class `Fabric`;
  - `coherency_init` and its three per-fabric paths, proved against the specification functions `AfterInit` and `InitEvents`;
  - `set_cpu_coherent`;
  - the I/O sync barrier as a write followed by a spin loop over the values the register returns;
  - the DMA map, unmap and sync hooks and their direction filter;
  - the `mvebu_hwcc_dma_ops` table;
  - the bus notifier and the two initcalls that register it.
- `platsmp_375.dfy` (module `PlatSmp375`) holds the possible and present CPU masks as arrays (class `CpuMasks`), filled by loops. It also models the secondary-CPU boot sequence.
- `armada_375.dfy` (module `Armada375`) covers the following:
  - SCU enable;
  - the memory type forced on mappings of the PCIe memory aperture;
  - the one-shot "ignore the first external abort" handler as a class with its static flag;
  - the order of `armada_375_timer_and_clk_init`.

Hardware behaviour that the code only observes is a parameter:

- the values `readl` returns from the barrier register;
- what `ll_enable_coherency` and `mvebu_mbus_dt_init` return;
- the virtual addresses `ioremap` hands out.

Two facts about the code shape the model:

- Only the 370/XP path assigns `coherency_base` (coherency.c:159). So `set_cpu_coherent` after a 375 or 380 initialisation returns 1.
- `mvebu_hwcc_dma_ops` replaces `map_page`, `unmap_page` and the two single-buffer syncs (coherency.c:115-129). `alloc` and `free` become `arm_coherent_dma_alloc` and `arm_coherent_dma_free`.

## Model

| member | source | states |
|---|---|---|
| `DeviceTree.FindMatchingNode` | arch/arm/mach-mvebu/coherency.c:178 | The node found is the first in tree order that is compatible with some table string. None means no node is. |
| `DeviceTree.FindNodeByName` | arch/arm/mach-mvebu/platsmp-375.c:49 | The node found is the first in tree order that carries the name. None means no node does. |
| `Coherency.MatchNode` | arch/arm/mach-mvebu/coherency.c:180-181 | It returns the position of the first entry in table order that names one of the node's compatible strings; no earlier entry names one. None means no entry does. |
| `Coherency.CoherencyType` | arch/arm/mach-mvebu/coherency.c:174-193 | `coherency_type()`: the range-checked tag of the first fabric node in tree order. It has no ensures of its own; its properties are stated by `MatchNode`, `ClassifyCompatible`, `OneNodeTree`, `MatchIffCompatible` and `MatchedNodeHasFabricKind`. |
| `Coherency.ClassifyCompatible` | arch/arm/mach-mvebu/coherency.c:55-65 | A fabric node whose only compatible string is one of the two legacy strings gets the 370/XP kind. The 375 and 380 strings give their own kinds. Every other string gives NONE. With `OneNodeTree`, this is also the `coherency_type` of a tree holding just that node. |
| `Coherency.MatchIffCompatible` | arch/arm/mach-mvebu/coherency.c:178-181 | `of_match_node` finds an entry exactly when the node is compatible with one of the table's strings. So the second lookup in `coherency_type` never fails after the first one succeeded. |
| `Coherency.MatchedNodeHasFabricKind` | arch/arm/mach-mvebu/coherency.c:183-189 | When every table entry carries a fabric tag, a node that matches the table gets a fabric kind, never NONE. |
| `Coherency.OneNodeTree` | arch/arm/mach-mvebu/coherency.c:174-193 | A tree with a single node gets that node's kind. |
| `Coherency.EntryKind` | arch/arm/mach-mvebu/coherency.c:55-65 | A node whose only string is that of entry k gets entry k's tag. No earlier entry shadows it. |
| `Coherency.UnknownKind` | arch/arm/mach-mvebu/coherency.c:174-193 | A node whose only string no entry names gets NONE. |
| `Coherency.AvailableIffFabricNode` | arch/arm/mach-mvebu/coherency.c:195-198 | `coherency_available()` holds exactly when some node of the tree is compatible with a table string. |
| `Coherency.CoherencyAvailable` | arch/arm/mach-mvebu/coherency.c:195-198 | `coherency_available()`: the fabric kind is not NONE. It has no ensures of its own; `AvailableIffFabricNode` states what it means. |
| `Coherency.InitSetsHardMode` | arch/arm/mach-mvebu/coherency.c:200-220 | After init, `coherency_hard_mode` equals `coherency_available()`. Off the 370/XP path, `coherency_base` and `coherency_phys_base` are unchanged. With no fabric, `coherency_cpu_base` is unchanged too. |
| `Coherency.LaterJoinFailsOn375And380` | arch/arm/mach-mvebu/coherency.c:164-172 | After a 375 or 380 init from zeroed globals, `coherency_base` is NULL. A later join then performs no hardware operation. |
| `Coherency.LegacyEventsOrder` | arch/arm/mach-mvebu/coherency.c:147-162 | In the 370/XP event sequence, the write-back comes first and both mappings follow it. "Add to SMP group" comes before "enable coherency". |
| `Coherency.LegacyInitOrder` | arch/arm/mach-mvebu/coherency.c:147-162 | On the 370/XP path, the write-back of the physical base comes first, before any window is mapped. "Add to SMP group" precedes "enable coherency". |
| `Coherency.OnlyLegacyPathJoins` | arch/arm/mach-mvebu/coherency.c:147-172 | Only the 370/XP path writes the physical base back or joins the CPU. The 375 and 380 paths do one thing only: map window 0 into `coherency_cpu_base`. |
| `Coherency.Fabric.constructor` | arch/arm/mach-mvebu/coherency.c:33-36 | The globals start as false, 0, NULL and NULL. |
| `Coherency.Fabric.SetCpuCoherent` | arch/arm/mach-mvebu/coherency.c:71-81 | With `coherency_base` NULL, it returns 1 and adds no event. Otherwise it adds "add to SMP group" and then "enable coherency", and returns the enable result. |
| `Coherency.Fabric.Armada370CoherencyInit` | arch/arm/mach-mvebu/coherency.c:147-162 | It sets the physical base, `coherency_base` (window 0) and `coherency_cpu_base` (window 1). Events: write-back, map 0, map 1, then the join events. |
| `Coherency.Fabric.Armada375CoherencyInit` | arch/arm/mach-mvebu/coherency.c:164-167 | Only `coherency_cpu_base` changes, to window 0. One mapping event. |
| `Coherency.Fabric.Armada380CoherencyInit` | arch/arm/mach-mvebu/coherency.c:169-172 | Only `coherency_cpu_base` changes, to window 0. One mapping event. |
| `Coherency.Fabric.CoherencyInit` | arch/arm/mach-mvebu/coherency.c:200-220 | It returns 0. The new globals are `AfterInit(t, old globals)`, and the events are `InitEvents(t)`. |
| `Coherency.JoinAfterInit` | arch/arm/mach-mvebu/coherency.c:71-81 | After init on a fresh machine, a join returns 1 unless the fabric is 370/XP with window 0 mapped. In that case it returns the enable result. |
| `Coherency.FirstClear` | arch/arm/mach-mvebu/coherency.c:86 | The spin loop stops at the first read whose bit 0 is clear. Every earlier read had bit 0 set. |
| `Coherency.BarrierShape` | arch/arm/mach-mvebu/coherency.c:83-87 | The barrier writes 1 to the barrier register exactly once and first. Only reads of that register follow. The last read shows bit 0 clear, and every earlier read showed it set. |
| `Coherency.Fabric.SyncIoBarrier` | arch/arm/mach-mvebu/coherency.c:83-87 | The loop's events are exactly `BarrierEvents` of the per-CPU register and the register's responses. |
| `Coherency.DirectionFilter` | arch/arm/mach-mvebu/coherency.c:94-112 | For `DMA_TO_DEVICE`, a hook touches no register. For any other direction it triggers the barrier exactly once. |
| `Coherency.Fabric.DmaMapPage` | arch/arm/mach-mvebu/coherency.c:89-97 | The handle is `pfn_to_dma(page) + offset` in every direction. The events are the direction-filtered barrier. |
| `Coherency.Fabric.DmaUnmapPage` | arch/arm/mach-mvebu/coherency.c:100-106 | The events are the direction-filtered barrier. |
| `Coherency.Fabric.DmaSync` | arch/arm/mach-mvebu/coherency.c:108-113 | The events are the direction-filtered barrier. |
| `Coherency.CallRunsBarrier` | arch/arm/mach-mvebu/coherency.c:115-129 | A call through the hwcc table runs the barrier exactly when the operation is `map_page`, `unmap_page` or a single-buffer sync and the direction is not `DMA_TO_DEVICE`. |
| `Coherency.HwccDmaOps` | arch/arm/mach-mvebu/coherency.c:115-129 | The `mvebu_hwcc_dma_ops` table, one entry per operation. It has no ensures of its own; `CallRunsBarrier` states which entries run the barrier. |
| `Coherency.PlatformNotifier` | arch/arm/mach-mvebu/coherency.c:131-141 | It returns `NOTIFY_OK` exactly for `BUS_NOTIFY_ADD_DEVICE`, and then the device gets the hwcc operations. Any other event returns `NOTIFY_DONE` and leaves the device as it was. |
| `Coherency.NotifierIdempotent` | arch/arm/mach-mvebu/coherency.c:131-141 | Delivering the same event again changes nothing further. |
| `Coherency.AddedDeviceIntercepted` | arch/arm/mach-mvebu/coherency.c:222-240 | A device added on a bus gets the hwcc operations exactly when coherency is available, or when it already had them. Its identity is kept. |
| `Coherency.CoherencyLateInit` | arch/arm/mach-mvebu/coherency.c:222-228 | It registers the notifier on the platform bus exactly when coherency is available, and returns 0. |
| `Coherency.CoherencyPciNotifyInit` | arch/arm/mach-mvebu/coherency.c:232-238 | It registers the notifier on the PCI bus exactly when coherency is available, and returns 0. |
| `PlatSmp375.ClippedCount` | arch/arm/mach-mvebu/platsmp-375.c:58-63 | The clipped count is at most `nr_cpu_ids` and at most `ncores`, and it equals one of the two. |
| `PlatSmp375.MarkPrefix` | arch/arm/mach-mvebu/platsmp-375.c:65-66 | Entry k is set exactly when k < n or it was already set. The length is unchanged. |
| `PlatSmp375.PossibleCount` | arch/arm/mach-mvebu/platsmp-375.c:57-66 | From an empty mask, exactly min(ncores, `nr_cpu_ids`) CPUs are possible. The bound of at most `nr_cpu_ids` follows from the mask's length alone; that no index at or above `nr_cpu_ids` is written is the array bound in `SmpInitCpus`. |
| `PlatSmp375.CpuMasks.SmpInitCpus` | arch/arm/mach-mvebu/platsmp-375.c:44-67 | With no "cpus" node, or a child count of 0 or above `ARMADA_375_MAX_CPUS`, it panics with the source's message and leaves the mask unchanged. Otherwise the possible mask is the old one with CPUs 0 to min(ncores, `nr_cpu_ids`) − 1 set. |
| `PlatSmp375.CpuMasks.SmpPrepareCpus` | arch/arm/mach-mvebu/platsmp-375.c:69-75 | The present mask is the old one with exactly CPUs 0 to max − 1 set. |
| `PlatSmp375.BootSecondary` | arch/arm/mach-mvebu/platsmp-375.c:26-38 | The events are, in order: set the boot address, `mvebu_boot_cpu(cpu)`, then the wake-up IPI to {cpu}. It returns 0. |
| `Armada375.ScuEnabledIffNode` | arch/arm/mach-mvebu/armada-375.c:35-49 | The SCU is enabled, once, exactly when some node is compatible with "arm,cortex-a9-scu". |
| `Armada375.EnableScu` | arch/arm/mach-mvebu/armada-375.c:40-49 | The events are `ScuEvents`: one `scu_enable` at window 0 of the first SCU node, or none. |
| `Armada375.AsWrittenInsideAperture` | arch/arm/mach-mvebu/armada-375.c:57-62 | The as-written test gives `MT_MEMORY_SO` when `start <= phys` and `phys + size <= end`. A mapping that starts below the aperture keeps the caller's type. |
| `Armada375.IoremapMtypeAsWritten` | arch/arm/mach-mvebu/armada-375.c:57-62 | The range test as written, with `phys_addr + size` in 32 bits against the inclusive end. It has no ensures of its own; `AsWrittenInsideAperture`, `AsWrittenMissesLastPage` and `AsWrittenWrapForcesSo` state its behaviour. |
| `Armada375.AsWrittenMissesLastPage` | arch/arm/mach-mvebu/armada-375.c:59 | A page at the top of the aperture keeps the caller's type under the as-written test. |
| `Armada375.AsWrittenWrapForcesSo` | arch/arm/mach-mvebu/armada-375.c:59 | Under the as-written test, the top megabyte of the 32-bit space wraps `phys + size` to 0 and is forced to `MT_MEMORY_SO`. |
| `Armada375.IoremapMtypeCoversMapping` | arch/arm/mach-mvebu/armada-375.c:59-60 | The corrected test gives `MT_MEMORY_SO` exactly when every byte of a non-empty mapping lies in the aperture, or the caller asked for it. |
| `Armada375.CorrectedAgreesAwayFromBoundary` | arch/arm/mach-mvebu/armada-375.c:59-60 | The corrected and as-written tests agree when the sum does not wrap and the mapping does not end on the aperture's last byte. |
| `Armada375.IoremapCaller` | arch/arm/mach-mvebu/armada-375.c:51-63 | With the corrected range test, it passes address, size and caller on unchanged. The type is `MT_MEMORY_SO` exactly for mappings that lie wholly inside the aperture. Every other mapping keeps the caller's type. |
| `Armada375.AbortsAfterFlagReported` | arch/arm/mach-mvebu/armada-375.c:77-82 | Once the flag is set, every abort returns 1 and none is ignored. |
| `Armada375.OnlyFirstAbortIgnored` | arch/arm/mach-mvebu/armada-375.c:72-83 | From boot, the first abort returns 0 and every later one returns 1. Of n aborts, exactly min(n, 1) are ignored. |
| `Armada375.ExternalAbortWa.Handle` | arch/arm/mach-mvebu/armada-375.c:72-83 | It returns 0 when the flag was clear and 1 otherwise. The flag is set afterwards. The replies so far stay those of `OnlyFirstAbortIgnored`. |
| `Armada375.TimerAndClkInit` | arch/arm/mach-mvebu/armada-375.c:85-97 | The order is: clocks, clocksource, SCU, MBus init (told whether coherency is available), the ioremap hook, the PCI memory type, `coherency_init`, L2 init and the abort hook. A failing MBus init is a BUG that stops before `coherency_init`, with the globals unchanged. |

## Findings

| source | as written | input that shows it | evidently intended | confidence | as-written member | corrected member |
|---|---|---|---|---|---|---|
| arch/arm/mach-mvebu/armada-375.c:59 | `(phys_addr + size) <= pcie_mem.end` compares an exclusive end with the inclusive `end` of a `struct resource` | aperture 0xE000_0000..0xE7FF_FFFF, `phys_addr` 0xE7FF_F000, `size` 0x1000: the page lies inside the aperture but keeps the caller's type | force `MT_MEMORY_SO` whenever every byte of the mapping is in the aperture (`phys + size <= end + 1`) | medium; not executed | `Armada375.AsWrittenMissesLastPage` | `Armada375.IoremapMtypeCoversMapping` |
| arch/arm/mach-mvebu/armada-375.c:59 | `phys_addr + size` is computed in 32-bit `unsigned long` and can wrap | same aperture, `phys_addr` 0xFFF0_0000, `size` 0x10_0000: the sum wraps to 0, and the mapping is forced to `MT_MEMORY_SO` although it lies outside the aperture | compare the end of the mapping without wrap-around | medium; not executed | `Armada375.AsWrittenWrapForcesSo` | `Armada375.IoremapMtypeCoversMapping` |

`Armada375.IoremapCaller` uses the corrected test (`IoremapMtype`). `IoremapMtypeAsWritten` keeps the test exactly as written.

## Left out

- Concurrency is not modelled. This includes several CPUs polling the shared barrier register at once, and the real secondary-CPU wake-up. Boot runs single-threaded.
- The barrier's spin loop is unbounded in the source. The model takes the register's successive values as a parameter and requires that one of them has bit 0 clear. Liveness itself is not modelled.
- The assembly routines `ll_add_cpu_to_smp_group` and `ll_enable_coherency` are not part of this model. They are recorded events, and the enable result is a parameter.
- The same holds for the other kernel services the code calls; each is a recorded event:
  - `sync_cache_w`, `of_iomap` and `bus_register_notifier`;
  - `scu_enable`, `mvebu_clocks_init`, `clocksource_of_init`, `mvebu_mbus_dt_init`, `l2x0_of_init` and `hook_fault_code`;
  - `armada_375_set_bootaddr`, `mvebu_boot_cpu` and `arch_send_wakeup_ipi_mask`.
- `pfn_to_dma(dev, page_to_pfn(page))` is a parameter of `DmaMapPage`. The `arm_*` DMA helpers in the hwcc table are named only. Their behaviour is not part of this model.
- `pr_warn` messages are I/O and are not modelled.
- Device-tree lookups are modelled as first-match searches over a node sequence. `of_match_node` takes the first table entry in table order. Name comparison is exact; the kernel's case-insensitive `of_node_cmp` is not modelled. Compatible strings are also compared exactly; the kernel's case-insensitive `of_compat_cmp` is not modelled, so `ClassifyCompatible`'s NONE case holds for strings that differ from the table's only under exact comparison. Only `compatible` strings take part in matching.
- `of_address_to_resource` may fail on a node without a `reg` entry, and the source ignores that failure. The model then stores 0 in `coherency_phys_base`, where the source reads an uninitialised value.
- `Coherency.Fabric.DmaMapPage`: the handle is an unbounded sum, so a wrap of `dma_addr_t` is not modelled. `map_page` uses `dev` only through `pfn_to_dma`, which is the parameter `pageDma`. No hook uses `size` or `attrs`, and the model omits them. `DmaUnmapPage` and `DmaSync` keep `dma_handle` but do not use it.
- `PlatSmp375.CpuMasks.SmpPrepareCpus` requires `max_cpus <= nr_cpu_ids`. The ARM SMP core clips `max_cpus` to the number of possible CPUs before calling the hook. That caller is not part of this model.
- The CPU masks have one entry per id below `nr_cpu_ids` rather than `NR_CPUS` bits.
- Constants from headers that are not part of this model:
  - `ARMADA_375_MAX_CPUS` is 2 (armada-375.h is not part of this model);
  - `MT_MEMORY_SO` is 14;
  - `BUS_NOTIFY_ADD_DEVICE` is 1;
  - `NOTIFY_DONE` and `NOTIFY_OK` are 0 and 1;
  - `SIGBUS` is 7.
- The `armada_375_smp_ops` and `DT_MACHINE_START` tables are not modelled; they are static wiring. The same goes for the hotplug `cpu_die` hook, which is not defined in these files.
- The network driver and switch sysfs files are not part of this model. Neither are the declarations in `common.h`.
- Armada375.IoremapCaller: uses the corrected range test (`IoremapMtype`), not the test as written at armada-375.c:59. Both departures are described under "## Findings". The as-written test is `IoremapMtypeAsWritten`.
- Both initcalls register the same notifier block, `mvebu_hwcc_platform_nb` (coherency.c:225-226, 235-236). A notifier block has a single `next` link, so registering it on both the platform bus and the PCI bus makes the two chains share it. The per-bus `BusNotify` abstraction does not capture that sharing.
