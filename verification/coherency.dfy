/** The Armada 370/XP/375/380 coherency fabric: which fabric the device tree
    describes, the boot-time globals that coherency_init fills in, how a CPU
    joins the coherency domain, the I/O sync barrier, and the DMA operations
    that a bus notifier installs on every new device. */
module Coherency {
  import opened Kernel
  import opened DeviceTree

  // ---------------------------------------------------------------------
  // Fabric classification
  // ---------------------------------------------------------------------

  /** The integer tags of the fabric-type enumeration, as stored in the match
      table's `data` pointer. */
  const COHERENCY_FABRIC_TYPE_NONE: int := 0
  const COHERENCY_FABRIC_TYPE_ARMADA_370_XP: int := 1
  const COHERENCY_FABRIC_TYPE_ARMADA_375: int := 2
  const COHERENCY_FABRIC_TYPE_ARMADA_380: int := 3

  datatype FabricType = FabricNone | Fabric370Xp | Fabric375 | Fabric380

  datatype MatchEntry = MatchEntry(compatible: string, data: int)

  /** of_coherency_table, without its empty end-of-list entry. */
  const OfCoherencyTable: seq<MatchEntry> := [
    MatchEntry("marvell,coherency-fabric", COHERENCY_FABRIC_TYPE_ARMADA_370_XP),
    MatchEntry("marvell,armada-370-coherency-fabric", COHERENCY_FABRIC_TYPE_ARMADA_370_XP),
    MatchEntry("marvell,armada-375-coherency-fabric", COHERENCY_FABRIC_TYPE_ARMADA_375),
    MatchEntry("marvell,armada-380-coherency-fabric", COHERENCY_FABRIC_TYPE_ARMADA_380)
  ]

  /** The compatible strings of the table's entries, in table order. */
  function Compatibles(table: seq<MatchEntry>): (r: seq<string>)
    ensures |r| == |table| && forall i :: 0 <= i < |table| ==> r[i] == table[i].compatible
  {
    if table == [] then [] else [table[0].compatible] + Compatibles(table[1..])
  }

  const CoherencyCompatibles: seq<string> := Compatibles(OfCoherencyTable)

  /** of_match_node(table, np): the position of the first table entry the
      node is compatible with (the C function returns a pointer into the
      table). */
  function MatchNode(table: seq<MatchEntry>, n: Node): (r: Option<nat>)
    ensures r.Some? ==> r.value < |table| && table[r.value].compatible in n.compatible
    ensures r.Some? ==> forall j :: 0 <= j < r.value ==> table[j].compatible !in n.compatible
    ensures r.None? <==> forall j :: 0 <= j < |table| ==> table[j].compatible !in n.compatible
  {
    MatchFrom(table, n, 0)
  }

  /** The first entry at or after `k` that the node is compatible with. */
  function MatchFrom(table: seq<MatchEntry>, n: Node, k: nat): (r: Option<nat>)
    requires k <= |table|
    ensures r.Some? ==> k <= r.value < |table| && table[r.value].compatible in n.compatible
    ensures r.Some? ==> forall j :: k <= j < r.value ==> table[j].compatible !in n.compatible
    ensures r.None? ==> forall j :: k <= j < |table| ==> table[j].compatible !in n.compatible
    decreases |table| - k
  {
    if k == |table| then None
    else if table[k].compatible in n.compatible then Some(k)
    else MatchFrom(table, n, k + 1)
  }

  /** The range check of coherency_type: only the three fabric tags are kept. */
  function TypeOfTag(tag: int): FabricType
  {
    if tag == COHERENCY_FABRIC_TYPE_ARMADA_370_XP then Fabric370Xp
    else if tag == COHERENCY_FABRIC_TYPE_ARMADA_375 then Fabric375
    else if tag == COHERENCY_FABRIC_TYPE_ARMADA_380 then Fabric380
    else FabricNone
  }

  /** The kind coherency_type gives a fabric node: the tag of the first table
      entry the node is compatible with, after the range check. */
  function NodeKind(n: Node): FabricType
  {
    match MatchNode(OfCoherencyTable, n)
    case None => FabricNone
    case Some(k) => TypeOfTag(OfCoherencyTable[k].data)
  }

  /** coherency_type(): the kind of the first fabric node in the tree. */
  function CoherencyType(t: Tree): FabricType
  {
    match FindMatchingNode(t, CoherencyCompatibles)
    case None => FabricNone
    case Some(i) => NodeKind(t[i])
  }

  /** coherency_available(). */
  function CoherencyAvailable(t: Tree): bool
  {
    CoherencyType(t) != FabricNone
  }

  /** The node that coherency_init hands to the per-fabric initialisation. */
  function MatchedNode(t: Tree): Node
    requires CoherencyType(t) != FabricNone
  {
    t[FindMatchingNode(t, CoherencyCompatibles).value]
  }

  /** of_match_node finds an entry exactly when the node is compatible with
      one of the table's strings, which is what of_find_matching_node tests. */
  lemma MatchIffCompatible(table: seq<MatchEntry>, n: Node)
    ensures MatchNode(table, n).Some? <==> Matches(n, Compatibles(table))
  {
    if MatchNode(table, n).Some? {
      var k := MatchNode(table, n).value;
      assert Compatibles(table)[k] in Compatibles(table);
    }
    if Matches(n, Compatibles(table)) {
      var c :| c in Compatibles(table) && c in n.compatible;
      var k :| 0 <= k < |table| && Compatibles(table)[k] == c;
    }
  }

  /** A tree with a single node gets that node's kind. */
  lemma OneNodeTree(n: Node)
    ensures CoherencyType([n]) == NodeKind(n)
  {
    MatchIffCompatible(OfCoherencyTable, n);
    if Matches(n, CoherencyCompatibles) {
      assert FindMatchingNode([n], CoherencyCompatibles) == Some(0);
    }
  }

  /** The node of a one-node tree that names a single compatible string. */
  function FabricNode(compatible: string): Node
  {
    Node("coherency-fabric", [compatible], [], 0)
  }

  /** The table entry a string names decides the kind of a node holding
      just that string. */
  lemma EntryKind(k: nat)
    requires k < |OfCoherencyTable|
    ensures NodeKind(FabricNode(OfCoherencyTable[k].compatible)) == TypeOfTag(OfCoherencyTable[k].data)
  {
    var table := OfCoherencyTable;
    var n := FabricNode(table[k].compatible);
    forall j | 0 <= j < k
      ensures table[j].compatible !in n.compatible
    {
      assert table[j].compatible != table[k].compatible;
    }
    assert MatchNode(table, n) == Some(k);
  }

  /** A string no table entry names gives NONE. */
  lemma UnknownKind(s: string)
    requires forall k :: 0 <= k < |OfCoherencyTable| ==> OfCoherencyTable[k].compatible != s
    ensures NodeKind(FabricNode(s)) == FabricNone
  {
  }

  /** Classification is total: a fabric node whose one compatible string is
      either legacy string gets the 370/XP kind, the 375 and 380 strings give
      their own kinds, anything else NONE (by OneNodeTree, also the kind of a
      tree holding just that node). */
  lemma ClassifyCompatible(s: string)
    ensures s == "marvell,coherency-fabric" ==> NodeKind(FabricNode(s)) == Fabric370Xp
    ensures s == "marvell,armada-370-coherency-fabric" ==> NodeKind(FabricNode(s)) == Fabric370Xp
    ensures s == "marvell,armada-375-coherency-fabric" ==> NodeKind(FabricNode(s)) == Fabric375
    ensures s == "marvell,armada-380-coherency-fabric" ==> NodeKind(FabricNode(s)) == Fabric380
    ensures s != "marvell,coherency-fabric" && s != "marvell,armada-370-coherency-fabric" &&
            s != "marvell,armada-375-coherency-fabric" && s != "marvell,armada-380-coherency-fabric"
            ==> NodeKind(FabricNode(s)) == FabricNone
  {
    if s == "marvell,coherency-fabric" {
      EntryKind(0);
    } else if s == "marvell,armada-370-coherency-fabric" {
      EntryKind(1);
    } else if s == "marvell,armada-375-coherency-fabric" {
      EntryKind(2);
    } else if s == "marvell,armada-380-coherency-fabric" {
      EntryKind(3);
    } else {
      UnknownKind(s);
    }
  }

  /** Every entry of a match table carries one of the three fabric tags. */
  predicate FabricTags(table: seq<MatchEntry>)
  {
    forall k :: 0 <= k < |table| ==> TypeOfTag(table[k].data) != FabricNone
  }

  /** A node compatible with some string of a table whose tags are all
      fabric tags matches an entry and gets a fabric kind from it. */
  lemma MatchedNodeHasFabricKind(table: seq<MatchEntry>, n: Node)
    requires FabricTags(table) && Matches(n, Compatibles(table))
    ensures MatchNode(table, n).Some?
    ensures TypeOfTag(table[MatchNode(table, n).value].data) != FabricNone
  {
    MatchIffCompatible(table, n);
  }

  /** A fabric is available exactly when some node of the tree is compatible
      with an entry of of_coherency_table. */
  lemma AvailableIffFabricNode(t: Tree)
    ensures CoherencyAvailable(t) <==>
            exists j :: 0 <= j < |t| && Matches(t[j], CoherencyCompatibles)
  {
    match FindMatchingNode(t, CoherencyCompatibles)
    case None =>
    case Some(i) =>
      assert FabricTags(OfCoherencyTable);
      MatchedNodeHasFabricKind(OfCoherencyTable, t[i]);
  }

  // ---------------------------------------------------------------------
  // The boot-time globals and their initialisation
  // ---------------------------------------------------------------------

  /** The values of coherency_hard_mode, coherency_phys_base, coherency_base
      and coherency_cpu_base. */
  datatype Globals = Globals(hardMode: bool, physBase: nat, base: Addr, cpuBase: Addr)

  /** The globals before coherency_init: C zero-initialises them. */
  const InitialGlobals: Globals := Globals(false, 0, NULL, NULL)

  /** The globals after coherency_init on tree `t`, starting from `g`. */
  function AfterInit(t: Tree, g: Globals): Globals
  {
    var g' := g.(hardMode := CoherencyAvailable(t));
    match CoherencyType(t)
    case FabricNone => g'
    case Fabric370Xp =>
      var np := MatchedNode(t);
      g'.(physBase := ResourceStart(np, 0), base := OfIomap(np, 0), cpuBase := OfIomap(np, 1))
    case _ => g'.(cpuBase := OfIomap(MatchedNode(t), 0))
  }

  /** set_cpu_coherent's hardware operations: none without a mapped fabric,
      otherwise "add to SMP group" and then "enable coherency". */
  function JoinEvents(base: Addr): seq<HwEvent>
  {
    if base == NULL then [] else [AddCpuToSmpGroup, EnableCoherency]
  }

  /** The 370/XP event shape: write-back, two mappings, then the join. */
  function LegacyEvents(phys: nat, base: Addr, cpuBase: Addr): seq<HwEvent>
  {
    [CacheWriteBack(phys), IoMapped(0, base), IoMapped(1, cpuBase)] + JoinEvents(base)
  }

  /** The side effects of coherency_init on tree `t`. */
  function InitEvents(t: Tree): seq<HwEvent>
  {
    match CoherencyType(t)
    case FabricNone => []
    case Fabric370Xp =>
      var np := MatchedNode(t);
      LegacyEvents(ResourceStart(np, 0), OfIomap(np, 0), OfIomap(np, 1))
    case _ => [IoMapped(0, OfIomap(MatchedNode(t), 0))]
  }

  /** coherency_hard_mode ends up equal to coherency_available(), and only
      the 370/XP path assigns coherency_phys_base and coherency_base. */
  lemma InitSetsHardMode(t: Tree, g: Globals)
    ensures AfterInit(t, g).hardMode == CoherencyAvailable(t)
    ensures CoherencyType(t) != Fabric370Xp ==>
              AfterInit(t, g).base == g.base && AfterInit(t, g).physBase == g.physBase
    ensures CoherencyType(t) == FabricNone ==> AfterInit(t, g).cpuBase == g.cpuBase
  {
  }

  /** On a 375 or 380 fabric, initialising from the zeroed globals leaves
      coherency_base NULL, so a later set_cpu_coherent takes its failure path. */
  lemma LaterJoinFailsOn375And380(t: Tree)
    requires CoherencyType(t) == Fabric375 || CoherencyType(t) == Fabric380
    ensures AfterInit(t, InitialGlobals).base == NULL
    ensures JoinEvents(AfterInit(t, InitialGlobals).base) == []
  {
  }

  lemma LegacyEventsOrder(phys: nat, base: Addr, cpuBase: Addr)
    ensures var e := LegacyEvents(phys, base, cpuBase);
            e[0] == CacheWriteBack(phys) &&
            (forall j :: 0 <= j < |e| && e[j].IoMapped? ==> 0 < j) &&
            (forall i, j ::
              (0 <= i < |e| && 0 <= j < |e| && e[i] == AddCpuToSmpGroup && e[j] == EnableCoherency) ==> i < j)
  {
    var e := LegacyEvents(phys, base, cpuBase);
    if base == NULL {
      assert |e| == 3;
    } else {
      assert |e| == 5 && e[3] == AddCpuToSmpGroup && e[4] == EnableCoherency;
    }
  }

  /** Order on the 370/XP path: the physical base is written back before any
      window is mapped, and "add to SMP group" precedes "enable coherency". */
  lemma LegacyInitOrder(t: Tree)
    requires CoherencyType(t) == Fabric370Xp
    ensures InitEvents(t)[0] == CacheWriteBack(AfterInit(t, InitialGlobals).physBase)
    ensures forall j :: 0 <= j < |InitEvents(t)| && InitEvents(t)[j].IoMapped? ==> 0 < j
    ensures forall i, j ::
              (0 <= i < |InitEvents(t)| && 0 <= j < |InitEvents(t)| &&
               InitEvents(t)[i] == AddCpuToSmpGroup && InitEvents(t)[j] == EnableCoherency) ==> i < j
  {
    var np := MatchedNode(t);
    LegacyEventsOrder(ResourceStart(np, 0), OfIomap(np, 0), OfIomap(np, 1));
  }

  /** Only the 370/XP path writes back the physical base or joins the CPU;
      the 375 and 380 paths map one window and nothing else. */
  lemma OnlyLegacyPathJoins(t: Tree)
    ensures (AddCpuToSmpGroup in InitEvents(t) || EnableCoherency in InitEvents(t) ||
             exists e :: e in InitEvents(t) && e.CacheWriteBack?)
            ==> CoherencyType(t) == Fabric370Xp
    ensures CoherencyType(t) == Fabric375 || CoherencyType(t) == Fabric380 ==>
              InitEvents(t) == [IoMapped(0, AfterInit(t, InitialGlobals).cpuBase)]
  {
    var kind := CoherencyType(t);
    if kind == FabricNone {
      assert InitEvents(t) == [];
    } else if kind != Fabric370Xp {
      var only := IoMapped(0, OfIomap(MatchedNode(t), 0));
      assert InitEvents(t) == [only];
      assert forall e :: e in InitEvents(t) ==> e == only;
    }
  }

  // ---------------------------------------------------------------------
  // The I/O sync barrier
  // ---------------------------------------------------------------------

  const IO_SYNC_BARRIER_CTL_OFFSET: nat := 0x0

  predicate BitZeroSet(v: bv32)
  {
    v & 1 != 0
  }

  /** The values successive reads of the barrier register return eventually
      include one with bit 0 clear: the hardware finishes the barrier. */
  predicate EventuallyClears(responses: seq<bv32>)
  {
    exists k :: 0 <= k < |responses| && !BitZeroSet(responses[k])
  }

  /** The index of the read at which the spin loop stops. */
  function FirstClear(responses: seq<bv32>): (n: nat)
    requires EventuallyClears(responses)
    ensures n < |responses| && !BitZeroSet(responses[n])
    ensures forall j :: 0 <= j < n ==> BitZeroSet(responses[j])
    decreases |responses|
  {
    if !BitZeroSet(responses[0]) then 0
    else
      ClearsAfterFirst(responses);
      1 + FirstClear(responses[1..])
  }

  lemma ClearsAfterFirst(responses: seq<bv32>)
    requires EventuallyClears(responses) && BitZeroSet(responses[0])
    ensures EventuallyClears(responses[1..])
  {
    var k :| 0 <= k < |responses| && !BitZeroSet(responses[k]);
    assert !BitZeroSet(responses[1..][k - 1]);
  }

  function ReadEvents(reg: Addr, values: seq<bv32>): seq<HwEvent>
  {
    seq(|values|, k requires 0 <= k < |values| => ReadL(reg, values[k]))
  }

  /** mvebu_hwcc_sync_io_barrier's register accesses: write 1, then read
      until a read shows bit 0 clear. */
  function BarrierEvents(reg: Addr, responses: seq<bv32>): seq<HwEvent>
    requires EventuallyClears(responses)
  {
    [WriteL(reg, 1)] + ReadEvents(reg, responses[..FirstClear(responses) + 1])
  }

  /** Number of barrier triggers (writes of 1 to `reg`) in a trace. */
  function TriggerCount(reg: Addr, events: seq<HwEvent>): nat
  {
    if events == [] then 0
    else (if events[0] == WriteL(reg, 1) then 1 else 0) + TriggerCount(reg, events[1..])
  }

  lemma {:induction false} TriggerCountAppend(reg: Addr, a: seq<HwEvent>, b: seq<HwEvent>)
    ensures TriggerCount(reg, a + b) == TriggerCount(reg, a) + TriggerCount(reg, b)
    decreases |a|
  {
    if a == [] {
      assert a + b == b;
    } else {
      assert (a + b)[1..] == a[1..] + b;
      TriggerCountAppend(reg, a[1..], b);
    }
  }

  lemma {:induction false} NoTriggerInReads(reg: Addr, values: seq<bv32>)
    ensures TriggerCount(reg, ReadEvents(reg, values)) == 0
    decreases |values|
  {
    if values != [] {
      assert ReadEvents(reg, values)[1..] == ReadEvents(reg, values[1..]);
      NoTriggerInReads(reg, values[1..]);
    }
  }

  /** The barrier triggers exactly once, every later access is a read of the
      same register, and it returns only after a read with bit 0 clear,
      every earlier read having shown bit 0 set. */
  lemma BarrierShape(reg: Addr, responses: seq<bv32>)
    requires EventuallyClears(responses)
    ensures var e := BarrierEvents(reg, responses);
            e[0] == WriteL(reg, 1) && TriggerCount(reg, e) == 1 &&
            (forall k :: 1 <= k < |e| ==> e[k].ReadL? && e[k].addr == reg) &&
            !BitZeroSet(e[|e| - 1].value) &&
            (forall k :: 1 <= k < |e| - 1 ==> BitZeroSet(e[k].value))
  {
    var n := FirstClear(responses);
    var rs := ReadEvents(reg, responses[..n + 1]);
    NoTriggerInReads(reg, responses[..n + 1]);
    TriggerCountAppend(reg, [WriteL(reg, 1)], rs);
    assert TriggerCount(reg, [WriteL(reg, 1)]) == 1;
  }

  // ---------------------------------------------------------------------
  // DMA operations installed on new devices
  // ---------------------------------------------------------------------

  datatype DmaDirection = DmaBidirectional | DmaToDevice | DmaFromDevice | DmaNone

  /** The hooks run the barrier unless the transfer only goes to the device. */
  predicate NeedsBarrier(dir: DmaDirection)
  {
    dir != DmaToDevice
  }

  /** What one map_page, unmap_page or single sync hook does to the hardware. */
  function HookEvents(reg: Addr, dir: DmaDirection, responses: seq<bv32>): seq<HwEvent>
    requires NeedsBarrier(dir) ==> EventuallyClears(responses)
  {
    if NeedsBarrier(dir) then BarrierEvents(reg, responses) else []
  }

  /** Direction filter: a hook touches no register for DMA_TO_DEVICE, and
      runs the barrier exactly once for every other direction. */
  lemma DirectionFilter(reg: Addr, dir: DmaDirection, responses: seq<bv32>)
    requires NeedsBarrier(dir) ==> EventuallyClears(responses)
    ensures dir == DmaToDevice ==> HookEvents(reg, dir, responses) == []
    ensures dir != DmaToDevice ==>
              HookEvents(reg, dir, responses)[0] == WriteL(reg, 1) &&
              TriggerCount(reg, HookEvents(reg, dir, responses)) == 1
  {
    if dir != DmaToDevice {
      BarrierShape(reg, responses);
    }
  }

  datatype DmaOp =
    | Alloc | Free | Mmap | MapPage | UnmapPage | GetSgtable | MapSg | UnmapSg
    | SyncSingleForCpu | SyncSingleForDevice | SyncSgForCpu | SyncSgForDevice | SetDmaMask

  datatype DmaEntry =
    | ArmCoherentDmaAlloc | ArmCoherentDmaFree | ArmDmaMmap
    | HwccMapPage | HwccUnmapPage | HwccSync
    | ArmDmaGetSgtable | ArmDmaMapSg | ArmDmaUnmapSg
    | ArmDmaSyncSgForCpu | ArmDmaSyncSgForDevice | ArmDmaSetMask

  /** mvebu_hwcc_dma_ops: the entry point behind each operation. */
  function HwccDmaOps(op: DmaOp): DmaEntry
  {
    match op
    case Alloc => ArmCoherentDmaAlloc
    case Free => ArmCoherentDmaFree
    case Mmap => ArmDmaMmap
    case MapPage => HwccMapPage
    case UnmapPage => HwccUnmapPage
    case GetSgtable => ArmDmaGetSgtable
    case MapSg => ArmDmaMapSg
    case UnmapSg => ArmDmaUnmapSg
    case SyncSingleForCpu => HwccSync
    case SyncSingleForDevice => HwccSync
    case SyncSgForCpu => ArmDmaSyncSgForCpu
    case SyncSgForDevice => ArmDmaSyncSgForDevice
    case SetDmaMask => ArmDmaSetMask
  }

  /** Whether a call through mvebu_hwcc_dma_ops runs the coherency barrier. */
  function CallRunsBarrier(op: DmaOp, dir: DmaDirection): (b: bool)
    ensures b <==> op in {MapPage, UnmapPage, SyncSingleForCpu, SyncSingleForDevice} && dir != DmaToDevice
  {
    HwccDmaOps(op) in {HwccMapPage, HwccUnmapPage, HwccSync} && NeedsBarrier(dir)
  }

  // ---------------------------------------------------------------------
  // The bus notifier
  // ---------------------------------------------------------------------

  const BUS_NOTIFY_ADD_DEVICE: nat := 1
  const NOTIFY_DONE: int := 0
  const NOTIFY_OK: int := 1

  datatype DmaOpsRef = ArchDefaultDmaOps | MvebuHwccDmaOps | OtherDmaOps(id: nat)

  datatype Device = Device(id: nat, dmaOps: DmaOpsRef)

  datatype NotifyResult = NotifyResult(ret: int, dev: Device)

  /** mvebu_hwcc_platform_notifier: install the hwcc operations on a device
      being added; any other bus event is not handled. */
  function PlatformNotifier(event: nat, dev: Device): (r: NotifyResult)
    ensures r.ret == NOTIFY_OK <==> event == BUS_NOTIFY_ADD_DEVICE
    ensures r.ret == NOTIFY_DONE <==> event != BUS_NOTIFY_ADD_DEVICE
    ensures event == BUS_NOTIFY_ADD_DEVICE ==> r.dev == dev.(dmaOps := MvebuHwccDmaOps)
    ensures event != BUS_NOTIFY_ADD_DEVICE ==> r.dev == dev
  {
    if event != BUS_NOTIFY_ADD_DEVICE then NotifyResult(NOTIFY_DONE, dev)
    else NotifyResult(NOTIFY_OK, dev.(dmaOps := MvebuHwccDmaOps))
  }

  /** Delivering an event on a bus: the chain holds the hwcc notifier when it
      was registered; an empty chain reports NOTIFY_DONE. */
  function BusNotify(registered: bool, event: nat, dev: Device): NotifyResult
  {
    if registered then PlatformNotifier(event, dev) else NotifyResult(NOTIFY_DONE, dev)
  }

  /** The notifier is registered exactly when coherency is available, so a
      device added afterwards runs on the hwcc operations exactly then (or when
      it already did). */
  lemma AddedDeviceIntercepted(t: Tree, dev: Device)
    ensures BusNotify(CoherencyAvailable(t), BUS_NOTIFY_ADD_DEVICE, dev).dev.dmaOps == MvebuHwccDmaOps
            <==> CoherencyAvailable(t) || dev.dmaOps == MvebuHwccDmaOps
    ensures BusNotify(CoherencyAvailable(t), BUS_NOTIFY_ADD_DEVICE, dev).dev.id == dev.id
  {
  }

  /** Handling the same event twice changes the device no further. */
  lemma NotifierIdempotent(event: nat, dev: Device)
    ensures PlatformNotifier(event, PlatformNotifier(event, dev).dev) == PlatformNotifier(event, dev)
  {
  }

  /** coherency_late_init: register on the platform bus when available. */
  method CoherencyLateInit(t: Tree, log: Log) returns (r: int)
    modifies log
    ensures r == 0
    ensures log.events == old(log.events) +
              (if CoherencyAvailable(t) then [RegisterBusNotifier(PlatformBus)] else [])
  {
    if CoherencyAvailable(t) {
      log.Emit(RegisterBusNotifier(PlatformBus));
    }
    r := 0;
  }

  /** coherency_pci_notify_init: register on the PCI bus when available. */
  method CoherencyPciNotifyInit(t: Tree, log: Log) returns (r: int)
    modifies log
    ensures r == 0
    ensures log.events == old(log.events) +
              (if CoherencyAvailable(t) then [RegisterBusNotifier(PciBus)] else [])
  {
    if CoherencyAvailable(t) {
      log.Emit(RegisterBusNotifier(PciBus));
    }
    r := 0;
  }

  // ---------------------------------------------------------------------
  // The globals as an object
  // ---------------------------------------------------------------------

  /** The process-wide state of coherency.c and the log its hardware
      accesses go to. */
  class Fabric {
    var hardMode: bool   // coherency_hard_mode
    var physBase: nat    // coherency_phys_base
    var base: Addr       // coherency_base
    var cpuBase: Addr    // coherency_cpu_base
    const log: Log

    constructor (log: Log)
      ensures State() == InitialGlobals && this.log == log
    {
      hardMode, physBase, base, cpuBase := false, 0, NULL, NULL;
      this.log := log;
    }

    function State(): Globals
      reads this
    {
      Globals(hardMode, physBase, base, cpuBase)
    }

    function BarrierRegister(): Addr
      reads this
    {
      cpuBase + IO_SYNC_BARRIER_CTL_OFFSET
    }

    /** set_cpu_coherent: returns 1 and touches nothing while the fabric is
        unmapped; otherwise joins the SMP group, then enables coherency and
        returns what the enable returned. */
    method SetCpuCoherent(enableResult: int) returns (r: int)
      modifies log
      ensures r == (if base == NULL then 1 else enableResult)
      ensures log.events == old(log.events) + JoinEvents(base)
    {
      if base == NULL {
        return 1;
      }
      log.Emit(AddCpuToSmpGroup);
      log.Emit(EnableCoherency);
      r := enableResult;
    }

    /** armada_370_coherency_init. */
    method Armada370CoherencyInit(np: Node, enableResult: int)
      modifies this, log
      ensures State() == old(State()).(physBase := ResourceStart(np, 0), base := OfIomap(np, 0),
                                       cpuBase := OfIomap(np, 1))
      ensures log.events == old(log.events) + LegacyEvents(ResourceStart(np, 0), OfIomap(np, 0), OfIomap(np, 1))
    {
      physBase := ResourceStart(np, 0);
      log.Emit(CacheWriteBack(physBase));
      base := OfIomap(np, 0);
      log.Emit(IoMapped(0, base));
      cpuBase := OfIomap(np, 1);
      log.Emit(IoMapped(1, cpuBase));
      assert log.events == old(log.events) + [CacheWriteBack(physBase), IoMapped(0, base), IoMapped(1, cpuBase)];
      var _ := SetCpuCoherent(enableResult);
      AppendAssoc(old(log.events), [CacheWriteBack(physBase), IoMapped(0, base), IoMapped(1, cpuBase)], JoinEvents(base));
    }

    /** armada_375_coherency_init: maps the per-CPU window only. */
    method Armada375CoherencyInit(np: Node)
      modifies this, log
      ensures State() == old(State()).(cpuBase := OfIomap(np, 0))
      ensures log.events == old(log.events) + [IoMapped(0, OfIomap(np, 0))]
    {
      cpuBase := OfIomap(np, 0);
      log.Emit(IoMapped(0, cpuBase));
    }

    /** armada_380_coherency_init: maps the per-CPU window only. */
    method Armada380CoherencyInit(np: Node)
      modifies this, log
      ensures State() == old(State()).(cpuBase := OfIomap(np, 0))
      ensures log.events == old(log.events) + [IoMapped(0, OfIomap(np, 0))]
    {
      cpuBase := OfIomap(np, 0);
      log.Emit(IoMapped(0, cpuBase));
    }

    /** coherency_init: set the hard mode, then run the fabric's own
        initialisation. */
    method CoherencyInit(t: Tree, enableResult: int) returns (r: int)
      modifies this, log
      ensures r == 0
      ensures State() == AfterInit(t, old(State()))
      ensures log.events == old(log.events) + InitEvents(t)
    {
      var kind := CoherencyType(t);
      if kind != FabricNone {
        hardMode := true;
      } else {
        hardMode := false;
      }
      var np := FindMatchingNode(t, CoherencyCompatibles);
      if kind == Fabric370Xp {
        Armada370CoherencyInit(t[np.value], enableResult);
      } else if kind == Fabric375 {
        Armada375CoherencyInit(t[np.value]);
      } else if kind == Fabric380 {
        Armada380CoherencyInit(t[np.value]);
      }
      r := 0;
    }

    /** mvebu_hwcc_sync_io_barrier: write 1 to the barrier register, then spin
        until a read shows bit 0 clear. `responses` are the values the register
        returns, in order. */
    method SyncIoBarrier(responses: seq<bv32>)
      requires EventuallyClears(responses)
      modifies log
      ensures log.events == old(log.events) + BarrierEvents(BarrierRegister(), responses)
    {
      var reg := cpuBase + IO_SYNC_BARRIER_CTL_OFFSET;
      ghost var triggered := old(log.events) + [WriteL(reg, 1)];
      log.Emit(WriteL(reg, 1));
      var i := 0;
      var value := responses[i];
      log.Emit(ReadL(reg, value));
      assert ReadEvents(reg, responses[..1]) == [ReadL(reg, value)];
      while value & 1 != 0
        invariant i <= FirstClear(responses) && value == responses[i]
        invariant log.events == triggered + ReadEvents(reg, responses[..i + 1])
        decreases FirstClear(responses) - i
      {
        i := i + 1;
        value := responses[i];
        AppendAssoc(triggered, ReadEvents(reg, responses[..i]), [ReadL(reg, value)]);
        log.Emit(ReadL(reg, value));
        assert ReadEvents(reg, responses[..i + 1]) == ReadEvents(reg, responses[..i]) + [ReadL(reg, value)];
      }
      AppendAssoc(old(log.events), [WriteL(reg, 1)], ReadEvents(reg, responses[..i + 1]));
    }

    /** mvebu_hwcc_dma_map_page; `pageDma` is pfn_to_dma(dev, page_to_pfn(page)). */
    method DmaMapPage(pageDma: nat, offset: nat, dir: DmaDirection, responses: seq<bv32>) returns (handle: nat)
      requires NeedsBarrier(dir) ==> EventuallyClears(responses)
      modifies log
      ensures handle == pageDma + offset
      ensures log.events == old(log.events) + HookEvents(BarrierRegister(), dir, responses)
    {
      if dir != DmaToDevice {
        SyncIoBarrier(responses);
      }
      handle := pageDma + offset;
    }

    /** mvebu_hwcc_dma_unmap_page. */
    method DmaUnmapPage(handle: nat, dir: DmaDirection, responses: seq<bv32>)
      requires NeedsBarrier(dir) ==> EventuallyClears(responses)
      modifies log
      ensures log.events == old(log.events) + HookEvents(BarrierRegister(), dir, responses)
    {
      if dir != DmaToDevice {
        SyncIoBarrier(responses);
      }
    }

    /** mvebu_hwcc_dma_sync, behind both single-buffer sync operations. */
    method DmaSync(handle: nat, dir: DmaDirection, responses: seq<bv32>)
      requires NeedsBarrier(dir) ==> EventuallyClears(responses)
      modifies log
      ensures log.events == old(log.events) + HookEvents(BarrierRegister(), dir, responses)
    {
      if dir != DmaToDevice {
        SyncIoBarrier(responses);
      }
    }
  }

  /** Boot scenario: coherency_init on a fresh machine, then a CPU asks to
      join. Only a 370/XP fabric whose window 0 mapped can succeed; after a
      375 or 380 init the join reports failure. */
  method JoinAfterInit(t: Tree, enableAtInit: int, enableLater: int) returns (r: int)
    ensures CoherencyType(t) != Fabric370Xp ==> r == 1
    ensures CoherencyType(t) == Fabric370Xp ==>
              r == (if OfIomap(MatchedNode(t), 0) == NULL then 1 else enableLater)
  {
    var log := new Log();
    var fabric := new Fabric(log);
    var _ := fabric.CoherencyInit(t, enableAtInit);
    r := fabric.SetCpuCoherent(enableLater);
  }
}
