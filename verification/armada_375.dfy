/** Armada 375 machine setup: SCU enable, the memory type forced on PCIe
    mappings, the one-shot workaround for the external abort the BootROM
    leaves pending, and the order of the timer-and-clock boot step. */
module Armada375 {
  import opened Kernel
  import opened DeviceTree
  import Coherency

  // ---------------------------------------------------------------------
  // SCU
  // ---------------------------------------------------------------------

  const ScuTable: seq<string> := ["arm,cortex-a9-scu"]

  /** armada_375_scu_enable's side effects: enable the SCU at window 0 of the
      first matching node, or do nothing when there is none. */
  function ScuEvents(t: Tree): seq<HwEvent>
  {
    match FindMatchingNode(t, ScuTable)
    case None => []
    case Some(i) => [ScuEnable(OfIomap(t[i], 0))]
  }

  /** The SCU is enabled exactly when some node is compatible with
      "arm,cortex-a9-scu", and then once, on the first such node. */
  lemma ScuEnabledIffNode(t: Tree)
    ensures ScuEvents(t) != [] <==> exists j :: 0 <= j < |t| && "arm,cortex-a9-scu" in t[j].compatible
    ensures |ScuEvents(t)| <= 1
  {
    forall j | 0 <= j < |t|
      ensures Matches(t[j], ScuTable) <==> "arm,cortex-a9-scu" in t[j].compatible
    {
      if "arm,cortex-a9-scu" in t[j].compatible {
        assert ScuTable[0] in ScuTable;
      }
    }
  }

  method EnableScu(t: Tree, log: Log)
    modifies log
    ensures log.events == old(log.events) + ScuEvents(t)
  {
    var np := FindMatchingNode(t, ScuTable);
    if np.Some? {
      var scuBase := OfIomap(t[np.value], 0);
      log.Emit(ScuEnable(scuBase));
    }
  }

  // ---------------------------------------------------------------------
  // ioremap of the PCIe memory aperture
  // ---------------------------------------------------------------------

  /** The strongly-ordered memory type of asm/mach/map.h. */
  const MT_MEMORY_SO: nat := 14

  /** A `struct resource`: `end` is the last byte, inclusive. */
  datatype Resource = Resource(start: nat, end: nat)

  /** The arguments armada_375_ioremap_caller passes on to __arm_ioremap_caller. */
  datatype IoremapRequest = IoremapRequest(phys: U32, size: U32, mtype: nat, caller: nat)

  /** The range test as written: `phys_addr + size` is computed in 32-bit
      `unsigned long` and compared with the inclusive end of the aperture. */
  function IoremapMtypeAsWritten(pcie: Resource, phys: U32, size: U32, mtype: nat): nat
  {
    if pcie.start <= phys && (phys + size) % U32_LIMIT <= pcie.end then MT_MEMORY_SO else mtype
  }

  /** Inside the aperture, for sums that do not wrap, the test forces
      MT_MEMORY_SO; a mapping that starts below the aperture keeps its type. */
  lemma AsWrittenInsideAperture(pcie: Resource, phys: U32, size: U32, mtype: nat)
    ensures pcie.start <= phys && phys + size <= pcie.end ==>
              IoremapMtypeAsWritten(pcie, phys, size, mtype) == MT_MEMORY_SO
    ensures phys < pcie.start ==> IoremapMtypeAsWritten(pcie, phys, size, mtype) == mtype
  {
  }

  /** A mapping of the last page of an aperture ending at 0xE7FF_FFFF keeps
      the caller's type although every byte lies inside the aperture. */
  lemma AsWrittenMissesLastPage()
    ensures var pcie := Resource(0xE000_0000, 0xE7FF_FFFF);
            IoremapMtypeAsWritten(pcie, 0xE7FF_F000, 0x1000, 0) == 0
  {
  }

  /** A mapping of the top megabyte of the address space wraps `phys + size`
      to 0 and is forced to MT_MEMORY_SO although it lies outside the
      aperture. */
  lemma AsWrittenWrapForcesSo()
    ensures var pcie := Resource(0xE000_0000, 0xE7FF_FFFF);
            IoremapMtypeAsWritten(pcie, 0xFFF0_0000, 0x10_0000, 0) == MT_MEMORY_SO
  {
  }

  /** The evidently intended test: every byte of the mapping lies in the
      aperture, with the sum computed without wrap-around. */
  function IoremapMtype(pcie: Resource, phys: U32, size: U32, mtype: nat): (m: nat)
    ensures m == MT_MEMORY_SO || m == mtype
  {
    if pcie.start <= phys && phys + size <= pcie.end + 1 then MT_MEMORY_SO else mtype
  }

  predicate InAperture(pcie: Resource, a: nat)
  {
    pcie.start <= a <= pcie.end
  }

  /** The corrected test forces MT_MEMORY_SO exactly when every byte of a
      non-empty mapping lies in the aperture (or the caller already asked
      for MT_MEMORY_SO). */
  lemma IoremapMtypeCoversMapping(pcie: Resource, phys: U32, size: U32, mtype: nat)
    requires size > 0
    ensures IoremapMtype(pcie, phys, size, mtype) == MT_MEMORY_SO <==>
              mtype == MT_MEMORY_SO || forall a :: phys <= a < phys + size ==> InAperture(pcie, a)
  {
    if forall a :: phys <= a < phys + size ==> InAperture(pcie, a) {
      assert InAperture(pcie, phys);
      assert InAperture(pcie, phys + size - 1);
    }
  }

  /** Where the as-written test gets a non-wrapping, not-top-aligned mapping
      right, the corrected one agrees with it. */
  lemma CorrectedAgreesAwayFromBoundary(pcie: Resource, phys: U32, size: U32, mtype: nat)
    requires phys + size < U32_LIMIT && phys + size != pcie.end + 1
    ensures IoremapMtype(pcie, phys, size, mtype) == IoremapMtypeAsWritten(pcie, phys, size, mtype)
  {
  }

  /** armada_375_ioremap_caller: pass the request on, with MT_MEMORY_SO for
      mappings inside the PCIe memory aperture. */
  function IoremapCaller(pcie: Resource, phys: U32, size: U32, mtype: nat, caller: nat): (req: IoremapRequest)
    ensures req.phys == phys && req.size == size && req.caller == caller
    ensures req.mtype == MT_MEMORY_SO || req.mtype == mtype
    ensures pcie.start <= phys && phys + size <= pcie.end + 1 ==> req.mtype == MT_MEMORY_SO
    ensures !(pcie.start <= phys && phys + size <= pcie.end + 1) ==> req.mtype == mtype
  {
    IoremapRequest(phys, size, IoremapMtype(pcie, phys, size, mtype), caller)
  }

  // ---------------------------------------------------------------------
  // The one-shot external abort workaround
  // ---------------------------------------------------------------------

  /** One abort: the reply (0 = ignored, 1 = not handled) and the new flag. */
  function AbortStep(ignoreFirst: bool): (bool, int)
  {
    if !ignoreFirst then (true, 0) else (true, 1)
  }

  /** The replies to n successive aborts starting from flag `ignoreFirst`. */
  function AbortReplies(ignoreFirst: bool, n: nat): seq<int>
    decreases n
  {
    if n == 0 then []
    else
      var (flag, reply) := AbortStep(ignoreFirst);
      [reply] + AbortReplies(flag, n - 1)
  }

  /** Number of ignored aborts among the replies. */
  function CountIgnored(replies: seq<int>): nat
  {
    if replies == [] then 0 else (if replies[0] == 0 then 1 else 0) + CountIgnored(replies[1..])
  }

  /** Once the flag is set every abort is reported. */
  lemma {:induction false} AbortsAfterFlagReported(n: nat)
    ensures |AbortReplies(true, n)| == n
    ensures forall k :: 0 <= k < n ==> AbortReplies(true, n)[k] == 1
    ensures CountIgnored(AbortReplies(true, n)) == 0
    decreases n
  {
    if n > 0 {
      AbortsAfterFlagReported(n - 1);
    }
  }

  /** From boot, the first abort is ignored and every later one reported, so
      at most one abort is ever ignored. */
  lemma OnlyFirstAbortIgnored(n: nat)
    ensures |AbortReplies(false, n)| == n
    ensures forall k :: 0 <= k < n ==> AbortReplies(false, n)[k] == (if k == 0 then 0 else 1)
    ensures CountIgnored(AbortReplies(false, n)) == (if n == 0 then 0 else 1)
  {
    if n > 0 {
      AbortsAfterFlagReported(n - 1);
      assert AbortReplies(false, n)[1..] == AbortReplies(true, n - 1);
    }
  }

  /** The replies so far followed by one more reply. */
  lemma {:induction false} AbortRepliesSnoc(ignoreFirst: bool, n: nat)
    ensures AbortReplies(ignoreFirst, n + 1) ==
            AbortReplies(ignoreFirst, n) + [AbortStep(if n == 0 then ignoreFirst else true).1]
    decreases n
  {
    if n > 0 {
      AbortRepliesSnoc(AbortStep(ignoreFirst).0, n - 1);
    }
  }

  /** The handler hooked on fault code 16 + 6 with its static flag. */
  class ExternalAbortWa {
    var ignoreFirst: bool
    ghost var replies: seq<int>

    ghost predicate Valid()
      reads this
    {
      replies == AbortReplies(false, |replies|) && ignoreFirst == (|replies| > 0)
    }

    constructor ()
      ensures Valid() && replies == [] && !ignoreFirst
    {
      ignoreFirst := false;
      replies := [];
    }

    /** armada_375_external_abort_wa: ignore the first abort, report the rest. */
    method Handle(addr: nat, fsr: nat) returns (r: int)
      requires Valid()
      modifies this
      ensures Valid() && replies == old(replies) + [r] && ignoreFirst
      ensures r == (if old(ignoreFirst) then 1 else 0)
    {
      AbortRepliesSnoc(false, |replies|);
      if !ignoreFirst {
        ignoreFirst := true;
        r := 0;
      } else {
        r := 1;
      }
      replies := replies + [r];
    }
  }

  // ---------------------------------------------------------------------
  // The timer-and-clock boot step
  // ---------------------------------------------------------------------

  const SIGBUS: nat := 7

  /** The side effects of armada_375_timer_and_clk_init up to and including
      the MBus initialisation. */
  function EventsThroughMbus(t: Tree): seq<HwEvent>
  {
    [ClocksInit, ClocksourceInit] + ScuEvents(t) + [MbusDtInit(Coherency.CoherencyAvailable(t))]
  }

  /** The side effects of armada_375_timer_and_clk_init after a successful
      MBus initialisation. */
  function EventsAfterMbus(t: Tree): seq<HwEvent>
  {
    [SetArchIoremapCaller, PciIoremapSetMemType(MT_MEMORY_SO)] + Coherency.InitEvents(t) +
    [L2x0OfInit(0, U32_LIMIT - 1), HookFaultCode(16 + 6, SIGBUS)]
  }

  /** The second half of armada_375_timer_and_clk_init: the ioremap hook and
      the PCI memory type, coherency_init, then the L2 cache and the abort
      hook. */
  method InitAfterMbus(t: Tree, fabric: Coherency.Fabric, enableResult: int)
    modifies fabric, fabric.log
    ensures fabric.State() == Coherency.AfterInit(t, old(fabric.State()))
    ensures fabric.log.events == old(fabric.log.events) + EventsAfterMbus(t)
  {
    var log := fabric.log;
    ghost var start := log.events;
    ghost var hooks := [SetArchIoremapCaller, PciIoremapSetMemType(MT_MEMORY_SO)];
    log.Emit(SetArchIoremapCaller);
    log.Emit(PciIoremapSetMemType(MT_MEMORY_SO));
    assert log.events == start + hooks;
    var _ := fabric.CoherencyInit(t, enableResult);
    AppendAssoc(start, hooks, Coherency.InitEvents(t));
    log.Emit(L2x0OfInit(0, U32_LIMIT - 1));
    log.Emit(HookFaultCode(16 + 6, SIGBUS));
    AppendAssoc(start, hooks + Coherency.InitEvents(t), [L2x0OfInit(0, U32_LIMIT - 1), HookFaultCode(16 + 6, SIGBUS)]);
  }

  /** armada_375_timer_and_clk_init: clocks, clocksource and SCU; then the
      MBus, told whether coherency is available (a failure is a BUG); then the
      ioremap hook and the PCI memory type; then coherency_init; then the L2
      cache and the abort hook. `mbusResult` is what mvebu_mbus_dt_init
      returns and `enableResult` what ll_enable_coherency returns. */
  method TimerAndClkInit(t: Tree, fabric: Coherency.Fabric, mbusResult: int, enableResult: int)
    returns (o: Outcome)
    modifies fabric, fabric.log
    ensures o == (if mbusResult == 0 then Completed else Bugged)
    ensures mbusResult != 0 ==>
              fabric.State() == old(fabric.State()) &&
              fabric.log.events == old(fabric.log.events) + EventsThroughMbus(t)
    ensures mbusResult == 0 ==>
              fabric.State() == Coherency.AfterInit(t, old(fabric.State())) &&
              fabric.log.events == old(fabric.log.events) + EventsThroughMbus(t) + EventsAfterMbus(t)
  {
    var log := fabric.log;
    ghost var start := log.events;
    log.Emit(ClocksInit);
    log.Emit(ClocksourceInit);
    assert log.events == start + [ClocksInit, ClocksourceInit];
    EnableScu(t, log);
    log.Emit(MbusDtInit(Coherency.CoherencyAvailable(t)));
    AppendAssoc(start, [ClocksInit, ClocksourceInit], ScuEvents(t));
    AppendAssoc(start, [ClocksInit, ClocksourceInit] + ScuEvents(t), [MbusDtInit(Coherency.CoherencyAvailable(t))]);
    if mbusResult != 0 {
      return Bugged;
    }
    InitAfterMbus(t, fabric, enableResult);
    o := Completed;
  }
}
