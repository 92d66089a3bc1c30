/** Kernel vocabulary shared by the models of the mach-mvebu files: addresses,
    optional values, the outcome of a boot step that may panic, and the log of
    side effects that the code performs on hardware and on kernel services. */
module Kernel {

  /** A kernel virtual or physical address; 0 plays the role of NULL. */
  type Addr = nat

  const NULL: Addr := 0

  /** 2^32: the range of `unsigned long` and `size_t` on 32-bit ARM. */
  const U32_LIMIT: nat := 0x1_0000_0000

  type U32 = x: nat | x < U32_LIMIT

  datatype Option<+T> = None | Some(value: T)

  /** How a boot step ended: normally, through `panic(message)`, or through `BUG_ON`. */
  datatype Outcome = Completed | Panicked(message: string) | Bugged

  datatype Bus = PlatformBus | PciBus

  /** One observable side effect, in the order the code performs it. */
  datatype HwEvent =
    | CacheWriteBack(physBase: nat)       // sync_cache_w on coherency_phys_base, which holds physBase
    | IoMapped(window: nat, virt: Addr)   // of_iomap(np, window) returned virt
    | AddCpuToSmpGroup                    // ll_add_cpu_to_smp_group()
    | EnableCoherency                     // ll_enable_coherency()
    | WriteL(addr: Addr, value: bv32)     // writel(value, addr)
    | ReadL(addr: Addr, value: bv32)      // readl(addr) returned value
    | RegisterBusNotifier(bus: Bus)       // bus_register_notifier(bus, &mvebu_hwcc_platform_nb)
    | SetSecondaryBootAddr                // armada_375_set_bootaddr(a375_secondary_startup)
    | BootCpu(cpu: nat)                   // mvebu_boot_cpu(cpu)
    | WakeupIpi(cpus: set<nat>)           // arch_send_wakeup_ipi_mask(mask)
    | ClocksInit                          // mvebu_clocks_init()
    | ClocksourceInit                     // clocksource_of_init()
    | ScuEnable(base: Addr)               // scu_enable(base)
    | MbusDtInit(coherent: bool)          // mvebu_mbus_dt_init(coherent)
    | SetArchIoremapCaller                // arch_ioremap_caller = armada_375_ioremap_caller
    | PciIoremapSetMemType(mtype: nat)    // pci_ioremap_set_mem_type(mtype)
    | L2x0OfInit(auxVal: nat, auxMask: nat)
    | HookFaultCode(nr: nat, sig: nat)    // hook_fault_code(nr, armada_375_external_abort_wa, sig, ...)

  /** Regrouping a log built in several stages. */
  lemma AppendAssoc(a: seq<HwEvent>, b: seq<HwEvent>, c: seq<HwEvent>)
    ensures (a + b) + c == a + (b + c)
  {
  }

  /** The machine's record of side effects: every hardware access and kernel
      service call the modelled code makes is appended here. */
  class Log {
    var events: seq<HwEvent>

    constructor ()
      ensures events == []
    {
      events := [];
    }

    method Emit(e: HwEvent)
      modifies this
      ensures events == old(events) + [e]
    {
      events := events + [e];
    }
  }
}
