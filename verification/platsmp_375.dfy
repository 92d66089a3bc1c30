/** SMP bring-up on the Armada 375: the possible and present CPU masks, and
    the start of a secondary CPU. */
module PlatSmp375 {
  import opened Kernel
  import opened DeviceTree

  /** The number of cores an Armada 375 has. */
  const ARMADA_375_MAX_CPUS: nat := 2

  /** The core count after the clip to nr_cpu_ids. */
  function ClippedCount(ncores: nat, nrCpuIds: nat): (n: nat)
    ensures n <= nrCpuIds && n <= ncores
    ensures n == ncores || n == nrCpuIds
  {
    if ncores > nrCpuIds then nrCpuIds else ncores
  }

  /** A CPU mask after setting the bits of CPUs 0 .. n-1. */
  function MarkPrefix(mask: seq<bool>, n: nat): (r: seq<bool>)
    ensures |r| == |mask|
    ensures forall k :: 0 <= k < |mask| ==> r[k] == (k < n || mask[k])
    decreases |mask|
  {
    if mask == [] then []
    else [n > 0 || mask[0]] + MarkPrefix(mask[1..], if n > 0 then n - 1 else 0)
  }

  /** The number of CPUs a mask holds. */
  function CountSet(mask: seq<bool>): nat
  {
    if mask == [] then 0 else (if mask[0] then 1 else 0) + CountSet(mask[1..])
  }

  function Min(a: nat, b: nat): nat
  {
    if a < b then a else b
  }

  lemma {:induction false} CountSetBound(mask: seq<bool>)
    ensures CountSet(mask) <= |mask|
    decreases |mask|
  {
    if mask != [] {
      CountSetBound(mask[1..]);
    }
  }

  /** Marking a prefix of an empty mask leaves exactly the clipped number of
      CPUs in it. */
  lemma {:induction false} CountMarkPrefixOfEmpty(mask: seq<bool>, n: nat)
    requires forall k :: 0 <= k < |mask| ==> !mask[k]
    ensures CountSet(MarkPrefix(mask, n)) == Min(n, |mask|)
    decreases |mask|
  {
    if mask != [] {
      var rest := if n > 0 then n - 1 else 0;
      CountMarkPrefixOfEmpty(mask[1..], rest);
      assert MarkPrefix(mask, n)[1..] == MarkPrefix(mask[1..], rest);
      if n == 0 {
        assert MarkPrefix(mask, n) == mask;
        assert MarkPrefix(mask[1..], rest) == mask[1..];
      }
    }
  }

  /** The possible mask of smp_init_cpus never holds more than nr_cpu_ids
      CPUs; from an empty mask it holds exactly min(ncores, nr_cpu_ids). */
  lemma PossibleCount(mask: seq<bool>, ncores: nat)
    ensures CountSet(MarkPrefix(mask, ClippedCount(ncores, |mask|))) <= |mask|
    ensures (forall k :: 0 <= k < |mask| ==> !mask[k]) ==>
              CountSet(MarkPrefix(mask, ClippedCount(ncores, |mask|))) == Min(ncores, |mask|)
  {
    CountSetBound(MarkPrefix(mask, ClippedCount(ncores, |mask|)));
    if forall k :: 0 <= k < |mask| ==> !mask[k] {
      CountMarkPrefixOfEmpty(mask, ClippedCount(ncores, |mask|));
    }
  }

  /** The kernel's cpu_possible_mask and cpu_present_mask, one entry per
      CPU id below nr_cpu_ids. */
  class CpuMasks {
    const nrCpuIds: nat
    const possible: array<bool>
    const present: array<bool>

    ghost predicate Valid()
      reads this
    {
      possible.Length == nrCpuIds && present.Length == nrCpuIds && possible != present
    }

    constructor (nrCpuIds: nat)
      ensures Valid() && this.nrCpuIds == nrCpuIds && fresh(possible) && fresh(present)
      ensures forall k :: 0 <= k < nrCpuIds ==> !possible[k] && !present[k]
    {
      this.nrCpuIds := nrCpuIds;
      possible := new bool[nrCpuIds](_ => false);
      present := new bool[nrCpuIds](_ => false);
    }

    /** armada_375_smp_init_cpus: panic without a "cpus" node or with a core
        count outside 1 .. ARMADA_375_MAX_CPUS; otherwise mark CPUs
        0 .. min(ncores, nr_cpu_ids)-1 possible and leave the rest as it was. */
    method SmpInitCpus(t: Tree) returns (o: Outcome)
      requires Valid()
      modifies possible
      ensures FindNodeByName(t, "cpus").None? ==>
                o == Panicked("No 'cpus' node found\n") && possible[..] == old(possible[..])
      ensures FindNodeByName(t, "cpus").Some? ==>
                var ncores := t[FindNodeByName(t, "cpus").value].childCount;
                if ncores == 0 || ncores > ARMADA_375_MAX_CPUS then
                  o == Panicked("Invalid number of CPUs in DT\n") && possible[..] == old(possible[..])
                else
                  o == Completed && possible[..] == MarkPrefix(old(possible[..]), ClippedCount(ncores, nrCpuIds))
    {
      var np := FindNodeByName(t, "cpus");
      if np.None? {
        return Panicked("No 'cpus' node found\n");
      }
      var ncores := t[np.value].childCount;
      if ncores == 0 || ncores > ARMADA_375_MAX_CPUS {
        return Panicked("Invalid number of CPUs in DT\n");
      }
      if ncores > nrCpuIds {
        ncores := nrCpuIds;
      }
      for i := 0 to ncores
        invariant forall k :: 0 <= k < possible.Length ==> possible[k] == (k < i || old(possible[k]))
      {
        possible[i] := true;
      }
      o := Completed;
    }

    /** armada_375_smp_prepare_cpus: mark CPUs 0 .. maxCpus-1 present and
        nothing else. The caller has already clipped maxCpus to the number of
        possible CPUs. */
    method SmpPrepareCpus(maxCpus: nat)
      requires Valid() && maxCpus <= nrCpuIds
      modifies present
      ensures present[..] == MarkPrefix(old(present[..]), maxCpus)
    {
      for i := 0 to maxCpus
        invariant forall k :: 0 <= k < present.Length ==> present[k] == (k < i || old(present[k]))
      {
        present[i] := true;
      }
    }
  }

  /** armada_375_boot_secondary: set the boot address, start the CPU, then
      send the wake-up interrupt to that CPU alone; always 0. */
  method BootSecondary(cpu: nat, log: Log) returns (r: int)
    modifies log
    ensures r == 0
    ensures log.events == old(log.events) + [SetSecondaryBootAddr, BootCpu(cpu), WakeupIpi({cpu})]
  {
    log.Emit(SetSecondaryBootAddr);
    log.Emit(BootCpu(cpu));
    log.Emit(WakeupIpi({cpu}));
    r := 0;
  }
}
