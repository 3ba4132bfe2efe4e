/**
 * The pre-run environment gate: AVX capability detection from the CPUID and
 * XGETBV register values, the thread-count decision and its refusals, and
 * the round-robin pinning of worker descriptors.
 */
module Environment {
  import opened CText
  import opened Config
  import opened UInt64

  /** Refusing to create more threads than this, whatever `--max-threads` says. */
  const ThreadSafetyLimit: int := DefaultMaxThreads

  // ------------------------------------------------------- AVX detection

  /** What the CPU reports: `__get_cpuid(1, ...)` and its ECX, and XGETBV(0) as EDX:EAX. */
  datatype CpuRegisters = CpuRegisters(leaf1Supported: bool, ecx: bv32, xcr0Eax: bv32, xcr0Edx: bv32)

  /** `check_xgetbv_avx`: XCR0 has both the SSE (bit 1) and AVX (bit 2) state enabled. */
  function XgetbvAvx(eax: bv32, edx: bv32): (ok: bool)
    ensures ok <==> eax & 2 != 0 && eax & 4 != 0
  {
    var xcr0: bv64 := ((edx as bv64) << 32) | (eax as bv64);
    xcr0 & 6 == 6
  }

  /**
   * `cpu_supports_avx`: CPUID leaf 1 is available, ECX bit 27 (OSXSAVE) and
   * bit 28 (AVX) are set, and the operating system has enabled the SSE and
   * AVX register state in XCR0.
   */
  function CpuSupportsAvx(cpu: CpuRegisters): (ok: bool)
    ensures ok <==> cpu.leaf1Supported
                    && cpu.ecx & (1 << 27) != 0 && cpu.ecx & (1 << 28) != 0
                    && cpu.xcr0Eax & 2 != 0 && cpu.xcr0Eax & 4 != 0
  {
    if !cpu.leaf1Supported then false
    else
      var hasAvx := (cpu.ecx >> 28) & 1;
      var hasOsxsave := (cpu.ecx >> 27) & 1;
      if hasAvx == 0 || hasOsxsave == 0 then false
      else XgetbvAvx(cpu.xcr0Eax, cpu.xcr0Edx)
  }

  // ------------------------------------------------ validate_environment

  datatype EnvError = ProcStatUnreadable | ExceedsMaxThreads | ExceedsSafetyLimit | AvxUnavailable

  /** What a successful check hands to `main`: the CPU count it recorded and the thread count. */
  datatype Plan = Plan(availableCpus: int, nthreads: int)

  datatype Verdict = Ready(plan: Plan) | Refused(error: EnvError)

  /** `get_nprocs()` forced to at least one. */
  function AvailableCpus(nprocs: int): (n: int)
    ensures n >= 1
    ensures nprocs >= 1 ==> n == nprocs
  {
    if nprocs <= 0 then 1 else nprocs
  }

  /** One thread in single mode, one per available CPU otherwise. */
  function PlannedThreads(mode: string, availableCpus: int): (n: int)
    ensures CaseEqual(mode, "single") ==> n == 1
    ensures !CaseEqual(mode, "single") ==> n == availableCpus
  {
    if CaseEqual(mode, "single") then 1 else availableCpus
  }

  predicate NeedsAvx(kind: Workload) { kind == Avx || kind == Mixed }

  /**
   * `validate_environment` with `/proc/stat`'s readability, `get_nprocs()`
   * and the CPU registers as inputs. Refuses when `/proc/stat` is
   * unreadable, when the planned threads exceed `--max-threads` or the
   * safety limit of 256, or when the workload needs AVX and the CPU or the
   * operating system does not provide it; the first failing check decides
   * the error.
   */
  function ValidateEnvironment(procStatReadable: bool, nprocs: int, mode: string, kind: Workload,
                               maxThreads: int, cpu: CpuRegisters): (v: Verdict)
    ensures v.Ready? <==> procStatReadable
                          && PlannedThreads(mode, AvailableCpus(nprocs)) <= maxThreads
                          && PlannedThreads(mode, AvailableCpus(nprocs)) <= ThreadSafetyLimit
                          && (NeedsAvx(kind) ==> CpuSupportsAvx(cpu))
    ensures !procStatReadable ==> v == Refused(ProcStatUnreadable)
    ensures procStatReadable && PlannedThreads(mode, AvailableCpus(nprocs)) > maxThreads
            ==> v == Refused(ExceedsMaxThreads)
    ensures procStatReadable && ThreadSafetyLimit < PlannedThreads(mode, AvailableCpus(nprocs)) <= maxThreads
            ==> v == Refused(ExceedsSafetyLimit)
    ensures procStatReadable && PlannedThreads(mode, AvailableCpus(nprocs)) <= maxThreads
            && PlannedThreads(mode, AvailableCpus(nprocs)) <= ThreadSafetyLimit
            && NeedsAvx(kind) && !CpuSupportsAvx(cpu)
            ==> v == Refused(AvxUnavailable)
    ensures v.Ready? ==> 1 <= v.plan.nthreads <= v.plan.availableCpus
                         && v.plan.nthreads <= maxThreads && v.plan.nthreads <= ThreadSafetyLimit
    ensures v.Ready? ==> v.plan.availableCpus == AvailableCpus(nprocs)
                         && (v.plan.nthreads == 1 <== CaseEqual(mode, "single"))
                         && (!CaseEqual(mode, "single") ==> v.plan.nthreads == v.plan.availableCpus)
  {
    if !procStatReadable then Refused(ProcStatUnreadable)
    else
      var available := AvailableCpus(nprocs);
      var nthreads := PlannedThreads(mode, available);
      if nthreads > maxThreads then Refused(ExceedsMaxThreads)
      else if nthreads > ThreadSafetyLimit then Refused(ExceedsSafetyLimit)
      else if NeedsAvx(kind) && !CpuSupportsAvx(cpu) then Refused(AvxUnavailable)
      else Ready(Plan(available, nthreads))
  }

  /**
   * An AVX or MIXED run passes the gate only on a CPU whose ECX bits 27 and
   * 28 are set and whose XCR0 has bits 1 and 2 set: no silent fallback.
   */
  lemma AvxRunNeedsAvxState(procStatReadable: bool, nprocs: int, mode: string, kind: Workload,
                            maxThreads: int, cpu: CpuRegisters)
    requires NeedsAvx(kind)
    requires ValidateEnvironment(procStatReadable, nprocs, mode, kind, maxThreads, cpu).Ready?
    ensures cpu.ecx & (1 << 27) != 0 && cpu.ecx & (1 << 28) != 0
    ensures cpu.xcr0Eax & 6 == 6
  {
  }

  /**
   * Options that `parse_args` accepted and an environment that passed give
   * between 1 and 256 threads, never more than `--max-threads`.
   */
  lemma AcceptedRunThreadBounds(o: Options, procStatReadable: bool, nprocs: int, cpu: CpuRegisters)
    requires Accepted(o)
    requires ValidateEnvironment(procStatReadable, nprocs, o.mode.value, o.kind, o.maxThreads, cpu).Ready?
    ensures var p := ValidateEnvironment(procStatReadable, nprocs, o.mode.value, o.kind, o.maxThreads, cpu).plan;
            1 <= p.nthreads <= o.maxThreads <= DefaultMaxThreads
  {
  }

  /**
   * After options `parse_args` accepted, the safety-limit refusal cannot
   * happen: `--max-threads` is at most 256, so a thread count above 256 is
   * already refused as exceeding `--max-threads`.
   */
  lemma AcceptedNeverHitsSafetyLimit(o: Options, procStatReadable: bool, nprocs: int, cpu: CpuRegisters)
    requires Accepted(o)
    ensures ValidateEnvironment(procStatReadable, nprocs, o.mode.value, o.kind, o.maxThreads, cpu)
            != Refused(ExceedsSafetyLimit)
  {
  }

  // ------------------------------------------------------------- pinning

  /** `worker_arg_t`. */
  datatype WorkerArg = WorkerArg(cpuId: int, targetUtil: real, kind: Workload, opsDone: u64)

  /** `main`'s set-up loop: worker i is pinned to CPU i mod the CPU count, starting from zero operations. */
  method InitWorkers(wargs: array<WorkerArg>, availableCpus: int, util: real, kind: Workload)
    requires availableCpus >= 1
    modifies wargs
    ensures forall i :: 0 <= i < wargs.Length ==> wargs[i] == WorkerArg(i % availableCpus, util, kind, 0)
    ensures forall i :: 0 <= i < wargs.Length ==> 0 <= wargs[i].cpuId < availableCpus
  {
    for i := 0 to wargs.Length
      invariant forall j :: 0 <= j < i ==> wargs[j] == WorkerArg(j % availableCpus, util, kind, 0)
    {
      wargs[i] := WorkerArg(i % availableCpus, util, kind, 0);
    }
  }

  /** With no more workers than CPUs, as in multi mode, no two workers share a CPU. */
  lemma PinningInjective(nthreads: int, availableCpus: int, i: int, j: int)
    requires 1 <= nthreads <= availableCpus
    requires 0 <= i < nthreads && 0 <= j < nthreads && i != j
    ensures i % availableCpus != j % availableCpus
  {
  }

  /** With at least as many workers as CPUs, every CPU receives a worker. */
  lemma PinningCoversCpus(nthreads: int, availableCpus: int, c: int)
    requires 1 <= availableCpus <= nthreads
    requires 0 <= c < availableCpus
    ensures exists i :: 0 <= i < nthreads && i % availableCpus == c
  {
    assert c % availableCpus == c;
  }
}
