/**
 * The per-interval bookkeeping of `main`: per-core utilisation from two
 * `/proc/stat` snapshots, and per-thread operation deltas since the last
 * log line. Both rewrite their "previous" arrays in place.
 */
module Interval {
  import opened UInt64

  // ------------------------------------------------------ utilisation

  /**
   * The utilisation expression as `main` writes it: both deltas in
   * `uint64_t`, 0 when the total delta is 0, otherwise
   * 100 * (total delta - idle delta) / total delta with the subtraction
   * again in `uint64_t`.
   */
  function UsageAsWritten(totalPrev: u64, idlePrev: u64, totalCurr: u64, idleCurr: u64): (pct: real)
    ensures pct >= 0.0
    ensures totalCurr == totalPrev ==> pct == 0.0
    ensures totalCurr != totalPrev ==>
              (pct <= 100.0 <==> Sub(Sub(totalCurr, totalPrev), Sub(idleCurr, idlePrev)) <= Sub(totalCurr, totalPrev))
  {
    var totald := Sub(totalCurr, totalPrev);
    var idled := Sub(idleCurr, idlePrev);
    if totald > 0 then
      PercentOf(Sub(totald, idled) as real, totald as real);
      100.0 * Sub(totald, idled) as real / totald as real
    else 0.0
  }

  /** A share of a positive whole, in percent, is at most 100 exactly when the share is at most the whole. */
  lemma PercentOf(part: real, whole: real)
    requires part >= 0.0 && whole > 0.0
    ensures 100.0 * part / whole >= 0.0
    ensures 100.0 * part / whole <= 100.0 <==> part <= whole
  {
    var q := 100.0 * part / whole;
    assert q * whole == 100.0 * part;
    if part <= whole {
      assert q * whole <= 100.0 * whole;
    } else {
      assert q * whole > 100.0 * whole;
    }
  }

  /** An idle counter that moves back by 10 while the total moves forward by 10 reads as 200 % busy. */
  lemma UsageAsWrittenExceedsHundred()
    ensures UsageAsWritten(1000, 500, 1010, 490) == 200.0
  {
    assert Sub(1010, 1000) == 10;
    assert Sub(490, 500) as int == MOD - 10;
    assert Sub(10, Sub(490, 500)) == 20;
  }

  /** A total counter that moves back reads as fully busy instead of as zero. */
  lemma UsageAsWrittenBackwardsTotal()
    ensures UsageAsWritten(1010, 500, 1000, 500) == 100.0
  {
    var totald := Sub(1000, 1010);
    assert totald as int == MOD - 10;
    assert Sub(totald, Sub(500, 500)) == totald;
  }

  /**
   * Utilisation with the deltas clamped: 0 unless the total strictly grew,
   * and an idle delta that went backwards or beyond the total delta is held
   * within [0, total delta].
   */
  function Usage(totalPrev: u64, idlePrev: u64, totalCurr: u64, idleCurr: u64): (pct: real)
    ensures 0.0 <= pct <= 100.0
    ensures totalCurr <= totalPrev ==> pct == 0.0
    ensures totalPrev < totalCurr && idlePrev <= idleCurr && idleCurr as int - idlePrev as int <= totalCurr as int - totalPrev as int ==>
              pct * (totalCurr as int - totalPrev as int) as real
              == 100.0 * ((totalCurr as int - totalPrev as int) - (idleCurr as int - idlePrev as int)) as real
  {
    if totalCurr <= totalPrev then 0.0
    else
      var totald := totalCurr as int - totalPrev as int;
      var idled := if idleCurr <= idlePrev then 0 else if idleCurr as int - idlePrev as int > totald then totald
                   else idleCurr as int - idlePrev as int;
      100.0 * (totald - idled) as real / totald as real
  }

  /** When both counters move forward and idle by no more than the total, the two agree. */
  lemma UsageAgreesWhenMonotone(totalPrev: u64, idlePrev: u64, totalCurr: u64, idleCurr: u64)
    requires totalPrev <= totalCurr && idlePrev <= idleCurr
    requires idleCurr as int - idlePrev as int <= totalCurr as int - totalPrev as int
    ensures Usage(totalPrev, idlePrev, totalCurr, idleCurr) == UsageAsWritten(totalPrev, idlePrev, totalCurr, idleCurr)
  {
    var totald := Sub(totalCurr, totalPrev);
    var idled := Sub(idleCurr, idlePrev);
    assert Sub(totald, idled) as int == (totalCurr as int - totalPrev as int) - (idleCurr as int - idlePrev as int);
  }

  /**
   * The number of cores `main` iterates over, as written: the value
   * `read_proc_stat` returned, or the CPU count when that was not positive.
   */
  function LoopBoundAsWritten(cpusRead: int, availableCpus: int): (n: int)
    ensures availableCpus >= 1 ==> n >= 1
    ensures availableCpus >= 1 ==> (n <= availableCpus <==> cpusRead <= availableCpus)
  {
    if cpusRead <= 0 then availableCpus else cpusRead
  }

  /** More per-core lines than CPUs make the loop run past the end of arrays sized by the CPU count. */
  lemma LoopBoundAsWrittenOverruns()
    ensures LoopBoundAsWritten(2, 1) > 1
  {
  }

  /** The loop bound held to the arrays' size. */
  function LoopBound(cpusRead: int, availableCpus: int): (n: int)
    requires availableCpus >= 1
    ensures 1 <= n <= availableCpus
    ensures 1 <= cpusRead <= availableCpus ==> n == cpusRead
    ensures n == LoopBoundAsWritten(cpusRead, availableCpus) <==> cpusRead <= availableCpus
  {
    if cpusRead <= 0 || cpusRead > availableCpus then availableCpus else cpusRead
  }

  /**
   * One utilisation update as `main` writes it: for each of the first
   * `LoopBoundAsWritten` cores the unclamped usage from the previous to the
   * current snapshot, then the current snapshot becomes the previous one.
   * The loop stays inside the arrays only when `read_proc_stat` counted no
   * more cores than there are CPUs, which is this method's precondition.
   */
  method UpdateUtilisation(totalPrev: array<u64>, idlePrev: array<u64>, totalCurr: array<u64>, idleCurr: array<u64>,
                           cpusRead: int, availableCpus: int)
    returns (utilPct: seq<real>)
    requires availableCpus >= 1 && cpusRead <= availableCpus
    requires totalPrev.Length == availableCpus && idlePrev.Length == availableCpus
    requires totalCurr.Length == availableCpus && idleCurr.Length == availableCpus
    requires totalPrev != idlePrev
    requires totalPrev != totalCurr && totalPrev != idleCurr && idlePrev != totalCurr && idlePrev != idleCurr
    modifies totalPrev, idlePrev
    ensures |utilPct| == LoopBoundAsWritten(cpusRead, availableCpus)
    ensures forall c :: 0 <= c < |utilPct| ==>
              utilPct[c] == UsageAsWritten(old(totalPrev[c]), old(idlePrev[c]), totalCurr[c], idleCurr[c])
    ensures forall c :: 0 <= c < |utilPct| ==> totalPrev[c] == totalCurr[c] && idlePrev[c] == idleCurr[c]
    ensures forall c :: |utilPct| <= c < availableCpus ==> totalPrev[c] == old(totalPrev[c]) && idlePrev[c] == old(idlePrev[c])
  {
    var n := LoopBoundAsWritten(cpusRead, availableCpus);
    utilPct := [];
    for c := 0 to n
      invariant |utilPct| == c
      invariant forall k :: 0 <= k < c ==> utilPct[k] == UsageAsWritten(old(totalPrev[k]), old(idlePrev[k]), totalCurr[k], idleCurr[k])
      invariant forall k :: 0 <= k < c ==> totalPrev[k] == totalCurr[k] && idlePrev[k] == idleCurr[k]
      invariant forall k :: c <= k < availableCpus ==> totalPrev[k] == old(totalPrev[k]) && idlePrev[k] == old(idlePrev[k])
    {
      var usage := UsageAsWritten(totalPrev[c], idlePrev[c], totalCurr[c], idleCurr[c]);
      utilPct := utilPct + [usage];
      totalPrev[c] := totalCurr[c];
      idlePrev[c] := idleCurr[c];
    }
  }

  /**
   * The same update with both corrections: the loop bound held to the
   * arrays' size and the clamped usage, so every reported value lies in
   * [0, 100] whatever the counters did. Entries at or above the bound keep
   * their value.
   */
  method UpdateUtilisationClamped(totalPrev: array<u64>, idlePrev: array<u64>, totalCurr: array<u64>, idleCurr: array<u64>,
                                  cpusRead: int, availableCpus: int)
    returns (utilPct: seq<real>)
    requires availableCpus >= 1
    requires totalPrev.Length == availableCpus && idlePrev.Length == availableCpus
    requires totalCurr.Length == availableCpus && idleCurr.Length == availableCpus
    requires totalPrev != idlePrev
    requires totalPrev != totalCurr && totalPrev != idleCurr && idlePrev != totalCurr && idlePrev != idleCurr
    modifies totalPrev, idlePrev
    ensures |utilPct| == LoopBound(cpusRead, availableCpus)
    ensures forall c :: 0 <= c < |utilPct| ==>
              utilPct[c] == Usage(old(totalPrev[c]), old(idlePrev[c]), totalCurr[c], idleCurr[c])
    ensures forall c :: 0 <= c < |utilPct| ==> 0.0 <= utilPct[c] <= 100.0
    ensures forall c :: 0 <= c < |utilPct| ==> totalPrev[c] == totalCurr[c] && idlePrev[c] == idleCurr[c]
    ensures forall c :: |utilPct| <= c < availableCpus ==> totalPrev[c] == old(totalPrev[c]) && idlePrev[c] == old(idlePrev[c])
  {
    var n := LoopBound(cpusRead, availableCpus);
    utilPct := [];
    for c := 0 to n
      invariant |utilPct| == c
      invariant forall k :: 0 <= k < c ==> utilPct[k] == Usage(old(totalPrev[k]), old(idlePrev[k]), totalCurr[k], idleCurr[k])
      invariant forall k :: 0 <= k < c ==> totalPrev[k] == totalCurr[k] && idlePrev[k] == idleCurr[k]
      invariant forall k :: c <= k < availableCpus ==> totalPrev[k] == old(totalPrev[k]) && idlePrev[k] == old(idlePrev[k])
    {
      var usage := Usage(totalPrev[c], idlePrev[c], totalCurr[c], idleCurr[c]);
      utilPct := utilPct + [usage];
      totalPrev[c] := totalCurr[c];
      idlePrev[c] := idleCurr[c];
    }
  }

  // ---------------------------------------------------------- ops delta

  /**
   * The per-thread delta of one log line: each counter minus its value at
   * the previous line (or minus 0 without the `prev_ops` array), in
   * `uint64_t`; the array then holds the current counters.
   */
  method OpsDeltas(ops: seq<u64>, prevOps: array?<u64>) returns (deltas: seq<u64>)
    requires prevOps != null ==> prevOps.Length == |ops|
    modifies prevOps
    ensures |deltas| == |ops|
    ensures prevOps != null ==> forall t :: 0 <= t < |ops| ==> deltas[t] == Sub(ops[t], old(prevOps[t]))
    ensures prevOps == null ==> deltas == ops
    ensures prevOps != null ==> prevOps[..] == ops
    ensures prevOps != null ==> forall t :: 0 <= t < |ops| ==> Add(old(prevOps[t]), deltas[t]) == ops[t]
  {
    deltas := [];
    for t := 0 to |ops|
      invariant |deltas| == t
      invariant prevOps != null ==> forall k :: 0 <= k < t ==> deltas[k] == Sub(ops[k], old(prevOps[k])) && prevOps[k] == ops[k]
      invariant prevOps != null ==> forall k :: t <= k < |ops| ==> prevOps[k] == old(prevOps[k])
      invariant prevOps == null ==> deltas == ops[..t]
    {
      var cur := ops[t];
      var delta := Sub(cur, if prevOps != null then prevOps[t] else 0);
      if prevOps != null {
        AddSubCancel(cur, prevOps[t]);
        prevOps[t] := cur;
      }
      deltas := deltas + [delta];
    }
    if prevOps != null {
      assert prevOps[..] == ops;
    } else {
      assert ops[..|ops|] == ops;
    }
  }

  /** The deltas logged over successive readings of one counter, summed. */
  function DeltaSum(readings: seq<u64>): int
    requires |readings| >= 1
    decreases |readings|
  {
    if |readings| == 1 then 0
    else DeltaSum(readings[..|readings| - 1]) + Sub(readings[|readings| - 1], readings[|readings| - 2]) as int
  }

  /** Two consecutive wrapped deltas add up, modulo 2^64, to the wrapped delta across both. */
  lemma SubAddsUp(a: u64, b: u64, c: u64)
    ensures Wrap(Sub(b, a) as int + Sub(c, b) as int) == Sub(c, a)
  {
    WrapOfSum(b as int - a as int, Sub(c, b) as int);
    WrapOfSum(c as int - b as int, b as int - a as int);
    assert Sub(b, a) == Wrap(b as int - a as int);
    assert Sub(c, b) == Wrap(c as int - b as int);
  }

  /**
   * The logged deltas of a counter, summed modulo 2^64, are how far the
   * counter moved between the first and the last reading, whatever
   * wrap-arounds happened in between.
   */
  lemma {:induction false} DeltasTelescope(readings: seq<u64>)
    requires |readings| >= 1
    ensures Wrap(DeltaSum(readings)) == Sub(readings[|readings| - 1], readings[0])
  {
    var n := |readings|;
    if n == 1 {
      assert Sub(readings[0], readings[0]) == 0;
    } else {
      var front := readings[..n - 1];
      DeltasTelescope(front);
      assert front[|front| - 1] == readings[n - 2] && front[0] == readings[0];
      WrapOfSum(DeltaSum(front), Sub(readings[n - 1], readings[n - 2]) as int);
      SubAddsUp(readings[0], readings[n - 2], readings[n - 1]);
    }
  }
}
