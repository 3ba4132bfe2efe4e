/**
 * Per-core tick accounting from `/proc/stat` (`read_proc_stat`). Each line
 * is given as the text `fgets` returned together with the values `sscanf`
 * assigned, in the order user, nice, system, idle, iowait, irq, softirq,
 * steal (the per-CPU line format of proc(5)).
 */
module ProcStat {
  import opened CText
  import opened UInt64

  datatype StatLine = StatLine(text: string, fields: seq<u64>)

  predicate StartsWithCpu(text: string) { |text| >= 3 && text[..3] == "cpu" }

  /** The aggregate line is "cpu " followed by the totals over all CPUs. */
  predicate IsAggregate(text: string) { |text| > 3 && text[3] == ' ' }

  /** `sscanf`'s return value: it assigns at most eight fields. */
  function Matched(f: seq<u64>): nat
  {
    if |f| > 8 then 8 else |f|
  }

  /** Field `k` when `sscanf` assigned it, 0 (the initial value) otherwise. */
  function Opt(f: seq<u64>, k: nat): u64
  {
    if k < Matched(f) then f[k] else 0
  }

  /** Idle ticks: idle, plus iowait when present, in 64-bit arithmetic. */
  function LineIdle(f: seq<u64>): (r: u64)
    ensures Matched(f) <= 4 ==> r == Opt(f, 3)
    ensures Opt(f, 3) as int + Opt(f, 4) as int < MOD ==> r as int == Opt(f, 3) as int + Opt(f, 4) as int
  {
    Wrap(Opt(f, 3) as int + Opt(f, 4) as int)
  }

  /** The mathematical sum of user, nice, system, and irq, softirq and steal when present. */
  function NonIdleSum(f: seq<u64>): int
  {
    Opt(f, 0) as int + Opt(f, 1) as int + Opt(f, 2) as int + Opt(f, 5) as int + Opt(f, 6) as int + Opt(f, 7) as int
  }

  /** Non-idle ticks in 64-bit arithmetic. */
  function LineNonIdle(f: seq<u64>): u64
  {
    Wrap(NonIdleSum(f))
  }

  /** All ticks of the line, in 64-bit arithmetic: the wrapped sum of the idle and the non-idle ticks. */
  function LineTotal(f: seq<u64>): (r: u64)
    ensures r == Add(LineIdle(f), LineNonIdle(f))
  {
    var idle := Opt(f, 3) as int + Opt(f, 4) as int;
    WrapOfSum(idle, LineNonIdle(f) as int);
    WrapOfSum(NonIdleSum(f), idle);
    assert Wrap(idle + LineNonIdle(f) as int) == Wrap(LineNonIdle(f) as int + idle);
    Wrap(Opt(f, 3) as int + Opt(f, 4) as int + NonIdleSum(f))
  }

  /**
   * The records `read_proc_stat` accepts: lines up to the first one that does
   * not start with "cpu", without the aggregate line and without lines where
   * fewer than four fields were read.
   */
  function CoreRecords(lines: seq<StatLine>): (r: seq<seq<u64>>)
    ensures |r| <= |lines|
    ensures forall k :: 0 <= k < |r| ==> |r[k]| >= 4
  {
    if lines == [] || !StartsWithCpu(lines[0].text) then []
    else if IsAggregate(lines[0].text) || Matched(lines[0].fields) < 4 then CoreRecords(lines[1..])
    else [lines[0].fields] + CoreRecords(lines[1..])
  }

  /** How the accepted records from line `j` on follow from line `j` itself. */
  lemma RecordsAt(lines: seq<StatLine>, j: nat)
    requires j < |lines|
    ensures !StartsWithCpu(lines[j].text) ==> CoreRecords(lines[j..]) == []
    ensures StartsWithCpu(lines[j].text) && (IsAggregate(lines[j].text) || Matched(lines[j].fields) < 4) ==>
              CoreRecords(lines[j..]) == CoreRecords(lines[j + 1..])
    ensures StartsWithCpu(lines[j].text) && !IsAggregate(lines[j].text) && Matched(lines[j].fields) >= 4 ==>
              CoreRecords(lines[j..]) == [lines[j].fields] + CoreRecords(lines[j + 1..])
  {
    assert lines[j..][1..] == lines[j + 1..];
  }

  /**
   * `read_proc_stat`: -1 when the file cannot be opened; otherwise the number
   * of accepted per-core lines, of which the first `maxCpus` have their total
   * and idle ticks stored in the two arrays. Nothing else is written.
   */
  method ReadProcStat(file: Option<seq<StatLine>>, totalOut: array<u64>, idleOut: array<u64>, maxCpus: int)
    returns (n: int)
    requires totalOut != idleOut
    requires maxCpus <= totalOut.Length && maxCpus <= idleOut.Length
    modifies totalOut, idleOut
    ensures file.None? ==> n == -1 && totalOut[..] == old(totalOut[..]) && idleOut[..] == old(idleOut[..])
    ensures file.Some? ==> n == |CoreRecords(file.value)|
    ensures file.Some? ==> Filled(totalOut[..], old(totalOut[..]), Totals(CoreRecords(file.value)), maxCpus)
    ensures file.Some? ==> Filled(idleOut[..], old(idleOut[..]), Idles(CoreRecords(file.value)), maxCpus)
  {
    if file.None? { return -1; }
    var lines := file.value;
    var idx := 0;
    var j := 0;
    ghost var acc: seq<seq<u64>> := [];
    while j < |lines|
      invariant 0 <= j <= |lines|
      invariant idx == |acc|
      invariant acc + CoreRecords(lines[j..]) == CoreRecords(lines)
      invariant Filled(totalOut[..], old(totalOut[..]), Totals(acc), maxCpus)
      invariant Filled(idleOut[..], old(idleOut[..]), Idles(acc), maxCpus)
    {
      var line := lines[j];
      RecordsAt(lines, j);
      if !StartsWithCpu(line.text) {
        break;
      }
      // the aggregate line and lines with fewer than four fields are skipped
      var f := line.fields;
      var matched := Matched(f);
      if !IsAggregate(line.text) && matched >= 4 {
        AcceptLine(totalOut, idleOut, idx, maxCpus, f, acc, old(totalOut[..]), old(idleOut[..]));
        acc := acc + [f];
        idx := idx + 1;
      }
      j := j + 1;
    }
    assert j < |lines| ==> CoreRecords(lines[j..]) == [];
    assert j == |lines| ==> lines[j..] == [];
    assert acc == CoreRecords(lines);
    return idx;
  }

  /**
   * One accepted line: its ticks are computed and, while `idx` is below
   * `maxCpus`, stored at `idx`.
   */
  method AcceptLine(totalOut: array<u64>, idleOut: array<u64>, idx: int, maxCpus: int, f: seq<u64>,
                    ghost acc: seq<seq<u64>>, ghost totalBefore: seq<u64>, ghost idleBefore: seq<u64>)
    requires totalOut != idleOut && idx == |acc| && Matched(f) >= 4
    requires Filled(totalOut[..], totalBefore, Totals(acc), maxCpus)
    requires Filled(idleOut[..], idleBefore, Idles(acc), maxCpus)
    modifies totalOut, idleOut
    ensures Filled(totalOut[..], totalBefore, Totals(acc + [f]), maxCpus)
    ensures Filled(idleOut[..], idleBefore, Idles(acc + [f]), maxCpus)
  {
    var idleAll, total := LineTicks(f, Matched(f));
    ghost var t0, i0 := totalOut[..], idleOut[..];
    FilledStep(t0, totalBefore, Totals(acc), maxCpus, total);
    FilledStep(i0, idleBefore, Idles(acc), maxCpus, idleAll);
    if idx < maxCpus {
      totalOut[idx] := total;
      idleOut[idx] := idleAll;
      assert totalOut[..] == t0[idx := total] && idleOut[..] == i0[idx := idleAll];
    }
    assert Totals(acc + [f]) == Totals(acc) + [total];
    assert Idles(acc + [f]) == Idles(acc) + [idleAll];
  }

  /** Per-record totals and idle ticks, in record order. */
  function Totals(recs: seq<seq<u64>>): (t: seq<u64>)
    ensures |t| == |recs| && forall k :: 0 <= k < |recs| ==> t[k] == LineTotal(recs[k])
  {
    seq(|recs|, k requires 0 <= k < |recs| => LineTotal(recs[k]))
  }

  function Idles(recs: seq<seq<u64>>): (t: seq<u64>)
    ensures |t| == |recs| && forall k :: 0 <= k < |recs| ==> t[k] == LineIdle(recs[k])
  {
    seq(|recs|, k requires 0 <= k < |recs| => LineIdle(recs[k]))
  }

  /** `a` holds `vals` below `limit` and its initial contents `before` everywhere else. */
  ghost predicate Filled(a: seq<u64>, before: seq<u64>, vals: seq<u64>, limit: int)
  {
    |a| == |before| && limit <= |a| &&
    forall k :: 0 <= k < |a| ==> a[k] == if k < |vals| && k < limit then vals[k] else before[k]
  }

  lemma FilledStep(a: seq<u64>, before: seq<u64>, vals: seq<u64>, limit: int, v: u64)
    requires Filled(a, before, vals, limit)
    ensures |vals| < limit ==> Filled(a[|vals| := v], before, vals + [v], limit)
    ensures |vals| >= limit ==> Filled(a, before, vals + [v], limit)
  {
  }

  /**
   * The arithmetic of one accepted line, in the C expression order: fields
   * `sscanf` did not assign keep their initial 0 and are only added when
   * `matched` says they were read.
   */
  method LineTicks(f: seq<u64>, matched: nat) returns (idleAll: u64, total: u64)
    requires |f| >= 4 && matched == Matched(f)
    ensures idleAll == LineIdle(f) && total == LineTotal(f)
  {
    var user, nice, system, idle := f[0], f[1], f[2], f[3];
    var iowait, irq, softirq, steal := Opt(f, 4), Opt(f, 5), Opt(f, 6), Opt(f, 7);
    idleAll := Add(idle, if matched >= 5 then iowait else 0);
    var nonidle := Add(Add(Add(Add(Add(user, nice), system), if matched >= 6 then irq else 0),
                           if matched >= 7 then softirq else 0), if matched >= 8 then steal else 0);
    total := Add(idleAll, nonidle);
    NonIdleChain(f);
  }

  /** Adding the fields one at a time in `uint64_t`, as the C expression does, gives the non-idle ticks. */
  lemma NonIdleChain(f: seq<u64>)
    requires |f| >= 4
    ensures Add(Add(Add(Add(Add(f[0], f[1]), f[2]), Opt(f, 5)), Opt(f, 6)), Opt(f, 7)) == LineNonIdle(f)
  {
    assert Opt(f, 0) == f[0] && Opt(f, 1) == f[1] && Opt(f, 2) == f[2];
    AddChain(f[0], f[1], f[2], Opt(f, 5), Opt(f, 6), Opt(f, 7));
  }

  /** Total minus idle is the non-idle part, even when the sums wrapped. */
  lemma TotalMinusIdle(f: seq<u64>)
    ensures Sub(LineTotal(f), LineIdle(f)) == LineNonIdle(f)
  {
    AddSubCancel(LineTotal(f), LineIdle(f));
    var d := Sub(LineTotal(f), LineIdle(f));
    assert Add(LineIdle(f), d) == Add(LineIdle(f), LineNonIdle(f));
    AddInjective(LineIdle(f), d, LineNonIdle(f));
  }

  lemma AddInjective(a: u64, x: u64, y: u64)
    requires Add(a, x) == Add(a, y)
    ensures x == y
  {
  }

  /** Without wrap-around the total is the plain sum of the fields that were read. */
  lemma TotalWithoutOverflow(f: seq<u64>)
    requires Opt(f, 3) as int + Opt(f, 4) as int + NonIdleSum(f) < MOD
    ensures LineTotal(f) as int == LineIdle(f) as int + LineNonIdle(f) as int
    ensures LineIdle(f) as int == Opt(f, 3) as int + Opt(f, 4) as int
  {
  }

  /**
   * The count is not bounded by `maxCpus`: a file with more per-core lines
   * than the arrays hold makes `read_proc_stat` return more than it stored.
   */
  lemma CountCanExceedCapacity()
    ensures var line := StatLine("cpu0 1 2 3 4", [1, 2, 3, 4]);
            |CoreRecords([line, line])| == 2
  {
    var line := StatLine("cpu0 1 2 3 4", [1, 2, 3, 4]);
    assert StartsWithCpu(line.text) && !IsAggregate(line.text);
    assert [line, line][1..] == [line];
  }
}
