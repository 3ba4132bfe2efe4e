/**
 * The duty cycle of `worker_thread`: the busy and sleep budgets of one
 * control period, the busy phase that runs work units until the budget is
 * spent or a stop is seen, and the sleep that follows it. Clock readings and
 * the stop flag are inputs, given as the sequence of values the worker
 * observes.
 */
module Worker {
  import opened CText
  import opened UInt64
  import opened Config
  import opened Environment

  /** `CONTROL_PERIOD_MS` (100) in nanoseconds. */
  const PeriodNs: int := 100_000_000
  const NsPerSec: int := 1_000_000_000

  // ------------------------------------------------------------ budgets

  /** The target utilisation held to [0, 100]. */
  function ClampUtil(u: real): (c: real)
    ensures 0.0 <= c <= 100.0
    ensures 0.0 <= u <= 100.0 ==> c == u
    ensures u < 0.0 ==> c == 0.0
    ensures u > 100.0 ==> c == 100.0
  {
    if u < 0.0 then 0.0 else if u > 100.0 then 100.0 else u
  }

  datatype Budget = Budget(busyNs: int, sleepNs: int)

  /**
   * The busy time is the clamped utilisation's share of the period, rounded
   * to the nearest nanosecond; the sleep time is the rest of the period.
   */
  function DutyCycle(targetUtil: real): (b: Budget)
    ensures b.busyNs + b.sleepNs == PeriodNs
    ensures 0 <= b.busyNs <= PeriodNs && 0 <= b.sleepNs <= PeriodNs
    ensures -0.5 <= b.busyNs as real - ClampUtil(targetUtil) * 1_000_000.0 <= 0.5
  {
    var util := ClampUtil(targetUtil);
    var busy := Round((util / 100.0) * PeriodNs as real);
    Budget(busy, PeriodNs - busy)
  }

  /** A whole-percent target gives exactly that many hundredths of the period. */
  lemma DutyCycleOfWholePercent(p: int)
    requires 0 <= p <= 100
    ensures DutyCycle(p as real) == Budget(p * 1_000_000, (100 - p) * 1_000_000)
  {
    var b := DutyCycle(p as real);
    assert -0.5 <= b.busyNs as real - (p * 1_000_000) as real <= 0.5;
  }

  /** Every target `parse_args` accepts (10 to 100) keeps the worker busy at least a tenth of the period. */
  lemma AcceptedUtilBusyShare(u: real)
    requires 10.0 <= u <= 100.0
    ensures 10_000_000 <= DutyCycle(u).busyNs <= PeriodNs
    ensures DutyCycle(u).sleepNs == 0 <==> u * 1_000_000.0 >= 99_999_999.5
  {
  }

  // -------------------------------------------------------------- clock

  /** A `struct timespec`. */
  datatype Timespec = Timespec(sec: int, nsec: int)

  /** The instant a `timespec` denotes, in nanoseconds. */
  function Nanos(t: Timespec): int
  {
    t.sec * NsPerSec + t.nsec
  }

  /**
   * Nanoseconds from `t0` to `t1`, computed field by field as
   * `(t1.tv_sec - t0.tv_sec) * 1000000000L + (t1.tv_nsec - t0.tv_nsec)`.
   * It is the difference of the two instants whether or not the fields are
   * normalised.
   */
  function Elapsed(t0: Timespec, t1: Timespec): (d: int)
    ensures d == Nanos(t1) - Nanos(t0)
    ensures t1.sec == t0.sec ==> d == t1.nsec - t0.nsec
  {
    (t1.sec - t0.sec) * NsPerSec + (t1.nsec - t0.nsec)
  }

  /** C division on `long`, truncating toward zero. */
  function CDiv(a: int, b: int): (q: int)
    requires b > 0
    ensures a >= 0 ==> q == a / b
  {
    if a >= 0 then a / b else -((-a) / b)
  }

  /** C remainder on `long`: the sign follows the dividend. */
  function CMod(a: int, b: int): (r: int)
    requires b > 0
    ensures CDiv(a, b) * b + r == a
    ensures -b < r < b
    ensures a >= 0 ==> 0 <= r
    ensures a <= 0 ==> r <= 0
  {
    a - CDiv(a, b) * b
  }

  /** The `timespec` handed to `nanosleep`: the sleep budget in seconds and nanoseconds. */
  function SleepTimespec(sleepNs: int): (ts: Timespec)
    ensures ts.sec * NsPerSec + ts.nsec == sleepNs
    ensures sleepNs >= 0 ==> 0 <= ts.nsec < NsPerSec && ts.sec >= 0
  {
    Timespec(CDiv(sleepNs, NsPerSec), CMod(sleepNs, NsPerSec))
  }

  /** A sleep budget never reaches a second, so the sleep is in nanoseconds only. */
  lemma SleepUnderOneSecond(u: real)
    ensures SleepTimespec(DutyCycle(u).sleepNs) == Timespec(0, DutyCycle(u).sleepNs)
  {
  }

  // --------------------------------------------------------- busy phase

  /** The work-unit kernels. */
  datatype Kernel = IntUnit | FloatUnit | AvxUnit

  /** The kernels one busy-loop iteration runs: MIXED runs all three, in this order, every time. */
  function Units(kind: Workload): (ks: seq<Kernel>)
    ensures |ks| == if kind == Mixed then 3 else 1
    ensures IntUnit in ks <==> kind == Int || kind == Mixed
    ensures FloatUnit in ks <==> kind == Float || kind == Mixed
    ensures AvxUnit in ks <==> kind == Avx || kind == Mixed
    ensures forall i, j :: 0 <= i < j < |ks| ==> ks[i] != ks[j]
  {
    match kind
    case Int => [IntUnit]
    case Float => [FloatUnit]
    case Avx => [AvxUnit]
    case Mixed => [IntUnit, FloatUnit, AvxUnit]
  }

  /** `n` copies of `s`, one after the other. */
  function Repeat(s: seq<Kernel>, n: nat): (r: seq<Kernel>)
    ensures |r| == n * |s|
  {
    if n == 0 then [] else Repeat(s, n - 1) + s
  }

  /** Each kernel appears `n` times as often in `Repeat(s, n)` as in `s`. */
  lemma {:induction false} RepeatCount(s: seq<Kernel>, n: nat, k: Kernel)
    ensures multiset(Repeat(s, n))[k] == n * multiset(s)[k]
  {
    if n > 0 {
      var r := Repeat(s, n - 1);
      var c := multiset(s)[k];
      RepeatCount(s, n - 1, k);
      assert multiset(r + s) == multiset(r) + multiset(s);
      assert multiset(Repeat(s, n))[k] == multiset(r)[k] + c;
      assert (n - 1) * c + c == n * c;
    }
  }

  /**
   * Whether the busy loop leaves after its iteration `k` (from 0): the time
   * since the phase began, read after the unit, has reached the budget, or
   * the stop flag was seen.
   */
  predicate Leaves(busyNs: int, clock: seq<Timespec>, stops: seq<bool>, k: nat)
    requires k + 1 < |clock| && k < |stops|
    ensures stops[k] ==> Leaves(busyNs, clock, stops, k)
    ensures !stops[k] ==> (Leaves(busyNs, clock, stops, k) <==> Nanos(clock[k + 1]) >= Nanos(clock[0]) + busyNs)
  {
    Elapsed(clock[0], clock[k + 1]) >= busyNs || stops[k]
  }

  /** The readings end with an iteration after which the loop leaves. */
  predicate Terminates(busyNs: int, clock: seq<Timespec>, stops: seq<bool>)
  {
    |clock| >= 2 && |stops| >= |clock| - 1 && Leaves(busyNs, clock, stops, |clock| - 2)
  }

  /**
   * The busy phase of one control period. `clock[0]` is the reading taken
   * at the start of the period and `clock[k + 1]` the one taken after
   * iteration `k`; `stops[k]` is the stop flag as iteration `k` sees it.
   * With a positive budget the loop runs at least once and stops after the
   * first iteration whose check succeeds; every iteration adds one to the
   * worker's operation counter (in `uint64_t`) and runs `Units(w.kind)`.
   */
  method BusyPhase(w: WorkerArg, busyNs: int, clock: seq<Timespec>, stops: seq<bool>)
    returns (done: WorkerArg, iterations: nat, trace: seq<Kernel>)
    requires busyNs > 0 ==> Terminates(busyNs, clock, stops)
    ensures busyNs <= 0 ==> iterations == 0
    ensures busyNs > 0 ==> 1 <= iterations < |clock| && Leaves(busyNs, clock, stops, iterations - 1)
    ensures forall k :: 0 <= k < iterations - 1 ==> !Leaves(busyNs, clock, stops, k)
    ensures done == w.(opsDone := Wrap(w.opsDone as int + iterations))
    ensures trace == Repeat(Units(w.kind), iterations)
  {
    done, iterations, trace := w, 0, [];
    if busyNs > 0 {
      while true
        invariant iterations < |clock| - 1
        invariant forall k :: 0 <= k < iterations ==> !Leaves(busyNs, clock, stops, k)
        invariant done == w.(opsDone := Wrap(w.opsDone as int + iterations))
        invariant trace == Repeat(Units(w.kind), iterations)
        decreases |clock| - iterations
      {
        trace := trace + Units(w.kind);
        WrapOfSum(w.opsDone as int + iterations, 1);
        done := done.(opsDone := Add(done.opsDone, 1));
        iterations := iterations + 1;
        var t1 := clock[iterations];
        var elapsed := Elapsed(clock[0], t1);
        if elapsed >= busyNs || stops[iterations - 1] {
          break;
        }
      }
    }
  }

  /**
   * For MIXED, one iteration is one operation but three kernels: the
   * counter advances by as many as each kernel ran, and the kernels run in
   * equal numbers.
   */
  lemma MixedRunsEveryUnit(iterations: nat)
    ensures |Repeat(Units(Mixed), iterations)| == 3 * iterations
    ensures forall k: Kernel :: multiset(Repeat(Units(Mixed), iterations))[k] == iterations
  {
    forall k: Kernel
      ensures multiset(Repeat(Units(Mixed), iterations))[k] == iterations
    {
      RepeatCount(Units(Mixed), iterations, k);
      var m := multiset(Units(Mixed));
      assert m == multiset{IntUnit, FloatUnit, AvxUnit};
      match k
      case IntUnit => assert m[IntUnit] == 1;
      case FloatUnit => assert m[FloatUnit] == 1;
      case AvxUnit => assert m[AvxUnit] == 1;
    }
  }

  // -------------------------------------------------------------- sleep

  /** The sleep that ends a period: only with a positive sleep budget and no stop seen. */
  function SleepAfterBusy(b: Budget, stopSeen: bool): (ts: Option<Timespec>)
    ensures ts.Some? <==> b.sleepNs > 0 && !stopSeen
    ensures ts.Some? ==> ts.value.sec * NsPerSec + ts.value.nsec == b.sleepNs
  {
    if b.sleepNs > 0 && !stopSeen then Some(SleepTimespec(b.sleepNs)) else None
  }

  /**
   * A period whose busy phase ended on the clock rather than on a stop, and
   * that then sleeps, lasts at least the control period.
   */
  lemma PeriodLastsAtLeastControlPeriod(u: real, t0: Timespec, t1: Timespec)
    requires Elapsed(t0, t1) >= DutyCycle(u).busyNs
    requires SleepAfterBusy(DutyCycle(u), false).Some?
    ensures var ts := SleepAfterBusy(DutyCycle(u), false).value;
            Elapsed(t0, t1) + ts.sec * NsPerSec + ts.nsec >= PeriodNs
  {
  }
}
