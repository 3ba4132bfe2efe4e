/**
 * The configuration front end of coreburner: the duration parser, the
 * workload keyword mapping and the command-line dispatch loop with its
 * acceptance checks.
 */
module Config {
  import opened CText

  const DefaultMaxThreads: int := 256
  const DefaultDurationLimitSec: int := 24 * 3600
  const DefaultTempThreshold: real := 90.0
  const ReportIntervalSec: int := 1

  /** `workload_t`. */
  datatype Workload = Int | Float | Avx | Mixed

  // ------------------------------------------------------ duration parser

  predicate IsBlank(c: char) { c == ' ' }

  predicate IsUnitLetter(c: char) { c in {'s', 'S', 'm', 'M', 'h', 'H'} }

  /** What follows the number once the ' ' characters after it are skipped (and only those: a tab is not). */
  function AfterBlanks(rest: string): (t: string)
    ensures t == [] || t[0] != ' '
  {
    rest[PrefixLength(rest, IsBlank)..]
  }

  /** The time units a duration may carry. */
  datatype Unit = Second | Minute | Hour

  function UnitSeconds(u: Unit): int
  {
    match u
    case Second => 1
    case Minute => 60
    case Hour => 3600
  }

  /** The unit named by the first non-blank character after the number (the end of the string means seconds). */
  function UnitAfter(rest: string): (f: Option<Unit>)
    ensures var t := AfterBlanks(rest);
            f == Some(Second) <==> t == [] || t[0] == 's' || t[0] == 'S'
    ensures var t := AfterBlanks(rest);
            f == Some(Minute) <==> t != [] && (t[0] == 'm' || t[0] == 'M')
    ensures var t := AfterBlanks(rest);
            f == Some(Hour) <==> t != [] && (t[0] == 'h' || t[0] == 'H')
    ensures var t := AfterBlanks(rest);
            f.None? <==> t != [] && !IsUnitLetter(t[0])
  {
    var t := AfterBlanks(rest);
    if t == [] || t[0] == 's' || t[0] == 'S' then Some(Second)
    else if t[0] == 'm' || t[0] == 'M' then Some(Minute)
    else if t[0] == 'h' || t[0] == 'H' then Some(Hour)
    else None
  }

  /** `v` units in seconds, multiplied out by the constant the source uses for that unit. */
  function InSeconds(v: real, u: Unit): real
  {
    match u
    case Second => v
    case Minute => v * 60.0
    case Hour => v * 3600.0
  }

  /** `InSeconds` is the value times the unit's number of seconds. */
  lemma InSecondsIsProduct(v: real, u: Unit)
    ensures InSeconds(v, u) == v * UnitSeconds(u) as real
  {
  }

  /**
   * `parse_duration_seconds`: -1 for a null string, when no number converts,
   * or when the first non-blank character after the number is neither the
   * end nor s, S, m, M, h or H; otherwise the number in seconds rounded to
   * the nearest integer, halves away from zero. Only that one character is
   * looked at, so "2min" is 120 and "1hour" is 3600.
   */
  function ParseDuration(s: Option<string>): (r: int)
    ensures s.None? ==> r == -1
    ensures s.Some? && ScanDecimal(s.value).NoNumber? ==> r == -1
    ensures s.Some? && ScanDecimal(s.value).Number? && UnitAfter(ScanDecimal(s.value).rest).None? ==> r == -1
    ensures s.Some? && ScanDecimal(s.value).Number? && UnitAfter(ScanDecimal(s.value).rest).Some? ==>
              var x := InSeconds(ScanDecimal(s.value).value, UnitAfter(ScanDecimal(s.value).rest).value);
              -0.5 <= r as real - x <= 0.5 && (x >= 0.0 ==> r >= 0)
  {
    if s.None? then -1 else ScaleBySuffix(ScanDecimal(s.value))
  }

  /** The suffix dispatch once `strtod` has run, for one scan result. */
  function ScaleBySuffix(sc: Scan<real>): (r: int)
    ensures sc.NoNumber? ==> r == -1
    ensures sc.Number? && UnitAfter(sc.rest).None? ==> r == -1
    ensures sc.Number? && UnitAfter(sc.rest).Some? ==>
              var x := InSeconds(sc.value, UnitAfter(sc.rest).value);
              -0.5 <= r as real - x <= 0.5 && (x >= 0.0 ==> r >= 0)
  {
    if sc.NoNumber? then -1
    else
      match UnitAfter(sc.rest)
      case None => -1
      case Some(u) => Round(InSeconds(sc.value, u))
  }

  /**
   * No number after the leading white space and sign (an empty string, a
   * bare unit, a point without digits) is -1.
   */
  lemma DurationWithoutNumber(s: string)
    requires !StartsDecimal(SkipSign(SkipSpaces(s)))
    ensures ParseDuration(Some(s)) == -1
  {
  }

  /** The unit a unit letter names. */
  function UnitOfLetter(c: char): Unit
  {
    if c == 'm' || c == 'M' then Minute else if c == 'h' || c == 'H' then Hour else Second
  }

  /**
   * A whole number printed in decimal, then blanks, then a unit letter, then
   * anything at all, parses to that number times the unit's seconds.
   */
  lemma DurationOfPrinted(n: nat, pad: string, u: char, tail: string)
    requires forall i :: 0 <= i < |pad| ==> pad[i] == ' '
    requires IsUnitLetter(u)
    ensures ParseDuration(Some(NatToString(n) + pad + [u] + tail)) == n * UnitSeconds(UnitOfLetter(u))
  {
    var rest := pad + ([u] + tail);
    assert NatToString(n) + pad + [u] + tail == NatToString(n) + rest;
    assert rest[0] == if pad == [] then u else ' ';
    assert UnitAfter(rest) == Some(UnitOfLetter(u)) by {
      BlanksThen(pad, [u] + tail);
    }
    PrintedThen(n, rest);
  }

  /**
   * A whole number followed by blanks and then a character that is not a
   * unit letter is rejected. Right after the digits that character must also
   * be one `strtod` would not read on: not a '.', a digit or an exponent
   * 'e', and not the 'x' of a hexadecimal "0x". After at least one blank it
   * may be anything, a tab included, as only ' ' is skipped.
   */
  lemma DurationRejectsBadUnit(n: nat, pad: string, c: char, tail: string)
    requires forall i :: 0 <= i < |pad| ==> pad[i] == ' '
    requires !IsUnitLetter(c) && c != ' '
    requires pad != [] || (!IsDigit(c) && c != '.' && c != 'e' && c != 'E' && (n != 0 || (c != 'x' && c != 'X')))
    ensures ParseDuration(Some(NatToString(n) + pad + [c] + tail)) == -1
  {
    var rest := pad + ([c] + tail);
    assert NatToString(n) + pad + [c] + tail == NatToString(n) + rest;
    assert rest[0] == if pad == [] then c else ' ';
    BlanksThen(pad, [c] + tail);
    PrintedThen(n, rest);
  }

  /** "5x", "5 x" and "5\tm" are rejected: neither 'x' nor a tab names a unit, and a tab is not skipped. */
  lemma RejectedDurations(s: string)
    requires s == "5x" || s == "5 x" || s == "5\tm"
    ensures ParseDuration(Some(s)) == -1
  {
    var five := NatToString(5);
    assert five == "5";
    if s == "5x" {
      assert five + "" + ['x'] + "" == s;
      DurationRejectsBadUnit(5, "", 'x', "");
    } else if s == "5 x" {
      assert five + " " + ['x'] + "" == s;
      DurationRejectsBadUnit(5, " ", 'x', "");
    } else {
      assert five + "" + ['\t'] + "m" == s;
      DurationRejectsBadUnit(5, "", '\t', "m");
    }
  }

  /** A printed whole number followed by `rest`: the duration is decided by the unit after it. */
  lemma PrintedThen(n: nat, rest: string)
    requires rest == [] || (!IsDigit(rest[0]) && rest[0] != '.')
    ensures UnitAfter(rest).None? ==> ParseDuration(Some(NatToString(n) + rest)) == -1
    ensures UnitAfter(rest).Some? ==> ParseDuration(Some(NatToString(n) + rest)) == n * UnitSeconds(UnitAfter(rest).value)
  {
    var s := NatToString(n) + rest;
    NatToStringScans(n, rest);
    if UnitAfter(rest).Some? {
      WholeDuration(s, n, rest, UnitAfter(rest).value);
    }
  }

  /** A bare whole number is a number of seconds. */
  lemma DurationOfBareNumber(n: nat)
    ensures ParseDuration(Some(NatToString(n))) == n
  {
    var s := NatToString(n);
    assert ScanDecimal(s) == Number(n as real, []) by {
      assert s + [] == s;
      NatToStringScans(n, []);
    }
    assert UnitAfter([]) == Some(Second);
    WholeDuration(s, n, [], Second);
  }

  /** A scan that reads a whole number followed by a unit gives that number of units in seconds. */
  lemma WholeDuration(s: string, n: nat, rest: string, u: Unit)
    requires ScanDecimal(s) == Number(n as real, rest)
    requires UnitAfter(rest) == Some(u)
    ensures ParseDuration(Some(s)) == n * UnitSeconds(u)
  {
    WholeInSeconds(n, u);
  }

  lemma WholeInSeconds(n: nat, u: Unit)
    ensures Round(InSeconds(n as real, u)) == n * UnitSeconds(u)
  {
  }

  /** Blanks are skipped up to the first character that is not one. */
  lemma BlanksThen(pad: string, t: string)
    requires forall i :: 0 <= i < |pad| ==> pad[i] == ' '
    requires t == [] || t[0] != ' '
    ensures AfterBlanks(pad + t) == t
  {
    PrefixOfAll(pad, t, IsBlank);
    assert (pad + t)[|pad|..] == t;
  }

  // ------------------------------------------------------- workload type

  /** `parse_type`: INT, FLOAT and AVX in any letter case; a missing string is INT; all else MIXED. */
  function ParseType(s: Option<string>): (w: Workload)
    ensures w == Int <==> (s.None? || CaseEqual(s.value, "INT"))
    ensures w == Float <==> (s.Some? && CaseEqual(s.value, "FLOAT"))
    ensures w == Avx <==> (s.Some? && CaseEqual(s.value, "AVX"))
  {
    if s.None? then Int
    else if CaseEqual(s.value, "INT") then
      assert ToLower(s.value[0]) == ToLower('I');
      Int
    else if CaseEqual(s.value, "FLOAT") then Float
    else if CaseEqual(s.value, "AVX") then Avx
    else Mixed
  }

  /** The spelling `main` prints for a workload type. */
  function TypeName(w: Workload): string
  {
    match w
    case Int => "INT"
    case Float => "FLOAT"
    case Avx => "AVX"
    case Mixed => "MIXED"
  }

  /** Every spelling of a type name, in any letter case, parses back to that type. */
  lemma ParseTypeOfName(w: Workload, s: string)
    requires CaseEqual(s, TypeName(w))
    ensures ParseType(Some(s)) == w
  {
    match w
    case Int =>
    case Float =>
    case Avx =>
      assert ToLower(s[0]) == 'a';
    case Mixed =>
      assert ToLower(s[0]) == 'm';
  }

  // ---------------------------------------------------- argument parsing

  /** The out-parameters of `parse_args`. */
  datatype Options = Options(
    mode: Option<string>,
    util: real,
    duration: int,
    kind: Workload,
    maxThreads: int,
    durationLimit: int,
    tempThreshold: real,
    checkOnly: bool,
    logPath: Option<string>,
    logInterval: int,
    logAppend: bool)

  /** The values `parse_args` stores before it looks at any argument. */
  function Defaults(): (o: Options)
    ensures o.mode.None? && !Accepted(o)
    ensures !o.checkOnly && !o.logAppend && o.logPath.None?
    ensures o.logInterval >= 1
  {
    Options(None, -1.0, -1, Int, DefaultMaxThreads, DefaultDurationLimitSec,
            DefaultTempThreshold, false, None, ReportIntervalSec, false)
  }

  predicate IsValueFlag(a: string)
  {
    a in ["--mode", "--util", "--duration", "--type", "--max-threads", "--duration-limit",
          "--temp-threshold", "--log", "--log-interval"]
  }

  predicate IsSwitch(a: string) { a == "--check" || a == "--log-append" }

  /** The effect of a flag that takes the next argument as its value. */
  function ApplyValueFlag(a: string, v: string, o: Options): (r: Option<Options>)
    ensures r.Some? <==> IsValueFlag(a)
    ensures r.Some? ==> r.value.checkOnly == o.checkOnly && r.value.logAppend == o.logAppend
  {
    if a == "--mode" then Some(o.(mode := Some(v)))
    else if a == "--util" then Some(o.(util := AtoF(v)))
    else if a == "--duration" then Some(o.(duration := ParseDuration(Some(v))))
    else if a == "--type" then Some(o.(kind := ParseType(Some(v))))
    else if a == "--max-threads" then Some(o.(maxThreads := AtoI(v)))
    else if a == "--duration-limit" then Some(o.(durationLimit := ParseDuration(Some(v))))
    else if a == "--temp-threshold" then Some(o.(tempThreshold := AtoF(v)))
    else if a == "--log" then Some(o.(logPath := Some(v)))
    else if a == "--log-interval" then
      var n := AtoI(v);
      Some(o.(logInterval := if n <= 0 then ReportIntervalSec else n))
    else None
  }

  /**
   * What each value flag stores: the field it names gets the converted value
   * (`--log-interval` with 1 in place of a value that is not positive), and
   * every other field keeps its value (the two switches are covered by
   * `ApplyValueFlag` itself).
   */
  lemma ValueFlagStores(a: string, v: string, o: Options)
    requires IsValueFlag(a)
    ensures var r := ApplyValueFlag(a, v, o).value;
            && r.mode == (if a == "--mode" then Some(v) else o.mode)
            && r.util == (if a == "--util" then AtoF(v) else o.util)
            && r.duration == (if a == "--duration" then ParseDuration(Some(v)) else o.duration)
            && r.kind == (if a == "--type" then ParseType(Some(v)) else o.kind)
            && r.maxThreads == (if a == "--max-threads" then AtoI(v) else o.maxThreads)
            && r.durationLimit == (if a == "--duration-limit" then ParseDuration(Some(v)) else o.durationLimit)
            && r.tempThreshold == (if a == "--temp-threshold" then AtoF(v) else o.tempThreshold)
            && r.logPath == (if a == "--log" then Some(v) else o.logPath)
            && r.logInterval == (if a != "--log-interval" then o.logInterval
                                 else if AtoI(v) <= 0 then ReportIntervalSec else AtoI(v))
  {
  }

  /** The effect of a flag that takes no value. */
  function ApplySwitch(a: string, o: Options): (r: Option<Options>)
    ensures r.Some? <==> IsSwitch(a)
    ensures r.Some? ==> r.value.checkOnly == (a == "--check" || o.checkOnly)
    ensures r.Some? ==> r.value.logAppend == (a == "--log-append" || o.logAppend)
    ensures r.Some? ==> r.value.(checkOnly := o.checkOnly, logAppend := o.logAppend) == o
  {
    if a == "--check" then Some(o.(checkOnly := true))
    else if a == "--log-append" then Some(o.(logAppend := true))
    else None
  }

  /** Where the dispatch loop ends: all arguments consumed, or stopped at one. */
  datatype ScanResult = Finished(opts: Options) | Halted(opts: Options)

  /**
   * The dispatch loop as a reference definition: a value flag followed by
   * another argument consumes both; a switch consumes itself; anything else
   * (`--help`, an unknown argument, a value flag in last position) halts.
   */
  function ScanArgs(args: seq<string>, o: Options): ScanResult
    decreases |args|
  {
    if args == [] then Finished(o)
    else if |args| >= 2 && ApplyValueFlag(args[0], args[1], o).Some? then
      ScanArgs(args[2..], ApplyValueFlag(args[0], args[1], o).value)
    else if ApplySwitch(args[0], o).Some? then
      ScanArgs(args[1..], ApplySwitch(args[0], o).value)
    else Halted(o)
  }

  /**
   * The acceptance checks after the loop. The range check on the target
   * makes the earlier `util < 0` check redundant.
   */
  predicate Accepted(o: Options)
    ensures Accepted(o) <==> o.mode.Some? && (CaseEqual(o.mode.value, "single") || CaseEqual(o.mode.value, "multi"))
                              && 10.0 <= o.util <= 100.0 && 0 < o.duration <= o.durationLimit
                              && 0 < o.maxThreads <= DefaultMaxThreads
  {
    && o.mode.Some?
    && o.util >= 0.0
    && o.duration > 0
    && (CaseEqual(o.mode.value, "single") || CaseEqual(o.mode.value, "multi"))
    && 10.0 <= o.util <= 100.0
    && o.duration <= o.durationLimit
    && 0 < o.maxThreads <= DefaultMaxThreads
  }

  /** `argv` without the program name. */
  function ProgramArgs(argv: seq<string>): seq<string>
  {
    if argv == [] then [] else argv[1..]
  }

  /**
   * `parse_args`: 0 exactly when every argument was consumed and the options
   * pass the acceptance checks, -1 otherwise; the out-parameters are what the
   * loop stored before it finished or stopped.
   */
  method ParseArgs(argv: seq<string>) returns (status: int, opts: Options)
    ensures status == 0 || status == -1
    ensures opts == ScanArgs(ProgramArgs(argv), Defaults()).opts
    ensures status == 0 <==> ScanArgs(ProgramArgs(argv), Defaults()).Finished? && Accepted(opts)
  {
    opts := Defaults();
    var i := 1;
    while i < |argv|
      invariant argv == [] ==> opts == Defaults()
      invariant argv != [] ==> 1 <= i <= |argv| && ScanArgs(argv[i..], opts) == ScanArgs(argv[1..], Defaults())
    {
      var a := argv[i];
      var more := i + 1 < |argv|;
      if a == "--mode" && more {
        ValueFlagStep(argv, i, opts);
        opts := opts.(mode := Some(argv[i + 1])); i := i + 2; continue;
      }
      if a == "--util" && more {
        ValueFlagStep(argv, i, opts);
        opts := opts.(util := AtoF(argv[i + 1])); i := i + 2; continue;
      }
      if a == "--duration" && more {
        ValueFlagStep(argv, i, opts);
        opts := opts.(duration := ParseDuration(Some(argv[i + 1]))); i := i + 2; continue;
      }
      if a == "--type" && more {
        ValueFlagStep(argv, i, opts);
        opts := opts.(kind := ParseType(Some(argv[i + 1]))); i := i + 2; continue;
      }
      if a == "--max-threads" && more {
        ValueFlagStep(argv, i, opts);
        opts := opts.(maxThreads := AtoI(argv[i + 1])); i := i + 2; continue;
      }
      if a == "--duration-limit" && more {
        ValueFlagStep(argv, i, opts);
        opts := opts.(durationLimit := ParseDuration(Some(argv[i + 1]))); i := i + 2; continue;
      }
      if a == "--temp-threshold" && more {
        ValueFlagStep(argv, i, opts);
        opts := opts.(tempThreshold := AtoF(argv[i + 1])); i := i + 2; continue;
      }
      if a == "--check" {
        SwitchStep(argv, i, opts);
        opts := opts.(checkOnly := true); i := i + 1; continue;
      }
      if a == "--log" && more {
        ValueFlagStep(argv, i, opts);
        opts := opts.(logPath := Some(argv[i + 1])); i := i + 2; continue;
      }
      if a == "--log-interval" && more {
        ValueFlagStep(argv, i, opts);
        opts := opts.(logInterval := AtoI(argv[i + 1]));
        if opts.logInterval <= 0 { opts := opts.(logInterval := ReportIntervalSec); }
        i := i + 2;
        continue;
      }
      if a == "--log-append" {
        SwitchStep(argv, i, opts);
        opts := opts.(logAppend := true); i := i + 1; continue;
      }
      HaltStep(argv, i, opts);
      if a == "--help" { return -1, opts; }
      return -1, opts;
    }
    if argv != [] {
      assert argv[i..] == [];
    }
    if opts.mode.None? { return -1, opts; }
    if opts.util < 0.0 { return -1, opts; }
    if opts.duration <= 0 { return -1, opts; }
    if !CaseEqual(opts.mode.value, "single") && !CaseEqual(opts.mode.value, "multi") { return -1, opts; }
    if opts.util < 10.0 || opts.util > 100.0 { return -1, opts; }
    if opts.duration > opts.durationLimit { return -1, opts; }
    if opts.maxThreads <= 0 || opts.maxThreads > DefaultMaxThreads { return -1, opts; }
    return 0, opts;
  }

  /** One turn of the loop at a value flag with an argument after it: both are consumed. */
  lemma ValueFlagStep(argv: seq<string>, i: int, o: Options)
    requires 1 <= i && i + 1 < |argv| && IsValueFlag(argv[i])
    ensures ScanArgs(argv[i..], o) == ScanArgs(argv[i + 2..], ApplyValueFlag(argv[i], argv[i + 1], o).value)
  {
    assert argv[i..][2..] == argv[i + 2..];
  }

  /** One turn of the loop at a switch: it alone is consumed. */
  lemma SwitchStep(argv: seq<string>, i: int, o: Options)
    requires 1 <= i < |argv| && IsSwitch(argv[i])
    ensures ScanArgs(argv[i..], o) == ScanArgs(argv[i + 1..], ApplySwitch(argv[i], o).value)
  {
    assert argv[i..][1..] == argv[i + 1..];
  }

  /** The loop stops at an argument that is neither a switch nor a value flag with a value after it. */
  lemma HaltStep(argv: seq<string>, i: int, o: Options)
    requires 1 <= i < |argv| && !IsSwitch(argv[i])
    requires !IsValueFlag(argv[i]) || i + 1 == |argv|
    ensures ScanArgs(argv[i..], o) == Halted(o)
  {
  }

  /** Arguments that the loop consumes completely can be followed by anything. */
  lemma {:induction false} ScanAppend(a: seq<string>, b: seq<string>, o: Options)
    requires ScanArgs(a, o).Finished?
    ensures ScanArgs(a + b, o) == ScanArgs(b, ScanArgs(a, o).opts)
    decreases |a|
  {
    if a != [] {
      if |a| >= 2 && ApplyValueFlag(a[0], a[1], o).Some? {
        var o' := ApplyValueFlag(a[0], a[1], o).value;
        assert (a + b)[0] == a[0] && (a + b)[1] == a[1];
        assert (a + b)[2..] == a[2..] + b;
        assert ScanArgs(a + b, o) == ScanArgs(a[2..] + b, o');
        ScanAppend(a[2..], b, o');
      } else {
        assert |a| == 1 ==> !IsValueFlag(a[0]);
        var o' := ApplySwitch(a[0], o).value;
        assert (a + b)[0] == a[0];
        assert (a + b)[1..] == a[1..] + b;
        assert ScanArgs(a + b, o) == ScanArgs(a[1..] + b, o');
        ScanAppend(a[1..], b, o');
      }
    } else {
      assert a + b == b;
    }
  }

  /** `--help` in flag position stops the loop, whatever follows it. */
  lemma HelpHalts(a: seq<string>, b: seq<string>, o: Options)
    requires ScanArgs(a, o).Finished?
    ensures ScanArgs(a + ["--help"] + b, o).Halted?
  {
    assert a + ["--help"] + b == a + (["--help"] + b);
    ScanAppend(a, ["--help"] + b, o);
    HaltsAt("--help", b, ScanArgs(a, o).opts);
  }

  /** An argument that is neither a known flag nor a value stops the loop. */
  lemma UnknownHalts(a: seq<string>, x: string, b: seq<string>, o: Options)
    requires ScanArgs(a, o).Finished?
    requires !IsValueFlag(x) && !IsSwitch(x)
    ensures ScanArgs(a + [x] + b, o).Halted?
  {
    assert a + [x] + b == a + ([x] + b);
    ScanAppend(a, [x] + b, o);
    HaltsAt(x, b, ScanArgs(a, o).opts);
  }

  /** A value flag given as the last argument stops the loop. */
  lemma TrailingValueFlagHalts(a: seq<string>, x: string, o: Options)
    requires ScanArgs(a, o).Finished?
    requires IsValueFlag(x)
    ensures ScanArgs(a + [x], o).Halted?
  {
    ScanAppend(a, [x], o);
    HaltsAt(x, [], ScanArgs(a, o).opts);
  }

  /** `--check` and `--log-append` cannot be undone: once set, no later argument clears them. */
  lemma {:induction false} SwitchesStick(args: seq<string>, o: Options)
    ensures o.checkOnly ==> ScanArgs(args, o).opts.checkOnly
    ensures o.logAppend ==> ScanArgs(args, o).opts.logAppend
    decreases |args|
  {
    if args != [] {
      if |args| >= 2 && ApplyValueFlag(args[0], args[1], o).Some? {
        SwitchesStick(args[2..], ApplyValueFlag(args[0], args[1], o).value);
      } else if ApplySwitch(args[0], o).Some? {
        SwitchesStick(args[1..], ApplySwitch(args[0], o).value);
      }
    }
  }

  /** The loop stops at once at an argument that is not a switch and not a value flag followed by a value. */
  lemma HaltsAt(x: string, b: seq<string>, o: Options)
    requires !IsSwitch(x) && (!IsValueFlag(x) || b == [])
    ensures ScanArgs([x] + b, o) == Halted(o)
  {
  }

  /** A log interval that starts positive stays positive: `--log-interval` resets non-positive values to 1. */
  lemma {:induction false} LogIntervalStaysPositive(args: seq<string>, o: Options)
    requires o.logInterval >= 1
    ensures ScanArgs(args, o).opts.logInterval >= 1
    decreases |args|
  {
    if args != [] {
      if |args| >= 2 && ApplyValueFlag(args[0], args[1], o).Some? {
        ValueFlagStores(args[0], args[1], o);
        LogIntervalStaysPositive(args[2..], ApplyValueFlag(args[0], args[1], o).value);
      } else if ApplySwitch(args[0], o).Some? {
        LogIntervalStaysPositive(args[1..], ApplySwitch(args[0], o).value);
      }
    }
  }

  /** Whatever the arguments, the log interval `parse_args` hands back is at least one second. */
  lemma ParsedLogIntervalPositive(argv: seq<string>)
    ensures ScanArgs(ProgramArgs(argv), Defaults()).opts.logInterval >= 1
  {
    LogIntervalStaysPositive(ProgramArgs(argv), Defaults());
  }
}
