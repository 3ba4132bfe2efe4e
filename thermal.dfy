/**
 * Temperature handling: where the sensor is looked for, how its raw reading
 * is scaled, and when a reading stops the run.
 */
module Thermal {
  import opened CText

  function ThermalZonePaths(): seq<string>
  {
    ["/sys/class/thermal/thermal_zone0/temp", "/sys/class/thermal/thermal_zone1/temp"]
  }

  /** The path `snprintf` builds for hardware-monitor slot `i`. */
  function HwmonPath(i: nat): string
  {
    "/sys/class/hwmon/hwmon" + NatToString(i) + "/temp1_input"
  }

  const HwmonSlots: nat := 64

  /** Every path `find_temperature_input_path` tries, in the order it tries them. */
  function TemperatureCandidates(): (c: seq<string>)
    ensures |c| == 2 + HwmonSlots
    ensures c[..2] == ThermalZonePaths()
    ensures forall i :: 0 <= i < HwmonSlots ==> c[2 + i] == HwmonPath(i)
  {
    ThermalZonePaths() + seq(HwmonSlots, i requires 0 <= i < HwmonSlots => HwmonPath(i))
  }

  /**
   * `find_temperature_input_path` with `access(path, R_OK) == 0` given as
   * `readable`: the first readable candidate, or none when no candidate is
   * readable.
   */
  method FindTemperatureInputPath(readable: string -> bool) returns (path: Option<string>)
    ensures path.Some? ==> exists k :: 0 <= k < |TemperatureCandidates()|
                              && TemperatureCandidates()[k] == path.value
                              && readable(path.value)
                              && forall j :: 0 <= j < k ==> !readable(TemperatureCandidates()[j])
    ensures path.None? ==> forall k :: 0 <= k < |TemperatureCandidates()| ==> !readable(TemperatureCandidates()[k])
  {
    ghost var all := TemperatureCandidates();
    var cands := ThermalZonePaths();
    for i := 0 to |cands|
      invariant forall j :: 0 <= j < i ==> !readable(all[j])
    {
      if readable(cands[i]) {
        assert all[i] == cands[i];
        return Some(cands[i]);
      }
    }
    for i := 0 to HwmonSlots
      invariant forall j :: 0 <= j < 2 + i ==> !readable(all[j])
    {
      var p := HwmonPath(i);
      if readable(p) {
        assert all[2 + i] == p;
        return Some(p);
      }
    }
    return None;
  }

  /** The scaling rule of `read_temperature`: a raw value over 1000 is millidegrees. */
  function ScaleTemperature(v: int): (c: real)
    ensures v > 1000 ==> c * 1000.0 == v as real && 1.0 < c
    ensures v <= 1000 ==> c == v as real
  {
    if v > 1000 then v as real / 1000.0 else v as real
  }

  /**
   * `read_temperature` with the path and what `fscanf("%ld")` read from it as
   * inputs: no value (NAN in the source) without a path or a reading.
   */
  function ReadTemperature(path: Option<string>, reading: Option<int>): (t: Option<real>)
    ensures t.Some? <==> path.Some? && reading.Some?
    ensures t.Some? ==> t.value == ScaleTemperature(reading.value)
  {
    if path.None? || reading.None? then None else Some(ScaleTemperature(reading.value))
  }

  /** `main`'s safety test: a temperature was read and it is at or over the threshold. */
  predicate ShouldStop(temp: Option<real>, threshold: real)
    ensures temp.None? ==> !ShouldStop(temp, threshold)
    ensures temp.Some? ==> (ShouldStop(temp, threshold) <==> threshold <= temp.value)
  {
    temp.Some? && temp.value >= threshold
  }

  /**
   * For a millidegree sensor (raw value over 1000) the run stops exactly
   * when the raw value reaches a thousand times the threshold.
   */
  lemma StopOnMillidegrees(path: string, m: int, threshold: real)
    requires m > 1000
    ensures ShouldStop(ReadTemperature(Some(path), Some(m)), threshold) <==> m as real >= threshold * 1000.0
  {
    var c := ScaleTemperature(m);
    assert c * 1000.0 == m as real;
  }

  /** Whole degrees reported in millidegrees, above one degree, come back unchanged. */
  lemma MillidegreesRoundTrip(t: int)
    requires t >= 2
    ensures ScaleTemperature(t * 1000) == t as real
  {
  }

  /**
   * The rule is not monotone: a raw 1000 reads as 1000 degrees while a raw
   * 1001 reads as just over one degree, so a millidegree sensor at or below
   * one degree trips any threshold up to 1000.
   */
  lemma ScaleJumpsAtOneThousand()
    ensures ScaleTemperature(1000) == 1000.0
    ensures ScaleTemperature(1001) < 1.01
    ensures ShouldStop(ReadTemperature(Some("t"), Some(1000)), 90.0)
  {
  }
}
