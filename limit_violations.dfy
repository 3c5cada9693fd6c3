/** The second per-sensor loop: over the anomaly window, mask each MSID's
    full-resolution series, total the time spent above the warning-high and
    caution-high limits, and append a warning row and a caution row, each only
    when its total is nonzero. */
module LimitViolations {
  import opened Wrappers
  import opened Telemetry
  import opened MaskedSeries
  import opened ExclusionFilters
  import opened SafetyLimits

  /** One violation span `(start, stop)` in seconds. */
  datatype Span = Span(start: real, stop: real)

  /** pylimmon's `find_violation_time_spans`, whose code is not part of this model:
      given the masked times and the per-sample "above limit" flags, the spans. */
  type SpanFinder = (seq<real>, seq<bool>) -> seq<Span>

  datatype SensorInput = SensorInput(
    msid: string,
    technicalName: Option<string>,
    unit: Option<string>,
    data: Series,
    safety: SafetyLookup,
    glimmon: Option<Limits>)

  /** A row of `warning_limit_violations` (limit = Warning High) or of
      `caution_limit_violations` (limit = Caution High). */
  datatype ViolationRow = ViolationRow(msid: string, technicalName: string, maxTemp: real, units: string,
                                       limit: real, hours: real)

  datatype Report = Report(limits: Option<Limits>, warningRows: seq<ViolationRow>, cautionRows: seq<ViolationRow>)

  /** `np.sum([stop - start for start, stop in spans])`. */
  function TotalSeconds(spans: seq<Span>): (total: real)
    ensures (forall k :: 0 <= k < |spans| ==> spans[k].start <= spans[k].stop) ==> total >= 0.0
    decreases |spans|
  {
    if |spans| == 0 then 0.0 else TotalSeconds(spans[..|spans| - 1]) + (spans[|spans| - 1].stop - spans[|spans| - 1].start)
  }

  /** `t_tot * (1/60) * (1/60)`. */
  function Hours(seconds: real): (hours: real)
    ensures hours * 3600.0 == seconds
  {
    seconds * (1.0 / 60.0) * (1.0 / 60.0)
  }

  /** Over the reals the two divisions by 60 are one division by 3600, and
      a duration is nonzero in hours exactly when it is nonzero in seconds. */
  lemma HoursAreSecondsOver3600(seconds: real)
    ensures Hours(seconds) * 3600.0 == seconds
    ensures Hours(seconds) != 0.0 <==> seconds != 0.0
  {
  }

  /** Totals over concatenated span lists add up. */
  lemma {:induction false} TotalSecondsAppend(a: seq<Span>, b: seq<Span>)
    ensures TotalSeconds(a + b) == TotalSeconds(a) + TotalSeconds(b)
    decreases |b|
  {
    if |b| > 0 {
      assert (a + b)[..|a + b| - 1] == a + b[..|b| - 1];
      TotalSecondsAppend(a, b[..|b| - 1]);
    } else {
      assert a + b == a;
    }
  }

  /** Well-ordered spans (stop no earlier than start) give a non-negative total,
      and a total of zero exactly when every span has zero length. */
  lemma {:induction false} TotalSecondsOfOrderedSpans(spans: seq<Span>)
    requires forall k :: 0 <= k < |spans| ==> spans[k].start <= spans[k].stop
    ensures TotalSeconds(spans) >= 0.0
    ensures TotalSeconds(spans) == 0.0 <==> forall k :: 0 <= k < |spans| ==> spans[k].start == spans[k].stop
    decreases |spans|
  {
    if |spans| > 0 {
      TotalSecondsOfOrderedSpans(spans[..|spans| - 1]);
    }
  }

  /** `vals[mask] > limit`, elementwise. */
  function AboveLimit(vals: seq<real>, limit: real): (flags: seq<bool>)
    ensures |flags| == |vals|
    ensures forall i :: 0 <= i < |vals| ==> (flags[i] <==> vals[i] > limit)
  {
    seq(|vals|, i requires 0 <= i < |vals| => vals[i] > limit)
  }

  /** The "Max Temp" column: the largest kept value, or 9999 when the mask keeps nothing. */
  function MaxTemp(vals: seq<real>, mask: seq<bool>): (t: real)
    requires |vals| == |mask|
    ensures CountTrue(mask) == 0 ==> t == 9999.0
    ensures CountTrue(mask) > 0 ==>
      (forall j :: 0 <= j < |mask| && mask[j] ==> vals[j] <= t) && (exists j :: 0 <= j < |mask| && mask[j] && vals[j] == t)
  {
    if CountTrue(mask) == 0 then 9999.0
    else
      MaskedMaxIsMaxOfKept(vals, mask);
      Select(vals, mask)[ArgMax(Select(vals, mask))]
  }

  /** What the loop computes for one sensor before deciding on rows. */
  datatype Analysis = Analysis(warningSeconds: real, cautionSeconds: real, maxTemp: real)

  /** Lines 499-533: mask the series, total the warning-high and caution-high
      violation spans of the kept samples, and take the kept maximum. */
  function Analyze(data: Series, lim: Limits, sched: Schedule, findSpans: SpanFinder): (a: Analysis)
    requires data.Aligned()
    ensures var mask := CombinedMask(data.times, data.vals, sched);
      && (CountTrue(mask) == 0 ==> a.maxTemp == 9999.0)
      && (CountTrue(mask) > 0 ==>
            (forall j :: 0 <= j < |mask| && mask[j] ==> data.vals[j] <= a.maxTemp)
            && (exists j :: 0 <= j < |mask| && mask[j] && data.vals[j] == a.maxTemp))
  {
    var mask := CombinedMask(data.times, data.vals, sched);
    var keptTimes := Select(data.times, mask);
    var keptVals := Select(data.vals, mask);
    Analysis(TotalSeconds(findSpans(keptTimes, AboveLimit(keptVals, lim.warningHigh))),
             TotalSeconds(findSpans(keptTimes, AboveLimit(keptVals, lim.cautionHigh))),
             MaxTemp(data.vals, mask))
  }

  /** `[row]` when the total is nonzero, else nothing. */
  function RowIfNonzero(s: SensorInput, maxTemp: real, limit: real, seconds: real): (rows: seq<ViolationRow>) {
    if seconds != 0.0 then [ViolationRow(s.msid, TechnicalName(s.technicalName), maxTemp, Units(s.unit), limit, Hours(seconds))]
    else []
  }

  /** One iteration of the loop. */
  function Step(rep: Report, s: SensorInput, sched: Schedule, findSpans: SpanFinder): (next: Result<Report>)
    requires s.data.Aligned()
    // an exception from the limit lookups aborts the loop; otherwise the resolved limits are carried on
    ensures next.Ok? <==> ResolveLimits(rep.limits, s.safety, s.glimmon).Ok?
    ensures next.Err? ==> next.error == ResolveLimits(rep.limits, s.safety, s.glimmon).error
    ensures next.Ok? ==> next.value.limits == Some(ResolveLimits(rep.limits, s.safety, s.glimmon).value)
    ensures next.Ok? ==> rep.warningRows <= next.value.warningRows && rep.cautionRows <= next.value.cautionRows
  {
    match ResolveLimits(rep.limits, s.safety, s.glimmon)
    case Err(e) => Err(e)
    case Ok(lim) =>
      var a := Analyze(s.data, lim, sched, findSpans);
      Ok(Report(Some(lim),
                rep.warningRows + RowIfNonzero(s, a.maxTemp, lim.warningHigh, a.warningSeconds),
                rep.cautionRows + RowIfNonzero(s, a.maxTemp, lim.cautionHigh, a.cautionSeconds)))
  }

  predicate AllAligned(sensors: seq<SensorInput>) {
    forall i :: 0 <= i < |sensors| ==> sensors[i].data.Aligned()
  }

  function Run(sensors: seq<SensorInput>, init: Report, sched: Schedule, findSpans: SpanFinder): (result: Result<Report>)
    requires AllAligned(sensors)
    decreases |sensors|
  {
    if |sensors| == 0 then Ok(init)
    else
      match Run(sensors[..|sensors| - 1], init, sched, findSpans)
      case Err(e) => Err(e)
      case Ok(rep) => Step(rep, sensors[|sensors| - 1], sched, findSpans)
  }

  /** Every row reports a nonzero duration. */
  predicate Sound(rep: Report) {
    && (forall k :: 0 <= k < |rep.warningRows| ==> rep.warningRows[k].hours != 0.0)
    && (forall k :: 0 <= k < |rep.cautionRows| ==> rep.cautionRows[k].hours != 0.0)
  }

  /** The two tables are decided independently: the warning row is appended iff
      the warning total is nonzero and carries the sensor's MSID, name, units,
      kept maximum, the warning-high limit and that total in hours; the same
      holds for the caution row with the caution-high limit. The limits carried
      on are the ones the fallback rule resolved. */
  lemma StepAppendsRowIffNonzero(rep: Report, s: SensorInput, sched: Schedule, findSpans: SpanFinder)
    requires s.data.Aligned()
    requires Step(rep, s, sched, findSpans).Ok?
    ensures var rep' := Step(rep, s, sched, findSpans).value;
      rep'.limits.Some? &&
      var lim := rep'.limits.value;
      var mask := CombinedMask(s.data.times, s.data.vals, sched);
      var keptTimes := Select(s.data.times, mask);
      var keptVals := Select(s.data.vals, mask);
      var tWarning := TotalSeconds(findSpans(keptTimes, AboveLimit(keptVals, lim.warningHigh)));
      var tCaution := TotalSeconds(findSpans(keptTimes, AboveLimit(keptVals, lim.cautionHigh)));
      && rep.warningRows <= rep'.warningRows && rep.cautionRows <= rep'.cautionRows
      && (|rep'.warningRows| == |rep.warningRows| + 1 <==> tWarning != 0.0)
      && (|rep'.warningRows| == |rep.warningRows| + 1 ==>
            rep'.warningRows[|rep.warningRows|].limit == lim.warningHigh
            && rep'.warningRows[|rep.warningRows|].hours * 3600.0 == tWarning)
      && (|rep'.cautionRows| == |rep.cautionRows| + 1 <==> tCaution != 0.0)
      && (|rep'.cautionRows| == |rep.cautionRows| + 1 ==>
            rep'.cautionRows[|rep.cautionRows|].limit == lim.cautionHigh
            && rep'.cautionRows[|rep.cautionRows|].hours * 3600.0 == tCaution)
      && |rep'.warningRows| <= |rep.warningRows| + 1 && |rep'.cautionRows| <= |rep.cautionRows| + 1
      // the carried limits are the resolved ones, and the appended rows are exactly those of lines 537-545
      && ResolveLimits(rep.limits, s.safety, s.glimmon) == Ok(lim)
      && rep'.warningRows == rep.warningRows +
           (if tWarning != 0.0
            then [ViolationRow(s.msid, TechnicalName(s.technicalName), MaxTemp(s.data.vals, mask), Units(s.unit),
                               lim.warningHigh, Hours(tWarning))]
            else [])
      && rep'.cautionRows == rep.cautionRows +
           (if tCaution != 0.0
            then [ViolationRow(s.msid, TechnicalName(s.technicalName), MaxTemp(s.data.vals, mask), Units(s.unit),
                               lim.cautionHigh, Hours(tCaution))]
            else [])
  {
    var lim := Step(rep, s, sched, findSpans).value.limits.value;
    var a := Analyze(s.data, lim, sched, findSpans);
    HoursAreSecondsOver3600(a.warningSeconds);
    HoursAreSecondsOver3600(a.cautionSeconds);
  }

  /** Over any run, every row reports a nonzero duration and each sensor adds
      at most one row to each table. */
  lemma {:induction false} RunSound(sensors: seq<SensorInput>, sched: Schedule, findSpans: SpanFinder, limits: Option<Limits>)
    requires AllAligned(sensors)
    requires Run(sensors, Report(limits, [], []), sched, findSpans).Ok?
    ensures var rep := Run(sensors, Report(limits, [], []), sched, findSpans).value;
      Sound(rep) && |rep.warningRows| <= |sensors| && |rep.cautionRows| <= |sensors|
    decreases |sensors|
  {
    if |sensors| > 0 {
      var prefix := sensors[..|sensors| - 1];
      assert AllAligned(prefix);
      RunSound(prefix, sched, findSpans, limits);
      var rep := Run(prefix, Report(limits, [], []), sched, findSpans).value;
      StepKeepsSound(rep, sensors[|sensors| - 1], sched, findSpans);
    }
  }

  /** One step keeps every row's duration nonzero and adds at most one row to each table. */
  lemma StepKeepsSound(rep: Report, s: SensorInput, sched: Schedule, findSpans: SpanFinder)
    requires s.data.Aligned() && Sound(rep)
    requires Step(rep, s, sched, findSpans).Ok?
    ensures var rep' := Step(rep, s, sched, findSpans).value;
      Sound(rep') && |rep'.warningRows| <= |rep.warningRows| + 1 && |rep'.cautionRows| <= |rep.cautionRows| + 1
  {
    StepAppendsRowIffNonzero(rep, s, sched, findSpans);
  }

  /** Running one more sensor is one more step. */
  lemma RunExtend(sensors: seq<SensorInput>, i: nat, init: Report, sched: Schedule, findSpans: SpanFinder)
    requires AllAligned(sensors) && i < |sensors|
    ensures AllAligned(sensors[..i]) && AllAligned(sensors[..i + 1])
    ensures Run(sensors[..i + 1], init, sched, findSpans) ==
      match Run(sensors[..i], init, sched, findSpans)
      case Err(e) => Err(e)
      case Ok(rep) => Step(rep, sensors[i], sched, findSpans)
  {
    assert sensors[..i + 1][..i] == sensors[..i];
  }

  lemma {:induction false} RunPrefixError(sensors: seq<SensorInput>, n: nat, init: Report, sched: Schedule, findSpans: SpanFinder)
    requires AllAligned(sensors) && 0 < n <= |sensors|
    requires Run(sensors[..n], init, sched, findSpans).Err?
    ensures Run(sensors, init, sched, findSpans) == Run(sensors[..n], init, sched, findSpans)
    decreases |sensors| - n
  {
    if n < |sensors| {
      var longer := sensors[..n + 1];
      assert longer[..n] == sensors[..n];
      assert AllAligned(longer);
      RunPrefixError(sensors, n + 1, init, sched, findSpans);
    } else {
      assert sensors[..n] == sensors;
    }
  }

  /** The loop of lines 410-545, with the limits carried in from the previous
      loop (or unbound). */
  method LimitViolationReport(sensors: seq<SensorInput>, sched: Schedule, findSpans: SpanFinder,
                              limits: Option<Limits>) returns (r: Result<Report>)
    requires AllAligned(sensors)
    ensures r == Run(sensors, Report(limits, [], []), sched, findSpans)
    ensures r.Ok? ==> Sound(r.value) && |r.value.warningRows| <= |sensors| && |r.value.cautionRows| <= |sensors|
  {
    var init := Report(limits, [], []);
    var current := limits;
    var warningLimitViolations: seq<ViolationRow> := [];
    var cautionLimitViolations: seq<ViolationRow> := [];
    var i := 0;
    while i < |sensors|
      invariant 0 <= i <= |sensors|
      invariant Run(sensors[..i], init, sched, findSpans) == Ok(Report(current, warningLimitViolations, cautionLimitViolations))
    {
      var m := sensors[i];
      ghost var before := Report(current, warningLimitViolations, cautionLimitViolations);
      RunExtend(sensors, i, init, sched, findSpans);
      var resolved := ResolveLimits(current, m.safety, m.glimmon);
      if resolved.Err? {
        r := Err(resolved.error);
        RunPrefixError(sensors, i + 1, init, sched, findSpans);
        return;
      }
      var lim := resolved.value;
      current := Some(lim);
      var a := Analyze(m.data, lim, sched, findSpans);
      var techName := TechnicalName(m.technicalName);
      var units := Units(m.unit);
      if a.warningSeconds != 0.0 {
        warningLimitViolations := warningLimitViolations + [ViolationRow(m.msid, techName, a.maxTemp, units, lim.warningHigh, Hours(a.warningSeconds))];
      }
      if a.cautionSeconds != 0.0 {
        cautionLimitViolations := cautionLimitViolations + [ViolationRow(m.msid, techName, a.maxTemp, units, lim.cautionHigh, Hours(a.cautionSeconds))];
      }
      assert warningLimitViolations == before.warningRows + RowIfNonzero(m, a.maxTemp, lim.warningHigh, a.warningSeconds);
      assert cautionLimitViolations == before.cautionRows + RowIfNonzero(m, a.maxTemp, lim.cautionHigh, a.cautionSeconds);
      assert Step(before, m, sched, findSpans) == Ok(Report(current, warningLimitViolations, cautionLimitViolations));
      i := i + 1;
    }
    assert sensors[..i] == sensors;
    r := Ok(Report(current, warningLimitViolations, cautionLimitViolations));
    RunSound(sensors, sched, findSpans, limits);
  }
}
