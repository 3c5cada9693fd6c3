/** The first per-sensor loop: for each numeric MSID, resolve its limits,
    mask its 5-minute statistics, take the mission maximum and minimum, and
    record the sensor in the max table when its maximum fell strictly inside
    the anomaly window, otherwise in the min table when its minimum did. */
module AnomalyExtrema {
  import opened Wrappers
  import opened Telemetry
  import opened MaskedSeries
  import opened ExclusionFilters
  import opened SafetyLimits

  /** Everything the loop obtains for one MSID from the archive and pylimmon. */
  datatype SensorInput = SensorInput(
    msid: string,
    technicalName: Option<string>,
    unit: Option<string>,
    data: StatSeries,
    safety: SafetyLookup,
    glimmon: Option<Limits>)

  /** A row of `anom_max_df`; the time is in seconds (its calendar-string formatting is outside the model). */
  datatype MaxRow = MaxRow(msid: string, technicalName: string, maxTemp: real, units: string,
                           cautionHigh: real, warningHigh: real, timeOfMax: real)

  /** A row of `anom_min_df`. As written, its "Caution Low" and "Warning Low"
      columns receive the caution-high and warning-high limits. */
  datatype MinRow = MinRow(msid: string, technicalName: string, minTemp: real, units: string,
                           cautionLowColumn: real, warningLowColumn: real, timeOfMin: real)

  /** The extrema of one sensor's masked statistics and the times recorded for them. */
  datatype Extrema = Extrema(maxT: real, timeOfMax: real, minT: real, timeOfMin: real)

  /** The accumulators of the loop: the carried `current_*` limits, the two MSID lists and the two tables. */
  datatype Report = Report(limits: Option<Limits>, msidAnomMax: seq<string>, msidAnomMin: seq<string>,
                           maxRows: seq<MaxRow>, minRows: seq<MinRow>)

  function Mask(data: StatSeries, sched: Schedule): (m: seq<bool>)
    requires data.Aligned()
    ensures |m| == |data.times|
  {
    CombinedMask(data.times, data.vals, sched)
  }

  /** Max and min of the masked statistics, None when the mask keeps nothing
      (`max` raises ValueError and the loop moves on). As written, each time is
      read from the UNMASKED times array at the argmax/argmin position of the
      masked array. */
  function MaskedExtrema(data: StatSeries, sched: Schedule): (r: Option<Extrema>)
    requires data.Aligned()
    ensures r.None? <==> forall i :: 0 <= i < |data.times| ==> !Mask(data, sched)[i]
    ensures r.Some? ==>
      && (forall j :: 0 <= j < |data.times| && Mask(data, sched)[j] ==> data.maxes[j] <= r.value.maxT)
      && (exists j :: 0 <= j < |data.times| && Mask(data, sched)[j] && data.maxes[j] == r.value.maxT)
      && (forall j :: 0 <= j < |data.times| && Mask(data, sched)[j] ==> r.value.minT <= data.mins[j])
      && (exists j :: 0 <= j < |data.times| && Mask(data, sched)[j] && data.mins[j] == r.value.minT)
    // the recorded time is the unmasked time at the RANK, among the kept
    // samples, of the first kept sample reaching the extremum
    ensures r.Some? ==>
      exists j :: 0 <= j < |data.times| && Mask(data, sched)[j] && data.maxes[j] == r.value.maxT
                  && (forall j' :: 0 <= j' < j && Mask(data, sched)[j'] ==> data.maxes[j'] < r.value.maxT)
                  && r.value.timeOfMax == data.times[KeptRank(Mask(data, sched), j)]
    ensures r.Some? ==>
      exists j :: 0 <= j < |data.times| && Mask(data, sched)[j] && data.mins[j] == r.value.minT
                  && (forall j' :: 0 <= j' < j && Mask(data, sched)[j'] ==> r.value.minT < data.mins[j'])
                  && r.value.timeOfMin == data.times[KeptRank(Mask(data, sched), j)]
  {
    var mask := Mask(data, sched);
    CountTrueZero(mask);
    if CountTrue(mask) == 0 then None
    else
      var maxArray := Select(data.maxes, mask);
      var minArray := Select(data.mins, mask);
      MaskedMaxIsMaxOfKept(data.maxes, mask);
      MaskedMinIsMinOfKept(data.mins, mask);
      FirstKeptMax(data.maxes, mask);
      FirstKeptMin(data.mins, mask);
      var indexMax := ArgMax(maxArray);
      var indexMin := ArgMin(minArray);
      Some(Extrema(maxArray[indexMax], data.times[indexMax], minArray[indexMin], data.times[indexMin]))
  }

  /** Which table a sensor lands in. */
  datatype Placement = MaxTable | MinTable | Neither

  /** The if/elif of the loop: max strictly inside the window wins; the min is
      consulted only when the max test failed. */
  function Place(x: Extrema, anomStart: real, anomStop: real): (p: Placement)
    ensures p == MaxTable <==> anomStart < x.timeOfMax < anomStop
    ensures p == MinTable <==> !(anomStart < x.timeOfMax < anomStop) && anomStart < x.timeOfMin < anomStop
  {
    if x.timeOfMax > anomStart && x.timeOfMax < anomStop then MaxTable
    else if x.timeOfMin > anomStart && x.timeOfMin < anomStop then MinTable
    else Neither
  }

  /** One iteration of the loop, as a function of the accumulators. */
  function Step(rep: Report, s: SensorInput, sched: Schedule, anomStart: real, anomStop: real): (next: Result<Report>)
    requires s.data.Aligned()
    // an exception from the limit lookups aborts the loop; otherwise the resolved limits are carried on
    ensures next.Ok? <==> ResolveLimits(rep.limits, s.safety, s.glimmon).Ok?
    ensures next.Err? ==> next.error == ResolveLimits(rep.limits, s.safety, s.glimmon).error
    ensures next.Ok? ==> next.value.limits == Some(ResolveLimits(rep.limits, s.safety, s.glimmon).value)
    ensures next.Ok? ==> rep.maxRows <= next.value.maxRows && rep.minRows <= next.value.minRows
  {
    match ResolveLimits(rep.limits, s.safety, s.glimmon)
    case Err(e) => Err(e)
    case Ok(lim) =>
      var rep1 := rep.(limits := Some(lim));
      match MaskedExtrema(s.data, sched)
      case None => Ok(rep1)
      case Some(x) =>
        match Place(x, anomStart, anomStop)
        case MaxTable =>
          Ok(rep1.(msidAnomMax := rep.msidAnomMax + [s.msid],
                   maxRows := rep.maxRows + [MaxRow(s.msid, TechnicalName(s.technicalName), x.maxT, Units(s.unit),
                                                    lim.cautionHigh, lim.warningHigh, x.timeOfMax)]))
        case MinTable =>
          Ok(rep1.(msidAnomMin := rep.msidAnomMin + [s.msid],
                   minRows := rep.minRows + [MinRow(s.msid, TechnicalName(s.technicalName), x.minT, Units(s.unit),
                                                    lim.cautionHigh, lim.warningHigh, x.timeOfMin)]))
        case Neither => Ok(rep1)
  }

  predicate AllAligned(sensors: seq<SensorInput>) {
    forall i :: 0 <= i < |sensors| ==> sensors[i].data.Aligned()
  }

  /** The loop over a prefix of the sensors; an exception aborts the whole cell. */
  function Run(sensors: seq<SensorInput>, init: Report, sched: Schedule, anomStart: real, anomStop: real): (result: Result<Report>)
    requires AllAligned(sensors)
    decreases |sensors|
  {
    if |sensors| == 0 then Ok(init)
    else
      match Run(sensors[..|sensors| - 1], init, sched, anomStart, anomStop)
      case Err(e) => Err(e)
      case Ok(rep) => Step(rep, sensors[|sensors| - 1], sched, anomStart, anomStop)
  }

  /** What every completed report satisfies. */
  predicate Sound(rep: Report, anomStart: real, anomStop: real) {
    && |rep.msidAnomMax| == |rep.maxRows|
    && |rep.msidAnomMin| == |rep.minRows|
    && (forall k :: 0 <= k < |rep.maxRows| ==> rep.msidAnomMax[k] == rep.maxRows[k].msid)
    && (forall k :: 0 <= k < |rep.minRows| ==> rep.msidAnomMin[k] == rep.minRows[k].msid)
    && (forall k :: 0 <= k < |rep.maxRows| ==> anomStart < rep.maxRows[k].timeOfMax < anomStop)
    && (forall k :: 0 <= k < |rep.minRows| ==> anomStart < rep.minRows[k].timeOfMin < anomStop)
  }

  function RowCount(rep: Report): (n: nat) {
    |rep.maxRows| + |rep.minRows|
  }

  /** A step adds at most one row in all, to one table, and keeps the report sound. */
  lemma StepPreservesSound(rep: Report, s: SensorInput, sched: Schedule, anomStart: real, anomStop: real)
    requires s.data.Aligned() && Sound(rep, anomStart, anomStop)
    requires Step(rep, s, sched, anomStart, anomStop).Ok?
    ensures var rep' := Step(rep, s, sched, anomStart, anomStop).value;
      Sound(rep', anomStart, anomStop) && RowCount(rep') <= RowCount(rep) + 1
      && rep.maxRows <= rep'.maxRows && rep.minRows <= rep'.minRows
  {
    var lim := ResolveLimits(rep.limits, s.safety, s.glimmon).value;
    var rep1 := rep.(limits := Some(lim));
    match MaskedExtrema(s.data, sched)
    case None =>
    case Some(x) =>
      match Place(x, anomStart, anomStop)
      case MaxTable =>
        AddMaxRowKeepsSound(rep1, MaxRow(s.msid, TechnicalName(s.technicalName), x.maxT, Units(s.unit),
                                         lim.cautionHigh, lim.warningHigh, x.timeOfMax), anomStart, anomStop);
      case MinTable =>
        AddMinRowKeepsSound(rep1, MinRow(s.msid, TechnicalName(s.technicalName), x.minT, Units(s.unit),
                                         lim.cautionHigh, lim.warningHigh, x.timeOfMin), anomStart, anomStop);
      case Neither =>
  }

  /** The tables grow exactly as lines 320-330 decide. A sensor with kept
      samples whose maximum time lies strictly inside the window gets exactly
      its max row; failing that, one whose minimum time lies strictly inside
      gets exactly its min row; every other sensor, and every sensor whose mask
      keeps nothing, leaves both tables and both MSID lists as they were. */
  lemma StepAppendsRowIffInWindow(rep: Report, s: SensorInput, sched: Schedule, anomStart: real, anomStop: real)
    requires s.data.Aligned()
    requires Step(rep, s, sched, anomStart, anomStop).Ok?
    ensures var rep' := Step(rep, s, sched, anomStart, anomStop).value;
      var lim := ResolveLimits(rep.limits, s.safety, s.glimmon).value;
      var ext := MaskedExtrema(s.data, sched);
      var inMax := ext.Some? && anomStart < ext.value.timeOfMax < anomStop;
      var inMin := ext.Some? && !inMax && anomStart < ext.value.timeOfMin < anomStop;
      && rep'.limits == Some(lim)
      && (inMax ==>
            && rep'.maxRows == rep.maxRows + [MaxRow(s.msid, TechnicalName(s.technicalName), ext.value.maxT, Units(s.unit),
                                                     lim.cautionHigh, lim.warningHigh, ext.value.timeOfMax)]
            && rep'.msidAnomMax == rep.msidAnomMax + [s.msid]
            && rep'.minRows == rep.minRows && rep'.msidAnomMin == rep.msidAnomMin)
      && (inMin ==>
            && rep'.minRows == rep.minRows + [MinRow(s.msid, TechnicalName(s.technicalName), ext.value.minT, Units(s.unit),
                                                     lim.cautionHigh, lim.warningHigh, ext.value.timeOfMin)]
            && rep'.msidAnomMin == rep.msidAnomMin + [s.msid]
            && rep'.maxRows == rep.maxRows && rep'.msidAnomMax == rep.msidAnomMax)
      && (!inMax && !inMin ==>
            && rep'.maxRows == rep.maxRows && rep'.msidAnomMax == rep.msidAnomMax
            && rep'.minRows == rep.minRows && rep'.msidAnomMin == rep.msidAnomMin)
  {
  }

  lemma AddMaxRowKeepsSound(rep: Report, row: MaxRow, anomStart: real, anomStop: real)
    requires Sound(rep, anomStart, anomStop) && anomStart < row.timeOfMax < anomStop
    ensures Sound(rep.(msidAnomMax := rep.msidAnomMax + [row.msid], maxRows := rep.maxRows + [row]), anomStart, anomStop)
  {
  }

  lemma AddMinRowKeepsSound(rep: Report, row: MinRow, anomStart: real, anomStop: real)
    requires Sound(rep, anomStart, anomStop) && anomStart < row.timeOfMin < anomStop
    ensures Sound(rep.(msidAnomMin := rep.msidAnomMin + [row.msid], minRows := rep.minRows + [row]), anomStart, anomStop)
  {
  }

  /** Over any run: every recorded sensor passed its window test, the MSID
      lists mirror the tables, and each sensor adds at most one row. */
  lemma {:induction false} RunSound(sensors: seq<SensorInput>, sched: Schedule, anomStart: real, anomStop: real, limits: Option<Limits>)
    requires AllAligned(sensors)
    requires Run(sensors, Report(limits, [], [], [], []), sched, anomStart, anomStop).Ok?
    ensures var rep := Run(sensors, Report(limits, [], [], [], []), sched, anomStart, anomStop).value;
      Sound(rep, anomStart, anomStop) && RowCount(rep) <= |sensors|
    decreases |sensors|
  {
    if |sensors| > 0 {
      var init := Report(limits, [], [], [], []);
      var prefix := sensors[..|sensors| - 1];
      assert AllAligned(prefix);
      RunSound(prefix, sched, anomStart, anomStop, limits);
      StepPreservesSound(Run(prefix, init, sched, anomStart, anomStop).value, sensors[|sensors| - 1], sched, anomStart, anomStop);
    }
  }

  /** A min row's "Caution Low"/"Warning Low" columns hold the HIGH limits in force. */
  lemma MinRowHoldsHighLimits(rep: Report, s: SensorInput, sched: Schedule, anomStart: real, anomStop: real)
    requires s.data.Aligned()
    requires Step(rep, s, sched, anomStart, anomStop).Ok?
    requires |Step(rep, s, sched, anomStart, anomStop).value.minRows| > |rep.minRows|
    ensures var rep' := Step(rep, s, sched, anomStart, anomStop).value;
      var row := rep'.minRows[|rep'.minRows| - 1];
      rep'.limits.Some? && row.cautionLowColumn == rep'.limits.value.cautionHigh
      && row.warningLowColumn == rep'.limits.value.warningHigh
  {
  }

  /** A sensor whose masked statistics are empty is skipped: its limits are
      still carried forward but no table grows. */
  lemma EmptyMaskSkipsSensor(rep: Report, s: SensorInput, sched: Schedule, anomStart: real, anomStop: real)
    requires s.data.Aligned()
    requires forall i :: 0 <= i < |s.data.times| ==> !Mask(s.data, sched)[i]
    requires ResolveLimits(rep.limits, s.safety, s.glimmon).Ok?
    ensures Step(rep, s, sched, anomStart, anomStop) == Ok(rep.(limits := Some(ResolveLimits(rep.limits, s.safety, s.glimmon).value)))
  {
  }

  /** The time recorded for the maximum can be the time of a sample the mask
      EXCLUDED: here the only kept sample is at t = 1000, but the row records t = 0. */
  lemma TimeOfMaxReadsUnmaskedTimes()
    ensures var data := StatSeries([0.0, 1000.0], [0.0, 0.0], [5.0, 7.0], [1.0, 2.0]);
      var sched := Schedule([0.0], []);
      && Mask(data, sched) == [false, true]
      && MaskedExtrema(data, sched) == Some(Extrema(7.0, 0.0, 2.0, 0.0))
      && TimeOfMaskedMax(data.times, data.maxes, Mask(data, sched)) == 1000.0
  {
    var data := StatSeries([0.0, 1000.0], [0.0, 0.0], [5.0, 7.0], [1.0, 2.0]);
    var sched := Schedule([0.0], []);
    var mask := Mask(data, sched);
    assert TransitionMask(data.times, sched.transitions) == [false, true];
    assert mask == [false, true];
    assert Select(data.maxes, mask) == [7.0];
    assert Select(data.mins, mask) == [2.0];
    assert Select(data.times, mask) == [1000.0];
  }

  /** The loop of lines 204-330: walks the numeric MSIDs in order and grows the
      MSID lists and tables, carrying the limits from one sensor to the next. */
  method AnomalyExtremaReport(sensors: seq<SensorInput>, sched: Schedule, anomStart: real, anomStop: real,
                              limits: Option<Limits>) returns (r: Result<Report>)
    requires AllAligned(sensors)
    ensures r == Run(sensors, Report(limits, [], [], [], []), sched, anomStart, anomStop)
    ensures r.Ok? ==> Sound(r.value, anomStart, anomStop) && RowCount(r.value) <= |sensors|
  {
    var init := Report(limits, [], [], [], []);
    var current := limits;
    var msidAnomMax: seq<string> := [];
    var msidAnomMin: seq<string> := [];
    var anomMaxDf: seq<MaxRow> := [];
    var anomMinDf: seq<MinRow> := [];
    var i := 0;
    while i < |sensors|
      invariant 0 <= i <= |sensors|
      invariant Run(sensors[..i], init, sched, anomStart, anomStop) == Ok(Report(current, msidAnomMax, msidAnomMin, anomMaxDf, anomMinDf))
    {
      var m := sensors[i];
      ghost var before := Report(current, msidAnomMax, msidAnomMin, anomMaxDf, anomMinDf);
      RunExtend(sensors, i, init, sched, anomStart, anomStop);
      var resolved := ResolveLimits(current, m.safety, m.glimmon);
      if resolved.Err? {
        r := Err(resolved.error);
        RunPrefixError(sensors, i + 1, init, sched, anomStart, anomStop);
        return;
      }
      var lim := resolved.value;
      current := Some(lim);
      var extrema := MaskedExtrema(m.data, sched);
      if extrema.Some? {
        var x := extrema.value;
        if x.timeOfMax > anomStart && x.timeOfMax < anomStop {
          msidAnomMax := msidAnomMax + [m.msid];
          anomMaxDf := anomMaxDf + [MaxRow(m.msid, TechnicalName(m.technicalName), x.maxT, Units(m.unit),
                                           lim.cautionHigh, lim.warningHigh, x.timeOfMax)];
        } else if x.timeOfMin > anomStart && x.timeOfMin < anomStop {
          msidAnomMin := msidAnomMin + [m.msid];
          anomMinDf := anomMinDf + [MinRow(m.msid, TechnicalName(m.technicalName), x.minT, Units(m.unit),
                                           lim.cautionHigh, lim.warningHigh, x.timeOfMin)];
        }
      }
      assert Step(before, m, sched, anomStart, anomStop) == Ok(Report(current, msidAnomMax, msidAnomMin, anomMaxDf, anomMinDf));
      i := i + 1;
    }
    assert sensors[..i] == sensors;
    r := Ok(Report(current, msidAnomMax, msidAnomMin, anomMaxDf, anomMinDf));
    RunSound(sensors, sched, anomStart, anomStop, limits);
  }

  /** Running one more sensor is one more step. */
  lemma RunExtend(sensors: seq<SensorInput>, i: nat, init: Report, sched: Schedule, anomStart: real, anomStop: real)
    requires AllAligned(sensors) && i < |sensors|
    ensures AllAligned(sensors[..i]) && AllAligned(sensors[..i + 1])
    ensures Run(sensors[..i + 1], init, sched, anomStart, anomStop) ==
      match Run(sensors[..i], init, sched, anomStart, anomStop)
      case Err(e) => Err(e)
      case Ok(rep) => Step(rep, sensors[i], sched, anomStart, anomStop)
  {
    assert sensors[..i + 1][..i] == sensors[..i];
  }

  /** Once a prefix of the run fails, the whole run fails with the same error. */
  lemma {:induction false} RunPrefixError(sensors: seq<SensorInput>, n: nat, init: Report, sched: Schedule, anomStart: real, anomStop: real)
    requires AllAligned(sensors) && 0 < n <= |sensors|
    requires Run(sensors[..n], init, sched, anomStart, anomStop).Err?
    ensures Run(sensors, init, sched, anomStart, anomStop) == Run(sensors[..n], init, sched, anomStart, anomStop)
    decreases |sensors| - n
  {
    if n < |sensors| {
      var longer := sensors[..n + 1];
      assert longer[..n] == sensors[..n];
      assert AllAligned(longer);
      RunPrefixError(sensors, n + 1, init, sched, anomStart, anomStop);
    } else {
      assert sensors[..n] == sensors;
    }
  }
}
