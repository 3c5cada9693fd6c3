/** Limit lookups: the TDB limit-table scans `get_warning_low` and
    `get_warning_high`, and the per-sensor choice between the mission safety
    limits, glimmon and the +/-9999 sentinels. */
module SafetyLimits {
  import opened Wrappers

  /** One row of the TDB limit table. */
  datatype LimitRow = LimitRow(msid: string, warningLow: real, warningHigh: real, cautionLow: real, cautionHigh: real)

  /** `get_warning_low`: WARNING_LOW of the first row whose MSID equals `msid`, None when no row does. */
  method GetWarningLow(table: seq<LimitRow>, msid: string) returns (r: Option<real>)
    ensures r.None? <==> forall i :: 0 <= i < |table| ==> table[i].msid != msid
    ensures r.Some? ==> exists i :: 0 <= i < |table| && table[i].msid == msid && r.value == table[i].warningLow
                                   && forall j :: 0 <= j < i ==> table[j].msid != msid
  {
    var i := 0;
    while i < |table|
      invariant 0 <= i <= |table|
      invariant forall j :: 0 <= j < i ==> table[j].msid != msid
    {
      if table[i].msid == msid {
        return Some(table[i].warningLow);
      }
      i := i + 1;
    }
    return None;
  }

  /** `get_warning_high`: WARNING_HIGH of the first row whose MSID equals `msid`, None when no row does. */
  method GetWarningHigh(table: seq<LimitRow>, msid: string) returns (r: Option<real>)
    ensures r.None? <==> forall i :: 0 <= i < |table| ==> table[i].msid != msid
    ensures r.Some? ==> exists i :: 0 <= i < |table| && table[i].msid == msid && r.value == table[i].warningHigh
                                   && forall j :: 0 <= j < i ==> table[j].msid != msid
  {
    var i := 0;
    while i < |table|
      invariant 0 <= i <= |table|
      invariant forall j :: 0 <= j < i ==> table[j].msid != msid
    {
      if table[i].msid == msid {
        return Some(table[i].warningHigh);
      }
      i := i + 1;
    }
    return None;
  }

  /** The four limits the analysis carries as `current_*`. */
  datatype Limits = Limits(warningHigh: real, warningLow: real, cautionHigh: real, cautionLow: real)

  /** The "no limit" sentinels used when neither limit source knows the sensor. */
  const NO_LIMITS: Limits := Limits(9999.0, -9999.0, 9999.0, -9999.0)

  /** What `get_mission_safety_limits(m)` gave: an IndexError (caught and turned
      into None), a falsy value that is not None, or a truthy table holding the
      history of each limit, latest last. */
  datatype SafetyLookup =
    | Raised
    | Falsy
    | Histories(warningHigh: seq<real>, warningLow: seq<real>, cautionHigh: seq<real>, cautionLow: seq<real>)

  function Last(s: seq<real>): (x: real)
    requires |s| > 0
  {
    s[|s| - 1]
  }

  /** The limits in force for a sensor, given those carried from the previous
      sensor (None while they are still unbound) and what `get_latest_glimmon_limits`
      gives (None when indexing its result raises TypeError). */
  function ResolveLimits(previous: Option<Limits>, safety: SafetyLookup, glimmon: Option<Limits>): (r: Result<Limits>)
    // the mission table wins when truthy; `[-1]` of an empty history raises IndexError
    ensures safety.Histories? ==>
      if |safety.warningHigh| > 0 && |safety.warningLow| > 0 && |safety.cautionHigh| > 0 && |safety.cautionLow| > 0
      then r == Ok(Limits(Last(safety.warningHigh), Last(safety.warningLow), Last(safety.cautionHigh), Last(safety.cautionLow)))
      else r == Err(IndexOutOfRange)
    // a raised lookup falls back to glimmon, then to the sentinels
    ensures safety.Raised? ==> r == Ok(glimmon.GetOr(NO_LIMITS))
    // a falsy table leaves the previous sensor's limits in force
    ensures safety.Falsy? ==> r == if previous.Some? then Ok(previous.value) else Err(UnboundName("current_caution_high"))
  {
    match safety
    case Histories(wh, wl, ch, cl) =>
      if |wh| == 0 || |wl| == 0 || |ch| == 0 || |cl| == 0 then Err(IndexOutOfRange)
      else Ok(Limits(Last(wh), Last(wl), Last(ch), Last(cl)))
    case Raised =>
      (match glimmon
       case Some(g) => Ok(g)
       case None => Ok(NO_LIMITS))
    case Falsy =>
      (match previous
       case Some(p) => Ok(p)
       case None => Err(UnboundName("current_caution_high")))
  }

  /** Only a falsy mission table lets the previous sensor's limits through;
      otherwise the result does not depend on them. */
  lemma PreviousLimitsMatterOnlyWhenFalsy(p1: Option<Limits>, p2: Option<Limits>, safety: SafetyLookup, glimmon: Option<Limits>)
    requires !safety.Falsy?
    ensures ResolveLimits(p1, safety, glimmon) == ResolveLimits(p2, safety, glimmon)
  {
  }
}
