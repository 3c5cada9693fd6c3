/** The shapes of fetched telemetry and the per-sensor metadata fallbacks
    shared by both analyses. Fetching itself is outside the model: each
    series is an input. */
module Telemetry {
  import opened Wrappers

  /** A full-resolution series (`.times`, `.vals`), times in seconds. */
  datatype Series = Series(times: seq<real>, vals: seq<real>) {
    predicate Aligned() { |vals| == |times| }
  }

  /** A 5-minute statistics series: per interval its time, mean, maximum and minimum. */
  datatype StatSeries = StatSeries(times: seq<real>, vals: seq<real>, maxes: seq<real>, mins: seq<real>) {
    predicate Aligned() { |vals| == |times| && |maxes| == |times| && |mins| == |times| }
  }

  /** `tdb.technical_name`, or "Not in TDB" when the lookup raised KeyError. */
  function TechnicalName(lookup: Option<string>): (name: string)
    ensures lookup.None? ==> name == "Not in TDB"
    ensures lookup.Some? ==> name == lookup.value
  {
    lookup.GetOr("Not in TDB")
  }

  /** `.unit`, or "None Found" when the lookup raised KeyError. */
  function Units(lookup: Option<string>): (units: string)
    ensures lookup.None? ==> units == "None Found"
    ensures lookup.Some? ==> units == lookup.value
  {
    lookup.GetOr("None Found")
  }

  /** A value the conversion helpers accept: a single number, or an array of
      numbers (anything iterable), which they handle element by element. */
  datatype Reading = Scalar(x: real) | Array(xs: seq<real>)
}
