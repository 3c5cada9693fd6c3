/** The time-window exclusion masks both analyses build before taking
    extrema: five spacecraft mode transitions (safe-mode entries and CTU
    swaps) padded by 300 s, three thermal-control-disabled windows padded by
    70 s, and a glitch gate on the values. Event times are given in seconds;
    the conversion from calendar strings happens outside this model. */
module ExclusionFilters {

  /** Padding around a safe-mode transition or CTU swap, in seconds. */
  const PAD: real := 300.0
  /** Padding around a thermal-control-disabled window, in seconds. */
  const PAD2: real := 70.0
  /** Values at or above this are telemetry glitches. */
  const GLITCH_CEILING: real := 250.0

  /** A thermal-control-disabled interval: the start and the end are distinct timestamps. */
  datatype Window = Window(start: real, stop: real)

  /** The events the analysis excludes: transition times and control outages. */
  datatype Schedule = Schedule(transitions: seq<real>, outages: seq<Window>)

  /** `t < e - pad or t > e + pad`: the sample survives one event filter. */
  predicate OutsideEvent(t: real, e: real, pad: real) {
    t < e - pad || t > e + pad
  }

  /** `t < start - pad or t > stop + pad`: the sample survives one window filter. */
  predicate OutsideWindow(t: real, w: Window, pad: real) {
    t < w.start - pad || t > w.stop + pad
  }

  /** One event's keep-mask; its dead zone is the CLOSED interval [e - pad, e + pad]. */
  function EventMask(times: seq<real>, e: real, pad: real): (m: seq<bool>)
    ensures |m| == |times|
    ensures forall i :: 0 <= i < |times| ==> (!m[i] <==> e - pad <= times[i] <= e + pad)
  {
    seq(|times|, i requires 0 <= i < |times| => OutsideEvent(times[i], e, pad))
  }

  /** One window's keep-mask; its dead zone is the CLOSED interval [start - pad, stop + pad]. */
  function WindowMask(times: seq<real>, w: Window, pad: real): (m: seq<bool>)
    ensures |m| == |times|
    ensures forall i :: 0 <= i < |times| ==> (!m[i] <==> w.start - pad <= times[i] <= w.stop + pad)
  {
    seq(|times|, i requires 0 <= i < |times| => OutsideWindow(times[i], w, pad))
  }

  /** The glitch gate `vals < 250`, a data-quality filter distinct from the time windows. */
  function GlitchMask(vals: seq<real>): (m: seq<bool>)
    ensures |m| == |vals|
    ensures forall i :: 0 <= i < |vals| ==> (!m[i] <==> vals[i] >= GLITCH_CEILING)
  {
    seq(|vals|, i requires 0 <= i < |vals| => vals[i] < GLITCH_CEILING)
  }

  function AllTrue(n: nat): (m: seq<bool>)
    ensures |m| == n
  {
    seq(n, i => true)
  }

  /** Elementwise `a & b`. */
  function And(a: seq<bool>, b: seq<bool>): (m: seq<bool>)
    requires |a| == |b|
    ensures |m| == |a|
  {
    seq(|a|, i requires 0 <= i < |a| => a[i] && b[i])
  }

  /** `good_ind_1 & ... & good_ind_5`: every transition filter, padded by PAD. */
  function TransitionMask(times: seq<real>, events: seq<real>): (m: seq<bool>)
    ensures |m| == |times|
    decreases |events|
  {
    if |events| == 0 then AllTrue(|times|)
    else And(EventMask(times, events[0], PAD), TransitionMask(times, events[1..]))
  }

  /** `good_ind_7 & good_ind_8 & good_ind_9`: every outage filter, padded by PAD2. */
  function OutageMask(times: seq<real>, windows: seq<Window>): (m: seq<bool>)
    ensures |m| == |times|
    decreases |windows|
  {
    if |windows| == 0 then AllTrue(|times|)
    else And(WindowMask(times, windows[0], PAD2), OutageMask(times, windows[1..]))
  }

  /** `good_ind_all`: transitions, then the glitch gate, then the outages, by conjunction. */
  function CombinedMask(times: seq<real>, vals: seq<real>, sched: Schedule): (m: seq<bool>)
    requires |vals| == |times|
    ensures |m| == |times|
  {
    And(And(TransitionMask(times, sched.transitions), GlitchMask(vals)), OutageMask(times, sched.outages))
  }

  /** Reference definition: a sample is kept when it lies outside every
      padded dead zone and below the glitch ceiling. */
  predicate Kept(t: real, v: real, sched: Schedule) {
    && (forall k :: 0 <= k < |sched.transitions| ==> OutsideEvent(t, sched.transitions[k], PAD))
    && v < GLITCH_CEILING
    && (forall k :: 0 <= k < |sched.outages| ==> OutsideWindow(t, sched.outages[k], PAD2))
  }

  lemma {:induction false} TransitionMaskAt(times: seq<real>, events: seq<real>, i: nat)
    requires i < |times|
    ensures TransitionMask(times, events)[i] <==> forall k :: 0 <= k < |events| ==> OutsideEvent(times[i], events[k], PAD)
    decreases |events|
  {
    if |events| > 0 {
      TransitionMaskAt(times, events[1..], i);
      assert forall k :: 1 <= k < |events| ==> events[k] == events[1..][k - 1];
    }
  }

  lemma {:induction false} OutageMaskAt(times: seq<real>, windows: seq<Window>, i: nat)
    requires i < |times|
    ensures OutageMask(times, windows)[i] <==> forall k :: 0 <= k < |windows| ==> OutsideWindow(times[i], windows[k], PAD2)
    decreases |windows|
  {
    if |windows| > 0 {
      OutageMaskAt(times, windows[1..], i);
      assert forall k :: 1 <= k < |windows| ==> windows[k] == windows[1..][k - 1];
    }
  }

  /** The combined mask has one entry per sample and keeps exactly the samples `Kept` describes. */
  lemma CombinedMaskIsConjunction(times: seq<real>, vals: seq<real>, sched: Schedule)
    requires |vals| == |times|
    ensures |CombinedMask(times, vals, sched)| == |times|
    ensures forall i :: 0 <= i < |times| ==> (CombinedMask(times, vals, sched)[i] <==> Kept(times[i], vals[i], sched))
  {
    forall i | 0 <= i < |times|
      ensures CombinedMask(times, vals, sched)[i] <==> Kept(times[i], vals[i], sched)
    {
      TransitionMaskAt(times, sched.transitions, i);
      OutageMaskAt(times, sched.outages, i);
    }
  }

  /** The set of positions a mask keeps. */
  function KeptPositions(m: seq<bool>): (kept: set<nat>) {
    set i: nat | i < |m| && m[i]
  }

  /** The combined filter keeps a subset of what every individual filter keeps. */
  lemma CombinedKeepsSubsetOfEachFilter(times: seq<real>, vals: seq<real>, sched: Schedule)
    requires |vals| == |times|
    ensures KeptPositions(CombinedMask(times, vals, sched)) <= KeptPositions(GlitchMask(vals))
    ensures forall k :: 0 <= k < |sched.transitions| ==>
      KeptPositions(CombinedMask(times, vals, sched)) <= KeptPositions(EventMask(times, sched.transitions[k], PAD))
    ensures forall k :: 0 <= k < |sched.outages| ==>
      KeptPositions(CombinedMask(times, vals, sched)) <= KeptPositions(WindowMask(times, sched.outages[k], PAD2))
  {
    CombinedMaskIsConjunction(times, vals, sched);
  }

  /** With no events, only the glitch gate removes samples. */
  lemma EmptyScheduleKeepsAllButGlitches(times: seq<real>, vals: seq<real>)
    requires |vals| == |times|
    ensures CombinedMask(times, vals, Schedule([], [])) == GlitchMask(vals)
  {
  }
}
