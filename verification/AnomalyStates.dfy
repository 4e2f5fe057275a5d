/**
  How often a signal was normal, anomalous or without a band over a past window
  (`anomalyStates` in `evaluation.service.ts`): a band learned once a day, three tallies, and the
  anomalous hours grouped into stretches.
 */
module AnomalyStates {
  import opened Cadence
  import opened Options
  import opened Ordering
  import opened Quantiles
  import opened ForecastBand
  import opened ForecastReader

  // ------------------------------------------------------------------ each residual by the days before its own

  /** The band a residual should be judged by: learned from everything before its UTC midnight. */
  ghost function BandFor(points: seq<ResidualPoint>, warmUp: nat, dirty: seq<Range>, p: ResidualPoint): Band {
    BandOf(Before(points, DayOf(p.stepAt) * DAY_MS), warmUp, dirty)
  }

  function StateBy(band: Band, p: ResidualPoint): State {
    match band
    case NotEstablished(_, _) => BaselineNotEstablished
    case Established(span, _, _, _, _) =>
      if p.residual < span.lo || p.residual > span.hi then Anomalous else Normal
  }

  /** The in-window residuals among `some`, each in the state its own band gives it. */
  ghost function InState(points: seq<ResidualPoint>, warmUp: nat, dirty: seq<Range>, from: int,
      some: seq<ResidualPoint>, state: State)
    : seq<ResidualPoint>
  {
    if some == [] then []
    else
      var p := some[|some| - 1];
      InState(points, warmUp, dirty, from, some[..|some| - 1], state)
      + if p.stepAt >= from && StateBy(BandFor(points, warmUp, dirty, p), p) == state then [p] else []
  }

  function InWindow(some: seq<ResidualPoint>, from: int): int {
    if some == [] then 0 else InWindow(some[..|some| - 1], from) + if some[|some| - 1].stepAt >= from then 1 else 0
  }

  function Times(some: seq<ResidualPoint>): (ts: seq<int>)
    ensures |ts| == |some| && forall i :: 0 <= i < |some| ==> ts[i] == some[i].stepAt
  {
    seq(|some|, i requires 0 <= i < |some| => some[i].stepAt)
  }

  method Tally(points: seq<ResidualPoint>, warmUp: nat, dirty: seq<Range>, from: int)
    returns (normal: int, anomalous: int, unestablished: int, times: seq<int>)
    ensures normal + anomalous + unestablished == InWindow(points, from)
    ensures anomalous == |times|
    ensures from >= 0 ==>
      && normal == |InState(points, warmUp, dirty, from, points, Normal)|
      && times == Times(InState(points, warmUp, dirty, from, points, Anomalous))
      && unestablished == |InState(points, warmUp, dirty, from, points, BaselineNotEstablished)|
  {
    hide BandOf, Before, RunStartHours;
    normal, anomalous, unestablished, times := 0, 0, 0, [];
    var day := -1;
    var band := LearnBand([], warmUp, dirty);
    for i := 0 to |points|
      invariant normal + anomalous + unestablished == InWindow(points[..i], from)
      invariant anomalous == |times|
      invariant day != -1 ==> band == BandOf(Before(points, day * DAY_MS), warmUp, dirty)
      invariant from >= 0 ==> normal == |InState(points, warmUp, dirty, from, points[..i], Normal)|
      invariant from >= 0 ==> times == Times(InState(points, warmUp, dirty, from, points[..i], Anomalous))
      invariant from >= 0 ==>
                  unestablished == |InState(points, warmUp, dirty, from, points[..i], BaselineNotEstablished)|
    {
      var p := points[i];
      assert points[..i + 1][..i] == points[..i];
      if p.stepAt < from {
        continue;
      }
      var d := DayOf(p.stepAt);
      if d != day {
        day := d;
        band := LearnBand(Before(points, d * DAY_MS), warmUp, dirty);
      }
      assert from >= 0 ==> band == BandFor(points, warmUp, dirty, p);
      if band.NotEstablished? {
        unestablished := unestablished + 1;
        continue;
      }
      if p.residual < band.span.lo || p.residual > band.span.hi {
        anomalous := anomalous + 1;
        times := times + [p.stepAt];
      } else {
        normal := normal + 1;
      }
    }
    assert points[..|points|] == points;
  }

  /**
    A residual is anomalous exactly when it is below the 2.5% or above the 97.5% value of the clean
    residuals before its UTC midnight, and has no band exactly when those fall on fewer than 14 days.
   */
  lemma StateExactly(points: seq<ResidualPoint>, warmUp: nat, dirty: seq<Range>, p: ResidualPoint)
    ensures var clean := Clean(Before(points, p.stepAt - p.stepAt % 86_400_000), warmUp, dirty);
            var state := StateBy(BandFor(points, warmUp, dirty, p), p);
            && (state.BaselineNotEstablished? <==> |DaysOf(clean)| < 14)
            && (|DaysOf(clean)| >= 14 ==>
                  && clean != [] && |Drawn(clean, None)| == |clean|
                  && var values := Sort(Drawn(clean, None));
                     && |values| == |clean|
                     && var lo, hi := Quantile(values, 0.025), Quantile(values, 0.975);
                        && (state.Anomalous? <==> p.residual < lo || hi < p.residual)
                        && (state.Normal? <==> lo <= p.residual <= hi))
  {
    hide RunStartHours, ByLead, Drawn, DaysOf, Kept, Earliest, Latest, Sort, Quantile, Before;
    var before := Before(points, DayOf(p.stepAt) * DAY_MS);
    assert DayOf(p.stepAt) * DAY_MS == p.stepAt - p.stepAt % 86_400_000;
    var clean := Clean(before, warmUp, dirty);
    EstablishedExactly(before, warmUp, dirty);
    NoDays();
    AllDrawn(clean);
    SortSorts(Drawn(clean, None));
  }

  /** The residuals of the window among `some` in a state, each as often as it is there. */
  lemma {:induction false} InStateExactly(points: seq<ResidualPoint>, warmUp: nat, dirty: seq<Range>, from: int,
      some: seq<ResidualPoint>, state: State, p: ResidualPoint)
    ensures multiset(InState(points, warmUp, dirty, from, some, state))[p]
         == if from <= p.stepAt && StateBy(BandFor(points, warmUp, dirty, p), p) == state then multiset(some)[p] else 0
  {
    hide BandFor, StateBy;
    if some == [] {
    } else {
      var n := |some| - 1;
      InStateExactly(points, warmUp, dirty, from, some[..n], state, p);
      assert some == some[..n] + [some[n]];
    }
  }

  // ------------------------------------------------------------------ the reader's rule

  /** The tally the reader's rule would give: the same bands, but of steady hours only. */
  ghost function SteadyInState(points: seq<ResidualPoint>, warmUp: nat, dirty: seq<Range>, from: int,
      some: seq<ResidualPoint>, state: State)
    : seq<ResidualPoint>
  {
    if some == [] then []
    else
      var p := some[|some| - 1];
      SteadyInState(points, warmUp, dirty, from, some[..|some| - 1], state)
      + if p.stepAt >= from && Steady(RunStartHours(points, warmUp), p)
        && StateBy(BandFor(points, warmUp, dirty, p), p) == state
        then [p] else []
  }

  ghost predicate AllSteady(points: seq<ResidualPoint>, warmUp: nat, from: int, some: seq<ResidualPoint>) {
    forall i :: 0 <= i < |some| && some[i].stepAt >= from ==> Steady(RunStartHours(points, warmUp), some[i])
  }

  lemma {:induction false} SteadyAmongAll(points: seq<ResidualPoint>, warmUp: nat, dirty: seq<Range>, from: int,
      some: seq<ResidualPoint>)
    ensures forall state ::
              |SteadyInState(points, warmUp, dirty, from, some, state)|
                <= |InState(points, warmUp, dirty, from, some, state)|
    ensures AllSteady(points, warmUp, from, some) ==>
              forall state :: SteadyInState(points, warmUp, dirty, from, some, state)
                  == InState(points, warmUp, dirty, from, some, state)
    ensures !AllSteady(points, warmUp, from, some) ==>
              exists state ::
                |SteadyInState(points, warmUp, dirty, from, some, state)|
                < |InState(points, warmUp, dirty, from, some, state)|
  {
    hide BandFor, RunStartHours, StateBy, Steady;
    if some == [] {
    } else {
      var n := |some| - 1;
      var p, state := some[n], StateBy(BandFor(points, warmUp, dirty, some[n]), some[n]);
      SteadyAmongAll(points, warmUp, dirty, from, some[..n]);
      if AllSteady(points, warmUp, from, some) {
        assert AllSteady(points, warmUp, from, some[..n]);
      } else if AllSteady(points, warmUp, from, some[..n]) {
        assert p.stepAt >= from && !Steady(RunStartHours(points, warmUp), p);
        assert |SteadyInState(points, warmUp, dirty, from, some, state)|
            < |InState(points, warmUp, dirty, from, some, state)|;
      } else {
        var other :| |SteadyInState(points, warmUp, dirty, from, some[..n], other)|
            < |InState(points, warmUp, dirty, from, some[..n], other)|;
        assert |SteadyInState(points, warmUp, dirty, from, some, other)|
            < |InState(points, warmUp, dirty, from, some, other)|;
      }
    }
  }

  /** The three counts are those of the reader's rule exactly when every residual of the window is steady. */
  lemma ReadersRuleExactly(points: seq<ResidualPoint>, warmUp: nat, dirty: seq<Range>, from: int)
    ensures (forall state ::
              |SteadyInState(points, warmUp, dirty, from, points, state)|
                == |InState(points, warmUp, dirty, from, points, state)|)
       <==> AllSteady(points, warmUp, from, points)
  {
    SteadyAmongAll(points, warmUp, dirty, from, points);
  }

  /** Fourteen days with one running hour each and no error, then a parked hour that is one degree off. */
  function ParkedAfter(days: nat): seq<ResidualPoint> {
    RunningDays(days) + [ResidualPoint(days * DAY_MS, 1, 1.0, Some(false))]
  }

  function RunningDays(days: nat): seq<ResidualPoint> {
    seq(days, i => ResidualPoint(i * DAY_MS, 1, 0.0, Some(true)))
  }

  lemma {:induction false} BeforeAll(points: seq<ResidualPoint>, t: int)
    requires forall p :: p in points ==> p.stepAt < t
    ensures Before(points, t) == points
  {
    if points == [] {
    } else {
      assert points[0] in points && forall p :: p in points[1..] ==> p in points;
      BeforeAll(points[1..], t);
    }
  }

  lemma {:induction false} KeepsAll(points: seq<ResidualPoint>, starts: set<int>)
    requires forall p :: p in points ==> Steady(starts, p)
    ensures Kept(points, starts, []) == points
  {
    if points == [] {
    } else {
      assert points[0] in points && forall p :: p in points[1..] ==> p in points;
      KeepsAll(points[1..], starts);
    }
  }

  lemma DaysStep(points: seq<ResidualPoint>, p: ResidualPoint)
    ensures DaysOf(points + [p]) == DaysOf(points) + {DayOf(p.stepAt)}
  {
    assert p in points + [p];
    forall q | q in points ensures q in points + [p] {
    }
  }

  lemma DayOfMidnight(d: int)
    ensures DayOf(d * DAY_MS) == d
  {
  }

  lemma {:induction false} DaysCounted(days: nat)
    ensures |DaysOf(RunningDays(days))| == days
    ensures forall d :: d in DaysOf(RunningDays(days)) ==> 0 <= d < days
  {
    hide DaysOf, DayOf;
    if days == 0 {
      NoDays();
      assert RunningDays(0) == [];
    } else {
      var was, last := RunningDays(days - 1), ResidualPoint((days - 1) * DAY_MS, 1, 0.0, Some(true));
      DaysCounted(days - 1);
      DaysStep(was, last);
      DayOfMidnight(days - 1);
      assert RunningDays(days) == was + [last];
    }
  }

  lemma {:induction false} NoError(points: seq<ResidualPoint>)
    requires forall p :: p in points ==> p.residual == 0.0
    ensures |Drawn(points, None)| == |points| && forall x :: x in Drawn(points, None) ==> x == 0.0
  {
    if points == [] {
    } else {
      assert points[0] in points && forall p :: p in points[1..] ==> p in points;
      NoError(points[1..]);
    }
  }

  lemma FlatBand(values: seq<real>)
    requires values != [] && forall x :: x in values ==> x == 0.0
    ensures SpanOf(values).lo == 0.0 && SpanOf(values).hi == 0.0
  {
    hide Quantile, Sort;
    SortSorts(values);
    var sorted := Sort(values);
    forall i | 0 <= i < |sorted| ensures sorted[i] == 0.0 {
      assert sorted[i] in multiset(sorted);
      assert sorted[i] in multiset(values);
      assert sorted[i] in values;
    }
    QuantileWithin(sorted, BAND_LO);
    QuantileWithin(sorted, BAND_HI);
  }

  lemma RunningDaysBand(days: nat)
    requires days >= BASELINE_DAYS
    ensures var band := BandOf(RunningDays(days), WARM_UP_HOURS, []);
            band.Established? && band.span.lo == 0.0 && band.span.hi == 0.0
  {
    hide SpanOf, Drawn, DaysOf, ByLead, Earliest, Latest, Kept;
    var points := RunningDays(days);
    var starts := RunStartHours(points, WARM_UP_HOURS);
    assert Parked(points) == {};
    forall p | p in points ensures Steady(starts, p) && p.residual == 0.0 {
    }
    KeepsAll(points, starts);
    DaysCounted(days);
    NoError(points);
    FlatBand(Drawn(points, None));
    assert points[0] in points && points[0].operating == Some(true);
  }

  /** A parked hour is counted anomalous, though no reading would ever judge it. */
  lemma ParkedHourCounted()
    ensures var points := ParkedAfter(BASELINE_DAYS);
            var from := BASELINE_DAYS * DAY_MS;
            && |InState(points, WARM_UP_HOURS, [], from, points, Anomalous)| >= 1
            && SteadyInState(points, WARM_UP_HOURS, [], from, points, Anomalous) == []
  {
    hide BandOf, RunStartHours, Before;
    var points, from := ParkedAfter(BASELINE_DAYS), BASELINE_DAYS * DAY_MS;
    var last, running := points[|points| - 1], RunningDays(BASELINE_DAYS);
    assert DayOf(last.stepAt) * DAY_MS == from;
    assert points == running + [last];
    BeforeAll(running, from);
    BeforeAppend(running, [last], from);
    RunningDaysBand(BASELINE_DAYS);
    assert BandFor(points, WARM_UP_HOURS, [], last) == BandOf(running, WARM_UP_HOURS, []);
    assert points[..|points| - 1] == running;
    NothingInWindow(points, from, running);
  }

  lemma {:induction false} NothingInWindow(points: seq<ResidualPoint>, from: int, some: seq<ResidualPoint>)
    requires forall p :: p in some ==> p.stepAt < from
    ensures SteadyInState(points, WARM_UP_HOURS, [], from, some, Anomalous) == []
  {
    if some == [] {
    } else {
      var n := |some| - 1;
      assert some[n] in some && forall p :: p in some[..n] ==> p in some;
      NothingInWindow(points, from, some[..n]);
    }
  }

  // ------------------------------------------------------------------ stretches

  datatype Stretch = Stretch(start: int, end: int)

  function Flat(groups: seq<seq<int>>): seq<int> {
    if groups == [] then [] else Flat(groups[..|groups| - 1]) + groups[|groups| - 1]
  }

  ghost predicate Together(group: seq<int>, stepMs: int) {
    group != [] && forall i :: 0 < i < |group| ==> group[i] - group[i - 1] <= stepMs
  }

  /** The times, in order, cut exactly where two of them are more than a step apart. */
  ghost predicate Grouping(groups: seq<seq<int>>, times: seq<int>, stepMs: int) {
    && Flat(groups) == times
    && (forall k :: 0 <= k < |groups| ==> Together(groups[k], stepMs))
    && forall k :: 0 < k < |groups| ==> groups[k][0] - groups[k - 1][|groups[k - 1]| - 1] > stepMs
  }

  ghost predicate Ends(stretches: seq<Stretch>, groups: seq<seq<int>>) {
    && |stretches| == |groups|
    && forall k :: 0 <= k < |groups| ==>
      groups[k] != [] && stretches[k] == Stretch(groups[k][0], groups[k][|groups[k]| - 1])
  }

  method Stretches(times: seq<int>, stepMs: int) returns (stretches: seq<Stretch>)
    ensures exists groups :: Grouping(groups, times, stepMs) && Ends(stretches, groups)
  {
    hide Grouping, Flat, Together;
    stretches := [];
    ghost var groups: seq<seq<int>> := [];
    NothingGrouped(stepMs);
    assert times[..0] == [];
    for i := 0 to |times|
      invariant Grouping(groups, times[..i], stepMs) && Ends(stretches, groups)
    {
      var t := times[i];
      var last := |stretches| - 1;
      assert times[..i + 1] == times[..i] + [t];
      if last >= 0 && t - stretches[last].end <= stepMs {
        stretches := stretches[last := Stretch(stretches[last].start, t)];
        GrownGroup(groups, times[..i], t, stepMs);
        groups := groups[..last] + [groups[last] + [t]];
      } else {
        stretches := stretches + [Stretch(t, t)];
        NewGroup(groups, times[..i], t, stepMs);
        groups := groups + [[t]];
      }
    }
    assert times[..|times|] == times;
  }

  lemma NothingGrouped(stepMs: int)
    ensures Grouping([], [], stepMs)
  {
  }

  lemma GrownGroup(groups: seq<seq<int>>, times: seq<int>, t: int, stepMs: int)
    requires Grouping(groups, times, stepMs) && groups != []
    requires var g := groups[|groups| - 1]; g != [] && t - g[|g| - 1] <= stepMs
    ensures var last := |groups| - 1; Grouping(groups[..last] + [groups[last] + [t]], times + [t], stepMs)
  {
    var last := |groups| - 1;
    var after := groups[..last] + [groups[last] + [t]];
    assert after[..last] == groups[..last];
    assert Flat(after) == Flat(groups[..last]) + (groups[last] + [t]) == Flat(groups) + [t];
  }

  lemma NewGroup(groups: seq<seq<int>>, times: seq<int>, t: int, stepMs: int)
    requires Grouping(groups, times, stepMs)
    requires groups != [] ==> var g := groups[|groups| - 1]; g != [] && t - g[|g| - 1] > stepMs
    ensures Grouping(groups + [[t]], times + [t], stepMs)
  {
    assert (groups + [[t]])[..|groups|] == groups;
  }

  lemma LastGroup(groups: seq<seq<int>>, times: seq<int>, stepMs: int)
    requires Grouping(groups, times, stepMs) && groups != []
    ensures var last := |groups| - 1; var g := groups[last];
            && 0 < |g| <= |times| && g == times[|times| - |g|..]
            && Grouping(groups[..last], times[..|times| - |g|], stepMs)
            && (|g| < |times| ==> times[|times| - |g|] - times[|times| - |g| - 1] > stepMs)
  {
    var last := |groups| - 1;
    var g, rest := groups[last], groups[..last];
    assert times == Flat(rest) + g;
    if |g| < |times| {
      assert rest != [];
      assert Flat(rest) == Flat(rest[..last - 1]) + rest[last - 1];
      assert rest[last - 1] != [];
    }
  }

  /** There is one way to cut the anomalous hours into stretches. */
  lemma {:induction false} OneGrouping(a: seq<seq<int>>, b: seq<seq<int>>, times: seq<int>, stepMs: int)
    requires Grouping(a, times, stepMs) && Grouping(b, times, stepMs)
    ensures a == b
    decreases |times|
  {
    hide Flat, Grouping;
    if a == [] || b == [] {
      NoTimes(a, times, stepMs);
      NoTimes(b, times, stepMs);
    } else {
      LastGroup(a, times, stepMs);
      LastGroup(b, times, stepMs);
      var g, h := a[|a| - 1], b[|b| - 1];
      assert Together(g, stepMs) && Together(h, stepMs) by {
        InGroups(a, times, stepMs);
        InGroups(b, times, stepMs);
      }
      NoCutInside(times, g, stepMs);
      NoCutInside(times, h, stepMs);
      assert |g| == |h|;
      OneGrouping(a[..|a| - 1], b[..|b| - 1], times[..|times| - |g|], stepMs);
      assert a == a[..|a| - 1] + [g] && b == b[..|b| - 1] + [h];
    }
  }

  lemma InGroups(groups: seq<seq<int>>, times: seq<int>, stepMs: int)
    requires Grouping(groups, times, stepMs) && groups != []
    ensures Together(groups[|groups| - 1], stepMs)
  {
  }

  lemma NoTimes(groups: seq<seq<int>>, times: seq<int>, stepMs: int)
    requires Grouping(groups, times, stepMs)
    ensures groups == [] <==> times == []
  {
  }

  /** A group does not reach across a cut. */
  lemma NoCutInside(times: seq<int>, group: seq<int>, stepMs: int)
    requires |group| <= |times| && group == times[|times| - |group|..] && Together(group, stepMs)
    ensures forall j :: |times| - |group| < j < |times| ==> times[j] - times[j - 1] <= stepMs
  {
    forall j | |times| - |group| < j < |times| ensures times[j] - times[j - 1] <= stepMs {
      var i := j - (|times| - |group|);
      assert group[i] == times[j] && group[i - 1] == times[j - 1];
    }
  }
}
