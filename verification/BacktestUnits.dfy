/**
  Scaled errors have no unit (`backtest-scoring.ts`): measure a series in other units, from another
  zero, and every count and every scaled error stands while absolute errors change with the unit.
 */
module BacktestUnits {
  import opened Cadence
  import opened Options
  import opened Backtest

  function Measured(c: real, d: real, x: real): real {
    c * x + d
  }

  function MeasuredBound(c: real, d: real, x: Option<real>): Option<real> {
    if x.Some? then Some(Measured(c, d, x.value)) else None
  }

  function MeasuredActuals(c: real, d: real, actuals: map<int, real>): map<int, real> {
    map t | t in actuals :: Measured(c, d, actuals[t])
  }

  function MeasuredPoint(c: real, d: real, p: Point): Point {
    Point(p.t, Measured(c, d, p.v), MeasuredBound(c, d, p.lo), MeasuredBound(c, d, p.hi))
  }

  function MeasuredTrace(c: real, d: real, trace: Trace): Trace {
    Trace(trace.stepMs, seq(|trace.points|, i requires 0 <= i < |trace.points| => MeasuredPoint(c, d, trace.points[i])))
  }

  function MeasuredTraces(c: real, d: real, traces: seq<Trace>): seq<Trace> {
    seq(|traces|, i requires 0 <= i < |traces| => MeasuredTrace(c, d, traces[i]))
  }

  function StretchSums(c: real, sums: Sums): Sums {
    Sums(c * sums.abs, sums.scaled)
  }

  /** Absolute errors in the new unit; everything else as it was. */
  function Stretch(c: real, lead: Lead): Lead {
    Lead(lead.n, lead.nScaled, StretchSums(c, lead.model), StretchSums(c, lead.persistence),
      StretchSums(c, lead.seasonal),
         lead.intervalN, lead.covered)
  }

  function StretchMark(c: real, mark: Mark): Mark {
    match mark
    case Left(why) => Left(why)
    case Counted(lead, amount) => Counted(lead, Stretch(c, amount))
  }

  function StretchScore(c: real, score: Score): Score {
    Score(map lead | lead in score.byLead :: Stretch(c, score.byLead[lead]), score.excluded)
  }

  function Times(c: real, x: real): real {
    c * x
  }

  function StretchScale(c: real, scale: Option<real>): Option<real> {
    if scale.Some? then Some(Times(c, scale.value)) else None
  }

  // ------------------------------------------------------------------ arithmetic

  lemma ApartScales(c: real, d: real, x: real, y: real)
    requires c > 0.0
    ensures Abs(Measured(c, d, x) - Measured(c, d, y)) == c * Abs(x - y)
    ensures Measured(c, d, x) <= Measured(c, d, y) <==> x <= y
  {
    assert Measured(c, d, x) - Measured(c, d, y) == c * (x - y);
    if x > y {
      Positive(c, x - y);
    } else if x < y {
      Positive(c, y - x);
    }
  }

  lemma Positive(c: real, x: real)
    requires c > 0.0 && x > 0.0
    ensures Times(c, x) == c * x > 0.0
  {
  }

  lemma Nothing(c: real, x: real)
    requires x == 0.0
    ensures Times(c, x) == 0.0
  {
  }

  lemma Cancels(c: real, e: real, s: real)
    requires c > 0.0 && s > 0.0
    ensures c * s > 0.0 && (c * e) / (c * s) == e / s
  {
    Positive(c, s);
    var q := e / s;
    assert q * s == e;
    assert c * e == q * (c * s);
  }

  lemma MeanScales(c: real, sum: real, n: int)
    requires n > 0
    ensures Mean(Times(c, sum), n) == Times(c, Mean(sum, n))
  {
    var q := sum / n as real;
    assert q * n as real == sum;
    assert c * sum == (c * q) * n as real;
  }

  // ------------------------------------------------------------------ the scale

  lemma {:induction false} MovedScales(c: real, d: real, keys: seq<int>, actuals: map<int, real>, stepMs: int)
    requires c > 0.0
    ensures Moved(keys, MeasuredActuals(c, d, actuals), stepMs) == Times(c, Moved(keys, actuals, stepMs))
    ensures Moves(keys, MeasuredActuals(c, d, actuals), stepMs) == Moves(keys, actuals, stepMs)
  {
    hide Measured, Abs;
    if keys == [] {
      assert c * 0.0 == 0.0;
    } else {
      var t, earlier := keys[|keys| - 1], keys[..|keys| - 1];
      MovedScales(c, d, earlier, actuals, stepMs);
      if t in actuals && t - stepMs in actuals {
        ApartScales(c, d, actuals[t], actuals[t - stepMs]);
        Distributes(c, Moved(earlier, actuals, stepMs), Abs(actuals[t] - actuals[t - stepMs]));
      }
    }
  }

  lemma Distributes(c: real, x: real, y: real)
    ensures c * (x + y) == c * x + c * y
  {
  }

  lemma ScaleScales(c: real, d: real, keys: seq<int>, actuals: map<int, real>, stepMs: int)
    requires c > 0.0
    ensures Scale(keys, MeasuredActuals(c, d, actuals), stepMs) == StretchScale(c, Scale(keys, actuals, stepMs))
  {
    hide Moved, Moves, Mean, Times;
    MovedScales(c, d, keys, actuals, stepMs);
    MovedForward(keys, actuals, stepMs);
    var sum, n := Moved(keys, actuals, stepMs), Moves(keys, actuals, stepMs);
    if sum == 0.0 {
      Nothing(c, sum);
    } else if n > 0 {
      Positive(c, sum);
      MeanScales(c, sum, n);
    }
  }

  // ------------------------------------------------------------------ one step, then all

  lemma ErrorScales(c: real, d: real, scale: Option<real>, x: real, y: real)
    requires c > 0.0 && (scale.Some? ==> scale.value > 0.0)
    ensures Error(StretchScale(c, scale), Measured(c, d, x), Measured(c, d, y)) == StretchSums(c, Error(scale, x, y))
  {
    ApartScales(c, d, x, y);
    if scale.Some? {
      Cancels(c, Abs(x - y), scale.value);
    }
  }

  lemma IntervalScales(c: real, d: real, p: Point, actual: real)
    requires c > 0.0
    ensures HasInterval(MeasuredPoint(c, d, p)) == HasInterval(p)
    ensures Covers(MeasuredPoint(c, d, p), Measured(c, d, actual)) == Covers(p, actual)
  {
    hide Measured;
    if p.lo.Some? && p.hi.Some? {
      ApartScales(c, d, p.lo.value, actual);
      ApartScales(c, d, actual, p.hi.value);
    }
  }

  lemma AmountScales(c: real, d: real, scale: Option<real>, p: Point, actual: real, origin: real, seasonal: real)
    requires c > 0.0 && (scale.Some? ==> scale.value > 0.0)
    ensures Amount(StretchScale(c, scale), MeasuredPoint(c, d, p), Measured(c, d, actual), Measured(c, d, origin),
              Measured(c, d, seasonal))
         == Stretch(c, Amount(scale, p, actual, origin, seasonal))
  {
    hide Measured, Error, HasInterval, Covers, StretchSums;
    ErrorScales(c, d, scale, actual, p.v);
    ErrorScales(c, d, scale, actual, origin);
    ErrorScales(c, d, scale, actual, seasonal);
    IntervalScales(c, d, p, actual);
  }

  lemma MarksScale(c: real, d: real, actuals: map<int, real>, scale: Option<real>, trace: Trace, stepMs: int)
    requires c > 0.0 && (scale.Some? ==> scale.value > 0.0)
    ensures var marks := MarksOf(actuals, scale, trace, stepMs);
            var after := MarksOf(MeasuredActuals(c, d, actuals), StretchScale(c, scale), MeasuredTrace(c, d, trace),
                stepMs);
            |after| == |marks| && forall i :: 0 <= i < |marks| ==> after[i] == StretchMark(c, marks[i])
  {
    hide Measured, Amount, StretchScale, Stretch;
    var marks := MarksOf(actuals, scale, trace, stepMs);
    var after := MarksOf(MeasuredActuals(c, d, actuals), StretchScale(c, scale), MeasuredTrace(c, d, trace), stepMs);
    forall i | 0 <= i < |marks| ensures after[i] == StretchMark(c, marks[i]) {
      if trace.points != [] && trace.stepMs == stepMs && marks[i].Counted? {
        var p := trace.points[i];
        AmountScales(c, d, scale, p, actuals[p.t], actuals[trace.points[0].t - trace.stepMs],
                     actuals[SeasonalAt(p.t, i + 1, trace.stepMs, DAY_MS)]);
      }
    }
  }

  lemma {:induction false} AllMarksScale(c: real, d: real, actuals: map<int, real>, scale: Option<real>,
      traces: seq<Trace>, stepMs: int)
    requires c > 0.0 && (scale.Some? ==> scale.value > 0.0)
    ensures var marks := AllMarks(actuals, scale, traces, stepMs);
            var after := AllMarks(MeasuredActuals(c, d, actuals), StretchScale(c, scale), MeasuredTraces(c, d, traces),
                stepMs);
            |after| == |marks| && forall i :: 0 <= i < |marks| ==> after[i] == StretchMark(c, marks[i])
    decreases |traces|
  {
    hide MarksOf, MeasuredTrace, StretchMark, StretchScale, MeasuredActuals;
    if traces == [] {
    } else {
      var n := |traces| - 1;
      assert MeasuredTraces(c, d, traces)[..n] == MeasuredTraces(c, d, traces[..n]);
      AllMarksScale(c, d, actuals, scale, traces[..n], stepMs);
      MarksScale(c, d, actuals, scale, traces[n], stepMs);
    }
  }

  lemma PlusStretches(c: real, a: Lead, b: Lead)
    ensures Stretch(c, Plus(a, b)) == Plus(Stretch(c, a), Stretch(c, b)) && Stretch(c, NOTHING) == NOTHING
  {
    Distributes(c, a.model.abs, b.model.abs);
    Distributes(c, a.persistence.abs, b.persistence.abs);
    Distributes(c, a.seasonal.abs, b.seasonal.abs);
  }

  lemma BumpStretches(c: real, score: Score, mark: Mark)
    ensures StretchScore(c, Bump(score, mark)) == Bump(StretchScore(c, score), StretchMark(c, mark))
  {
    hide Plus, Stretch;
    if mark.Counted? {
      PlusStretches(c, LeadAt(score.byLead, mark.lead), mark.amount);
      assert LeadAt(StretchScore(c, score).byLead, mark.lead) == Stretch(c, LeadAt(score.byLead, mark.lead));
      assert StretchScore(c, Bump(score, mark)).byLead == Bump(StretchScore(c, score), StretchMark(c, mark)).byLead;
    }
  }

  lemma {:induction false} TotalStretches(c: real, marks: seq<Mark>, after: seq<Mark>)
    requires |after| == |marks| && forall i :: 0 <= i < |marks| ==> after[i] == StretchMark(c, marks[i])
    ensures Total(after) == StretchScore(c, Total(marks))
  {
    hide Bump, StretchMark;
    if marks != [] {
      var n := |marks| - 1;
      TotalStretches(c, marks[..n], after[..n]);
      BumpStretches(c, Total(marks[..n]), marks[n]);
    } else {
      assert StretchScore(c, EMPTY).byLead == map[];
    }
  }

  /** Changing the unit and the zero of a series changes its absolute errors by the unit and nothing else. */
  lemma ScoreHasNoUnit(c: real, d: real, keys: seq<int>, actuals: map<int, real>, traces: seq<Trace>, stepMs: int)
    requires c > 0.0
    ensures var scale := Scale(keys, actuals, stepMs);
            var measured := MeasuredActuals(c, d, actuals);
            ScoreOf(measured, Scale(keys, measured, stepMs), MeasuredTraces(c, d, traces), stepMs)
              == StretchScore(c, ScoreOf(actuals, scale, traces, stepMs))
  {
    hide Scale, AllMarks, Total, StretchScore, StretchScale, StretchMark, MeasuredActuals, MeasuredTraces;
    var scale := Scale(keys, actuals, stepMs);
    ScaleScales(c, d, keys, actuals, stepMs);
    ScalePositive(keys, actuals, stepMs);
    AllMarksScale(c, d, actuals, scale, traces, stepMs);
    TotalStretches(c, AllMarks(actuals, scale, traces, stepMs),
                   AllMarks(MeasuredActuals(c, d, actuals), StretchScale(c, scale), MeasuredTraces(c, d, traces),
                     stepMs));
  }
}
