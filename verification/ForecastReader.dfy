/**
  The anomaly verdict (`forecast-reader.ts`): which stored hour it is about, which hours its band
  may draw on, and what has no say in it.
 */
module ForecastReader {
  import opened Cadence
  import opened Options
  import opened Ordering
  import opened Quantiles
  import opened ForecastBand

  const FORECAST_RETENTION_DAYS: int := 90

  /** A stored residual: the point the band is learned from, and what was read and foretold. */
  datatype Row = Row(point: ResidualPoint, actual: real, predicted: real)

  datatype State = Normal | Anomalous | BaselineNotEstablished

  datatype Anomaly = Anomaly(state: State, baselineReason: Option<Reason>, judged: Option<Row>, band: Option<Band>)

  function Points(rows: seq<Row>): (points: seq<ResidualPoint>)
    ensures |points| == |rows| && forall i :: 0 <= i < |rows| ==> points[i] == rows[i].point
  {
    seq(|rows|, i requires 0 <= i < |rows| => rows[i].point)
  }

  /** What a reading as of `at` may see: the retained hours that are over by then. */
  predicate InView(at: int, t: int) {
    at - FORECAST_RETENTION_DAYS * DAY_MS + 1 <= t <= at - HOUR_MS
  }

  function ResidualsFor(stored: seq<Row>, at: int): seq<Row> {
    if stored == [] then []
    else (if InView(at, stored[0].point.stepAt) then [stored[0]] else []) + ResidualsFor(stored[1..], at)
  }

  ghost predicate IsJudged(rows: seq<Row>, warmUp: nat, i: int) {
    && 0 <= i < |rows|
    && Steady(RunStartHours(Points(rows), warmUp), rows[i].point)
    && forall j :: i < j < |rows| ==> !Steady(RunStartHours(Points(rows), warmUp), rows[j].point)
  }

  ghost predicate NoneJudged(rows: seq<Row>, warmUp: nat) {
    forall j :: 0 <= j < |rows| ==> !Steady(RunStartHours(Points(rows), warmUp), rows[j].point)
  }

  function Before(points: seq<ResidualPoint>, t: int): seq<ResidualPoint> {
    if points == [] then []
    else (if points[0].stepAt < t then [points[0]] else []) + Before(points[1..], t)
  }

  function Verdict(row: Row, band: Band): Anomaly {
    match band
    case NotEstablished(reason, _) => Anomaly(BaselineNotEstablished, Some(reason), Some(row), None)
    case Established(span, _, _, _, _) =>
      var outside := row.point.residual < span.lo || row.point.residual > span.hi;
      Anomaly(if outside then Anomalous else Normal, None, Some(row), Some(band))
  }

  /** With no steady hour there is nothing to judge, whatever band all the hours would give. */
  function NothingJudged(band: Band): Anomaly {
    Anomaly(BaselineNotEstablished, Some(if band.NotEstablished? then band.reason else NotYetEstablished), None, None)
  }

  /** The newest steady hour's verdict, by the band of the hours strictly before it. */
  ghost predicate Answers(rows: seq<Row>, warmUp: nat, excluded: seq<Range>, anomaly: Anomaly) {
    if anomaly.judged.None? then
      NoneJudged(rows, warmUp) && anomaly == NothingJudged(BandOf(Points(rows), warmUp, excluded))
    else
      exists i :: IsJudged(rows, warmUp, i)
        && anomaly == Verdict(rows[i], BandOf(Before(Points(rows), rows[i].point.stepAt), warmUp, excluded))
  }

  method Judge(rows: seq<Row>, warmUp: nat, excluded: seq<Range>) returns (anomaly: Anomaly)
    ensures Answers(rows, warmUp, excluded, anomaly)
  {
    hide RunStartHours, BandOf;
    var points := Points(rows);
    var starts := FindRunStarts(points, warmUp);
    var i := |rows|;
    while i > 0
      invariant 0 <= i <= |rows|
      invariant forall j :: i <= j < |rows| ==> !Steady(starts, rows[j].point)
    {
      i := i - 1;
      if points[i].operating == Some(true) && points[i].stepAt !in starts {
        var band := LearnBand(Before(points, points[i].stepAt), warmUp, excluded);
        assert IsJudged(rows, warmUp, i);
        return Verdict(rows[i], band);
      }
    }
    var band := LearnBand(points, warmUp, excluded);
    return NothingJudged(band);
  }

  lemma OneJudged(rows: seq<Row>, warmUp: nat, i: int, j: int)
    requires IsJudged(rows, warmUp, i) && IsJudged(rows, warmUp, j)
    ensures i == j
  {
    hide RunStartHours;
  }

  // ------------------------------------------------------------------ what the verdict says

  ghost predicate Unscheduled(points: seq<ResidualPoint>) {
    points != [] && forall p :: p in points ==> p.operating.None?
  }

  /** The hours before `t`, and no others. */
  lemma {:induction false} BeforeExactly(points: seq<ResidualPoint>, t: int, p: ResidualPoint)
    ensures p in Before(points, t) <==> p in points && p.stepAt < t
  {
    if points == [] {
    } else {
      assert points == [points[0]] + points[1..];
      BeforeExactly(points[1..], t, p);
    }
  }

  /**
    The judged hour is anomalous exactly when its residual is below the 2.5% or above the 97.5% value
    of the clean residuals before it, normal exactly when it is between them, and neither exactly when
    those fall on fewer than fourteen days.
   */
  lemma VerdictExactly(rows: seq<Row>, warmUp: nat, excluded: seq<Range>, anomaly: Anomaly, i: int)
    requires Answers(rows, warmUp, excluded, anomaly) && IsJudged(rows, warmUp, i)
    ensures anomaly.judged == Some(rows[i])
    ensures var before := Before(Points(rows), rows[i].point.stepAt);
            var clean := Clean(before, warmUp, excluded);
            var known := |DaysOf(clean)| >= 14;
            && (anomaly.state.BaselineNotEstablished? <==> !known)
            && (known ==>
                  && clean != [] && |Drawn(clean, None)| == |clean|
                  && var r, values := rows[i].point.residual, Sort(Drawn(clean, None));
                     && |values| == |clean|
                     && var lo, hi := Quantile(values, 0.025), Quantile(values, 0.975);
                        && (anomaly.state.Anomalous? <==> r < lo || hi < r)
                        && (anomaly.state.Normal? <==> lo <= r <= hi)
                        && anomaly.band.Some? && anomaly.band.value.Established?
                        && anomaly.band.value.span == Span(lo, hi, |clean|))
            && (known ==> anomaly.baselineReason.None?)
            && (!known ==>
                  && anomaly.band.None?
                  && anomaly.baselineReason == Some(if Unscheduled(before) then NoShiftSchedule else NotYetEstablished))
  {
    hide RunStartHours, ByLead, Drawn, DaysOf, Kept, Earliest, Latest, Sort, Quantile;
    JudgedOnce(rows, warmUp, excluded, anomaly, i);
    var before := Before(Points(rows), rows[i].point.stepAt);
    var clean := Clean(before, warmUp, excluded);
    EstablishedExactly(before, warmUp, excluded);
    NoDays();
    AllDrawn(clean);
    SortSorts(Drawn(clean, None));
  }

  /** Without a steady hour nothing is judged, and never normal or anomalous. */
  lemma NoVerdictExactly(rows: seq<Row>, warmUp: nat, excluded: seq<Range>, anomaly: Anomaly)
    requires Answers(rows, warmUp, excluded, anomaly)
    ensures anomaly.judged.None? <==> NoneJudged(rows, warmUp)
    ensures anomaly.judged.None? ==>
              var reason := if Unscheduled(Points(rows)) then NoShiftSchedule else NotYetEstablished;
              anomaly == Anomaly(BaselineNotEstablished, Some(reason), None, None)
  {
    hide RunStartHours, ByLead, Drawn, DaysOf, Kept, Earliest, Latest, SpanOf;
  }

  // ------------------------------------------------------------------ nothing later has a say

  /** Whether an hour starts a run depends on the hours before it alone. */
  lemma StartsLookBack(a: seq<ResidualPoint>, b: seq<ResidualPoint>, warmUp: nat, t: int)
    requires forall p :: p in b ==> t < p.stepAt
    ensures t in RunStartHours(a + b, warmUp) <==> t in RunStartHours(a, warmUp)
  {
    HoursBefore(a, b, t);
    forall k | 0 <= k ensures Ago(t, k) in Parked(a + b) <==> Ago(t, k) in Parked(a) {
    }
    forall k | 0 <= k ensures Ago(t, k) in Running(a + b) <==> Ago(t, k) in Running(a) {
    }
    assert Ago(t, 0) == t;
  }

  lemma HoursBefore(a: seq<ResidualPoint>, b: seq<ResidualPoint>, t: int)
    requires forall p :: p in b ==> t < p.stepAt
    ensures forall u :: u <= t ==> (u in Parked(a + b) <==> u in Parked(a))
    ensures forall u :: u <= t ==> (u in Running(a + b) <==> u in Running(a))
  {
    forall p | p in a ensures p in a + b {
    }
  }

  lemma {:induction false} BeforeAppend(a: seq<ResidualPoint>, b: seq<ResidualPoint>, t: int)
    requires forall p :: p in b ==> t <= p.stepAt
    ensures Before(a + b, t) == Before(a, t)
  {
    if a == [] {
      assert a + b == b;
      NoneBefore(b, t);
    } else {
      assert (a + b)[0] == a[0] && (a + b)[1..] == a[1..] + b;
      BeforeAppend(a[1..], b, t);
    }
  }

  lemma {:induction false} NoneBefore(b: seq<ResidualPoint>, t: int)
    requires forall p :: p in b ==> t <= p.stepAt
    ensures Before(b, t) == []
  {
    if b == [] {
    } else {
      assert b == [b[0]] + b[1..];
      NoneBefore(b[1..], t);
    }
  }

  /**
    Later hours that are parked, unknown or warming up change neither the hour that is judged nor
    the band it is judged by: the verdict stands until a newer steady hour is stored.
   */
  lemma LaterHoursLeaveVerdict(rows: seq<Row>, later: seq<Row>, warmUp: nat, excluded: seq<Range>, now: Anomaly,
      afterwards: Anomaly)
    requires forall r, s :: r in rows && s in later ==> r.point.stepAt < s.point.stepAt
    requires forall s :: s in later ==> !Steady(RunStartHours(Points(rows + later), warmUp), s.point)
    requires Answers(rows, warmUp, excluded, now) && now.judged.Some?
    requires Answers(rows + later, warmUp, excluded, afterwards)
    ensures now == afterwards
  {
    hide RunStartHours, Before, BandOf, Verdict;
    var i :| IsJudged(rows, warmUp, i)
      && now == Verdict(rows[i], BandOf(Before(Points(rows), rows[i].point.stepAt), warmUp, excluded));
    LaterHoursUnjudged(rows, later, warmUp, i);
    JudgedOnce(rows + later, warmUp, excluded, afterwards, i);
  }

  lemma JudgedOnce(rows: seq<Row>, warmUp: nat, excluded: seq<Range>, anomaly: Anomaly, i: int)
    requires IsJudged(rows, warmUp, i) && Answers(rows, warmUp, excluded, anomaly)
    ensures anomaly == Verdict(rows[i], BandOf(Before(Points(rows), rows[i].point.stepAt), warmUp, excluded))
  {
    hide RunStartHours, Before, BandOf, Verdict;
    if anomaly.judged.Some? {
      var j :| IsJudged(rows, warmUp, j)
        && anomaly == Verdict(rows[j], BandOf(Before(Points(rows), rows[j].point.stepAt), warmUp, excluded));
      OneJudged(rows, warmUp, i, j);
    }
  }

  lemma LaterHoursUnjudged(rows: seq<Row>, later: seq<Row>, warmUp: nat, i: int)
    requires IsJudged(rows, warmUp, i)
    requires forall r, s :: r in rows && s in later ==> r.point.stepAt < s.point.stepAt
    requires forall s :: s in later ==> !Steady(RunStartHours(Points(rows + later), warmUp), s.point)
    ensures IsJudged(rows + later, warmUp, i)
    ensures Before(Points(rows + later), rows[i].point.stepAt) == Before(Points(rows), rows[i].point.stepAt)
  {
    hide RunStartHours, Before;
    var points, after := Points(rows), Points(later);
    assert Points(rows + later) == points + after;
    forall r, p | r in rows && p in after ensures r.point.stepAt < p.stepAt {
      var j :| 0 <= j < |after| && after[j] == p;
      assert later[j] in later;
    }
    forall j | 0 <= j < |rows|
      ensures Steady(RunStartHours(points + after, warmUp), rows[j].point) <==>
                Steady(RunStartHours(points, warmUp), rows[j].point)
    {
      assert rows[j] in rows;
      StartsLookBack(points, after, warmUp, rows[j].point.stepAt);
    }
    forall j | |rows| <= j < |rows + later|
        ensures !Steady(RunStartHours(points + after, warmUp), (rows + later)[j].point) {
      assert (rows + later)[j] in later;
    }
    assert rows[i] in rows;
    BeforeAppend(points, after, rows[i].point.stepAt);
  }

  /** A reading sees exactly the stored hours in view. */
  lemma {:induction false} SeesWhatIsInView(stored: seq<Row>, at: int, row: Row)
    ensures row in ResidualsFor(stored, at)
       <==> row in stored && row.point.stepAt + 3_600_000 <= at < row.point.stepAt + 90 * 86_400_000
  {
    if stored == [] {
    } else {
      SeesWhatIsInView(stored[1..], at, row);
      assert stored == [stored[0]] + stored[1..];
    }
  }

  lemma {:induction false} ResidualsOfBoth(a: seq<Row>, b: seq<Row>, at: int)
    ensures ResidualsFor(a + b, at) == ResidualsFor(a, at) + ResidualsFor(b, at)
  {
    if a == [] {
      assert a + b == b;
    } else {
      hide InView;
      var head := if InView(at, a[0].point.stepAt) then [a[0]] else [];
      assert (a + b)[0] == a[0] && (a + b)[1..] == a[1..] + b;
      assert ResidualsFor(a + b, at) == head + ResidualsFor(a[1..] + b, at);
      ResidualsOfBoth(a[1..], b, at);
    }
  }

  lemma {:induction false} NoneInView(unseen: seq<Row>, at: int)
    requires forall s :: s in unseen ==> !InView(at, s.point.stepAt)
    ensures ResidualsFor(unseen, at) == []
  {
    if unseen == [] {
    } else {
      assert unseen == [unseen[0]] + unseen[1..];
      NoneInView(unseen[1..], at);
    }
  }

  lemma AnswerOnce(rows: seq<Row>, warmUp: nat, excluded: seq<Range>, a: Anomaly, b: Anomaly)
    requires Answers(rows, warmUp, excluded, a) && Answers(rows, warmUp, excluded, b)
    ensures a == b
  {
    hide RunStartHours, Before, BandOf, Verdict, Steady;
    if a.judged.Some? {
      var i :| IsJudged(rows, warmUp, i)
        && a == Verdict(rows[i], BandOf(Before(Points(rows), rows[i].point.stepAt), warmUp, excluded));
      JudgedOnce(rows, warmUp, excluded, b, i);
    }
  }

  /** The verdict as of a moment, from everything stored. */
  method JudgeAsOf(stored: seq<Row>, at: int, warmUp: nat, excluded: seq<Range>) returns (anomaly: Anomaly)
    ensures Answers(ResidualsFor(stored, at), warmUp, excluded, anomaly)
  {
    hide Answers;
    anomaly := Judge(ResidualsFor(stored, at), warmUp, excluded);
  }

  /** Rows outside the view, wherever they stand among the stored ones, have no say in the verdict as of `at`. */
  lemma UnseenHoursHaveNoSay(a: seq<Row>, unseen: seq<Row>, b: seq<Row>, at: int, warmUp: nat, excluded: seq<Range>,
                             with: Anomaly, without: Anomaly)
    requires forall s :: s in unseen ==> !InView(at, s.point.stepAt)
    requires Answers(ResidualsFor(a + unseen + b, at), warmUp, excluded, with)
    requires Answers(ResidualsFor(a + b, at), warmUp, excluded, without)
    ensures with == without
  {
    hide Answers;
    ResidualsOfBoth(a + unseen, b, at);
    ResidualsOfBoth(a, unseen, at);
    ResidualsOfBoth(a, b, at);
    NoneInView(unseen, at);
    assert ResidualsFor(a, at) + [] == ResidualsFor(a, at);
    AnswerOnce(ResidualsFor(a + b, at), warmUp, excluded, with, without);
  }
}
