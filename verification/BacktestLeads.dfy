/**
  What a backtest's numbers count (`backtest-scoring.ts`), said of the forecasts themselves: for each
  lead how many of its steps were scored, how many had an interval and how many actuals lay in it, how
  far off each guess was, and for each reason how many steps were left out.
 */
module BacktestLeads {
  import opened Cadence
  import opened Options
  import opened RealArithmetic
  import opened Backtest

  // ------------------------------------------------------------------ one lead

  /** The step `lead` steps after the origin can be scored: its actual and both baselines' are known. */
  predicate Scorable(actuals: map<int, real>, trace: Trace, stepMs: int, lead: int) {
    && trace.stepMs == stepMs && 1 <= lead <= |trace.points|
    && trace.points[lead - 1].t in actuals
    && trace.points[0].t - stepMs in actuals
    && SeasonalAt(trace.points[lead - 1].t, lead, stepMs, DAY_MS) in actuals
  }

  datatype What = Scored | WithInterval | InInterval

  predicate Is(what: What, actuals: map<int, real>, trace: Trace, stepMs: int, lead: int) {
    && Scorable(actuals, trace, stepMs, lead)
    && var p := trace.points[lead - 1];
       match what
       case Scored => true
       case WithInterval => p.lo.Some? && p.hi.Some?
       case InInterval => p.lo.Some? && p.hi.Some? && !(actuals[p.t] < p.lo.value) && !(p.hi.value < actuals[p.t])
  }

  /** At how many of the forecasts the step of this lead is one of these. */
  function Number(what: What, actuals: map<int, real>, traces: seq<Trace>, stepMs: int, lead: int): nat {
    if traces == [] then 0
    else
      var n := |traces| - 1;
      Number(what, actuals, traces[..n], stepMs, lead) + if Is(what, actuals, traces[n], stepMs, lead) then 1 else 0
  }

  datatype Whose = TheModel | TheLastValue | TheLastSeason

  function Guessed(whose: Whose, actuals: map<int, real>, trace: Trace, stepMs: int, lead: int): real
    requires Scorable(actuals, trace, stepMs, lead)
  {
    match whose
    case TheModel => trace.points[lead - 1].v
    case TheLastValue => actuals[trace.points[0].t - stepMs]
    case TheLastSeason => actuals[SeasonalAt(trace.points[lead - 1].t, lead, stepMs, DAY_MS)]
  }

  /** How far the guesses of one forecaster were off at this lead, in all. */
  function Missed(whose: Whose, actuals: map<int, real>, traces: seq<Trace>, stepMs: int, lead: int): real {
    if traces == [] then 0.0
    else
      var n := |traces| - 1;
      Missed(whose, actuals, traces[..n], stepMs, lead)
      + if Scorable(actuals, traces[n], stepMs, lead) then
          var actual, guess := actuals[traces[n].points[lead - 1].t], Guessed(whose, actuals, traces[n], stepMs, lead);
          if guess < actual then actual - guess else guess - actual
        else 0.0
  }

  function SumsOf(whose: Whose, at: Lead): Sums {
    match whose
    case TheModel => at.model
    case TheLastValue => at.persistence
    case TheLastSeason => at.seasonal
  }

  /** The scaled sum is the absolute one in units of the scale, and nothing where there is none. */
  ghost predicate InScale(scale: Option<real>, sums: Sums) {
    if scale.Some? && scale.value != 0.0 then sums.scaled * scale.value == sums.abs else sums.scaled == 0.0
  }

  ghost predicate LeadTells(at: Lead, actuals: map<int, real>, scale: Option<real>, traces: seq<Trace>, stepMs: int,
      lead: int) {
    && at.n == Number(Scored, actuals, traces, stepMs, lead)
    && at.intervalN == Number(WithInterval, actuals, traces, stepMs, lead)
    && at.covered == Number(InInterval, actuals, traces, stepMs, lead)
    && at.nScaled == (if scale.Some? then at.n else 0)
    && forall whose ::
         SumsOf(whose, at).abs == Missed(whose, actuals, traces, stepMs, lead) && InScale(scale, SumsOf(whose, at))
  }

  /** What one forecast adds to a lead; in one forecast a lead has one step at most. */
  function Adds(actuals: map<int, real>, scale: Option<real>, trace: Trace, stepMs: int, lead: int): Lead {
    if Scorable(actuals, trace, stepMs, lead) then
      var p := trace.points[lead - 1];
      Amount(scale, p, actuals[p.t], Guessed(TheLastValue, actuals, trace, stepMs, lead),
             Guessed(TheLastSeason, actuals, trace, stepMs, lead))
    else NOTHING
  }

  lemma OneTells(actuals: map<int, real>, scale: Option<real>, trace: Trace, stepMs: int, lead: int)
    requires Scorable(actuals, trace, stepMs, lead)
    ensures LeadTells(Adds(actuals, scale, trace, stepMs, lead), actuals, scale, [trace], stepMs, lead)
  {
    hide Error;
    var p := trace.points[lead - 1];
    assert [trace][..0] == [];
    var at := Adds(actuals, scale, trace, stepMs, lead);
    forall whose
      ensures SumsOf(whose, at).abs == Missed(whose, actuals, [trace], stepMs, lead)
      ensures InScale(scale, SumsOf(whose, at))
    {
      var guess := Guessed(whose, actuals, trace, stepMs, lead);
      assert SumsOf(whose, at) == Error(scale, actuals[p.t], guess);
      ErrorTells(scale, actuals[p.t], guess);
    }
    forall what
      ensures Number(what, actuals, [trace], stepMs, lead)
           == if Is(what, actuals, trace, stepMs, lead) then 1 else 0
    {
    }
  }

  lemma ErrorTells(scale: Option<real>, actual: real, guess: real)
    ensures Error(scale, actual, guess).abs == if guess < actual then actual - guess else guess - actual
    ensures InScale(scale, Error(scale, actual, guess))
  {
    if scale.Some? && scale.value != 0.0 {
      var e := Error(scale, actual, guess);
      Undone(e.abs, scale.value, e.scaled);
    }
  }

  lemma NothingTells(actuals: map<int, real>, scale: Option<real>, trace: Trace, stepMs: int, lead: int)
    requires !Scorable(actuals, trace, stepMs, lead)
    ensures LeadTells(Adds(actuals, scale, trace, stepMs, lead), actuals, scale, [trace], stepMs, lead)
  {
    hide Scorable;
    assert [trace][..0] == [];
    var at := Adds(actuals, scale, trace, stepMs, lead);
    forall whose
      ensures SumsOf(whose, at).abs == Missed(whose, actuals, [trace], stepMs, lead)
      ensures InScale(scale, SumsOf(whose, at))
    {
      assert SumsOf(whose, at) == Sums(0.0, 0.0);
    }
    forall what ensures Number(what, actuals, [trace], stepMs, lead) == 0 {
    }
  }

  lemma BothInScale(scale: Option<real>, a: Sums, b: Sums)
    requires InScale(scale, a) && InScale(scale, b)
    ensures InScale(scale, PlusSums(a, b))
  {
    if scale.Some? {
      assert (a.scaled + b.scaled) * scale.value == a.scaled * scale.value + b.scaled * scale.value;
    }
  }

  lemma OneMoreTells(actuals: map<int, real>, scale: Option<real>, traces: seq<Trace>, trace: Trace, stepMs: int,
      lead: int, a: Lead, b: Lead)
    requires LeadTells(a, actuals, scale, traces, stepMs, lead)
    requires LeadTells(b, actuals, scale, [trace], stepMs, lead)
    ensures LeadTells(Plus(a, b), actuals, scale, traces + [trace], stepMs, lead)
  {
    hide Number, Missed, InScale;
    var all := traces + [trace];
    forall what
      ensures Number(what, actuals, all, stepMs, lead)
           == Number(what, actuals, traces, stepMs, lead) + Number(what, actuals, [trace], stepMs, lead)
    {
      NumberOfMore(what, actuals, traces, trace, stepMs, lead);
    }
    forall whose
      ensures SumsOf(whose, Plus(a, b)).abs == Missed(whose, actuals, all, stepMs, lead)
      ensures InScale(scale, SumsOf(whose, Plus(a, b)))
    {
      MissedOfMore(whose, actuals, traces, trace, stepMs, lead);
      BothInScale(scale, SumsOf(whose, a), SumsOf(whose, b));
    }
  }

  lemma NumberOfMore(what: What, actuals: map<int, real>, traces: seq<Trace>, trace: Trace, stepMs: int, lead: int)
    ensures Number(what, actuals, traces + [trace], stepMs, lead)
         == Number(what, actuals, traces, stepMs, lead) + Number(what, actuals, [trace], stepMs, lead)
  {
    hide Is;
    var all := traces + [trace];
    assert all[..|all| - 1] == traces && [trace][..0] == [];
  }

  lemma MissedOfMore(whose: Whose, actuals: map<int, real>, traces: seq<Trace>, trace: Trace, stepMs: int, lead: int)
    ensures Missed(whose, actuals, traces + [trace], stepMs, lead)
         == Missed(whose, actuals, traces, stepMs, lead) + Missed(whose, actuals, [trace], stepMs, lead)
  {
    hide Scorable, Guessed;
    var all := traces + [trace];
    assert all[..|all| - 1] == traces && [trace][..0] == [];
  }

  lemma {:induction false} LeadOfMarks(actuals: map<int, real>, scale: Option<real>, trace: Trace, stepMs: int,
      lead: int, n: nat)
    requires trace.stepMs == stepMs && n <= |trace.points|
    ensures LeadAt(Total(MarksOf(actuals, scale, trace, stepMs)[..n]).byLead, lead)
         == if 1 <= lead <= n then Adds(actuals, scale, trace, stepMs, lead) else NOTHING
  {
    hide MarksOf, Bump, LeadAt, Adds, Total, Plus;
    if n == 0 {
      NothingYet(lead);
    } else {
      var marks := MarksOf(actuals, scale, trace, stepMs);
      MarkCounts(actuals, scale, trace, stepMs, n);
      LeadOfMarks(actuals, scale, trace, stepMs, lead, n - 1);
      var was, mark := marks[..n - 1], marks[n - 1];
      assert marks[..n] == was + [mark];
      TotalStep(was, mark);
      LeadBumps(Total(was), mark, lead);
    }
  }

  lemma NothingYet(lead: int)
    ensures LeadAt(Total([]).byLead, lead) == NOTHING
  {
  }

  lemma MarkCounts(actuals: map<int, real>, scale: Option<real>, trace: Trace, stepMs: int, lead: nat)
    requires trace.stepMs == stepMs && 1 <= lead <= |trace.points|
    ensures var marks := MarksOf(actuals, scale, trace, stepMs);
            && |marks| == |trace.points|
            && (marks[lead - 1].Counted? ==>
                  marks[lead - 1] == Counted(lead, Adds(actuals, scale, trace, stepMs, lead)))
            && (marks[lead - 1].Left? ==> Adds(actuals, scale, trace, stepMs, lead) == NOTHING)
  {
    hide Amount;
  }

  lemma LeadBumps(score: Score, mark: Mark, lead: int)
    ensures LeadAt(Bump(score, mark).byLead, lead)
         == if mark.Counted? && mark.lead == lead then Plus(LeadAt(score.byLead, lead), mark.amount)
            else LeadAt(score.byLead, lead)
    ensures mark.Counted? ==> Plus(NOTHING, mark.amount) == mark.amount
  {
  }

  lemma LeadOfOne(actuals: map<int, real>, scale: Option<real>, trace: Trace, stepMs: int, lead: int)
    ensures LeadTells(LeadAt(ScoreOf(actuals, scale, [trace], stepMs).byLead, lead),
                      actuals, scale, [trace], stepMs, lead)
  {
    hide Amount, LeadTells, Total, LeadAt;
    var marks := MarksOf(actuals, scale, trace, stepMs);
    assert [trace][..0] == [] && AllMarks(actuals, scale, [trace], stepMs) == marks;
    if trace.points != [] && trace.stepMs == stepMs {
      LeadOfMarks(actuals, scale, trace, stepMs, lead, |trace.points|);
      assert marks[..|trace.points|] == marks;
    } else {
      NothingCounted(marks, lead);
    }
    if Scorable(actuals, trace, stepMs, lead) {
      OneTells(actuals, scale, trace, stepMs, lead);
    } else {
      NothingTells(actuals, scale, trace, stepMs, lead);
    }
  }

  lemma {:induction false} NothingCounted(marks: seq<Mark>, lead: int)
    requires forall mark :: mark in marks ==> mark.Left?
    ensures LeadAt(Total(marks).byLead, lead) == NOTHING
  {
    if marks == [] {
    } else {
      var n := |marks| - 1;
      assert marks == marks[..n] + [marks[n]];
      NothingCounted(marks[..n], lead);
    }
  }

  /**
    At every lead: the count is of the scorable steps, the intervals of those with both bounds, the
    covered of those whose actual lies between them, and the sums are of the distances between guess
    and actual, plain and in units of the scale.
   */
  lemma {:induction false} LeadExactly(actuals: map<int, real>, scale: Option<real>, traces: seq<Trace>, stepMs: int,
      lead: int)
    ensures LeadTells(LeadAt(ScoreOf(actuals, scale, traces, stepMs).byLead, lead),
                      actuals, scale, traces, stepMs, lead)
  {
    hide ScoreOf, LeadTells, Plus, LeadAt, Merge;
    if traces == [] {
      NoTraces(actuals, scale, stepMs, lead);
    } else {
      var n := |traces| - 1;
      var front, last := traces[..n], [traces[n]];
      assert traces == front + last;
      LeadExactly(actuals, scale, front, stepMs, lead);
      LeadOfOne(actuals, scale, traces[n], stepMs, lead);
      ScoreOfBoth(actuals, scale, front, last, stepMs);
      var a, b := ScoreOf(actuals, scale, front, stepMs), ScoreOf(actuals, scale, last, stepMs);
      MergedAt(a.byLead, b.byLead, lead);
      OneMoreTells(actuals, scale, front, traces[n], stepMs, lead, LeadAt(a.byLead, lead), LeadAt(b.byLead, lead));
    }
  }

  lemma NoTraces(actuals: map<int, real>, scale: Option<real>, stepMs: int, lead: int)
    ensures LeadTells(LeadAt(ScoreOf(actuals, scale, [], stepMs).byLead, lead), actuals, scale, [], stepMs, lead)
  {
  }

  lemma {:induction false} FewerEach(actuals: map<int, real>, traces: seq<Trace>, stepMs: int, lead: int)
    ensures Number(InInterval, actuals, traces, stepMs, lead) <= Number(WithInterval, actuals, traces, stepMs, lead)
    ensures Number(WithInterval, actuals, traces, stepMs, lead) <= Number(Scored, actuals, traces, stepMs, lead)
    ensures Number(Scored, actuals, traces, stepMs, lead) <= |traces|
  {
    if traces == [] {
    } else {
      FewerEach(actuals, traces[..|traces| - 1], stepMs, lead);
    }
  }

  /** No lead covers more than it has intervals, nor has more of them than steps, nor more steps than forecasts. */
  lemma CoverageInRange(actuals: map<int, real>, scale: Option<real>, traces: seq<Trace>, stepMs: int, lead: int)
    ensures var at := LeadAt(ScoreOf(actuals, scale, traces, stepMs).byLead, lead);
            0 <= at.covered <= at.intervalN <= at.n <= |traces|
  {
    hide ScoreOf;
    LeadExactly(actuals, scale, traces, stepMs, lead);
    FewerEach(actuals, traces, stepMs, lead);
  }

  // ------------------------------------------------------------------ one reason

  /** The `i`th step is left out for this reason: the first of them that applies. */
  predicate LeftFor(why: Reason, actuals: map<int, real>, trace: Trace, stepMs: int, i: int)
    requires 0 <= i < |trace.points|
  {
    var known := trace.points[i].t in actuals;
    var begun := trace.points[0].t - stepMs in actuals;
    match why
    case EmptyForecast => false
    case StepMismatch => trace.stepMs != stepMs
    case NoActual => trace.stepMs == stepMs && !known
    case NoPersistenceOrigin => trace.stepMs == stepMs && known && !begun
    case NoSeasonalActual => trace.stepMs == stepMs && known && begun
                               && SeasonalAt(trace.points[i].t, i + 1, stepMs, DAY_MS) !in actuals
  }

  /** How many of a forecast's first `n` steps are left out for this reason. */
  function LeftIn(why: Reason, actuals: map<int, real>, trace: Trace, stepMs: int, n: nat): nat
    requires n <= |trace.points|
  {
    if n == 0 then 0
    else LeftIn(why, actuals, trace, stepMs, n - 1) + if LeftFor(why, actuals, trace, stepMs, n - 1) then 1 else 0
  }

  function LeftBehind(why: Reason, actuals: map<int, real>, traces: seq<Trace>, stepMs: int): nat {
    if traces == [] then 0
    else
      var last := traces[|traces| - 1];
      LeftBehind(why, actuals, traces[..|traces| - 1], stepMs) + LeftIn(why, actuals, last, stepMs, |last.points|)
      + if why == EmptyForecast && last.points == [] then 1 else 0
  }

  lemma {:induction false} LeftOfMarks(why: Reason, actuals: map<int, real>, scale: Option<real>, trace: Trace,
      stepMs: int, n: nat)
    requires trace.points != [] && n <= |trace.points|
    ensures CountAt(Total(MarksOf(actuals, scale, trace, stepMs)[..n]).excluded, why)
         == LeftIn(why, actuals, trace, stepMs, n)
  {
    hide MarksOf, LeftFor, Bump, CountAt;
    if n == 0 {
      NoneCounted(why);
    } else {
      var marks := MarksOf(actuals, scale, trace, stepMs);
      MarkLeftFor(why, actuals, scale, trace, stepMs, n - 1);
      LeftOfMarks(why, actuals, scale, trace, stepMs, n - 1);
      assert marks[..n][..n - 1] == marks[..n - 1];
      CountBumps(Total(marks[..n - 1]), marks[n - 1], why);
    }
  }

  lemma NoneCounted(why: Reason)
    ensures CountAt(Total([]).excluded, why) == 0
  {
  }

  lemma MarkLeftFor(why: Reason, actuals: map<int, real>, scale: Option<real>, trace: Trace, stepMs: int, i: nat)
    requires i < |trace.points|
    ensures |MarksOf(actuals, scale, trace, stepMs)| == |trace.points|
    ensures MarksOf(actuals, scale, trace, stepMs)[i] == Left(why) <==> LeftFor(why, actuals, trace, stepMs, i)
  {
    hide Amount;
  }

  lemma CountBumps(score: Score, mark: Mark, why: Reason)
    ensures CountAt(Bump(score, mark).excluded, why)
         == CountAt(score.excluded, why) + if mark == Left(why) then 1 else 0
  {
  }

  lemma LeftOfOne(why: Reason, actuals: map<int, real>, scale: Option<real>, trace: Trace, stepMs: int)
    ensures CountAt(ScoreOf(actuals, scale, [trace], stepMs).excluded, why)
         == LeftBehind(why, actuals, [trace], stepMs)
  {
    hide Amount, Bump, Total, CountAt, LeftIn, LeftFor, MarkOf;
    var marks := MarksOf(actuals, scale, trace, stepMs);
    assert [trace][..0] == [] && AllMarks(actuals, scale, [trace], stepMs) == marks;
    if trace.points == [] {
      OneLeft(why);
      NoneLeftIn(why, actuals, trace, stepMs);
    } else {
      LeftOfMarks(why, actuals, scale, trace, stepMs, |trace.points|);
      assert marks[..|trace.points|] == marks;
    }
  }

  lemma OneLeft(why: Reason)
    ensures CountAt(Total([Left(EmptyForecast)]).excluded, why) == if why == EmptyForecast then 1 else 0
  {
    assert [Left(EmptyForecast)][..0] == [];
  }

  lemma NoneLeftIn(why: Reason, actuals: map<int, real>, trace: Trace, stepMs: int)
    ensures LeftIn(why, actuals, trace, stepMs, 0) == 0
  {
  }

  lemma CountedTogether(a: map<Reason, int>, b: map<Reason, int>, why: Reason)
    ensures CountAt(MergeCounts(a, b), why) == CountAt(a, why) + CountAt(b, why)
  {
  }

  /** Every reason is given for exactly the steps it is the first to apply to, and emptiness for each empty forecast. */
  lemma {:induction false} ReasonExactly(why: Reason, actuals: map<int, real>, scale: Option<real>, traces: seq<Trace>,
      stepMs: int)
    ensures CountAt(ScoreOf(actuals, scale, traces, stepMs).excluded, why) == LeftBehind(why, actuals, traces, stepMs)
  {
    hide ScoreOf, CountAt, MergeCounts, LeftIn;
    if traces == [] {
      NoneBehind(why, actuals, scale, stepMs);
    } else {
      var n := |traces| - 1;
      var front, last := traces[..n], [traces[n]];
      assert traces == front + last && last[..0] == [];
      ReasonExactly(why, actuals, scale, front, stepMs);
      LeftOfOne(why, actuals, scale, traces[n], stepMs);
      ScoreOfBoth(actuals, scale, front, last, stepMs);
      var a, b := ScoreOf(actuals, scale, front, stepMs), ScoreOf(actuals, scale, last, stepMs);
      CountedTogether(a.excluded, b.excluded, why);
    }
  }

  lemma NoneBehind(why: Reason, actuals: map<int, real>, scale: Option<real>, stepMs: int)
    ensures CountAt(ScoreOf(actuals, scale, [], stepMs).excluded, why) == 0
  {
  }
}
