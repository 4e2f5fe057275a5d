/**
  The arithmetic of the forecast backtest (`backtest-scoring.ts`): which steps are scored, what is
  added up for each lead time, and why every other step was left out. Numbers are reals; a Map is
  a map, with its insertion order beside it where the source walks it.
 */
module Backtest {
  import opened Cadence
  import opened Options
  import opened Ordering
  import opened Sets

  datatype Point = Point(t: int, v: real, lo: Option<real>, hi: Option<real>)

  datatype Trace = Trace(stepMs: int, points: seq<Point>)

  datatype Reason = NoActual | NoPersistenceOrigin | NoSeasonalActual | StepMismatch | EmptyForecast

  datatype Sums = Sums(abs: real, scaled: real)

  datatype Lead = Lead(n: int, nScaled: int, model: Sums, persistence: Sums, seasonal: Sums, intervalN: int,
      covered: int)

  datatype Score = Score(byLead: map<int, Lead>, excluded: map<Reason, int>)

  function Abs(x: real): real {
    if x < 0.0 then -x else x
  }

  ghost predicate Distinct(keys: seq<int>) {
    forall i, j :: 0 <= i < j < |keys| ==> keys[i] != keys[j]
  }

  /** Each key once, in some order: a Map's own order of insertion. */
  ghost predicate Lists<V>(keys: seq<int>, m: map<int, V>) {
    Distinct(keys) && forall k :: k in keys <==> k in m
  }

  // ------------------------------------------------------------------ the naive scale

  /** How many of the actuals have one a step before them, and by how much they moved since, summed. */
  function Moves(keys: seq<int>, actuals: map<int, real>, stepMs: int): int {
    if keys == [] then 0
    else
      var t := keys[|keys| - 1];
      Moves(keys[..|keys| - 1], actuals, stepMs) + if t in actuals && t - stepMs in actuals then 1 else 0
  }

  function Moved(keys: seq<int>, actuals: map<int, real>, stepMs: int): real {
    if keys == [] then 0.0
    else
      var t := keys[|keys| - 1];
      Moved(keys[..|keys| - 1], actuals, stepMs)
      + if t in actuals && t - stepMs in actuals then Abs(actuals[t] - actuals[t - stepMs]) else 0.0
  }

  function Mean(sum: real, n: int): real
    requires n != 0
  {
    sum / n as real
  }

  function Scale(keys: seq<int>, actuals: map<int, real>, stepMs: int): Option<real> {
    var sum, n := Moved(keys, actuals, stepMs), Moves(keys, actuals, stepMs);
    if n == 0 || sum == 0.0 then None else Some(Mean(sum, n))
  }

  method NaiveScale(keys: seq<int>, actuals: map<int, real>, stepMs: int) returns (scale: Option<real>)
    requires Lists(keys, actuals)
    ensures scale == Scale(keys, actuals, stepMs)
  {
    var sum, n := 0.0, 0;
    for i := 0 to |keys|
      invariant sum == Moved(keys[..i], actuals, stepMs) && n == Moves(keys[..i], actuals, stepMs)
    {
      assert keys[..i + 1][..i] == keys[..i];
      var t := keys[i];
      if t - stepMs !in actuals {
        continue;
      }
      sum := sum + Abs(actuals[t] - actuals[t - stepMs]);
      n := n + 1;
    }
    assert keys[..|keys|] == keys;
    if n == 0 || sum == 0.0 {
      return None;
    }
    return Some(Mean(sum, n));
  }

  lemma {:induction false} MovedForward(keys: seq<int>, actuals: map<int, real>, stepMs: int)
    ensures Moved(keys, actuals, stepMs) >= 0.0 && Moves(keys, actuals, stepMs) >= 0
  {
    if keys == [] {
    } else {
      MovedForward(keys[..|keys| - 1], actuals, stepMs);
    }
  }

  lemma ScalePositive(keys: seq<int>, actuals: map<int, real>, stepMs: int)
    ensures var scale := Scale(keys, actuals, stepMs); scale.Some? ==> scale.value > 0.0
  {
    MovedForward(keys, actuals, stepMs);
  }

  lemma {:induction false} MovedOfBoth(a: seq<int>, b: seq<int>, actuals: map<int, real>, stepMs: int)
    ensures Moved(a + b, actuals, stepMs) == Moved(a, actuals, stepMs) + Moved(b, actuals, stepMs)
    ensures Moves(a + b, actuals, stepMs) == Moves(a, actuals, stepMs) + Moves(b, actuals, stepMs)
  {
    hide Abs;
    if b == [] {
      assert a + b == a;
    } else {
      var n := |b| - 1;
      assert (a + b)[..|a + b| - 1] == a + b[..n];
      MovedOfBoth(a, b[..n], actuals, stepMs);
    }
  }

  lemma {:induction false} MovedAnyOrder(a: seq<int>, b: seq<int>, actuals: map<int, real>, stepMs: int)
    requires multiset(a) == multiset(b)
    ensures Moved(a, actuals, stepMs) == Moved(b, actuals, stepMs)
              && Moves(a, actuals, stepMs) == Moves(b, actuals, stepMs)
    decreases |a|
  {
    if a == [] {
      assert |b| == |multiset(b)| == 0;
    } else {
      hide Moved, Moves;
      var i := TakenOut(a, b);
      var front, back, one := b[..i], b[i + 1..], [a[0]];
      assert a == one + a[1..] && b == front + (one + back);
      MovedAnyOrder(a[1..], front + back, actuals, stepMs);
      MovedOfBoth(one, a[1..], actuals, stepMs);
      MovedOfBoth(front, back, actuals, stepMs);
      MovedOfBoth(one, back, actuals, stepMs);
      MovedOfBoth(front, one + back, actuals, stepMs);
    }
  }

  lemma {:induction false} SameListing(a: seq<int>, b: seq<int>)
    requires Distinct(a) && Distinct(b) && forall k :: k in a <==> k in b
    ensures multiset(a) == multiset(b)
    decreases |a|
  {
    forall k ensures multiset(a)[k] == multiset(b)[k] {
      Once(a, k);
      Once(b, k);
    }
  }

  lemma {:induction false} Once(keys: seq<int>, k: int)
    requires Distinct(keys)
    ensures multiset(keys)[k] == if k in keys then 1 else 0
  {
    if keys == [] {
    } else {
      var n := |keys| - 1;
      assert keys == keys[..n] + [keys[n]];
      Once(keys[..n], k);
    }
  }

  /** The scale does not depend on the order the actuals are walked in. */
  lemma ScaleOfAnyListing(a: seq<int>, b: seq<int>, actuals: map<int, real>, stepMs: int)
    requires Lists(a, actuals) && Lists(b, actuals)
    ensures Scale(a, actuals, stepMs) == Scale(b, actuals, stepMs)
  {
    hide Moved, Moves;
    SameListing(a, b);
    MovedAnyOrder(a, b, actuals, stepMs);
  }

  /** The actual has one a step before it. */
  predicate HasPrevious(actuals: map<int, real>, stepMs: int, t: int) {
    t in actuals && t - stepMs in actuals
  }

  function Pairs(keys: seq<int>, actuals: map<int, real>, stepMs: int): set<int> {
    set t | t in keys && HasPrevious(actuals, stepMs, t)
  }

  /** How far the series went up and down, in all. */
  function Travelled(keys: seq<int>, actuals: map<int, real>, stepMs: int): real {
    if keys == [] then 0.0
    else
      var t := keys[|keys| - 1];
      Travelled(keys[..|keys| - 1], actuals, stepMs)
      + if !HasPrevious(actuals, stepMs, t) then 0.0
        else if actuals[t - stepMs] < actuals[t] then actuals[t] - actuals[t - stepMs]
        else actuals[t - stepMs] - actuals[t]
  }

  lemma {:induction false} MovedTravels(keys: seq<int>, actuals: map<int, real>, stepMs: int)
    ensures Moved(keys, actuals, stepMs) == Travelled(keys, actuals, stepMs)
  {
    if keys == [] {
    } else {
      MovedTravels(keys[..|keys| - 1], actuals, stepMs);
    }
  }

  lemma {:induction false} MovesCount(keys: seq<int>, actuals: map<int, real>, stepMs: int)
    requires Distinct(keys)
    ensures Moves(keys, actuals, stepMs) == |Pairs(keys, actuals, stepMs)|
  {
    hide Pairs;
    if keys == [] {
      NoPairs(actuals, stepMs);
    } else {
      var n := |keys| - 1;
      var front, t := keys[..n], keys[n];
      MovesCount(front, actuals, stepMs);
      OneMorePair(front, t, actuals, stepMs);
      assert keys == front + [t];
    }
  }

  lemma NoPairs(actuals: map<int, real>, stepMs: int)
    ensures Pairs([], actuals, stepMs) == {}
  {
  }

  lemma OneMorePair(keys: seq<int>, t: int, actuals: map<int, real>, stepMs: int)
    requires t !in keys
    ensures |Pairs(keys + [t], actuals, stepMs)|
         == |Pairs(keys, actuals, stepMs)| + if HasPrevious(actuals, stepMs, t) then 1 else 0
  {
    hide HasPrevious;
    assert Pairs(keys + [t], actuals, stepMs)
        == Pairs(keys, actuals, stepMs) + if HasPrevious(actuals, stepMs, t) then {t} else {};
  }

  lemma {:induction false} NowhereMoved(keys: seq<int>, actuals: map<int, real>, stepMs: int)
    ensures Moved(keys, actuals, stepMs) == 0.0 <==>
              forall t :: t in Pairs(keys, actuals, stepMs) ==> actuals[t] == actuals[t - stepMs]
  {
    if keys == [] {
    } else {
      var n := |keys| - 1;
      var front, t := keys[..n], keys[n];
      NowhereMoved(front, actuals, stepMs);
      MovedForward(front, actuals, stepMs);
      forall u ensures u in Pairs(keys, actuals, stepMs) <==>
          u in Pairs(front, actuals, stepMs) || (u == t && HasPrevious(actuals, stepMs, t)) {
        assert keys == front + [t];
      }
    }
  }

  /** There is no scale exactly when no actual differs from the one a step before; else it is the mean of the steps. */
  lemma ScaleExactly(keys: seq<int>, actuals: map<int, real>, stepMs: int)
    requires Lists(keys, actuals)
    ensures var scale := Scale(keys, actuals, stepMs);
            && (scale.None? <==>
                  forall t :: t in actuals && HasPrevious(actuals, stepMs, t) ==> actuals[t] == actuals[t - stepMs])
            && (scale.Some? ==>
                  scale.value * |set t | t in actuals && HasPrevious(actuals, stepMs, t)| as real
                    == Travelled(keys, actuals, stepMs))
  {
    hide Moved, Moves, Travelled, HasPrevious;
    MovedTravels(keys, actuals, stepMs);
    MovesCount(keys, actuals, stepMs);
    NowhereMoved(keys, actuals, stepMs);
    assert (set t | t in actuals && HasPrevious(actuals, stepMs, t)) == Pairs(keys, actuals, stepMs);
    var sum, n := Moved(keys, actuals, stepMs), Moves(keys, actuals, stepMs);
    if n != 0 {
      MeanOf(sum, n);
    } else {
      assert Pairs(keys, actuals, stepMs) == {};
    }
  }

  lemma MeanOf(sum: real, n: int)
    requires n != 0
    ensures Mean(sum, n) * n as real == sum
  {
  }

  // ------------------------------------------------------------------ the seasonal baseline

  function SeasonalAt(t: int, lead: int, stepMs: int, seasonMs: int): int
    requires seasonMs > 0
  {
    t - Seasons(lead * stepMs, seasonMs) * seasonMs
  }

  /** Whole seasons that cover `span`, rounded up. */
  function Seasons(span: int, seasonMs: int): (n: int)
    requires seasonMs > 0
    ensures span <= n * seasonMs < span + seasonMs
  {
    -((-span) / seasonMs)
  }

  /**
    For the step `lead` steps after `origin`, the seasonal actual is known when the forecast is made,
    less than one season old, and at the same phase as the step.
   */
  lemma SeasonalKnownAtOrigin(origin: int, lead: int, stepMs: int, seasonMs: int)
    requires seasonMs > 0
    ensures var t := origin + lead * stepMs;
            var at := SeasonalAt(t, lead, stepMs, seasonMs);
            origin - seasonMs < at <= origin && at % seasonMs == t % seasonMs
  {
    var t := origin + lead * stepMs;
    SamePhase(t, Seasons(lead * stepMs, seasonMs), seasonMs);
  }

  lemma {:induction false} SamePhase(t: int, n: int, m: int)
    requires m > 0
    ensures (t - n * m) % m == t % m
    decreases if n < 0 then -n else n
  {
    if n > 0 {
      SamePhase(t - m, n - 1, m);
      assert t - n * m == (t - m) - (n - 1) * m;
      OneTurn(t - m, m);
    } else if n < 0 {
      SamePhase(t + m, n + 1, m);
      assert t - n * m == (t + m) - (n + 1) * m;
      OneTurn(t, m);
    }
  }

  lemma OneTurn(t: int, m: int)
    requires m > 0
    ensures (t + m) % m == t % m
  {
    Remainder(t + m, m, t / m + 1, t % m);
  }

  lemma Remainder(t: int, m: int, q: int, r: int)
    requires m > 0 && t == q * m + r && 0 <= r < m
    ensures t % m == r
  {
    var k := t / m - q;
    assert k * m == r - t % m;
    if k >= 1 {
      AtLeastOnce(k, m);
    } else if k <= -1 {
      AtMostMinusOnce(k, m);
    }
  }

  lemma AtLeastOnce(k: int, m: int)
    requires k >= 1 && m > 0
    ensures k * m >= m
  {
  }

  lemma AtMostMinusOnce(k: int, m: int)
    requires k <= -1 && m > 0
    ensures k * m <= -m
  {
  }

  // ------------------------------------------------------------------ adding up

  const NOTHING: Lead := Lead(0, 0, Sums(0.0, 0.0), Sums(0.0, 0.0), Sums(0.0, 0.0), 0, 0)

  function PlusSums(a: Sums, b: Sums): Sums {
    Sums(a.abs + b.abs, a.scaled + b.scaled)
  }

  function Plus(a: Lead, b: Lead): Lead {
    Lead(a.n + b.n, a.nScaled + b.nScaled, PlusSums(a.model, b.model), PlusSums(a.persistence, b.persistence),
         PlusSums(a.seasonal, b.seasonal), a.intervalN + b.intervalN, a.covered + b.covered)
  }

  lemma PlusLaws(a: Lead, b: Lead, c: Lead)
    ensures Plus(Plus(a, b), c) == Plus(a, Plus(b, c)) && Plus(a, b) == Plus(b, a) && Plus(a, NOTHING) == a
  {
  }

  function LeadAt(byLead: map<int, Lead>, lead: int): Lead {
    if lead in byLead then byLead[lead] else NOTHING
  }

  function CountAt(excluded: map<Reason, int>, why: Reason): int {
    if why in excluded then excluded[why] else 0
  }

  function Merge(a: map<int, Lead>, b: map<int, Lead>): map<int, Lead> {
    map lead | lead in a.Keys + b.Keys :: Plus(LeadAt(a, lead), LeadAt(b, lead))
  }

  function MergeCounts(a: map<Reason, int>, b: map<Reason, int>): map<Reason, int> {
    map why | why in a.Keys + b.Keys :: CountAt(a, why) + CountAt(b, why)
  }

  function MergeScores(a: Score, b: Score): Score {
    Score(Merge(a.byLead, b.byLead), MergeCounts(a.excluded, b.excluded))
  }

  const EMPTY: Score := Score(map[], map[])

  lemma MergedAt(a: map<int, Lead>, b: map<int, Lead>, lead: int)
    ensures LeadAt(Merge(a, b), lead) == Plus(LeadAt(a, lead), LeadAt(b, lead))
  {
  }

  lemma LeadsAssociate(a: map<int, Lead>, b: map<int, Lead>, c: map<int, Lead>)
    ensures Merge(Merge(a, b), c) == Merge(a, Merge(b, c))
  {
    hide Plus, LeadAt;
    var l, r := Merge(Merge(a, b), c), Merge(a, Merge(b, c));
    forall lead | lead in l ensures lead in r && l[lead] == r[lead] {
      MergedAt(a, b, lead);
      MergedAt(b, c, lead);
      PlusLaws(LeadAt(a, lead), LeadAt(b, lead), LeadAt(c, lead));
    }
    assert l == r;
  }

  lemma CountsAssociate(a: map<Reason, int>, b: map<Reason, int>, c: map<Reason, int>)
    ensures MergeCounts(MergeCounts(a, b), c) == MergeCounts(a, MergeCounts(b, c))
  {
    assert MergeCounts(MergeCounts(a, b), c) == MergeCounts(a, MergeCounts(b, c));
  }

  lemma MergeAssociates(a: Score, b: Score, c: Score)
    ensures MergeScores(MergeScores(a, b), c) == MergeScores(a, MergeScores(b, c))
  {
    hide Merge, MergeCounts;
    LeadsAssociate(a.byLead, b.byLead, c.byLead);
    CountsAssociate(a.excluded, b.excluded, c.excluded);
  }

  lemma LeadsCommute(a: map<int, Lead>, b: map<int, Lead>)
    ensures Merge(a, b) == Merge(b, a) && Merge(a, map[]) == a
  {
    hide Plus;
    forall lead ensures Plus(LeadAt(a, lead), LeadAt(b, lead)) == Plus(LeadAt(b, lead), LeadAt(a, lead))
      ensures Plus(LeadAt(a, lead), NOTHING) == LeadAt(a, lead)
    {
      PlusLaws(LeadAt(a, lead), LeadAt(b, lead), NOTHING);
    }
  }

  lemma CountsCommute(a: map<Reason, int>, b: map<Reason, int>)
    ensures MergeCounts(a, b) == MergeCounts(b, a) && MergeCounts(a, map[]) == a
  {
  }

  lemma MergeCommutes(a: Score, b: Score)
    ensures MergeScores(a, b) == MergeScores(b, a) && MergeScores(a, EMPTY) == a
  {
    hide Merge, MergeCounts;
    LeadsCommute(a.byLead, b.byLead);
    CountsCommute(a.excluded, b.excluded);
  }

  // ------------------------------------------------------------------ what becomes of one step

  datatype Mark = Left(why: Reason) | Counted(lead: int, amount: Lead)

  /** The error of `guess`, and over the scale where there is one. */
  function Error(scale: Option<real>, actual: real, guess: real): Sums {
    var e := Abs(actual - guess);
    Sums(e, if scale.Some? && scale.value != 0.0 then e / scale.value else 0.0)
  }

  predicate HasInterval(p: Point) {
    p.lo.Some? && p.hi.Some?
  }

  predicate Covers(p: Point, actual: real) {
    HasInterval(p) && p.lo.value <= actual <= p.hi.value
  }

  /** What one scored step adds to its lead. */
  function Amount(scale: Option<real>, p: Point, actual: real, origin: real, seasonal: real): Lead {
    Lead(1, if scale.Some? then 1 else 0,
         Error(scale, actual, p.v), Error(scale, actual, origin), Error(scale, actual, seasonal),
         if HasInterval(p) then 1 else 0, if Covers(p, actual) then 1 else 0)
  }

  function MarkOf(actuals: map<int, real>, scale: Option<real>, trace: Trace, i: int): Mark
    requires 0 <= i < |trace.points|
  {
    var p, lead := trace.points[i], i + 1;
    var origin := trace.points[0].t - trace.stepMs;
    var seasonal := SeasonalAt(p.t, lead, trace.stepMs, DAY_MS);
    if p.t !in actuals then Left(NoActual)
    else if origin !in actuals then Left(NoPersistenceOrigin)
    else if seasonal !in actuals then Left(NoSeasonalActual)
    else Counted(lead, Amount(scale, p, actuals[p.t], actuals[origin], actuals[seasonal]))
  }

  function MarksOf(actuals: map<int, real>, scale: Option<real>, trace: Trace, stepMs: int): seq<Mark> {
    if trace.points == [] then [Left(EmptyForecast)]
    else if trace.stepMs != stepMs then seq(|trace.points|, i => Left(StepMismatch))
    else seq(|trace.points|, i requires 0 <= i < |trace.points| => MarkOf(actuals, scale, trace, i))
  }

  function AllMarks(actuals: map<int, real>, scale: Option<real>, traces: seq<Trace>, stepMs: int): seq<Mark> {
    if traces == [] then []
    else
      AllMarks(actuals, scale, traces[..|traces| - 1], stepMs)
      + MarksOf(actuals, scale, traces[|traces| - 1], stepMs)
  }

  function Bump(score: Score, mark: Mark): Score {
    match mark
    case Left(why) => Score(score.byLead, score.excluded[why := CountAt(score.excluded, why) + 1])
    case Counted(lead, amount) => Score(score.byLead[lead := Plus(LeadAt(score.byLead, lead), amount)], score.excluded)
  }

  function Total(marks: seq<Mark>): Score {
    if marks == [] then EMPTY else Bump(Total(marks[..|marks| - 1]), marks[|marks| - 1])
  }

  /** The score of a series: its steps' marks, added up. */
  function ScoreOf(actuals: map<int, real>, scale: Option<real>, traces: seq<Trace>, stepMs: int): Score {
    Total(AllMarks(actuals, scale, traces, stepMs))
  }

  // ------------------------------------------------------------------ scoring is a homomorphism

  lemma LeadBumped(a: map<int, Lead>, b: map<int, Lead>, lead: int, x: Lead)
    ensures Merge(a, b[lead := Plus(LeadAt(b, lead), x)]) == Merge(a, b)[lead := Plus(LeadAt(Merge(a, b), lead), x)]
  {
    hide Plus;
    var after := b[lead := Plus(LeadAt(b, lead), x)];
    var l, r := Merge(a, after), Merge(a, b)[lead := Plus(LeadAt(Merge(a, b), lead), x)];
    assert l.Keys == r.Keys;
    forall k | k in l ensures l[k] == r[k] {
      MergedAt(a, b, k);
      MergedAt(a, after, k);
      PlusLaws(LeadAt(a, k), LeadAt(b, k), x);
    }
  }

  lemma CountBumped(a: map<Reason, int>, b: map<Reason, int>, why: Reason)
    ensures MergeCounts(a, b[why := CountAt(b, why) + 1])
              == MergeCounts(a, b)[why := CountAt(MergeCounts(a, b), why) + 1]
  {
  }

  lemma BumpMerged(a: Score, b: Score, mark: Mark)
    ensures MergeScores(a, Bump(b, mark)) == Bump(MergeScores(a, b), mark)
  {
    hide Plus, LeadAt, Merge, MergeCounts, CountAt;
    match mark
    case Left(why) => CountBumped(a.excluded, b.excluded, why);
    case Counted(lead, amount) => LeadBumped(a.byLead, b.byLead, lead, amount);
  }

  lemma {:induction false} TotalOfBoth(a: seq<Mark>, b: seq<Mark>)
    ensures Total(a + b) == MergeScores(Total(a), Total(b))
  {
    hide MergeScores, Bump;
    if b == [] {
      assert a + b == a;
      MergeCommutes(Total(a), EMPTY);
    } else {
      var n := |b| - 1;
      assert (a + b)[..|a + b| - 1] == a + b[..n];
      TotalOfBoth(a, b[..n]);
      BumpMerged(Total(a), Total(b[..n]), b[n]);
    }
  }

  lemma {:induction false} MarksOfBoth(actuals: map<int, real>, scale: Option<real>, a: seq<Trace>, b: seq<Trace>,
      stepMs: int)
    ensures AllMarks(actuals, scale, a + b, stepMs)
              == AllMarks(actuals, scale, a, stepMs) + AllMarks(actuals, scale, b, stepMs)
  {
    hide MarksOf;
    if b == [] {
      assert a + b == a;
    } else {
      var n := |b| - 1;
      assert (a + b)[..|a + b| - 1] == a + b[..n];
      MarksOfBoth(actuals, scale, a, b[..n], stepMs);
    }
  }

  /** Scoring two sets of traces together is scoring each and merging. */
  lemma ScoreOfBoth(actuals: map<int, real>, scale: Option<real>, a: seq<Trace>, b: seq<Trace>, stepMs: int)
    ensures ScoreOf(actuals, scale, a + b, stepMs)
         == MergeScores(ScoreOf(actuals, scale, a, stepMs), ScoreOf(actuals, scale, b, stepMs))
  {
    hide Total, AllMarks, MergeScores;
    MarksOfBoth(actuals, scale, a, b, stepMs);
    TotalOfBoth(AllMarks(actuals, scale, a, stepMs), AllMarks(actuals, scale, b, stepMs));
  }

  /** The order of the traces does not matter. */
  lemma {:induction false} ScoreOfAnyOrder(actuals: map<int, real>, scale: Option<real>, a: seq<Trace>, b: seq<Trace>,
      stepMs: int)
    requires multiset(a) == multiset(b)
    ensures ScoreOf(actuals, scale, a, stepMs) == ScoreOf(actuals, scale, b, stepMs)
    decreases |a|
  {
    hide ScoreOf, MergeScores;
    if a == [] {
      assert |b| == |multiset(b)| == 0;
    } else {
      var i := TakenOut(a, b);
      var front, back, one := b[..i], b[i + 1..], [a[0]];
      ScoreOfAnyOrder(actuals, scale, a[1..], front + back, stepMs);
      assert a == one + a[1..] && b == front + (one + back);
      ScoreOfBoth(actuals, scale, one, a[1..], stepMs);
      ScoreOfBoth(actuals, scale, front, back, stepMs);
      ScoreOfBoth(actuals, scale, one, back, stepMs);
      ScoreOfBoth(actuals, scale, front, one + back, stepMs);
      var f, k, o := ScoreOf(actuals, scale, front, stepMs), ScoreOf(actuals, scale, back, stepMs),
          ScoreOf(actuals, scale, one, stepMs);
      MergeAssociates(f, o, k);
      MergeCommutes(f, o);
      MergeAssociates(o, f, k);
    }
  }

  // ------------------------------------------------------------------ the scoring loop

  lemma TotalStep(before: seq<Mark>, mark: Mark)
    ensures Total(before + [mark]) == Bump(Total(before), mark)
  {
    hide Bump;
    assert (before + [mark])[..|before + [mark]| - 1] == before;
  }

  lemma {:induction false} LeftTogether(before: seq<Mark>, why: Reason, k: nat)
    requires k > 0
    ensures var was := Total(before);
            Total(before + seq(k, i => Left(why)))
              == Score(was.byLead, was.excluded[why := CountAt(was.excluded, why) + k])
  {
    var marks: seq<Mark> := seq(k - 1, i => Left(why));
    assert before + seq(k, i => Left(why)) == (before + marks) + [Left(why)];
    TotalStep(before + marks, Left(why));
    if k == 1 {
      assert before + marks == before;
    } else {
      LeftTogether(before, why, k - 1);
    }
  }

  method ScoreTrace(was: Score, actuals: map<int, real>, scale: Option<real>, trace: Trace, stepMs: int,
      ghost before: seq<Mark>)
    returns (score: Score)
    requires was == Total(before)
    ensures score == Total(before + MarksOf(actuals, scale, trace, stepMs))
  {
    hide Amount, Bump, Total;
    var byLead, excluded := was.byLead, was.excluded;
    if trace.points == [] {
      excluded := excluded[EmptyForecast := CountAt(excluded, EmptyForecast) + 1];
      LeftTogether(before, EmptyForecast, 1);
      assert seq(1, i => Left(EmptyForecast)) == MarksOf(actuals, scale, trace, stepMs);
      return Score(byLead, excluded);
    }
    if trace.stepMs != stepMs {
      excluded := excluded[StepMismatch := CountAt(excluded, StepMismatch) + |trace.points|];
      LeftTogether(before, StepMismatch, |trace.points|);
      return Score(byLead, excluded);
    }
    ghost var marks := MarksOf(actuals, scale, trace, stepMs);
    assert before + marks[..0] == before;
    var origin := trace.points[0].t - trace.stepMs;
    for i := 0 to |trace.points|
      invariant Score(byLead, excluded) == Total(before + marks[..i])
    {
      var p, lead := trace.points[i], i + 1;
      assert before + marks[..i + 1] == (before + marks[..i]) + [marks[i]];
      TotalStep(before + marks[..i], marks[i]);
      BumpedScore(byLead, excluded, marks[i]);
      if p.t !in actuals {
        excluded := excluded[NoActual := CountAt(excluded, NoActual) + 1];
        continue;
      }
      if origin !in actuals {
        excluded := excluded[NoPersistenceOrigin := CountAt(excluded, NoPersistenceOrigin) + 1];
        continue;
      }
      var seasonal := SeasonalAt(p.t, lead, trace.stepMs, DAY_MS);
      if seasonal !in actuals {
        excluded := excluded[NoSeasonalActual := CountAt(excluded, NoSeasonalActual) + 1];
        continue;
      }
      byLead := byLead[lead := Plus(LeadAt(byLead, lead),
        Amount(scale, p, actuals[p.t], actuals[origin], actuals[seasonal]))];
    }
    assert marks[..|trace.points|] == marks;
    return Score(byLead, excluded);
  }

  lemma BumpedScore(byLead: map<int, Lead>, excluded: map<Reason, int>, mark: Mark)
    ensures Bump(Score(byLead, excluded), mark)
         == match mark
            case Left(why) => Score(byLead, excluded[why := CountAt(excluded, why) + 1])
            case Counted(lead, amount) => Score(byLead[lead := Plus(LeadAt(byLead, lead), amount)], excluded)
  {
  }

  method ScoreSeries(keys: seq<int>, actuals: map<int, real>, traces: seq<Trace>, stepMs: int)
    returns (score: Score, scale: Option<real>)
    requires Lists(keys, actuals)
    ensures scale == Scale(keys, actuals, stepMs)
    ensures score == ScoreOf(actuals, scale, traces, stepMs)
  {
    hide MarksOf, Scale;
    scale := NaiveScale(keys, actuals, stepMs);
    score := EMPTY;
    for i := 0 to |traces|
      invariant score == ScoreOf(actuals, scale, traces[..i], stepMs)
    {
      assert traces[..i + 1][..i] == traces[..i];
      score := ScoreTrace(score, actuals, scale, traces[i], stepMs, AllMarks(actuals, scale, traces[..i], stepMs));
    }
    assert traces[..|traces|] == traces;
  }

  // ------------------------------------------------------------------ pooling series

  /** The running totals of one signal over its series. */
  class SeriesPool {
    var series: int
    var byLead: map<int, Lead>

    constructor ()
      ensures series == 0 && byLead == map[]
    {
      series, byLead := 0, map[];
    }

    method MergeInto(source: map<int, Lead>)
      modifies `byLead
      ensures byLead == Merge(old(byLead), source)
    {
      hide Plus;
      var left := source.Keys;
      while left != {}
        invariant left <= source.Keys
        invariant byLead.Keys == old(byLead).Keys + (source.Keys - left)
        invariant forall k :: k in byLead ==>
          byLead[k] == if k in source && k !in left then Plus(LeadAt(old(byLead), k), source[k]) else old(byLead)[k]
      {
        SomeMember(left);
        var lead: int :| lead in left;
        left := left - {lead};
        byLead := byLead[lead := Plus(LeadAt(byLead, lead), source[lead])];
      }
      PoolMerged(old(byLead), byLead, source);
    }

    method Add(score: Score)
      modifies this
      ensures series == old(series) + 1 && byLead == Merge(old(byLead), score.byLead)
    {
      series := series + 1;
      MergeInto(score.byLead);
    }
  }

  lemma PoolMerged(before: map<int, Lead>, after: map<int, Lead>, source: map<int, Lead>)
    requires after.Keys == before.Keys + source.Keys
    requires forall k :: k in after ==>
              after[k] == if k in source then Plus(LeadAt(before, k), source[k]) else before[k]
    ensures after == Merge(before, source)
  {
    hide Plus;
    forall k | k in after ensures after[k] == Plus(LeadAt(before, k), LeadAt(source, k)) {
      PlusLaws(LeadAt(before, k), NOTHING, NOTHING);
    }
  }

  /** All the leads named in `keys`, as one. */
  function Pooled(keys: seq<int>, byLead: map<int, Lead>): Lead {
    if keys == [] then NOTHING else Plus(Pooled(keys[..|keys| - 1], byLead), LeadAt(byLead, keys[|keys| - 1]))
  }

  method Overall(byLead: map<int, Lead>) returns (one: Lead)
    ensures exists keys :: Lists(keys, byLead) && one == Pooled(keys, byLead)
  {
    hide Plus;
    one := NOTHING;
    ghost var keys: seq<int> := [];
    var left := byLead.Keys;
    while left != {}
      invariant left <= byLead.Keys
      invariant Distinct(keys) && (forall k :: k in keys <==> k in byLead && k !in left)
      invariant one == Pooled(keys, byLead)
    {
      SomeMember(left);
      var lead: int :| lead in left;
      left := left - {lead};
      one := Plus(one, byLead[lead]);
      assert (keys + [lead])[..|keys|] == keys;
      keys := keys + [lead];
    }
    assert Lists(keys, byLead);
  }

  /** What the counted steps amount to, all leads together. */
  function Amounts(marks: seq<Mark>): Lead {
    if marks == [] then NOTHING
    else
      var mark := marks[|marks| - 1];
      Plus(Amounts(marks[..|marks| - 1]), if mark.Counted? then mark.amount else NOTHING)
  }

  lemma AfterBump(byLead: map<int, Lead>, lead: int, x: Lead, k: int)
    ensures LeadAt(byLead[lead := Plus(LeadAt(byLead, lead), x)], k)
         == if k == lead then Plus(LeadAt(byLead, k), x) else LeadAt(byLead, k)
  {
  }

  lemma {:induction false} PooledBumped(keys: seq<int>, byLead: map<int, Lead>, lead: int, x: Lead)
    requires Distinct(keys)
    ensures Pooled(keys, byLead[lead := Plus(LeadAt(byLead, lead), x)])
         == Plus(Pooled(keys, byLead), if lead in keys then x else NOTHING)
  {
    hide Plus, LeadAt;
    PlusLaws(NOTHING, NOTHING, NOTHING);
    if keys == [] {
    } else {
      var n := |keys| - 1;
      var after := byLead[lead := Plus(LeadAt(byLead, lead), x)];
      PooledBumped(keys[..n], byLead, lead, x);
      AfterBump(byLead, lead, x, keys[n]);
      assert keys == keys[..n] + [keys[n]];
      PlusShuffles(Pooled(keys[..n], byLead), LeadAt(byLead, keys[n]), x);
      PlusLaws(Pooled(keys[..n], byLead), NOTHING, NOTHING);
      PlusLaws(Pooled(keys, byLead), NOTHING, NOTHING);
    }
  }

  lemma PlusShuffles(a: Lead, b: Lead, c: Lead)
    ensures Plus(Plus(a, b), c) == Plus(a, Plus(b, c)) == Plus(Plus(a, c), b)
  {
  }

  /** However the leads are listed, pooling them gives what the scored steps amount to. */
  lemma {:induction false} PooledTotal(keys: seq<int>, marks: seq<Mark>)
    requires Distinct(keys) && forall k :: k in Total(marks).byLead ==> k in keys
    ensures Pooled(keys, Total(marks).byLead) == Amounts(marks)
    decreases |marks|
  {
    hide Plus, LeadAt;
    if marks == [] {
      PooledNothing(keys);
    } else {
      var n := |marks| - 1;
      var was := Total(marks[..n]);
      PooledTotal(keys, marks[..n]);
      PlusLaws(Amounts(marks[..n]), NOTHING, NOTHING);
      if marks[n].Counted? {
        assert marks[n].lead in Total(marks).byLead;
        PooledBumped(keys, was.byLead, marks[n].lead, marks[n].amount);
      }
    }
  }

  lemma {:induction false} PooledNothing(keys: seq<int>)
    ensures Pooled(keys, map[]) == NOTHING
  {
    if keys == [] {
    } else {
      PooledNothing(keys[..|keys| - 1]);
    }
  }

  // ------------------------------------------------------------------ the baselines are forecasts too

  /** A forecast that is always right, always the value at the origin, or always the seasonal one. */
  datatype Guess = Perfect | Persistence | Seasonal

  predicate Guesses(guess: Guess, actuals: map<int, real>, trace: Trace, i: int)
    requires 0 <= i < |trace.points|
  {
    var t := match guess
             case Perfect => trace.points[i].t
             case Persistence => trace.points[0].t - trace.stepMs
             case Seasonal => SeasonalAt(trace.points[i].t, i + 1, trace.stepMs, DAY_MS);
    t in actuals ==> trace.points[i].v == actuals[t]
  }

  predicate Ties(guess: Guess, lead: Lead) {
    match guess
    case Perfect => lead.model == Sums(0.0, 0.0)
    case Persistence => lead.model == lead.persistence
    case Seasonal => lead.model == lead.seasonal
  }

  lemma TieOfStep(guess: Guess, actuals: map<int, real>, scale: Option<real>, trace: Trace, i: int)
    requires 0 <= i < |trace.points| && Guesses(guess, actuals, trace, i)
    ensures var mark := MarkOf(actuals, scale, trace, i); mark.Counted? ==> Ties(guess, mark.amount)
  {
    if scale.Some? && scale.value != 0.0 {
      assert 0.0 / scale.value == 0.0;
    }
  }

  lemma {:induction false} TiesAddUp(guess: Guess, marks: seq<Mark>)
    requires forall mark :: mark in marks && mark.Counted? ==> Ties(guess, mark.amount)
    ensures forall lead :: lead in Total(marks).byLead ==> Ties(guess, Total(marks).byLead[lead])
  {
    if marks == [] {
    } else {
      var n := |marks| - 1;
      assert marks == marks[..n] + [marks[n]];
      TiesAddUp(guess, marks[..n]);
    }
  }

  lemma {:induction false} TiesOfAll(guess: Guess, actuals: map<int, real>, scale: Option<real>, traces: seq<Trace>,
      stepMs: int)
    requires forall trace, i :: trace in traces && 0 <= i < |trace.points| ==> Guesses(guess, actuals, trace, i)
    ensures forall mark :: mark in AllMarks(actuals, scale, traces, stepMs) && mark.Counted? ==>
              Ties(guess, mark.amount)
  {
    hide MarkOf, Guesses, Ties;
    if traces == [] {
    } else {
      var n := |traces| - 1;
      var last := traces[n];
      assert traces == traces[..n] + [last];
      TiesOfAll(guess, actuals, scale, traces[..n], stepMs);
      forall i | 0 <= i < |last.points| ensures var mark := MarkOf(actuals, scale, last, i); mark.Counted? ==>
          Ties(guess, mark.amount) {
        TieOfStep(guess, actuals, scale, last, i);
      }
    }
  }

  /** A model that forecasts as a baseline does ties with it at every lead; one that is always right has no error. */
  lemma BaselineTiesWithItself(guess: Guess, actuals: map<int, real>, scale: Option<real>, traces: seq<Trace>,
      stepMs: int)
    requires forall trace, i :: trace in traces && 0 <= i < |trace.points| ==> Guesses(guess, actuals, trace, i)
    ensures forall lead :: lead in ScoreOf(actuals, scale, traces, stepMs).byLead ==>
              Ties(guess, ScoreOf(actuals, scale, traces, stepMs).byLead[lead])
  {
    hide Guesses, Ties, AllMarks, Total;
    TiesOfAll(guess, actuals, scale, traces, stepMs);
    TiesAddUp(guess, AllMarks(actuals, scale, traces, stepMs));
  }

  // ------------------------------------------------------------------ every step is accounted for

  function Steps(traces: seq<Trace>): int {
    if traces == [] then 0 else Steps(traces[..|traces| - 1]) + |traces[|traces| - 1].points|
  }

  function Empties(traces: seq<Trace>): int {
    if traces == [] then 0 else Empties(traces[..|traces| - 1]) + (if traces[|traces| - 1].points == [] then 1 else 0)
  }

  function LeftOut(excluded: map<Reason, int>): int {
    CountAt(excluded, NoActual) + CountAt(excluded, NoPersistenceOrigin) + CountAt(excluded, NoSeasonalActual)
      + CountAt(excluded, StepMismatch)
  }

  lemma OneMoreLeft(score: Score, mark: Mark)
    ensures LeftOut(Bump(score, mark).excluded) + CountAt(Bump(score, mark).excluded, EmptyForecast)
         == LeftOut(score.excluded) + CountAt(score.excluded, EmptyForecast) + if mark.Left? then 1 else 0
    ensures mark != Left(EmptyForecast) ==>
      CountAt(Bump(score, mark).excluded, EmptyForecast) == CountAt(score.excluded, EmptyForecast)
  {
    if mark.Left? {
      match mark.why
      case NoActual =>
      case NoPersistenceOrigin =>
      case NoSeasonalActual =>
      case StepMismatch =>
      case EmptyForecast =>
    }
  }

  lemma {:induction false} MarksCounted(marks: seq<Mark>)
    requires forall mark :: mark in marks && mark.Counted? ==> mark.amount.n == 1
    ensures Amounts(marks).n + LeftOut(Total(marks).excluded) + CountAt(Total(marks).excluded, EmptyForecast) == |marks|
  {
    hide Bump, LeftOut, CountAt;
    if marks == [] {
      NothingLeft();
    } else {
      var n := |marks| - 1;
      assert marks == marks[..n] + [marks[n]];
      MarksCounted(marks[..n]);
      OneMoreLeft(Total(marks[..n]), marks[n]);
    }
  }

  lemma NothingLeft()
    ensures LeftOut(map[]) == CountAt(map[], EmptyForecast) == 0
  {
  }

  lemma {:induction false} EmptiesCounted(marks: seq<Mark>, more: seq<Mark>)
    requires forall mark :: mark in more ==> mark != Left(EmptyForecast)
    ensures CountAt(Total(marks + more).excluded, EmptyForecast) == CountAt(Total(marks).excluded, EmptyForecast)
    decreases |more|
  {
    hide Bump, CountAt;
    if more == [] {
      assert marks + more == marks;
    } else {
      var n := |more| - 1;
      assert more[n] in more;
      forall mark | mark in more[..n] ensures mark in more {
      }
      assert (marks + more)[..|marks + more| - 1] == marks + more[..n];
      EmptiesCounted(marks, more[..n]);
      OneMoreLeft(Total(marks + more[..n]), more[n]);
    }
  }

  lemma {:induction false} MarksPerTrace(actuals: map<int, real>, scale: Option<real>, traces: seq<Trace>, stepMs: int)
    ensures var marks := AllMarks(actuals, scale, traces, stepMs);
            && |marks| == Steps(traces) + Empties(traces)
            && CountAt(Total(marks).excluded, EmptyForecast) == Empties(traces)
            && forall mark :: mark in marks && mark.Counted? ==> mark.amount.n == 1
  {
    hide Total, MarksOf;
    if traces == [] {
      NothingTotalled();
    } else {
      var n := |traces| - 1;
      var was, more := AllMarks(actuals, scale, traces[..n], stepMs), MarksOf(actuals, scale, traces[n], stepMs);
      MarksPerTrace(actuals, scale, traces[..n], stepMs);
      MarksOfOne(actuals, scale, traces[n], stepMs);
      if traces[n].points == [] {
        LeftTogether(was, EmptyForecast, 1);
        assert seq(1, i => Left(EmptyForecast)) == more;
      } else {
        EmptiesCounted(was, more);
      }
    }
  }

  lemma NothingTotalled()
    ensures Total([]) == EMPTY
  {
  }

  lemma MarksOfOne(actuals: map<int, real>, scale: Option<real>, trace: Trace, stepMs: int)
    ensures var marks := MarksOf(actuals, scale, trace, stepMs);
            && (trace.points == [] ==> marks == [Left(EmptyForecast)])
            && (trace.points != [] ==>
                  |marks| == |trace.points| && forall mark :: mark in marks ==> mark != Left(EmptyForecast))
            && forall mark :: mark in marks && mark.Counted? ==> mark.amount.n == 1
  {
  }

  /**
    Every point of every trace is either scored or counted under the one reason it was not, and every
    empty trace is counted; pooled over any list of the leads.
   */
  lemma EveryStepAccounted(actuals: map<int, real>, scale: Option<real>, traces: seq<Trace>, stepMs: int,
      keys: seq<int>)
    requires Distinct(keys) && forall k :: k in ScoreOf(actuals, scale, traces, stepMs).byLead ==> k in keys
    ensures var score := ScoreOf(actuals, scale, traces, stepMs);
            && Pooled(keys, score.byLead).n + LeftOut(score.excluded) == Steps(traces)
            && CountAt(score.excluded, EmptyForecast) == Empties(traces)
  {
    hide Total, AllMarks, Pooled, Amounts, LeftOut, CountAt;
    var marks := AllMarks(actuals, scale, traces, stepMs);
    MarksPerTrace(actuals, scale, traces, stepMs);
    MarksCounted(marks);
    PooledTotal(keys, marks);
  }
}
