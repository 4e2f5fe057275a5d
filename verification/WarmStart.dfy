/**
  Residuals for the time before a machine was first forecast (`forecast-warm-start.ts`): the past
  forecasts a run makes, the hours each is judged on, how the model is asked, and what stays owed.
  The model's answers are a parameter.
 */
module WarmStart {
  import opened Cadence
  import opened Options
  import opened InputContext
  import ForecastPass

  const STEPS_PER_FORECAST: int := FORECAST_CADENCE_MS / HOUR_MS

  // ------------------------------------------------------------------ the past forecasts

  /** A past forecast: the hour a pass would have run, and the context it would have read. */
  datatype Past = Past(origin: int, values: seq<real>)

  function OriginAt(first: int, k: int): int {
    first + k * FORECAST_CADENCE_MS
  }

  /** The hours before `origin`, as the pass reads them, fill a context with `values`. */
  ghost predicate HasContext(actual: map<int, real>, origin: int, steps: nat, values: seq<real>)
    requires steps > 0
  {
    exists c, imputed :: IsContext(Raw(actual, origin - steps * HOUR_MS, steps, HOUR_MS), Ready(values, c, imputed))
  }

  /** Every cadence from `first` up to the `n`th, where there is a context. */
  ghost predicate PastForecasts(actual: map<int, real>, first: int, n: int, steps: nat, forecasts: seq<Past>)
    requires steps > 0
  {
    && (forall j :: 0 <= j < |forecasts| ==> HasContext(actual, forecasts[j].origin, steps, forecasts[j].values))
    && (forall j :: 0 <= j < |forecasts| ==> exists k :: 0 <= k < n && forecasts[j].origin == OriginAt(first, k))
    && (forall i, j :: 0 <= i < j < |forecasts| ==> forecasts[i].origin + FORECAST_CADENCE_MS <= forecasts[j].origin)
    && forall k, values :: 0 <= k < n && HasContext(actual, OriginAt(first, k), steps, values) ==>
      Past(OriginAt(first, k), values) in forecasts
  }

  /** The first `n` origins are those with a whole hour left to judge. */
  ghost predicate Origins(first: int, hourEnd: int, n: int) {
    n >= 0 && forall k :: 0 <= k ==> (k < n <==> OriginAt(first, k) + HOUR_MS <= hourEnd)
  }

  method Replay(actual: map<int, real>, first: int, hourEnd: int, steps: nat) returns (forecasts: seq<Past>)
    requires steps > 0
    ensures exists n :: Origins(first, hourEnd, n) && PastForecasts(actual, first, n, steps, forecasts)
  {
    hide HasContext, IsContext, Raw, PastForecasts;
    forecasts := [];
    ghost var n := 0;
    var origin := first;
    NoForecasts(actual, first, steps);
    while origin + HOUR_MS <= hourEnd
      invariant n >= 0 && origin == OriginAt(first, n)
      invariant n > 0 ==> OriginAt(first, n - 1) + HOUR_MS <= hourEnd
      invariant PastForecasts(actual, first, n, steps, forecasts)
      decreases hourEnd - origin
    {
      var context := BuildContext(actual, origin - steps * HOUR_MS, steps, HOUR_MS);
      OneMoreOrigin(actual, first, n, steps, forecasts, context);
      if context.Ready? {
        forecasts := forecasts + [Past(origin, context.values)];
      }
      NextOrigin(first, n);
      origin := origin + FORECAST_CADENCE_MS;
      n := n + 1;
    }
    assert Origins(first, hourEnd, n);
  }

  lemma NextOrigin(first: int, k: int)
    ensures OriginAt(first, k + 1) == OriginAt(first, k) + FORECAST_CADENCE_MS
  {
  }

  lemma NoForecasts(actual: map<int, real>, first: int, steps: nat)
    requires steps > 0
    ensures PastForecasts(actual, first, 0, steps, [])
  {
  }

  lemma ContextDecides(actual: map<int, real>, origin: int, steps: nat, context: Outcome, values: seq<real>)
    requires steps > 0 && IsContext(Raw(actual, origin - steps * HOUR_MS, steps, HOUR_MS), context)
    ensures HasContext(actual, origin, steps, values) <==> context.Ready? && values == context.values
  {
    hide IsContext, Raw;
    if HasContext(actual, origin, steps, values) {
      var c, imputed :| IsContext(Raw(actual, origin - steps * HOUR_MS, steps, HOUR_MS), Ready(values, c, imputed));
      OneContext(Raw(actual, origin - steps * HOUR_MS, steps, HOUR_MS), context, Ready(values, c, imputed));
    }
    if context.Ready? {
      assert context == Ready(context.values, context.coverage, context.imputed);
    }
  }

  lemma OneMoreOrigin(actual: map<int, real>, first: int, n: int, steps: nat, forecasts: seq<Past>, context: Outcome)
    requires steps > 0 && n >= 0 && PastForecasts(actual, first, n, steps, forecasts)
    requires IsContext(Raw(actual, OriginAt(first, n) - steps * HOUR_MS, steps, HOUR_MS), context)
    ensures context.Ready? ==>
              PastForecasts(actual, first, n + 1, steps, forecasts + [Past(OriginAt(first, n), context.values)])
    ensures !context.Ready? ==> PastForecasts(actual, first, n + 1, steps, forecasts)
  {
    hide HasContext, IsContext, Raw;
    var origin := OriginAt(first, n);
    var after := if context.Ready? then forecasts + [Past(origin, context.values)] else forecasts;
    forall values ensures HasContext(actual, origin, steps, values) <==> context.Ready? && values == context.values {
      ContextDecides(actual, origin, steps, context, values);
    }
    forall k, values | 0 <= k < n + 1 && HasContext(actual, OriginAt(first, k), steps, values)
      ensures Past(OriginAt(first, k), values) in after
    {
      if k == n {
        assert after[|forecasts|] == Past(origin, values);
      } else {
        assert Past(OriginAt(first, k), values) in forecasts;
      }
    }
  }

  /** A past forecast reads nothing from its own hour or later. */
  lemma ContextLooksBack(a: map<int, real>, b: map<int, real>, origin: int, steps: nat, values: seq<real>)
    requires steps > 0
    requires forall t :: t < origin ==> (t in a <==> t in b) && (t in a ==> a[t] == b[t])
    ensures HasContext(a, origin, steps, values) <==> HasContext(b, origin, steps, values)
  {
    hide IsContext;
    var from := origin - steps * HOUR_MS;
    forall i | 0 <= i < steps ensures Raw(a, from, steps, HOUR_MS)[i] == Raw(b, from, steps, HOUR_MS)[i] {
      assert At(from, i, HOUR_MS) < origin;
    }
    assert Raw(a, from, steps, HOUR_MS) == Raw(b, from, steps, HOUR_MS);
  }

  // ------------------------------------------------------------------ the hours each is judged on

  datatype Row = Row(stepAt: int, lead: int, predicted: real, actual: real)

  /** The first `n` hours of a past forecast that are over and have an actual. */
  function RowsOf(past: Past, values: seq<real>, actual: map<int, real>, hourEnd: int, n: nat): seq<Row>
    requires n <= |values|
  {
    if n == 0 then []
    else
      var t := past.origin + (n - 1) * HOUR_MS;
      RowsOf(past, values, actual, hourEnd, n - 1)
      + if t < hourEnd && t in actual then [Row(t, n, values[n - 1], actual[t])] else []
  }

  /** The model's answer to each past forecast: nothing where it refused. */
  type Answers = int -> Option<seq<real>>

  ghost predicate LongEnough(answers: Answers) {
    forall j :: answers(j).Some? ==> |answers(j).value| >= STEPS_PER_FORECAST
  }

  ghost function AllRows(forecasts: seq<Past>, answers: Answers, actual: map<int, real>, hourEnd: int): seq<Row>
    requires LongEnough(answers)
  {
    if forecasts == [] then []
    else
      var j := |forecasts| - 1;
      AllRows(forecasts[..j], answers, actual, hourEnd)
      + if answers(j).Some? then RowsOf(forecasts[j], answers(j).value, actual, hourEnd, STEPS_PER_FORECAST) else []
  }

  method ResidualRows(forecasts: seq<Past>, answers: Answers, actual: map<int, real>, hourEnd: int)
      returns (rows: seq<Row>)
    requires LongEnough(answers)
    ensures rows == AllRows(forecasts, answers, actual, hourEnd)
  {
    rows := [];
    for j := 0 to |forecasts|
      invariant rows == AllRows(forecasts[..j], answers, actual, hourEnd)
    {
      assert forecasts[..j + 1][..j] == forecasts[..j];
      if answers(j).None? {
        continue;
      }
      var more := StepRows(forecasts[j], answers(j).value, actual, hourEnd);
      rows := rows + more;
    }
    assert forecasts[..|forecasts|] == forecasts;
  }

  method StepRows(past: Past, values: seq<real>, actual: map<int, real>, hourEnd: int) returns (rows: seq<Row>)
    requires |values| >= STEPS_PER_FORECAST
    ensures rows == RowsOf(past, values, actual, hourEnd, STEPS_PER_FORECAST)
  {
    rows := [];
    var step := 0;
    while step < STEPS_PER_FORECAST
      invariant 0 <= step <= STEPS_PER_FORECAST
      invariant rows == RowsOf(past, values, actual, hourEnd, step)
    {
      var t := past.origin + step * HOUR_MS;
      if t >= hourEnd {
        NoneAfter(past, values, actual, hourEnd, step, STEPS_PER_FORECAST);
        return;
      }
      if t in actual {
        rows := rows + [Row(t, step + 1, values[step], actual[t])];
      }
      step := step + 1;
    }
  }

  lemma {:induction false} NoneAfter(past: Past, values: seq<real>, actual: map<int, real>, hourEnd: int, n: nat,
      m: nat)
    requires n <= m <= |values| && past.origin + n * HOUR_MS >= hourEnd
    ensures RowsOf(past, values, actual, hourEnd, m) == RowsOf(past, values, actual, hourEnd, n)
  {
    if n < m {
      NoneAfter(past, values, actual, hourEnd, n, m - 1);
    }
  }

  lemma {:induction false} RowsWithin(past: Past, values: seq<real>, actual: map<int, real>, hourEnd: int, n: nat)
    requires n <= |values|
    ensures forall row :: row in RowsOf(past, values, actual, hourEnd, n) ==>
      && 1 <= row.lead <= n && row.stepAt == past.origin + (row.lead - 1) * HOUR_MS && row.stepAt < hourEnd
      && row.stepAt in actual && row.actual == actual[row.stepAt] && row.predicted == values[row.lead - 1]
  {
    if n == 0 {
    } else {
      RowsWithin(past, values, actual, hourEnd, n - 1);
    }
  }

  lemma {:induction false} RowsInOrder(past: Past, values: seq<real>, actual: map<int, real>, hourEnd: int, n: nat)
    requires n <= |values|
    ensures forall i, j :: 0 <= i < j < |RowsOf(past, values, actual, hourEnd, n)| ==>
      RowsOf(past, values, actual, hourEnd, n)[i].stepAt < RowsOf(past, values, actual, hourEnd, n)[j].stepAt
  {
    if n == 0 {
    } else {
      RowsInOrder(past, values, actual, hourEnd, n - 1);
      RowsWithin(past, values, actual, hourEnd, n - 1);
      var was := RowsOf(past, values, actual, hourEnd, n - 1);
      forall i | 0 <= i < |was| ensures was[i].stepAt < past.origin + (n - 1) * HOUR_MS {
        assert was[i] in was;
      }
      var rows := RowsOf(past, values, actual, hourEnd, n);
      forall i, j | 0 <= i < j < |rows| ensures rows[i].stepAt < rows[j].stepAt {
        assert rows[i] == was[i];
        assert j < |was| ==> rows[j] == was[j];
      }
    }
  }

  lemma {:induction false} RowOfHour(past: Past, values: seq<real>, actual: map<int, real>, hourEnd: int, n: nat,
      lead: nat)
    requires 1 <= lead <= n <= |values|
    requires var at := past.origin + (lead - 1) * HOUR_MS; at < hourEnd && at in actual
    ensures var at := past.origin + (lead - 1) * HOUR_MS;
            Row(at, lead, values[lead - 1], actual[at]) in RowsOf(past, values, actual, hourEnd, n)
  {
    if lead < n {
      RowOfHour(past, values, actual, hourEnd, n - 1, lead);
    }
  }

  ghost predicate Spaced(forecasts: seq<Past>) {
    forall i, j :: 0 <= i < j < |forecasts| ==> forecasts[i].origin + FORECAST_CADENCE_MS <= forecasts[j].origin
  }

  /** A row is one hour of one answered past forecast. */
  ghost predicate IsRow(forecasts: seq<Past>, answers: Answers, actual: map<int, real>, hourEnd: int, row: Row, j: int)
    requires LongEnough(answers)
  {
    && 0 <= j < |forecasts| && answers(j).Some?
    && 1 <= row.lead <= STEPS_PER_FORECAST && row.stepAt == forecasts[j].origin + (row.lead - 1) * HOUR_MS
      && row.stepAt < hourEnd
    && row.stepAt in actual && row.actual == actual[row.stepAt] && row.predicted == answers(j).value[row.lead - 1]
  }

  lemma {:induction false} RowsAre(forecasts: seq<Past>, answers: Answers, actual: map<int, real>, hourEnd: int,
      row: Row)
    requires LongEnough(answers)
    ensures row in AllRows(forecasts, answers, actual, hourEnd) <==>
              exists j :: IsRow(forecasts, answers, actual, hourEnd, row, j)
  {
    hide RowsOf;
    if forecasts == [] {
    } else {
      var n := |forecasts| - 1;
      RowsAre(forecasts[..n], answers, actual, hourEnd, row);
      if answers(n).Some? {
        RowsWithin(forecasts[n], answers(n).value, actual, hourEnd, STEPS_PER_FORECAST);
        if IsRow(forecasts, answers, actual, hourEnd, row, n) {
          RowOfHour(forecasts[n], answers(n).value, actual, hourEnd, STEPS_PER_FORECAST, row.lead);
        }
      }
      if exists j :: IsRow(forecasts, answers, actual, hourEnd, row, j) {
        var j :| IsRow(forecasts, answers, actual, hourEnd, row, j);
        if j < n {
          assert IsRow(forecasts[..n], answers, actual, hourEnd, row, j);
        }
      }
      if exists j :: IsRow(forecasts[..n], answers, actual, hourEnd, row, j) {
        var j :| IsRow(forecasts[..n], answers, actual, hourEnd, row, j);
        assert IsRow(forecasts, answers, actual, hourEnd, row, j);
      }
      if row in AllRows(forecasts, answers, actual, hourEnd)
          && row !in AllRows(forecasts[..n], answers, actual, hourEnd) {
        assert IsRow(forecasts, answers, actual, hourEnd, row, n);
      }
    }
  }

  /** No hour is judged twice. */
  lemma {:induction false} HoursJudgedOnce(forecasts: seq<Past>, answers: Answers, actual: map<int, real>, hourEnd: int)
    requires LongEnough(answers) && Spaced(forecasts)
    ensures var rows := AllRows(forecasts, answers, actual, hourEnd);
            forall i, j :: 0 <= i < j < |rows| ==> rows[i].stepAt < rows[j].stepAt
  {
    hide RowsOf;
    if forecasts == [] {
    } else {
      var n := |forecasts| - 1;
      var was := AllRows(forecasts[..n], answers, actual, hourEnd);
      HoursJudgedOnce(forecasts[..n], answers, actual, hourEnd);
      forall i | 0 <= i < |was| ensures was[i].stepAt < forecasts[n].origin {
        RowsAre(forecasts[..n], answers, actual, hourEnd, was[i]);
        var j :| IsRow(forecasts[..n], answers, actual, hourEnd, was[i], j);
      }
      if answers(n).Some? {
        RowsWithin(forecasts[n], answers(n).value, actual, hourEnd, STEPS_PER_FORECAST);
        RowsInOrder(forecasts[n], answers(n).value, actual, hourEnd, STEPS_PER_FORECAST);
        var more := RowsOf(forecasts[n], answers(n).value, actual, hourEnd, STEPS_PER_FORECAST);
        forall i | 0 <= i < |more| ensures forecasts[n].origin <= more[i].stepAt {
          assert more[i] in more;
        }
      }
    }
  }

  /**
    Every judged hour lies between the first origin and the last whole hour, at the lead its place in
    the cadence gives it, against a forecast whose context lies wholly before it.
   */
  lemma JudgedAtItsLead(actual: map<int, real>, first: int, n: int, steps: nat, forecasts: seq<Past>, answers: Answers,
      hourEnd: int, row: Row)
    requires steps > 0 && LongEnough(answers) && PastForecasts(actual, first, n, steps, forecasts)
    requires row in AllRows(forecasts, answers, actual, hourEnd)
    ensures first <= row.stepAt < hourEnd && row.lead == (row.stepAt - first) / HOUR_MS % STEPS_PER_FORECAST + 1
    ensures exists past ::
              && past in forecasts && past.origin == row.stepAt - (row.lead - 1) * HOUR_MS <= row.stepAt
              && HasContext(actual, past.origin, steps, past.values)
  {
    hide HasContext, AllRows;
    RowsAre(forecasts, answers, actual, hourEnd, row);
    var j :| IsRow(forecasts, answers, actual, hourEnd, row, j);
    var k :| 0 <= k < n && forecasts[j].origin == OriginAt(first, k);
    LeadAt(first, k, row.lead);
    assert forecasts[j] in forecasts;
  }

  lemma LeadAt(first: int, k: int, lead: int)
    requires 1 <= lead <= STEPS_PER_FORECAST && k >= 0
    ensures var t := OriginAt(first, k) + (lead - 1) * HOUR_MS;
            first <= t && (t - first) / HOUR_MS % STEPS_PER_FORECAST + 1 == lead
  {
    var t := OriginAt(first, k) + (lead - 1) * HOUR_MS;
    assert t - first == (4 * k + lead - 1) * HOUR_MS;
  }

  // ------------------------------------------------------------------ what a run leaves owed

  datatype Source = Live | Replayed

  datatype Slot = Slot(signal: int, stepAt: int)

  /** A signal a run got to, with the rows of its replay. */
  datatype Handled = Handled(signal: int, rows: seq<Row>)

  function Inserted(held: map<Slot, Source>, signal: int, rows: seq<Row>): map<Slot, Source> {
    if rows == [] then held
    else
      var was := Inserted(held, signal, rows[..|rows| - 1]);
      var slot := Slot(signal, rows[|rows| - 1].stepAt);
      if slot in was then was else was[slot := Replayed]
  }

  function AllInserted(held: map<Slot, Source>, handled: seq<Handled>): map<Slot, Source> {
    if handled == [] then held
    else
      var last := handled[|handled| - 1];
      Inserted(AllInserted(held, handled[..|handled| - 1]), last.signal, last.rows)
  }

  function Emptied(handled: seq<Handled>): set<int> {
    set h | h in handled && h.rows == [] :: h.signal
  }

  /** How many signals have rows, and how many rows they have. */
  function Warmed(handled: seq<Handled>): int {
    if handled == [] then 0
    else Warmed(handled[..|handled| - 1]) + if handled[|handled| - 1].rows == [] then 0 else 1
  }

  function RowsOfAll(handled: seq<Handled>): int {
    if handled == [] then 0 else RowsOfAll(handled[..|handled| - 1]) + |handled[|handled| - 1].rows|
  }

  // ------------------------------------------------------------------ asking the model

  const WARM_START_CHUNK: nat := 1500

  /** The `j`th past forecast of the `i`th signal. */
  datatype Job = Job(i: int, j: int)

  /** The worker fails, answers for other weights than the registry's, or answers some of what it was asked. */
  datatype Reply = Broken | OtherWeights | Answered(values: map<Job, seq<real>>)

  type Worker = seq<Job> -> Reply

  /** An accepted answer forecasts a full horizon. */
  ghost predicate FullAnswers(ask: Worker) {
    forall jobs :: ask(jobs).Answered? ==>
      forall job :: job in ask(jobs).values ==> |ask(jobs).values[job]| >= STEPS_PER_FORECAST
  }

  function Chunks(jobs: seq<Job>, size: nat): seq<seq<Job>>
    requires size > 0
    decreases |jobs|
  {
    if jobs == [] then []
    else if |jobs| <= size then [jobs]
    else [jobs[..size]] + Chunks(jobs[size..], size)
  }

  function Flat(chunks: seq<seq<Job>>): seq<Job> {
    if chunks == [] then [] else chunks[0] + Flat(chunks[1..])
  }

  /** Every job is asked about once, in order, in chunks of at most the given size. */
  lemma {:induction false} ChunksCover(jobs: seq<Job>, size: nat)
    requires size > 0
    ensures Flat(Chunks(jobs, size)) == jobs
    ensures forall chunk :: chunk in Chunks(jobs, size) ==> 0 < |chunk| <= size
    decreases |jobs|
  {
    if jobs == [] {
    } else if |jobs| <= size {
      assert Chunks(jobs, size)[1..] == [];
    } else {
      ChunksCover(jobs[size..], size);
      var rest := Chunks(jobs[size..], size);
      assert ([jobs[..size]] + rest)[1..] == rest;
      assert jobs == jobs[..size] + jobs[size..];
    }
  }

  /** All the chunks' answers together, or nothing when one of the chunks went wrong. */
  function Gathered(chunks: seq<seq<Job>>, ask: Worker): Option<map<Job, seq<real>>> {
    if chunks == [] then Some(map[])
    else
      var before, reply := Gathered(chunks[..|chunks| - 1], ask), ask(chunks[|chunks| - 1]);
      if before.Some? && reply.Answered? then Some(before.value + reply.values) else None
  }

  lemma {:induction false} GatheredExactly(chunks: seq<seq<Job>>, ask: Worker)
    ensures Gathered(chunks, ask).Some? <==> forall chunk :: chunk in chunks ==> ask(chunk).Answered?
    ensures FullAnswers(ask) && Gathered(chunks, ask).Some? ==>
              forall job :: job in Gathered(chunks, ask).value ==>
                  |Gathered(chunks, ask).value[job]| >= STEPS_PER_FORECAST
    ensures Gathered(chunks, ask).Some? ==>
              forall job :: job in Gathered(chunks, ask).value ==>
                  exists chunk :: chunk in chunks && job in ask(chunk).values
                    && ask(chunk).values[job] == Gathered(chunks, ask).value[job]
    ensures Gathered(chunks, ask).Some? ==>
              forall chunk, job :: chunk in chunks && job in ask(chunk).values ==> job in Gathered(chunks, ask).value
  {
    if chunks == [] {
    } else {
      var n := |chunks| - 1;
      assert chunks == chunks[..n] + [chunks[n]];
      GatheredExactly(chunks[..n], ask);
      assert chunks[n] in chunks;
    }
  }

  lemma GatheredStops(chunks: seq<seq<Job>>, ask: Worker, k: nat)
    requires k < |chunks| && !ask(chunks[k]).Answered?
    ensures Gathered(chunks, ask).None?
  {
    GatheredExactly(chunks, ask);
    assert chunks[k] in chunks;
  }

  /** The chunk loop: it stops at the first reply that cannot be used. */
  method AskAll(jobs: seq<Job>, ask: Worker) returns (answers: Option<map<Job, seq<real>>>)
    ensures answers == Gathered(Chunks(jobs, 1500), ask)
  {
    ghost var chunks := Chunks(jobs, WARM_START_CHUNK);
    var left, values := jobs, map[];
    ghost var k := 0;
    while left != []
      invariant 0 <= k <= |chunks| && chunks[k..] == Chunks(left, WARM_START_CHUNK)
      invariant Gathered(chunks[..k], ask) == Some(values)
      decreases |left|
    {
      var chunk := if |left| <= WARM_START_CHUNK then left else left[..WARM_START_CHUNK];
      assert chunks[k] == chunks[k..][0] == chunk && chunks[k + 1..] == chunks[k..][1..];
      var reply := ask(chunk);
      if !reply.Answered? {
        GatheredStops(chunks, ask, k);
        return None;
      }
      assert chunks[..k + 1][..k] == chunks[..k];
      values := values + reply.values;
      left := left[|chunk|..];
      k := k + 1;
    }
    assert chunks[..k] == chunks;
    return Some(values);
  }

  // ------------------------------------------------------------------ a run

  /** An owed signal with its hourly history. */
  datatype History = History(signal: int, actual: map<int, real>)

  datatype Replayable = Replayable(history: History, forecasts: seq<Past>)

  function JobsOf(replays: seq<Replayable>): seq<Job> {
    if replays == [] then []
    else
      var i := |replays| - 1;
      JobsOf(replays[..i]) + seq(|replays[i].forecasts|, j => Job(i, j))
  }

  /** Every past forecast of every signal is asked about, each once. */
  lemma {:induction false} JobsExactly(replays: seq<Replayable>, job: Job)
    ensures job in JobsOf(replays) <==> 0 <= job.i < |replays| && 0 <= job.j < |replays[job.i].forecasts|
    ensures multiset(JobsOf(replays))[job] <= 1
  {
    if replays == [] {
    } else {
      var i := |replays| - 1;
      var before, more := JobsOf(replays[..i]), seq(|replays[i].forecasts|, j => Job(i, j));
      JobsExactly(replays[..i], job);
      assert multiset(before + more) == multiset(before) + multiset(more);
      JobsOfSignal(i, |replays[i].forecasts|, job);
      assert job in multiset(before) <==> job in before;
    }
  }

  lemma {:induction false} JobsOfSignal(i: int, n: nat, job: Job)
    ensures multiset(seq(n, j => Job(i, j)))[job] == if job.i == i && 0 <= job.j < n then 1 else 0
    ensures job in seq(n, j => Job(i, j)) <==> job.i == i && 0 <= job.j < n
  {
    var jobs: seq<Job> := seq(n, j => Job(i, j));
    if n == 0 {
    } else {
      var fewer: seq<Job> := seq(n - 1, j => Job(i, j));
      JobsOfSignal(i, n - 1, job);
      assert jobs == fewer + [Job(i, n - 1)];
    }
  }

  function AnswersOf(values: map<Job, seq<real>>, i: int): Answers {
    j => if Job(i, j) in values then Some(values[Job(i, j)]) else None
  }

  ghost predicate Full(values: map<Job, seq<real>>) {
    forall job :: job in values ==> |values[job]| >= STEPS_PER_FORECAST
  }

  /** The first `n` signals with the rows their answered forecasts give. */
  ghost function HandledOf(replays: seq<Replayable>, values: map<Job, seq<real>>, hourEnd: int, n: nat): seq<Handled>
    requires Full(values) && n <= |replays|
  {
    if n == 0 then []
    else
      var r := replays[n - 1];
      HandledOf(replays, values, hourEnd, n - 1)
      + [Handled(r.history.signal, AllRows(r.forecasts, AnswersOf(values, n - 1), r.history.actual, hourEnd))]
  }

  method HandleAll(replays: seq<Replayable>, values: map<Job, seq<real>>, hourEnd: int) returns (handled: seq<Handled>)
    requires Full(values)
    ensures handled == HandledOf(replays, values, hourEnd, |replays|)
  {
    handled := [];
    for i := 0 to |replays|
      invariant handled == HandledOf(replays, values, hourEnd, i)
    {
      var rows := ResidualRows(replays[i].forecasts, AnswersOf(values, i), replays[i].history.actual, hourEnd);
      handled := handled + [Handled(replays[i].history.signal, rows)];
    }
  }

  /** The signals begun within the budget, each with the past forecasts its history allows. */
  ghost predicate Replays(owed: seq<History>, first: int, hourEnd: int, steps: nat, replays: seq<Replayable>)
    requires steps > 0
  {
    && |replays| <= |owed|
    && forall i :: 0 <= i < |replays| ==>
         && replays[i].history == owed[i]
         && exists n ::
              Origins(first, hourEnd, n)
              && PastForecasts(owed[i].actual, first, n, steps, replays[i].forecasts)
  }

  method PrepareAll(owed: seq<History>, first: int, hourEnd: int, steps: nat, elapsed: int -> int, budget: int)
    returns (replays: seq<Replayable>)
    requires steps > 0
    ensures Replays(owed, first, hourEnd, steps, replays)
    ensures |replays| == ForecastPass.Reached(|owed|, elapsed, budget)
  {
    hide PastForecasts, Origins;
    replays := [];
    for i := 0 to |owed|
      invariant |replays| == i && Replays(owed, first, hourEnd, steps, replays)
      invariant forall j :: 0 <= j < i ==> elapsed(j) <= budget
    {
      if elapsed(i) > budget {
        return;
      }
      var forecasts := Replay(owed[i].actual, first, hourEnd, steps);
      replays := replays + [Replayable(owed[i], forecasts)];
    }
  }

  /** The row is an elapsed hour with an actual, against the model's own answer to the `j`th forecast of signal `i`. */
  ghost predicate Foretold(forecasts: seq<Past>, values: map<Job, seq<real>>, actual: map<int, real>, hourEnd: int,
      i: int, row: Row, j: int)
    requires Full(values)
  {
    && 0 <= j < |forecasts| && Job(i, j) in values
    && 1 <= row.lead <= 4 && row.stepAt == forecasts[j].origin + (row.lead - 1) * HOUR_MS && row.stepAt < hourEnd
    && row.stepAt in actual && row.actual == actual[row.stepAt]
    && row.predicted == values[Job(i, j)][row.lead - 1]
  }

  /**
    In a run each hour of each signal is judged once, at its lead, against the answer to the one past
    forecast whose hours cover it, made from a context before its origin; and every answered forecast
    is judged on all its elapsed hours with an actual.
   */
  lemma RunJudges(owed: seq<History>, first: int, hourEnd: int, steps: nat, replays: seq<Replayable>,
      values: map<Job, seq<real>>, i: nat)
    requires steps > 0 && Full(values) && Replays(owed, first, hourEnd, steps, replays) && i < |replays|
    ensures var h := HandledOf(replays, values, hourEnd, |replays|);
            && |h| == |replays| && h[i].signal == owed[i].signal
            && (forall a, c :: 0 <= a < c < |h[i].rows| ==> h[i].rows[a].stepAt < h[i].rows[c].stepAt)
            && (forall row :: row in h[i].rows <==>
                  exists j :: Foretold(replays[i].forecasts, values, owed[i].actual, hourEnd, i, row, j))
            && forall row :: row in h[i].rows ==>
                 first <= row.stepAt && row.lead == (row.stepAt - first) / HOUR_MS % STEPS_PER_FORECAST + 1
    ensures var forecasts := replays[i].forecasts;
            forall j :: 0 <= j < |forecasts| ==>
              HasContext(owed[i].actual, forecasts[j].origin, steps, forecasts[j].values)
    ensures var forecasts := replays[i].forecasts;
            forall row, j, k ::
              Foretold(forecasts, values, owed[i].actual, hourEnd, i, row, j) && 0 <= k < |forecasts|
              && forecasts[k].origin <= row.stepAt < forecasts[k].origin + 4 * 3_600_000
              ==> k == j
  {
    hide AllRows, HasContext, PastForecasts, Origins;
    HandledAt(replays, values, hourEnd, |replays|, i);
    var answers, forecasts, actual := AnswersOf(values, i), replays[i].forecasts, owed[i].actual;
    var n :| Origins(first, hourEnd, n) && PastForecasts(actual, first, n, steps, forecasts);
    PastSpaced(actual, first, n, steps, forecasts);
    HoursJudgedOnce(forecasts, answers, actual, hourEnd);
    forall row
      ensures row in AllRows(forecasts, answers, actual, hourEnd) <==>
                exists j :: Foretold(forecasts, values, actual, hourEnd, i, row, j)
      ensures row in AllRows(forecasts, answers, actual, hourEnd) ==>
                first <= row.stepAt && row.lead == (row.stepAt - first) / HOUR_MS % STEPS_PER_FORECAST + 1
    {
      RowsAre(forecasts, answers, actual, hourEnd, row);
      assert forall j ::
          (IsRow(forecasts, answers, actual, hourEnd, row, j)
           <==> Foretold(forecasts, values, actual, hourEnd, i, row, j));
      if row in AllRows(forecasts, answers, actual, hourEnd) {
        JudgedAtItsLead(actual, first, n, steps, forecasts, answers, hourEnd, row);
      }
    }
  }

  lemma PastSpaced(actual: map<int, real>, first: int, n: int, steps: nat, forecasts: seq<Past>)
    requires steps > 0 && PastForecasts(actual, first, n, steps, forecasts)
    ensures Spaced(forecasts)
    ensures forall j :: 0 <= j < |forecasts| ==>
              HasContext(actual, forecasts[j].origin, steps, forecasts[j].values)
  {
    hide HasContext;
  }

  lemma {:induction false} HandledAt(replays: seq<Replayable>, values: map<Job, seq<real>>, hourEnd: int, n: nat,
      i: nat)
    requires Full(values) && i < n <= |replays|
    ensures |HandledOf(replays, values, hourEnd, n)| == n
    ensures HandledOf(replays, values, hourEnd, n)[i]
         == Handled(replays[i].history.signal,
           AllRows(replays[i].forecasts, AnswersOf(values, i), replays[i].history.actual, hourEnd))
  {
    hide AllRows;
    HandledLong(replays, values, hourEnd, n - 1);
    if i < n - 1 {
      HandledAt(replays, values, hourEnd, n - 1, i);
    }
  }

  lemma {:induction false} HandledLong(replays: seq<Replayable>, values: map<Job, seq<real>>, hourEnd: int, n: nat)
    requires Full(values) && n <= |replays|
    ensures |HandledOf(replays, values, hourEnd, n)| == n
  {
    if n == 0 {
    } else {
      HandledLong(replays, values, hourEnd, n - 1);
    }
  }

  /** The residuals stored under the active model, and the signals found to have too little history. */
  class Residuals {
    var held: map<Slot, Source>
    var noHistory: set<int>

    constructor ()
      ensures held == map[] && noHistory == {}
    {
      held, noHistory := map[], {};
    }

    /** Rows of hours already stored are ignored, whoever stored them. */
    method InsertOrIgnore(signal: int, rows: seq<Row>)
      modifies `held
      ensures held == Inserted(old(held), signal, rows)
    {
      for i := 0 to |rows|
        invariant held == Inserted(old(held), signal, rows[..i])
      {
        assert rows[..i + 1][..i] == rows[..i];
        var slot := Slot(signal, rows[i].stepAt);
        if slot !in held {
          held := held[slot := Replayed];
        }
      }
      assert rows[..|rows|] == rows;
    }

    /** Every replay's rows, then a skip for every signal without any. */
    method Write(handled: seq<Handled>) returns (warmed: int, residuals: int)
      modifies this
      ensures held == AllInserted(old(held), handled) && noHistory == old(noHistory) + Emptied(handled)
      ensures warmed == Warmed(handled) && residuals == RowsOfAll(handled)
    {
      warmed, residuals := 0, 0;
      var empty: seq<int> := [];
      for i := 0 to |handled|
        invariant warmed == Warmed(handled[..i]) && residuals == RowsOfAll(handled[..i])
        invariant held == AllInserted(old(held), handled[..i]) && noHistory == old(noHistory)
        invariant forall s :: s in empty <==> s in Emptied(handled[..i])
      {
        assert handled[..i + 1][..i] == handled[..i];
        EmptiedMore(handled, i);
        if handled[i].rows == [] {
          empty := empty + [handled[i].signal];
          continue;
        }
        InsertOrIgnore(handled[i].signal, handled[i].rows);
        warmed, residuals := warmed + 1, residuals + |handled[i].rows|;
      }
      assert handled[..|handled|] == handled;
      forall s ensures s in empty <==> s in Emptied(handled) {
      }
      for i := 0 to |empty|
        invariant held == AllInserted(old(held), handled)
        invariant noHistory == old(noHistory) + set s | s in empty[..i]
      {
        assert empty[..i + 1] == empty[..i] + [empty[i]];
        noHistory := noHistory + {empty[i]};
      }
      assert empty[..|empty|] == empty;
    }

    /**
      A run: what is owed is replayed as far as the budget reaches, the model is asked about all of it
      chunk by chunk, and only then is anything written. One bad reply, whichever chunk it is to, and
      nothing is.
     */
    method Run(owed: seq<History>, first: int, hourEnd: int, steps: nat, elapsed: int -> int, budget: int, ask: Worker)
      returns (done: bool, warmed: int, residuals: int, ghost replays: seq<Replayable>)
      requires steps > 0 && FullAnswers(ask)
      modifies this
      ensures Replays(owed, first, hourEnd, steps, replays)
                && |replays| == ForecastPass.Reached(|owed|, elapsed, budget)
      ensures var values := Gathered(Chunks(JobsOf(replays), 1500), ask);
              && (done <==> values.Some?)
              && (!done ==> held == old(held) && noHistory == old(noHistory) && warmed == residuals == 0)
              && (done ==>
                    && Full(values.value)
                    && warmed == Warmed(HandledOf(replays, values.value, hourEnd, |replays|))
                    && residuals == RowsOfAll(HandledOf(replays, values.value, hourEnd, |replays|))
                    && held == AllInserted(old(held), HandledOf(replays, values.value, hourEnd, |replays|))
                    && noHistory == old(noHistory) + Emptied(HandledOf(replays, values.value, hourEnd, |replays|)))
    {
      hide Replays, Gathered, Chunks, AllInserted, HandledOf, FullAnswers;
      var prepared := PrepareAll(owed, first, hourEnd, steps, elapsed, budget);
      replays := prepared;
      var jobs := JobsOf(prepared);
      var answers := AskAll(jobs, ask);
      GatheredExactly(Chunks(jobs, WARM_START_CHUNK), ask);
      if answers.None? {
        return false, 0, 0, prepared;
      }
      var handled := HandleAll(prepared, answers.value, hourEnd);
      warmed, residuals := Write(handled);
      done := true;
    }
  }

  lemma EmptiedMore(handled: seq<Handled>, i: nat)
    requires i < |handled|
    ensures Emptied(handled[..i + 1]) == Emptied(handled[..i]) + if handled[i].rows == [] then {handled[i].signal}
              else {}
  {
    assert handled[..i + 1] == handled[..i] + [handled[i]];
    forall h ensures h in handled[..i + 1] <==> h in handled[..i] || h == handled[i] {
    }
  }

  ghost predicate IsReplayed(held: map<Slot, Source>, signal: int) {
    exists t :: Slot(signal, t) in held && held[Slot(signal, t)] == Replayed
  }

  /** Declared, with no replay stored and not known to have too little history. */
  ghost predicate IsOwed(declared: set<int>, held: map<Slot, Source>, noHistory: set<int>, signal: int) {
    signal in declared && !IsReplayed(held, signal) && signal !in noHistory
  }

  /** Some hour of the replay is not held already. */
  ghost predicate HasNewHour(held: map<Slot, Source>, h: Handled) {
    exists row :: row in h.rows && Slot(h.signal, row.stepAt) !in held
  }

  ghost predicate DistinctSignals(handled: seq<Handled>) {
    forall i, j :: 0 <= i < j < |handled| ==> handled[i].signal != handled[j].signal
  }

  lemma {:induction false} InsertedSlots(held: map<Slot, Source>, signal: int, rows: seq<Row>, slot: Slot)
    ensures slot in held ==> slot in Inserted(held, signal, rows) && Inserted(held, signal, rows)[slot] == held[slot]
    ensures slot !in held ==>
              (slot in Inserted(held, signal, rows) <==>
                slot.signal == signal && exists row :: row in rows && row.stepAt == slot.stepAt)
    ensures slot !in held && slot in Inserted(held, signal, rows) ==> Inserted(held, signal, rows)[slot] == Replayed
  {
    if rows == [] {
    } else {
      var n := |rows| - 1;
      assert rows == rows[..n] + [rows[n]];
      InsertedSlots(held, signal, rows[..n], slot);
    }
  }

  lemma InsertedReplays(held: map<Slot, Source>, h: Handled, signal: int)
    ensures IsReplayed(Inserted(held, h.signal, h.rows), signal)
       <==> IsReplayed(held, signal) || (signal == h.signal && HasNewHour(held, h))
    ensures forall t :: signal != h.signal ==>
              (Slot(signal, t) in Inserted(held, h.signal, h.rows) <==> Slot(signal, t) in held)
  {
    hide Inserted;
    forall slot: Slot ensures slot in held ==>
        slot in Inserted(held, h.signal, h.rows) && Inserted(held, h.signal, h.rows)[slot] == held[slot]
      ensures slot !in held ==>
                (slot in Inserted(held, h.signal, h.rows) <==>
                  slot.signal == h.signal && exists row :: row in h.rows && row.stepAt == slot.stepAt)
      ensures slot !in held && slot in Inserted(held, h.signal, h.rows) ==>
                Inserted(held, h.signal, h.rows)[slot] == Replayed
    {
      InsertedSlots(held, h.signal, h.rows, slot);
    }
    if IsReplayed(Inserted(held, h.signal, h.rows), signal) && !IsReplayed(held, signal) {
      var t :| Slot(signal, t) in Inserted(held, h.signal, h.rows)
          && Inserted(held, h.signal, h.rows)[Slot(signal, t)] == Replayed;
      assert Slot(signal, t) !in held;
    }
    if signal == h.signal && HasNewHour(held, h) {
      var row :| row in h.rows && Slot(h.signal, row.stepAt) !in held;
      assert Slot(signal, row.stepAt) in Inserted(held, h.signal, h.rows);
    }
    if IsReplayed(held, signal) {
      var t :| Slot(signal, t) in held && held[Slot(signal, t)] == Replayed;
      assert Slot(signal, t) in Inserted(held, h.signal, h.rows);
    }
  }

  lemma {:induction false} AllReplays(held: map<Slot, Source>, handled: seq<Handled>, signal: int)
    requires DistinctSignals(handled)
    ensures IsReplayed(AllInserted(held, handled), signal)
       <==> IsReplayed(held, signal) || exists h :: h in handled && h.signal == signal && HasNewHour(held, h)
    ensures (forall h :: h in handled ==> h.signal != signal) ==>
      forall t :: Slot(signal, t) in AllInserted(held, handled) <==> Slot(signal, t) in held
  {
    hide IsReplayed, Inserted;
    if handled == [] {
    } else {
      var n := |handled| - 1;
      var last, was := handled[n], AllInserted(held, handled[..n]);
      assert handled == handled[..n] + [last];
      AllReplays(held, handled[..n], signal);
      InsertedReplays(was, last, signal);
      if last.signal == signal {
        forall h | h in handled[..n] ensures h.signal != signal {
          var i :| 0 <= i < n && handled[..n][i] == h;
          assert handled[i].signal != handled[n].signal;
        }
        assert HasNewHour(was, last) <==> HasNewHour(held, last);
      }
    }
  }

  /**
    A run leaves owed exactly what it did not handle and the signals it replayed onto hours that were
    all stored already: those are owed again at the next run.
   */
  lemma LeftOwed(declared: set<int>, held: map<Slot, Source>, noHistory: set<int>, handled: seq<Handled>, signal: int)
    requires DistinctSignals(handled)
    ensures IsOwed(declared, AllInserted(held, handled), noHistory + Emptied(handled), signal)
       <==> (&& IsOwed(declared, held, noHistory, signal)
             && !exists h :: h in handled && h.signal == signal && (h.rows == [] || HasNewHour(held, h)))
  {
    hide IsReplayed, AllInserted, HasNewHour;
    AllReplays(held, handled, signal);
  }

  ghost function OwedSet(declared: set<int>, held: map<Slot, Source>, noHistory: set<int>): set<int> {
    set s | s in declared && IsOwed(declared, held, noHistory, s)
  }

  /**
    What is owed never grows, and shrinks exactly when some owed signal was handled that has no
    history, or an hour not stored before.
   */
  lemma OwedShrinks(declared: set<int>, held: map<Slot, Source>, noHistory: set<int>, handled: seq<Handled>)
    requires DistinctSignals(handled)
    ensures var before, after := OwedSet(declared, held, noHistory),
              OwedSet(declared, AllInserted(held, handled), noHistory + Emptied(handled));
            && after <= before
            && (after < before <==>
                  exists h :: h in handled && h.signal in before && (h.rows == [] || HasNewHour(held, h)))
  {
    hide IsOwed, AllInserted, HasNewHour, DistinctSignals;
    var before, after := OwedSet(declared, held, noHistory),
        OwedSet(declared, AllInserted(held, handled), noHistory + Emptied(handled));
    forall s | s in declared
      ensures s in after <==>
                s in before
                && !exists h :: h in handled && h.signal == s && (h.rows == [] || HasNewHour(held, h))
    {
      LeftOwed(declared, held, noHistory, handled, s);
    }
    if after != before {
      var s :| s in before && s !in after;
    }
  }

  /** A signal whose every replayed hour was measured live is owed again after each run. */
  lemma LiveHoursStayOwed()
    ensures var held := map[Slot(1, 0) := Live, Slot(1, HOUR_MS) := Live];
            var handled := [Handled(1, [Row(0, 1, 20.0, 21.0), Row(HOUR_MS, 2, 20.0, 22.0)])];
            && IsOwed({1}, held, {}, 1)
            && AllInserted(held, handled) == held && IsOwed({1}, AllInserted(held, handled), Emptied(handled), 1)
  {
    var held := map[Slot(1, 0) := Live, Slot(1, HOUR_MS) := Live];
    var handled := [Handled(1, [Row(0, 1, 20.0, 21.0), Row(HOUR_MS, 2, 20.0, 22.0)])];
    var rows := handled[0].rows;
    assert handled[..0] == [] && rows[..1] == [rows[0]] && rows[..1][..0] == [];
    assert Inserted(held, 1, [rows[0]]) == held && Inserted(held, 1, rows) == held;
    assert Emptied(handled) == {};
  }
}
