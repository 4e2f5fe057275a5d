/**
  The outbox reader (`outbox-consumer.ts`). Any number of passes run at once, each holding at
  most one event's row lock; a pass may crash at any point. First the protocol, as steps of
  all the workers together; then one pass on its own, as the loop it is.
 */
module Outbox {
  import opened Options

  const MAX_ATTEMPTS: int := 5
  const MINUTE_MS: int := 60_000
  const MAX_EVENT_AGE_MS: int := 24 * 60 * 60 * 1000
  const EXPIRED_ERROR := "expired before it could be delivered (older than 24 hours)"

  const KNOWN_EVENT_TYPES: set<string> := {"scenario.activated.v1", "tenant.provisioned.v1", "incident.escalated.v1"}

  type Id = nat

  datatype DeliveryState = Pending | Delivered(at: int) | Failed

  datatype Event = Event(
    kind: string, occurredAt: int, state: DeliveryState,
    attempts: nat, lastError: Option<string>, nextAttemptAt: Option<int>)

  /** What became of one run of the handler; a handler that throws has decided nothing. */
  datatype Outcome = Deliver | Retry(error: string) | Refuse(error: string) | Throw(error: string)

  /** Minutes to the next try, by how many have failed. */
  function BackoffMinutes(attempts: int): int {
    if attempts <= 1 then 1 else if attempts == 2 then 2 else if attempts == 3 then 4 else 8
  }

  function Wait(attempts: int): int {
    BackoffMinutes(attempts) * MINUTE_MS
  }

  predicate Due(e: Event, handled: set<string>, now: int) {
    e.state.Pending? && e.kind in handled && (e.nextAttemptAt.None? || e.nextAttemptAt.value <= now)
  }

  predicate Expired(e: Event, now: int) {
    now - e.occurredAt > MAX_EVENT_AGE_MS
  }

  /** The claimed event's row once this pass has decided it; an expired one never reaches the handler. */
  function Decided(e: Event, outcome: Outcome, now: int): Event {
    if Expired(e, now) then
      e.(state := Failed, lastError := Some(EXPIRED_ERROR), nextAttemptAt := None)
    else if outcome.Deliver? then
      e.(state := Delivered(now), lastError := None, nextAttemptAt := None)
    else
      var attempts := e.attempts + 1;
      if outcome.Refuse? || attempts >= MAX_ATTEMPTS then
        e.(state := Failed, attempts := attempts, lastError := Some(outcome.error), nextAttemptAt := None)
      else
        e.(attempts := attempts, lastError := Some(outcome.error), nextAttemptAt := Some(now + Wait(attempts)))
  }

  /** Doubling: 1, 2, 4, 8 and so on. */
  function Doubled(n: nat): nat {
    if n == 0 then 1 else 2 * Doubled(n - 1)
  }

  /** A wait is a minute, doubled with every failed attempt after the first. */
  lemma WaitDoubles(attempts: int)
    requires 1 <= attempts < MAX_ATTEMPTS
    ensures Wait(attempts) == 60_000 * Doubled(attempts - 1)
  {
    assert Doubled(0) == 1 && Doubled(1) == 2 && Doubled(2) == 4 && Doubled(3) == 8;
  }

  /** What a decision leaves behind: the state, why, the attempts, and when to try again. */
  lemma DecisionLeaves(e: Event, outcome: Outcome, now: int)
    requires e.state.Pending?
    ensures var after := Decided(e, outcome, now);
            var late := e.occurredAt < now - 24 * 60 * 60_000;
            var failed := !late && !outcome.Deliver?;
            && after.kind == e.kind && after.occurredAt == e.occurredAt
            && after.attempts == e.attempts + (if failed then 1 else 0)
            && (after.state.Delivered? ==> after.state.at == now)
            && (after.state.Delivered? <==> after.lastError.None?)
            && (after.state.Delivered? <==> !late && !failed)
            && (after.state.Pending? <==> failed && !outcome.Refuse? && e.attempts <= 3)
            && (late ==> after.lastError == Some("expired before it could be delivered (older than 24 hours)"))
            && (failed ==> after.lastError == Some(outcome.error))
            && (after.state.Pending? <==> after.nextAttemptAt.Some?)
            && (after.state.Pending? ==> after.nextAttemptAt.value == now + 60_000 * Doubled(e.attempts))
  {
    if e.attempts + 1 < MAX_ATTEMPTS {
      WaitDoubles(e.attempts + 1);
    }
  }

  /** An event a decision leaves pending is due again from the end of its wait on, and not before. */
  lemma DueAgain(e: Event, outcome: Outcome, handled: set<string>, now: int, later: int)
    requires Due(e, handled, now) && Decided(e, outcome, now).state.Pending?
    ensures Due(Decided(e, outcome, now), handled, later) <==> now + 60_000 * Doubled(e.attempts) <= later
  {
    DecisionLeaves(e, outcome, now);
  }

  // ------------------------------------------------------------------ the workers together

  /** A worker between transactions, or inside one: holding an event's lock, with the row as it read it. */
  datatype Worker = Idle | Holding(id: Id, read: Event, now: int)

  /**
    An event's row, and what no code reads: the passes' own times at which it was decided, and
    how many deliveries of it have committed.
   */
  datatype Row = Row(event: Event, tries: seq<int>, deliveries: nat)

  datatype System = System(rows: map<Id, Row>, workers: map<nat, Worker>)

  datatype Action =
    | Publish(id: Id, kind: string, occurredAt: int)
    | Claim(worker: nat, id: Id, now: int)
    | Finish(worker: nat, outcome: Outcome)
    | Crash(worker: nat)

  ghost predicate Held(s: System, id: Id) {
    exists w :: w in s.workers && s.workers[w].Holding? && s.workers[w].id == id
  }

  /**
    What Postgres allows: a claim takes an unlocked due row, oldest first, skipping the locked
    ones; only the worker inside a transaction commits it or loses it.
   */
  ghost predicate Enabled(s: System, handled: set<string>, a: Action) {
    match a
    case Publish(id, _, _) => id !in s.rows
    case Claim(w, id, now) =>
      && w in s.workers && s.workers[w].Idle?
      && id in s.rows && Due(s.rows[id].event, handled, now) && !Held(s, id)
      && forall other :: other in s.rows && Due(s.rows[other].event, handled, now) && !Held(s, other) ==>
           s.rows[id].event.occurredAt <= s.rows[other].event.occurredAt
    case Finish(w, _) => w in s.workers && s.workers[w].Holding? && s.workers[w].id in s.rows
    case Crash(w) => w in s.workers && s.workers[w].Holding?
  }

  /** The step itself. A commit writes what the worker read, changed; a crash leaves the row as it was. */
  function Next(s: System, a: Action): System {
    match a
    case Publish(id, kind, at) =>
      s.(rows := s.rows[id := Row(Event(kind, at, Pending, 0, None, None), [], 0)])
    case Claim(w, id, now) =>
      if id in s.rows then s.(workers := s.workers[w := Holding(id, s.rows[id].event, now)]) else s
    case Finish(w, outcome) =>
      if w in s.workers && s.workers[w].Holding? && s.workers[w].id in s.rows then
        var h := s.workers[w];
        s.(rows := s.rows[h.id := Committed(s.rows[h.id], Decided(h.read, outcome, h.now), h.now)],
          workers := s.workers[w := Idle])
      else s
    case Crash(w) => s.(workers := s.workers[w := Idle])
  }

  function Committed(row: Row, e: Event, now: int): Row {
    Row(e, row.tries + [now], row.deliveries + (if e.state.Delivered? then 1 else 0))
  }

  /** Consecutive tries of one event are at least the backoff apart. */
  ghost predicate Spaced(tries: seq<int>) {
    forall i :: 0 <= i < |tries| - 1 ==> tries[i] + Wait(i + 1) <= tries[i + 1]
  }

  /** One event and its history. */
  ghost predicate Accounted(row: Row, handled: set<string>) {
    var e, tries := row.event, row.tries;
    && Spaced(tries)
    && row.deliveries == (if e.state.Delivered? then 1 else 0)
    && (e.kind !in handled ==> e.state.Pending? && tries == [])
    && match e.state
       case Pending =>
         && |tries| == e.attempts < MAX_ATTEMPTS
         && e.nextAttemptAt == (if tries == [] then None else Some(tries[|tries| - 1] + Wait(|tries|)))
       case Delivered(at) =>
         && |tries| == e.attempts + 1 <= MAX_ATTEMPTS
         && tries[|tries| - 1] == at && at - e.occurredAt <= MAX_EVENT_AGE_MS
         && e.nextAttemptAt.None?
       case Failed =>
         && (|tries| == e.attempts || |tries| == e.attempts + 1) && 1 <= |tries| <= MAX_ATTEMPTS
         && e.nextAttemptAt.None?
  }

  /** A held event's row is as its holder read it, and nobody else holds it. */
  ghost predicate LocksHold(s: System, handled: set<string>) {
    && (forall w :: w in s.workers && s.workers[w].Holding? ==>
          && s.workers[w].id in s.rows
          && s.rows[s.workers[w].id].event == s.workers[w].read
          && Due(s.workers[w].read, handled, s.workers[w].now))
    && OneHolderEach(s)
  }

  ghost predicate OneHolderEach(s: System) {
    forall v, w ::
      v in s.workers && w in s.workers && s.workers[v].Holding? && s.workers[w].Holding?
        && s.workers[v].id == s.workers[w].id ==>
        v == w
  }

  ghost predicate Invariant(s: System, handled: set<string>) {
    LocksHold(s, handled) && forall id :: id in s.rows ==> Accounted(s.rows[id], handled)
  }

  /** One decision: the row stays accounted for, with one more try. */
  lemma DecisionAccounted(row: Row, handled: set<string>, outcome: Outcome, now: int)
    requires Accounted(row, handled) && Due(row.event, handled, now)
    ensures Accounted(Committed(row, Decided(row.event, outcome, now), now), handled)
  {
    var after := row.tries + [now];
    forall i | 0 <= i < |after| - 1
      ensures after[i] + Wait(i + 1) <= after[i + 1]
    {
      if i == |row.tries| - 1 {
        assert after[i] == row.tries[|row.tries| - 1];
      }
    }
  }

  /** What no step undoes: decided rows are final, unhandled rows untouched, every event keeps its type and time. */
  ghost predicate Preserves(s: System, n: System, handled: set<string>) {
    forall id :: id in s.rows ==> id in n.rows && Continues(s.rows[id], n.rows[id], handled)
  }

  ghost predicate Continues(before: Row, after: Row, handled: set<string>) {
    && after.event.kind == before.event.kind && after.event.occurredAt == before.event.occurredAt
    && before.tries <= after.tries
    && (!before.event.state.Pending? || before.event.kind !in handled ==> after == before)
  }

  lemma StepKeeps(s: System, handled: set<string>, a: Action)
    requires Invariant(s, handled) && Enabled(s, handled, a)
    ensures Invariant(Next(s, a), handled) && Preserves(s, Next(s, a), handled)
  {
    match a
    case Publish(id, kind, at) =>
      assert Accounted(Next(s, a).rows[id], handled);
    case Claim(w, id, now) =>
    case Finish(w, outcome) =>
      FinishKeeps(s, handled, w, outcome);
    case Crash(w) =>
  }

  lemma FinishKeeps(s: System, handled: set<string>, w: nat, outcome: Outcome)
    requires Invariant(s, handled) && Enabled(s, handled, Finish(w, outcome))
    ensures Invariant(Next(s, Finish(w, outcome)), handled) && Preserves(s, Next(s, Finish(w, outcome)), handled)
  {
    hide Accounted, Decided;
    var h := s.workers[w];
    var e := Decided(h.read, outcome, h.now);
    assert e.kind == h.read.kind && e.occurredAt == h.read.occurredAt by { DecisionKeeps(h.read, outcome, h.now); }
    DecisionAccounted(s.rows[h.id], handled, outcome, h.now);
  }

  lemma DecisionKeeps(e: Event, outcome: Outcome, now: int)
    ensures Decided(e, outcome, now).kind == e.kind && Decided(e, outcome, now).occurredAt == e.occurredAt
  {
  }

  /** A sequence of steps, each enabled where it is taken. */
  ghost predicate Possible(s: System, handled: set<string>, run: seq<Action>)
    decreases run
  {
    run == [] || (Enabled(s, handled, run[0]) && Possible(Next(s, run[0]), handled, run[1..]))
  }

  function After(s: System, run: seq<Action>): System
    decreases run
  {
    if run == [] then s else After(Next(s, run[0]), run[1..])
  }

  lemma {:induction false} RunKeeps(s: System, handled: set<string>, run: seq<Action>)
    requires Invariant(s, handled) && Possible(s, handled, run)
    ensures Invariant(After(s, run), handled) && Preserves(s, After(s, run), handled)
    decreases run
  {
    hide Invariant, Enabled, Next;
    if run == [] {
    } else {
      StepKeeps(s, handled, run[0]);
      RunKeeps(Next(s, run[0]), handled, run[1..]);
    }
  }

  /**
    Over every interleaving of passes, publications and crashes, from an empty outbox: at most
    one delivery of an event commits, and none more than a day old; an event is decided at most
    five times, the backoff apart; no two workers hold one event.
   */
  lemma EveryRun(s: System, handled: set<string>, run: seq<Action>)
    requires s.rows == map[] && forall w :: w in s.workers ==> s.workers[w].Idle?
    requires Possible(s, handled, run)
    ensures OneHolderEach(After(s, run))
    ensures forall id :: id in After(s, run).rows ==>
              var row := After(s, run).rows[id];
              && row.deliveries <= 1 && |row.tries| <= MAX_ATTEMPTS && Spaced(row.tries)
              && (row.event.state.Delivered? ==> row.event.state.at - row.event.occurredAt <= MAX_EVENT_AGE_MS)
              && (row.event.state.Pending? ==> row.event.attempts <= 4 && row.deliveries == 0)
    ensures forall id :: id in After(s, run).rows ==>
              var tries := After(s, run).rows[id].tries;
              forall i :: 0 <= i < |tries| - 1 ==> tries[i + 1] - tries[i] >= 60_000 * Doubled(i)
  {
    RunKeeps(s, handled, run);
    forall id | id in After(s, run).rows
      ensures var tries := After(s, run).rows[id].tries;
              forall i :: 0 <= i < |tries| - 1 ==> tries[i + 1] - tries[i] >= 60_000 * Doubled(i)
    {
      var tries := After(s, run).rows[id].tries;
      forall i | 0 <= i < |tries| - 1 ensures tries[i + 1] - tries[i] >= 60_000 * Doubled(i) {
        WaitDoubles(i + 1);
      }
    }
  }

  // ------------------------------------------------------------------ which events are ever decided

  /** Over every run, an event leaves pending only if its type has a handler, and so only if it is a known one. */
  lemma OnlyHandledAreDecided(s: System, handled: set<string>, run: seq<Action>, id: Id)
    requires s.rows == map[] && (forall w :: w in s.workers ==> s.workers[w].Idle?) && handled <= KNOWN_EVENT_TYPES
    requires Possible(s, handled, run) && id in After(s, run).rows
    ensures var row := After(s, run).rows[id];
            !row.event.state.Pending? || row.tries != [] ==>
              row.event.kind in handled && row.event.kind in KNOWN_EVENT_TYPES
  {
    RunKeeps(s, handled, run);
  }

  /** The tracker's own events are of no known type: no pass ever decides or even tries one. */
  lemma GeofenceEventsStayPending(s: System, handled: set<string>, run: seq<Action>, id: Id)
    requires s.rows == map[] && (forall w :: w in s.workers ==> s.workers[w].Idle?) && handled <= KNOWN_EVENT_TYPES
    requires Possible(s, handled, run) && id in After(s, run).rows
    requires After(s, run).rows[id].event.kind
               in {"geofence.entered.v1", "geofence.left.v1", "geofence.visit.revised.v1",
                 "geofence.visit.withdrawn.v1"}
    ensures After(s, run).rows[id].event.state == Pending && After(s, run).rows[id].tries == []
  {
    hide Possible, After;
    OnlyHandledAreDecided(s, handled, run, id);
  }

  /** The due events nobody holds. */
  ghost function Free(s: System, handled: set<string>, now: int): set<Id> {
    set id | id in s.rows && Due(s.rows[id].event, handled, now) && !Held(s, id)
  }

  lemma {:induction false} OldestOf(s: System, ids: set<Id>) returns (id: Id)
    requires ids != {} && forall i :: i in ids ==> i in s.rows
    ensures id in ids && forall i :: i in ids ==> s.rows[id].event.occurredAt <= s.rows[i].event.occurredAt
    decreases |ids|
  {
    var one :| one in ids;
    var rest := ids - {one};
    assert forall i :: i in ids ==> i == one || i in rest;
    if rest == {} {
      id := one;
    } else {
      var other := OldestOf(s, rest);
      id := if s.rows[other].event.occurredAt < s.rows[one].event.occurredAt then other else one;
      forall i | i in ids ensures s.rows[id].event.occurredAt <= s.rows[i].event.occurredAt {
        assert i == one || i in rest;
      }
    }
  }

  /** A worker that claims an event and delivers it leaves one free event fewer, and is idle again. */
  lemma ClaimAndDeliver(s: System, handled: set<string>, w: nat, id: Id, now: int) returns (after: System)
    requires w in s.workers && s.workers[w].Idle? && id in Free(s, handled, now)
    requires forall i :: i in Free(s, handled, now) ==> s.rows[id].event.occurredAt <= s.rows[i].event.occurredAt
    ensures after == After(s, [Claim(w, id, now), Finish(w, Deliver)])
    ensures Possible(s, handled, [Claim(w, id, now), Finish(w, Deliver)])
    ensures id in after.rows && !after.rows[id].event.state.Pending?
    ensures w in after.workers && after.workers[w].Idle? && Free(after, handled, now) == Free(s, handled, now) - {id}
    ensures forall i :: i in s.rows && i != id ==> i in after.rows && after.rows[i] == s.rows[i]
  {
    var mid := Next(s, Claim(w, id, now));
    after := Next(mid, Finish(w, Deliver));
    var run := [Claim(w, id, now), Finish(w, Deliver)];
    assert Enabled(s, handled, run[0]) && Enabled(mid, handled, run[1]);
    assert run[1..] == [Finish(w, Deliver)] && run[1..][1..] == [];
    assert After(mid, run[1..]) == After(after, []) == after;
    assert Possible(after, handled, []) && Possible(mid, handled, run[1..]);
    forall i ensures Held(after, i) <==> Held(s, i) {
      if Held(s, i) {
        var v :| v in s.workers && s.workers[v].Holding? && s.workers[v].id == i;
        assert v != w && after.workers[v] == s.workers[v];
      }
      if Held(after, i) {
        var v :| v in after.workers && after.workers[v].Holding? && after.workers[v].id == i;
        assert v != w && after.workers[v] == s.workers[v];
      }
    }
    assert !Due(after.rows[id].event, handled, now);
  }

  lemma {:induction false} RunsJoin(s: System, handled: set<string>, a: seq<Action>, b: seq<Action>)
    requires Possible(s, handled, a) && Possible(After(s, a), handled, b)
    ensures Possible(s, handled, a + b) && After(s, a + b) == After(After(s, a), b)
    decreases a
  {
    hide Enabled, Next;
    if a == [] {
      assert a + b == b;
    } else {
      assert (a + b)[0] == a[0] && (a + b)[1..] == a[1..] + b;
      RunsJoin(Next(s, a[0]), handled, a[1..], b);
    }
  }

  /** Conversely, an idle worker can always bring a due event nobody holds to a decision, the older ones first. */
  lemma {:induction false} DueCanBeDecided(s: System, handled: set<string>, w: nat, id: Id, now: int)
      returns (run: seq<Action>)
    requires w in s.workers && s.workers[w].Idle? && id in Free(s, handled, now)
    ensures Possible(s, handled, run) && id in After(s, run).rows && !After(s, run).rows[id].event.state.Pending?
    decreases |Free(s, handled, now)|
  {
    hide Possible, After, Next, Enabled, Held, Due;
    var oldest := OldestOf(s, Free(s, handled, now));
    var first := [Claim(w, oldest, now), Finish(w, Deliver)];
    var after := ClaimAndDeliver(s, handled, w, oldest, now);
    if oldest == id {
      run := first;
    } else {
      var rest := DueCanBeDecided(after, handled, w, id, now);
      RunsJoin(s, handled, first, rest);
      run := first + rest;
    }
  }

  /** A decision of a held event is final or one attempt nearer to final: `Budget` strictly falls. */
  function Budget(e: Event): int {
    if e.state.Pending? then MAX_ATTEMPTS - e.attempts else 0
  }

  lemma DecisionSpends(s: System, handled: set<string>, w: nat, outcome: Outcome)
    requires Invariant(s, handled) && Enabled(s, handled, Finish(w, outcome))
    ensures var id := s.workers[w].id;
            var n := Next(s, Finish(w, outcome));
            var before, after := s.rows[id].event, n.rows[id].event;
            && 0 <= Budget(after) < Budget(before)
            && (after.state.Delivered? <==> outcome.Deliver? && !Expired(before, s.workers[w].now))
            && (after.state.Pending? <==>
              !Expired(before, s.workers[w].now) && (outcome.Retry? || outcome.Throw?) && before.attempts < 4)
  {
  }

  // ------------------------------------------------------------------ one pass on its own

  datatype PassResult = PassResult(delivered: nat, retried: nat, failed: nat)

  function Eligible(rows: map<Id, Event>, handled: set<string>, now: int): set<Id> {
    set id | id in rows && Due(rows[id], handled, now)
  }

  /** Nothing decided this minute is due again this minute. */
  lemma DecidedIsNotDue(e: Event, outcome: Outcome, handled: set<string>, now: int)
    ensures !Due(Decided(e, outcome, now), handled, now)
  {
  }

  /** How many of `ids` ended in each state. */
  function Count(rows: map<Id, Event>, ids: seq<Id>): PassResult
    requires forall id :: id in ids ==> id in rows
  {
    if ids == [] then PassResult(0, 0, 0)
    else
      var n, last := Count(rows, ids[..|ids| - 1]), rows[ids[|ids| - 1]];
      match last.state
      case Delivered(_) => PassResult(n.delivered + 1, n.retried, n.failed)
      case Pending => PassResult(n.delivered, n.retried + 1, n.failed)
      case Failed => PassResult(n.delivered, n.retried, n.failed + 1)
  }

  lemma {:induction false} CountSame(before: map<Id, Event>, after: map<Id, Event>, ids: seq<Id>)
    requires forall id :: id in ids ==> id in before && id in after && before[id] == after[id]
    ensures Count(before, ids) == Count(after, ids)
  {
    if ids == [] {
    } else {
      CountSame(before, after, ids[..|ids| - 1]);
    }
  }

  /** `taken` are distinct due events, oldest first, and exactly their rows have been decided. */
  ghost predicate DecidedOldest(before: map<Id, Event>, after: map<Id, Event>, taken: seq<Id>, handled: set<string>,
      now: int, handler: (Id, Event, int) -> Outcome) {
    && RowsDecided(before, after, taken, now, handler)
    && OldestFirst(before, taken, Eligible(before, handled, now))
  }

  ghost predicate RowsDecided(before: map<Id, Event>, after: map<Id, Event>, taken: seq<Id>, now: int,
      handler: (Id, Event, int) -> Outcome) {
    && after.Keys == before.Keys
    && forall id :: id in before ==>
         after[id] == if id in taken then Decided(before[id], handler(id, before[id], now), now) else before[id]
  }

  ghost predicate OldestFirst(before: map<Id, Event>, taken: seq<Id>, due: set<Id>)
    requires due <= before.Keys
  {
    && (forall i :: 0 <= i < |taken| ==> taken[i] in due)
    && (forall i, j :: 0 <= i < j < |taken| ==>
          taken[i] != taken[j] && before[taken[i]].occurredAt <= before[taken[j]].occurredAt)
    && forall i, other :: 0 <= i < |taken| && other in due && other !in taken ==>
         before[taken[i]].occurredAt <= before[other].occurredAt
  }

  lemma NoneDecided(rows: map<Id, Event>, handled: set<string>, now: int, handler: (Id, Event, int) -> Outcome)
    ensures DecidedOldest(rows, rows, [], handled, now, handler) && Count(rows, []) == PassResult(0, 0, 0)
    ensures handled == {} ==> Eligible(rows, handled, now) == {}
  {
  }

  function Members(ids: seq<Id>): set<Id> {
    set id | id in ids
  }

  lemma {:induction false} Distinct(ids: seq<Id>)
    requires forall i, j :: 0 <= i < j < |ids| ==> ids[i] != ids[j]
    ensures |Members(ids)| == |ids|
  {
    if ids == [] {
    } else {
      var n := |ids| - 1;
      Distinct(ids[..n]);
      assert Members(ids) == Members(ids[..n]) + {ids[n]};
    }
  }

  /** What is due shrinks by exactly what has been decided. */
  lemma StillDue(before: map<Id, Event>, after: map<Id, Event>, taken: seq<Id>, handled: set<string>, now: int,
      handler: (Id, Event, int) -> Outcome)
    requires DecidedOldest(before, after, taken, handled, now, handler)
    ensures Eligible(after, handled, now) == Eligible(before, handled, now) - Members(taken)
    ensures |Eligible(after, handled, now)| == |Eligible(before, handled, now)| - |taken|
    ensures after.Keys == before.Keys && forall id :: id in taken ==> id in after
  {
    forall id | id in taken
      ensures id in Eligible(before, handled, now) && id !in Eligible(after, handled, now)
    {
      DecidedIsNotDue(before[id], handler(id, before[id], now), handled, now);
    }
    Distinct(taken);
    assert Members(taken) <= Eligible(before, handled, now);
    assert Eligible(after, handled, now) == Eligible(before, handled, now) - Members(taken);
  }

  lemma OneMore(before: map<Id, Event>, mid: map<Id, Event>, after: map<Id, Event>, taken: seq<Id>, id: Id,
                handled: set<string>, now: int, handler: (Id, Event, int) -> Outcome)
    requires DecidedOldest(before, mid, taken, handled, now, handler)
    requires id in Eligible(mid, handled, now)
    requires forall other :: other in Eligible(mid, handled, now) ==> mid[id].occurredAt <= mid[other].occurredAt
    requires after == mid[id := Decided(mid[id], handler(id, mid[id], now), now)]
    ensures DecidedOldest(before, after, taken + [id], handled, now, handler)
  {
    hide Decided, Due, OldestFirst;
    StillDue(before, mid, taken, handled, now, handler);
    assert id !in taken && id in Eligible(before, handled, now) && mid[id] == before[id];
    forall other | other in before
      ensures after[other]
           == if other in taken + [id] then Decided(before[other], handler(other, before[other], now), now)
              else before[other]
    {
      assert other in taken + [id] <==> other in taken || other == id;
    }
    forall other | other in Eligible(before, handled, now) && other !in taken
      ensures before[id].occurredAt <= before[other].occurredAt
    {
      assert other in Eligible(mid, handled, now) && mid[other] == before[other];
    }
    NextOldest(before, taken, id, Eligible(before, handled, now));
  }

  lemma NextOldest(before: map<Id, Event>, taken: seq<Id>, id: Id, due: set<Id>)
    requires due <= before.Keys && OldestFirst(before, taken, due) && id in due && id !in taken
    requires forall other :: other in due && other !in taken ==> before[id].occurredAt <= before[other].occurredAt
    ensures OldestFirst(before, taken + [id], due)
  {
    var more := taken + [id];
    forall other ensures other in more <==> other in taken || other == id {
    }
  }

  lemma OneMoreCounted(mid: map<Id, Event>, after: map<Id, Event>, taken: seq<Id>, id: Id, e: Event)
    requires id !in taken && after == mid[id := e] && forall t :: t in taken ==> t in mid
    ensures Count(after, taken + [id]) == match after[id].state
                                          case Delivered(_) =>
                                            Count(mid, taken).(delivered := Count(mid, taken).delivered + 1)
                                          case Pending => Count(mid, taken).(retried := Count(mid, taken).retried + 1)
                                          case Failed => Count(mid, taken).(failed := Count(mid, taken).failed + 1)
  {
    CountSame(mid, after, taken);
    assert (taken + [id])[..|taken|] == taken;
  }

  /** Whatever a pass leaves to be tried again waits a minute, doubled with each failed attempt after the first. */
  lemma RetriesWait(before: map<Id, Event>, after: map<Id, Event>, taken: seq<Id>, handled: set<string>, now: int,
      handler: (Id, Event, int) -> Outcome)
    requires DecidedOldest(before, after, taken, handled, now, handler)
    ensures forall id :: id in taken && after[id].state.Pending? ==>
              && after[id].attempts == before[id].attempts + 1
              && after[id].nextAttemptAt == Some(now + 60_000 * Doubled(after[id].attempts - 1))
  {
    hide Decided;
    forall id | id in taken && after[id].state.Pending?
      ensures after[id].attempts == before[id].attempts + 1
      ensures after[id].nextAttemptAt == Some(now + 60_000 * Doubled(after[id].attempts - 1))
    {
      assert id in Eligible(before, handled, now);
      DecisionLeaves(before[id], handler(id, before[id], now), now);
    }
  }

  /** The types with a handler: none is registered unless every one of them is a known type. */
  method Register(types: seq<string>, rows: map<Id, Event>) returns (consumer: Option<OutboxConsumer>)
    ensures consumer.Some? <==> forall t :: t in types ==> t in KNOWN_EVENT_TYPES
    ensures consumer.Some? ==>
              fresh(consumer.value) && consumer.value.handled == (set t | t in types) && consumer.value.rows == rows
    ensures consumer.Some? ==> consumer.value.handled <= KNOWN_EVENT_TYPES
  {
    for i := 0 to |types|
      invariant forall j :: 0 <= j < i ==> types[j] in KNOWN_EVENT_TYPES
    {
      if types[i] !in KNOWN_EVENT_TYPES {
        return None;
      }
    }
    var made := new OutboxConsumer((set t | t in types), rows);
    return Some(made);
  }

  class OutboxConsumer {
    const handled: set<string>
    var rows: map<Id, Event>

    constructor (handled: set<string>, rows: map<Id, Event>)
      ensures this.handled == handled && this.rows == rows
    {
      this.handled, this.rows := handled, rows;
    }

    /** The claim's query on an outbox nobody else is reading: the oldest due row. */
    method Oldest(now: int) returns (id: Option<Id>)
      ensures id.None? <==> Eligible(rows, handled, now) == {}
      ensures id.Some? ==> id.value in Eligible(rows, handled, now)
      ensures id.Some? ==> forall other :: other in Eligible(rows, handled, now) ==>
                rows[id.value].occurredAt <= rows[other].occurredAt
    {
      id := None;
      var todo := Eligible(rows, handled, now);
      while todo != {}
        invariant todo <= Eligible(rows, handled, now)
        invariant id.None? ==> todo == Eligible(rows, handled, now)
        invariant id.Some? ==> id.value in Eligible(rows, handled, now)
        invariant id.Some? ==> forall other :: other in Eligible(rows, handled, now) - todo ==>
                  rows[id.value].occurredAt <= rows[other].occurredAt
        decreases todo
      {
        var next :| next in todo;
        if id.None? || rows[next].occurredAt < rows[id.value].occurredAt {
          id := Some(next);
        }
        todo := todo - {next};
      }
    }

    /** One event: claimed, handled and decided in one transaction. */
    method One(now: int, handler: (Id, Event, int) -> Outcome) returns (id: Option<Id>)
      modifies this
      ensures id.None? ==> rows == old(rows) && Eligible(old(rows), handled, now) == {}
      ensures id.Some? ==>
                && id.value in Eligible(old(rows), handled, now)
                && (forall other :: other in Eligible(old(rows), handled, now) ==>
                  old(rows)[id.value].occurredAt <= old(rows)[other].occurredAt)
                && rows == old(rows)[id.value :=
                  Decided(old(rows)[id.value], handler(id.value, old(rows)[id.value], now), now)]
                && Eligible(rows, handled, now) == Eligible(old(rows), handled, now) - {id.value}
    {
      id := Oldest(now);
      if id.Some? {
        var event := rows[id.value];
        var outcome := handler(id.value, event, now);
        DecidedIsNotDue(event, outcome, handled, now);
        rows := rows[id.value := Decided(event, outcome, now)];
      }
    }

    /**
      A pass decides the oldest due events, each once, as many as there are up to the limit,
      and reports how each ended; every other row is as it was.
     */
    method Pass(now: int, limit: nat, handler: (Id, Event, int) -> Outcome)
        returns (result: PassResult, ghost taken: seq<Id>)
      modifies this
      ensures DecidedOldest(old(rows), rows, taken, handled, now, handler)
      ensures |taken| == if limit < |Eligible(old(rows), handled, now)| then limit
                else |Eligible(old(rows), handled, now)|
      ensures result == Count(rows, taken)
      ensures forall id :: id in taken && rows[id].state.Pending? ==>
                && rows[id].attempts == old(rows)[id].attempts + 1
                && rows[id].nextAttemptAt == Some(now + 60_000 * Doubled(rows[id].attempts - 1))
    {
      hide DecidedOldest, Decided, Due, Eligible, Count;
      result, taken := PassResult(0, 0, 0), [];
      NoneDecided(rows, handled, now, handler);
      ghost var due := Eligible(rows, handled, now);
      if handled == {} {
        return;
      }
      var i := 0;
      while i < limit
        invariant 0 <= i <= limit && |taken| == i <= |due|
        invariant DecidedOldest(old(rows), rows, taken, handled, now, handler)
        invariant forall id :: id in taken ==> id in rows
        invariant result == Count(rows, taken)
        decreases limit - i
      {
        ghost var before := rows;
        StillDue(old(rows), rows, taken, handled, now, handler);
        var id := One(now, handler);
        if id.None? {
          RetriesWait(old(rows), rows, taken, handled, now, handler);
          return;
        }
        OneMore(old(rows), before, rows, taken, id.value, handled, now, handler);
        OneMoreCounted(before, rows, taken, id.value, rows[id.value]);
        taken := taken + [id.value];
        match rows[id.value].state {
          case Delivered(_) => result := PassResult(result.delivered + 1, result.retried, result.failed);
          case Pending => result := PassResult(result.delivered, result.retried + 1, result.failed);
          case Failed => result := PassResult(result.delivered, result.retried, result.failed + 1);
        }
        StillDue(old(rows), rows, taken, handled, now, handler);
        i := i + 1;
      }
      RetriesWait(old(rows), rows, taken, handled, now, handler);
    }
  }
}
