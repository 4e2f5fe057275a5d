/**
  The forecast pass's incremental rollup (`prepare`, `write` and `purge` in `forecast.service.ts`):
  a signal's hourly buckets are stored once their hour is over, and a pass reads only the hours
  after the newest stored one. What the readings of an hour average to is a parameter of each pass.
 */
module IncrementalRollup {
  import opened Cadence
  import opened Options
  import opened InputContext
  import opened Sets

  /** Hourly averages by the start of their hour. */
  type Buckets = map<int, real>

  ghost predicate OnTheHour(b: Buckets) {
    forall t :: t in b ==> t % HOUR_MS == 0
  }

  function Within(b: Buckets, from: int, to: int): Buckets {
    map t | t in b && from <= t < to :: b[t]
  }

  function Since(b: Buckets, from: int): Buckets {
    map t | t in b && from <= t :: b[t]
  }

  ghost predicate IsNewest(b: Buckets, last: Option<int>) {
    match last
    case None => b == map[]
    case Some(t) => t in b && forall u :: u in b ==> u <= t
  }

  function ContextFrom(hourEnd: int, steps: nat): int {
    hourEnd - steps * HOUR_MS
  }

  function ReadFrom(last: Option<int>, contextFrom: int): int {
    if last.Some? && last.value + HOUR_MS > contextFrom then last.value + HOUR_MS else contextFrom
  }

  /** The hours a pass reads afresh. */
  function Fresh(last: Option<int>, readings: Buckets, contextFrom: int, hourEnd: int): Buckets {
    Within(readings, ReadFrom(last, contextFrom), hourEnd)
  }

  /**
    A pass reads afresh exactly the hours of its context, the `steps` whole ones before `hourEnd`,
    that come after the newest stored one.
   */
  lemma ReadsExactly(readings: Buckets, last: Option<int>, hourEnd: int, steps: nat, t: int)
    requires t % 3_600_000 == 0 && hourEnd % 3_600_000 == 0 && (last.Some? ==> last.value % 3_600_000 == 0)
    ensures t in Fresh(last, readings, ContextFrom(hourEnd, steps), hourEnd)
       <==> && t in readings && (last.Some? ==> last.value < t)
            && exists i :: 1 <= i <= steps && t == hourEnd - i * 3_600_000
  {
    var i := (hourEnd - t) / 3_600_000;
    assert t == hourEnd - i * 3_600_000;
  }

  // ------------------------------------------------------------------ one pass

  /** Between the start of the context and the newest stored hour, what is stored is what was read. */
  ghost predicate UpToDate(stored: Buckets, last: Option<int>, readings: Buckets, contextFrom: int) {
    last.Some? ==> forall t :: contextFrom <= t <= last.value ==>
      (t in stored <==> t in readings) && (t in stored ==> stored[t] == readings[t])
  }

  /**
    The stored hours and the newly read ones are the full rollup of the context exactly when no hour
    of it up to the newest stored one has changed since it was stored.
   */
  lemma FullExactly(stored: Buckets, last: Option<int>, readings: Buckets, contextFrom: int, hourEnd: int)
    requires OnTheHour(stored) && OnTheHour(readings) && IsNewest(stored, last)
    requires forall t :: t in stored ==> t < hourEnd
    ensures Since(stored, contextFrom) + Fresh(last, readings, contextFrom, hourEnd)
              == Within(readings, contextFrom, hourEnd)
       <==> UpToDate(stored, last, readings, contextFrom)
  {
    var context, full := Since(stored, contextFrom) + Fresh(last, readings, contextFrom, hourEnd),
        Within(readings, contextFrom, hourEnd);
    forall t ensures t in context <==>
        contextFrom <= t && (if last.Some? && t <= last.value then t in stored else t in readings && t < hourEnd)
      ensures t in context ==> context[t] == if last.Some? && t <= last.value then stored[t] else readings[t]
    {
    }
    if UpToDate(stored, last, readings, contextFrom) {
      assert context == full;
    }
    if context == full && last.Some? {
      forall t | contextFrom <= t <= last.value
        ensures (t in stored <==> t in readings) && (t in stored ==> stored[t] == readings[t])
      {
        assert t in context <==> t in full;
        if t in stored {
          assert context[t] == full[t];
        }
      }
    }
  }

  datatype Fate = Forecast | Skipped | Failed

  /** One pass over the signal: what its hours average to by then, and what became of the pass. */
  datatype Pass = Pass(readings: Buckets, hourEnd: int, purgeBefore: int, fate: Fate)

  ghost function Newest(b: Buckets): (last: Option<int>)
    ensures IsNewest(b, last)
  {
    if b == map[] then None
    else
      HasNewest(b.Keys);
      var t :| t in b && forall u :: u in b ==> u <= t;
      Some(t)
  }

  lemma {:induction false} HasNewest(keys: set<int>)
    requires keys != {}
    ensures exists t :: t in keys && forall u :: u in keys ==> u <= t
    decreases |keys|
  {
    SomeMember(keys);
    var x :| x in keys;
    var rest := keys - {x};
    if rest == {} {
      assert keys == {x};
    } else {
      HasNewest(rest);
      var t :| t in rest && forall u :: u in rest ==> u <= t;
      var most := if x <= t then t else x;
      assert most in keys;
      forall u | u in keys ensures u <= most {
        assert u == x || u in rest;
      }
    }
  }

  lemma NewestOnce(b: Buckets, p: Option<int>, q: Option<int>)
    requires IsNewest(b, p) && IsNewest(b, q)
    ensures p == q
  {
  }

  ghost function After(stored: Buckets, pass: Pass, steps: nat): Buckets {
    match pass.fate
    case Failed => stored
    case Skipped => Since(stored, pass.purgeBefore)
    case Forecast =>
      Since(stored + Fresh(Newest(stored), pass.readings, ContextFrom(pass.hourEnd, steps), pass.hourEnd),
        pass.purgeBefore)
  }

  // ------------------------------------------------------------------ any history of passes

  ghost function Stored(history: seq<Pass>, steps: nat): Buckets {
    if history == [] then map[] else After(Stored(history[..|history| - 1], steps), history[|history| - 1], steps)
  }

  /** No reading of an hour at or before `last` came or changed from one pass to the next. */
  ghost predicate NoneLate(earlier: Buckets, later: Buckets, last: Option<int>) {
    last.Some? ==> forall t :: t <= last.value ==>
      (t in earlier <==> t in later) && (t in earlier ==> earlier[t] == later[t])
  }

  /**
    Passes in order of time, each keeping its context when it purges, with no reading arriving late
    for an hour at or before the newest one stored when it arrived.
   */
  ghost predicate Orderly(history: seq<Pass>, steps: nat) {
    && (forall i :: 0 <= i < |history| ==>
      OnTheHour(history[i].readings) && history[i].purgeBefore <= ContextFrom(history[i].hourEnd, steps))
    && forall i :: 0 < i < |history| ==>
      && history[i - 1].hourEnd <= history[i].hourEnd
      && NoneLate(history[i - 1].readings, history[i].readings, Newest(Stored(history[..i], steps)))
  }

  /** What a pass leaves behind it is still what was read. */
  ghost predicate Kept(stored: Buckets, readings: Buckets, contextFrom: int, hourEnd: int) {
    && OnTheHour(stored)
    && (forall t :: t in stored ==> t < hourEnd && t in readings && stored[t] == readings[t])
    && UpToDate(stored, Newest(stored), readings, contextFrom)
  }

  lemma PassKeeps(stored: Buckets, pass: Pass, steps: nat)
    requires OnTheHour(pass.readings) && pass.purgeBefore <= ContextFrom(pass.hourEnd, steps)
    requires Kept(stored, pass.readings, ContextFrom(pass.hourEnd, steps), pass.hourEnd)
    ensures Kept(After(stored, pass, steps), pass.readings, ContextFrom(pass.hourEnd, steps), pass.hourEnd)
  {
    hide Kept, Newest;
    var from := ContextFrom(pass.hourEnd, steps);
    if pass.fate == Forecast {
      HoursKept(stored, pass.readings, from, pass.hourEnd);
      PurgeKeeps(stored + Fresh(Newest(stored), pass.readings, from, pass.hourEnd), pass.readings, from, pass.hourEnd,
        pass.purgeBefore);
    } else {
      PurgeKeeps(stored, pass.readings, from, pass.hourEnd, pass.purgeBefore);
    }
  }

  lemma HoursKept(stored: Buckets, readings: Buckets, from: int, hourEnd: int)
    requires OnTheHour(readings) && Kept(stored, readings, from, hourEnd)
    ensures Kept(stored + Fresh(Newest(stored), readings, from, hourEnd), readings, from, hourEnd)
  {
    hide Newest, Fresh, UpToDate, OnTheHour;
    var last := Newest(stored);
    var after := stored + Fresh(last, readings, from, hourEnd);
    forall t ensures t in after ==> t % HOUR_MS == 0 && t < hourEnd && t in readings && after[t] == readings[t]
      ensures from <= t < hourEnd && t in readings ==> t in after
    {
      HourRead(stored, last, readings, from, hourEnd, t);
    }
    KeptHours(after, readings, from, hourEnd);
  }

  lemma HourRead(stored: Buckets, last: Option<int>, readings: Buckets, from: int, hourEnd: int, t: int)
    requires OnTheHour(readings) && OnTheHour(stored) && IsNewest(stored, last)
              && UpToDate(stored, last, readings, from)
    ensures t in Fresh(last, readings, from, hourEnd) ==>
      t % HOUR_MS == 0 && t < hourEnd && t in readings && Fresh(last, readings, from, hourEnd)[t] == readings[t]
    ensures from <= t < hourEnd && t in readings ==> t in stored || t in Fresh(last, readings, from, hourEnd)
    ensures t in stored ==> t % HOUR_MS == 0
  {
  }

  lemma KeptHours(after: Buckets, readings: Buckets, from: int, hourEnd: int)
    requires forall t :: t in after ==> t % HOUR_MS == 0 && t < hourEnd && t in readings && after[t] == readings[t]
    requires forall t :: from <= t < hourEnd && t in readings ==> t in after
    ensures Kept(after, readings, from, hourEnd)
  {
  }

  lemma PurgeKeeps(stored: Buckets, readings: Buckets, from: int, hourEnd: int, before: int)
    requires Kept(stored, readings, from, hourEnd) && before <= from
    ensures Kept(Since(stored, before), readings, from, hourEnd)
  {
    hide Newest;
    var last, left := Newest(stored), Newest(Since(stored, before));
    if left.Some? {
      assert left.value in stored && left.value <= last.value;
    }
  }

  lemma KeptLater(stored: Buckets, earlier: Pass, later: Pass, steps: nat)
    requires Kept(stored, earlier.readings, ContextFrom(earlier.hourEnd, steps), earlier.hourEnd)
    requires earlier.hourEnd <= later.hourEnd && NoneLate(earlier.readings, later.readings, Newest(stored))
    ensures Kept(stored, later.readings, ContextFrom(later.hourEnd, steps), later.hourEnd)
  {
  }

  lemma {:induction false} HistoryKeeps(history: seq<Pass>, steps: nat)
    requires Orderly(history, steps) && history != []
    ensures var pass := history[|history| - 1];
            Kept(Stored(history[..|history| - 1], steps), pass.readings, ContextFrom(pass.hourEnd, steps), pass.hourEnd)
    decreases |history|
  {
    hide Kept, After, OnTheHour, NoneLate, Newest;
    var n := |history| - 1;
    var before, pass := history[..n], history[n];
    if n == 0 {
      NothingKept(pass, steps);
    } else {
      Shorter(history, steps);
      HistoryKeeps(before, steps);
      PassKeeps(Stored(before[..n - 1], steps), before[n - 1], steps);
      KeptLater(Stored(before, steps), before[n - 1], pass, steps);
    }
  }

  lemma NothingKept(pass: Pass, steps: nat)
    ensures Kept(map[], pass.readings, ContextFrom(pass.hourEnd, steps), pass.hourEnd)
  {
  }

  lemma Shorter(history: seq<Pass>, steps: nat)
    requires Orderly(history, steps) && history != []
    ensures Orderly(history[..|history| - 1], steps)
  {
    hide Stored, NoneLate, OnTheHour;
    var before := history[..|history| - 1];
    forall i | 0 < i < |before|
      ensures before[i - 1].hourEnd <= before[i].hourEnd
      ensures NoneLate(before[i - 1].readings, before[i].readings, Newest(Stored(before[..i], steps)))
    {
      assert before[..i] == history[..i];
    }
  }

  /**
    After any orderly history of forecast, skipped and failed passes, the next context is the full rollup
    of its hours.
   */
  lemma IncrementalIsFull(history: seq<Pass>, steps: nat)
    requires Orderly(history, steps) && history != []
    ensures var pass, stored := history[|history| - 1], Stored(history[..|history| - 1], steps);
            var from := ContextFrom(pass.hourEnd, steps);
            Since(stored, from) + Fresh(Newest(stored), pass.readings, from, pass.hourEnd)
              == Within(pass.readings, from, pass.hourEnd)
  {
    hide Stored, UpToDate, Since, Within, Fresh, NoneLate;
    var pass, stored := history[|history| - 1], Stored(history[..|history| - 1], steps);
    HistoryKeeps(history, steps);
    FullExactly(stored, Newest(stored), pass.readings, ContextFrom(pass.hourEnd, steps), pass.hourEnd);
  }

  // ------------------------------------------------------------------ the pass itself

  method ReadHours(kept: Buckets, hours: Buckets) returns (buckets: Buckets, unread: Buckets)
    ensures buckets == kept + hours && unread == hours
  {
    buckets, unread := kept, map[];
    var left := hours.Keys;
    while left != {}
      invariant left <= hours.Keys
      invariant unread == hours - left
      invariant buckets == kept + unread
    {
      SomeMember(left);
      var t: int :| t in left;
      left := left - {t};
      buckets := buckets[t := hours[t]];
      unread := unread[t := hours[t]];
    }
  }

  class SignalRollup {
    var stored: Buckets

    constructor ()
      ensures stored == map[]
    {
      stored := map[];
    }

    method NewestBucket() returns (last: Option<int>)
      ensures last == Newest(stored)
    {
      last := None;
      var left := stored.Keys;
      while left != {}
        invariant left <= stored.Keys
        invariant last.None? ==> left == stored.Keys
        invariant last.Some? ==> last.value in stored && forall t :: t in stored && t !in left ==> t <= last.value
      {
        SomeMember(left);
        var t: int :| t in left;
        left := left - {t};
        if last.None? || t > last.value {
          last := Some(t);
        }
      }
      NewestOnce(stored, last, Newest(stored));
    }

    /** The context of a pass and the buckets it would store. */
    method Prepare(readings: Buckets, steps: nat, hourEnd: int) returns (context: Outcome, unread: Buckets)
      requires steps > 0
      ensures unread == Fresh(Newest(stored), readings, ContextFrom(hourEnd, steps), hourEnd)
      ensures var from := ContextFrom(hourEnd, steps);
              IsContext(Raw(Since(stored, from) + unread, from, steps, HOUR_MS), context)
    {
      hide IsContext, Raw, Since, Newest;
      var contextFrom := ContextFrom(hourEnd, steps);
      var last := NewestBucket();
      var readFrom := ReadFrom(last, contextFrom);
      var buckets := Since(stored, contextFrom);
      unread := map[];
      if readFrom < hourEnd {
        buckets, unread := ReadHours(buckets, Within(readings, readFrom, hourEnd));
      } else {
        assert Within(readings, readFrom, hourEnd) == map[];
        assert buckets + map[] == buckets;
      }
      context := BuildContext(buckets, contextFrom, steps, HOUR_MS);
    }

    method Run(readings: Buckets, steps: nat, hourEnd: int, purgeBefore: int, fate: Fate) returns (context: Outcome)
      requires steps > 0
      modifies this
      ensures stored == After(old(stored), Pass(readings, hourEnd, purgeBefore, fate), steps)
      ensures var from := ContextFrom(hourEnd, steps);
              var buckets := Since(old(stored), from) + Fresh(Newest(old(stored)), readings, from, hourEnd);
              IsContext(Raw(buckets, from, steps, HOUR_MS), context)
    {
      var unread: Buckets;
      context, unread := Prepare(readings, steps, hourEnd);
      if fate == Failed {
        return;
      }
      if fate == Forecast {
        stored := stored + unread;
      }
      stored := Since(stored, purgeBefore);
    }
  }
}
