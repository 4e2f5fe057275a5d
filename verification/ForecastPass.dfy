/**
  One forecast pass (`locked` in `forecast.service.ts`): who is owed, in what order, how far the
  budget reaches, and what is written and recorded for every one of them. What preparing a signal
  finds, the clock and the worker's answer are parameters.
 */
module ForecastPass {
  import opened Cadence
  import opened Options
  import opened Sets

  /** A declared signal of a machine, with its latest forecast and any alert on it. */
  datatype Candidate = Candidate(tenant: int, signal: int, generatedAt: Option<int>, activeModel: bool,
      alertOpen: bool, alertSince: bool)

  predicate IsOwed(c: Candidate, now: int) {
    c.generatedAt.None? || !c.activeModel || c.alertSince || now - c.generatedAt.value >= FORECAST_CADENCE_MS
  }

  function Owed(candidates: seq<Candidate>, now: int): seq<Candidate> {
    if candidates == [] then []
    else (if IsOwed(candidates[0], now) then [candidates[0]] else []) + Owed(candidates[1..], now)
  }

  /** Owed are those never forecast, forecast by another model, alerted since, or four hours old. */
  lemma {:induction false} OwedExactly(candidates: seq<Candidate>, now: int, c: Candidate)
    ensures multiset(Owed(candidates, now))[c]
         == if c.generatedAt.Some? && c.activeModel && !c.alertSince && now < c.generatedAt.value + 4 * 3_600_000 then 0
            else multiset(candidates)[c]
  {
    if candidates == [] {
    } else {
      OwedExactly(candidates[1..], now, c);
      assert candidates == [candidates[0]] + candidates[1..];
    }
  }

  // ------------------------------------------------------------------ the order of work

  predicate Alerted(c: Candidate) {
    c.alertOpen || c.alertSince
  }

  function Since(c: Candidate): int {
    if c.generatedAt.Some? then c.generatedAt.value else 0
  }

  /** `a` may go before `b`: alerted first, then the oldest forecast. */
  predicate NoLater(a: Candidate, b: Candidate) {
    (Alerted(a) && !Alerted(b)) || (Alerted(a) == Alerted(b) && Since(a) <= Since(b))
  }

  predicate SameRank(a: Candidate, b: Candidate) {
    Alerted(a) == Alerted(b) && Since(a) == Since(b)
  }

  /** Put before the first that it may precede, so that equals keep their order. */
  function Enqueue(c: Candidate, queue: seq<Candidate>): seq<Candidate> {
    if queue == [] || NoLater(c, queue[0]) then [c] + queue else [queue[0]] + Enqueue(c, queue[1..])
  }

  function Queue(candidates: seq<Candidate>): seq<Candidate> {
    if candidates == [] then [] else Enqueue(candidates[0], Queue(candidates[1..]))
  }

  ghost predicate InOrder(queue: seq<Candidate>) {
    forall i, j :: 0 <= i < j < |queue| ==> NoLater(queue[i], queue[j])
  }

  function Peers(queue: seq<Candidate>, c: Candidate): seq<Candidate> {
    if queue == [] then [] else (if SameRank(queue[0], c) then [queue[0]] else []) + Peers(queue[1..], c)
  }

  lemma {:induction false} EnqueueAdds(c: Candidate, queue: seq<Candidate>)
    ensures multiset(Enqueue(c, queue)) == multiset{c} + multiset(queue)
  {
    hide NoLater;
    if queue != [] && !NoLater(c, queue[0]) {
      EnqueueAdds(c, queue[1..]);
      assert queue == [queue[0]] + queue[1..];
    }
  }

  lemma {:induction false} EnqueueOrdered(c: Candidate, queue: seq<Candidate>)
    requires InOrder(queue)
    ensures InOrder(Enqueue(c, queue))
  {
    if queue != [] && !NoLater(c, queue[0]) {
      var rest := Enqueue(c, queue[1..]);
      EnqueueOrdered(c, queue[1..]);
      EnqueueAdds(c, queue[1..]);
      forall x | x in rest ensures NoLater(queue[0], x) {
        assert x in multiset(rest);
      }
    }
  }

  lemma {:induction false} EnqueueKeepsPeers(c: Candidate, queue: seq<Candidate>, d: Candidate)
    ensures Peers(Enqueue(c, queue), d) == (if SameRank(c, d) then [c] else []) + Peers(queue, d)
  {
    if queue == [] || NoLater(c, queue[0]) {
      assert ([c] + queue)[1..] == queue;
    } else {
      EnqueueKeepsPeers(c, queue[1..], d);
      assert Enqueue(c, queue)[1..] == Enqueue(c, queue[1..]);
    }
  }

  /** The queue is its candidates in order of urgency, equals in the order they came. */
  lemma {:induction false} QueueSorts(candidates: seq<Candidate>)
    ensures InOrder(Queue(candidates)) && multiset(Queue(candidates)) == multiset(candidates)
    ensures forall d :: Peers(Queue(candidates), d) == Peers(candidates, d)
  {
    if candidates == [] {
    } else {
      QueueSorts(candidates[1..]);
      EnqueueOrdered(candidates[0], Queue(candidates[1..]));
      EnqueueAdds(candidates[0], Queue(candidates[1..]));
      assert candidates == [candidates[0]] + candidates[1..];
      forall d ensures Peers(Queue(candidates), d) == Peers(candidates, d) {
        EnqueueKeepsPeers(candidates[0], Queue(candidates[1..]), d);
      }
    }
  }

  /** Earlier in the queue: an alert if the later one has one, and among equals in that no younger a forecast. */
  lemma QueueByUrgency(candidates: seq<Candidate>, i: nat, j: nat)
    requires i < j < |candidates|
    ensures |Queue(candidates)| == |candidates|
    ensures var a, b := Queue(candidates)[i], Queue(candidates)[j];
            && (b.alertOpen || b.alertSince ==> a.alertOpen || a.alertSince)
            && ((b.alertOpen || b.alertSince <==> a.alertOpen || a.alertSince) ==>
                  && (a.generatedAt.Some? && b.generatedAt.Some? ==> a.generatedAt.value <= b.generatedAt.value)
                  && (a.generatedAt.Some? && b.generatedAt.None? ==> a.generatedAt.value <= 0)
                  && (a.generatedAt.None? && b.generatedAt.Some? ==> 0 <= b.generatedAt.value))
  {
    QueueSorts(candidates);
    assert |Queue(candidates)| == |multiset(Queue(candidates))| == |multiset(candidates)| == |candidates|;
    assert NoLater(Queue(candidates)[i], Queue(candidates)[j]);
  }

  lemma {:induction false} FirstPeer(queue: seq<Candidate>, d: Candidate)
    requires InOrder(queue) && Peers(queue, d) != []
    ensures queue != [] && NoLater(queue[0], d) && Peers(queue, d)[0] in queue
    ensures SameRank(queue[0], d) ==> Peers(queue, d)[0] == queue[0]
  {
    if !SameRank(queue[0], d) {
      FirstPeer(queue[1..], d);
      assert NoLater(queue[0], queue[1]);
    }
  }

  lemma OwnPeer(b: seq<Candidate>, a: seq<Candidate>)
    requires b != [] && Peers(a, b[0]) == Peers(b, b[0])
    ensures a != []
  {
  }

  /** No other order is by urgency and keeps equals as they came. */
  lemma {:induction false} OneQueue(a: seq<Candidate>, b: seq<Candidate>)
    requires InOrder(a) && InOrder(b) && forall d :: Peers(a, d) == Peers(b, d)
    ensures a == b
    decreases |a|
  {
    if a == [] {
      if b != [] {
        OwnPeer(b, a);
        assert false;
      }
    } else {
      assert Peers(a, a[0]) == Peers(b, a[0]);
      FirstPeer(b, a[0]);
      assert Peers(a, b[0]) == Peers(b, b[0]);
      FirstPeer(a, b[0]);
      assert a[0] == b[0];
      forall d ensures Peers(a[1..], d) == Peers(b[1..], d) {
        assert Peers(a, d) == Peers(b, d);
        var first := if SameRank(a[0], d) then [a[0]] else [];
        assert Peers(a, d) == first + Peers(a[1..], d) && Peers(b, d) == first + Peers(b[1..], d);
        assert (first + Peers(a[1..], d))[|first|..] == Peers(a[1..], d);
        assert (first + Peers(b[1..], d))[|first|..] == Peers(b[1..], d);
      }
      OneQueue(a[1..], b[1..]);
    }
  }

  // ------------------------------------------------------------------ as far as the budget reaches

  datatype Reason = BudgetExhausted | Refused | Unfit(why: int)

  datatype Skip = Skip(c: Candidate, reason: Reason)

  /** What preparing a signal finds: not owed after all, not fit to forecast, or its input. */
  datatype Found = NotOwed | NotFit(why: int) | Input

  function Prepared(queue: seq<Candidate>, found: Candidate -> Found): seq<Candidate> {
    if queue == [] then []
    else
      var c := queue[|queue| - 1];
      Prepared(queue[..|queue| - 1], found) + if found(c) == Input then [c] else []
  }

  function Skips(queue: seq<Candidate>, found: Candidate -> Found): seq<Skip> {
    if queue == [] then []
    else
      var c := queue[|queue| - 1];
      Skips(queue[..|queue| - 1], found) + if found(c).NotFit? then [Skip(c, Unfit(found(c).why))] else []
  }

  function Dropped(queue: seq<Candidate>, found: Candidate -> Found): int {
    if queue == [] then 0
    else Dropped(queue[..|queue| - 1], found) + if found(queue[|queue| - 1]) == NotOwed then 1 else 0
  }

  function Exhausted(queue: seq<Candidate>): seq<Skip> {
    seq(|queue|, i requires 0 <= i < |queue| => Skip(queue[i], BudgetExhausted))
  }

  /** How many of `n` are begun within the budget: all before the first at which the time is up. */
  function Reached(n: nat, elapsed: int -> int, budget: int): (reached: nat)
    ensures reached <= n
    ensures forall i :: 0 <= i < reached ==> elapsed(i) <= budget
    ensures reached < n ==> elapsed(reached) > budget
  {
    if n == 0 then 0
    else
      var before := Reached(n - 1, elapsed, budget);
      if before == n - 1 && elapsed(n - 1) <= budget then n else before
  }

  lemma ReachedOne(queue: seq<Candidate>, i: nat, found: Candidate -> Found)
    requires i < |queue|
    ensures Prepared(queue[..i + 1], found)
         == Prepared(queue[..i], found) + if found(queue[i]) == Input then [queue[i]] else []
    ensures Skips(queue[..i + 1], found)
         == Skips(queue[..i], found)
            + if found(queue[i]).NotFit? then [Skip(queue[i], Unfit(found(queue[i]).why))] else []
  {
    assert queue[..i + 1][..i] == queue[..i];
  }

  lemma ExhaustedOne(queue: seq<Candidate>, reached: nat, i: nat)
    requires reached <= i < |queue|
    ensures Exhausted(queue[reached..i + 1]) == Exhausted(queue[reached..i]) + [Skip(queue[i], BudgetExhausted)]
    ensures Exhausted(queue[reached..reached]) == []
  {
  }

  method Prepare(queue: seq<Candidate>, found: Candidate -> Found, elapsed: int -> int, budget: int)
    returns (prepared: seq<Candidate>, skips: seq<Skip>, exhausted: bool)
    ensures var reached := Reached(|queue|, elapsed, budget);
            && (exhausted <==> reached < |queue|)
            && prepared == Prepared(queue[..reached], found)
            && skips == Skips(queue[..reached], found) + Exhausted(queue[reached..])
  {
    hide Prepared, Skips, Exhausted;
    prepared, skips, exhausted := [], [], false;
    ghost var reached := 0;
    NoneReached(queue, found);
    for i := 0 to |queue|
      invariant 0 <= reached <= i
      invariant if exhausted then reached < i && elapsed(reached) > budget else reached == i
      invariant forall j :: 0 <= j < reached ==> elapsed(j) <= budget
      invariant prepared == Prepared(queue[..reached], found)
      invariant skips == Skips(queue[..reached], found) + Exhausted(queue[reached..i])
    {
      var c := queue[i];
      ExhaustedOne(queue, reached, i);
      if exhausted || elapsed(i) > budget {
        exhausted := true;
        skips := skips + [Skip(c, BudgetExhausted)];
        continue;
      }
      ReachedOne(queue, i, found);
      NoneExhausted(queue, i + 1);
      reached := i + 1;
      if found(c).NotFit? {
        skips := skips + [Skip(c, Unfit(found(c).why))];
      } else if found(c) == Input {
        prepared := prepared + [c];
      }
    }
    assert queue[reached..|queue|] == queue[reached..];
    assert reached == Reached(|queue|, elapsed, budget);
  }

  lemma NoneReached(queue: seq<Candidate>, found: Candidate -> Found)
    ensures Prepared(queue[..0], found) == [] && Skips(queue[..0], found) == [] && Exhausted(queue[0..0]) == []
  {
  }

  lemma NoneExhausted(queue: seq<Candidate>, i: nat)
    requires i <= |queue|
    ensures Exhausted(queue[i..i]) == []
  {
  }

  lemma {:induction false} EveryReached(queue: seq<Candidate>, found: Candidate -> Found)
    ensures |Prepared(queue, found)| + |Skips(queue, found)| + Dropped(queue, found) == |queue|
  {
    if queue == [] {
    } else {
      EveryReached(queue[..|queue| - 1], found);
    }
  }

  // ------------------------------------------------------------------ written account by account

  ghost function WrittenIn(prepared: seq<Candidate>, answered: int -> bool, tenants: set<int>): multiset<Candidate> {
    if prepared == [] then multiset{}
    else
      var n := |prepared| - 1;
      WrittenIn(prepared[..n], answered, tenants)
      + if prepared[n].tenant in tenants && answered(n) then multiset{prepared[n]} else multiset{}
  }

  ghost function RefusedIn(prepared: seq<Candidate>, answered: int -> bool, tenants: set<int>): multiset<Skip> {
    if prepared == [] then multiset{}
    else
      var n := |prepared| - 1;
      RefusedIn(prepared[..n], answered, tenants)
      + if prepared[n].tenant in tenants && !answered(n) then multiset{Skip(prepared[n], Refused)} else multiset{}
  }

  function Own(skips: seq<Skip>, tenant: int): seq<Skip> {
    if skips == [] then []
    else Own(skips[..|skips| - 1], tenant) + if skips[|skips| - 1].c.tenant == tenant then [skips[|skips| - 1]] else []
  }

  ghost function SkipsIn(skips: seq<Skip>, tenants: set<int>): multiset<Skip> {
    if skips == [] then multiset{}
    else
      var s := skips[|skips| - 1];
      SkipsIn(skips[..|skips| - 1], tenants) + if s.c.tenant in tenants then multiset{s} else multiset{}
  }

  lemma {:induction false} OneMoreWritten(prepared: seq<Candidate>, answered: int -> bool, tenants: set<int>,
      tenant: int)
    requires tenant !in tenants
    ensures WrittenIn(prepared, answered, tenants + {tenant})
         == WrittenIn(prepared, answered, tenants) + WrittenIn(prepared, answered, {tenant})
  {
    if prepared == [] {
    } else {
      OneMoreWritten(prepared[..|prepared| - 1], answered, tenants, tenant);
    }
  }

  lemma {:induction false} OneMoreRefused(prepared: seq<Candidate>, answered: int -> bool, tenants: set<int>,
      tenant: int)
    requires tenant !in tenants
    ensures RefusedIn(prepared, answered, tenants + {tenant})
         == RefusedIn(prepared, answered, tenants) + RefusedIn(prepared, answered, {tenant})
  {
    if prepared == [] {
    } else {
      OneMoreRefused(prepared[..|prepared| - 1], answered, tenants, tenant);
    }
  }

  lemma {:induction false} OwnSkips(skips: seq<Skip>, tenants: set<int>, tenant: int)
    requires tenant !in tenants
    ensures SkipsIn(skips, tenants + {tenant}) == SkipsIn(skips, tenants) + multiset(Own(skips, tenant))
  {
    if skips == [] {
    } else {
      OwnSkips(skips[..|skips| - 1], tenants, tenant);
    }
  }

  lemma {:induction false} SkipsOfBoth(a: seq<Skip>, b: seq<Skip>, tenants: set<int>)
    ensures SkipsIn(a + b, tenants) == SkipsIn(a, tenants) + SkipsIn(b, tenants)
  {
    if b == [] {
      assert a + b == a;
    } else {
      assert (a + b)[..|a + b| - 1] == a + b[..|b| - 1];
      SkipsOfBoth(a, b[..|b| - 1], tenants);
    }
  }

  /** A tenant's forecasts to write, and its refusals to record. */
  function WrittenFor(prepared: seq<Candidate>, answered: int -> bool, tenant: int): seq<Candidate> {
    if prepared == [] then []
    else
      var n := |prepared| - 1;
      WrittenFor(prepared[..n], answered, tenant)
      + if prepared[n].tenant == tenant && answered(n) then [prepared[n]] else []
  }

  function RefusalsFor(prepared: seq<Candidate>, answered: int -> bool, tenant: int): seq<Skip> {
    if prepared == [] then []
    else
      var n := |prepared| - 1;
      RefusalsFor(prepared[..n], answered, tenant)
      + if prepared[n].tenant == tenant && !answered(n) then [Skip(prepared[n], Refused)] else []
  }

  lemma {:induction false} TenantWritten(prepared: seq<Candidate>, answered: int -> bool, tenant: int)
    ensures multiset(WrittenFor(prepared, answered, tenant)) == WrittenIn(prepared, answered, {tenant})
  {
    if prepared == [] {
    } else {
      TenantWritten(prepared[..|prepared| - 1], answered, tenant);
    }
  }

  lemma {:induction false} TenantRefused(prepared: seq<Candidate>, answered: int -> bool, tenant: int)
    ensures multiset(RefusalsFor(prepared, answered, tenant)) == RefusedIn(prepared, answered, {tenant})
    ensures forall s :: s in RefusalsFor(prepared, answered, tenant) ==> s.c.tenant == tenant
  {
    if prepared == [] {
    } else {
      TenantRefused(prepared[..|prepared| - 1], answered, tenant);
    }
  }

  lemma {:induction false} NotTheirs(skips: seq<Skip>, tenants: set<int>)
    requires forall s :: s in skips ==> s.c.tenant !in tenants
    ensures SkipsIn(skips, tenants) == multiset{}
  {
    if skips == [] {
    } else {
      var n := |skips| - 1;
      assert skips == skips[..n] + [skips[n]];
      NotTheirs(skips[..n], tenants);
    }
  }

  lemma {:induction false} AllTenants(prepared: seq<Candidate>, answered: int -> bool, tenants: set<int>)
    requires forall c :: c in prepared ==> c.tenant in tenants
    ensures |WrittenIn(prepared, answered, tenants)| + |RefusedIn(prepared, answered, tenants)| == |prepared|
  {
    if prepared == [] {
    } else {
      var n := |prepared| - 1;
      assert prepared == prepared[..n] + [prepared[n]];
      AllTenants(prepared[..n], answered, tenants);
    }
  }

  lemma {:induction false} AllSkips(skips: seq<Skip>, tenants: set<int>)
    requires forall s :: s in skips ==> s.c.tenant in tenants
    ensures SkipsIn(skips, tenants) == multiset(skips)
  {
    if skips == [] {
    } else {
      var n := |skips| - 1;
      assert skips == skips[..n] + [skips[n]];
      AllSkips(skips[..n], tenants);
    }
  }

  /**
    A tenant's part of the writing: its answered forecasts, its refusals added to the skips, then all its
    skips recorded.
   */
  method WriteTenant(prepared: seq<Candidate>, answered: int -> bool, tenant: int, was: seq<Skip>)
    returns (written: seq<Candidate>, skips: seq<Skip>, own: seq<Skip>, refused: int)
    ensures written == WrittenFor(prepared, answered, tenant)
    ensures skips == was + RefusalsFor(prepared, answered, tenant)
    ensures refused == |RefusalsFor(prepared, answered, tenant)|
    ensures own == Own(skips, tenant)
  {
    written, skips, refused := [], was, 0;
    for i := 0 to |prepared|
      invariant written == WrittenFor(prepared[..i], answered, tenant)
      invariant skips == was + RefusalsFor(prepared[..i], answered, tenant)
      invariant refused == |RefusalsFor(prepared[..i], answered, tenant)|
    {
      var c := prepared[i];
      assert prepared[..i + 1][..i] == prepared[..i];
      if c.tenant != tenant {
        continue;
      }
      if !answered(i) {
        skips := skips + [Skip(c, Refused)];
        refused := refused + 1;
        continue;
      }
      written := written + [c];
    }
    assert prepared[..|prepared|] == prepared;
    own := Own(skips, tenant);
  }

  /** What the tenants done so far have had written and recorded, and what is still to be recorded. */
  ghost predicate Done(prepared: seq<Candidate>, answered: int -> bool, first: seq<Skip>, tenants: set<int>,
                       written: seq<Candidate>, skips: seq<Skip>, recorded: seq<Skip>, refused: int) {
    && multiset(written) == WrittenIn(prepared, answered, tenants)
    && multiset(skips) == multiset(first) + RefusedIn(prepared, answered, tenants)
    && multiset(recorded) == SkipsIn(skips, tenants)
    && refused == |RefusedIn(prepared, answered, tenants)|
  }

  lemma TenantDone(prepared: seq<Candidate>, answered: int -> bool, first: seq<Skip>, tenants: set<int>, tenant: int,
                   written: seq<Candidate>, skips: seq<Skip>, recorded: seq<Skip>, refused: int)
    requires Done(prepared, answered, first, tenants, written, skips, recorded, refused) && tenant !in tenants
    ensures var more := RefusalsFor(prepared, answered, tenant);
            Done(prepared, answered, first, tenants + {tenant}, written + WrittenFor(prepared, answered, tenant),
              skips + more,
                 recorded + Own(skips + more, tenant), refused + |more|)
  {
    hide WrittenIn, RefusedIn, SkipsIn, Own, WrittenFor, RefusalsFor;
    var more := RefusalsFor(prepared, answered, tenant);
    OneMoreWritten(prepared, answered, tenants, tenant);
    OneMoreRefused(prepared, answered, tenants, tenant);
    TenantWritten(prepared, answered, tenant);
    TenantRefused(prepared, answered, tenant);
    OwnSkips(skips + more, tenants, tenant);
    SkipsOfBoth(skips, more, tenants);
    NotTheirs(more, tenants);
    assert |more| == |multiset(more)|;
  }

  lemma {:induction false} NothingDone(prepared: seq<Candidate>, answered: int -> bool, first: seq<Skip>)
    ensures Done(prepared, answered, first, {}, [], first, [], 0)
  {
    NoTenants(prepared, answered);
    NotTheirs(first, {});
  }

  lemma {:induction false} NoTenants(prepared: seq<Candidate>, answered: int -> bool)
    ensures WrittenIn(prepared, answered, {}) == multiset{} && RefusedIn(prepared, answered, {}) == multiset{}
  {
    if prepared == [] {
    } else {
      NoTenants(prepared[..|prepared| - 1], answered);
    }
  }

  /** With every tenant done: each prepared signal written or refused, each skip recorded once. */
  lemma EverythingDone(prepared: seq<Candidate>, answered: int -> bool, first: seq<Skip>, tenants: set<int>,
                       written: seq<Candidate>, skips: seq<Skip>, recorded: seq<Skip>, refused: int)
    requires Done(prepared, answered, first, tenants, written, skips, recorded, refused)
    requires (forall c :: c in prepared ==> c.tenant in tenants) && forall s :: s in first ==> s.c.tenant in tenants
    ensures multiset(recorded) == multiset(skips)
    ensures |written| + refused == |prepared| && |skips| == |first| + refused && |recorded| == |skips|
  {
    hide WrittenIn, SkipsIn;
    AllTenants(prepared, answered, tenants);
    RefusedTenants(prepared, answered, tenants);
    forall s | s in skips ensures s.c.tenant in tenants {
      assert s in multiset(skips);
    }
    AllSkips(skips, tenants);
    assert |written| == |multiset(written)| && |skips| == |multiset(skips)| && |recorded| == |multiset(recorded)|;
    assert |first| == |multiset(first)|;
  }

  lemma {:induction false} RefusedTenants(prepared: seq<Candidate>, answered: int -> bool, tenants: set<int>)
    ensures forall s :: s in RefusedIn(prepared, answered, tenants) ==> s.c.tenant in tenants
  {
    if prepared == [] {
    } else {
      RefusedTenants(prepared[..|prepared| - 1], answered, tenants);
    }
  }

  // ------------------------------------------------------------------ the whole pass

  /**
    What the worker gives back: nothing it can use, an answer from other weights, or which of the asked it
    forecast.
   */
  datatype Reply = NoAnswer | WrongWeights | Answers(answered: int -> bool)

  datatype Outcome = Completed | OutOfBudget | PassFailed

  function TenantsOf(prepared: seq<Candidate>, skips: seq<Skip>): set<int> {
    (set c | c in prepared :: c.tenant) + (set s | s in skips :: s.c.tenant)
  }

  method WriteAll(prepared: seq<Candidate>, answered: int -> bool, first: seq<Skip>)
    returns (written: seq<Candidate>, skips: seq<Skip>, recorded: seq<Skip>, refused: int)
    ensures Done(prepared, answered, first, TenantsOf(prepared, first), written, skips, recorded, refused)
    ensures multiset(recorded) == multiset(skips)
    ensures |written| + refused == |prepared| && |skips| == |first| + refused && |recorded| == |skips|
  {
    hide Done;
    written, skips, recorded, refused := [], first, [], 0;
    var tenants := TenantsOf(prepared, first);
    var left := tenants;
    NothingDone(prepared, answered, first);
    assert tenants - left == {};
    while left != {}
      invariant left <= tenants
      invariant Done(prepared, answered, first, tenants - left, written, skips, recorded, refused)
    {
      SomeMember(left);
      var tenant: int :| tenant in left;
      TenantDone(prepared, answered, first, tenants - left, tenant, written, skips, recorded, refused);
      assert tenants - (left - {tenant}) == (tenants - left) + {tenant};
      left := left - {tenant};
      var more, own, no;
      more, skips, own, no := WriteTenant(prepared, answered, tenant, skips);
      written, recorded, refused := written + more, recorded + own, refused + no;
    }
    assert tenants - left == tenants;
    EverythingDone(prepared, answered, first, tenants, written, skips, recorded, refused);
  }

  /**
    The candidates a pass owes, in order; those begun before the budget ran out are the first
    `reached` of them. Unless the worker fails the pass, every owed candidate is forecast, recorded
    once as skipped, or found not owed after all; if it does, nothing is written or recorded.
   */
  method RunPass(candidates: seq<Candidate>, now: int, found: Candidate -> Found, elapsed: int -> int, budget: int,
      reply: Reply)
    returns (outcome: Outcome, forecast: int, skipped: int, refused: int, written: seq<Candidate>, recorded: seq<Skip>,
             ghost queue: seq<Candidate>)
    ensures queue == Queue(Owed(candidates, now))
    ensures outcome == PassFailed <==>
              Prepared(queue[..Reached(|queue|, elapsed, budget)], found) != [] && !reply.Answers?
    ensures outcome == PassFailed ==> written == [] && recorded == [] && forecast == 0 && skipped == 0 && refused == 0
    ensures outcome != PassFailed ==>
      var reached := Reached(|queue|, elapsed, budget);
      && outcome == (if reached < |queue| then OutOfBudget else Completed)
      && forecast == |written| && skipped == |recorded|
      && forecast + skipped + Dropped(queue[..reached], found) == |queue|
    ensures outcome != PassFailed && !reply.Answers? ==>
      var reached := Reached(|queue|, elapsed, budget);
      && written == [] && refused == 0
      && multiset(recorded) == multiset(Skips(queue[..reached], found) + Exhausted(queue[reached..]))
    ensures outcome != PassFailed && reply.Answers? ==>
      var reached := Reached(|queue|, elapsed, budget);
      var prepared, first := Prepared(queue[..reached], found),
          Skips(queue[..reached], found) + Exhausted(queue[reached..]);
      && multiset(written) == WrittenIn(prepared, reply.answered, TenantsOf(prepared, first))
      && multiset(recorded) == multiset(first) + RefusedIn(prepared, reply.answered, TenantsOf(prepared, first))
      && refused == |RefusedIn(prepared, reply.answered, TenantsOf(prepared, first))|
  {
    hide Owed, Queue, Prepared, Skips, Dropped, WrittenIn, RefusedIn, SkipsIn, TenantsOf;
    var owed := Queue(Owed(candidates, now));
    queue := owed;
    forecast, skipped, refused, written, recorded := 0, 0, 0, [], [];
    var prepared, first, exhausted;
    prepared, first, exhausted := Prepare(owed, found, elapsed, budget);
    if prepared != [] && !reply.Answers? {
      return PassFailed, 0, 0, 0, [], [], owed;
    }
    var answered := if reply.Answers? then reply.answered else (i: int) => false;
    var skips;
    written, skips, recorded, refused := WriteAll(prepared, answered, first);
    forecast, skipped := |written|, |skips|;
    outcome := if exhausted then OutOfBudget else Completed;
    EveryReached(queue[..Reached(|queue|, elapsed, budget)], found);
    if prepared == [] {
      NoneAnswered(answered, TenantsOf(prepared, first));
    }
  }

  lemma NoneAnswered(answered: int -> bool, tenants: set<int>)
    ensures WrittenIn([], answered, tenants) == multiset{} && RefusedIn([], answered, tenants) == multiset{}
  {
  }
}
