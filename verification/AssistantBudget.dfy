/**
  The assistant's daily allowance and its answering loop (`assistant.service.ts`). The allowance is
  a conditional count at the start of a request and an unconditional spend at its end; requests of
  one account run at once. The model's answers are a parameter.
 */
module AssistantBudget {
  import opened Options

  // ------------------------------------------------------------------ the allowance

  /** One account: the tokens spent each day, and the admitted requests that have not spent yet, with their day. */
  datatype Account = Account(tokens: map<int, int>, inFlight: map<int, int>)

  datatype Action = Reserve(request: int, day: int) | Spend(request: int, tokens: int) | Die(request: int)

  function Spent(a: Account, day: int): int {
    if day in a.tokens then a.tokens[day] else 0
  }

  function Running(inFlight: map<int, int>, day: int): set<int> {
    set r | r in inFlight && inFlight[r] == day
  }

  /** The conditional upsert: a new day's row always goes in, an existing one only below the limit. */
  predicate Admits(a: Account, day: int, limit: int) {
    limit > 0 && (day !in a.tokens || a.tokens[day] < limit)
  }

  /** Each request spends at most `most` tokens, and at most `k` of a day's requests run at once. */
  ghost predicate Enabled(a: Account, x: Action, most: int, k: int) {
    match x
    case Reserve(r, day) => r !in a.inFlight && |Running(a.inFlight, day)| < k
    case Spend(r, tokens) => r in a.inFlight && 0 <= tokens <= most
    case Die(r) => r in a.inFlight
  }

  function Next(a: Account, x: Action, limit: int): Account
    requires !x.Reserve? ==> x.request in a.inFlight
  {
    match x
    case Reserve(r, day) =>
      if Admits(a, day, limit) then Account(a.tokens[day := Spent(a, day)], a.inFlight[r := day]) else a
    case Spend(r, tokens) =>
      var day := a.inFlight[r];
      Account(if day in a.tokens then a.tokens[day := a.tokens[day] + tokens] else a.tokens, a.inFlight - {r})
    case Die(r) => Account(a.tokens, a.inFlight - {r})
  }

  /** What the day has spent and what those still running may yet spend. */
  function Exposure(a: Account, day: int, most: int): int {
    Spent(a, day) + |Running(a.inFlight, day)| * most
  }

  ghost predicate Bounded(a: Account, limit: int, most: int, k: int) {
    forall day :: Exposure(a, day, most) <= limit - 1 + k * most && Spent(a, day) >= 0
  }

  lemma RunningAfter(inFlight: map<int, int>, r: int, day: int, d: int)
    requires r !in inFlight
    ensures |Running(inFlight[r := day], d)| == |Running(inFlight, d)| + if d == day then 1 else 0
  {
    assert Running(inFlight[r := day], d) == Running(inFlight, d) + if d == day then {r} else {};
  }

  lemma RunningWithout(inFlight: map<int, int>, r: int, d: int)
    requires r in inFlight
    ensures |Running(inFlight - {r}, d)| == |Running(inFlight, d)| - if d == inFlight[r] then 1 else 0
  {
    assert Running(inFlight - {r}, d) == Running(inFlight, d) - {r};
    if d == inFlight[r] {
      assert r in Running(inFlight, d);
    }
  }

  lemma Times(n: int, m: int, most: int)
    requires n <= m && most >= 0
    ensures n * most <= m * most && (n + 1) * most == n * most + most && (n - 1) * most == n * most - most
  {
  }

  lemma StepKeeps(a: Account, x: Action, limit: int, most: int, k: int)
    requires most >= 0 && Bounded(a, limit, most, k) && Enabled(a, x, most, k)
    ensures Bounded(Next(a, x, limit), limit, most, k)
  {
    hide Running;
    var t := Next(a, x, limit);
    forall day ensures Exposure(t, day, most) <= limit - 1 + k * most && Spent(t, day) >= 0 {
      var n := |Running(a.inFlight, day)|;
      assert Exposure(a, day, most) <= limit - 1 + k * most;
      Times(n, n, most);
      if x.Reserve? {
        RunningAfter(a.inFlight, x.request, x.day, day);
        if x.day == day {
          Times(n + 1, k, most);
        }
      } else {
        RunningWithout(a.inFlight, x.request, day);
      }
    }
  }

  ghost predicate IsRun(accounts: seq<Account>, actions: seq<Action>, limit: int, most: int, k: int) {
    && |accounts| == |actions| + 1 && accounts[0] == Account(map[], map[])
    && forall i :: 0 <= i < |actions| ==>
      Enabled(accounts[i], actions[i], most, k) && accounts[i + 1] == Next(accounts[i], actions[i], limit)
  }

  /**
    However requests interleave, a day's spend stays below the limit plus what the requests in flight
    can still add: none is let in at or over the limit, and each let in spends its share once.
   */
  lemma SpendBounded(accounts: seq<Account>, actions: seq<Action>, limit: int, most: int, k: int, i: nat, day: int)
    requires limit > 0 && most >= 0 && k >= 0
    requires IsRun(accounts, actions, limit, most, k) && i < |accounts|
    ensures Spent(accounts[i], day) <= limit - 1 + k * most
  {
    RunKeeps(accounts, actions, limit, most, k, i);
    var n := |Running(accounts[i].inFlight, day)|;
    Times(0, n, most);
    assert Exposure(accounts[i], day, most) <= limit - 1 + k * most;
  }

  lemma {:induction false} RunKeeps(accounts: seq<Account>, actions: seq<Action>, limit: int, most: int, k: int, i: nat)
    requires limit > 0 && most >= 0 && k >= 0
    requires IsRun(accounts, actions, limit, most, k) && i < |accounts|
    ensures Bounded(accounts[i], limit, most, k)
  {
    hide Enabled, Next, Bounded;
    if i == 0 {
      NothingSpent(limit, most, k);
    } else {
      RunKeeps(accounts, actions, limit, most, k, i - 1);
      StepKeeps(accounts[i - 1], actions[i - 1], limit, most, k);
    }
  }

  lemma NothingSpent(limit: int, most: int, k: int)
    requires limit > 0 && most >= 0 && k >= 0
    ensures Bounded(Account(map[], map[]), limit, most, k)
  {
    Times(0, k, most);
    forall day ensures Exposure(Account(map[], map[]), day, most) == 0 {
      assert Running(map[], day) == {};
    }
  }

  lemma Extended(accounts: seq<Account>, actions: seq<Action>, x: Action, limit: int, most: int, k: int)
    returns (longer: seq<Account>, more: seq<Action>)
    requires IsRun(accounts, actions, limit, most, k) && Enabled(accounts[|accounts| - 1], x, most, k)
    ensures IsRun(longer, more, limit, most, k) && longer[|longer| - 1] == Next(accounts[|accounts| - 1], x, limit)
  {
    hide Running, Admits;
    longer, more := accounts + [Next(accounts[|accounts| - 1], x, limit)], actions + [x];
  }

  /** Requests `from + 1` to `to`, all of day 0. */
  function Requests(from: int, to: int): map<int, int>
    decreases if from < to then to - from else 0
  {
    if from >= to then map[] else Requests(from, to - 1)[to := 0]
  }

  /** The account on day 0 with `n` tokens spent and requests `from + 1` to `to` running. */
  function Midday(n: int, from: int, to: int): Account {
    Account(map[0 := n], Requests(from, to))
  }

  lemma {:induction false} RequestsAre(from: int, to: int)
    requires from <= to
    ensures forall r :: r in Requests(from, to) <==> from < r <= to
    ensures |Running(Requests(from, to), 0)| == to - from
    decreases if from < to then to - from else 0
  {
    if from < to {
      RequestsAre(from, to - 1);
      RunningAfter(Requests(from, to - 1), to, 0, 0);
    } else {
      assert Running(map[], 0) == {};
    }
  }

  lemma {:induction false} FirstDone(from: int, to: int)
    requires from < to
    ensures Requests(from, to) - {from + 1} == Requests(from + 1, to)
    decreases if from < to then to - from else 0
  {
    if from + 1 < to {
      FirstDone(from, to - 1);
    }
  }

  lemma {:induction false} AllToday(from: int, to: int, r: int)
    requires from < r <= to
    ensures r in Requests(from, to) && Requests(from, to)[r] == 0
    decreases if from < to then to - from else 0
  {
    if r < to {
      AllToday(from, to - 1, r);
    }
  }

  /** Requests of one token each bring the day to just below the limit. */
  lemma {:induction false} SpendUpTo(n: int, limit: int, most: int, k: int)
      returns (accounts: seq<Account>, actions: seq<Action>)
    requires 0 < n < limit && most >= 1 && k >= 1
    ensures IsRun(accounts, actions, limit, most, k) && accounts[|accounts| - 1] == Midday(n, 0, 0)
    decreases n
  {
    var open := Account(map[], map[]);
    accounts, actions := [open], [];
    if n > 1 {
      accounts, actions := SpendUpTo(n - 1, limit, most, k);
    }
    var was := accounts[|accounts| - 1];
    assert Running(was.inFlight, 0) == {};
    accounts, actions := Extended(accounts, actions, Reserve(0, 0), limit, most, k);
    accounts, actions := Extended(accounts, actions, Spend(0, 1), limit, most, k);
    assert accounts[|accounts| - 1].tokens == map[0 := n];
  }

  lemma {:induction false} AdmitMany(n: int, j: int, limit: int, most: int, k: int)
      returns (accounts: seq<Account>, actions: seq<Action>)
    requires 0 < n < limit && most >= 1 && 0 <= j <= k && k >= 1
    ensures IsRun(accounts, actions, limit, most, k) && accounts[|accounts| - 1] == Midday(n, 0, j)
    decreases j
  {
    if j == 0 {
      accounts, actions := SpendUpTo(n, limit, most, k);
    } else {
      accounts, actions := AdmitMany(n, j - 1, limit, most, k);
      RequestsAre(0, j - 1);
      accounts, actions := Extended(accounts, actions, Reserve(j, 0), limit, most, k);
    }
  }

  lemma {:induction false} SpendMany(n: int, j: int, limit: int, most: int, k: int)
      returns (accounts: seq<Account>, actions: seq<Action>)
    requires 0 < n < limit && most >= 1 && 0 <= j <= k && k >= 1
    ensures IsRun(accounts, actions, limit, most, k) && accounts[|accounts| - 1] == Midday(n + j * most, j, k)
    decreases j
  {
    if j == 0 {
      accounts, actions := AdmitMany(n, k, limit, most, k);
    } else {
      accounts, actions := SpendMany(n, j - 1, limit, most, k);
      RequestsAre(j - 1, k);
      AllToday(j - 1, k, j);
      accounts, actions := Extended(accounts, actions, Spend(j, most), limit, most, k);
      Times(j, j, most);
      FirstDone(j - 1, k);
    }
  }

  /**
    The bound is exact: with requests of the largest size let in together just below the limit, a day
    spends all of it.
   */
  lemma BoundReached(limit: int, most: int, k: int) returns (accounts: seq<Account>, actions: seq<Action>)
    requires limit > 1 && most >= 1 && k >= 1
    ensures IsRun(accounts, actions, limit, most, k) && Spent(accounts[|accounts| - 1], 0) == limit - 1 + k * most
  {
    accounts, actions := SpendMany(limit - 1, k, limit, most, k);
  }

  class Usage {
    var account: Account

    constructor ()
      ensures account == Account(map[], map[])
    {
      account := Account(map[], map[]);
    }

    method Reserve(request: int, day: int, limit: int) returns (admitted: bool)
      requires request !in account.inFlight
      modifies this
      ensures admitted <==> Admits(old(account), day, limit)
      ensures account == Next(old(account), Action.Reserve(request, day), limit)
    {
      if limit <= 0 {
        return false;
      }
      if day in account.tokens && account.tokens[day] >= limit {
        return false;
      }
      account := Account(account.tokens[day := Spent(account, day)], account.inFlight[request := day]);
      return true;
    }

    method Spend(request: int, tokens: int) returns (usedToday: int)
      requires request in account.inFlight
      modifies this
      ensures account == Next(old(account), Action.Spend(request, if tokens > 0 then tokens else 0), 0)
      ensures usedToday == Spent(account, old(account).inFlight[request])
    {
      var day, more := account.inFlight[request], if tokens > 0 then tokens else 0;
      var left := account.inFlight - {request};
      account := Account(
        if day in account.tokens then account.tokens[day := account.tokens[day] + more] else account.tokens,
        left);
      return Spent(account, day);
    }
  }

  // ------------------------------------------------------------------ one answer

  const MAX_ROUNDS: nat := 5
  const MAX_CALLS_PER_ROUND: nat := 5
  const MAX_PROPOSALS_PER_CHAT: nat := 10

  /** A tool the model asks for: a proposal that its service takes or refuses, or a lookup. */
  datatype Call = Propose(valid: bool) | Lookup

  /** What the model gives back in one round. */
  datatype Out = Out(tokens: int, calls: seq<Call>, text: string)

  function FirstCalls(calls: seq<Call>): seq<Call> {
    if |calls| > MAX_CALLS_PER_ROUND then calls[..MAX_CALLS_PER_ROUND] else calls
  }

  function TokensOf(outs: seq<Out>): int {
    if outs == [] then 0 else TokensOf(outs[..|outs| - 1]) + outs[|outs| - 1].tokens
  }

  function Runs(outs: seq<Out>): int {
    if outs == [] then 0 else Runs(outs[..|outs| - 1]) + |FirstCalls(outs[|outs| - 1].calls)|
  }

  /** Proposals made by running some calls one after another, when `made` were made before. */
  function Made(calls: seq<Call>, made: int): int {
    if calls == [] then made
    else
      var before := Made(calls[..|calls| - 1], made);
      if calls[|calls| - 1] == Propose(true) && before < MAX_PROPOSALS_PER_CHAT then before + 1 else before
  }

  /** A round runs its first five calls, or all of them when there are no more. */
  lemma FirstCallsExactly(calls: seq<Call>)
    ensures FirstCalls(calls) <= calls
    ensures |FirstCalls(calls)| == if |calls| < 5 then |calls| else 5
  {
  }

  function Valid(calls: seq<Call>): nat {
    if calls == [] then 0 else Valid(calls[..|calls| - 1]) + if calls[|calls| - 1] == Propose(true) then 1 else 0
  }

  /** Every valid proposal is made until ten have been. */
  lemma {:induction false} MadeExactly(calls: seq<Call>, made: int)
    requires made <= 10
    ensures Made(calls, made) == if made + Valid(calls) < 10 then made + Valid(calls) else 10
  {
    if calls == [] {
    } else {
      MadeExactly(calls[..|calls| - 1], made);
    }
  }

  /** The valid proposals among the calls that are run in some rounds. */
  function ValidIn(outs: seq<Out>): nat {
    if outs == [] then 0 else ValidIn(outs[..|outs| - 1]) + Valid(FirstCalls(outs[|outs| - 1].calls))
  }

  method RunCalls(calls: seq<Call>, was: int) returns (proposals: int)
    ensures proposals == Made(calls, was)
  {
    proposals := was;
    for i := 0 to |calls|
      invariant proposals == Made(calls[..i], was)
    {
      assert calls[..i + 1][..i] == calls[..i];
      if calls[i].Propose? && proposals < MAX_PROPOSALS_PER_CHAT && calls[i].valid {
        proposals := proposals + 1;
      }
    }
    assert calls[..|calls|] == calls;
  }

  lemma {:induction false} MadeAtMost(calls: seq<Call>, made: int)
    requires made <= MAX_PROPOSALS_PER_CHAT
    ensures made <= Made(calls, made) <= MAX_PROPOSALS_PER_CHAT
  {
    if calls == [] {
    } else {
      MadeAtMost(calls[..|calls| - 1], made);
    }
  }

  /**
    The answer is the first round that asks for no tool, or the last round allowed; every round
    before it asked for some. The request spends the tokens of the rounds it got an answer for,
    whether or not a round failed.
   */
  method Converse(model: int -> Option<Out>)
      returns (reply: Option<string>, tokens: int, modelCalls: int, toolRuns: int, proposals: int, ghost outs: seq<Out>)
    ensures 1 <= modelCalls <= 5 && |outs| <= modelCalls <= |outs| + 1
    ensures forall i :: 0 <= i < |outs| ==> model(i) == Some(outs[i])
    ensures forall i :: 0 <= i < modelCalls - 1 ==> outs[i].calls != []
    ensures tokens == TokensOf(outs)
    ensures toolRuns == Runs(outs[..modelCalls - 1]) <= 20
    ensures 0 <= proposals <= 10 && proposals <= toolRuns
    ensures var valid := ValidIn(outs[..modelCalls - 1]); proposals == if valid < 10 then valid else 10
    ensures reply.None? <==> model(modelCalls - 1).None?
    ensures reply.Some? ==>
      && |outs| == modelCalls && reply.value == outs[modelCalls - 1].text
      && (outs[modelCalls - 1].calls == [] || modelCalls == 5)
  {
    hide TokensOf, Runs, Made, Valid, ValidIn, FirstCalls;
    reply, tokens, modelCalls, toolRuns, proposals, outs := None, 0, 0, 0, 0, [];
    NothingRun();
    var round := 0;
    while round < MAX_ROUNDS && reply == None
      invariant 0 <= round <= MAX_ROUNDS
      invariant modelCalls == round == |outs|
      invariant round == MAX_ROUNDS ==> reply.Some?
      invariant forall i :: 0 <= i < |outs| ==> model(i) == Some(outs[i])
      invariant forall i :: 0 <= i < (if reply.Some? then round - 1 else round) ==> outs[i].calls != []
      invariant tokens == TokensOf(outs)
      invariant reply.Some? ==>
                round > 0 && reply.value == outs[round - 1].text && (outs[round - 1].calls == [] || round == MAX_ROUNDS)
      invariant toolRuns == Runs(if reply.Some? then outs[..round - 1] else outs)
      invariant toolRuns <= (if reply.Some? then round - 1 else round) * MAX_CALLS_PER_ROUND
      invariant 0 <= proposals <= MAX_PROPOSALS_PER_CHAT && proposals <= toolRuns
      invariant var valid := ValidIn(if reply.Some? then outs[..round - 1] else outs);
                proposals == if valid < 10 then valid else 10
      decreases MAX_ROUNDS - round
    {
      var last := round == MAX_ROUNDS - 1;
      modelCalls := modelCalls + 1;
      if model(round).None? {
        assert outs[..modelCalls - 1] == outs;
        return;
      }
      var out := model(round).value;
      ghost var before := outs;
      outs := outs + [out];
      assert outs[..round] == before;
      OneMoreRun(before, out);
      FirstCallsExactly(out.calls);
      tokens := tokens + out.tokens;
      if out.calls != [] && !last {
        var calls := FirstCalls(out.calls);
        MadeAtMost(calls, proposals);
        MadeNoMore(calls, proposals);
        MadeExactly(calls, proposals);
        proposals := RunCalls(calls, proposals);
        toolRuns := toolRuns + |calls|;
      } else {
        reply := Some(out.text);
      }
      round := round + 1;
    }
  }

  lemma NothingRun()
    ensures TokensOf([]) == 0 && Runs([]) == 0 && ValidIn([]) == 0
  {
  }

  lemma OneMoreRun(outs: seq<Out>, out: Out)
    ensures TokensOf(outs + [out]) == TokensOf(outs) + out.tokens
    ensures Runs(outs + [out]) == Runs(outs) + |FirstCalls(out.calls)|
    ensures ValidIn(outs + [out]) == ValidIn(outs) + Valid(FirstCalls(out.calls))
  {
    assert (outs + [out])[..|outs|] == outs;
  }

  lemma {:induction false} MadeNoMore(calls: seq<Call>, made: int)
    ensures Made(calls, made) <= made + |calls|
  {
    if calls == [] {
    } else {
      MadeNoMore(calls[..|calls| - 1], made);
    }
  }
}
