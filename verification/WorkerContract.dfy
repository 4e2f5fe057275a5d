/**
  The forecast worker's answer checked against the contract before anything is written
  (`validateResponse` in `forecast-worker.ts`). The answer is any JSON value.
 */
module WorkerContract {
  import opened Options

  /** A parsed JSON value. A number too large for a double parses to one that is not finite. */
  datatype Json =
    | Null
    | Bool(b: bool)
    | Number(finite: bool, x: real)
    | Text(s: string)
    | Items(items: seq<Json>)
    | Object(fields: map<string, Json>)

  datatype Request = Request(ids: set<string>, key: string, revision: string, predictionLength: nat)

  datatype Verdict = Accepted | Refused

  /** Reading a property: nothing when the value is no object or has no such property. */
  function Field(j: Json, name: string): Option<Json> {
    if j.Object? && name in j.fields then Some(j.fields[name]) else None
  }

  function TextOf(j: Option<Json>): Option<string> {
    if j.Some? && j.value.Text? then Some(j.value.s) else None
  }

  function ItemsOf(j: Option<Json>): Option<seq<Json>> {
    if j.Some? && j.value.Items? then Some(j.value.items) else None
  }

  predicate IsNum(j: Option<Json>) {
    j.Some? && j.value.Number? && j.value.finite
  }

  predicate IsHexDigit(c: char) {
    '0' <= c <= '9' || 'a' <= c <= 'f'
  }

  predicate IsSha256(s: string) {
    |s| == 64 && forall c :: c in s ==> IsHexDigit(c)
  }

  /** The model the answer names is the one asked for, with the digest of its weights. */
  predicate NamesModel(request: Request, model: Json) {
    && TextOf(Field(model, "key")) == Some(request.key)
    && TextOf(Field(model, "revision")) == Some(request.revision)
    && var weights := TextOf(Field(model, "weightsSha256"));
       weights.Some? && IsSha256(weights.value)
  }

  predicate Timed(timing: Json) {
    IsNum(Field(timing, "loadSeconds")) && IsNum(Field(timing, "inferSeconds"))
  }

  predicate FullForecast(request: Request, answer: Json) {
    var values := ItemsOf(Field(answer, "values"));
    && values.Some? && |values.value| == request.predictionLength
    && forall v :: v in values.value ==> IsNum(Some(v))
  }

  function IdsOf(answers: seq<Json>): (ids: seq<Option<string>>)
    ensures |ids| == |answers|
  {
    seq(|answers|, i requires 0 <= i < |answers| => TextOf(Field(answers[i], "id")))
  }

  ghost predicate Distinct(s: seq<Option<string>>) {
    forall i, j :: 0 <= i < j < |s| ==> s[i] != s[j]
  }

  /** Every id asked about is named exactly once among the answers, and no other. */
  ghost predicate Partition(asked: set<string>, ids: seq<Option<string>>) {
    && Distinct(ids)
    && (forall id :: id in ids ==> id.Some? && id.value in asked)
    && forall a :: a in asked ==> Some(a) in ids
  }

  ghost predicate Headed(request: Request, raw: Json) {
    && TextOf(Field(raw, "contract")) == Some("forecast-response.v1")
    && (var model := Field(raw, "model"); model.Some? && NamesModel(request, model.value))
    && ItemsOf(Field(raw, "series")).Some? && ItemsOf(Field(raw, "refused")).Some?
    && var timing := Field(raw, "timing"); timing.Some? && Timed(timing.value)
  }

  /** What an answer must be for a forecast to be written from it. */
  ghost predicate Acceptable(request: Request, raw: Json) {
    && Headed(request, raw)
    && var series, refused := ItemsOf(Field(raw, "series")).value, ItemsOf(Field(raw, "refused")).value;
       && Partition(request.ids, IdsOf(series) + IdsOf(refused))
       && (forall s :: s in series ==> FullForecast(request, s))
       && forall s :: s in refused ==> TextOf(Field(s, "reason")).Some?
  }

  /** The answers read so far are good, and their ids are the ones ticked off. */
  ghost predicate Ticked(asked: set<string>, ids: seq<Option<string>>, answered: set<string>) {
    && answered <= asked
    && |answered| == |ids|
    && Distinct(ids)
    && (forall id :: id in ids ==> id.Some? && id.value in answered)
    && forall a :: a in answered ==> Some(a) in ids
  }

  lemma Tick(asked: set<string>, ids: seq<Option<string>>, answered: set<string>, id: string)
    requires Ticked(asked, ids, answered) && id in asked && id !in answered
    ensures Ticked(asked, ids + [Some(id)], answered + {id})
  {
    var after := ids + [Some(id)];
    assert after[|ids|] == Some(id);
    forall a | a in answered ensures Some(a) in after {
      var i :| 0 <= i < |ids| && ids[i] == Some(a);
      assert after[i] == Some(a);
    }
  }

  /** Ids all ticked off without a clash are a partition exactly when none is left. */
  lemma AllTicked(asked: set<string>, ids: seq<Option<string>>, answered: set<string>)
    requires Ticked(asked, ids, answered)
    ensures |answered| == |asked| <==> Partition(asked, ids)
  {
    if |answered| == |asked| {
      SameSize(answered, asked);
    }
    if Partition(asked, ids) {
      assert asked <= answered by {
        forall a | a in asked ensures a in answered {
          assert Some(a) in ids;
        }
      }
      assert asked == answered;
    }
  }

  lemma SameSize(a: set<string>, b: set<string>)
    requires a <= b && |a| == |b|
    ensures a == b
  {
    assert a * b == a;
    assert |b - a| == 0;
    assert b - a == {};
  }

  /** An id nobody asked for, or one named before, spoils any list it is in. */
  lemma Spoiled(asked: set<string>, ids: seq<Option<string>>, answered: set<string>, next: Option<string>,
      rest: seq<Option<string>>)
    requires Ticked(asked, ids, answered)
    requires next.None? || next.value !in asked || next.value in answered
    ensures !Partition(asked, ids + [next] + rest)
  {
    var all := ids + [next] + rest;
    assert all[|ids|] == next;
    if next.Some? && next.value in answered {
      var i :| 0 <= i < |ids| && ids[i] == next;
      assert all[i] == next;
    }
  }

  lemma SpoiledForGood(asked: set<string>, ids: seq<Option<string>>, answered: set<string>, i: nat)
    requires i < |ids| && Ticked(asked, ids[..i], answered)
    requires ids[i].None? || ids[i].value !in asked || ids[i].value in answered
    ensures forall rest :: !Partition(asked, ids + rest)
  {
    hide Partition, Ticked;
    forall rest ensures !Partition(asked, ids + rest) {
      Spoiled(asked, ids[..i], answered, ids[i], ids[i + 1..] + rest);
      assert ids + rest == ids[..i] + [ids[i]] + (ids[i + 1..] + rest);
    }
  }

  /** Ticks off the forecast ids; nothing when one of them spoils the answer or a forecast is not full. */
  method TickSeries(request: Request, series: seq<Json>) returns (answered: Option<set<string>>)
    ensures answered.Some? ==>
      Ticked(request.ids, IdsOf(series), answered.value) && forall s :: s in series ==> FullForecast(request, s)
    ensures answered.None? ==>
      (exists s :: s in series && !FullForecast(request, s))
        || forall rest :: !Partition(request.ids, IdsOf(series) + rest)
  {
    hide Partition, Ticked, FullForecast, IdsOf;
    var ids := IdsOf(series);
    var done: set<string> := {};
    NoneTicked(request.ids);
    assert ids[..0] == [];
    for i := 0 to |series|
      invariant Ticked(request.ids, ids[..i], done)
      invariant forall j :: 0 <= j < i ==> FullForecast(request, series[j])
    {
      var id := ids[i];
      assert ids[..i + 1] == ids[..i] + [id];
      if id.None? || id.value !in request.ids || id.value in done {
        SpoiledForGood(request.ids, ids, done, i);
        return None;
      }
      if !FullForecast(request, series[i]) {
        return None;
      }
      Tick(request.ids, ids[..i], done, id.value);
      done := done + {id.value};
    }
    assert ids[..|series|] == ids;
    return Some(done);
  }

  /** Ticks off the refused ids after the forecast ones. */
  method TickRefused(request: Request, before: seq<Option<string>>, refused: seq<Json>, was: set<string>)
    returns (answered: Option<set<string>>)
    requires Ticked(request.ids, before, was)
    ensures answered.Some? ==>
      Ticked(request.ids, before + IdsOf(refused), answered.value) && forall s :: s in refused ==>
        TextOf(Field(s, "reason")).Some?
    ensures answered.None? ==>
      (exists s :: s in refused && TextOf(Field(s, "reason")).None?) || !Partition(request.ids, before + IdsOf(refused))
  {
    hide Partition, Ticked, IdsOf;
    var ids := IdsOf(refused);
    var done := was;
    assert before + ids[..0] == before;
    for i := 0 to |refused|
      invariant Ticked(request.ids, before + ids[..i], done)
      invariant forall j :: 0 <= j < i ==> TextOf(Field(refused[j], "reason")).Some?
    {
      var id := ids[i];
      assert before + ids[..i + 1] == (before + ids[..i]) + [id];
      if id.None? || id.value !in request.ids || id.value in done {
        Spoiled(request.ids, before + ids[..i], done, id, ids[i + 1..]);
        assert before + ids == (before + ids[..i]) + [id] + ids[i + 1..];
        return None;
      }
      if TextOf(Field(refused[i], "reason")).None? {
        assert refused[i] in refused;
        return None;
      }
      Tick(request.ids, before + ids[..i], done, id.value);
      done := done + {id.value};
    }
    assert ids[..|refused|] == ids;
    return Some(done);
  }

  method ValidateResponse(request: Request, raw: Json) returns (verdict: Verdict)
    ensures verdict == Accepted <==> Acceptable(request, raw)
  {
    hide Partition, Ticked, FullForecast, NamesModel, Timed, IdsOf;
    var contract, model, timing := TextOf(Field(raw, "contract")), Field(raw, "model"), Field(raw, "timing");
    if contract != Some("forecast-response.v1") {
      return Refused;
    }
    if model.None? || !NamesModel(request, model.value) {
      return Refused;
    }
    var series, refused := ItemsOf(Field(raw, "series")), ItemsOf(Field(raw, "refused"));
    if series.None? || refused.None? {
      return Refused;
    }
    if timing.None? || !Timed(timing.value) {
      return Refused;
    }
    var forecast := TickSeries(request, series.value);
    if forecast.None? {
      return Refused;
    }
    var answered := TickRefused(request, IdsOf(series.value), refused.value, forecast.value);
    if answered.None? {
      return Refused;
    }
    AllTicked(request.ids, IdsOf(series.value) + IdsOf(refused.value), answered.value);
    verdict := if |answered.value| != |request.ids| then Refused else Accepted;
  }

  lemma NoneTicked(asked: set<string>)
    ensures Ticked(asked, [], {})
  {
  }

  /** An accepted answer forecasts or refuses each asked id, never both and never another. */
  lemma AcceptedAnswersOnce(request: Request, raw: Json, id: string)
    requires Acceptable(request, raw)
    ensures var series, refused := IdsOf(ItemsOf(Field(raw, "series")).value),
              IdsOf(ItemsOf(Field(raw, "refused")).value);
            && (id in request.ids <==> (Some(id) in series || Some(id) in refused))
            && !(Some(id) in series && Some(id) in refused)
            && |series| + |refused| == |request.ids|
  {
    var series, refused := IdsOf(ItemsOf(Field(raw, "series")).value), IdsOf(ItemsOf(Field(raw, "refused")).value);
    var ids := series + refused;
    hide Headed, FullForecast, IdsOf, Field, ItemsOf;
    if Some(id) in series {
      OnlyOnce(series, refused, Some(id));
    }
    PartitionSize(request.ids, ids);
  }

  // ------------------------------------------------------------------ an answer as the worker writes it

  /** What a worker has to say, whatever it puts where numbers are due. */
  datatype Answer = Answer(contract: string, key: string, revision: string, weights: string,
      forecasts: seq<(string, seq<Json>)>, refusals: seq<(string, string)>, load: Json, infer: Json)

  function Written(a: Answer): Json {
    Object(map[
      "contract" := Text(a.contract),
      "model" := Object(map["key" := Text(a.key), "revision" := Text(a.revision), "weightsSha256" := Text(a.weights)]),
      "series" := Items(WrittenForecasts(a.forecasts)),
      "refused" := Items(WrittenRefusals(a.refusals)),
      "timing" := Object(map["loadSeconds" := a.load, "inferSeconds" := a.infer])])
  }

  function WrittenForecasts(forecasts: seq<(string, seq<Json>)>): (series: seq<Json>)
    ensures |series| == |forecasts|
  {
    seq(|forecasts|, i requires 0 <= i < |forecasts| =>
      Object(map["id" := Text(forecasts[i].0), "values" := Items(forecasts[i].1)]))
  }

  function WrittenRefusals(refusals: seq<(string, string)>): (refused: seq<Json>)
    ensures |refused| == |refusals|
  {
    seq(|refusals|, i requires 0 <= i < |refusals| =>
      Object(map["id" := Text(refusals[i].0), "reason" := Text(refusals[i].1)]))
  }

  function NamedIds(a: Answer): (ids: seq<string>)
    ensures |ids| == |a.forecasts| + |a.refusals|
  {
    seq(|a.forecasts|, i requires 0 <= i < |a.forecasts| => a.forecasts[i].0)
    + seq(|a.refusals|, i requires 0 <= i < |a.refusals| => a.refusals[i].0)
  }

  ghost predicate Finite(j: Json) {
    exists x :: j == Number(true, x)
  }

  /**
    What a worker writes is accepted exactly when it names the contract, the model asked for and a digest
    of sixty-four small hexadecimal digits, gives finite times, and answers each id asked about once:
    with as many finite values as were asked for, or a reason.
   */
  lemma WrittenAccepted(request: Request, a: Answer)
    ensures Acceptable(request, Written(a)) <==>
              && a.contract == "forecast-response.v1" && a.key == request.key && a.revision == request.revision
              && |a.weights| == 64 && (forall c :: c in a.weights ==> c in "0123456789abcdef")
              && Finite(a.load) && Finite(a.infer)
              && (forall i :: 0 <= i < |a.forecasts| ==>
                    && |a.forecasts[i].1| == request.predictionLength
                    && forall v :: v in a.forecasts[i].1 ==> Finite(v))
              && (forall i, j :: 0 <= i < j < |NamedIds(a)| ==> NamedIds(a)[i] != NamedIds(a)[j])
              && (forall id :: id in NamedIds(a) <==> id in request.ids)
  {
    hide Written, Headed, Partition, FullForecast, Finite, NamedIds, WrittenForecasts, WrittenRefusals;
    HeadWritten(request, a);
    IdsWritten(request, a);
    BodyWritten(request, a);
  }

  lemma HeadWritten(request: Request, a: Answer)
    ensures Headed(request, Written(a)) <==>
              && a.contract == "forecast-response.v1" && a.key == request.key && a.revision == request.revision
              && |a.weights| == 64 && (forall c :: c in a.weights ==> c in "0123456789abcdef")
              && Finite(a.load) && Finite(a.infer)
    ensures ItemsOf(Field(Written(a), "series")) == Some(WrittenForecasts(a.forecasts))
    ensures ItemsOf(Field(Written(a), "refused")) == Some(WrittenRefusals(a.refusals))
  {
    forall c ensures IsHexDigit(c) <==> c in "0123456789abcdef" {
      HexDigits(c);
    }
    forall j: Json ensures IsNum(Some(j)) <==> Finite(j) {
      if IsNum(Some(j)) {
        assert j == Number(true, j.x);
      }
    }
    var model, timing := Field(Written(a), "model"), Field(Written(a), "timing");
    assert model.Some? && timing.Some?;
    assert NamesModel(request, model.value) <==>
        a.key == request.key && a.revision == request.revision && IsSha256(a.weights);
    assert Timed(timing.value) <==> Finite(a.load) && Finite(a.infer);
  }

  lemma HexDigits(c: char)
    ensures IsHexDigit(c) <==> c in "0123456789abcdef"
  {
    var digits := "0123456789abcdef";
    if IsHexDigit(c) {
      var i := if c <= '9' then c as int - '0' as int else c as int - 'a' as int + 10;
      assert digits[i] == c;
    }
  }

  lemma BodyWritten(request: Request, a: Answer)
    ensures (forall s :: s in WrittenForecasts(a.forecasts) ==> FullForecast(request, s)) <==>
              forall i :: 0 <= i < |a.forecasts| ==>
                && |a.forecasts[i].1| == request.predictionLength
                && forall v :: v in a.forecasts[i].1 ==> Finite(v)
    ensures forall s :: s in WrittenRefusals(a.refusals) ==> TextOf(Field(s, "reason")).Some?
  {
    var series := WrittenForecasts(a.forecasts);
    forall j: Json ensures IsNum(Some(j)) <==> Finite(j) {
      if IsNum(Some(j)) {
        assert j == Number(true, j.x);
      }
    }
    forall i | 0 <= i < |series|
      ensures series[i] in series
      ensures FullForecast(request, series[i]) <==>
                && |a.forecasts[i].1| == request.predictionLength
                && forall v :: v in a.forecasts[i].1 ==> Finite(v)
    {
    }
  }

  lemma IdsWritten(request: Request, a: Answer)
    ensures Partition(request.ids, IdsOf(WrittenForecasts(a.forecasts)) + IdsOf(WrittenRefusals(a.refusals))) <==>
              && (forall i, j :: 0 <= i < j < |NamedIds(a)| ==> NamedIds(a)[i] != NamedIds(a)[j])
              && (forall id :: id in NamedIds(a) <==> id in request.ids)
  {
    var ids := IdsOf(WrittenForecasts(a.forecasts)) + IdsOf(WrittenRefusals(a.refusals));
    var named := NamedIds(a);
    assert |ids| == |named|;
    forall i | 0 <= i < |named| ensures ids[i] == Some(named[i]) {
    }
    forall id: string ensures Some(id) in ids <==> id in named {
      if Some(id) in ids {
        var i :| 0 <= i < |ids| && ids[i] == Some(id);
        assert named[i] == id;
      }
      if id in named {
        var i :| 0 <= i < |named| && named[i] == id;
        assert ids[i] == Some(id);
      }
    }
  }

  // ------------------------------------------------------------------ each id once

  lemma OnlyOnce(a: seq<Option<string>>, b: seq<Option<string>>, x: Option<string>)
    requires Distinct(a + b) && x in a
    ensures x !in b
  {
    var i :| 0 <= i < |a| && a[i] == x;
    forall j | 0 <= j < |b| ensures b[j] != x {
      assert (a + b)[i] == x && (a + b)[|a| + j] == b[j];
    }
  }

  lemma {:induction false} PartitionSize(asked: set<string>, ids: seq<Option<string>>)
    requires Partition(asked, ids)
    ensures |ids| == |asked|
    decreases |ids|
  {
    if ids == [] {
      assert forall a :: a in asked ==> Some(a) in ids;
      assert asked == {};
    } else {
      var last := ids[|ids| - 1];
      assert last in ids;
      var front := ids[..|ids| - 1];
      assert ids == front + [last];
      assert Partition(asked - {last.value}, front) by {
        forall id | id in front ensures id.Some? && id.value in asked - {last.value} {
          assert id in ids;
          var i :| 0 <= i < |front| && front[i] == id;
          assert ids[i] != ids[|ids| - 1];
        }
        forall a | a in asked - {last.value} ensures Some(a) in front {
          assert Some(a) in ids;
        }
      }
      PartitionSize(asked - {last.value}, front);
    }
  }
}
