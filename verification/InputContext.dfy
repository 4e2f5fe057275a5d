/**
  Filling a forecast's context (`buildContext` in `forecast-band.ts`): when one is refused, what
  stands at each step of one that is not, and what there is to count. Readings are reals.
 */
module InputContext {
  import opened Options
  import opened RealArithmetic

  const MIN_INPUT_COVERAGE: real := 0.5

  datatype Outcome =
    | Ready(values: seq<real>, coverage: real, imputed: int)
    | InsufficientCoverage(coverage: real)
    | GapAtEdge(coverage: real)

  /** The bucket of each step of the window, where there is one. */
  function Raw(buckets: map<int, real>, fromMs: int, steps: nat, stepMs: int): (raw: seq<Option<real>>)
    ensures |raw| == steps
  {
    seq(steps, i => var t := At(fromMs, i, stepMs); if t in buckets then Some(buckets[t]) else None)
  }

  function At(fromMs: int, i: int, stepMs: int): int {
    fromMs + i * stepMs
  }

  function Present(raw: seq<Option<real>>): nat {
    if raw == [] then 0 else Present(raw[..|raw| - 1]) + (if raw[|raw| - 1].Some? then 1 else 0)
  }

  function Coverage(raw: seq<Option<real>>): real
    requires raw != []
  {
    Present(raw) as real / |raw| as real
  }

  /** The value at step `j` of the straight line through steps `l` and `r`. */
  function Between(a: real, b: real, l: int, r: int, j: int): real
    requires l < r
  {
    a + (b - a) * (j - l) as real / (r - l) as real
  }

  /** Two readings with nothing read strictly between them. */
  predicate Neighbours(raw: seq<Option<real>>, l: int, r: int) {
    && 0 <= l < r < |raw| && raw[l].Some? && raw[r].Some?
    && forall j :: l < j < r ==> raw[j].None?
  }

  /** Up to step `last`, readings stand as they are and gaps lie on the line between their neighbours. */
  ghost predicate FilledTo(raw: seq<Option<real>>, values: seq<real>, last: int) {
    && |values| == |raw| && last < |raw|
    && (forall i :: 0 <= i < |raw| && raw[i].Some? ==> values[i] == raw[i].value)
    && forall l, r, j :: Neighbours(raw, l, r) && r <= last && l < j < r ==>
      values[j] == Between(raw[l].value, raw[r].value, l, r, j)
  }

  /** Refused exactly below the coverage floor, then exactly for want of a reading at an edge; else filled. */
  ghost predicate IsContext(raw: seq<Option<real>>, outcome: Outcome)
    requires raw != []
  {
    match outcome
    case InsufficientCoverage(c) => c == Coverage(raw) < MIN_INPUT_COVERAGE
    case GapAtEdge(c) => c == Coverage(raw) >= MIN_INPUT_COVERAGE && (raw[0].None? || raw[|raw| - 1].None?)
    case Ready(values, c, imputed) =>
      && c == Coverage(raw) >= MIN_INPUT_COVERAGE && raw[0].Some? && raw[|raw| - 1].Some?
      && FilledTo(raw, values, |raw| - 1) && imputed == |raw| - Present(raw)
  }

  method BuildContext(buckets: map<int, real>, fromMs: int, steps: nat, stepMs: int) returns (outcome: Outcome)
    requires steps > 0
    ensures IsContext(Raw(buckets, fromMs, steps, stepMs), outcome)
  {
    var raw := Raw(buckets, fromMs, steps, stepMs);
    var present := 0;
    for i := 0 to steps
      invariant present == Present(raw[..i])
    {
      assert raw[..i + 1][..i] == raw[..i];
      if raw[i].Some? {
        present := present + 1;
      }
    }
    assert raw[..steps] == raw;
    var coverage := present as real / steps as real;
    if coverage < MIN_INPUT_COVERAGE {
      return InsufficientCoverage(coverage);
    }
    if raw[0].None? || raw[steps - 1].None? {
      return GapAtEdge(coverage);
    }
    var values, imputed := Fill(raw);
    return Ready(values, coverage, imputed);
  }

  method Fill(raw: seq<Option<real>>) returns (filled: seq<real>, imputed: int)
    requires raw != [] && raw[0].Some? && raw[|raw| - 1].Some?
    ensures FilledTo(raw, filled, |raw| - 1)
    ensures imputed == |raw| - Present(raw)
  {
    hide FilledTo, Between;
    var values := new real[|raw|](i requires 0 <= i < |raw| => if raw[i].Some? then raw[i].value else 0.0);
    imputed := 0;
    var last := 0;
    StartsFilled(raw, values[..]);
    for i := 1 to |raw|
      invariant 0 <= last < i && raw[last].Some?
      invariant forall j :: last < j < i ==> raw[j].None?
      invariant FilledTo(raw, values[..], last)
      invariant imputed == last + 1 - Present(raw[..last + 1])
    {
      if raw[i].None? {
        continue;
      }
      ghost var before := values[..];
      for j := last + 1 to i
        invariant imputed == j - Present(raw[..last + 1])
        invariant forall k :: 0 <= k < |raw| && !(last < k < j) ==> values[k] == before[k]
        invariant forall k :: last < k < j ==> values[k] == Between(raw[last].value, raw[i].value, last, i, k)
      {
        values[j] := Between(raw[last].value, raw[i].value, last, i, j);
        imputed := imputed + 1;
      }
      FilledFurther(raw, before, values[..], last, i);
      GapCounts(raw, last, i);
      last := i;
    }
    assert raw[..|raw|] == raw;
    filled := values[..];
  }

  lemma StartsFilled(raw: seq<Option<real>>, values: seq<real>)
    requires |raw| == |values| > 0
    requires forall i :: 0 <= i < |raw| && raw[i].Some? ==> values[i] == raw[i].value
    ensures FilledTo(raw, values, 0)
  {
  }

  lemma FilledFurther(raw: seq<Option<real>>, before: seq<real>, after: seq<real>, last: int, i: int)
    requires FilledTo(raw, before, last) && Neighbours(raw, last, i) && |after| == |before|
    requires forall k :: 0 <= k < |raw| && !(last < k < i) ==> after[k] == before[k]
    requires forall k :: last < k < i ==> after[k] == Between(raw[last].value, raw[i].value, last, i, k)
    ensures FilledTo(raw, after, i)
  {
    hide Between;
    forall l, r, j | Neighbours(raw, l, r) && r <= i && l < j < r
      ensures after[j] == Between(raw[l].value, raw[r].value, l, r, j)
    {
      if r > last {
        NeighboursApart(raw, last, i, l, r);
      }
    }
  }

  /** Stretches between neighbouring readings do not overlap. */
  lemma NeighboursApart(raw: seq<Option<real>>, a: int, b: int, l: int, r: int)
    requires Neighbours(raw, a, b) && Neighbours(raw, l, r) && a < r <= b
    ensures l == a && r == b
  {
  }

  lemma {:induction false} GapCounts(raw: seq<Option<real>>, last: int, i: int)
    requires 0 <= last < i < |raw| && raw[i].Some? && forall j :: last < j < i ==> raw[j].None?
    ensures Present(raw[..i + 1]) == Present(raw[..last + 1]) + 1
  {
    GapEmpty(raw, last, i);
    assert raw[..i + 1][..i] == raw[..i];
  }

  lemma {:induction false} GapEmpty(raw: seq<Option<real>>, last: int, i: int)
    requires 0 <= last < i <= |raw| && forall j :: last < j < i ==> raw[j].None?
    ensures Present(raw[..i]) == Present(raw[..last + 1])
    decreases i
  {
    if i > last + 1 {
      GapEmpty(raw, last, i - 1);
      assert raw[..i][..i - 1] == raw[..i - 1];
    }
  }

  // ------------------------------------------------------------------ what a filled context promises

  lemma {:induction false} PreviousReading(raw: seq<Option<real>>, i: int) returns (l: int)
    requires 0 <= i < |raw| && raw[0].Some?
    ensures 0 <= l <= i && raw[l].Some? && forall j :: l < j <= i ==> raw[j].None?
    decreases i
  {
    l := i;
    if raw[i].None? {
      l := PreviousReading(raw, i - 1);
    }
  }

  lemma {:induction false} NextReading(raw: seq<Option<real>>, i: int) returns (r: int)
    requires 0 <= i < |raw| && raw[|raw| - 1].Some?
    ensures i <= r < |raw| && raw[r].Some? && forall j :: i <= j < r ==> raw[j].None?
    decreases |raw| - i
  {
    r := i;
    if raw[i].None? {
      r := NextReading(raw, i + 1);
    }
  }

  /** Every gap of a ready context has a reading on both sides, one pair of them nearest. */
  lemma GapHasNeighbours(raw: seq<Option<real>>, i: int) returns (l: int, r: int)
    requires 0 <= i < |raw| && raw[0].Some? && raw[|raw| - 1].Some? && raw[i].None?
    ensures Neighbours(raw, l, r) && l < i < r
    ensures forall a, b :: Neighbours(raw, a, b) && a < i < b ==> a == l && b == r
  {
    l := PreviousReading(raw, i);
    r := NextReading(raw, i);
  }

  /** How many readings there are, as a set of steps. */
  function Read(raw: seq<Option<real>>): set<int> {
    set i | 0 <= i < |raw| && raw[i].Some?
  }

  lemma {:induction false} PresentCounts(raw: seq<Option<real>>)
    ensures Present(raw) == |Read(raw)|
  {
    if raw == [] {
    } else {
      var n := |raw| - 1;
      PresentCounts(raw[..n]);
      assert Read(raw) == Read(raw[..n]) + if raw[n].Some? then {n} else {};
    }
  }

  /** The steps of the window whose hour has a bucket. */
  function StepsRead(buckets: map<int, real>, fromMs: int, steps: nat, stepMs: int): set<int> {
    set i | 0 <= i < steps && fromMs + stepMs * i in buckets
  }

  /**
    A context is refused for coverage exactly when fewer than half of its steps have a bucket, and
    otherwise for an edge exactly when its first or last step has none. If it is not, its readings are
    the buckets, and the values of a gap rise evenly between the two readings around it.
   */
  lemma ContextExactly(buckets: map<int, real>, fromMs: int, steps: nat, stepMs: int, outcome: Outcome)
    requires steps > 0 && IsContext(Raw(buckets, fromMs, steps, stepMs), outcome)
    ensures var read := StepsRead(buckets, fromMs, steps, stepMs);
            && outcome.coverage * steps as real == |read| as real
            && (outcome.InsufficientCoverage? <==> 2 * |read| < steps)
            && (outcome.Ready? <==> 2 * |read| >= steps && 0 in read && steps - 1 in read)
            && (outcome.Ready? ==>
                  && |outcome.values| == steps && outcome.imputed == steps - |read|
                  && (forall i :: i in read ==> outcome.values[i] == buckets[fromMs + stepMs * i])
                  && forall l, r, j :: l in read && r in read && l < j < r && (forall k :: l < k < r ==> k !in read) ==>
                       (outcome.values[j] - outcome.values[l]) * (r - l) as real
                         == (outcome.values[r] - outcome.values[l]) * (j - l) as real)
  {
    hide IsContext, Raw, StepsRead, Read;
    RefusedExactly(buckets, fromMs, steps, stepMs, outcome);
    if outcome.Ready? {
      FilledExactly(buckets, fromMs, steps, stepMs, outcome);
    }
  }

  lemma RefusedExactly(buckets: map<int, real>, fromMs: int, steps: nat, stepMs: int, outcome: Outcome)
    requires steps > 0 && IsContext(Raw(buckets, fromMs, steps, stepMs), outcome)
    ensures var read := StepsRead(buckets, fromMs, steps, stepMs);
            && outcome.coverage * steps as real == |read| as real
            && (outcome.InsufficientCoverage? <==> 2 * |read| < steps)
            && (outcome.Ready? <==> 2 * |read| >= steps && 0 in read && steps - 1 in read)
            && (outcome.Ready? ==> |outcome.values| == steps && outcome.imputed == steps - |read|)
  {
    hide Present, Raw, StepsRead, Read, Neighbours, Between;
    RawExactly(buckets, fromMs, steps, stepMs);
    PresentCounts(Raw(buckets, fromMs, steps, stepMs));
    Shared(|StepsRead(buckets, fromMs, steps, stepMs)|, steps);
  }

  lemma FilledExactly(buckets: map<int, real>, fromMs: int, steps: nat, stepMs: int, outcome: Outcome)
    requires steps > 0 && IsContext(Raw(buckets, fromMs, steps, stepMs), outcome) && outcome.Ready?
    ensures |outcome.values| == steps
    ensures var read := StepsRead(buckets, fromMs, steps, stepMs);
            && (forall i :: i in read ==> outcome.values[i] == buckets[fromMs + stepMs * i])
            && forall l, r, j :: l in read && r in read && l < j < r && (forall k :: l < k < r ==> k !in read) ==>
                 (outcome.values[j] - outcome.values[l]) * (r - l) as real
                   == (outcome.values[r] - outcome.values[l]) * (j - l) as real
  {
    hide Coverage, FilledTo, Raw, StepsRead, Read;
    var raw, read := Raw(buckets, fromMs, steps, stepMs), StepsRead(buckets, fromMs, steps, stepMs);
    RawExactly(buckets, fromMs, steps, stepMs);
    ReadingsStand(raw, outcome.values);
    forall l, r, j | l in read && r in read && l < j < r && forall k :: l < k < r ==> k !in read
      ensures (outcome.values[j] - outcome.values[l]) * (r - l) as real
           == (outcome.values[r] - outcome.values[l]) * (j - l) as real
    {
      assert Neighbours(raw, l, r);
      GapOnLine(raw, outcome.values, l, r, j);
    }
  }

  lemma RawExactly(buckets: map<int, real>, fromMs: int, steps: nat, stepMs: int)
    ensures var raw := Raw(buckets, fromMs, steps, stepMs);
            && StepsRead(buckets, fromMs, steps, stepMs) == Read(raw)
            && forall i :: 0 <= i < steps ==>
                 && (i in Read(raw) <==> raw[i].Some?)
                 && (raw[i].Some? ==> fromMs + stepMs * i in buckets && raw[i].value == buckets[fromMs + stepMs * i])
    ensures forall i :: i in StepsRead(buckets, fromMs, steps, stepMs) ==> 0 <= i < steps
  {
    forall i | 0 <= i < steps ensures At(fromMs, i, stepMs) == fromMs + stepMs * i {
      Commutes(stepMs, i);
    }
    var raw := Raw(buckets, fromMs, steps, stepMs);
    forall i | 0 <= i < steps
      ensures i in StepsRead(buckets, fromMs, steps, stepMs) <==> raw[i].Some?
      ensures raw[i].Some? ==> fromMs + stepMs * i in buckets && raw[i].value == buckets[fromMs + stepMs * i]
    {
      assert At(fromMs, i, stepMs) == fromMs + stepMs * i;
    }
  }

  lemma Commutes(a: int, b: int)
    ensures a * b == b * a
  {
  }

  lemma Shared(n: nat, steps: nat)
    requires steps > 0
    ensures n as real / steps as real * steps as real == n as real
    ensures n as real / steps as real < 0.5 <==> 2 * n < steps
  {
    var q, y := n as real / steps as real, steps as real;
    assert q * y == n as real;
    if q < 0.5 {
      StrictlyScaled(y, q, 0.5);
    } else {
      Scaled(y, 0.5, q);
    }
  }

  lemma ReadingsStand(raw: seq<Option<real>>, values: seq<real>)
    requires raw != [] && FilledTo(raw, values, |raw| - 1)
    ensures |values| == |raw| && forall i :: 0 <= i < |raw| && raw[i].Some? ==> values[i] == raw[i].value
  {
  }

  lemma GapOnLine(raw: seq<Option<real>>, values: seq<real>, l: int, r: int, j: int)
    requires raw != [] && FilledTo(raw, values, |raw| - 1) && Neighbours(raw, l, r) && l < j < r
    ensures (values[j] - values[l]) * (r - l) as real == (values[r] - values[l]) * (j - l) as real
  {
    var rise, y := (raw[r].value - raw[l].value) * (j - l) as real, (r - l) as real;
    assert values[j] == raw[l].value + rise / y;
    assert rise / y * y == rise;
  }

  lemma BetweenInside(a: real, b: real, l: int, r: int, j: int)
    requires l < j < r
    ensures (if a <= b then a else b) <= Between(a, b, l, r, j) <= if a <= b then b else a
  {
    var x, y := (j - l) as real, (r - l) as real;
    if a <= b {
      Share(b - a, x, y);
    } else {
      Share(a - b, x, y);
      Negated(a - b, x, y);
      assert b - a == -(a - b);
    }
  }

  lemma Share(d: real, x: real, y: real)
    requires d >= 0.0 && 0.0 <= x <= y && y > 0.0
    ensures 0.0 <= d * x / y <= d
  {
    Scaled(d, 0.0, x);
    Scaled(d, x, y);
    Divided(d * x, d, y);
  }

  lemma Divided(p: real, d: real, y: real)
    requires 0.0 <= p <= d * y && y > 0.0
    ensures 0.0 <= p / y <= d
  {
    var q := p / y;
    assert q * y == p;
    if q > d {
      StrictlyScaled(y, d, q);
    }
    if q < 0.0 {
      StrictlyScaled(y, q, 0.0);
    }
  }

  lemma Negated(d: real, x: real, y: real)
    requires y > 0.0
    ensures (-d) * x / y == -(d * x / y)
  {
    assert (-d) * x == -(d * x);
  }

  lemma FilledOnce(raw: seq<Option<real>>, a: seq<real>, b: seq<real>)
    requires raw != [] && raw[0].Some? && raw[|raw| - 1].Some?
    requires FilledTo(raw, a, |raw| - 1) && FilledTo(raw, b, |raw| - 1)
    ensures a == b
  {
    hide Between;
    forall i | 0 <= i < |raw| ensures a[i] == b[i] {
      if raw[i].None? {
        var l, r := GapHasNeighbours(raw, i);
      }
    }
  }

  /** The same buckets give the same context. */
  lemma OneContext(raw: seq<Option<real>>, a: Outcome, b: Outcome)
    requires raw != [] && IsContext(raw, a) && IsContext(raw, b)
    ensures a == b
  {
    hide FilledTo, Coverage, Present;
    if a.Ready? && b.Ready? {
      FilledOnce(raw, a.values, b.values);
    }
  }

  /** A ready context never leaves the range of the readings. */
  lemma ContextInRange(raw: seq<Option<real>>, context: Outcome, least: real, most: real)
    requires raw != [] && IsContext(raw, context) && context.Ready?
    requires forall i :: 0 <= i < |raw| && raw[i].Some? ==> least <= raw[i].value <= most
    ensures forall i :: 0 <= i < |raw| ==> least <= context.values[i] <= most
  {
    hide Between, Coverage, Present;
    forall i | 0 <= i < |raw| ensures least <= context.values[i] <= most {
      if raw[i].None? {
        var l, r := GapHasNeighbours(raw, i);
        BetweenInside(raw[l].value, raw[r].value, l, r, i);
      }
    }
  }
}
