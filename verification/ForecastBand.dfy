/**
  The residual band that says what is normal for a machine (`forecast-band.ts`): which hours are
  steady running, which residuals are clean, and what band is learned from them. Times are
  milliseconds, doubles are reals, and the warm-up length is a parameter, so that every property
  holds whatever its value.
 */
module ForecastBand {
  import opened Cadence
  import opened Options
  import opened Ordering
  import opened Quantiles

  const WARM_UP_HOURS: nat := 2
  const BASELINE_DAYS: int := 14
  const MIN_RESIDUALS_PER_LEAD: int := 20

  /** `operating` is nothing when the machine has no shift schedule. */
  datatype ResidualPoint = ResidualPoint(stepAt: int, lead: int, residual: real, operating: Option<bool>)

  datatype Range = Range(start: int, end: int)

  datatype Reason = NoShiftSchedule | NotYetEstablished

  datatype Band =
    | Established(span: Span, cleanDays: int, learnedFrom: int, learnedTo: int, byLead: map<int, Span>)
    | NotEstablished(reason: Reason, cleanDays: int)

  // ------------------------------------------------------------------ the first hours of a run

  function Ago(t: int, k: int): int {
    t - k * HOUR_MS
  }

  function Into(first: int, i: int): int {
    first + i * HOUR_MS
  }

  function Parked(points: seq<ResidualPoint>): set<int> {
    set p | p in points && p.operating == Some(false) :: p.stepAt
  }

  function Running(points: seq<ResidualPoint>): set<int> {
    set p | p in points && p.operating == Some(true) :: p.stepAt
  }

  /** Parked `k` hours ago, running every hour since, for some `k` up to the warm-up length. */
  ghost predicate Warming(parked: set<int>, running: set<int>, t: int, warmUp: nat) {
    exists k :: 1 <= k <= warmUp && Ago(t, k) in parked && RunningSince(running, t, k)
  }

  ghost predicate RunningSince(running: set<int>, t: int, k: int) {
    forall j :: 1 <= j < k ==> Ago(t, j) in running
  }

  ghost function RunStartHours(points: seq<ResidualPoint>, warmUp: nat): set<int> {
    set t | t in Running(points) && Warming(Parked(points), Running(points), t, warmUp)
  }

  method IsRunStart(parked: set<int>, running: set<int>, t: int, warmUp: nat) returns (start: bool)
    ensures start <==> Warming(parked, running, t, warmUp)
  {
    var k := 1;
    while k <= warmUp
      invariant 1 <= k <= warmUp + 1
      invariant RunningSince(running, t, k)
      invariant forall i :: 1 <= i < k ==> Ago(t, i) !in parked
    {
      if Ago(t, k) in parked {
        return true;
      }
      if Ago(t, k) !in running {
        return false;
      }
      k := k + 1;
    }
    return false;
  }

  /**
    In a run of operating hours from `first` on, the hour `i` hours in is a start exactly when the
    run is known to follow a parked hour and `i` is within the warm-up; so a run marks its first
    min(warm-up, length) hours, and a run after an hour nobody knows about marks none.
   */
  lemma WarmUpOfRun(points: seq<ResidualPoint>, warmUp: nat, first: int, i: nat)
    requires Parked(points) !! Running(points)
    requires Ago(first, 1) !in Running(points)
    requires forall j :: 0 <= j <= i ==> Into(first, j) in Running(points)
    ensures Into(first, i) in RunStartHours(points, warmUp) <==> Ago(first, 1) in Parked(points) && i < warmUp
  {
    hide Parked, Running;
    var parked, running, t := Parked(points), Running(points), Into(first, i);
    assert Ago(t, i + 1) == Ago(first, 1);
    if Ago(first, 1) in parked && i < warmUp {
      assert RunningSince(running, t, i + 1) by {
        forall j | 1 <= j < i + 1 ensures Ago(t, j) in running {
          assert Ago(t, j) == Into(first, i - j);
        }
      }
    }
    forall k | 0 <= k <= i ensures Ago(t, k) !in parked {
      assert Ago(t, k) == Into(first, i - k);
    }
  }

  // ------------------------------------------------------------------ clean residuals

  ghost predicate Steady(starts: set<int>, p: ResidualPoint) {
    p.operating == Some(true) && p.stepAt !in starts
  }

  predicate Excluded(excluded: seq<Range>, t: int) {
    exists x :: x in excluded && x.start <= t < x.end
  }

  ghost predicate Good(starts: set<int>, excluded: seq<Range>, p: ResidualPoint) {
    Steady(starts, p) && !Excluded(excluded, p.stepAt)
  }

  ghost function Kept(points: seq<ResidualPoint>, starts: set<int>, excluded: seq<Range>): seq<ResidualPoint> {
    if points == [] then []
    else (if Good(starts, excluded, points[0]) then [points[0]] else []) + Kept(points[1..], starts, excluded)
  }

  ghost function Clean(points: seq<ResidualPoint>, warmUp: nat, excluded: seq<Range>): seq<ResidualPoint> {
    Kept(points, RunStartHours(points, warmUp), excluded)
  }

  lemma {:induction false} KeptMembers(points: seq<ResidualPoint>, starts: set<int>, excluded: seq<Range>,
      p: ResidualPoint)
    ensures p in Kept(points, starts, excluded) <==> p in points && Good(starts, excluded, p)
  {
    hide Good;
    if points == [] {
    } else {
      KeptMembers(points[1..], starts, excluded, p);
      assert points == [points[0]] + points[1..];
    }
  }

  /** Clean are the running hours past their warm-up that every excluded window begins after or ends by. */
  lemma CleanExactly(points: seq<ResidualPoint>, warmUp: nat, excluded: seq<Range>, p: ResidualPoint)
    ensures p in Clean(points, warmUp, excluded) <==>
              && p in points && p.operating == Some(true) && p.stepAt !in RunStartHours(points, warmUp)
              && forall x :: x in excluded ==> p.stepAt < x.start || x.end <= p.stepAt
  {
    hide RunStartHours;
    KeptMembers(points, RunStartHours(points, warmUp), excluded, p);
  }

  lemma {:induction false} KeptAppend(a: seq<ResidualPoint>, b: seq<ResidualPoint>, starts: set<int>,
      excluded: seq<Range>)
    ensures Kept(a + b, starts, excluded) == Kept(a, starts, excluded) + Kept(b, starts, excluded)
  {
    hide Good;
    if a == [] {
      assert a + b == b;
    } else {
      var head := if Good(starts, excluded, a[0]) then [a[0]] else [];
      assert (a + b)[0] == a[0] && (a + b)[1..] == a[1..] + b;
      assert Kept(a + b, starts, excluded) == head + Kept(a[1..] + b, starts, excluded);
      KeptAppend(a[1..], b, starts, excluded);
    }
  }

  /** The residuals of some points, those of one lead time or of all. */
  function Drawn(points: seq<ResidualPoint>, lead: Option<int>): seq<real> {
    if points == [] then []
    else (if lead == None || lead == Some(points[0].lead) then [points[0].residual] else []) + Drawn(points[1..], lead)
  }

  lemma {:induction false} DrawnAppend(a: seq<ResidualPoint>, b: seq<ResidualPoint>, lead: Option<int>)
    ensures Drawn(a + b, lead) == Drawn(a, lead) + Drawn(b, lead)
  {
    if a == [] {
      assert a + b == b;
    } else {
      assert (a + b)[0] == a[0] && (a + b)[1..] == a[1..] + b;
      DrawnAppend(a[1..], b, lead);
    }
  }

  /** A residual is drawn as often as it is among the points, of the lead if one is asked for. */
  lemma {:induction false} DrawnExactly(points: seq<ResidualPoint>, lead: Option<int>, i: nat)
    requires i < |points| && (lead.Some? ==> points[i].lead == lead.value)
    ensures points[i].residual in Drawn(points, lead)
    ensures lead.None? ==> |Drawn(points, lead)| == |points| && Drawn(points, lead)[i] == points[i].residual
  {
    AllDrawn(points);
    if i > 0 {
      DrawnExactly(points[1..], lead, i - 1);
    }
  }

  lemma {:induction false} DrawnFrom(points: seq<ResidualPoint>, lead: Option<int>, x: real)
    requires x in Drawn(points, lead)
    ensures exists p :: p in points && p.residual == x && (lead.Some? ==> p.lead == lead.value)
  {
    if points[0].residual == x && (lead.Some? ==> points[0].lead == lead.value) {
    } else {
      DrawnFrom(points[1..], lead, x);
      assert points == [points[0]] + points[1..];
    }
  }

  lemma {:induction false} AllDrawn(points: seq<ResidualPoint>)
    ensures |Drawn(points, None)| == |points|
  {
    if points == [] {
    } else {
      AllDrawn(points[1..]);
    }
  }

  // ------------------------------------------------------------------ the band

  function DayOf(t: int): int {
    t / DAY_MS
  }

  /** Days are those of UTC. */
  lemma DayExactly(t: int, day: int)
    ensures DayOf(t) == day <==> day * 86_400_000 <= t < (day + 1) * 86_400_000
  {
  }

  function DaysOf(points: seq<ResidualPoint>): set<int> {
    set p | p in points :: DayOf(p.stepAt)
  }

  function LeadsOf(points: seq<ResidualPoint>): set<int> {
    set p | p in points :: p.lead
  }

  function Earliest(points: seq<ResidualPoint>): (t: int)
    requires points != []
    ensures exists p :: p in points && p.stepAt == t
    ensures forall p :: p in points ==> t <= p.stepAt
  {
    if |points| == 1 then points[0].stepAt
    else
      var rest := Earliest(points[1..]);
      if points[0].stepAt < rest then points[0].stepAt else rest
  }

  function Latest(points: seq<ResidualPoint>): (t: int)
    requires points != []
    ensures exists p :: p in points && p.stepAt == t
    ensures forall p :: p in points ==> p.stepAt <= t
  {
    if |points| == 1 then points[0].stepAt
    else
      var rest := Latest(points[1..]);
      if points[0].stepAt > rest then points[0].stepAt else rest
  }

  function ByLead(clean: seq<ResidualPoint>): map<int, Span> {
    map lead | lead in LeadsOf(clean) && |Drawn(clean, Some(lead))| >= MIN_RESIDUALS_PER_LEAD
      :: SpanOf(Drawn(clean, Some(lead)))
  }

  /** What is learned from clean residuals: no band before there are enough days of them. */
  ghost function BandFrom(clean: seq<ResidualPoint>): Band {
    var days := |DaysOf(clean)|;
    if days < BASELINE_DAYS then NotEstablished(NotYetEstablished, days)
    else
      assert DaysOf([]) == {};
      AllDrawn(clean);
      Established(SpanOf(Drawn(clean, None)), days, Earliest(clean), Latest(clean), ByLead(clean))
  }

  predicate NoSchedule(points: seq<ResidualPoint>) {
    points != [] && forall p :: p in points ==> p.operating == None
  }

  ghost function BandOf(points: seq<ResidualPoint>, warmUp: nat, excluded: seq<Range>): Band {
    if NoSchedule(points) then NotEstablished(NoShiftSchedule, 0) else BandFrom(Clean(points, warmUp, excluded))
  }

  // ------------------------------------------------------------------ learning it

  method FindRunStarts(points: seq<ResidualPoint>, warmUp: nat) returns (starts: set<int>)
    ensures starts == RunStartHours(points, warmUp)
  {
    hide Warming;
    var parked, running := Parked(points), Running(points);
    starts := {};
    for i := 0 to |points|
      invariant starts <= RunStartHours(points, warmUp)
      invariant forall j ::
                  0 <= j < i && points[j].stepAt in RunStartHours(points, warmUp) && points[j].operating == Some(true)
                  ==> points[j].stepAt in starts
    {
      if points[i].operating == Some(true) {
        var start := IsRunStart(parked, running, points[i].stepAt, warmUp);
        if start {
          starts := starts + {points[i].stepAt};
        }
      }
    }
  }

  ghost predicate Grouped(values: map<int, seq<real>>, points: seq<ResidualPoint>) {
    && values.Keys == LeadsOf(points)
    && forall lead :: lead in values ==> values[lead] == Drawn(points, Some(lead))
  }

  lemma {:induction false} LeadNotMet(points: seq<ResidualPoint>, lead: int)
    requires lead !in LeadsOf(points)
    ensures Drawn(points, Some(lead)) == []
  {
    if points == [] {
    } else {
      assert points == [points[0]] + points[1..];
      LeadNotMet(points[1..], lead);
    }
  }

  lemma GroupedStep(values: map<int, seq<real>>, points: seq<ResidualPoint>, p: ResidualPoint)
    requires Grouped(values, points)
    ensures Grouped(values[p.lead := (if p.lead in values then values[p.lead] else []) + [p.residual]], points + [p])
  {
    hide LeadsOf;
    var next := values[p.lead := (if p.lead in values then values[p.lead] else []) + [p.residual]];
    LeadsStep(points, p);
    forall lead | lead in next ensures next[lead] == Drawn(points + [p], Some(lead)) {
      DrawnAppend(points, [p], Some(lead));
      if lead !in values {
        LeadNotMet(points, lead);
      }
    }
  }

  lemma LeadsStep(points: seq<ResidualPoint>, p: ResidualPoint)
    ensures LeadsOf(points + [p]) == LeadsOf(points) + {p.lead}
  {
    assert p in points + [p];
    forall q | q in points ensures q in points + [p] {
    }
  }

  lemma NothingGrouped()
    ensures Grouped(map[], [])
  {
  }

  method GroupByLead(clean: seq<ResidualPoint>) returns (values: map<int, seq<real>>)
    ensures Grouped(values, clean)
  {
    hide Grouped;
    values := map[];
    NothingGrouped();
    assert clean[..0] == [];
    for i := 0 to |clean|
      invariant Grouped(values, clean[..i])
    {
      var r := clean[i];
      GroupedStep(values, clean[..i], r);
      assert clean[..i + 1] == clean[..i] + [r];
      values := values[r.lead := (if r.lead in values then values[r.lead] else []) + [r.residual]];
    }
    assert clean[..|clean|] == clean;
  }

  method LearnByLead(clean: seq<ResidualPoint>) returns (byLead: map<int, Span>)
    ensures byLead == ByLead(clean)
  {
    hide Drawn, SpanOf;
    var values := GroupByLead(clean);
    byLead := map[];
    var left := values.Keys;
    while left != {}
      invariant left <= values.Keys
      invariant byLead.Keys == set lead | lead in values.Keys - left && |values[lead]| >= MIN_RESIDUALS_PER_LEAD
      invariant forall lead :: lead in byLead ==> byLead[lead] == SpanOf(values[lead])
    {
      var lead: int :| lead in left;
      left := left - {lead};
      if |values[lead]| >= MIN_RESIDUALS_PER_LEAD {
        byLead := byLead[lead := SpanOf(values[lead])];
      }
    }
    assert byLead.Keys == ByLead(clean).Keys;
  }

  method LearnBand(points: seq<ResidualPoint>, warmUp: nat, excluded: seq<Range>) returns (band: Band)
    ensures band == BandOf(points, warmUp, excluded)
  {
    hide RunStartHours, ByLead, Drawn, DaysOf, Kept, Earliest, Latest, SpanOf;
    if NoSchedule(points) {
      return NotEstablished(NoShiftSchedule, 0);
    }
    var starts := FindRunStarts(points, warmUp);
    var clean := KeepClean(points, starts, excluded);
    var days := |DaysOf(clean)|;
    if days < BASELINE_DAYS {
      return NotEstablished(NotYetEstablished, days);
    }
    NoDays();
    AllDrawn(clean);
    var byLead := LearnByLead(clean);
    return Established(SpanOf(Drawn(clean, None)), days, Earliest(clean), Latest(clean), byLead);
  }

  lemma NoDays()
    ensures DaysOf([]) == {}
  {
  }

  method KeepClean(points: seq<ResidualPoint>, starts: set<int>, excluded: seq<Range>)
      returns (clean: seq<ResidualPoint>)
    ensures clean == Kept(points, starts, excluded)
  {
    hide Kept;
    clean := [];
    KeptOne(points[..0], starts, excluded);
    for i := 0 to |points|
      invariant clean == Kept(points[..i], starts, excluded)
    {
      var r := points[i];
      KeptOne([r], starts, excluded);
      KeptAppend(points[..i], [r], starts, excluded);
      assert points[..i + 1] == points[..i] + [r];
      if r.operating == Some(true) && r.stepAt !in starts && !Excluded(excluded, r.stepAt) {
        clean := clean + [r];
      }
    }
    assert points[..|points|] == points;
  }

  lemma KeptOne(points: seq<ResidualPoint>, starts: set<int>, excluded: seq<Range>)
    requires |points| <= 1
    ensures Kept(points, starts, excluded) == if points != [] && Good(starts, excluded, points[0]) then points else []
  {
  }

  // ------------------------------------------------------------------ what a band promises

  /** There is a band exactly when the clean residuals fall on enough days. */
  lemma EstablishedExactly(points: seq<ResidualPoint>, warmUp: nat, excluded: seq<Range>)
    ensures BandOf(points, warmUp, excluded).Established? <==> |DaysOf(Clean(points, warmUp, excluded))| >= 14
    ensures BandOf(points, warmUp, excluded).cleanDays == |DaysOf(Clean(points, warmUp, excluded))|
  {
    hide RunStartHours, ByLead, Drawn, DaysOf, Kept, Earliest, Latest, SpanOf;
    if NoSchedule(points) {
      var clean := Clean(points, warmUp, excluded);
      if clean != [] {
        KeptMembers(points, RunStartHours(points, warmUp), excluded, clean[0]);
        assert false;
      }
      NoDays();
    }
  }

  /** Of the clean residuals a band was learned from, how many it would itself flag. */
  lemma FlagsFew(points: seq<ResidualPoint>, warmUp: nat, excluded: seq<Range>)
    ensures var band := BandOf(points, warmUp, excluded);
            var clean := Clean(points, warmUp, excluded);
            band.Established? ==>
              && band.span.n == |clean| && band.span.lo <= band.span.hi
              && Outside(Drawn(clean, None), band.span.lo, band.span.hi) <= 2 * Ceiling(Position(|clean|, BAND_LO))
              && (forall p :: p in clean ==> band.learnedFrom <= p.stepAt <= band.learnedTo)
              && (exists p :: p in clean && p.stepAt == band.learnedFrom)
                && (exists p :: p in clean && p.stepAt == band.learnedTo)
              && forall lead :: lead in band.byLead ==>
                var at, its := band.byLead[lead], Drawn(clean, Some(lead));
                && at.n == |its| >= MIN_RESIDUALS_PER_LEAD && at.lo <= at.hi
                && Outside(its, at.lo, at.hi) <= 2 * Ceiling(Position(|its|, BAND_LO))
  {
    hide RunStartHours, Drawn, Kept, Quantile, Position, Outside, DaysOf, LeadsOf, Ceiling, Excluded;
    var band := BandOf(points, warmUp, excluded);
    var clean := Clean(points, warmUp, excluded);
    if band.Established? {
      NoDays();
      AllDrawn(clean);
      FewOutside(Drawn(clean, None));
      forall lead | lead in band.byLead
        ensures var at, its := band.byLead[lead], Drawn(clean, Some(lead));
                && at.n == |its| >= MIN_RESIDUALS_PER_LEAD && at.lo <= at.hi
                && Outside(its, at.lo, at.hi) <= 2 * Ceiling(Position(|its|, BAND_LO))
      {
        FewOutside(Drawn(clean, Some(lead)));
      }
    }
  }

  lemma {:induction false} KeptPermuted(a: seq<ResidualPoint>, b: seq<ResidualPoint>, starts: set<int>,
      excluded: seq<Range>)
    requires multiset(a) == multiset(b)
    ensures multiset(Kept(a, starts, excluded)) == multiset(Kept(b, starts, excluded))
    decreases |a|
  {
    hide Good;
    assert |a| == |multiset(a)| == |multiset(b)| == |b|;
    if a == [] {
    } else {
      var i := TakenOut(a, b);
      KeptPermuted(a[1..], b[..i] + b[i + 1..], starts, excluded);
      KeptAppend(b[..i], b[i + 1..], starts, excluded);
      KeptAppend(b[..i], [b[i]] + b[i + 1..], starts, excluded);
      assert ([b[i]] + b[i + 1..])[1..] == b[i + 1..];
    }
  }

  lemma {:induction false} DrawnPermuted(a: seq<ResidualPoint>, b: seq<ResidualPoint>, lead: Option<int>)
    requires multiset(a) == multiset(b)
    ensures multiset(Drawn(a, lead)) == multiset(Drawn(b, lead))
    decreases |a|
  {
    hide Drawn;
    assert |a| == |multiset(a)| == |multiset(b)| == |b|;
    if a == [] {
      assert a == b;
    } else {
      var i := TakenOut(a, b);
      DrawnPermuted(a[1..], b[..i] + b[i + 1..], lead);
      DrawnAppend(b[..i], b[i + 1..], lead);
      DrawnAppend(b[..i], [b[i]] + b[i + 1..], lead);
      DrawnAppend([b[i]], b[i + 1..], lead);
      DrawnAppend([a[0]], a[1..], lead);
      assert a == [a[0]] + a[1..];
    }
  }

  lemma SameMembers(a: seq<ResidualPoint>, b: seq<ResidualPoint>)
    requires multiset(a) == multiset(b)
    ensures |a| == |b|
    ensures forall p :: p in a <==> p in b
  {
    assert |a| == |multiset(a)| == |multiset(b)| == |b|;
    assert forall p :: p in a <==> p in multiset(a);
    assert forall p :: p in b <==> p in multiset(b);
  }

  lemma SameTimes(a: seq<ResidualPoint>, b: seq<ResidualPoint>, warmUp: nat)
    requires forall p :: p in a <==> p in b
    ensures Parked(a) == Parked(b) && Running(a) == Running(b) && RunStartHours(a, warmUp) == RunStartHours(b, warmUp)
    ensures DaysOf(a) == DaysOf(b) && LeadsOf(a) == LeadsOf(b)
  {
    hide Warming;
  }

  lemma SameEnds(a: seq<ResidualPoint>, b: seq<ResidualPoint>)
    requires a != [] && b != [] && forall p :: p in a <==> p in b
    ensures Earliest(a) == Earliest(b) && Latest(a) == Latest(b)
  {
  }

  lemma SameLead(a: seq<ResidualPoint>, b: seq<ResidualPoint>, lead: Option<int>)
    requires multiset(a) == multiset(b)
    ensures |Drawn(a, lead)| == |Drawn(b, lead)|
    ensures Drawn(a, lead) != [] ==> SpanOf(Drawn(a, lead)) == SpanOf(Drawn(b, lead))
  {
    hide SpanOf, Drawn;
    var x, y := Drawn(a, lead), Drawn(b, lead);
    DrawnPermuted(a, b, lead);
    assert |x| == |multiset(x)| == |multiset(y)| == |y|;
    if x != [] {
      SpanOfAnyOrder(x, y);
    }
  }

  lemma BandFromAnyOrder(a: seq<ResidualPoint>, b: seq<ResidualPoint>)
    requires multiset(a) == multiset(b)
    ensures BandFrom(a) == BandFrom(b)
  {
    hide SpanOf, Drawn, DaysOf, Earliest, Latest;
    SameMembers(a, b);
    SameTimes(a, b, 0);
    NoDays();
    AllDrawn(a);
    SameLead(a, b, None);
    if a != [] {
      SameEnds(a, b);
    }
    forall lead ensures |Drawn(a, Some(lead))| == |Drawn(b, Some(lead))|
      ensures Drawn(a, Some(lead)) != [] ==> SpanOf(Drawn(a, Some(lead))) == SpanOf(Drawn(b, Some(lead)))
    {
      SameLead(a, b, Some(lead));
    }
    assert ByLead(a) == ByLead(b);
  }

  /** The band does not depend on the order its residuals are read in. */
  lemma BandOfAnyOrder(a: seq<ResidualPoint>, b: seq<ResidualPoint>, warmUp: nat, excluded: seq<Range>)
    requires multiset(a) == multiset(b)
    ensures BandOf(a, warmUp, excluded) == BandOf(b, warmUp, excluded)
  {
    hide RunStartHours, BandFrom, Kept;
    SameMembers(a, b);
    SameTimes(a, b, warmUp);
    KeptPermuted(a, b, RunStartHours(a, warmUp), excluded);
    BandFromAnyOrder(Clean(a, warmUp, excluded), Clean(b, warmUp, excluded));
  }

  /** The same hours, leads and machine states; the same residuals wherever they are clean. */
  ghost predicate CleanAlike(a: seq<ResidualPoint>, b: seq<ResidualPoint>, starts: set<int>, excluded: seq<Range>) {
    && |a| == |b|
    && forall i :: 0 <= i < |a| ==>
      && a[i].stepAt == b[i].stepAt && a[i].lead == b[i].lead && a[i].operating == b[i].operating
      && (Good(starts, excluded, a[i]) ==> a[i] == b[i])
  }

  lemma {:induction false} KeptAlike(a: seq<ResidualPoint>, b: seq<ResidualPoint>, starts: set<int>,
      excluded: seq<Range>)
    requires CleanAlike(a, b, starts, excluded)
    ensures Kept(a, starts, excluded) == Kept(b, starts, excluded)
  {
    hide Excluded;
    if a == [] {
    } else {
      KeptAlike(a[1..], b[1..], starts, excluded);
    }
  }

  lemma HoursAlike(a: seq<ResidualPoint>, b: seq<ResidualPoint>)
    requires |a| == |b| && forall i :: 0 <= i < |a| ==> a[i].stepAt == b[i].stepAt && a[i].operating == b[i].operating
    ensures Parked(a) <= Parked(b) && Running(a) <= Running(b)
    ensures NoSchedule(b) ==> NoSchedule(a)
  {
    forall p | p in a ensures exists q :: q in b && q.stepAt == p.stepAt && q.operating == p.operating {
      var i :| 0 <= i < |a| && a[i] == p;
      assert b[i] in b;
    }
  }

  lemma StartsAlike(a: seq<ResidualPoint>, b: seq<ResidualPoint>, warmUp: nat, excluded: seq<Range>)
    requires CleanAlike(a, b, RunStartHours(a, warmUp), excluded)
    ensures RunStartHours(a, warmUp) == RunStartHours(b, warmUp) && NoSchedule(a) == NoSchedule(b)
  {
    hide Warming, Good, Parked, Running, NoSchedule;
    HoursAlike(a, b);
    HoursAlike(b, a);
    assert Parked(a) == Parked(b) && Running(a) == Running(b);
    assert RunStartHours(a, warmUp) == RunStartHours(b, warmUp);
  }

  /** Residuals of excluded, parked, unknown and warm-up hours have no say in the band. */
  lemma OnlyCleanResidualsCount(a: seq<ResidualPoint>, b: seq<ResidualPoint>, warmUp: nat, excluded: seq<Range>)
    requires CleanAlike(a, b, RunStartHours(a, warmUp), excluded)
    ensures BandOf(a, warmUp, excluded) == BandOf(b, warmUp, excluded)
  {
    hide RunStartHours, BandFrom, Kept, CleanAlike, NoSchedule;
    StartsAlike(a, b, warmUp, excluded);
    KeptAlike(a, b, RunStartHours(a, warmUp), excluded);
  }

  // ------------------------------------------------------------------ the interval of one forecast step

  datatype Interval = Interval(lo: real, hi: real)

  function IntervalAt(band: Band, lead: int, v: real): Option<Interval> {
    match band
    case NotEstablished(_, _) => None
    case Established(span, _, _, _, byLead) =>
      var at := if lead in byLead then byLead[lead] else span;
      Some(Interval(v + at.lo, v + at.hi))
  }

  /**
    A forecast has an interval exactly when there is a band. The interval is never upside down, and
    for a lead with enough clean residuals of its own, an actual misses it exactly when its residual
    is outside the band of that lead.
   */
  lemma IntervalJudgesResidual(points: seq<ResidualPoint>, warmUp: nat, excluded: seq<Range>, lead: int, v: real,
      actual: real)
    ensures var band := BandOf(points, warmUp, excluded);
            var clean := Clean(points, warmUp, excluded);
            var at := IntervalAt(band, lead, v);
            && (at.Some? <==> |DaysOf(clean)| >= 14)
            && (at.Some? ==>
              && at.value.lo <= at.value.hi
              && var own := Drawn(clean, Some(lead));
                 var learned := if |own| >= 20 then own else Drawn(clean, None);
                 && learned != [] && |Sort(learned)| == |learned|
                 && var lo, hi := Quantile(Sort(learned), 0.025), Quantile(Sort(learned), 0.975);
                    && at.value == Interval(v + lo, v + hi)
                    && (actual < at.value.lo || at.value.hi < actual <==> actual - v < lo || hi < actual - v)
                    && (actual < at.value.lo || at.value.hi < actual <==>
                         Outside([actual - v], SpanOf(learned).lo, SpanOf(learned).hi) == 1))
  {
    hide RunStartHours, Kept, DaysOf, Sort, Quantile, Drawn, BandOf, Clean, Outside, Position, Ceiling;
    var band := BandOf(points, warmUp, excluded);
    var clean := Clean(points, warmUp, excluded);
    EstablishedExactly(points, warmUp, excluded);
    if band.Established? {
      LearnedOf(points, warmUp, excluded, lead);
      var own := Drawn(clean, Some(lead));
      var learned := if |own| >= 20 then own else Drawn(clean, None);
      SortSorts(learned);
      FewOutside(learned);
      OneOutside(actual - v, SpanOf(learned));
    }
  }

  /** A lead is judged by its own clean residuals if they are enough, and by all of them if not. */
  lemma LearnedOf(points: seq<ResidualPoint>, warmUp: nat, excluded: seq<Range>, lead: int)
    requires BandOf(points, warmUp, excluded).Established?
    ensures var band := BandOf(points, warmUp, excluded);
            var own := Drawn(Clean(points, warmUp, excluded), Some(lead));
            var learned := if |own| >= 20 then own else Drawn(Clean(points, warmUp, excluded), None);
            && learned != []
            && (if lead in band.byLead then band.byLead[lead] else band.span) == SpanOf(learned)
  {
    hide RunStartHours, Kept, DaysOf, SpanOf, Earliest, Latest, Drawn;
    var clean := Clean(points, warmUp, excluded);
    NoDays();
    AllDrawn(clean);
    if lead !in LeadsOf(clean) {
      LeadNotMet(clean, lead);
    }
  }

  lemma OneOutside(x: real, span: Span)
    ensures Outside([x], span.lo, span.hi) == 1 <==> x < span.lo || span.hi < x
  {
  }
}
