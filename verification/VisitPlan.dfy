/**
  Turning a window's positions into visits (`visit-plan.ts`), and the reference it is
  measured against: one machine followed through one zone, position by position.
 */
module VisitPlan {
  import opened Options

  type ZoneKey = string

  datatype LngLat = LngLat(lng: real, lat: real)

  datatype Position = Position(at: int, point: LngLat)

  /** A zone as the planner sees it: its key, and which points its shape contains. */
  datatype Zone = Zone(key: ZoneKey, inside: LngLat -> bool)

  /** A moment and the place the machine was at: where a visit began, or where it ended. */
  datatype Crossing = Crossing(at: int, point: LngLat)

  /** `entered` is None for the visit carried in from before the window. */
  datatype Planned = Planned(key: ZoneKey, entered: Option<Crossing>, left: Option<Crossing>)

  ghost predicate Sorted(ps: seq<Position>) {
    forall i, j :: 0 <= i < j < |ps| ==> ps[i].at <= ps[j].at
  }

  /** Every position is the window's own: after `start`, up to `end`. */
  ghost predicate Within(ps: seq<Position>, start: int, end: int) {
    forall i :: 0 <= i < |ps| ==> start < ps[i].at <= end
  }

  ghost predicate DistinctKeys(zones: seq<Zone>) {
    forall i, j :: 0 <= i < j < |zones| ==> zones[i].key != zones[j].key
  }

  function Keys(zones: seq<Zone>): set<ZoneKey> {
    set i | 0 <= i < |zones| :: zones[i].key
  }

  function At(c: Option<Crossing>): Option<int> {
    if c.Some? then Some(c.value.at) else None
  }

  /** The visits one zone's walk makes, the one in progress being `current`. */
  function Walk(z: Zone, current: Option<Planned>, ps: seq<Position>): seq<Planned>
    decreases ps
  {
    if ps == [] then
      if current.Some? then [current.value] else []
    else
      var p := ps[0];
      var here := Some(Crossing(p.at, p.point));
      if z.inside(p.point) && current.None? then
        Walk(z, Some(Planned(z.key, here, None)), ps[1..])
      else if !z.inside(p.point) && current.Some? then
        [current.value.(left := here)] + Walk(z, None, ps[1..])
      else
        Walk(z, current, ps[1..])
  }

  function Carried(z: Zone, insideAtStart: set<ZoneKey>): Option<Planned> {
    if z.key in insideAtStart then Some(Planned(z.key, None, None)) else None
  }

  function ZonePlan(z: Zone, insideAtStart: set<ZoneKey>, ps: seq<Position>): seq<Planned> {
    Walk(z, Carried(z, insideAtStart), ps)
  }

  function Plan(zones: seq<Zone>, insideAtStart: set<ZoneKey>, ps: seq<Position>): seq<Planned> {
    if zones == [] then []
    else Plan(zones[..|zones| - 1], insideAtStart, ps) + ZonePlan(zones[|zones| - 1], insideAtStart, ps)
  }

  /** The source's loops: an item is appended when it opens and completed in place when it closes. */
  method PlanVisits(zones: seq<Zone>, insideAtStart: set<ZoneKey>, positions: seq<Position>) returns (out: seq<Planned>)
    ensures out == Plan(zones, insideAtStart, positions)
  {
    out := [];
    for i := 0 to |zones|
      invariant out == Plan(zones[..i], insideAtStart, positions)
    {
      out := PlanZone(zones[i], insideAtStart, positions, out);
      assert zones[..i + 1][..i] == zones[..i];
    }
    assert zones[..|zones|] == zones;
  }

  method PlanZone(zone: Zone, insideAtStart: set<ZoneKey>, positions: seq<Position>, before: seq<Planned>)
      returns (out: seq<Planned>)
    ensures out == before + ZonePlan(zone, insideAtStart, positions)
  {
    out := before;
    var current := false;
    if zone.key in insideAtStart {
      out := out + [Planned(zone.key, None, None)];
      current := true;
    }
    ghost var closed: seq<Planned> := [];
    ghost var open := Carried(zone, insideAtStart);
    for j := 0 to |positions|
      invariant current <==> open.Some?
      invariant out == before + closed + (if current then [open.value] else [])
      invariant ZonePlan(zone, insideAtStart, positions) == closed + Walk(zone, open, positions[j..])
    {
      var p := positions[j];
      var here := Crossing(p.at, p.point);
      var inside := zone.inside(p.point);
      assert positions[j..][1..] == positions[j + 1..];
      if inside && !current {
        out := out + [Planned(zone.key, Some(here), None)];
        current, open := true, Some(Planned(zone.key, Some(here), None));
      } else if !inside && current {
        out := out[|out| - 1 := out[|out| - 1].(left := Some(here))];
        closed := closed + [open.value.(left := Some(here))];
        current, open := false, None;
      }
    }
  }

  // ------------------------------------------------------------------ what a plan says

  /** One zone's items. */
  function ItemsOf(plan: seq<Planned>, key: ZoneKey): seq<Planned> {
    if plan == [] then []
    else ItemsOf(plan[..|plan| - 1], key) + (if plan[|plan| - 1].key == key then [plan[|plan| - 1]] else [])
  }

  lemma {:induction false} ItemsOfAppend(a: seq<Planned>, b: seq<Planned>, key: ZoneKey)
    ensures ItemsOf(a + b, key) == ItemsOf(a, key) + ItemsOf(b, key)
  {
    if b == [] {
      assert a + b == a;
    } else {
      assert (a + b)[..|a + b| - 1] == a + b[..|b| - 1];
      ItemsOfAppend(a, b[..|b| - 1], key);
    }
  }

  lemma {:induction false} ItemsOfOneKey(items: seq<Planned>, key: ZoneKey, mine: bool)
    requires forall p :: p in items ==> (p.key == key) == mine
    ensures ItemsOf(items, key) == if mine then items else []
  {
    if items == [] {
    } else {
      var n := |items| - 1;
      forall p | p in items[..n] ensures p in items {
      }
      assert (items[n].key == key) == mine;
      ItemsOfOneKey(items[..n], key, mine);
      assert ItemsOf(items, key) == ItemsOf(items[..n], key) + (if mine then [items[n]] else []);
      assert mine ==> items[..n] + [items[n]] == items;
    }
  }

  /**
    Everything a zone's walk guarantees about its items: they are the zone's; only the first
    can be the carried one; only the last can be open; every time is inside the window.
   */
  ghost predicate ZoneItems(items: seq<Planned>, key: ZoneKey, carried: bool, start: int, end: int) {
    && (carried ==> items != [])
    && forall i :: 0 <= i < |items| ==>
         && items[i].key == key
         && (items[i].entered.None? <==> carried && i == 0)
         && (items[i].entered.Some? ==> start < items[i].entered.value.at <= end)
         && (items[i].left.Some? ==> start < items[i].left.value.at <= end)
         && (items[i].left.None? ==> i == |items| - 1)
  }

  lemma {:induction false} WalkShape(z: Zone, current: Option<Planned>, ps: seq<Position>, start: int, end: int)
    requires Within(ps, start, end)
    requires current.Some? ==> current.value.key == z.key && current.value.left.None?
    requires current.Some? && current.value.entered.Some? ==> start < current.value.entered.value.at <= end
    ensures ZoneItems(Walk(z, current, ps), z.key, current.Some? && current.value.entered.None?, start, end)
    decreases ps
  {
    if ps == [] {
    } else {
      var p := ps[0];
      var here := Some(Crossing(p.at, p.point));
      if z.inside(p.point) && current.None? {
        WalkShape(z, Some(Planned(z.key, here, None)), ps[1..], start, end);
      } else if !z.inside(p.point) && current.Some? {
        var rest := Walk(z, None, ps[1..]);
        WalkShape(z, None, ps[1..], start, end);
        PrependShape(current.value.(left := here), rest, z.key, start, end);
      } else {
        WalkShape(z, current, ps[1..], start, end);
      }
    }
  }

  ghost predicate InOrder(items: seq<Planned>) {
    forall i :: 0 <= i < |items| && items[i].entered.Some? && items[i].left.Some? ==>
        items[i].entered.value.at <= items[i].left.value.at
  }

  /** No visit is planned to end before it begins. */
  lemma {:induction false} WalkInOrder(z: Zone, current: Option<Planned>, ps: seq<Position>)
    requires Sorted(ps)
    requires current.Some? ==> current.value.left.None?
    requires current.Some? && current.value.entered.Some? ==> forall i :: 0 <= i < |ps| ==>
              current.value.entered.value.at <= ps[i].at
    ensures InOrder(Walk(z, current, ps))
    decreases ps
  {
    if ps == [] {
    } else {
      var p := ps[0];
      var here := Some(Crossing(p.at, p.point));
      if z.inside(p.point) && current.None? {
        WalkInOrder(z, Some(Planned(z.key, here, None)), ps[1..]);
      } else if !z.inside(p.point) && current.Some? {
        WalkInOrder(z, None, ps[1..]);
      } else {
        WalkInOrder(z, current, ps[1..]);
      }
    }
  }

  lemma PrependShape(first: Planned, rest: seq<Planned>, key: ZoneKey, start: int, end: int)
    requires ZoneItems(rest, key, false, start, end)
    requires first.key == key && first.left.Some? && start < first.left.value.at <= end
    requires first.entered.Some? ==> start < first.entered.value.at <= end
    ensures ZoneItems([first] + rest, key, first.entered.None?, start, end)
  {
    var w := [first] + rest;
    assert forall i :: 1 <= i < |w| ==> w[i] == rest[i - 1];
  }

  lemma ZonePlanKeys(z: Zone, insideAtStart: set<ZoneKey>, ps: seq<Position>, start: int, end: int)
    requires Within(ps, start, end)
    ensures forall p :: p in ZonePlan(z, insideAtStart, ps) ==> p.key == z.key
  {
    WalkShape(z, Carried(z, insideAtStart), ps, start, end);
  }

  lemma {:induction false} PlanItems(zones: seq<Zone>, insideAtStart: set<ZoneKey>, ps: seq<Position>, k: nat,
      start: int, end: int)
    requires DistinctKeys(zones) && k < |zones| && Within(ps, start, end)
    ensures ItemsOf(Plan(zones, insideAtStart, ps), zones[k].key) == ZonePlan(zones[k], insideAtStart, ps)
  {
    hide Walk, ZonePlan, ItemsOf;
    var n := |zones| - 1;
    var key := zones[k].key;
    var before, last := Plan(zones[..n], insideAtStart, ps), ZonePlan(zones[n], insideAtStart, ps);
    ZonePlanKeys(zones[n], insideAtStart, ps, start, end);
    ItemsOfAppend(before, last, key);
    ItemsOfOneKey(last, key, k == n);
    if k < n {
      PlanItems(zones[..n], insideAtStart, ps, k, start, end);
    } else {
      PlanKeys(zones[..n], insideAtStart, ps, start, end);
      ItemsOfOneKey(before, key, false);
    }
  }

  lemma {:induction false} PlanKeys(zones: seq<Zone>, insideAtStart: set<ZoneKey>, ps: seq<Position>, start: int,
      end: int)
    requires Within(ps, start, end)
    ensures forall p: Planned :: p in Plan(zones, insideAtStart, ps) ==> p.key in Keys(zones)
  {
    if zones == [] {
    } else {
      var n := |zones| - 1;
      PlanKeys(zones[..n], insideAtStart, ps, start, end);
      ZonePlanKeys(zones[n], insideAtStart, ps, start, end);
      var before, last := Plan(zones[..n], insideAtStart, ps), ZonePlan(zones[n], insideAtStart, ps);
      assert Keys(zones) == Keys(zones[..n]) + {zones[n].key};
    }
  }

  // ------------------------------------------------------------------ the reference fold

  /** A stay in a zone: the place it began, and when and where it ended, if it has. */
  datatype Trip = Trip(entry: LngLat, left: Option<Crossing>)

  /** One machine and one zone: every stay so far by entry time, and the one it is in, if any. */
  datatype Track = Track(stays: map<int, Trip>, open: Option<int>)

  const NOWHERE := Track(map[], None)

  function Step(z: Zone, tr: Track, p: Position): Track {
    if z.inside(p.point) && tr.open.None? then
      Track(tr.stays[p.at := Trip(p.point, None)], Some(p.at))
    else if !z.inside(p.point) && tr.open.Some? && tr.open.value in tr.stays then
      Track(tr.stays[tr.open.value := Trip(tr.stays[tr.open.value].entry, Some(Crossing(p.at, p.point)))], None)
    else
      tr
  }

  function Follow(z: Zone, tr: Track, ps: seq<Position>): Track
    decreases ps
  {
    if ps == [] then tr else Follow(z, Step(z, tr, ps[0]), ps[1..])
  }

  lemma {:induction false} FollowAppend(z: Zone, tr: Track, a: seq<Position>, b: seq<Position>)
    ensures Follow(z, tr, a + b) == Follow(z, Follow(z, tr, a), b)
    decreases a
  {
    if a == [] {
      assert a + b == b;
    } else {
      assert (a + b)[1..] == a[1..] + b;
      FollowAppend(z, Step(z, tr, a[0]), a[1..], b);
    }
  }

  /**
    What a track looks like after every position up to `upto`: one open stay at most, and it is the one
    `open` names.
   */
  ghost predicate Wellformed(tr: Track, upto: int) {
    && (tr.open.Some? ==> tr.open.value in tr.stays)
    && (forall t :: t in tr.stays ==> t <= upto && (tr.stays[t].left.None? <==> tr.open == Some(t)))
    && (forall t :: t in tr.stays && tr.stays[t].left.Some? ==> t <= tr.stays[t].left.value.at <= upto)
  }

  lemma {:induction false} FollowWellformed(z: Zone, tr: Track, ps: seq<Position>, upto: int, end: int)
    requires Wellformed(tr, upto) && Sorted(ps) && upto <= end
    requires forall i :: 0 <= i < |ps| ==> upto <= ps[i].at <= end
    ensures Wellformed(Follow(z, tr, ps), end)
    decreases ps
  {
    if ps == [] {
    } else {
      var next := Step(z, tr, ps[0]);
      assert Wellformed(next, ps[0].at);
      FollowWellformed(z, next, ps[1..], ps[0].at, end);
    }
  }

  /** Writing a plan's items over a set of stays; `carried` is when and where the carried visit began. */
  function Overlay(stays: map<int, Trip>, carried: Crossing, items: seq<Planned>): map<int, Trip>
    decreases items
  {
    if items == [] then stays
    else Overlay(stays[EntryCrossing(items[0], carried).at := TripOf(items[0], carried)], carried, items[1..])
  }

  function EntryCrossing(p: Planned, carried: Crossing): Crossing {
    if p.entered.Some? then p.entered.value else carried
  }

  function TripOf(p: Planned, carried: Crossing): Trip {
    Trip(EntryCrossing(p, carried).point, p.left)
  }

  /** The planner and the fold agree: a zone's walk is what following the machine adds to its stays. */
  lemma {:induction false} WalkIsFollow(z: Zone, current: Option<Planned>, tr: Track, carried: Crossing,
      ps: seq<Position>)
    requires current.Some? <==> tr.open.Some?
    requires current.Some? ==>
               && current.value.key == z.key && current.value.left.None?
               && tr.open.value == EntryCrossing(current.value, carried).at
               && tr.open.value in tr.stays && tr.stays[tr.open.value] == TripOf(current.value, carried)
    ensures Follow(z, tr, ps).stays == Overlay(tr.stays, carried, Walk(z, current, ps))
    decreases ps
  {
    if ps == [] {
      if current.Some? {
        assert tr.stays[tr.open.value := TripOf(current.value, carried)] == tr.stays;
      }
    } else {
      var p := ps[0];
      var here := Some(Crossing(p.at, p.point));
      if z.inside(p.point) && current.None? {
        var item := Planned(z.key, here, None);
        WalkIsFollow(z, Some(item), Step(z, tr, p), carried, ps[1..]);
        FirstOverwrites(z, item, carried, tr.stays, ps[1..]);
      } else if !z.inside(p.point) && current.Some? {
        WalkIsFollow(z, None, Step(z, tr, p), carried, ps[1..]);
        var rest := Walk(z, None, ps[1..]);
        var done := current.value.(left := here);
        assert ([done] + rest)[1..] == rest;
      } else {
        WalkIsFollow(z, current, tr, carried, ps[1..]);
      }
    }
  }

  /** The item in progress is the first the walk emits, so whatever stood at its entry is overwritten. */
  lemma FirstOverwrites(z: Zone, item: Planned, carried: Crossing, stays: map<int, Trip>, ps: seq<Position>)
    requires item.left.None? && item.key == z.key
    ensures var w := Walk(z, Some(item), ps);
            Overlay(stays[EntryCrossing(item, carried).at := TripOf(item, carried)], carried, w)
              == Overlay(stays, carried, w)
  {
    var w := Walk(z, Some(item), ps);
    FirstItem(z, item, ps);
    var t := EntryCrossing(item, carried).at;
    assert stays[t := TripOf(item, carried)][t := TripOf(w[0], carried)] == stays[t := TripOf(w[0], carried)];
  }

  lemma {:induction false} FirstItem(z: Zone, item: Planned, ps: seq<Position>)
    ensures var w := Walk(z, Some(item), ps); |w| > 0 && w[0].entered == item.entered
  {
    if ps != [] && z.inside(ps[0].point) {
      FirstItem(z, item, ps[1..]);
    }
  }

  /** The last item entered at `t`, if any: what the source's map from entry to item holds. */
  function LastAt(items: seq<Planned>, t: int): Option<Planned> {
    if items == [] then None
    else
      var last := items[|items| - 1];
      if At(last.entered) == Some(t) then Some(last) else LastAt(items[..|items| - 1], t)
  }

  lemma {:induction false} OverlayLast(stays: map<int, Trip>, carried: Crossing, items: seq<Planned>)
    requires items != []
    ensures var last := items[|items| - 1];
            Overlay(stays, carried, items)
              == Overlay(stays, carried, items[..|items| - 1])[EntryCrossing(last, carried).at := TripOf(last, carried)]
    decreases items
  {
    if |items| > 1 {
      OverlayLast(stays[EntryCrossing(items[0], carried).at := TripOf(items[0], carried)], carried, items[1..]);
      assert items[1..][..|items| - 2] == items[..|items| - 1][1..];
    }
  }

  /** Where the overlay holds what: the items' own entries hold their stays, everything else is untouched. */
  lemma {:induction false} OverlayAt(stays: map<int, Trip>, carried: Crossing, items: seq<Planned>, start: int, t: int)
    requires carried.at <= start
    requires forall i :: 0 <= i < |items| && items[i].entered.Some? ==> start < items[i].entered.value.at
    requires forall i :: 0 < i < |items| ==> items[i].entered.Some?
    ensures var o := Overlay(stays, carried, items);
            if items != [] && items[0].entered.None? && t == carried.at then t in o && o[t] == TripOf(items[0], carried)
            else if LastAt(items, t).Some? then t in o && o[t] == TripOf(LastAt(items, t).value, carried)
            else (t in o <==> t in stays) && (t in o ==> o[t] == stays[t])
    decreases |items|
  {
    if items == [] {
    } else {
      hide Overlay;
      var n := |items| - 1;
      OverlayAt(stays, carried, items[..n], start, t);
      OverlayLast(stays, carried, items);
      LastAtBefore(items, start, t);
      LastAtBefore(items[..n], start, t);
    }
  }

  lemma LastAtBefore(items: seq<Planned>, start: int, t: int)
    requires forall i :: 0 <= i < |items| && items[i].entered.Some? ==> start < items[i].entered.value.at
    ensures LastAt(items, t).Some? ==>
              start < t && LastAt(items, t).value in items && At(LastAt(items, t).value.entered) == Some(t)
  {
  }
}
