/**
  What one pass over a shift window makes of a machine's stored visits, as a function of the
  visits alone, and what a run of passes amounts to. `GeofenceTracker` computes this function
  write by write; here it is compared with following the machine once through everything.
 */
module VisitBook {
  import opened Options
  import opened VisitPlan

  /** A visit's identity: the unique index on machine, zone and entry time. */
  datatype Entry = Entry(zone: ZoneKey, at: int)

  datatype Departure = Exited(at: int, point: LngLat) | ZoneRemoved(at: int)

  datatype Stay = Stay(entry: LngLat, left: Option<Departure>)

  type Book = map<Entry, Stay>

  /** One pass: the window (start, end], the zones that apply now, and the window's positions. */
  datatype Window = Window(start: int, end: int, zones: seq<Zone>, positions: seq<Position>)

  ghost predicate Proper(w: Window) {
    && DistinctKeys(w.zones)
    && Sorted(w.positions)
    && Within(w.positions, w.start, w.end)
  }

  function LeftAt(s: Stay): Option<int> {
    if s.left.Some? then Some(s.left.value.at) else None
  }

  function Exit(c: Option<Crossing>): Option<Departure> {
    if c.Some? then Some(Exited(c.value.at, c.value.point)) else None
  }

  /** In the zone at the window's start: entered by then and not left by then. */
  predicate IsCarried(b: Book, w: Window, e: Entry) {
    e in b && e.at <= w.start && (b[e].left.None? || b[e].left.value.at > w.start)
  }

  predicate IsWithin(b: Book, w: Window, e: Entry) {
    e in b && w.start < e.at <= w.end
  }

  function InsideAtStart(b: Book, w: Window): set<ZoneKey> {
    set e | e in b && IsCarried(b, w, e) :: e.zone
  }

  function PlanFor(b: Book, w: Window): seq<Planned> {
    Plan(w.zones, InsideAtStart(b, w), w.positions)
  }

  /** The first item of `key` with no entry of its own: the carried visit's. */
  function CarriedItem(plan: seq<Planned>, key: ZoneKey): Option<Planned> {
    if plan == [] then None
    else
      var before := CarriedItem(plan[..|plan| - 1], key);
      var last := plan[|plan| - 1];
      if before.Some? then before
      else if last.key == key && last.entered.None? then Some(last)
      else None
  }

  /** What the plan says of the visit entered at `e`, stored or not. */
  function ItemFor(b: Book, w: Window, plan: seq<Planned>, e: Entry): Option<Planned> {
    if IsCarried(b, w, e) then CarriedItem(plan, e.zone)
    else if w.start < e.at <= w.end then LastAt(ItemsOf(plan, e.zone), e.at)
    else None
  }

  /**
    The stored visit with the leave its item gives it; where the item has none, a stored leave beyond the
    window stays.
   */
  function Settle(s: Stay, p: Planned, end: int): Stay {
    var left := if p.left.None? && s.left.Some? && s.left.value.at > end then s.left else Exit(p.left);
    if LeftAt(s) == (if left.Some? then Some(left.value.at) else None) then s else s.(left := left)
  }

  /** The visit at `e` after the pass, or None when there is none. */
  function Final(b: Book, w: Window, plan: seq<Planned>, e: Entry): Option<Stay> {
    var item := ItemFor(b, w, plan, e);
    if e !in b then
      if item.Some? && item.value.entered.Some? then Some(Stay(item.value.entered.value.point, Exit(item.value.left)))
          else None
    else if IsCarried(b, w, e) then
      if item.Some? then Some(Settle(b[e], item.value, w.end))
      else if e.zone !in Keys(w.zones) && b[e].left.None? then Some(b[e].(left := Some(ZoneRemoved(w.start))))
      else Some(b[e])
    else if IsWithin(b, w, e) then
      if item.Some? then Some(Settle(b[e], item.value, w.end))
      else if e.zone in Keys(w.zones) then None
      else Some(b[e])
    else Some(b[e])
  }

  function Entries(plan: seq<Planned>): set<Entry> {
    set i | 0 <= i < |plan| && plan[i].entered.Some? :: Entry(plan[i].key, plan[i].entered.value.at)
  }

  /** The stored visits after the pass. */
  function Reconciled(b: Book, w: Window): Book {
    var plan := PlanFor(b, w);
    map e | e in b.Keys + Entries(plan) && Final(b, w, plan, e).Some? :: Final(b, w, plan, e).value
  }

  // ------------------------------------------------------------------ facts about the plan

  lemma {:induction false} CarriedItemOf(plan: seq<Planned>, key: ZoneKey)
    ensures CarriedItem(plan, key) == CarriedItem(ItemsOf(plan, key), key)
  {
    if plan == [] {
    } else {
      var last := plan[|plan| - 1];
      var before := ItemsOf(plan[..|plan| - 1], key);
      CarriedItemOf(plan[..|plan| - 1], key);
      if last.key == key {
        assert (before + [last])[..|before|] == before;
      } else {
        assert ItemsOf(plan, key) == before;
      }
    }
  }

  lemma {:induction false} CarriedItemFirst(items: seq<Planned>, key: ZoneKey, carried: bool, n: nat)
    requires n <= |items|
    requires carried ==> items != []
    requires forall i :: 0 <= i < |items| ==> items[i].key == key && (items[i].entered.None? <==> carried && i == 0)
    ensures CarriedItem(items[..n], key) == if carried && n > 0 then Some(items[0]) else None
  {
    if n == 0 {
    } else {
      CarriedItemFirst(items, key, carried, n - 1);
      assert items[..n][..n - 1] == items[..n - 1];
    }
  }

  lemma {:induction false} LastAtEntry(items: seq<Planned>, t: int)
    ensures LastAt(items, t).Some? <==> exists p :: p in items && At(p.entered) == Some(t)
    ensures LastAt(items, t).Some? ==> LastAt(items, t).value in items && At(LastAt(items, t).value.entered) == Some(t)
  {
    if items == [] {
    } else {
      var n := |items| - 1;
      LastAtEntry(items[..n], t);
      assert items == items[..n] + [items[n]];
    }
  }

  lemma {:induction false} ItemsOfMembers(plan: seq<Planned>, key: ZoneKey)
    ensures forall p :: p in ItemsOf(plan, key) <==> p in plan && p.key == key
  {
    if plan == [] {
    } else {
      ItemsOfMembers(plan[..|plan| - 1], key);
      assert plan == plan[..|plan| - 1] + [plan[|plan| - 1]];
    }
  }

  /** One zone's share of a proper window's plan, item by item. */
  lemma ZoneShare(b: Book, w: Window, k: nat)
    requires Proper(w) && k < |w.zones|
    ensures var key := w.zones[k].key;
            var items := ItemsOf(PlanFor(b, w), key);
            && items == ZonePlan(w.zones[k], InsideAtStart(b, w), w.positions)
            && ZoneItems(items, key, key in InsideAtStart(b, w), w.start, w.end)
            && CarriedItem(PlanFor(b, w), key) == if key in InsideAtStart(b, w) then Some(items[0]) else None
  {
    var plan, key := PlanFor(b, w), w.zones[k].key;
    var items := ItemsOf(plan, key);
    PlanItems(w.zones, InsideAtStart(b, w), w.positions, k, w.start, w.end);
    WalkShape(w.zones[k], Carried(w.zones[k], InsideAtStart(b, w)), w.positions, w.start, w.end);
    CarriedItemOf(plan, key);
    CarriedItemFirst(items, key, key in InsideAtStart(b, w), |items|);
    assert items[..|items|] == items;
  }

  /** A zone that does not apply has no items, so nothing but its removal touches its visits. */
  lemma NoShare(b: Book, w: Window, key: ZoneKey)
    requires Proper(w) && key !in Keys(w.zones)
    ensures ItemsOf(PlanFor(b, w), key) == []
    ensures CarriedItem(PlanFor(b, w), key).None?
  {
    PlanKeys(w.zones, InsideAtStart(b, w), w.positions, w.start, w.end);
    ItemsOfOneKey(PlanFor(b, w), key, false);
    CarriedItemOf(PlanFor(b, w), key);
  }

  lemma InReconciled(b: Book, w: Window, e: Entry)
    ensures e in Reconciled(b, w) <==> Final(b, w, PlanFor(b, w), e).Some?
    ensures e in Reconciled(b, w) ==> Reconciled(b, w)[e] == Final(b, w, PlanFor(b, w), e).value
  {
    var plan := PlanFor(b, w);
    if e !in b && Final(b, w, plan, e).Some? {
      LastAtEntry(ItemsOf(plan, e.zone), e.at);
      ItemsOfMembers(plan, e.zone);
      var p := LastAt(ItemsOf(plan, e.zone), e.at).value;
      assert p in plan;
      var i :| 0 <= i < |plan| && plan[i] == p;
      assert e == Entry(plan[i].key, plan[i].entered.value.at);
    }
  }

  // ------------------------------------------------------------------ a pass is a step of the fold

  /** A leave not yet known at `upto` reads as still inside. */
  function Known(left: Option<int>, upto: int): Option<int> {
    if left.Some? && left.value <= upto then left else None
  }

  /**
    The stored visits of zone `key`, as far as they are about the time up to `upto`, are
    exactly the stays of `tr`. Later entries, and later leaves, are not this moment's to say.
   */
  ghost predicate AgreesUpTo(b: Book, key: ZoneKey, tr: Track, upto: int) {
    forall t :: && (t in tr.stays <==> Entry(key, t) in b && t <= upto)
                && (t in tr.stays ==> At(tr.stays[t].left) == Known(LeftAt(b[Entry(key, t)]), upto))
  }

  /**
    Wherever a pass starts from, if the book agrees with the fold up to the window's start it
    agrees with it up to the window's end afterwards: whatever later windows had already
    written, and however often this one has run before.
   */
  lemma PassIsStep(b: Book, w: Window, k: nat, tr: Track)
    requires Proper(w) && w.start <= w.end && k < |w.zones|
    requires Wellformed(tr, w.start) && AgreesUpTo(b, w.zones[k].key, tr, w.start)
    ensures Wellformed(Follow(w.zones[k], tr, w.positions), w.end)
    ensures AgreesUpTo(Reconciled(b, w), w.zones[k].key, Follow(w.zones[k], tr, w.positions), w.end)
  {
    var z := w.zones[k];
    var after := Follow(z, tr, w.positions);
    FollowWellformed(z, tr, w.positions, w.start, w.end);
    assert Wellformed(after, w.end);
    forall t
      ensures t in after.stays <==> Entry(z.key, t) in Reconciled(b, w) && t <= w.end
      ensures t in after.stays ==> At(after.stays[t].left) == Known(LeftAt(Reconciled(b, w)[Entry(z.key, t)]), w.end)
    {
      PassIsStepAt(b, w, k, tr, t);
    }
  }

  /** The carried visit is the one the fold is in. */
  lemma CarriedIsOpen(b: Book, w: Window, key: ZoneKey, tr: Track)
    requires Wellformed(tr, w.start) && AgreesUpTo(b, key, tr, w.start)
    ensures key in InsideAtStart(b, w) <==> tr.open.Some?
    ensures forall t :: IsCarried(b, w, Entry(key, t)) <==> tr.open == Some(t)
  {
    forall t
      ensures IsCarried(b, w, Entry(key, t)) <==> tr.open == Some(t)
    {
      assert t in tr.stays <==> Entry(key, t) in b && t <= w.start;
    }
    if key in InsideAtStart(b, w) {
      var e :| e in b && IsCarried(b, w, e) && e.zone == key;
      assert e == Entry(key, e.at);
    }
    if tr.open.Some? {
      assert IsCarried(b, w, Entry(key, tr.open.value));
    }
  }

  /** The item the plan has for `e`, if any, belongs to the window; without one, `e` is not carried. */
  lemma ItemForShape(b: Book, w: Window, k: nat, t: int)
    requires Proper(w) && k < |w.zones|
    ensures var e := Entry(w.zones[k].key, t);
            var item := ItemFor(b, w, PlanFor(b, w), e);
            && (IsCarried(b, w, e) ==> item.Some? && item.value.entered.None?)
            && (item.Some? && item.value.left.Some? ==> w.start < item.value.left.value.at <= w.end)
            && (item.Some? && !IsCarried(b, w, e) ==> At(item.value.entered) == Some(t) && w.start < t <= w.end)
  {
    var e := Entry(w.zones[k].key, t);
    ZoneShare(b, w, k);
    LastAtEntry(ItemsOf(PlanFor(b, w), e.zone), t);
  }

  /** What the fold makes of a planned item: a carried visit keeps the place it began at. */
  function Followed(p: Planned, tr: Track, t: int): Trip {
    Trip(if p.entered.Some? then p.entered.value.point else if t in tr.stays then tr.stays[t].entry
      else LngLat(0.0, 0.0), p.left)
  }

  /** The fold's stay at `t` after the window: the plan's item for it, or what it was before. */
  lemma FollowedStay(b: Book, w: Window, k: nat, tr: Track, t: int)
    requires Proper(w) && w.start <= w.end && k < |w.zones|
    requires Wellformed(tr, w.start) && AgreesUpTo(b, w.zones[k].key, tr, w.start)
    ensures var z := w.zones[k];
            var stays := Follow(z, tr, w.positions).stays;
            var item := ItemFor(b, w, PlanFor(b, w), Entry(z.key, t));
            if item.Some? then t in stays && stays[t] == Followed(item.value, tr, t)
            else (t in stays <==> t in tr.stays) && (t in stays ==> stays[t] == tr.stays[t])
  {
    hide Reconciled, PlanFor, CarriedItem, LastAt, ItemsOf, Plan, Overlay, Follow, Walk;
    var z := w.zones[k];
    var items := ItemsOf(PlanFor(b, w), z.key);
    var carried := if tr.open.Some? then Crossing(tr.open.value, tr.stays[tr.open.value].entry)
        else Crossing(w.start, LngLat(0.0, 0.0));
    CarriedIsOpen(b, w, z.key, tr);
    ZoneShare(b, w, k);
    WalkIsFollow(z, Carried(z, InsideAtStart(b, w)), tr, carried, w.positions);
    OverlayAt(tr.stays, carried, items, w.start, t);
    LastAtEntry(items, t);
  }

  lemma PassIsStepAt(b: Book, w: Window, k: nat, tr: Track, t: int)
    requires Proper(w) && w.start <= w.end && k < |w.zones|
    requires Wellformed(tr, w.start) && AgreesUpTo(b, w.zones[k].key, tr, w.start)
    ensures var z := w.zones[k];
            var after := Follow(z, tr, w.positions);
            && (t in after.stays <==> Entry(z.key, t) in Reconciled(b, w) && t <= w.end)
            && (t in after.stays ==> At(after.stays[t].left) == Known(LeftAt(Reconciled(b, w)[Entry(z.key, t)]), w.end))
  {
    var e := Entry(w.zones[k].key, t);
    FollowedStay(b, w, k, tr, t);
    ItemForShape(b, w, k, t);
    InReconciled(b, w, e);
    assert e.zone in Keys(w.zones);
    assert t in tr.stays <==> e in b && t <= w.start;
  }

  // ------------------------------------------------------------------ runs of windows

  /** The book after running `ws` in order. */
  function RunWindows(b: Book, ws: seq<Window>): Book
    decreases ws
  {
    if ws == [] then b else RunWindows(Reconciled(b, ws[0]), ws[1..])
  }

  function AllPositions(ws: seq<Window>): seq<Position>
    decreases ws
  {
    if ws == [] then [] else ws[0].positions + AllPositions(ws[1..])
  }

  /** Windows that follow one another with no gap, under zones that stay as they are. */
  ghost predicate Consecutive(ws: seq<Window>, zones: seq<Zone>, start: int, end: int)
    decreases ws
  {
    if ws == [] then start == end
    else
      && Proper(ws[0]) && ws[0].zones == zones && ws[0].start == start && start <= ws[0].end
      && Consecutive(ws[1..], zones, ws[0].end, end)
  }

  lemma {:induction false} RunIsFollow(b: Book, ws: seq<Window>, zones: seq<Zone>, start: int, end: int, k: nat,
      tr: Track)
    requires Consecutive(ws, zones, start, end) && k < |zones|
    requires Wellformed(tr, start) && AgreesUpTo(b, zones[k].key, tr, start)
    ensures AgreesUpTo(RunWindows(b, ws), zones[k].key, Follow(zones[k], tr, AllPositions(ws)), end)
    decreases ws
  {
    if ws == [] {
    } else {
      var w := ws[0];
      PassIsStep(b, w, k, tr);
      FollowAppend(zones[k], tr, w.positions, AllPositions(ws[1..]));
      RunIsFollow(Reconciled(b, w), ws[1..], zones, w.end, end, k, Follow(zones[k], tr, w.positions));
    }
  }

  /** Nothing stored is about a time after `upto`. */
  ghost predicate EndsBy(b: Book, upto: int) {
    forall e :: e in b ==> e.at <= upto && (b[e].left.Some? ==> b[e].left.value.at <= upto)
  }

  ghost predicate InZones(b: Book, zones: seq<Zone>) {
    forall e :: e in b ==> e.zone in Keys(zones)
  }

  lemma PassStaysInside(b: Book, w: Window, upto: int)
    requires Proper(w) && w.start <= w.end <= upto
    requires EndsBy(b, upto) && InZones(b, w.zones)
    ensures EndsBy(Reconciled(b, w), upto) && InZones(Reconciled(b, w), w.zones)
  {
    forall e | e in Reconciled(b, w)
      ensures e.zone in Keys(w.zones) && e.at <= upto
      ensures Reconciled(b, w)[e].left.Some? ==> Reconciled(b, w)[e].left.value.at <= upto
    {
      InReconciled(b, w, e);
      if e.zone !in Keys(w.zones) {
        NoShare(b, w, e.zone);
      } else {
        var k :| 0 <= k < |w.zones| && w.zones[k].key == e.zone;
        ItemForShape(b, w, k, e.at);
        assert e == Entry(w.zones[k].key, e.at);
      }
    }
  }

  lemma {:induction false} RunStaysInside(b: Book, ws: seq<Window>, zones: seq<Zone>, start: int, end: int, upto: int)
    requires Consecutive(ws, zones, start, end) && end <= upto
    requires EndsBy(b, upto) && InZones(b, zones)
    ensures start <= end && EndsBy(RunWindows(b, ws), upto) && InZones(RunWindows(b, ws), zones)
    decreases ws
  {
    if ws == [] {
    } else {
      ConsecutiveOrder(ws[1..], zones, ws[0].end, end);
      PassStaysInside(b, ws[0], upto);
      RunStaysInside(Reconciled(b, ws[0]), ws[1..], zones, ws[0].end, end, upto);
    }
  }

  lemma {:induction false} ConsecutiveOrder(ws: seq<Window>, zones: seq<Zone>, start: int, end: int)
    requires Consecutive(ws, zones, start, end)
    ensures start <= end
    decreases ws
  {
    if ws == [] {
    } else {
      ConsecutiveOrder(ws[1..], zones, ws[0].end, end);
    }
  }

  /** The book holds, zone by zone, exactly the stays of one fold over `ps`, and nothing else. */
  ghost predicate IsBatch(b: Book, zones: seq<Zone>, ps: seq<Position>) {
    && InZones(b, zones)
    && forall k, t :: 0 <= k < |zones| ==>
         var stays := Follow(zones[k], NOWHERE, ps).stays;
         && (t in stays <==> Entry(zones[k].key, t) in b)
         && (t in stays ==> At(stays[t].left) == LeftAt(b[Entry(zones[k].key, t)]))
  }

  /**
    Late readings: windows re-run from the one they fall in, in order, over whatever the book
    then held about later times. The result is the batch result for all the positions now
    known, those before the rewind and those of the re-run windows.
   */
  lemma RerunIsBatch(b: Book, before: seq<Position>, ws: seq<Window>, zones: seq<Zone>, start: int, end: int)
    requires Consecutive(ws, zones, start, end)
    requires InZones(b, zones) && EndsBy(b, end)
    requires forall k :: 0 <= k < |zones| ==>
               var tr := Follow(zones[k], NOWHERE, before);
               Wellformed(tr, start) && AgreesUpTo(b, zones[k].key, tr, start)
    ensures IsBatch(RunWindows(b, ws), zones, before + AllPositions(ws))
  {
    var r := RunWindows(b, ws);
    RunStaysInside(b, ws, zones, start, end, end);
    forall k, t | 0 <= k < |zones|
      ensures var stays := Follow(zones[k], NOWHERE, before + AllPositions(ws)).stays;
              && (t in stays <==> Entry(zones[k].key, t) in r)
              && (t in stays ==> At(stays[t].left) == LeftAt(r[Entry(zones[k].key, t)]))
    {
      var tr := Follow(zones[k], NOWHERE, before);
      FollowAppend(zones[k], NOWHERE, before, AllPositions(ws));
      RunIsFollow(b, ws, zones, start, end, k, tr);
      assert AgreesUpTo(r, zones[k].key, Follow(zones[k], tr, AllPositions(ws)), end);
    }
  }

  // ------------------------------------------------------------------ running a window again

  lemma {:induction false} PlanCongruence(zones: seq<Zone>, s: set<ZoneKey>, t: set<ZoneKey>, ps: seq<Position>)
    requires forall k :: 0 <= k < |zones| ==> (zones[k].key in s <==> zones[k].key in t)
    ensures Plan(zones, s, ps) == Plan(zones, t, ps)
  {
    if zones == [] {
    } else {
      PlanCongruence(zones[..|zones| - 1], s, t, ps);
    }
  }

  /** A visit carried into an applied zone is still the carried one after the pass, and no other has become so. */
  lemma StillCarried(b: Book, w: Window, e: Entry)
    requires Proper(w) && w.start <= w.end && e.zone in Keys(w.zones)
    ensures IsCarried(Reconciled(b, w), w, e) <==> IsCarried(b, w, e)
  {
    var k :| 0 <= k < |w.zones| && w.zones[k].key == e.zone;
    assert e == Entry(w.zones[k].key, e.at);
    ItemForShape(b, w, k, e.at);
    InReconciled(b, w, e);
  }

  lemma SamePlan(b: Book, w: Window)
    requires Proper(w) && w.start <= w.end
    ensures PlanFor(Reconciled(b, w), w) == PlanFor(b, w)
  {
    var r := Reconciled(b, w);
    forall k | 0 <= k < |w.zones|
      ensures w.zones[k].key in InsideAtStart(r, w) <==> w.zones[k].key in InsideAtStart(b, w)
    {
      var key := w.zones[k].key;
      forall e: Entry | e.zone == key
        ensures IsCarried(r, w, e) <==> IsCarried(b, w, e)
      {
        StillCarried(b, w, e);
      }
      assert key in InsideAtStart(b, w) <==> exists e :: e in b && IsCarried(b, w, e) && e.zone == key;
      assert key in InsideAtStart(r, w) <==> exists e :: e in r && IsCarried(r, w, e) && e.zone == key;
      if e :| e in b && IsCarried(b, w, e) && e.zone == key {
        assert IsCarried(r, w, e);
      }
    }
    PlanCongruence(w.zones, InsideAtStart(r, w), InsideAtStart(b, w), w.positions);
  }

  /** The same window again changes nothing, whatever was stored before its first run. */
  lemma Idempotent(b: Book, w: Window)
    requires Proper(w) && w.start <= w.end
    ensures Reconciled(Reconciled(b, w), w) == Reconciled(b, w)
  {
    var r := Reconciled(b, w);
    SamePlan(b, w);
    forall e
      ensures Final(r, w, PlanFor(b, w), e) == Final(b, w, PlanFor(b, w), e)
    {
      InReconciled(b, w, e);
      if e.zone in Keys(w.zones) {
        var k :| 0 <= k < |w.zones| && w.zones[k].key == e.zone;
        assert e == Entry(w.zones[k].key, e.at);
        ItemForShape(b, w, k, e.at);
        StillCarried(b, w, e);
      } else {
        NoShare(b, w, e.zone);
      }
    }
    forall e
      ensures e in Reconciled(r, w) <==> e in r
      ensures e in r ==> Reconciled(r, w)[e] == r[e]
    {
      InReconciled(r, w, e);
      InReconciled(b, w, e);
    }
  }

  /** A visit entered after the window's end is not touched, and a leave after it only gives way to an earlier one. */
  lemma LaterIsKept(b: Book, w: Window, e: Entry)
    requires Proper(w) && w.start <= w.end && e in b
    ensures e.at > w.end ==> e in Reconciled(b, w) && Reconciled(b, w)[e] == b[e]
    ensures b[e].left.Some? && b[e].left.value.at > w.end && e in Reconciled(b, w) && Reconciled(b, w)[e] != b[e] ==>
              Reconciled(b, w)[e].left.Some? && w.start < Reconciled(b, w)[e].left.value.at <= w.end
  {
    InReconciled(b, w, e);
    if e.zone in Keys(w.zones) {
      var k :| 0 <= k < |w.zones| && w.zones[k].key == e.zone;
      assert e == Entry(w.zones[k].key, e.at);
      ItemForShape(b, w, k, e.at);
    } else {
      NoShare(b, w, e.zone);
    }
  }

  // ------------------------------------------------------------------ when the indexes accept a pass

  ghost predicate SingleOpen(b: Book) {
    forall e, f :: e in b && f in b && e.zone == f.zone && b[e].left.None? && b[f].left.None? ==> e == f
  }

  function EntryOf(p: Planned): Entry
    requires p.entered.Some?
  {
    Entry(p.key, p.entered.value.at)
  }

  function StayOf(p: Planned): Stay
    requires p.entered.Some?
  {
    Stay(p.entered.value.point, Exit(p.left))
  }

  /** An item that has to be inserted: entered in the window, and no such visit stored. */
  predicate IsFresh(b: Book, p: Planned) {
    p.entered.Some? && EntryOf(p) !in b
  }

  /** No two visits to insert began in one zone at one moment. */
  ghost predicate FreshOnce(b: Book, plan: seq<Planned>) {
    forall i, j :: 0 <= i < j < |plan| && IsFresh(b, plan[i]) && IsFresh(b, plan[j]) ==>
        EntryOf(plan[i]) != EntryOf(plan[j])
  }

  /** `e` is the stored visit `p` is about. */
  predicate StoredFor(b: Book, w: Window, p: Planned, e: Entry) {
    e in b && e.zone == p.key && if p.entered.None? then IsCarried(b, w, e) else e.at == p.entered.value.at
  }

  /** The pass does not keep a leave of `e` that lies after the window. */
  predicate NoLaterLeave(b: Book, w: Window, e: Entry)
    requires e in b
  {
    b[e].left.None? || b[e].left.value.at <= w.end
  }

  /**
    The plan ends inside the zone of `later`, a visit entered after the window that is still open,
    and the visit the plan leaves open is new, or stored with no leave after the window's end.
   */
  ghost predicate BlockedBy(b: Book, w: Window, plan: seq<Planned>, later: Entry, i: int) {
    && 0 <= i < |plan| && plan[i].left.None? && plan[i].key == later.zone
    && later in b && later.at > w.end && b[later].left.None?
    && ((forall e :: !StoredFor(b, w, plan[i], e)) || exists e :: StoredFor(b, w, plan[i], e) && NoLaterLeave(b, w, e))
  }

  /**
    A carried visit that will be open after the pass if the plan leaves it open: no stored leave after the
    window's end.
   */
  predicate Reopens(b: Book, w: Window, e: Entry) {
    IsCarried(b, w, e) && NoLaterLeave(b, w, e)
  }

  /** The plan leaves open the carried visit of a zone that has two. */
  ghost predicate CarriedTwice(b: Book, w: Window, plan: seq<Planned>, e: Entry, f: Entry) {
    && e != f && e.zone == f.zone && Reopens(b, w, e) && Reopens(b, w, f)
    && CarriedItem(plan, e.zone).Some? && CarriedItem(plan, e.zone).value.left.None?
  }

  ghost predicate Blocked(b: Book, w: Window, plan: seq<Planned>) {
    (exists later, i :: BlockedBy(b, w, plan, later, i)) || exists e, f :: CarriedTwice(b, w, plan, e, f)
  }

  ghost predicate Admissible(b: Book, w: Window) {
    FreshOnce(b, PlanFor(b, w)) && !Blocked(b, w, PlanFor(b, w))
  }

  /** An open item is its zone's last, so it is what the plan has for its entry. */
  lemma OpenItemIsLast(b: Book, w: Window, i: int)
    requires Proper(w) && 0 <= i < |PlanFor(b, w)| && PlanFor(b, w)[i].left.None?
    ensures var p := PlanFor(b, w)[i];
            && p.key in Keys(w.zones)
            && ItemsOf(PlanFor(b, w), p.key) != []
            && p == ItemsOf(PlanFor(b, w), p.key)[|ItemsOf(PlanFor(b, w), p.key)| - 1]
    ensures var p := PlanFor(b, w)[i];
            p.entered.Some? ==>
              w.start < p.entered.value.at <= w.end && ItemFor(b, w, PlanFor(b, w), EntryOf(p)) == Some(p)
    ensures var p := PlanFor(b, w)[i];
            p.entered.None? ==> CarriedItem(PlanFor(b, w), p.key) == Some(p)
  {
    var plan := PlanFor(b, w);
    var p := plan[i];
    PlanKeys(w.zones, InsideAtStart(b, w), w.positions, w.start, w.end);
    assert p in plan;
    var k :| 0 <= k < |w.zones| && w.zones[k].key == p.key;
    ZoneShare(b, w, k);
    ItemsOfMembers(plan, p.key);
    assert p in ItemsOf(plan, p.key);
  }

  /** A visit that ends open is either one the plan leaves open or a later window's. */
  lemma EndsOpen(b: Book, w: Window, k: nat, e: Entry)
    requires Proper(w) && k < |w.zones| && e.zone == w.zones[k].key
    requires e in Reconciled(b, w) && Reconciled(b, w)[e].left.None?
    ensures var item := ItemFor(b, w, PlanFor(b, w), e);
            if item.Some? then item.value.left.None? else e in b && b[e].left.None? && e.at > w.end
  {
    assert e == Entry(w.zones[k].key, e.at);
    assert e.zone in Keys(w.zones);
    InReconciled(b, w, e);
    ItemForShape(b, w, k, e.at);
  }

  /** A zone has one open item, so the visits it is about are one visit, or both are carried. */
  lemma OneOpenItem(b: Book, w: Window, k: nat, e: Entry, f: Entry)
    requires Proper(w) && k < |w.zones| && e.zone == f.zone == w.zones[k].key
    requires var item := ItemFor(b, w, PlanFor(b, w), e); item.Some? && item.value.left.None?
    requires var item := ItemFor(b, w, PlanFor(b, w), f); item.Some? && item.value.left.None?
    ensures e == f || (IsCarried(b, w, e) && IsCarried(b, w, f))
  {
    hide PlanFor, ItemsOf, CarriedItem, LastAt, Plan;
    var items := ItemsOf(PlanFor(b, w), e.zone);
    ZoneShare(b, w, k);
    LastAtEntry(items, e.at);
    LastAtEntry(items, f.at);
    var p, q := ItemFor(b, w, PlanFor(b, w), e).value, ItemFor(b, w, PlanFor(b, w), f).value;
    assert p in items && q in items;
    assert p == items[|items| - 1] && q == items[|items| - 1];
  }

  /** Two visits of one zone end open only if one was entered after the window, or both were carried into it. */
  lemma TwoOpen(b: Book, w: Window, e: Entry, f: Entry)
    requires Proper(w) && e != f && e.zone == f.zone && e.zone in Keys(w.zones)
    requires e in Reconciled(b, w) && Reconciled(b, w)[e].left.None?
    requires f in Reconciled(b, w) && Reconciled(b, w)[f].left.None?
    requires ItemFor(b, w, PlanFor(b, w), e).Some?
    ensures (f in b && b[f].left.None? && f.at > w.end) || CarriedTwice(b, w, PlanFor(b, w), e, f)
  {
    hide Reconciled, PlanFor, CarriedItem, LastAt, ItemsOf, Plan;
    var k :| 0 <= k < |w.zones| && w.zones[k].key == e.zone;
    EndsOpen(b, w, k, e);
    EndsOpen(b, w, k, f);
    if ItemFor(b, w, PlanFor(b, w), f).Some? {
      OneOpenItem(b, w, k, e, f);
      InReconciled(b, w, e);
      InReconciled(b, w, f);
    }
  }

  lemma LaterClashes(b: Book, w: Window, later: Entry, i: int)
    requires Proper(w) && w.start <= w.end && BlockedBy(b, w, PlanFor(b, w), later, i)
    ensures !SingleOpen(Reconciled(b, w))
  {
    hide Reconciled, PlanFor, ZoneItems, CarriedItem, LastAt, ItemsOf, Plan;
    var plan, r := PlanFor(b, w), Reconciled(b, w);
    var p := plan[i];
    OpenItemIsLast(b, w, i);
    LaterIsKept(b, w, later);
    var e: Entry;
    if s :| StoredFor(b, w, p, s) && NoLaterLeave(b, w, s) {
      e := s;
    } else if p.entered.Some? {
      e := EntryOf(p);
    } else {
      var k :| 0 <= k < |w.zones| && w.zones[k].key == p.key;
      ZoneShare(b, w, k);
      e :| e in b && IsCarried(b, w, e) && e.zone == p.key;
    }
    InReconciled(b, w, e);
    assert e in b ==> StoredFor(b, w, p, e);
    assert e in r && r[e].left.None? && e != later;
  }

  lemma CarriedClash(b: Book, w: Window, e: Entry, f: Entry)
    requires Proper(w) && CarriedTwice(b, w, PlanFor(b, w), e, f)
    ensures !SingleOpen(Reconciled(b, w))
  {
    hide Reconciled, PlanFor, CarriedItem, LastAt, ItemsOf, Plan;
    InReconciled(b, w, e);
    InReconciled(b, w, f);
  }

  /** A pass that is blocked would leave two visits of one zone open. */
  lemma BlockedClashes(b: Book, w: Window)
    requires Proper(w) && w.start <= w.end && Blocked(b, w, PlanFor(b, w))
    ensures !SingleOpen(Reconciled(b, w))
  {
    hide SingleOpen, Reconciled, PlanFor, BlockedBy, CarriedTwice;
    var plan := PlanFor(b, w);
    if later, i :| BlockedBy(b, w, plan, later, i) {
      LaterClashes(b, w, later, i);
    } else {
      var e, f :| CarriedTwice(b, w, plan, e, f);
      CarriedClash(b, w, e, f);
    }
  }

  /** The visit inserted for a fresh item is the one the pass is meant to end with. */
  lemma FreshFinal(b: Book, w: Window, j: int)
    requires Proper(w) && 0 <= j < |PlanFor(b, w)| && IsFresh(b, PlanFor(b, w)[j])
    requires FreshOnce(b, PlanFor(b, w)) || PlanFor(b, w)[j].left.None?
    ensures var p := PlanFor(b, w)[j];
            EntryOf(p) in Reconciled(b, w) && Reconciled(b, w)[EntryOf(p)] == StayOf(p)
  {
    hide Reconciled, CarriedItem, LastAt, ItemsOf, Plan;
    var plan := PlanFor(b, w);
    var p := plan[j];
    InReconciled(b, w, EntryOf(p));
    if p.left.None? {
      OpenItemIsLast(b, w, j);
    } else {
      PlanKeys(w.zones, InsideAtStart(b, w), w.positions, w.start, w.end);
      assert p in plan;
      var k :| 0 <= k < |w.zones| && w.zones[k].key == p.key;
      ZoneShare(b, w, k);
      ItemsOfMembers(plan, p.key);
      assert p in ItemsOf(plan, p.key);
      LastAtEntry(ItemsOf(plan, p.key), p.entered.value.at);
      var q := LastAt(ItemsOf(plan, p.key), p.entered.value.at).value;
      assert q in plan;
      var i :| 0 <= i < |plan| && plan[i] == q;
      assert IsFresh(b, plan[i]) && EntryOf(plan[i]) == EntryOf(p);
      assert i == j;
    }
  }

  lemma FreshAppears(b: Book, w: Window, j: int)
    requires Proper(w) && 0 <= j < |PlanFor(b, w)| && IsFresh(b, PlanFor(b, w)[j])
    ensures EntryOf(PlanFor(b, w)[j]) in Reconciled(b, w)
  {
    var plan := PlanFor(b, w);
    var p := plan[j];
    FreshInOrder(b, w, j);
    InReconciled(b, w, EntryOf(p));
    assert p in plan;
    ItemsOfMembers(plan, p.key);
    assert p in ItemsOf(plan, p.key);
    LastAtEntry(ItemsOf(plan, p.key), p.entered.value.at);
  }

  /** With one open visit a zone, and nothing stored about times after the window's start, nothing blocks a pass. */
  lemma NothingLaterBlocks(b: Book, w: Window)
    requires w.start <= w.end && EndsBy(b, w.start) && SingleOpen(b)
    ensures !Blocked(b, w, PlanFor(b, w))
  {
    hide PlanFor, CarriedItem;
  }

  /** Where a write would leave a second visit of a zone open, the pass was blocked from the start. */
  lemma ClashBlocks(b: Book, w: Window, e: Entry, f: Entry)
    requires Proper(w) && w.start <= w.end
    requires e != f && e.zone == f.zone && e.zone in Keys(w.zones)
    requires e in Reconciled(b, w) && Reconciled(b, w)[e].left.None?
    requires f in Reconciled(b, w) && Reconciled(b, w)[f].left.None?
    requires ItemFor(b, w, PlanFor(b, w), e).Some?
    ensures Blocked(b, w, PlanFor(b, w))
  {
    hide Reconciled, PlanFor, CarriedItem, LastAt, ItemsOf, Plan, CarriedTwice;
    var plan := PlanFor(b, w);
    TwoOpen(b, w, e, f);
    if CarriedTwice(b, w, plan, e, f) {
      return;
    }
    LaterBlocks(b, w, e, f);
  }

  lemma LaterBlocks(b: Book, w: Window, e: Entry, f: Entry)
    requires Proper(w) && w.start <= w.end && e.zone == f.zone && e.zone in Keys(w.zones)
    requires e in Reconciled(b, w) && Reconciled(b, w)[e].left.None? && ItemFor(b, w, PlanFor(b, w), e).Some?
    requires f in b && b[f].left.None? && f.at > w.end
    ensures Blocked(b, w, PlanFor(b, w))
  {
    hide Reconciled, PlanFor, CarriedItem, LastAt, ItemsOf, Plan, CarriedTwice;
    var plan := PlanFor(b, w);
    var k :| 0 <= k < |w.zones| && w.zones[k].key == e.zone;
    ZoneShare(b, w, k);
    EndsOpen(b, w, k, e);
    LastAtEntry(ItemsOf(plan, e.zone), e.at);
    ItemsOfMembers(plan, e.zone);
    var p := ItemFor(b, w, plan, e).value;
    assert p in ItemsOf(plan, e.zone);
    var i :| 0 <= i < |plan| && plan[i] == p;
    InReconciled(b, w, e);
    if e in b {
      assert StoredFor(b, w, p, e) && NoLaterLeave(b, w, e);
    } else {
      forall s ensures !StoredFor(b, w, p, s) {
      }
    }
    assert BlockedBy(b, w, plan, f, i);
  }

  // ------------------------------------------------------------------ what the writes rely on

  /** Whatever the plan says of a visit, its leave does not precede its entry. */
  lemma ItemInOrder(b: Book, w: Window, e: Entry)
    requires Proper(w)
    ensures var item := ItemFor(b, w, PlanFor(b, w), e);
            item.Some? ==> e.zone in Keys(w.zones) && (item.value.left.Some? ==> e.at <= item.value.left.value.at)
  {
    if e.zone in Keys(w.zones) {
      var k :| 0 <= k < |w.zones| && w.zones[k].key == e.zone;
      assert e == Entry(w.zones[k].key, e.at);
      ItemForShape(b, w, k, e.at);
      ZoneShare(b, w, k);
      WalkInOrder(w.zones[k], Carried(w.zones[k], InsideAtStart(b, w)), w.positions);
      LastAtEntry(ItemsOf(PlanFor(b, w), e.zone), e.at);
    } else {
      NoShare(b, w, e.zone);
    }
  }

  lemma FreshInOrder(b: Book, w: Window, j: int)
    requires Proper(w) && 0 <= j < |PlanFor(b, w)| && PlanFor(b, w)[j].entered.Some?
    ensures var p := PlanFor(b, w)[j];
            p.key in Keys(w.zones) && w.start < p.entered.value.at <= w.end
            && (p.left.Some? ==> p.entered.value.at <= p.left.value.at)
  {
    hide Reconciled, CarriedItem, LastAt, ItemsOf, Plan;
    var plan := PlanFor(b, w);
    var p := plan[j];
    PlanKeys(w.zones, InsideAtStart(b, w), w.positions, w.start, w.end);
    assert p in plan;
    var k :| 0 <= k < |w.zones| && w.zones[k].key == p.key;
    ZoneShare(b, w, k);
    WalkInOrder(w.zones[k], Carried(w.zones[k], InsideAtStart(b, w)), w.positions);
    ItemsOfMembers(plan, p.key);
    assert p in ItemsOf(plan, p.key);
  }

  /** What a pass makes of a stored visit, said the way the writes are grouped. */
  lemma StoredFate(b: Book, w: Window, e: Entry)
    requires Proper(w) && e in b
    ensures var item := ItemFor(b, w, PlanFor(b, w), e);
            var r := Reconciled(b, w);
            && (e !in r <==> IsWithin(b, w, e) && item.None? && e.zone in Keys(w.zones))
            && (item.Some? ==>
                  (IsCarried(b, w, e) || IsWithin(b, w, e)) && e in r
                  && r[e] == Settle(b[e], item.value, w.end))
            && (item.None? && e in r ==>
                  r[e] == if IsCarried(b, w, e) && e.zone !in Keys(w.zones) && b[e].left.None?
                          then b[e].(left := Some(ZoneRemoved(w.start))) else b[e])
  {
    InReconciled(b, w, e);
  }

  /** A visit not stored before appears exactly when a fresh item brings it. */
  lemma NewIsFresh(b: Book, w: Window, e: Entry)
    requires Proper(w) && e !in b && e in Reconciled(b, w)
    ensures exists j :: 0 <= j < |PlanFor(b, w)| && IsFresh(b, PlanFor(b, w)[j]) && EntryOf(PlanFor(b, w)[j]) == e
  {
    var plan := PlanFor(b, w);
    InReconciled(b, w, e);
    LastAtEntry(ItemsOf(plan, e.zone), e.at);
    ItemsOfMembers(plan, e.zone);
    var p := LastAt(ItemsOf(plan, e.zone), e.at).value;
    assert p in plan;
    var j :| 0 <= j < |plan| && plan[j] == p;
    assert IsFresh(b, plan[j]) && EntryOf(plan[j]) == e;
  }
}
