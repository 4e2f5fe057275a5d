/**
  Whole runs of passes: which of them the indexes let through, and where the places stored for a
  visit's entry and exit are those of one fold over everything.
 */
module VisitRuns {
  import opened Options
  import opened VisitPlan
  import opened VisitBook

  // ------------------------------------------------------------------ when a run is let through

  /** Every window of a run is admissible when its turn comes. */
  ghost predicate AllAdmissible(b: Book, ws: seq<Window>)
    decreases ws
  {
    ws == [] || (Admissible(b, ws[0]) && AllAdmissible(Reconciled(b, ws[0]), ws[1..]))
  }

  /** No two visits of one zone are entered at one moment. */
  ghost predicate EntriesOnce(plan: seq<Planned>) {
    forall i, j :: 0 <= i < j < |plan| && plan[i].entered.Some? && plan[j].entered.Some? ==>
        EntryOf(plan[i]) != EntryOf(plan[j])
  }

  ghost predicate NoneDoubled(b: Book, ws: seq<Window>)
    decreases ws
  {
    ws == [] || (EntriesOnce(PlanFor(b, ws[0])) && NoneDoubled(Reconciled(b, ws[0]), ws[1..]))
  }

  /** With nothing stored about later times, a window is refused only for a doubled entry. */
  lemma AdmissibleWhenFirst(b: Book, w: Window)
    requires Proper(w) && w.start <= w.end && EndsBy(b, w.start) && SingleOpen(b)
    ensures Admissible(b, w) <==> EntriesOnce(PlanFor(b, w))
  {
    hide PlanFor, Blocked, Proper, SingleOpen;
    var plan := PlanFor(b, w);
    NothingLaterBlocks(b, w);
    forall i | 0 <= i < |plan| && plan[i].entered.Some? ensures IsFresh(b, plan[i]) {
      FreshInOrder(b, w, i);
    }
  }

  /** An admissible window leaves at most one visit of a zone open. */
  lemma AdmissibleKeepsSingle(b: Book, w: Window)
    requires Proper(w) && w.start <= w.end && SingleOpen(b) && InZones(b, w.zones) && Admissible(b, w)
    ensures SingleOpen(Reconciled(b, w))
  {
    hide Reconciled, PlanFor, Blocked, FreshOnce, Proper, ItemFor;
    var r := Reconciled(b, w);
    PassStaysInZones(b, w);
    forall e, f | e in r && f in r && e.zone == f.zone && r[e].left.None? && r[f].left.None? ensures e == f {
      if e != f {
        if ItemFor(b, w, PlanFor(b, w), e).Some? {
          ClashBlocks(b, w, e, f);
        } else if ItemFor(b, w, PlanFor(b, w), f).Some? {
          ClashBlocks(b, w, f, e);
        } else {
          OpenAsBefore(b, w, e);
          OpenAsBefore(b, w, f);
        }
      }
    }
  }

  lemma PassStaysInZones(b: Book, w: Window)
    requires Proper(w) && w.start <= w.end && InZones(b, w.zones)
    ensures InZones(Reconciled(b, w), w.zones)
  {
    hide Reconciled, PlanFor, Proper;
    forall e | e in Reconciled(b, w) ensures e.zone in Keys(w.zones) {
      if e !in b {
        NewIsFresh(b, w, e);
        var j :| 0 <= j < |PlanFor(b, w)| && IsFresh(b, PlanFor(b, w)[j]) && EntryOf(PlanFor(b, w)[j]) == e;
        FreshInOrder(b, w, j);
      }
    }
  }

  lemma OpenAsBefore(b: Book, w: Window, e: Entry)
    requires Proper(w) && e in Reconciled(b, w) && Reconciled(b, w)[e].left.None?
              && ItemFor(b, w, PlanFor(b, w), e).None?
    ensures e in b && b[e].left.None?
  {
    hide PlanFor, Proper, ItemFor;
    InReconciled(b, w, e);
  }

  /** A run from nothing is let through exactly when no window of it doubles an entry. */
  lemma {:induction false} FirstRunAdmissible(b: Book, ws: seq<Window>, zones: seq<Zone>, start: int, end: int)
    requires Consecutive(ws, zones, start, end)
    requires EndsBy(b, start) && SingleOpen(b) && InZones(b, zones)
    ensures AllAdmissible(b, ws) <==> NoneDoubled(b, ws)
    decreases ws
  {
    hide Reconciled, Admissible, EntriesOnce, PlanFor, SingleOpen, Proper;
    if ws == [] {
    } else {
      var w := ws[0];
      AdmissibleWhenFirst(b, w);
      if Admissible(b, w) {
        AdmissibleKeepsSingle(b, w);
        PassStaysInside(b, w, w.end);
        FirstRunAdmissible(Reconciled(b, w), ws[1..], zones, w.end, end);
      }
    }
  }

  lemma {:induction false} OneMoreWindow(b: Book, ws: seq<Window>, i: nat)
    requires i < |ws|
    ensures RunWindows(b, ws[..i + 1]) == Reconciled(RunWindows(b, ws[..i]), ws[i])
    decreases i
  {
    hide Reconciled;
    if i == 0 {
      assert ws[..1][0] == ws[0] && ws[..1][1..] == [] && ws[..0] == [];
    } else {
      OneMoreWindow(Reconciled(b, ws[0]), ws[1..], i - 1);
      assert ws[..i + 1][1..] == ws[1..][..i] && ws[..i][1..] == ws[1..][..i - 1];
    }
  }

  lemma {:induction false} AllProper(ws: seq<Window>, zones: seq<Zone>, start: int, end: int)
    requires Consecutive(ws, zones, start, end)
    ensures forall i :: 0 <= i < |ws| ==> Proper(ws[i]) && ws[i].start <= ws[i].end
    decreases ws
  {
    hide Proper;
    if ws == [] {
    } else {
      AllProper(ws[1..], zones, ws[0].end, end);
      forall i | 0 <= i < |ws| ensures Proper(ws[i]) && ws[i].start <= ws[i].end {
        if i > 0 {
          assert ws[i] == ws[1..][i - 1];
        }
      }
    }
  }

  // ------------------------------------------------------------------ where a visit began and ended

  /** Exactly the visits of one fold over `ps`, with the places they began and ended at. */
  ghost predicate IsExactBatch(b: Book, zones: seq<Zone>, ps: seq<Position>) {
    && InZones(b, zones)
    && forall k, t :: 0 <= k < |zones| ==>
         var stays := Follow(zones[k], NOWHERE, ps).stays;
         && (t in stays <==> Entry(zones[k].key, t) in b)
         && (t in stays ==> b[Entry(zones[k].key, t)] == Stay(stays[t].entry, Exit(stays[t].left)))
  }

  /** The stored leave agrees with the leave `left` of the fold in time, so a pass sees nothing to write. */
  predicate SameTime(b: Book, e: Entry, left: Crossing) {
    e in b && LeftAt(b[e]) == Some(left.at)
  }

  predicate LaterLeave(b: Book, e: Entry, upto: int) {
    e in b && b[e].left.Some? && b[e].left.value.at > upto
  }

  /**
    What a run that began with `first` stored says of the visit at `e` the fold follows as `trip`, the run
    being at `upto`.
   */
  function Placed(first: Book, e: Entry, trip: Trip, upto: int): Stay {
    Stay(if e in first then first[e].entry else trip.entry,
         match trip.left
         case Some(left) => if SameTime(first, e, left) then first[e].left else Exit(Some(left))
         case None => if LaterLeave(first, e, upto) then first[e].left else None)
  }

  /** Up to `upto` the visits are as placed; later ones are untouched. */
  ghost predicate PlacedUpTo(first: Book, b: Book, key: ZoneKey, tr: Track, upto: int) {
    && (forall t :: t in tr.stays ==>
      Entry(key, t) in b && b[Entry(key, t)] == Placed(first, Entry(key, t), tr.stays[t], upto))
    && (forall t :: t > upto ==>
         && (Entry(key, t) in b <==> Entry(key, t) in first)
         && (Entry(key, t) in b ==> b[Entry(key, t)] == first[Entry(key, t)]))
  }

  lemma PlacedAtFirst(b: Book, key: ZoneKey, tr: Track, upto: int)
    requires Wellformed(tr, upto) && AgreesUpTo(b, key, tr, upto)
    ensures PlacedUpTo(b, b, key, tr, upto)
  {
    forall t | t in tr.stays
      ensures Entry(key, t) in b && b[Entry(key, t)] == Placed(b, Entry(key, t), tr.stays[t], upto)
    {
      assert At(tr.stays[t].left) == Known(LeftAt(b[Entry(key, t)]), upto);
    }
  }

  /** One pass: each visit of the window's zones is placed as the run's stored visits say. */
  lemma PassPlaces(first: Book, b: Book, w: Window, k: nat, tr: Track)
    requires Proper(w) && w.start <= w.end && k < |w.zones|
    requires Wellformed(tr, w.start) && AgreesUpTo(b, w.zones[k].key, tr, w.start)
    requires PlacedUpTo(first, b, w.zones[k].key, tr, w.start)
    ensures PlacedUpTo(first, Reconciled(b, w), w.zones[k].key, Follow(w.zones[k], tr, w.positions), w.end)
  {
    hide Reconciled, Follow, Proper, Wellformed, AgreesUpTo, PlacedUpTo, Placed;
    var z := w.zones[k];
    var after, r := Follow(z, tr, w.positions), Reconciled(b, w);
    forall t | t in after.stays
        ensures Entry(z.key, t) in r && r[Entry(z.key, t)] == Placed(first, Entry(z.key, t), after.stays[t], w.end) {
      VisitPlaced(first, b, w, k, tr, t);
    }
    forall t | t > w.end
      ensures (Entry(z.key, t) in r <==> Entry(z.key, t) in first)
        && (Entry(z.key, t) in r ==> r[Entry(z.key, t)] == first[Entry(z.key, t)])
    {
      LaterUntouched(first, b, w, k, tr, t);
    }
    PlacesPut(first, r, z.key, after, w.end);
  }

  lemma PlacesPut(first: Book, b: Book, key: ZoneKey, tr: Track, upto: int)
    requires forall t :: t in tr.stays ==>
              Entry(key, t) in b && b[Entry(key, t)] == Placed(first, Entry(key, t), tr.stays[t], upto)
    requires forall t :: t > upto ==> && (Entry(key, t) in b <==> Entry(key, t) in first)
                                      && (Entry(key, t) in b ==> b[Entry(key, t)] == first[Entry(key, t)])
    ensures PlacedUpTo(first, b, key, tr, upto)
  {
  }

  lemma LaterUntouched(first: Book, b: Book, w: Window, k: nat, tr: Track, t: int)
    requires Proper(w) && w.start <= w.end < t && k < |w.zones| && PlacedUpTo(first, b, w.zones[k].key, tr, w.start)
    ensures var e := Entry(w.zones[k].key, t);
            (e in Reconciled(b, w) <==> e in first) && (e in Reconciled(b, w) ==> Reconciled(b, w)[e] == first[e])
  {
    hide Reconciled, PlanFor, Proper, Placed;
    var e := Entry(w.zones[k].key, t);
    InReconciled(b, w, e);
    ItemForShape(b, w, k, t);
  }

  lemma VisitPlaced(first: Book, b: Book, w: Window, k: nat, tr: Track, t: int)
    requires Proper(w) && w.start <= w.end && k < |w.zones|
    requires Wellformed(tr, w.start) && AgreesUpTo(b, w.zones[k].key, tr, w.start)
    requires PlacedUpTo(first, b, w.zones[k].key, tr, w.start)
    requires t in Follow(w.zones[k], tr, w.positions).stays
    ensures var e, trip := Entry(w.zones[k].key, t), Follow(w.zones[k], tr, w.positions).stays[t];
            e in Reconciled(b, w) && Reconciled(b, w)[e] == Placed(first, e, trip, w.end)
  {
    hide Reconciled, PlanFor, Follow, Proper, ItemFor, AgreesUpTo, PlacedUpTo, Placed, Followed, Settle;
    var e := Entry(w.zones[k].key, t);
    assert e.zone in Keys(w.zones);
    FollowedStay(b, w, k, tr, t);
    ItemForShape(b, w, k, t);
    InReconciled(b, w, e);
    CarriedIsOpen(b, w, e.zone, tr);
    var item := ItemFor(b, w, PlanFor(b, w), e);
    if item.None? {
      Stood(first, b, w, tr, e);
    } else if IsCarried(b, w, e) {
      CarriedPlaced(first, b, w, tr, e, item.value);
    } else {
      NewPlaced(first, b, w, tr, e, item.value);
    }
  }

  /** A visit that ended before the window is as it was. */
  lemma Stood(first: Book, b: Book, w: Window, tr: Track, e: Entry)
    requires w.start <= w.end && e.at in tr.stays && tr.open != Some(e.at)
    requires Wellformed(tr, w.start) && PlacedUpTo(first, b, e.zone, tr, w.start)
    ensures e in b && b[e] == Placed(first, e, tr.stays[e.at], w.end)
  {
    assert e == Entry(e.zone, e.at);
  }

  /** The carried visit's leave: the planned one, unless the stored one is at the same time or still to come. */
  lemma CarriedPlaced(first: Book, b: Book, w: Window, tr: Track, e: Entry, item: Planned)
    requires w.start <= w.end && tr.open == Some(e.at) && item.entered.None?
    requires item.left.Some? ==> w.start < item.left.value.at <= w.end
    requires Wellformed(tr, w.start) && PlacedUpTo(first, b, e.zone, tr, w.start) && e.at in tr.stays
    ensures e in b && Settle(b[e], item, w.end) == Placed(first, e, Followed(item, tr, e.at), w.end)
  {
    assert e == Entry(e.zone, e.at);
  }

  lemma NewPlaced(first: Book, b: Book, w: Window, tr: Track, e: Entry, item: Planned)
    requires w.start < e.at <= w.end && item.entered.Some? && item.entered.value.at == e.at
    requires item.left.Some? ==> w.start < item.left.value.at <= w.end
    requires PlacedUpTo(first, b, e.zone, tr, w.start)
    ensures e in b ==> Settle(b[e], item, w.end) == Placed(first, e, Followed(item, tr, e.at), w.end)
    ensures e !in b ==>
              Stay(item.entered.value.point, Exit(item.left))
              == Placed(first, e, Followed(item, tr, e.at), w.end)
  {
    assert e == Entry(e.zone, e.at);
  }

  lemma {:induction false} RunPlaces(first: Book, b: Book, ws: seq<Window>, zones: seq<Zone>, start: int, end: int,
      k: nat, tr: Track)
    requires Consecutive(ws, zones, start, end) && k < |zones|
    requires Wellformed(tr, start) && AgreesUpTo(b, zones[k].key, tr, start)
              && PlacedUpTo(first, b, zones[k].key, tr, start)
    ensures PlacedUpTo(first, RunWindows(b, ws), zones[k].key, Follow(zones[k], tr, AllPositions(ws)), end)
    decreases ws
  {
    hide Reconciled, Proper, Wellformed, AgreesUpTo, PlacedUpTo;
    if ws == [] {
    } else {
      var w := ws[0];
      PassIsStep(b, w, k, tr);
      PassPlaces(first, b, w, k, tr);
      FollowAppend(zones[k], tr, w.positions, AllPositions(ws[1..]));
      RunPlaces(first, Reconciled(b, w), ws[1..], zones, w.end, end, k, Follow(zones[k], tr, w.positions));
    }
  }

  /**
    Late readings, visit by visit: the stored place of entry is the batch's exactly if it was so
    before, and the place of exit exactly if the leave moved or the place already agreed. A visit the
    machine is still in keeps a leave stored for after the run.
   */
  lemma RerunPlaces(b: Book, before: seq<Position>, ws: seq<Window>, zones: seq<Zone>, start: int, end: int, k: nat,
      t: int)
    requires Consecutive(ws, zones, start, end) && k < |zones|
    requires var tr := Follow(zones[k], NOWHERE, before);
             Wellformed(tr, start) && AgreesUpTo(b, zones[k].key, tr, start)
    requires t in Follow(zones[k], NOWHERE, before + AllPositions(ws)).stays
    ensures var e, trip := Entry(zones[k].key, t), Follow(zones[k], NOWHERE, before + AllPositions(ws)).stays[t];
            var r := RunWindows(b, ws);
            && e in r
            && (r[e].entry == trip.entry <==> (e in b ==> b[e].entry == trip.entry))
            && (trip.left.Some? ==>
                  (r[e].left == Exit(trip.left) <==>
                    (e in b ==> LeftAt(b[e]) != At(trip.left) || b[e].left == Exit(trip.left))))
            && (trip.left.None? ==> r[e].left == if LaterLeave(b, e, end) then b[e].left else None)
  {
    hide Consecutive, Wellformed, AgreesUpTo, RunWindows, AllPositions, Follow;
    var tr := Follow(zones[k], NOWHERE, before);
    PlacedAtFirst(b, zones[k].key, tr, start);
    RunPlaces(b, b, ws, zones, start, end, k, tr);
    FollowAppend(zones[k], NOWHERE, before, AllPositions(ws));
  }

  /** From an empty book, consecutive windows in order give the visits of one fold over everything, times and places. */
  lemma FirstRunIsBatch(ws: seq<Window>, zones: seq<Zone>, start: int, end: int)
    requires Consecutive(ws, zones, start, end)
    ensures IsExactBatch(RunWindows(map[], ws), zones, AllPositions(ws))
  {
    hide Consecutive, RunWindows, AllPositions, Follow;
    FromNothing(zones, start);
    RerunIsBatch(map[], [], ws, zones, start, end);
    assert [] + AllPositions(ws) == AllPositions(ws);
    var r := RunWindows(map[], ws);
    forall k, t | 0 <= k < |zones| && t in Follow(zones[k], NOWHERE, AllPositions(ws)).stays
      ensures var trip := Follow(zones[k], NOWHERE, AllPositions(ws)).stays[t];
              Entry(zones[k].key, t) in r && r[Entry(zones[k].key, t)] == Stay(trip.entry, Exit(trip.left))
    {
      RerunPlaces(map[], [], ws, zones, start, end, k, t);
    }
  }

  lemma FromNothing(zones: seq<Zone>, start: int)
    ensures forall k :: 0 <= k < |zones| ==>
              var tr := Follow(zones[k], NOWHERE, []);
              Wellformed(tr, start) && AgreesUpTo(map[], zones[k].key, tr, start)
  {
  }
}
