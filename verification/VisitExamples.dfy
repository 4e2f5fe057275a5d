/**
  Windows that show where a pass falls short of the batch result: two the open-visit index refuses,
  one the entry index refuses, and one whose corrected exit point is not taken up.
 */
module VisitExamples {
  import opened Options
  import opened VisitPlan
  import opened VisitBook

  const HERE := LngLat(1.0, 0.0)
  const THERE := LngLat(2.0, 0.0)
  const ELSEWHERE := LngLat(3.0, 0.0)

  function Yard(): Zone {
    Zone("yard", (p: LngLat) => p == HERE)
  }

  function Hours(positions: seq<Position>): Window {
    Window(0, 10, [Yard()], positions)
  }

  lemma YardPlan(b: Book, positions: seq<Position>)
    requires "yard" !in InsideAtStart(b, Hours(positions))
    ensures PlanFor(b, Hours(positions)) == Walk(Yard(), None, positions)
  {
    var w := Hours(positions);
    var s := InsideAtStart(b, w);
    assert w.zones[..|w.zones| - 1] == [] && w.zones[|w.zones| - 1] == Yard();
    assert Plan([], s, positions) == [];
    assert Plan(w.zones, s, positions) == Plan([], s, positions) + ZonePlan(Yard(), s, positions);
  }

  /**
    A visit stored as left at 5 turns out never to have been left in the window, while a later visit
    to the same zone is still open: the pass would leave two open, so it is refused.
   */
  lemma ReopenedBeforeLaterVisit()
    ensures var b: Book := map[Entry("yard", 1) := Stay(HERE, Some(Exited(5, THERE))),
              Entry("yard", 12) := Stay(HERE, None)];
            var w := Hours([Position(1, HERE)]);
            Proper(w) && SingleOpen(b) && !Admissible(b, w)
  {
    var b: Book := map[Entry("yard", 1) := Stay(HERE, Some(Exited(5, THERE))), Entry("yard", 12) := Stay(HERE, None)];
    var w := Hours([Position(1, HERE)]);
    var item := Planned("yard", Some(Crossing(1, HERE)), None);
    YardPlan(b, w.positions);
    assert w.positions[1..] == [];
    assert PlanFor(b, w) == Walk(Yard(), Some(item), []) == [item];
    assert PlanFor(b, w)[0] == item;
    assert StoredFor(b, w, item, Entry("yard", 1)) && NoLaterLeave(b, w, Entry("yard", 1));
    assert BlockedBy(b, w, PlanFor(b, w), Entry("yard", 12), 0);
  }

  /** Two visits of one zone are carried into a window the machine spends inside: both would end open. */
  lemma TwoCarriedVisits()
    ensures var b: Book := map[Entry("yard", 1) := Stay(HERE, Some(Exited(7, THERE))),
              Entry("yard", 3) := Stay(HERE, None)];
            var w := Window(5, 10, [Yard()], [Position(6, HERE)]);
            Proper(w) && SingleOpen(b) && !Admissible(b, w)
  {
    var e, f := Entry("yard", 1), Entry("yard", 3);
    var b: Book := map[e := Stay(HERE, Some(Exited(7, THERE))), f := Stay(HERE, None)];
    var w := Window(5, 10, [Yard()], [Position(6, HERE)]);
    var item := Planned("yard", None, None);
    assert IsCarried(b, w, f);
    assert w.zones[..|w.zones| - 1] == [] && w.zones[|w.zones| - 1] == Yard() && w.positions[1..] == [];
    assert Plan([], InsideAtStart(b, w), w.positions) == [];
    assert Walk(Yard(), Some(item), w.positions) == Walk(Yard(), Some(item), []) == [item];
    assert PlanFor(b, w) == [item];
    assert [item][..0] == [];
    assert CarriedItem([item], "yard") == Some(item);
    assert CarriedTwice(b, w, PlanFor(b, w), e, f);
  }

  /** In, out and in again within one millisecond: two visits with one entry key, so the second insert is refused. */
  lemma TwiceInOneMillisecond()
    ensures var w := Hours([Position(5, HERE), Position(5, THERE), Position(5, HERE)]);
            Proper(w) && !Admissible(map[], w)
  {
    var ps := [Position(5, HERE), Position(5, THERE), Position(5, HERE)];
    var w := Hours(ps);
    YardPlan(map[], ps);
    var open := Planned("yard", Some(Crossing(5, HERE)), None);
    var done := open.(left := Some(Crossing(5, THERE)));
    var rest := ps[2..];
    assert ps[1..] == [Position(5, THERE), Position(5, HERE)];
    assert ps[1..][1..] == rest == [Position(5, HERE)] && rest[1..] == [];
    assert Walk(Yard(), None, rest) == Walk(Yard(), Some(open), []) == [open];
    assert Walk(Yard(), Some(open), ps[1..]) == [done] + Walk(Yard(), None, rest);
    assert PlanFor(map[], w) == [done, open];
    assert IsFresh(map[], PlanFor(map[], w)[0]) && IsFresh(map[], PlanFor(map[], w)[1]);
  }

  /** The machine in the yard from 1, gone elsewhere at 5. */
  function GoneElsewhere(): Window {
    Hours([Position(1, HERE), Position(5, ELSEWHERE)])
  }

  lemma GoneElsewherePlan(b: Book)
    requires "yard" !in InsideAtStart(b, GoneElsewhere())
    ensures var done := Planned("yard", Some(Crossing(1, HERE)), Some(Crossing(5, ELSEWHERE)));
            PlanFor(b, GoneElsewhere()) == [done] && LastAt(ItemsOf([done], "yard"), 1) == Some(done)
  {
    hide PlanFor;
    var ps := GoneElsewhere().positions;
    var open := Planned("yard", Some(Crossing(1, HERE)), None);
    var done := open.(left := Some(Crossing(5, ELSEWHERE)));
    YardPlan(b, ps);
    assert ps[1..] == [Position(5, ELSEWHERE)] && ps[1..][1..] == [];
    assert Walk(Yard(), Some(open), ps[1..]) == [done] + Walk(Yard(), None, []);
    assert Walk(Yard(), None, ps) == [done];
    assert [done][..0] == [];
    assert ItemsOf([done], "yard") == ItemsOf([], "yard") + [done] == [done];
  }

  /** A re-run finds the leave at its time already, so a place corrected by a late reading is not taken up. */
  lemma ExitPlaceStays()
    ensures var e, w := Entry("yard", 1), GoneElsewhere();
            var b: Book := map[e := Stay(HERE, Some(Exited(5, THERE)))];
            Proper(w) && e in Reconciled(b, w) && Reconciled(b, w)[e].left == Some(Exited(5, THERE))
  {
    hide Reconciled, PlanFor, Plan, ItemsOf, LastAt;
    var e, w := Entry("yard", 1), GoneElsewhere();
    var b: Book := map[e := Stay(HERE, Some(Exited(5, THERE)))];
    GoneElsewherePlan(b);
    InReconciled(b, w, e);
  }

  /** A first run over the same readings stores the place they give. */
  lemma ExitPlaceFirst()
    ensures var e, w := Entry("yard", 1), GoneElsewhere();
            e in Reconciled(map[], w) && Reconciled(map[], w)[e].left == Some(Exited(5, ELSEWHERE))
  {
    hide Reconciled, PlanFor, Plan, ItemsOf, LastAt;
    GoneElsewherePlan(map[]);
    InReconciled(map[], GoneElsewhere(), Entry("yard", 1));
  }
}
