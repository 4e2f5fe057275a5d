/**
  The tracker's reconcile pass (`geofence-tracker.service.ts`) for one machine, as the writes
  it makes: each row write meets the table's two unique indexes, each change puts one event in
  the outbox, and a refused write undoes the whole transaction.
 */
module GeofenceTracking {
  import opened Options
  import opened VisitPlan
  import opened VisitBook
  import opened VisitRuns

  datatype Row = Row(id: nat, stay: Stay)

  type Table = map<Entry, Row>

  datatype Kind = Entered | Left | Revised | Withdrawn

  /** The payload's account of the visit, the leave it replaces when revised, and when it says this happened. */
  datatype VisitEvent = VisitEvent(kind: Kind, id: nat, entry: Entry, left: Option<int>, previousLeftAt: Option<int>,
      at: int)

  /** How many changes of each kind a pass made. */
  type TrackResult = multiset<Kind>

  function Content(t: Table): Book {
    map e | e in t :: t[e].stay
  }

  /** The outbox's events about this machine, oldest first. */
  datatype Log = Nothing | Then(before: Log, event: VisitEvent)

  /** What a reader that keeps the last word on each visit id knows. */
  function Replay(log: Log): map<nat, (Entry, Option<int>)> {
    match log
    case Nothing => map[]
    case Then(before, e) =>
      if e.kind.Withdrawn? then Replay(before) - {e.id} else Replay(before)[e.id := (e.entry, e.left)]
  }

  /** The events of a log, counted by kind. */
  function Tally(log: Log): TrackResult {
    match log
    case Nothing => multiset{}
    case Then(before, e) => Tally(before) + multiset{e.kind}
  }

  /** The events of a log, in no order. */
  function Events(log: Log): multiset<VisitEvent> {
    match log
    case Nothing => multiset{}
    case Then(before, e) => Events(before) + multiset{e}
  }

  predicate Extends(before: Log, after: Log) {
    after == before || (after.Then? && Extends(before, after.before))
  }

  // ---------------------------------------------------------------- what a pass has to tell

  /** What there is to tell of one visit, from the table before a pass over a window up to `end` and after it. */
  function NewsAbout(was: Table, now: Table, e: Entry, end: int): set<VisitEvent> {
    if e in was && e !in now then {VisitEvent(Withdrawn, was[e].id, e, LeftAt(was[e].stay), None, end)}
    else if e in now && e !in was then
      var id, left := now[e].id, LeftAt(now[e].stay);
      {VisitEvent(Entered, id, e, left, None, e.at)}
      + if left.Some? then {VisitEvent(Left, id, e, left, None, left.value)} else {}
    else if e in now && LeftAt(now[e].stay) != LeftAt(was[e].stay) then
      var left, previous := LeftAt(now[e].stay), LeftAt(was[e].stay);
      {VisitEvent(if previous.None? then Left else Revised, was[e].id, e, left, previous,
                  if left.Some? then left.value else previous.value)}
    else {}
  }

  function News(was: Table, now: Table, end: int): set<VisitEvent> {
    set e, v | e in was.Keys + now.Keys && v in NewsAbout(was, now, e, end) :: v
  }

  /** Between the two tables the visit was entered, left, revised or withdrawn. */
  predicate Changed(was: Table, now: Table, kind: Kind, e: Entry) {
    match kind
    case Entered => e in now && e !in was
    case Left => e in now && now[e].stay.left.Some? && (e !in was || was[e].stay.left.None?)
    case Revised => e in now && e in was && was[e].stay.left.Some? && LeftAt(now[e].stay) != LeftAt(was[e].stay)
    case Withdrawn => e in was && e !in now
  }

  function ChangedAs(was: Table, now: Table, kind: Kind): set<Entry> {
    set e | e in was.Keys + now.Keys && Changed(was, now, kind, e)
  }

  /** The log has grown by exactly the news between the two tables, each event once. */
  ghost predicate Told(was: Table, log0: Log, now: Table, log: Log, end: int) {
    && Extends(log0, log)
    && Events(log) == Events(log0) + multiset(News(was, now, end))
    && forall k :: Tally(log)[k] == Tally(log0)[k] + |ChangedAs(was, now, k)|
  }

  lemma NothingToTell(t: Table, log: Log, end: int)
    ensures Told(t, log, t, log, end)
  {
    assert News(t, t, end) == {};
    forall k ensures ChangedAs(t, t, k) == {} {
    }
  }

  /** A first change to one visit adds what there is to tell of it, and nothing of any other. */
  lemma NewsGrows(was: Table, t: Table, after: Table, e: Entry, end: int)
    requires (e in was <==> e in t) && (e in t ==> t[e] == was[e])
    requires forall f :: f != e ==> (f in after <==> f in t) && (f in t ==> after[f] == t[f])
    ensures News(was, after, end) == News(was, t, end) + NewsAbout(was, after, e, end)
    ensures News(was, t, end) !! NewsAbout(was, after, e, end)
  {
    assert NewsAbout(was, t, e, end) == {};
    forall f | f != e ensures NewsAbout(was, after, f, end) == NewsAbout(was, t, f, end) {
    }
    forall f, v | v in NewsAbout(was, t, f, end) ensures v.entry == f {
    }
    forall v | v in NewsAbout(was, after, e, end) ensures v in News(was, after, end) {
    }
  }

  lemma ChangesGrow(was: Table, t: Table, after: Table, e: Entry, kind: Kind)
    requires (e in was <==> e in t) && (e in t ==> t[e] == was[e])
    requires forall f :: f != e ==> (f in after <==> f in t) && (f in t ==> after[f] == t[f])
    ensures |ChangedAs(was, after, kind)|
         == |ChangedAs(was, t, kind)| + if Changed(was, after, kind, e) then 1 else 0
  {
    forall f
      ensures f != e ==> (f in ChangedAs(was, after, kind) <==> f in ChangedAs(was, t, kind))
      ensures f == e ==> f !in ChangedAs(was, t, kind)
      ensures f in ChangedAs(was, after, kind) <==> Changed(was, after, kind, f)
    {
    }
    OneMember(ChangedAs(was, t, kind), ChangedAs(was, after, kind), e);
  }

  lemma OneMember(before: set<Entry>, after: set<Entry>, e: Entry)
    requires e !in before && forall f :: f != e ==> (f in after <==> f in before)
    ensures |after| == |before| + if e in after then 1 else 0
  {
    assert after == if e in after then before + {e} else before;
  }

  /** One more visit told of. */
  lemma ToldMore(was: Table, log0: Log, t: Table, log: Log, after: Table, log1: Log, e: Entry, end: int)
    requires Told(was, log0, t, log, end)
    requires (e in was <==> e in t) && (e in t ==> t[e] == was[e])
    requires forall f :: f != e ==> (f in after <==> f in t) && (f in t ==> after[f] == t[f])
    requires Extends(log0, log1) && Events(log1) == Events(log) + multiset(NewsAbout(was, after, e, end))
    requires forall k :: Tally(log1)[k] == Tally(log)[k] + if Changed(was, after, k, e) then 1 else 0
    ensures Told(was, log0, after, log1, end)
  {
    hide News, NewsAbout, ChangedAs, Changed, Events, Tally, Extends;
    NewsGrows(was, t, after, e, end);
    forall k ensures Tally(log1)[k] == Tally(log0)[k] + |ChangedAs(was, after, k)| {
      ChangesGrow(was, t, after, e, k);
    }
  }

  lemma ToldWithdrawn(was: Table, log0: Log, t: Table, log: Log, e: Entry, end: int)
    requires Told(was, log0, t, log, end) && e in was && e in t && t[e] == was[e]
    ensures Told(was, log0, t - {e},
                 Then(log, VisitEvent(Withdrawn, t[e].id, e, LeftAt(t[e].stay), None, end)), end)
  {
    var event := VisitEvent(Withdrawn, t[e].id, e, LeftAt(t[e].stay), None, end);
    hide ChangedAs, News, Events, Tally;
    OneEventMore(log, event);
    assert NewsAbout(was, t - {e}, e, end) == {event} && multiset({event}) == multiset{event};
    assert forall k :: Changed(was, t - {e}, k, e) <==> k == Withdrawn;
    ToldMore(was, log0, t, log, t - {e}, Then(log, event), e, end);
  }

  function LeaveMoved(row: Row, e: Entry, stay: Stay): VisitEvent
    requires LeftAt(stay) != LeftAt(row.stay)
  {
    var previous := LeftAt(row.stay);
    VisitEvent(if previous.None? then Left else Revised, row.id, e, LeftAt(stay), previous,
               if stay.left.Some? then LeftAt(stay).value else previous.value)
  }

  lemma NewsOfMove(was: Table, after: Table, e: Entry, stay: Stay, end: int)
    requires e in was && e in after && after[e] == Row(was[e].id, stay) && LeftAt(stay) != LeftAt(was[e].stay)
    ensures NewsAbout(was, after, e, end) == {LeaveMoved(was[e], e, stay)}
    ensures forall k :: Changed(was, after, k, e) <==> k == LeaveMoved(was[e], e, stay).kind
  {
  }

  lemma ToldRevised(was: Table, log0: Log, t: Table, log: Log, e: Entry, stay: Stay, end: int)
    requires Told(was, log0, t, log, end) && e in was && e in t && t[e] == was[e]
    requires LeftAt(stay) != LeftAt(t[e].stay)
    ensures Told(was, log0, t[e := Row(t[e].id, stay)], Then(log, LeaveMoved(t[e], e, stay)), end)
  {
    hide ChangedAs, News, Events, Tally, NewsAbout, Changed, LeaveMoved;
    var event, after := LeaveMoved(t[e], e, stay), t[e := Row(t[e].id, stay)];
    OneEventMore(log, event);
    NewsOfMove(was, after, e, stay, end);
    assert multiset({event}) == multiset{event};
    ToldMore(was, log0, t, log, after, Then(log, event), e, end);
  }

  lemma ToldInserted(was: Table, log0: Log, t: Table, log: Log, e: Entry, row: Row, log1: Log, end: int)
    requires Told(was, log0, t, log, end) && e !in was && e !in t
    requires var entered := Then(log, VisitEvent(Entered, row.id, e, LeftAt(row.stay), None, e.at));
             log1 == if row.stay.left.Some?
                     then Then(entered, VisitEvent(Left, row.id, e, LeftAt(row.stay), None, row.stay.left.value.at))
                     else entered
    ensures Told(was, log0, t[e := row], log1, end)
  {
    var entered := VisitEvent(Entered, row.id, e, LeftAt(row.stay), None, e.at);
    var after := t[e := row];
    hide ChangedAs, News, Events, Tally;
    OneEventMore(log, entered);
    if row.stay.left.Some? {
      var left := VisitEvent(Left, row.id, e, LeftAt(row.stay), None, row.stay.left.value.at);
      OneEventMore(Then(log, entered), left);
      assert NewsAbout(was, after, e, end) == {entered, left};
      assert multiset({entered, left}) == multiset{entered} + multiset{left};
    } else {
      assert NewsAbout(was, after, e, end) == {entered} && multiset({entered}) == multiset{entered};
    }
    assert forall k :: Changed(was, after, k, e) <==> k == Entered || (k == Left && row.stay.left.Some?);
    ToldMore(was, log0, t, log, after, log1, e, end);
  }

  lemma OneEventMore(log: Log, event: VisitEvent)
    ensures Events(Then(log, event)) == Events(log) + multiset{event}
    ensures forall k :: Tally(Then(log, event))[k] == Tally(log)[k] + if k == event.kind then 1 else 0
  {
  }

  /** The log tells of exactly the stored visits, each with its stored entry and leave. */
  ghost predicate Tells(known: map<nat, (Entry, Option<int>)>, t: Table) {
    && (forall e :: e in t ==> t[e].id in known && known[t[e].id] == (e, LeftAt(t[e].stay)))
    && (forall id :: id in known ==> known[id].0 in t && t[known[id].0].id == id)
  }

  /** No visit ends before it begins: the table's check constraint. */
  ghost predicate Ordered(b: Book) {
    forall e :: e in b && b[e].left.Some? ==> e.at <= b[e].left.value.at
  }

  /**
    Between the start of a pass and its end: the stored visits in `done` have reached their
    final form, the others are as they were.
   */
  ghost predicate Midway(t: Table, t0: Table, r: Book, done: set<Entry>) {
    forall e :: e in t0 ==>
      if e in done then (e in t <==> e in r) && (e in t ==> t[e] == Row(t0[e].id, r[e]))
      else e in t && t[e] == t0[e]
  }

  /** What is not yet in `done` survives, and is not waiting to be closed. */
  ghost predicate Pending(b: Book, r: Book, done: set<Entry>) {
    forall e :: e in b && e !in done ==> e in r && (b[e].left.None? ==> r[e].left.None?)
  }

  /** Every stored visit has reached its final form. */
  ghost predicate Settled(t: Table, t0: Table, r: Book) {
    forall e :: e in t0 ==> (e in t <==> e in r) && (e in t ==> t[e] == Row(t0[e].id, r[e]))
  }

  /** The pass has nothing to change in the visits stored before it. */
  ghost predicate Unchanged(t0: Table, r: Book) {
    forall e :: e in t0 ==> e in r && r[e] == t0[e].stay
  }

  /** One more stored visit in its final form, written or already so. */
  lemma OneMoreDone(t: Table, t0: Table, r: Book, done: set<Entry>, e: Entry, after: Table)
    requires Midway(t, t0, r, done) && e in t0 && e !in done && e in r
    requires after == t[e := Row(t0[e].id, r[e])] || (after == t && r[e] == t0[e].stay)
    ensures Midway(after, t0, r, done + {e})
  {
  }

  lemma NotYetDone(t: Table, t0: Table, r: Book, done: set<Entry>, e: Entry)
    requires Midway(t, t0, r, done) && e in t0 && e !in done
    ensures e in t && t[e] == t0[e]
    ensures Unchanged(t0, r) ==> e in r && r[e] == t0[e].stay
  {
  }

  /** A visit that is open in the middle of the reopenings was open before and will be after. */
  lemma OpenMidway(t: Table, t0: Table, b: Book, r: Book, done: set<Entry>, pending: set<Entry>, f: Entry)
    requires b == Content(t0) && Midway(t, t0, r, done) && t.Keys <= t0.Keys
    requires Pending(b, r, pending) && pending <= done && f in t && t[f].stay.left.None?
    ensures f in r && r[f].left.None?
  {
    ContentAt(t0, b, f);
  }

  /** The items already inserted, closed ones before index `i`, open ones before `j`. */
  predicate Inserted(b: Book, plan: seq<Planned>, i: int, j: int, k: int) {
    0 <= k < |plan| && IsFresh(b, plan[k]) && if plan[k].left.Some? then k < i else k < j
  }

  /** The new rows are the inserted items', one row each; `owner` says whose each row is. */
  ghost predicate NewRows(t: Table, b: Book, plan: seq<Planned>, i: int, j: int, owner: map<Entry, int>) {
    && (forall e :: e in t && e !in b ==>
          e in owner && Inserted(b, plan, i, j, owner[e]) && e == EntryOf(plan[owner[e]])
            && t[e].stay == StayOf(plan[owner[e]]))
    && (forall k :: Inserted(b, plan, i, j, k) ==>
      EntryOf(plan[k]) in t && EntryOf(plan[k]) in owner && owner[EntryOf(plan[k])] == k)
  }

  /** A row the open-visit index admits leaves each zone with one open visit at most. */
  lemma IndexKept(b: Book, e: Entry, stay: Stay)
    requires SingleOpen(b) && Ordered(b)
    requires stay.left.Some? ==> e.at <= stay.left.value.at
    requires stay.left.None? ==> forall f :: f in b && f.zone == e.zone && f != e ==> b[f].left.Some?
    ensures SingleOpen(b[e := stay]) && Ordered(b[e := stay])
  {
  }

  /** Writing a row and telling of it leaves the log's account exact. */
  lemma WriteTold(t: Table, known: map<nat, (Entry, Option<int>)>, e: Entry, row: Row)
    requires Tells(known, t)
    requires if e in t then row.id == t[e].id else row.id !in known
    ensures Tells(known[row.id := (e, LeftAt(row.stay))], t[e := row])
  {
    var after, told := t[e := row], known[row.id := (e, LeftAt(row.stay))];
    forall f | f in after
      ensures after[f].id in told && told[after[f].id] == (f, LeftAt(after[f].stay))
    {
      if f != e {
        assert known[t[f].id].0 == f;
      }
    }
    forall id | id in told
      ensures told[id].0 in after && after[told[id].0].id == id
    {
      if id != row.id {
        assert t[known[id].0].id == id;
      }
    }
  }

  /**
    What holds between any two writes: the table's indexes and check constraint, ids handed out
    once, and a log that tells of exactly what is stored.
   */
  ghost predicate Sound(t: Table, log: Log, nextId: nat) {
    && SingleOpen(Content(t))
    && Ordered(Content(t))
    && Tells(Replay(log), t)
    && (forall e :: e in t ==> t[e].id < nextId)
  }

  /** The open-visit index: no other open visit of the zone. */
  lemma SoundLater(t: Table, log: Log, nextId: nat, later: nat)
    requires Sound(t, log, nextId) && nextId <= later
    ensures Sound(t, log, later)
  {
  }

  predicate IndexAdmits(t: Table, e: Entry, stay: Stay) {
    stay.left.None? ==> forall f :: f in t && f.zone == e.zone && f != e ==> t[f].stay.left.Some?
  }

  /** Writing one admitted row and telling of it keeps everything that holds between writes. */
  lemma WriteKeeps(t: Table, log: Log, nextId: nat, e: Entry, row: Row, event: VisitEvent)
    requires Sound(t, log, nextId) && IndexAdmits(t, e, row.stay)
    requires row.stay.left.Some? ==> e.at <= row.stay.left.value.at
    requires row.id == if e in t then t[e].id else nextId
    requires !event.kind.Withdrawn? && event.id == row.id && event.entry == e && event.left == LeftAt(row.stay)
    ensures Sound(t[e := row], Then(log, event), if e in t then nextId else nextId + 1)
  {
    if e !in t {
      assert row.id !in Replay(log);
    }
    IndexKept(Content(t), e, row.stay);
    WriteTold(t, Replay(log), e, row);
    assert Content(t[e := row]) == Content(t)[e := row.stay];
  }

  lemma DeleteKeeps(t: Table, log: Log, nextId: nat, e: Entry, event: VisitEvent)
    requires Sound(t, log, nextId) && e in t && event.kind.Withdrawn? && event.id == t[e].id
    ensures Sound(t - {e}, Then(log, event), nextId)
  {
    assert forall f :: f in Content(t - {e}) ==> f in Content(t) && Content(t - {e})[f] == Content(t)[f];
  }

  lemma NextRow(t: Table, b: Book, plan: seq<Planned>, open: bool, i: int, owner: map<Entry, int>, row: Row)
    requires 0 <= i < |plan| && IsFresh(b, plan[i]) && plan[i].left.None? == open
    requires NewRows(t, b, plan, if open then |plan| else i, if open then i else 0, owner)
    requires EntryOf(plan[i]) !in t && row.stay == StayOf(plan[i])
    ensures NewRows(t[EntryOf(plan[i]) := row], b, plan, if open then |plan| else i + 1, if open then i + 1 else 0,
              owner[EntryOf(plan[i]) := i])
  {
    var i1, j1 := if open then |plan| else i, if open then i else 0;
    forall k | Inserted(b, plan, if open then |plan| else i + 1, if open then i + 1 else 0, k)
      ensures k == i || Inserted(b, plan, i1, j1, k)
    {
    }
  }

  lemma NoNewRow(t: Table, b: Book, plan: seq<Planned>, open: bool, i: int, owner: map<Entry, int>)
    requires 0 <= i < |plan| && !(IsFresh(b, plan[i]) && plan[i].left.None? == open)
    requires NewRows(t, b, plan, if open then |plan| else i, if open then i else 0, owner)
    ensures NewRows(t, b, plan, if open then |plan| else i + 1, if open then i + 1 else 0, owner)
  {
    var i1, j1 := if open then |plan| else i, if open then i else 0;
    forall k | Inserted(b, plan, if open then |plan| else i + 1, if open then i + 1 else 0, k)
      ensures Inserted(b, plan, i1, j1, k)
    {
    }
  }

  /** An insert is refused only for a reason that could be read off before the pass began. */
  lemma RefusedInsert(t: Table, t0: Table, b: Book, w: Window, owner: map<Entry, int>, open: bool, i: int)
    requires Proper(w) && w.start <= w.end && b == Content(t0)
    requires 0 <= i < |PlanFor(b, w)| && IsFresh(b, PlanFor(b, w)[i]) && PlanFor(b, w)[i].left.None? == open
    requires NewRows(t, b, PlanFor(b, w), if open then |PlanFor(b, w)| else i, if open then i else 0, owner)
    requires Settled(t, t0, Reconciled(b, w))
    requires var e := EntryOf(PlanFor(b, w)[i]); e in t || !IndexAdmits(t, e, StayOf(PlanFor(b, w)[i]))
    ensures !Admissible(b, w)
  {
    hide Reconciled, PlanFor, Proper, Content, Blocked;
    var plan := PlanFor(b, w);
    var e := EntryOf(plan[i]);
    if e in t {
      assert IsFresh(b, plan[owner[e]]) && owner[e] != i;
    } else {
      var f :| f in t && f.zone == e.zone && f != e && t[f].stay.left.None?;
      ContentAt(t0, b, f);
      if f !in b {
        FreshFinal(b, w, owner[f]);
      }
      FreshFinal(b, w, i);
      OpenItemIsLast(b, w, i);
      ClashBlocks(b, w, e, f);
    }
  }

  /** What the phases are told of the stored visits: which go, which are left to the plan, which stay. */
  lemma Fates(t0: Table, b: Book, w: Window, planned: map<Entry, Planned>)
    requires b == Content(t0) && Proper(w)
    requires forall e :: e in planned <==> LastAt(ItemsOf(PlanFor(b, w), e.zone), e.at).Some?
    requires forall e :: e in planned ==> LastAt(ItemsOf(PlanFor(b, w), e.zone), e.at) == Some(planned[e])
    ensures var r := Reconciled(b, w);
            forall e :: e in t0 ==>
              && (e !in r <==> IsWithin(b, w, e) && e !in planned && e.zone in Keys(w.zones))
              && (IsWithin(b, w, e) ==>
                ItemFor(b, w, PlanFor(b, w), e) == if e in planned then Some(planned[e]) else None)
              && (IsCarried(b, w, e) ==> ItemFor(b, w, PlanFor(b, w), e) == CarriedItem(PlanFor(b, w), e.zone))
              && (IsCarried(b, w, e) && CarriedItem(PlanFor(b, w), e.zone).None? ==>
                    r[e] == if e.zone !in Keys(w.zones) && t0[e].stay.left.None?
                            then t0[e].stay.(left := Some(ZoneRemoved(w.start))) else t0[e].stay)
              && (!IsCarried(b, w, e) && (IsWithin(b, w, e) ==> e !in planned) && e in r ==> r[e] == t0[e].stay)
  {
    forall e | e in t0
      ensures var r := Reconciled(b, w);
              && (e !in r <==> IsWithin(b, w, e) && e !in planned && e.zone in Keys(w.zones))
              && (e in r && ItemFor(b, w, PlanFor(b, w), e).None? ==>
                    r[e] == if IsCarried(b, w, e) && e.zone !in Keys(w.zones) && t0[e].stay.left.None?
                            then t0[e].stay.(left := Some(ZoneRemoved(w.start))) else t0[e].stay)
    {
      ContentAt(t0, b, e);
      StoredFate(b, w, e);
    }
  }

  /** The carried and the planned visits to update are each about their own item; nothing else is left to write. */
  lemma AllUpdates(t0: Table, b: Book, w: Window, planned: map<Entry, Planned>, carried: set<Entry>, within: set<Entry>,
                   closed: map<Entry, Planned>, updates: map<Entry, Planned>, gone: set<Entry>, removed: set<Entry>)
    requires b == Content(t0) && Proper(w)
    requires forall e :: e in planned <==> LastAt(ItemsOf(PlanFor(b, w), e.zone), e.at).Some?
    requires forall e :: e in planned ==> LastAt(ItemsOf(PlanFor(b, w), e.zone), e.at) == Some(planned[e])
    requires (forall e :: e in carried <==> IsCarried(b, w, e)) && forall e :: e in within <==> IsWithin(b, w, e)
    requires gone == within - Reconciled(b, w).Keys && gone <= removed <= gone + carried && removed !! closed.Keys
    requires forall e :: e in closed <==> e in carried && CarriedItem(PlanFor(b, w), e.zone).Some?
    requires forall e :: e in closed ==> CarriedItem(PlanFor(b, w), e.zone) == Some(closed[e])
    requires forall e :: e in carried && e !in closed && e !in removed ==>
              e in Reconciled(b, w) && Reconciled(b, w)[e] == t0[e].stay
    requires updates == closed + map e | e in within && e in planned :: planned[e]
    ensures forall e :: e in updates ==>
              e in b && e !in removed && ItemFor(b, w, PlanFor(b, w), e) == Some(updates[e])
    ensures forall e :: e in b && e !in removed && e !in updates ==>
              e in Reconciled(b, w) && Reconciled(b, w)[e] == b[e]
  {
    hide Reconciled, ItemFor, PlanFor, Proper, CarriedItem, ItemsOf, LastAt, Content;
    Fates(t0, b, w, planned);
    forall e ensures e in t0 <==> e in b
      ensures e in t0 ==> t0[e].stay == b[e]
    {
      ContentAt(t0, b, e);
    }
  }

  /** With the closings made, what is still to be written only ever opens a visit. */
  lemma OnlyReopenings(b: Book, w: Window, updates: map<Entry, Planned>, removed: set<Entry>)
    requires Proper(w)
    requires forall e :: e in updates ==> e in b && ItemFor(b, w, PlanFor(b, w), e) == Some(updates[e])
    requires forall e :: e in b && e !in removed && e !in updates ==>
              e in Reconciled(b, w) && Reconciled(b, w)[e] == b[e]
    ensures Pending(b, Reconciled(b, w), removed + set e | e in updates && updates[e].left.Some? == true)
  {
    hide Reconciled, PlanFor, ItemFor, Proper;
    forall e | e in updates && updates[e].left.None?
      ensures e in Reconciled(b, w) && (b[e].left.None? ==> Reconciled(b, w)[e].left.None?)
    {
      StoredFate(b, w, e);
    }
  }

  lemma AllSettled(t: Table, t0: Table, r: Book, done: set<Entry>)
    requires Midway(t, t0, r, done)
    requires forall e :: e in t0 && e !in done ==> e in r && r[e] == t0[e].stay
    ensures Settled(t, t0, r)
  {
  }

  lemma NoRowsYet(t: Table, t0: Table, b: Book, plan: seq<Planned>)
    requires b == Content(t0) && t.Keys <= t0.Keys
    ensures NewRows(t, b, plan, 0, 0, map[])
  {
  }

  /** Every write made: the visits are the reconciled ones, and the plan inserted nothing twice. */
  lemma AllWritten(t: Table, t0: Table, b: Book, w: Window, owner: map<Entry, int>)
    requires Proper(w) && b == Content(t0)
    requires Settled(t, t0, Reconciled(b, w))
    requires NewRows(t, b, PlanFor(b, w), |PlanFor(b, w)|, |PlanFor(b, w)|, owner)
    ensures Content(t) == Reconciled(b, w) && FreshOnce(b, PlanFor(b, w))
  {
    hide Reconciled, PlanFor, Proper;
    var plan, r := PlanFor(b, w), Reconciled(b, w);
    forall i, j | 0 <= i < j < |plan| && IsFresh(b, plan[i]) && IsFresh(b, plan[j])
      ensures EntryOf(plan[i]) != EntryOf(plan[j])
    {
      assert Inserted(b, plan, |plan|, |plan|, i) && Inserted(b, plan, |plan|, |plan|, j);
    }
    forall e
      ensures e in t <==> e in r
      ensures e in t ==> t[e].stay == r[e]
    {
      if e !in b {
        if e in t {
          FreshFinal(b, w, owner[e]);
        }
        if e in r {
          NewIsFresh(b, w, e);
          var j :| 0 <= j < |plan| && IsFresh(b, plan[j]) && EntryOf(plan[j]) == e;
          assert Inserted(b, plan, |plan|, |plan|, j);
        }
      }
    }
  }

  lemma ContentAt(t: Table, b: Book, e: Entry)
    requires b == Content(t)
    ensures e in t <==> e in b
    ensures e in t ==> b[e] == t[e].stay
  {
  }

  /** The source's `planned`: each entry's item, a later one replacing an earlier. */
  method IndexPlan(plan: seq<Planned>) returns (planned: map<Entry, Planned>)
    ensures forall e :: e in planned <==> LastAt(ItemsOf(plan, e.zone), e.at).Some?
    ensures forall e :: e in planned ==> LastAt(ItemsOf(plan, e.zone), e.at) == Some(planned[e])
  {
    planned := map[];
    for i := 0 to |plan|
      invariant forall e :: e in planned <==> LastAt(ItemsOf(plan[..i], e.zone), e.at).Some?
      invariant forall e :: e in planned ==> LastAt(ItemsOf(plan[..i], e.zone), e.at) == Some(planned[e])
    {
      assert plan[..i + 1][..i] == plan[..i];
      forall e: Entry
        ensures LastAt(ItemsOf(plan[..i + 1], e.zone), e.at)
             == if plan[i].entered.Some? && e == EntryOf(plan[i]) then Some(plan[i])
                else LastAt(ItemsOf(plan[..i], e.zone), e.at)
      {
        var before := ItemsOf(plan[..i], e.zone);
        assert (before + [plan[i]])[..|before|] == before;
        assert before + [] == before;
      }
      if plan[i].entered.Some? {
        planned := planned[EntryOf(plan[i]) := plan[i]];
      }
    }
    assert plan[..|plan|] == plan;
  }

  /** The source's search for the carried visit's item. */
  method FindCarried(plan: seq<Planned>, key: ZoneKey) returns (item: Option<Planned>)
    ensures item == CarriedItem(plan, key)
  {
    item := None;
    for i := 0 to |plan|
      invariant item == CarriedItem(plan[..i], key)
    {
      assert plan[..i + 1][..i] == plan[..i];
      if item.None? && plan[i].key == key && plan[i].entered.None? {
        item := Some(plan[i]);
      }
    }
    assert plan[..|plan|] == plan;
  }

  class GeofenceTracker {
    var visits: Table
    var outbox: Log
    var nextId: nat
    /** This pass's counts, and the log's tally when it began. */
    var result: TrackResult
    ghost var before: TrackResult

    ghost predicate Valid()
      reads this
    {
      Sound(visits, outbox, nextId) && Tally(outbox) == before + result
    }

    constructor ()
      ensures Valid() && visits == map[] && outbox == Nothing
    {
      visits, outbox, nextId, result := map[], Nothing, 0, multiset{};
      before := multiset{};
    }

    method Emit(event: VisitEvent)
      modifies this`outbox, this`result
      ensures outbox == Then(old(outbox), event) && result == old(result) + multiset{event.kind}
    {
      outbox := Then(outbox, event);
      result := result + multiset{event.kind};
    }

    /** A visit the window shows never happened. */
    method Withdraw(e: Entry, at: int)
      requires Valid() && e in visits
      modifies this`visits, this`outbox, this`result
      ensures Valid() && visits == old(visits) - {e}
      ensures outbox == Then(old(outbox),
                VisitEvent(Withdrawn, old(visits)[e].id, e, LeftAt(old(visits)[e].stay), None, at))
    {
      hide Sound;
      var v := visits[e];
      DeleteKeeps(visits, outbox, nextId, e, VisitEvent(Withdrawn, v.id, e, LeftAt(v.stay), None, at));
      visits := visits - {e};
      Emit(VisitEvent(Withdrawn, v.id, e, LeftAt(v.stay), None, at));
    }

    /** A stored visit whose leave moved: `left` if it was open until now, `revised` if not. */
    method Revise(e: Entry, stay: Stay) returns (ok: bool)
      requires Valid() && e in visits
      requires stay.left.Some? ==> e.at <= stay.left.value.at
      requires LeftAt(stay) != LeftAt(visits[e].stay)
      modifies this`visits, this`outbox, this`result
      ensures ok <==> IndexAdmits(old(visits), e, stay)
      ensures ok ==> Valid() && visits == old(visits)[e := Row(old(visits)[e].id, stay)]
      ensures ok ==> outbox == Then(old(outbox), LeaveMoved(old(visits)[e], e, stay))
      ensures !ok ==> visits == old(visits) && outbox == old(outbox) && result == old(result)
    {
      hide Sound;
      if !IndexAdmits(visits, e, stay) {
        return false;
      }
      var v := visits[e];
      var previous := LeftAt(v.stay);
      var event := VisitEvent(if previous.None? then Left else Revised, v.id, e, LeftAt(stay), previous,
                              if stay.left.Some? then stay.left.value.at else previous.value);
      WriteKeeps(visits, outbox, nextId, e, Row(v.id, stay), event);
      visits := visits[e := Row(v.id, stay)];
      Emit(event);
      return true;
    }

    /** A visit not seen before: one event for its entry and, if it has ended, one for its leave. */
    method Insert(e: Entry, stay: Stay) returns (ok: bool)
      requires Valid()
      requires stay.left.Some? ==> e.at <= stay.left.value.at
      modifies this`visits, this`outbox, this`nextId, this`result
      ensures ok <==> e !in old(visits) && IndexAdmits(old(visits), e, stay)
      ensures ok ==> Valid() && nextId == old(nextId) + 1 && visits == old(visits)[e := Row(old(nextId), stay)]
      ensures ok ==> var entered := Then(old(outbox), VisitEvent(Entered, old(nextId), e, LeftAt(stay), None, e.at));
                     outbox == if stay.left.Some? then Then(entered,
                       VisitEvent(Left, old(nextId), e, LeftAt(stay), None, stay.left.value.at))
                               else entered
      ensures !ok ==> visits == old(visits) && outbox == old(outbox) && result == old(result) && nextId == old(nextId)
    {
      hide Sound;
      if e in visits || !IndexAdmits(visits, e, stay) {
        return false;
      }
      var id := nextId;
      nextId := nextId + 1;
      WriteKeeps(visits, outbox, id, e, Row(id, stay), VisitEvent(Entered, id, e, LeftAt(stay), None, e.at));
      visits := visits[e := Row(id, stay)];
      Emit(VisitEvent(Entered, id, e, LeftAt(stay), None, e.at));
      assert Sound(visits, outbox, nextId);
      if stay.left.Some? {
        assert visits[e := Row(id, stay)] == visits;
        WriteKeeps(visits, outbox, nextId, e, Row(id, stay),
          VisitEvent(Left, id, e, LeftAt(stay), None, stay.left.value.at));
        Emit(VisitEvent(Left, id, e, LeftAt(stay), None, stay.left.value.at));
        assert Sound(visits, outbox, nextId);
      }
      assert Tally(outbox) == before + result;
      return true;
    }

    // ---------------------------------------------------------------- the phases of a pass

    /** Deletions: stored visits of applied zones that the window shows never happened. */
    method WithdrawUnplanned(w: Window, planned: map<Entry, Planned>, within: set<Entry>, ghost r: Book)
      returns (ghost done: set<Entry>)
      requires Valid() && within <= visits.Keys
      requires forall e :: e in visits ==> (e !in r <==> e in within && e !in planned && e.zone in Keys(w.zones))
      modifies this`visits, this`outbox, this`result
      ensures Valid() && visits.Keys <= old(visits).Keys
      ensures done == within - r.Keys
      ensures Midway(visits, old(visits), r, done)
      ensures Told(old(visits), old(outbox), visits, outbox, w.end)
      ensures Unchanged(old(visits), r) ==> visits == old(visits) && outbox == old(outbox) && result == old(result)
    {
      hide Valid, Told;
      done := {};
      NothingToTell(visits, outbox, w.end);
      var todo := within;
      while todo != {}
        invariant Valid() && todo <= within && visits.Keys <= old(visits).Keys
        invariant done == within - todo - r.Keys
        invariant Midway(visits, old(visits), r, done)
        invariant Told(old(visits), old(outbox), visits, outbox, w.end)
        invariant Unchanged(old(visits), r) ==> visits == old(visits) && outbox == old(outbox) && result == old(result)
        decreases todo
      {
        var e :| e in todo;
        if e !in planned && e.zone in Keys(w.zones) {
          ToldWithdrawn(old(visits), old(outbox), visits, outbox, e, w.end);
          Withdraw(e, w.end);
          done := done + {e};
        }
        todo := todo - {e};
      }
    }

    /**
      Carried visits: those the plan speaks of are kept for later; those whose zone is gone are closed at
      the start.
     */
    method CloseRemoved(w: Window, plan: seq<Planned>, carried: set<Entry>, ghost t0: Table, ghost log0: Log,
        ghost r: Book, ghost done0: set<Entry>)
      returns (updates: map<Entry, Planned>, ghost done: set<Entry>)
      requires Valid() && visits.Keys <= t0.Keys && carried <= t0.Keys && carried !! done0
      requires Midway(visits, t0, r, done0) && Told(t0, log0, visits, outbox, w.end)
      requires forall e :: e in carried ==> e in r && e.at <= w.start
      requires forall e :: e in carried && CarriedItem(plan, e.zone).None? ==>
                 r[e] == if e.zone !in Keys(w.zones) && t0[e].stay.left.None?
                         then t0[e].stay.(left := Some(ZoneRemoved(w.start))) else t0[e].stay
      modifies this`visits, this`outbox, this`result
      ensures Valid() && visits.Keys <= t0.Keys
      ensures done0 <= done <= done0 + carried && done !! updates.Keys && Midway(visits, t0, r, done)
      ensures Told(t0, log0, visits, outbox, w.end)
      ensures forall e :: e in updates <==> e in carried && CarriedItem(plan, e.zone).Some?
      ensures forall e :: e in updates ==> CarriedItem(plan, e.zone) == Some(updates[e])
      ensures forall e :: e in carried && e !in updates && e !in done ==> r[e] == t0[e].stay
      ensures Unchanged(t0, r) ==> visits == old(visits) && outbox == old(outbox) && result == old(result)
    {
      hide Valid, CarriedItem, Midway, Unchanged, Told;
      updates, done := map[], done0;
      var todo := carried;
      while todo != {}
        invariant Valid() && todo <= carried && visits.Keys <= t0.Keys
        invariant done0 <= done <= done0 + (carried - todo) && done !! updates.Keys && Midway(visits, t0, r, done)
        invariant Told(t0, log0, visits, outbox, w.end)
        invariant forall e :: e in updates <==> e in carried - todo && CarriedItem(plan, e.zone).Some?
        invariant forall e :: e in updates ==> CarriedItem(plan, e.zone) == Some(updates[e])
        invariant forall e :: e in carried - todo && e !in updates && e !in done ==> r[e] == t0[e].stay
        invariant Unchanged(t0, r) ==> visits == old(visits) && outbox == old(outbox) && result == old(result)
        decreases todo
      {
        var e :| e in todo;
        NotYetDone(visits, t0, r, done, e);
        var item := FindCarried(plan, e.zone);
        if item.Some? {
          updates := updates[e := item.value];
        } else if e.zone !in Keys(w.zones) && visits[e].stay.left.None? {
          ghost var before, said := visits, outbox;
          var closed := visits[e].stay.(left := Some(ZoneRemoved(w.start)));
          var ok := Revise(e, closed);
          ToldRevised(t0, log0, before, said, e, closed, w.end);
          OneMoreDone(before, t0, r, done, e, visits);
          done := done + {e};
        }
        todo := todo - {e};
      }
    }

    /** The planned leaves: closings in one pass, reopenings in another. A leave after the window's end is kept. */
    method SettleLeaves(w: Window, updates: map<Entry, Planned>, closings: bool, ghost t0: Table, ghost log0: Log,
        ghost b: Book, ghost r: Book, ghost done0: set<Entry>)
      returns (ok: bool, ghost done: set<Entry>)
      requires Valid() && visits.Keys <= t0.Keys && b == Content(t0) && r == Reconciled(b, w)
      requires Proper(w) && w.start <= w.end
      requires Midway(visits, t0, r, done0) && Told(t0, log0, visits, outbox, w.end)
      requires forall e :: e in updates ==>
                 && e in b && ItemFor(b, w, PlanFor(b, w), e) == Some(updates[e])
                 && (updates[e].left.Some? == closings ==> e !in done0)
      requires !closings ==> Pending(b, r, done0)
      modifies this`visits, this`outbox, this`result
      ensures ok ==> Valid() && visits.Keys <= t0.Keys
      ensures ok ==>
                done == done0 + (set e | e in updates && updates[e].left.Some? == closings)
                && Midway(visits, t0, r, done) && Told(t0, log0, visits, outbox, w.end)
      ensures closings ==> ok
      ensures Unchanged(t0, r) ==> ok && visits == old(visits) && outbox == old(outbox) && result == old(result)
      ensures !ok ==> Blocked(b, w, PlanFor(b, w))
    {
      hide Valid, Reconciled, ItemFor, PlanFor, Final, Proper, Blocked, Content, Pending, Midway, Unchanged, Told;
      ok, done := true, done0;
      ghost var mine := set e | e in updates && updates[e].left.Some? == closings;
      var todo := set e | e in updates && updates[e].left.Some? == closings;
      while todo != {}
        invariant Valid() && visits.Keys <= t0.Keys && todo <= mine
        invariant done == done0 + (mine - todo) && Midway(visits, t0, r, done) && Told(t0, log0, visits, outbox, w.end)
        invariant Unchanged(t0, r) ==> visits == old(visits) && outbox == old(outbox) && result == old(result)
        decreases todo
      {
        var e :| e in todo;
        ContentAt(t0, b, e);
        NotYetDone(visits, t0, r, done, e);
        var v, p := visits[e], updates[e];
        StoredFate(b, w, e);
        ItemInOrder(b, w, e);
        var keepLater := p.left.None? && v.stay.left.Some? && v.stay.left.value.at > w.end;
        var left := if keepLater then v.stay.left else Exit(p.left);
        ghost var before, said := visits, outbox;
        if LeftAt(v.stay) != LeftAt(v.stay.(left := left)) {
          ok := Revise(e, v.stay.(left := left));
          if !ok {
            var f :| f in visits && f.zone == e.zone && f != e && visits[f].stay.left.None?;
            OpenMidway(visits, t0, b, r, done, done0, f);
            ClashBlocks(b, w, e, f);
            return;
          }
          ToldRevised(t0, log0, before, said, e, v.stay.(left := left), w.end);
        }
        OneMoreDone(before, t0, r, done, e, visits);
        done := done + {e};
        todo := todo - {e};
      }
    }

    /** The visits not stored before: ended ones in one pass over the plan, open ones in another. */
    method InsertFresh(w: Window, plan: seq<Planned>, within: set<Entry>, open: bool,
                       ghost t0: Table, ghost log0: Log, ghost b: Book, ghost r: Book, ghost owner0: map<Entry, int>)
      returns (ok: bool, ghost owner: map<Entry, int>)
      requires Valid() && b == Content(t0) && r == Reconciled(b, w) && plan == PlanFor(b, w)
      requires Proper(w) && w.start <= w.end
      requires forall e: Entry :: w.start < e.at <= w.end ==> (e in within <==> e in b)
      requires Settled(visits, t0, r) && NewRows(visits, b, plan, if open then |plan| else 0, 0, owner0)
      requires Told(t0, log0, visits, outbox, w.end)
      modifies this`visits, this`outbox, this`nextId, this`result
      ensures ok ==> Valid() && Settled(visits, t0, r) && Told(t0, log0, visits, outbox, w.end)
      ensures ok ==> NewRows(visits, b, plan, |plan|, if open then |plan| else 0, owner)
      ensures !ok ==> !Admissible(b, w)
      ensures nextId >= old(nextId)
      ensures r == b ==> ok && visits == old(visits) && outbox == old(outbox) && result == old(result)
    {
      hide Valid, Reconciled, PlanFor, Proper, Content, Admissible, NewRows, IndexAdmits, Told;
      ok, owner := true, owner0;
      for i := 0 to |plan|
        invariant Valid() && Settled(visits, t0, r) && Told(t0, log0, visits, outbox, w.end)
        invariant NewRows(visits, b, plan, if open then |plan| else i, if open then i else 0, owner)
        invariant nextId >= old(nextId)
        invariant r == b ==> visits == old(visits) && outbox == old(outbox) && result == old(result)
      {
        var p := plan[i];
        if p.entered.Some? {
          FreshInOrder(b, w, i);
          var e := EntryOf(p);
          if e !in within && p.left.None? == open {
            ghost var before, said := visits, outbox;
            FreshAppears(b, w, i);
            ok := Insert(e, StayOf(p));
            if !ok {
              RefusedInsert(visits, t0, b, w, owner, open, i);
              return;
            }
            NextRow(before, b, plan, open, i, owner, visits[e]);
            ContentAt(t0, b, e);
            ToldInserted(t0, log0, before, said, e, visits[e], outbox, w.end);
            owner := owner[e := i];
          } else {
            NoNewRow(visits, b, plan, open, i, owner);
          }
        } else {
          NoNewRow(visits, b, plan, open, i, owner);
        }
      }
    }

    /**
      One pass. It commits exactly when the indexes can hold its result; then the stored
      visits are the reconciled ones, the log has grown by exactly the news between the two
      tables, each event once, and the counts are of the visits entered, left, revised and withdrawn;
      otherwise nothing has changed. A pass with nothing to change writes nothing and says nothing.
     */
    method TrackWindow(w: Window) returns (ok: bool)
      requires Valid() && Proper(w) && w.start <= w.end
      modifies this
      ensures Valid() && Tally(outbox) == Tally(old(outbox)) + result
      ensures ok ==> Content(visits) == Reconciled(Content(old(visits)), w)
      ensures ok ==> Extends(old(outbox), outbox)
      ensures ok ==> Events(outbox) == Events(old(outbox)) + multiset(News(old(visits), visits, w.end))
      ensures ok ==> forall k :: result[k] == |ChangedAs(old(visits), visits, k)|
      ensures ok ==> forall e :: e in visits && e in old(visits) ==> visits[e].id == old(visits)[e].id
      ensures !ok ==> visits == old(visits) && outbox == old(outbox) && result == multiset{}
      ensures ok <==> Admissible(Content(old(visits)), w)
      ensures Reconciled(Content(old(visits)), w) == Content(old(visits)) ==>
                ok && visits == old(visits) && outbox == old(outbox) && result == multiset{}
    {
      hide Reconciled, Admissible, Content, Sound, Proper, News, ChangedAs, Events, Tally, Extends;
      var before0, log0 := visits, outbox;
      result, before := multiset{}, Tally(outbox);
      ok := Reconcile(w);
      if !ok {
        SoundLater(before0, log0, old(nextId), nextId);
        visits, outbox, result := before0, log0, multiset{};
      }
    }

    /** The writes to visits already stored: deletions, then closings, then reopenings. */
    method SettleStored(w: Window, plan: seq<Planned>, carried: set<Entry>, within: set<Entry>, ghost b: Book,
        ghost r: Book) returns (ok: bool)
      requires Valid() && Proper(w) && w.start <= w.end
      requires b == Content(visits) && r == Reconciled(b, w) && plan == PlanFor(b, w)
      requires forall e :: e in carried <==> IsCarried(b, w, e)
      requires forall e :: e in within <==> IsWithin(b, w, e)
      modifies this`visits, this`outbox, this`result
      ensures ok ==> Valid() && Settled(visits, old(visits), r) && visits.Keys <= old(visits).Keys
      ensures ok ==> Told(old(visits), old(outbox), visits, outbox, w.end)
      ensures !ok ==> Blocked(b, w, plan)
      ensures Unchanged(old(visits), r) ==>
                ok && visits == old(visits) && outbox == old(outbox) && result == old(result)
    {
      hide Valid, Reconciled, ItemFor, Final, PlanFor, Proper, Blocked, CarriedItem, ItemsOf, LastAt, Content,
        Unchanged, Midway, Settled, Pending, Told;
      ghost var t0, log0 := visits, outbox;
      var planned := IndexPlan(plan);
      Fates(t0, b, w, planned);
      forall e: Entry
        ensures e in t0 <==> e in b
        ensures e in t0 ==> t0[e].stay == b[e]
      {
        ContentAt(t0, b, e);
      }
      ghost var gone := WithdrawUnplanned(w, planned, within, r);
      var updates;
      ghost var removed;
      updates, removed := CloseRemoved(w, plan, carried, t0, log0, r, gone);
      ghost var closed := updates;
      updates := updates + map e | e in within && e in planned :: planned[e];
      ghost var done;
      AllUpdates(t0, b, w, planned, carried, within, closed, updates, gone, removed);
      ok, done := SettleLeaves(w, updates, true, t0, log0, b, r, removed);
      OnlyReopenings(b, w, updates, removed);
      ok, done := SettleLeaves(w, updates, false, t0, log0, b, r, done);
      if ok {
        AllSettled(visits, t0, r, done);
      }
    }

    lemma ValidIsSingle()
      requires Valid()
      ensures SingleOpen(Content(visits))
    {
    }

    method Reconcile(w: Window) returns (ok: bool)
      requires Valid() && Proper(w) && w.start <= w.end
      modifies this`visits, this`outbox, this`nextId, this`result
      ensures nextId >= old(nextId)
      ensures ok ==> Valid() && Content(visits) == Reconciled(Content(old(visits)), w)
      ensures ok ==> Told(old(visits), old(outbox), visits, outbox, w.end)
      ensures ok ==> forall e :: e in visits && e in old(visits) ==> visits[e].id == old(visits)[e].id
      ensures ok <==> Admissible(Content(old(visits)), w)
      ensures Reconciled(Content(old(visits)), w) == Content(old(visits)) ==>
                ok && visits == old(visits) && outbox == old(outbox) && result == old(result)
    {
      hide Valid, Reconciled, ItemFor, Final, Proper, Plan, BlockedBy, FreshOnce, CarriedItem, NewRows, Told;
      ghost var t0, log0 := visits, outbox;
      var b := Content(visits);
      ghost var r := Reconciled(b, w);
      var carried := set e | e in b && IsCarried(b, w, e);
      var within := set e | e in b && IsWithin(b, w, e);
      var plan := PlanVisits(w.zones, set e | e in carried :: e.zone, w.positions);
      assert InsideAtStart(b, w) == set e | e in carried :: e.zone;
      ok := SettleStored(w, plan, carried, within, b, r);
      if !ok {
        return;
      }
      NoRowsYet(visits, t0, b, plan);
      ghost var owner;
      ok, owner := InsertFresh(w, plan, within, false, t0, log0, b, r, map[]);
      if !ok {
        return;
      }
      ok, owner := InsertFresh(w, plan, within, true, t0, log0, b, r, owner);
      if ok {
        AllWritten(visits, t0, b, w, owner);
        ValidIsSingle();
        if Blocked(b, w, plan) {
          BlockedClashes(b, w);
        }
      }
    }

    /** Windows in order, as the shift runner calls them; it stops at the first that is refused. */
    method TrackAll(ws: seq<Window>) returns (ok: bool)
      requires Valid() && forall i :: 0 <= i < |ws| ==> Proper(ws[i]) && ws[i].start <= ws[i].end
      modifies this
      ensures Valid()
      ensures ok <==> AllAdmissible(Content(old(visits)), ws)
      ensures ok ==> Content(visits) == RunWindows(Content(old(visits)), ws)
      ensures !ok ==>
                exists i :: 0 <= i < |ws| && Content(visits) == RunWindows(Content(old(visits)), ws[..i])
                  && !Admissible(Content(visits), ws[i])
    {
      hide Valid, Proper, Content, Reconciled, Admissible;
      ok := true;
      for i := 0 to |ws|
        invariant Valid()
        invariant Content(visits) == RunWindows(Content(old(visits)), ws[..i])
        invariant RunWindows(Content(old(visits)), ws) == RunWindows(Content(visits), ws[i..])
        invariant AllAdmissible(Content(old(visits)), ws) <==> AllAdmissible(Content(visits), ws[i..])
      {
        ghost var was := Content(visits);
        ok := TrackWindow(ws[i]);
        if !ok {
          return;
        }
        OneMoreWindow(Content(old(visits)), ws, i);
        assert ws[i..][1..] == ws[i + 1..];
      }
      assert ws[..|ws|] == ws;
    }

    /** The first run over a machine: let through exactly when no window doubles an entry, and then the batch result. */
    method TrackFirst(ws: seq<Window>, ghost zones: seq<Zone>, ghost start: int, ghost end: int) returns (ok: bool)
      requires Valid() && visits == map[] && Consecutive(ws, zones, start, end)
      modifies this
      ensures Valid()
      ensures ok <==> NoneDoubled(map[], ws)
      ensures ok ==> IsExactBatch(Content(visits), zones, AllPositions(ws))
    {
      hide Valid, Proper, Consecutive, RunWindows, AllAdmissible, NoneDoubled, IsExactBatch;
      AllProper(ws, zones, start, end);
      FirstRunAdmissible(map[], ws, zones, start, end);
      FirstRunIsBatch(ws, zones, start, end);
      assert Content(visits) == map[];
      ok := TrackAll(ws);
    }

    /** The same window twice: once the first run has committed, the second writes nothing and says nothing. */
    method TrackAgain(w: Window) returns (first: bool, second: bool, ghost between: (Table, Log))
      requires Valid() && Proper(w) && w.start <= w.end
      modifies this
      ensures Valid()
      ensures first ==> second && result == multiset{} && visits == between.0 && outbox == between.1
      ensures first ==> Content(between.0) == Reconciled(Content(old(visits)), w)
    {
      hide Valid, Proper, Reconciled;
      first := TrackWindow(w);
      between := (visits, outbox);
      if first {
        Idempotent(Content(old(visits)), w);
      }
      second := TrackWindow(w);
    }
  }
}
