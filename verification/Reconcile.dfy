/** What reconciling the table with one scrape means, id by id. */
module Reconcile {
  import opened Wrappers
  import opened Sequences
  import opened Flagger
  import opened Diff

  datatype EventType = Created | Updated | Removed | Restored

  /** A serialized record at event time; only `removed` snapshots carry a status. */
  datatype Snapshot = Snapshot(id: Uuid, fields: Dict, status: Option<Status>)

  datatype Event = Event(
    tfId: Uuid,
    kind: EventType,
    diff: Option<map<Field, Change>>,
    snapshot: Snapshot,
    runId: Uuid,
    occurredAt: Time
  )

  /** One scrape as the reconciler sees it. `selected` is the order in which the
      database happens to return the table's ids, `occurredAt` its transaction time. */
  datatype Scrape = Scrape(
    runId: Uuid,
    scrapedAt: Time,
    occurredAt: Time,
    records: seq<Scraped>,
    selected: seq<Uuid>
  )

  datatype Db = Db(table: Table, log: seq<Event>)

  function Ids(records: seq<Scraped>): seq<Uuid> {
    seq(|records|, i requires 0 <= i < |records| => records[i].id)
  }

  /** `{tf.id: tf for tf in records}`: a repeated id keeps its last record. */
  function ById(records: seq<Scraped>): map<Uuid, Scraped> {
    if records == [] then map[]
    else
      var last := records[|records| - 1];
      ById(records[..|records| - 1])[last.id := last]
  }

  function ScrapedSnapshot(x: Scraped): Snapshot {
    Snapshot(x.id, CompareDict(x.synced), None)
  }

  function RowSnapshot(id: Uuid, row: Row): Snapshot {
    Snapshot(id, CompareDict(row.synced), Some(row.status))
  }

  /** The row of an id after a scrape, from its row before and its scraped record. */
  function RowAfter(before: Option<Row>, seen: Option<Scraped>, at: Time): Option<Row> {
    match (before, seen)
    case (None, None) => None
    case (None, Some(x)) => Some(Row(x.synced, Active, at, at))
    case (Some(row), Some(x)) =>
      Some(Row(x.synced, if row.status.Removed? then Active else row.status, row.firstSeenAt, at))
    case (Some(row), None) => Some(row.(status := Status.Removed))
  }

  /** The event a scrape logs for an id, if any. */
  function EventFor(id: Uuid, before: Option<Row>, seen: Option<Scraped>, runId: Uuid, now: Time): Option<Event> {
    match (before, seen)
    case (None, None) => None
    case (None, Some(x)) => Some(Event(id, Created, None, ScrapedSnapshot(x), runId, now))
    case (Some(row), Some(x)) =>
      if row.status.Removed? then Some(Event(id, Restored, None, ScrapedSnapshot(x), runId, now))
      else if CompareDict(row.synced) != CompareDict(x.synced) then
        Some(Event(id, Updated, Some(DiffOf(CompareDict(row.synced), CompareDict(x.synced))),
                   ScrapedSnapshot(x), runId, now))
      else None
    case (Some(row), None) =>
      if row.status.Removed? then None
      else Some(Event(id, EventType.Removed, None, RowSnapshot(id, row.(status := Status.Removed)), runId, now))
  }

  /** The table once the ids in `done` have been reconciled. */
  function Advance(t: Table, seen: map<Uuid, Scraped>, at: Time, done: set<Uuid>): Table {
    map id | id in t.Keys + seen.Keys && (id in t || id in done)
      :: if id in done then RowAfter(Find(t, id), Find(seen, id), at).value else t[id]
  }

  function TableAfter(t: Table, seen: map<Uuid, Scraped>, at: Time): Table {
    Advance(t, seen, at, t.Keys + seen.Keys)
  }

  function EventsAlong(ids: seq<Uuid>, t: Table, seen: map<Uuid, Scraped>, runId: Uuid, now: Time): seq<Event> {
    if ids == [] then []
    else
      var id := ids[|ids| - 1];
      var event := EventFor(id, Find(t, id), Find(seen, id), runId, now);
      EventsAlong(ids[..|ids| - 1], t, seen, runId, now) + if event.Some? then [event.value] else []
  }

  /** Scraped ids in dictionary order, then the table's other ids in selection order. */
  function VisitOrder(records: seq<Scraped>, selected: seq<Uuid>): seq<Uuid> {
    FirstSeen(Ids(records)) + Without(selected, Ids(records))
  }

  function NewEvents(t: Table, s: Scrape): seq<Event> {
    EventsAlong(VisitOrder(s.records, s.selected), t, ById(s.records), s.runId, s.occurredAt)
  }

  function Reconciled(db: Db, s: Scrape): Db {
    Db(TableAfter(db.table, ById(s.records), s.scrapedAt), db.log + NewEvents(db.table, s))
  }

  function Count(events: seq<Event>, kind: EventType): nat {
    if events == [] then 0
    else Count(events[..|events| - 1], kind) + if events[|events| - 1].kind == kind then 1 else 0
  }

  /** `ids` lists every member of `all` once. */
  ghost predicate Enumerates(ids: seq<Uuid>, all: set<Uuid>) {
    Distinct(ids) && Elements(ids) == all
  }

  // ----- dictionaries of records -----

  lemma {:induction false} ByIdKeys(records: seq<Scraped>)
    ensures ById(records).Keys == Elements(Ids(records))
    ensures forall id :: id in ById(records) <==> id in Ids(records)
    ensures forall id :: id in ById(records) ==> ById(records)[id].id == id && ById(records)[id] in records
  {
    if records != [] {
      var before := records[..|records| - 1];
      ByIdKeys(before);
      assert Ids(records) == Ids(before) + [records[|records| - 1].id];
      forall id ensures id in Ids(records) <==> id in ById(records) {
        assert id in Ids(records) <==> id in Ids(before) || id == records[|records| - 1].id;
      }
    }
  }

  /** The record kept for an id is the one at its last occurrence. */
  lemma {:induction false} LastOccurrenceWins(records: seq<Scraped>, i: nat)
    requires i < |records|
    requires forall j :: i < j < |records| ==> records[j].id != records[i].id
    ensures records[i].id in ById(records) && ById(records)[records[i].id] == records[i]
  {
    if i < |records| - 1 {
      LastOccurrenceWins(records[..|records| - 1], i);
    }
  }

  lemma VisitOrderEnumerates(t: Table, s: Scrape)
    requires Enumerates(s.selected, t.Keys)
    ensures Enumerates(VisitOrder(s.records, s.selected), t.Keys + ById(s.records).Keys)
  {
    var ids := Ids(s.records);
    FirstSeenElements(ids);
    WithoutElements(s.selected, ids);
    ByIdKeys(s.records);
    var order := VisitOrder(s.records, s.selected);
    forall id ensures id in Elements(order) <==> id in t.Keys + ById(s.records).Keys {
      assert id in order <==> id in FirstSeen(ids) || id in Without(s.selected, ids);
      assert id in s.selected <==> id in Elements(s.selected);
    }
    forall i, j | 0 <= i < j < |order| ensures order[i] != order[j] {
      if i < |FirstSeen(ids)| <= j {
        assert order[i] in FirstSeen(ids) && order[j] in Without(s.selected, ids);
      }
    }
  }

  lemma {:induction false} CountConcat(a: seq<Event>, b: seq<Event>, kind: EventType)
    ensures Count(a + b, kind) == Count(a, kind) + Count(b, kind)
    decreases |b|
  {
    if b == [] {
      assert a + b == a;
    } else {
      assert (a + b)[..|a + b| - 1] == a + b[..|b| - 1];
      CountConcat(a, b[..|b| - 1], kind);
    }
  }

  lemma {:induction false} CountAll(events: seq<Event>)
    ensures Count(events, Created) + Count(events, Updated) + Count(events, EventType.Removed)
      + Count(events, Restored) == |events|
  {
    if events != [] {
      CountAll(events[..|events| - 1]);
    }
  }

  // ----- one scrape, whatever came before -----

  /** The ids currently on the register. */
  function Listed(t: Table): set<Uuid> {
    set id | id in t && !t[id].status.Removed?
  }

  /** After a scrape the listed ids are the scraped ones and carry each id's last record, whatever table
      the scrape found; a formal status survives, and a delisted row keeps everything but its status. */
  lemma Convergence(t: Table, records: seq<Scraped>, at: Time)
    ensures var after := TableAfter(t, ById(records), at);
      && Listed(after) == Elements(Ids(records))
      && after.Keys == t.Keys + Elements(Ids(records))
      && (forall id :: id in Listed(after) ==>
           && after[id].synced == ById(records)[id].synced
           && after[id].lastSeenAt == at
           && after[id].firstSeenAt == (if id in t then t[id].firstSeenAt else at)
           && after[id].status == (if id in t && !t[id].status.Removed? then t[id].status else Active))
      && forall id :: id in t.Keys - Elements(Ids(records)) ==> after[id] == t[id].(status := Status.Removed)
  {
    ByIdKeys(records);
    var after := TableAfter(t, ById(records), at);
    forall id ensures id in Listed(after) <==> id in ById(records) {}
  }

  lemma {:induction false} SecondVisitIsSilent(ids: seq<Uuid>, t: Table, seen: map<Uuid, Scraped>, at: Time,
      runId: Uuid, now: Time)
    requires forall id :: id in ids ==> id in t.Keys + seen.Keys
    ensures EventsAlong(ids, TableAfter(t, seen, at), seen, runId, now) == []
  {
    if ids != [] {
      SecondVisitIsSilent(ids[..|ids| - 1], t, seen, at, runId, now);
      assert ids[|ids| - 1] in ids;
    }
  }

  lemma SecondTable(t: Table, seen: map<Uuid, Scraped>, at: Time, again: Time)
    ensures var after := TableAfter(t, seen, at);
      TableAfter(after, seen, again)
      == map id | id in after :: if id in seen then after[id].(lastSeenAt := again) else after[id]
  {
    var after := TableAfter(t, seen, at);
    assert after.Keys == t.Keys + seen.Keys;
  }

  /** Re-running a scrape logs nothing and changes nothing but the last-seen times. */
  lemma SecondRunIsSilent(t: Table, s: Scrape, again: Scrape)
    requires again.records == s.records
    requires Enumerates(again.selected, TableAfter(t, ById(s.records), s.scrapedAt).Keys)
    ensures var after := TableAfter(t, ById(s.records), s.scrapedAt);
      && NewEvents(after, again) == []
      && TableAfter(after, ById(s.records), again.scrapedAt)
         == map id | id in after ::
              if id in ById(s.records) then after[id].(lastSeenAt := again.scrapedAt) else after[id]
  {
    var seen := ById(s.records);
    var after := TableAfter(t, seen, s.scrapedAt);
    var order := VisitOrder(again.records, again.selected);
    VisitOrderEnumerates(after, again);
    forall id | id in order ensures id in t.Keys + seen.Keys {
      assert id in Elements(order);
    }
    SecondVisitIsSilent(order, t, seen, s.scrapedAt, again.runId, again.occurredAt);
    SecondTable(t, seen, s.scrapedAt, again.scrapedAt);
  }

  lemma EventNamesItsId(id: Uuid, before: Option<Row>, seen: Option<Scraped>, runId: Uuid, now: Time)
    ensures var e := EventFor(id, before, seen, runId, now);
      e.Some? ==> e.value.tfId == id && e.value.runId == runId && e.value.occurredAt == now
  {
  }

  lemma {:induction false} EventCount(ids: seq<Uuid>, t: Table, seen: map<Uuid, Scraped>, runId: Uuid, now: Time,
      e: Event)
    requires Distinct(ids)
    ensures multiset(EventsAlong(ids, t, seen, runId, now))[e] ==
            if e.tfId in ids && EventFor(e.tfId, Find(t, e.tfId), Find(seen, e.tfId), runId, now) == Some(e)
            then 1 else 0
  {
    if ids != [] {
      var before, id := ids[..|ids| - 1], ids[|ids| - 1];
      EventCount(before, t, seen, runId, now, e);
      assert ids == before + [id];
      assert id !in before;
      EventNamesItsId(id, Find(t, id), Find(seen, id), runId, now);
    }
  }

  /** Neither the order of the source's list nor the order in which the database returns
      rows matters: same table, same multiset of events. */
  lemma OrderDoesNotMatter(t: Table, s1: Scrape, s2: Scrape)
    requires multiset(s1.records) == multiset(s2.records) && Distinct(Ids(s1.records))
    requires s1.runId == s2.runId && s1.occurredAt == s2.occurredAt && s1.scrapedAt == s2.scrapedAt
    requires Enumerates(s1.selected, t.Keys) && Enumerates(s2.selected, t.Keys)
    ensures TableAfter(t, ById(s1.records), s1.scrapedAt) == TableAfter(t, ById(s2.records), s2.scrapedAt)
    ensures multiset(NewEvents(t, s1)) == multiset(NewEvents(t, s2))
  {
    PermutedById(s1.records, s2.records);
    VisitOrderEnumerates(t, s1);
    VisitOrderEnumerates(t, s2);
    var o1, o2 := VisitOrder(s1.records, s1.selected), VisitOrder(s2.records, s2.selected);
    forall e ensures multiset(NewEvents(t, s1))[e] == multiset(NewEvents(t, s2))[e] {
      EventCount(o1, t, ById(s1.records), s1.runId, s1.occurredAt, e);
      EventCount(o2, t, ById(s2.records), s2.runId, s2.occurredAt, e);
      assert e.tfId in o1 <==> e.tfId in Elements(o1);
      assert e.tfId in o2 <==> e.tfId in Elements(o2);
    }
  }

  lemma PermutedById(p: seq<Scraped>, q: seq<Scraped>)
    requires multiset(p) == multiset(q) && Distinct(Ids(p))
    ensures ById(p) == ById(q)
  {
    ByIdKeys(p);
    ByIdKeys(q);
    forall x ensures x in p <==> x in q {
      assert x in p <==> x in multiset(p);
      assert x in q <==> x in multiset(q);
    }
    forall id ensures id in ById(p) <==> id in ById(q) {
      if id in ById(p) { SameIdsIn(p, q, id); }
      if id in ById(q) { SameIdsIn(q, p, id); }
    }
    forall id | id in ById(p) ensures ById(p)[id] == ById(q)[id] {
      var i :| 0 <= i < |p| && p[i] == ById(p)[id];
      var j :| 0 <= j < |p| && p[j] == ById(q)[id];
      assert Ids(p)[i] == Ids(p)[j] == id;
    }
  }

  lemma SameIdsIn(p: seq<Scraped>, q: seq<Scraped>, id: Uuid)
    requires forall x :: x in p ==> x in q
    requires id in Ids(p)
    ensures id in Ids(q)
  {
    var i :| 0 <= i < |p| && Ids(p)[i] == id;
    assert p[i] in q;
    var j :| 0 <= j < |q| && q[j] == p[i];
    assert Ids(q)[j] == id;
  }

  // ----- the order of a run's events -----

  /** Events come in the order in which their ids were visited. */
  lemma {:induction false} EventsFollowIds(ids: seq<Uuid>, t: Table, seen: map<Uuid, Scraped>, runId: Uuid, now: Time,
      i: nat, j: nat) returns (p: nat, q: nat)
    requires i < j < |EventsAlong(ids, t, seen, runId, now)|
    ensures p < q < |ids|
    ensures ids[p] == EventsAlong(ids, t, seen, runId, now)[i].tfId
    ensures ids[q] == EventsAlong(ids, t, seen, runId, now)[j].tfId
  {
    var front, id := ids[..|ids| - 1], ids[|ids| - 1];
    var older := EventsAlong(front, t, seen, runId, now);
    if j < |older| {
      p, q := EventsFollowIds(front, t, seen, runId, now, i, j);
    } else {
      EventNamesItsId(id, Find(t, id), Find(seen, id), runId, now);
      p := EventIsVisited(front, t, seen, runId, now, i);
      q := |ids| - 1;
    }
  }

  lemma {:induction false} EventIsVisited(ids: seq<Uuid>, t: Table, seen: map<Uuid, Scraped>, runId: Uuid, now: Time,
      i: nat) returns (p: nat)
    requires i < |EventsAlong(ids, t, seen, runId, now)|
    ensures p < |ids| && ids[p] == EventsAlong(ids, t, seen, runId, now)[i].tfId
  {
    var front, id := ids[..|ids| - 1], ids[|ids| - 1];
    if i < |EventsAlong(front, t, seen, runId, now)| {
      p := EventIsVisited(front, t, seen, runId, now, i);
    } else {
      EventNamesItsId(id, Find(t, id), Find(seen, id), runId, now);
      p := |ids| - 1;
    }
  }

  /** A first occurrence of `x` has no `y` at or before it. */
  ghost predicate Precedes(ids: seq<Uuid>, x: Uuid, y: Uuid) {
    exists k :: 0 <= k < |ids| && ids[k] == x && forall m :: 0 <= m <= k ==> ids[m] != y
  }

  ghost predicate Selects(selected: seq<Uuid>, x: Uuid, y: Uuid) {
    exists p, q :: 0 <= p < q < |selected| && selected[p] == x && selected[q] == y
  }

  /** Scraped ids come first, in the order of their first occurrence, then the others as selected. */
  ghost predicate VisitedBefore(ids: seq<Uuid>, selected: seq<Uuid>, x: Uuid, y: Uuid) {
    if y in ids then Precedes(ids, x, y) else x in ids || Selects(selected, x, y)
  }

  lemma VisitsKeepOrder(ids: seq<Uuid>, selected: seq<Uuid>, p: nat, q: nat)
    requires p < q < |FirstSeen(ids) + Without(selected, ids)|
    ensures var order := FirstSeen(ids) + Without(selected, ids); VisitedBefore(ids, selected, order[p], order[q])
  {
    var n := |FirstSeen(ids)|;
    FirstSeenElements(ids);
    WithoutElements(selected, ids);
    if q < n {
      var k := FirstSeenOrder(ids, p, q);
      assert FirstSeen(ids)[q] in FirstSeen(ids);
    } else {
      assert Without(selected, ids)[q - n] in Without(selected, ids);
      if p < n {
        assert FirstSeen(ids)[p] in FirstSeen(ids);
      } else {
        var a, b := WithoutOrder(selected, ids, p - n, q - n);
      }
    }
  }

  /** Within a run the events of scraped ids come first, in the order of the response, and removals
      last, in the order in which the database returned the rows. */
  lemma EventsKeepOrder(t: Table, s: Scrape, i: nat, j: nat)
    requires i < j < |NewEvents(t, s)|
    ensures VisitedBefore(Ids(s.records), s.selected, NewEvents(t, s)[i].tfId, NewEvents(t, s)[j].tfId)
  {
    var order := VisitOrder(s.records, s.selected);
    var p, q := EventsFollowIds(order, t, ById(s.records), s.runId, s.occurredAt, i, j);
    VisitsKeepOrder(Ids(s.records), s.selected, p, q);
  }

  /** A scrape that logs nothing left every record and status alone. */
  lemma {:induction false} SilentMeansUnchanged(ids: seq<Uuid>, t: Table, seen: map<Uuid, Scraped>, runId: Uuid,
      now: Time, id: Uuid)
    requires EventsAlong(ids, t, seen, runId, now) == [] && id in ids
    ensures EventFor(id, Find(t, id), Find(seen, id), runId, now).None?
  {
    if id != ids[|ids| - 1] {
      SilentMeansUnchanged(ids[..|ids| - 1], t, seen, runId, now, id);
    }
  }
}
