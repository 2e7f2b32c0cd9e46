/** All committed scrapes since the empty table, and what holds after any of them. */
module Histories {
  import opened Wrappers
  import opened Sequences
  import opened Flagger
  import opened Reconcile
  import opened EventLog
  import opened Normalize

  datatype History = Genesis | Then(past: History, scrape: Scrape)

  function After(h: History): Db {
    match h
    case Genesis => Db(map[], [])
    case Then(past, s) => Reconciled(After(past), s)
  }

  function RunIds(h: History): set<Uuid> {
    if h.Genesis? then {} else RunIds(h.past) + {h.scrape.runId}
  }

  /** The database returned the rows it had, and run identifiers are fresh. */
  ghost predicate Valid(h: History) {
    h.Then? ==>
      && Valid(h.past)
      && Enumerates(h.scrape.selected, After(h.past).table.Keys)
      && h.scrape.runId !in RunIds(h.past)
  }

  ghost predicate Earlier(p: History, h: History) {
    p == h || (h.Then? && Earlier(p, h.past))
  }

  lemma {:induction false} EarlierIsValid(p: History, h: History)
    requires Valid(h) && Earlier(p, h)
    ensures Valid(p) && RunIds(p) <= RunIds(h)
  {
    if p != h {
      EarlierIsValid(p, h.past);
    }
  }

  // ----- the log and the table tell the same story -----

  lemma {:induction false} LogMatchesTable(h: History)
    requires Valid(h)
    ensures WellFormed(After(h).log) && Replay(After(h).log) == ViewOf(After(h).table)
  {
    if h.Then? {
      LogMatchesTable(h.past);
      var t, s := After(h.past).table, h.scrape;
      ByIdKeys(s.records);
      VisitOrderEnumerates(t, s);
      ScrapeExtends(After(h.past).log, t, VisitOrder(s.records, s.selected), ById(s.records), s);
    }
  }

  /** Events are only ever appended and rows never deleted. */
  lemma {:induction false} NothingIsErased(p: History, h: History)
    requires Earlier(p, h)
    ensures After(p).log <= After(h).log && After(p).table.Keys <= After(h).table.Keys
  {
    if p != h {
      NothingIsErased(p, h.past);
    }
  }

  /** Replaying the events logged up to any earlier run gives the table as it stood then. */
  lemma PointInTime(h: History, p: History)
    requires Valid(h) && Earlier(p, h)
    ensures |After(p).log| <= |After(h).log|
    ensures Replay(After(h).log[..|After(p).log|]) == ViewOf(After(p).table)
  {
    NothingIsErased(p, h);
    EarlierIsValid(p, h);
    LogMatchesTable(p);
    assert After(h).log[..|After(p).log|] == After(p).log;
  }

  /** Undoing events from the current table back to any earlier run gives the table as it stood then. */
  lemma RewindToAnyRun(h: History, p: History)
    requires Valid(h) && Earlier(p, h)
    ensures |After(p).log| <= |After(h).log|
    ensures Rewind(After(h).log, ViewOf(After(h).table), |After(p).log|) == ViewOf(After(p).table)
  {
    PointInTime(h, p);
    LogMatchesTable(h);
    RewindRecovers(After(h).log, |After(p).log|);
  }

  // ----- audit by time -----

  ghost predicate Chronological(h: History) {
    h.Then? ==>
      && Chronological(h.past)
      && (h.past.Then? ==> h.past.scrape.occurredAt <= h.scrape.occurredAt)
  }

  function DatedBy(when: Time): Event -> bool {
    (e: Event) => e.occurredAt <= when
  }

  function LogAsOf(log: seq<Event>, when: Time): seq<Event> {
    Filter(log, DatedBy(when))
  }

  /** The runs committed by a given time. */
  function AsOf(h: History, when: Time): History {
    if h.Genesis? || h.scrape.occurredAt <= when then h else AsOf(h.past, when)
  }

  lemma {:induction false} EventsCarryTheirRun(ids: seq<Uuid>, t: Table, seen: map<Uuid, Scraped>, runId: Uuid,
      now: Time)
    ensures forall e :: e in EventsAlong(ids, t, seen, runId, now) ==>
      e.runId == runId && e.occurredAt == now && e.tfId in ids
  {
    if ids != [] {
      var id := ids[|ids| - 1];
      EventsCarryTheirRun(ids[..|ids| - 1], t, seen, runId, now);
      EventNamesItsId(id, Find(t, id), Find(seen, id), runId, now);
      assert ids == ids[..|ids| - 1] + [id];
    }
  }

  lemma ScrapeNamesItsRun(t: Table, s: Scrape)
    ensures forall e :: e in NewEvents(t, s) ==> e.runId == s.runId && e.occurredAt == s.occurredAt
  {
    EventsCarryTheirRun(VisitOrder(s.records, s.selected), t, ById(s.records), s.runId, s.occurredAt);
  }

  lemma OneRunInTime(past: History, s: Scrape, when: Time)
    ensures LogAsOf(After(Then(past, s)).log, when)
      == LogAsOf(After(past).log, when) + if s.occurredAt <= when then NewEvents(After(past).table, s) else []
  {
    var t := After(past).table;
    ScrapeNamesItsRun(t, s);
    FilterConcat(After(past).log, NewEvents(t, s), DatedBy(when));
    FilterUniform(NewEvents(t, s), DatedBy(when), s.occurredAt <= when);
  }

  lemma {:induction false} AllInTime(h: History, when: Time)
    requires Chronological(h) && (h.Then? ==> h.scrape.occurredAt <= when)
    ensures LogAsOf(After(h).log, when) == After(h).log
  {
    if h.Then? {
      AllInTime(h.past, when);
      OneRunInTime(h.past, h.scrape, when);
    }
  }

  lemma {:induction false} LogAsOfIsEarlier(h: History, when: Time)
    requires Chronological(h)
    ensures LogAsOf(After(h).log, when) == After(AsOf(h, when)).log
    ensures Earlier(AsOf(h, when), h)
  {
    if h.Then? && when < h.scrape.occurredAt {
      LogAsOfIsEarlier(h.past, when);
      OneRunInTime(h.past, h.scrape, when);
    } else {
      AllInTime(h, when);
    }
  }

  /** What is asked about are exactly the events dated up to then. */
  lemma AsOfIsComplete(log: seq<Event>, when: Time, e: Event)
    ensures e in LogAsOf(log, when) <==> e in log && e.occurredAt <= when
  {
    FilterElements(log, DatedBy(when), e);
  }

  /** The audit question: the events dated up to a time replay to the table the last run
      committed by that time left behind. */
  lemma AuditAsOf(h: History, when: Time)
    requires Valid(h) && Chronological(h)
    ensures Replay(LogAsOf(After(h).log, when)) == ViewOf(After(AsOf(h, when)).table)
  {
    LogAsOfIsEarlier(h, when);
    EarlierIsValid(AsOf(h, when), h);
    LogMatchesTable(AsOf(h, when));
  }

  // ----- the table as a function of the scrapes -----

  /** The earliest scrape that contained an id. */
  function First(h: History, id: Uuid): Option<Scrape> {
    if h.Genesis? then None
    else if First(h.past, id).Some? then First(h.past, id)
    else if id in Ids(h.scrape.records) then Some(h.scrape) else None
  }

  /** The latest scrape that contained an id. */
  function Latest(h: History, id: Uuid): Option<Scrape> {
    if h.Genesis? then None
    else if id in Ids(h.scrape.records) then Some(h.scrape) else Latest(h.past, id)
  }

  lemma {:induction false} LatestContains(h: History, id: Uuid)
    ensures First(h, id).Some? <==> Latest(h, id).Some?
    ensures Latest(h, id).Some? ==> id in ById(Latest(h, id).value.records)
  {
    if h.Then? {
      LatestContains(h.past, id);
      ByIdKeys(h.scrape.records);
    }
  }

  /** A row told from the scrapes alone: no table, no diff, no event. */
  function RowFromScrapes(h: History, id: Uuid): Option<Row> {
    LatestContains(h, id);
    if h.Genesis? || Latest(h, id).None? then None
    else
      var latest := Latest(h, id).value;
      Some(Row(
        ById(latest.records)[id].synced,
        if id in Ids(h.scrape.records) then Active else Status.Removed,
        First(h, id).value.scrapedAt,
        latest.scrapedAt))
  }

  /** The reconciled table holds, for every id, the last record of the latest scrape that
      contained it, `active` exactly while the newest scrape contains it, first seen at the
      start of the earliest such scrape and last seen at the start of the latest. */
  lemma {:induction false} TableIsHistory(h: History, id: Uuid)
    ensures Find(After(h).table, id) == RowFromScrapes(h, id)
  {
    if h.Then? {
      TableIsHistory(h.past, id);
      LatestContains(h.past, id);
      ByIdKeys(h.scrape.records);
    }
  }

  ghost predicate DerivedRecords(h: History) {
    h.Then? ==> DerivedRecords(h.past) && forall x :: x in h.scrape.records ==> Derived(x.synced)
  }

  lemma {:induction false} LatestIsDerived(h: History, id: Uuid)
    requires DerivedRecords(h) && Latest(h, id).Some?
    ensures id in ById(Latest(h, id).value.records) && Derived(ById(Latest(h, id).value.records)[id].synced)
  {
    ByIdKeys(h.scrape.records);
    if id !in Ids(h.scrape.records) {
      LatestIsDerived(h.past, id);
    }
  }

  /** Every row's derived columns agree with their sources when every scraped record's do. */
  lemma RowsAreDerived(h: History, id: Uuid)
    requires DerivedRecords(h) && id in After(h).table
    ensures Derived(After(h).table[id].synced)
  {
    TableIsHistory(h, id);
    LatestContains(h, id);
    LatestIsDerived(h, id);
  }

  // ----- one event per id and run, and what each run logged -----

  ghost predicate DistinctTargets(events: seq<Event>) {
    forall i, j :: 0 <= i < j < |events| ==> events[i].tfId != events[j].tfId
  }

  lemma {:induction false} EventsHaveDistinctIds(ids: seq<Uuid>, t: Table, seen: map<Uuid, Scraped>, runId: Uuid,
      now: Time)
    requires Distinct(ids)
    ensures DistinctTargets(EventsAlong(ids, t, seen, runId, now))
  {
    if ids != [] {
      var before, id := ids[..|ids| - 1], ids[|ids| - 1];
      EventsHaveDistinctIds(before, t, seen, runId, now);
      EventsCarryTheirRun(before, t, seen, runId, now);
      EventNamesItsId(id, Find(t, id), Find(seen, id), runId, now);
      assert id !in before;
      var older := EventsAlong(before, t, seen, runId, now);
      forall i | 0 <= i < |older| ensures older[i].tfId != id { assert older[i] in older; }
      var events := EventsAlong(ids, t, seen, runId, now);
      forall i, j | 0 <= i < j < |events| ensures events[i].tfId != events[j].tfId {
        assert events[i] == older[i];
        if j < |older| { assert events[j] == older[j]; }
      }
    }
  }

  lemma {:induction false} EventsNameCommittedRuns(h: History)
    ensures forall e :: e in After(h).log ==> e.runId in RunIds(h)
  {
    if h.Then? {
      EventsNameCommittedRuns(h.past);
      ScrapeNamesItsRun(After(h.past).table, h.scrape);
    }
  }

  ghost predicate OnePerRun(log: seq<Event>) {
    forall i, j :: 0 <= i < j < |log| ==> log[i].tfId != log[j].tfId || log[i].runId != log[j].runId
  }

  lemma RunsStayApart(older: seq<Event>, newer: seq<Event>, runId: Uuid)
    requires OnePerRun(older) && DistinctTargets(newer)
    requires forall e :: e in older ==> e.runId != runId
    requires forall e :: e in newer ==> e.runId == runId
    ensures OnePerRun(older + newer)
  {
    var log, n := older + newer, |older|;
    forall i, j | 0 <= i < j < |log| ensures log[i].tfId != log[j].tfId || log[i].runId != log[j].runId {
      if j < n {
        assert log[i] == older[i] && log[j] == older[j];
      } else if i < n {
        assert log[i] == older[i] && older[i] in older && log[j] == newer[j - n] && newer[j - n] in newer;
      } else {
        assert log[i] == newer[i - n] && log[j] == newer[j - n];
      }
    }
  }

  /** An id has at most one event in a run. */
  lemma {:induction false} OneEventPerRun(h: History)
    requires Valid(h)
    ensures OnePerRun(After(h).log)
  {
    if h.Then? {
      var s, t := h.scrape, After(h.past).table;
      var order := VisitOrder(s.records, s.selected);
      OneEventPerRun(h.past);
      VisitOrderEnumerates(t, s);
      EventsHaveDistinctIds(order, t, ById(s.records), s.runId, s.occurredAt);
      EventsCarryTheirRun(order, t, ById(s.records), s.runId, s.occurredAt);
      EventsNameCommittedRuns(h.past);
      RunsStayApart(After(h.past).log, NewEvents(t, s), s.runId);
    }
  }

  function OfRun(runId: Uuid): Event -> bool {
    (e: Event) => e.runId == runId
  }

  function EventsOfRun(log: seq<Event>, runId: Uuid): seq<Event> {
    Filter(log, OfRun(runId))
  }

  /** However much is logged later, a run's events are the ones its own scrape produced. */
  lemma {:induction false} RunOwnsItsEvents(h: History, p: History)
    requires Valid(h) && Earlier(p, h) && p.Then?
    ensures EventsOfRun(After(h).log, p.scrape.runId) == NewEvents(After(p.past).table, p.scrape)
  {
    var s, runId, older := h.scrape, p.scrape.runId, After(h.past).log;
    var newer := NewEvents(After(h.past).table, s);
    ScrapeNamesItsRun(After(h.past).table, s);
    FilterConcat(older, newer, OfRun(runId));
    FilterUniform(newer, OfRun(runId), s.runId == runId);
    if p == h {
      EventsNameCommittedRuns(h.past);
      FilterUniform(older, OfRun(runId), false);
    } else {
      EarlierIsValid(p, h.past);
      RunOwnsItsEvents(h.past, p);
    }
  }

  // ----- lifecycles and totals -----

  /** Every id's events form created (updated | removed restored)* removed?, empty for an
      unknown id, and the row is removed exactly when the last event says so. */
  lemma LifecycleOfEveryId(h: History, id: Uuid)
    requires Valid(h)
    ensures var kinds, t := KindsOf(After(h).log, id), After(h).table;
      && (id !in t <==> kinds == [])
      && (id in t && t[id].status == Active <==> Open(kinds))
      && (id in t && t[id].status == Status.Removed <==> Closed(kinds))
      && (id in t ==> (t[id].status == Status.Removed <==> kinds[|kinds| - 1] == EventType.Removed))
  {
    LogMatchesTable(h);
    Lifecycle(After(h).log, id);
    TableIsHistory(h, id);
    var kinds := KindsOf(After(h).log, id);
    if Open(kinds) {
      OpenNeverEndsRemoved(kinds);
    }
  }

  /** Rows and listed flaggers add up over the whole log; the listed ones are the distinct
      ids of the newest scrape. */
  lemma TotalsAddUp(h: History)
    requires Valid(h)
    ensures var log, t := After(h).log, After(h).table;
      && |t| == Count(log, Created)
      && |Listed(t)| + Count(log, EventType.Removed) == Count(log, Created) + Count(log, Restored)
      && Listed(t) == (if h.Then? then Elements(Ids(h.scrape.records)) else {})
  {
    LogMatchesTable(h);
    Conservation(After(h).log);
    SameTotals(After(h).table);
    NewestScrapeIsListed(h);
  }

  lemma SameTotals(t: Table)
    ensures |ViewOf(t)| == |t| && ListedIn(ViewOf(t)) == Listed(t)
  {
    assert ViewOf(t).Keys == t.Keys;
    assert |ViewOf(t)| == |ViewOf(t).Keys| && |t| == |t.Keys|;
  }

  lemma NewestScrapeIsListed(h: History)
    ensures Listed(After(h).table) == if h.Then? then Elements(Ids(h.scrape.records)) else {}
  {
    if h.Then? {
      Convergence(After(h.past).table, h.scrape.records, h.scrape.scrapedAt);
    }
  }

  lemma FirstScrapeLogs(h: History)
    requires Valid(h) && h.Then? && h.past.Genesis? && h.scrape.records != []
    ensures After(h).log != [] && forall e :: e in After(h).log ==> e.runId == h.scrape.runId
  {
    TotalsAddUp(h);
    EventsNameCommittedRuns(h);
    assert Ids(h.scrape.records)[0] in Elements(Ids(h.scrape.records));
  }
}
