/** The database session of one scrape: the reconciler updates its rows in place
    and appends events; nothing is visible outside until the session is committed. */
module Session {
  import opened Wrappers
  import opened Sequences
  import opened Flagger
  import opened Diff
  import opened Reconcile

  /** The scraped records by id, with the order in which a dictionary iterates them. */
  method IndexById(normalized: seq<Scraped>) returns (scrapedById: map<Uuid, Scraped>, order: seq<Uuid>)
    ensures scrapedById == ById(normalized)
    ensures order == FirstSeen(Ids(normalized))
  {
    scrapedById, order := map[], [];
    for i := 0 to |normalized|
      invariant scrapedById == ById(normalized[..i])
      invariant order == FirstSeen(Ids(normalized)[..i])
    {
      assert normalized[..i + 1][..i] == normalized[..i];
      assert Ids(normalized)[..i + 1][..i] == Ids(normalized)[..i];
      var tf := normalized[i];
      if tf.id !in order {
        order := order + [tf.id];
      }
      scrapedById := scrapedById[tf.id := tf];
    }
    assert normalized[..|normalized|] == normalized && Ids(normalized)[..|normalized|] == Ids(normalized);
  }

  /** The database after one more id has been visited. */
  function VisitOne(db: Db, id: Uuid, seen: map<Uuid, Scraped>, s: Scrape): Db {
    var row := RowAfter(Find(db.table, id), Find(seen, id), s.scrapedAt);
    var event := EventFor(id, Find(db.table, id), Find(seen, id), s.runId, s.occurredAt);
    Db(if row.Some? then db.table[id := row.value] else db.table,
       if event.Some? then db.log + [event.value] else db.log)
  }

  function VisitAll(db: Db, ids: seq<Uuid>, seen: map<Uuid, Scraped>, s: Scrape): Db {
    if ids == [] then db else VisitOne(VisitAll(db, ids[..|ids| - 1], seen, s), ids[|ids| - 1], seen, s)
  }

  lemma {:induction false} UnvisitedIsUntouched(db: Db, ids: seq<Uuid>, seen: map<Uuid, Scraped>, s: Scrape, id: Uuid)
    requires id !in ids
    ensures Find(VisitAll(db, ids, seen, s).table, id) == Find(db.table, id)
    ensures VisitAll(db, ids + [id], seen, s) == VisitOne(VisitAll(db, ids, seen, s), id, seen, s)
  {
    assert (ids + [id])[..|ids|] == ids;
    if ids != [] {
      UnvisitedIsUntouched(db, ids[..|ids| - 1], seen, s, id);
    }
  }

  lemma AdvanceOneMore(t: Table, seen: map<Uuid, Scraped>, at: Time, done: set<Uuid>, id: Uuid)
    requires id in t.Keys + seen.Keys && id !in done
    ensures Advance(t, seen, at, done + {id})
         == Advance(t, seen, at, done)[id := RowAfter(Find(t, id), Find(seen, id), at).value]
  {
  }

  lemma VisitOneMeaning(db: Db, id: Uuid, t: Table, seen: map<Uuid, Scraped>, s: Scrape)
    requires id in t.Keys + seen.Keys && Find(db.table, id) == Find(t, id)
    ensures VisitOne(db, id, seen, s).table == db.table[id := RowAfter(Find(t, id), Find(seen, id), s.scrapedAt).value]
    ensures var event := EventFor(id, Find(t, id), Find(seen, id), s.runId, s.occurredAt);
      VisitOne(db, id, seen, s).log == db.log + if event.Some? then [event.value] else []
  {
  }

  /** Visiting ids one by one, each from its row at that moment, is the same as
      deciding every id from the table the session started with. */
  lemma {:induction false} VisitAllMeaning(db: Db, ids: seq<Uuid>, seen: map<Uuid, Scraped>, s: Scrape)
    requires Distinct(ids) && Elements(ids) <= db.table.Keys + seen.Keys
    ensures VisitAll(db, ids, seen, s).table == Advance(db.table, seen, s.scrapedAt, Elements(ids))
    ensures VisitAll(db, ids, seen, s).log == db.log + EventsAlong(ids, db.table, seen, s.runId, s.occurredAt)
  {
    if ids == [] {
      assert db.log + [] == db.log;
    } else {
      var before, id := ids[..|ids| - 1], ids[|ids| - 1];
      assert ids == before + [id];
      assert id in Elements(ids) && Elements(ids) == Elements(before) + {id};
      VisitAllMeaning(db, before, seen, s);
      UnvisitedIsUntouched(db, before, seen, s, id);
      AdvanceOneMore(db.table, seen, s.scrapedAt, Elements(before), id);
      VisitOneMeaning(VisitAll(db, before, seen, s), id, db.table, seen, s);
    }
  }

  ghost predicate Tallied(before: seq<Event>, after: seq<Event>, created: nat, updated: nat, removed: nat,
      restored: nat) {
    && Count(after, Created) == Count(before, Created) + created
    && Count(after, Updated) == Count(before, Updated) + updated
    && Count(after, EventType.Removed) == Count(before, EventType.Removed) + removed
    && Count(after, Restored) == Count(before, Restored) + restored
  }

  /** The visited ids after one more selected id, which was not among them yet. */
  lemma NextMissing(order: seq<Uuid>, selected: seq<Uuid>, j: nat, ids: seq<Uuid>)
    requires j < |selected| && Distinct(selected) && order == FirstSeen(ids)
    ensures var visited := order + Without(selected[..j], ids);
      && order + Without(selected[..j + 1], ids) == (if selected[j] in ids then visited else visited + [selected[j]])
      && (selected[j] !in ids ==> selected[j] !in visited)
  {
    assert selected[..j + 1][..j] == selected[..j];
    WithoutElements(selected[..j], ids);
    FirstSeenElements(ids);
  }

  lemma VisitedEverything(db: Db, s: Scrape)
    requires Enumerates(s.selected, db.table.Keys)
    ensures VisitAll(db, VisitOrder(s.records, s.selected), ById(s.records), s) == Reconciled(db, s)
  {
    VisitOrderEnumerates(db.table, s);
    VisitAllMeaning(db, VisitOrder(s.records, s.selected), ById(s.records), s);
  }

  lemma TalliedMeaning(before: seq<Event>, events: seq<Event>, created: nat, updated: nat, removed: nat, restored: nat)
    requires Tallied(before, before + events, created, updated, removed, restored)
    ensures created == Count(events, Created) && updated == Count(events, Updated)
    ensures removed == Count(events, EventType.Removed) && restored == Count(events, Restored)
  {
    CountConcat(before, events, Created);
    CountConcat(before, events, Updated);
    CountConcat(before, events, EventType.Removed);
    CountConcat(before, events, Restored);
  }

  lemma CountOneMore(events: seq<Event>, e: Event, kind: EventType)
    ensures Count(events + [e], kind) == Count(events, kind) + if e.kind == kind then 1 else 0
  {
    assert (events + [e])[..|events|] == events;
  }

  lemma CountsOneMore(events: seq<Event>, e: Event)
    ensures Count(events + [e], Created) == Count(events, Created) + if e.kind == Created then 1 else 0
    ensures Count(events + [e], Updated) == Count(events, Updated) + if e.kind == Updated then 1 else 0
    ensures Count(events + [e], EventType.Removed)
      == Count(events, EventType.Removed) + if e.kind == EventType.Removed then 1 else 0
    ensures Count(events + [e], Restored) == Count(events, Restored) + if e.kind == Restored then 1 else 0
  {
    CountOneMore(events, e, Created);
    CountOneMore(events, e, Updated);
    CountOneMore(events, e, EventType.Removed);
    CountOneMore(events, e, Restored);
  }

  /** The diff of a stored row against a scraped record, if they differ. */
  method Compare(row: Row, scraped: Scraped) returns (diff: Option<map<Field, Change>>)
    ensures diff == if CompareDict(row.synced) == CompareDict(scraped.synced) then None
                    else Some(DiffOf(CompareDict(row.synced), CompareDict(scraped.synced)))
    ensures diff.None? <==> row.synced == scraped.synced
  {
    CompareDictInjective(row.synced, scraped.synced);
    var existingDict := OrmToCompareDict(row);
    var scrapedDict := CompareDict(scraped.synced);
    if existingDict == scrapedDict {
      return None;
    }
    var out := ComputeDiff(existingDict, scrapedDict);
    return Some(out);
  }

  class Session {
    var table: Table
    var log: seq<Event>

    constructor (table: Table, log: seq<Event>)
      ensures this.table == table && this.log == log
    {
      this.table, this.log := table, log;
    }

    method AddEvent(e: Event)
      modifies `log
      ensures log == old(log) + [e]
    {
      log := log + [e];
    }

    /** Loop body for a scraped id: `existing` is the row selected at the start, if any. */
    method VisitScraped(tfId: Uuid, existing: Option<Row>, scraped: Scraped, s: Scrape, ghost seen: map<Uuid, Scraped>)
      returns (kind: Option<EventType>)
      requires Find(table, tfId) == existing && Find(seen, tfId) == Some(scraped)
      modifies this
      ensures Db(table, log) == VisitOne(Db(old(table), old(log)), tfId, seen, s)
      ensures if kind.None? then log == old(log)
              else |log| > 0 && log == old(log) + [log[|log| - 1]] && log[|log| - 1].kind == kind.value
      ensures kind != Some(EventType.Removed)
    {
      if existing.None? {
        table := table[tfId := Row(scraped.synced, Active, s.scrapedAt, s.scrapedAt)];
        AddEvent(Event(tfId, Created, None, ScrapedSnapshot(scraped), s.runId, s.occurredAt));
        return Some(Created);
      }

      var row := existing.value.(lastSeenAt := s.scrapedAt);

      if row.status.Removed? {
        table := table[tfId := row.(synced := scraped.synced, status := Active)];
        AddEvent(Event(tfId, Restored, None, ScrapedSnapshot(scraped), s.runId, s.occurredAt));
        return Some(Restored);
      }

      var diff := Compare(row, scraped);
      if diff.Some? {
        row := row.(synced := scraped.synced);
        AddEvent(Event(tfId, Updated, diff, ScrapedSnapshot(scraped), s.runId, s.occurredAt));
        table := table[tfId := row];
        return Some(Updated);
      }
      table := table[tfId := row];
      return None;
    }

    /** Loop body for a selected id that was not scraped. */
    method VisitMissing(tfId: Uuid, s: Scrape, ghost seen: map<Uuid, Scraped>) returns (kind: Option<EventType>)
      requires tfId in table && tfId !in seen
      modifies this
      ensures Db(table, log) == VisitOne(Db(old(table), old(log)), tfId, seen, s)
      ensures if kind.None? then log == old(log)
              else |log| > 0 && log == old(log) + [log[|log| - 1]] && log[|log| - 1].kind == kind.value
      ensures kind == None || kind == Some(EventType.Removed)
    {
      if table[tfId].status.Removed? {
        return None;
      }
      table := table[tfId := table[tfId].(status := Status.Removed)];
      AddEvent(Event(tfId, EventType.Removed, None, RowSnapshot(tfId, table[tfId]), s.runId, s.occurredAt));
      return Some(EventType.Removed);
    }

    /** First loop: every scraped id, in dictionary order. */
    method VisitAllScraped(current: Table, scrapedById: map<Uuid, Scraped>, order: seq<Uuid>, s: Scrape)
      returns (created: nat, updated: nat, restored: nat)
      requires table == current && Distinct(order) && Elements(order) == scrapedById.Keys
      modifies this
      ensures Db(table, log) == VisitAll(Db(old(table), old(log)), order, scrapedById, s)
      ensures Tallied(old(log), log, created, updated, 0, restored)
    {
      ghost var before := Db(table, log);
      created, updated, restored := 0, 0, 0;
      for i := 0 to |order|
        invariant Db(table, log) == VisitAll(before, order[..i], scrapedById, s)
        invariant Tallied(before.log, log, created, updated, 0, restored)
      {
        var tfId := order[i];
        ghost var logged := log;
        assert tfId in Elements(order) && order[..i + 1] == order[..i] + [tfId];
        UnvisitedIsUntouched(before, order[..i], scrapedById, s, tfId);
        var kind := VisitScraped(tfId, Find(current, tfId), scrapedById[tfId], s, scrapedById);
        if kind.Some? {
          CountsOneMore(logged, log[|log| - 1]);
          created := if kind.value == Created then created + 1 else created;
          updated := if kind.value == Updated then updated + 1 else updated;
          restored := if kind.value == Restored then restored + 1 else restored;
        }
      }
      assert order[..|order|] == order;
    }

    /** Second loop: every selected id that was not scraped. */
    method VisitAllMissing(scrapedById: map<Uuid, Scraped>, s: Scrape, ghost before: Db, ghost order: seq<Uuid>)
      returns (removed: nat)
      requires Enumerates(s.selected, before.table.Keys)
      requires order == FirstSeen(Ids(s.records)) && scrapedById == ById(s.records)
      requires Db(table, log) == VisitAll(before, order, scrapedById, s)
      modifies this
      ensures Db(table, log) == VisitAll(before, VisitOrder(s.records, s.selected), scrapedById, s)
      ensures Tallied(old(log), log, 0, 0, removed, 0)
    {
      removed := 0;
      ghost var visited := order;
      ByIdKeys(s.records);
      for j := 0 to |s.selected|
        invariant visited == order + Without(s.selected[..j], Ids(s.records))
        invariant Db(table, log) == VisitAll(before, visited, scrapedById, s)
        invariant Tallied(old(log), log, 0, 0, removed, 0)
      {
        var tfId := s.selected[j];
        ghost var logged := log;
        assert tfId in Elements(s.selected);
        NextMissing(order, s.selected, j, Ids(s.records));
        if tfId in scrapedById {
          continue;
        }
        UnvisitedIsUntouched(before, visited, scrapedById, s, tfId);
        var kind := VisitMissing(tfId, s, scrapedById);
        if kind.Some? {
          CountsOneMore(logged, log[|log| - 1]);
          removed := removed + 1;
        }
        visited := visited + [tfId];
      }
      assert s.selected[..|s.selected|] == s.selected;
    }

    /** Reconciles the rows against one scrape and counts the changes by kind. */
    method ApplyDiff(s: Scrape) returns (created: nat, updated: nat, removed: nat, restored: nat)
      requires Enumerates(s.selected, table.Keys)
      modifies this
      ensures Db(table, log) == Reconciled(Db(old(table), old(log)), s)
      ensures var events := NewEvents(old(table), s);
        && created == Count(events, Created) && updated == Count(events, Updated)
        && removed == Count(events, EventType.Removed) && restored == Count(events, Restored)
    {
      ghost var before := Db(table, log);
      var current := table;
      var scrapedById, order := IndexById(s.records);
      FirstSeenElements(Ids(s.records));
      ByIdKeys(s.records);
      created, updated, restored := VisitAllScraped(current, scrapedById, order, s);
      removed := VisitAllMissing(scrapedById, s, before, order);
      VisitedEverything(before, s);
      TalliedMeaning(before.log, NewEvents(before.table, s), created, updated, removed, restored);
    }
  }
}
