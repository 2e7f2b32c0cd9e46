/** The append-only event log on its own: replaying it, walking it backwards,
    and the shape every id's events have. */
module EventLog {
  import opened Wrappers
  import opened Sequences
  import opened Flagger
  import opened Diff
  import opened Reconcile

  /** What a reader of the log alone knows about a flagger. */
  datatype Entry = Entry(fields: Dict, listed: bool)

  type View = map<Uuid, Entry>

  /** The same knowledge, read from the table. */
  function ViewOf(t: Table): View {
    map id | id in t :: Entry(CompareDict(t[id].synced), !t[id].status.Removed?)
  }

  function Apply(view: View, e: Event): View {
    match e.kind
    case Created => view[e.tfId := Entry(e.snapshot.fields, true)]
    case Updated =>
      if e.tfId in view && e.diff.Some?
      then view[e.tfId := Entry(Patch(view[e.tfId].fields, e.diff.value), view[e.tfId].listed)]
      else view
    case Removed => if e.tfId in view then view[e.tfId := view[e.tfId].(listed := false)] else view
    case Restored => view[e.tfId := Entry(e.snapshot.fields, true)]
  }

  function Replay(log: seq<Event>): View {
    if log == [] then map[] else Apply(Replay(log[..|log| - 1]), log[|log| - 1])
  }

  /** What an event must agree with, given what the log before it says. */
  ghost predicate Consistent(view: View, e: Event) {
    && e.snapshot.id == e.tfId
    && e.snapshot.fields.Keys == Elements(SYNCED_FIELDS)
    && match e.kind
       case Created => e.tfId !in view && e.diff.None? && e.snapshot.status.None?
       case Updated =>
         && e.tfId in view && view[e.tfId].listed && e.snapshot.status.None?
         && e.diff == Some(DiffOf(view[e.tfId].fields, e.snapshot.fields)) && e.diff.value != map[]
         && ListsChanges(e.diff.value, view[e.tfId].fields, e.snapshot.fields)
         && Patch(view[e.tfId].fields, e.diff.value) == e.snapshot.fields
       case Removed =>
         && e.tfId in view && view[e.tfId].listed && e.diff.None?
         && e.snapshot.fields == view[e.tfId].fields && e.snapshot.status == Some(Status.Removed)
       case Restored => e.tfId in view && !view[e.tfId].listed && e.diff.None? && e.snapshot.status.None?
  }

  ghost predicate WellFormed(log: seq<Event>) {
    log != [] ==>
      && WellFormed(log[..|log| - 1])
      && Consistent(Replay(log[..|log| - 1]), log[|log| - 1])
  }

  lemma ReplayOneMore(log: seq<Event>, e: Event)
    ensures Replay(log + [e]) == Apply(Replay(log), e)
    ensures WellFormed(log + [e]) <==> WellFormed(log) && Consistent(Replay(log), e)
  {
    assert (log + [e])[..|log|] == log;
  }

  // ----- a scrape extends a well-formed log -----

  lemma CompareDictKeys(s: Synced)
    ensures CompareDict(s).Keys == Elements(SYNCED_FIELDS)
  {
  }

  /** What reconciling an id logs agrees with what the log says, and leads to what the table will say. */
  ghost predicate FitsEvent(t: Table, seen: map<Uuid, Scraped>, id: Uuid, runId: Uuid, now: Time, at: Time) {
    match EventFor(id, Find(t, id), Find(seen, id), runId, now)
    case Some(e) =>
      && Consistent(ViewOf(t), e)
      && Find(Apply(ViewOf(t), e), id) == EntryOf(RowAfter(Find(t, id), Find(seen, id), at))
    case None => Find(ViewOf(t), id) == EntryOf(RowAfter(Find(t, id), Find(seen, id), at))
  }

  lemma DiffFits(a: Dict, b: Dict)
    requires a.Keys == b.Keys && a != b
    ensures ListsChanges(DiffOf(a, b), a, b) && DiffOf(a, b) != map[] && Patch(a, DiffOf(a, b)) == b
  {
    PatchInverts(a, b);
    DiffDetectsEveryChange(a, b);
    DiffListsChanges(a, b);
  }

  lemma SeenAgainFits(t: Table, seen: map<Uuid, Scraped>, id: Uuid, runId: Uuid, now: Time, at: Time)
    requires id in t && id in seen && seen[id].id == id
    ensures FitsEvent(t, seen, id, runId, now, at)
  {
    var a, b := CompareDict(t[id].synced), CompareDict(seen[id].synced);
    CompareDictKeys(t[id].synced);
    CompareDictKeys(seen[id].synced);
    if t[id].status.Removed? {
      assert EventFor(id, Find(t, id), Find(seen, id), runId, now).value.kind == Restored;
    } else if a != b {
      DiffFits(a, b);
    }
  }

  lemma EventIsConsistent(t: Table, seen: map<Uuid, Scraped>, id: Uuid, runId: Uuid, now: Time, at: Time)
    requires id in seen ==> seen[id].id == id
    ensures FitsEvent(t, seen, id, runId, now, at)
  {
    if id in t && id in seen {
      SeenAgainFits(t, seen, id, runId, now, at);
    } else {
      if id in t { CompareDictKeys(t[id].synced); }
      if id in seen { CompareDictKeys(seen[id].synced); }
    }
  }

  function EntryOf(row: Option<Row>): Option<Entry> {
    if row.None? then None else Some(Entry(CompareDict(row.value.synced), !row.value.status.Removed?))
  }

  /** Two views that agree on one id accept the same events for it. */
  lemma ConsistencyIsLocal(v: View, w: View, e: Event)
    requires Find(v, e.tfId) == Find(w, e.tfId)
    ensures Consistent(v, e) <==> Consistent(w, e)
    ensures Find(Apply(v, e), e.tfId) == Find(Apply(w, e), e.tfId)
    ensures forall id :: id != e.tfId ==> Find(Apply(v, e), id) == Find(v, id)
  {
  }

  lemma ViewOfAdvance(t: Table, seen: map<Uuid, Scraped>, at: Time, done: set<Uuid>, id: Uuid)
    ensures Find(ViewOf(Advance(t, seen, at, done)), id)
         == if id in done then EntryOf(RowAfter(Find(t, id), Find(seen, id), at)) else Find(ViewOf(t), id)
  {
  }

  /** Reconciling one more id keeps the log well formed and in step with the table. */
  lemma VisitExtends(log: seq<Event>, t: Table, done: set<Uuid>, id: Uuid, seen: map<Uuid, Scraped>, s: Scrape)
    requires WellFormed(log) && Replay(log) == ViewOf(Advance(t, seen, s.scrapedAt, done))
    requires id !in done && (id in seen ==> seen[id].id == id)
    ensures var event := EventFor(id, Find(t, id), Find(seen, id), s.runId, s.occurredAt);
      var after := log + if event.Some? then [event.value] else [];
      WellFormed(after) && Replay(after) == ViewOf(Advance(t, seen, s.scrapedAt, done + {id}))
  {
    var view, next := Replay(log), ViewOf(Advance(t, seen, s.scrapedAt, done + {id}));
    var event := EventFor(id, Find(t, id), Find(seen, id), s.runId, s.occurredAt);
    EventIsConsistent(t, seen, id, s.runId, s.occurredAt, s.scrapedAt);
    EventNamesItsId(id, Find(t, id), Find(seen, id), s.runId, s.occurredAt);
    AdvancedViewAt(t, seen, s.scrapedAt, done, id);
    if event.None? {
      assert log + [] == log;
      SameView(view, next);
    } else {
      ConsistencyIsLocal(view, ViewOf(t), event.value);
      ReplayOneMore(log, event.value);
      SameView(Apply(view, event.value), next);
    }
  }

  lemma AdvancedViewAt(t: Table, seen: map<Uuid, Scraped>, at: Time, done: set<Uuid>, id: Uuid)
    requires id !in done
    ensures var view, next := ViewOf(Advance(t, seen, at, done)), ViewOf(Advance(t, seen, at, done + {id}));
      && Find(view, id) == Find(ViewOf(t), id)
      && forall other :: Find(next, other) ==
           if other == id then EntryOf(RowAfter(Find(t, id), Find(seen, id), at)) else Find(view, other)
  {
    var view, next := ViewOf(Advance(t, seen, at, done)), ViewOf(Advance(t, seen, at, done + {id}));
    forall other
      ensures Find(next, other)
        == if other == id then EntryOf(RowAfter(Find(t, id), Find(seen, id), at)) else Find(view, other)
    {
      ViewOfAdvance(t, seen, at, done, other);
      ViewOfAdvance(t, seen, at, done + {id}, other);
    }
    ViewOfAdvance(t, seen, at, done, id);
  }

  lemma LastVisitLast(log: seq<Event>, ids: seq<Uuid>, t: Table, seen: map<Uuid, Scraped>, s: Scrape)
    requires ids != []
    ensures var id := ids[|ids| - 1];
      var event := EventFor(id, Find(t, id), Find(seen, id), s.runId, s.occurredAt);
      log + EventsAlong(ids, t, seen, s.runId, s.occurredAt)
      == log + EventsAlong(ids[..|ids| - 1], t, seen, s.runId, s.occurredAt) + if event.Some? then [event.value] else []
  {
  }

  /** Whatever ids a scrape visits, in whatever order, the log stays well formed
      and replays to the table as far as it has been reconciled. */
  lemma {:induction false} ScrapeExtends(log: seq<Event>, t: Table, ids: seq<Uuid>, seen: map<Uuid, Scraped>, s: Scrape)
    requires WellFormed(log) && Replay(log) == ViewOf(t)
    requires Distinct(ids) && forall id :: id in seen ==> seen[id].id == id
    ensures var after := log + EventsAlong(ids, t, seen, s.runId, s.occurredAt);
      WellFormed(after) && Replay(after) == ViewOf(Advance(t, seen, s.scrapedAt, Elements(ids)))
  {
    if ids == [] {
      assert log + [] == log;
      assert Advance(t, seen, s.scrapedAt, Elements(ids)) == t;
    } else {
      var before, id := ids[..|ids| - 1], ids[|ids| - 1];
      ScrapeExtends(log, t, before, seen, s);
      assert ids == before + [id] && Elements(ids) == Elements(before) + {id} && id !in Elements(before);
      VisitExtends(log + EventsAlong(before, t, seen, s.runId, s.occurredAt), t, Elements(before), id, seen, s);
      LastVisitLast(log, ids, t, seen, s);
    }
  }

  lemma SameView(v: View, w: View)
    requires forall id :: Find(v, id) == Find(w, id)
    ensures v == w
  {
    assert forall id :: id in v <==> Find(v, id).Some?;
    assert forall id :: id in w <==> Find(w, id).Some?;
    assert forall id :: id in v ==> Some(v[id]) == Find(v, id);
    assert forall id :: id in w ==> Some(w[id]) == Find(w, id);
  }

  // ----- walking backwards -----

  /** The latest event of an id. */
  function LastOf(log: seq<Event>, id: Uuid): Option<Event> {
    if log == [] then None
    else if log[|log| - 1].tfId == id then Some(log[|log| - 1])
    else LastOf(log[..|log| - 1], id)
  }

  /** What a reader knew before the event, from what it knew after and the older log. */
  function Undo(view: View, e: Event, older: seq<Event>): View {
    if e.tfId !in view then view
    else
      match e.kind
      case Created => view - {e.tfId}
      case Updated =>
        if e.diff.None? then view
        else view[e.tfId := Entry(Patch(view[e.tfId].fields, Swap(e.diff.value)), view[e.tfId].listed)]
      case Removed => view[e.tfId := view[e.tfId].(listed := true)]
      case Restored =>
        var removal := LastOf(older, e.tfId);
        if removal.None? then view else view[e.tfId := Entry(removal.value.snapshot.fields, false)]
  }

  /** Undoes events from the newest until `n` are left. */
  function Rewind(log: seq<Event>, view: View, n: nat): View
    requires n <= |log|
  {
    if n == |log| then view
    else
      var older := log[..|log| - 1];
      Rewind(older, Undo(view, log[|log| - 1], older), n)
  }

  /** A delisted id's latest event is its removal, whose snapshot is its last record. */
  lemma {:induction false} RemovalIsLast(log: seq<Event>, id: Uuid)
    requires WellFormed(log) && id in Replay(log) && !Replay(log)[id].listed
    ensures var e := LastOf(log, id);
      e.Some? && e.value.kind == EventType.Removed && e.value.snapshot.fields == Replay(log)[id].fields
  {
    var older := log[..|log| - 1];
    if log[|log| - 1].tfId != id {
      RemovalIsLast(older, id);
    }
  }

  lemma {:induction false} FieldsAreComplete(log: seq<Event>, id: Uuid)
    requires WellFormed(log) && id in Replay(log)
    ensures Replay(log)[id].fields.Keys == Elements(SYNCED_FIELDS)
  {
    var older, e := log[..|log| - 1], log[|log| - 1];
    if id in Replay(older) {
      FieldsAreComplete(older, id);
    }
  }

  lemma UndoInverts(older: seq<Event>, e: Event)
    requires WellFormed(older) && Consistent(Replay(older), e)
    ensures Undo(Apply(Replay(older), e), e, older) == Replay(older)
  {
    var view := Replay(older);
    match e.kind
    case Created =>
    case Updated =>
      FieldsAreComplete(older, e.tfId);
      PatchInverts(view[e.tfId].fields, e.snapshot.fields);
    case Removed =>
    case Restored =>
      RemovalIsLast(older, e.tfId);
  }

  /** Walking a well-formed log backwards recovers what it said at every earlier point. */
  lemma {:induction false} RewindRecovers(log: seq<Event>, n: nat)
    requires WellFormed(log) && n <= |log|
    ensures Rewind(log, Replay(log), n) == Replay(log[..n])
  {
    if n == |log| {
      assert log[..n] == log;
    } else {
      var older := log[..|log| - 1];
      UndoInverts(older, log[|log| - 1]);
      RewindRecovers(older, n);
      assert older[..n] == log[..n];
    }
  }

  // ----- the life of one id -----

  function KindsOf(log: seq<Event>, id: Uuid): seq<EventType> {
    if log == [] then []
    else KindsOf(log[..|log| - 1], id) + if log[|log| - 1].tfId == id then [log[|log| - 1].kind] else []
  }

  /** created (updated | removed restored)* */
  ghost predicate Open(kinds: seq<EventType>) {
    var n := |kinds|;
    || kinds == [Created]
    || (n > 1 && kinds[n - 1] == Updated && Open(kinds[..n - 1]))
    || (n > 2 && kinds[n - 2..] == [EventType.Removed, Restored] && Open(kinds[..n - 2]))
  }

  /** created (updated | removed restored)* removed */
  ghost predicate Closed(kinds: seq<EventType>) {
    kinds != [] && kinds[|kinds| - 1] == EventType.Removed && Open(kinds[..|kinds| - 1])
  }

  /** Every id's events follow one pattern, and the pattern tells its state. */
  lemma {:induction false} Lifecycle(log: seq<Event>, id: Uuid)
    requires WellFormed(log)
    ensures var kinds := KindsOf(log, id);
      match Find(Replay(log), id)
      case None => kinds == []
      case Some(entry) => if entry.listed then Open(kinds) else Closed(kinds)
  {
    if log != [] {
      var older, e := log[..|log| - 1], log[|log| - 1];
      Lifecycle(older, id);
      var kinds := KindsOf(older, id);
      if e.tfId == id {
        var now := kinds + [e.kind];
        assert now[..|kinds|] == kinds;
        if e.kind == Restored {
          assert now[|now| - 2..] == [EventType.Removed, Restored];
          assert now[..|now| - 2] == kinds[..|kinds| - 1];
        }
      } else {
        assert kinds + [] == kinds;
      }
    }
  }

  lemma OpenNeverEndsRemoved(kinds: seq<EventType>)
    requires Open(kinds)
    ensures kinds != [] && kinds[|kinds| - 1] != EventType.Removed
  {
    var n := |kinds|;
    if n > 2 && kinds[n - 2..] == [EventType.Removed, Restored] {
      assert kinds[n - 1] == kinds[n - 2..][1];
    }
  }

  // ----- conservation -----

  function ListedIn(view: View): set<Uuid> {
    set id | id in view && view[id].listed
  }

  lemma ListedAfter(before: View, e: Event)
    requires Consistent(before, e)
    ensures var after := Apply(before, e);
      && after.Keys == (if e.kind == Created then before.Keys + {e.tfId} else before.Keys)
      && ListedIn(after) ==
           match e.kind
           case Updated => ListedIn(before)
           case Removed => ListedIn(before) - {e.tfId}
           case _ => ListedIn(before) + {e.tfId}
  {
  }

  /** Flaggers are conserved: each known one was created once, each listed one was
      created or restored and not removed since. */
  lemma {:induction false} Conservation(log: seq<Event>)
    requires WellFormed(log)
    ensures |Replay(log)| == Count(log, Created)
    ensures |ListedIn(Replay(log))| + Count(log, EventType.Removed) == Count(log, Created) + Count(log, Restored)
  {
    if log == [] {
      assert ListedIn(Replay(log)) == {};
    } else {
      var older, e := log[..|log| - 1], log[|log| - 1];
      Conservation(older);
      ListedAfter(Replay(older), e);
      assert |Replay(log)| == |Replay(log).Keys| && |Replay(older)| == |Replay(older).Keys|;
    }
  }

  /** Every event is about an id the log knows. */
  lemma {:induction false} EventsHaveRows(log: seq<Event>)
    requires WellFormed(log)
    ensures forall e :: e in log ==> e.tfId in Replay(log)
  {
    if log != [] {
      EventsHaveRows(log[..|log| - 1]);
      assert log == log[..|log| - 1] + [log[|log| - 1]];
    }
  }
}
