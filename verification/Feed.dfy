/** The change feed and the per-flagger history the API serves. */
module Feed {
  import opened Sequences
  import opened Flagger
  import opened Reconcile
  import opened EventLog
  import opened Histories

  /** One entry of the feed: an event with two columns of its joined row. */
  datatype Item = Item(event: Event, tfName: string, tfCountryCode: string)

  ghost predicate InTable(rows: seq<Uuid>, t: Table) {
    forall id :: id in rows ==> id in t
  }

  /** The rows an event joins with: those whose id it names. */
  function JoinOne(e: Event, rows: seq<Uuid>, t: Table): seq<Item>
    requires InTable(rows, t)
  {
    if rows == [] then []
    else
      var id := rows[|rows| - 1];
      JoinOne(e, rows[..|rows| - 1], t)
      + if id == e.tfId then [Item(e, t[id].synced.name, t[id].synced.countryCode)] else []
  }

  /** The inner join of the log with the table, cut off at `since`. */
  function Joined(log: seq<Event>, rows: seq<Uuid>, t: Table, since: Time): seq<Item>
    requires InTable(rows, t)
  {
    if log == [] then []
    else
      var e := log[|log| - 1];
      Joined(log[..|log| - 1], rows, t, since) + if e.occurredAt >= since then JoinOne(e, rows, t) else []
  }

  function Since(since: Time): Event -> bool {
    (e: Event) => e.occurredAt >= since
  }

  function LogSince(log: seq<Event>, since: Time): seq<Event> {
    Filter(log, Since(since))
  }

  lemma {:induction false} JoinsOnce(e: Event, rows: seq<Uuid>, t: Table)
    requires InTable(rows, t) && Distinct(rows)
    ensures JoinOne(e, rows, t)
         == if e.tfId in rows then [Item(e, t[e.tfId].synced.name, t[e.tfId].synced.countryCode)] else []
  {
    if rows != [] {
      assert rows == rows[..|rows| - 1] + [rows[|rows| - 1]];
      JoinsOnce(e, rows[..|rows| - 1], t);
    }
  }

  /** The feed's items are the log's events in order, each with its own row. */
  ghost predicate Lists(items: seq<Item>, events: seq<Event>, t: Table) {
    && |items| == |events|
    && forall i :: 0 <= i < |items| ==>
         && items[i].event == events[i]
         && events[i].tfId in t
         && items[i].tfName == t[events[i].tfId].synced.name
         && items[i].tfCountryCode == t[events[i].tfId].synced.countryCode
  }

  lemma {:induction false} JoinListsEvents(log: seq<Event>, rows: seq<Uuid>, t: Table, since: Time)
    requires InTable(rows, t) && Enumerates(rows, t.Keys)
    requires forall e :: e in log ==> e.tfId in t
    ensures Lists(Joined(log, rows, t, since), LogSince(log, since), t)
  {
    if log != [] {
      var e := log[|log| - 1];
      assert log == log[..|log| - 1] + [e];
      JoinListsEvents(log[..|log| - 1], rows, t, since);
      JoinsOnce(e, rows, t);
      assert e.tfId in Elements(rows);
    }
  }

  /** The cutoff keeps exactly the events from then on. */
  lemma SinceIsComplete(log: seq<Event>, since: Time, e: Event)
    ensures e in LogSince(log, since) <==> e in log && since <= e.occurredAt
  {
    FilterElements(log, Since(since), e);
  }

  /** There is no foreign key, yet the join neither drops nor repeats an event: the feed lists
      every event since the cutoff once, so its total is their number. */
  lemma FeedIsComplete(h: History, rows: seq<Uuid>, since: Time)
    requires Valid(h) && Enumerates(rows, After(h).table.Keys)
    ensures InTable(rows, After(h).table)
    ensures Lists(Joined(After(h).log, rows, After(h).table, since), LogSince(After(h).log, since), After(h).table)
  {
    var t := After(h).table;
    forall id | id in rows ensures id in t { assert id in Elements(rows); }
    LogMatchesTable(h);
    EventsHaveRows(After(h).log);
    JoinListsEvents(After(h).log, rows, t, since);
  }

  // ----- the history of one flagger, page by page -----

  function OfId(id: Uuid): Event -> bool {
    (e: Event) => e.tfId == id
  }

  function EventsOfId(log: seq<Event>, id: Uuid): seq<Event> {
    Filter(log, OfId(id))
  }

  /** A flagger's history is made of exactly the logged events that name it, each as often as logged. */
  lemma HistoryIsComplete(log: seq<Event>, id: Uuid, e: Event)
    ensures e in EventsOfId(log, id) <==> e in log && e.tfId == id
    ensures multiset(EventsOfId(log, id))[e] == if e.tfId == id then multiset(log)[e] else 0
  {
    FilterElements(log, OfId(id), e);
  }

  /** A result set ordered by time, newest first; equal times may come in any order. */
  ghost predicate NewestFirst(answer: seq<Event>) {
    forall i, j :: 0 <= i < j < |answer| ==> answer[i].occurredAt >= answer[j].occurredAt
  }

  ghost predicate Ascending(events: seq<Event>) {
    forall i, j :: 0 <= i < j < |events| ==> events[i].occurredAt < events[j].occurredAt
  }

  ghost predicate StrictlyChronological(h: History) {
    h.Then? ==>
      && StrictlyChronological(h.past)
      && (h.past.Then? ==> h.past.scrape.occurredAt < h.scrape.occurredAt)
  }

  lemma {:induction false} EventsUpToNewest(h: History)
    requires StrictlyChronological(h)
    ensures forall e :: e in After(h).log ==> h.Then? && e.occurredAt <= h.scrape.occurredAt
  {
    if h.Then? {
      var s := h.scrape;
      EventsUpToNewest(h.past);
      ScrapeNamesItsRun(After(h.past).table, s);
    }
  }

  lemma {:induction false} AtMostOneOfId(events: seq<Event>, id: Uuid)
    requires DistinctTargets(events)
    ensures |EventsOfId(events, id)| <= 1
  {
    if events != [] {
      var older, last := events[..|events| - 1], events[|events| - 1];
      AtMostOneOfId(older, id);
      if last.tfId == id {
        forall e | e in older ensures e.tfId != id {
          var i :| 0 <= i < |older| && older[i] == e;
          assert events[i].tfId != events[|events| - 1].tfId;
        }
        FilterUniform(older, OfId(id), false);
      }
    }
  }

  lemma {:induction false} HistoryAscends(h: History, id: Uuid)
    requires Valid(h) && StrictlyChronological(h)
    ensures Ascending(EventsOfId(After(h).log, id))
  {
    if h.Then? {
      var s, t := h.scrape, After(h.past).table;
      var order := VisitOrder(s.records, s.selected);
      var older, newer := EventsOfId(After(h.past).log, id), EventsOfId(NewEvents(t, s), id);
      HistoryAscends(h.past, id);
      EventsUpToNewest(h.past);
      VisitOrderEnumerates(t, s);
      EventsHaveDistinctIds(order, t, ById(s.records), s.runId, s.occurredAt);
      ScrapeNamesItsRun(t, s);
      AtMostOneOfId(NewEvents(t, s), id);
      forall e { FilterElements(NewEvents(t, s), OfId(id), e); }
      forall e { FilterElements(After(h.past).log, OfId(id), e); }
      FilterConcat(After(h.past).log, NewEvents(t, s), OfId(id));
      StillAscending(older, newer, s.occurredAt);
    }
  }

  lemma StillAscending(older: seq<Event>, newer: seq<Event>, now: Time)
    requires Ascending(older) && |newer| <= 1
    requires forall e :: e in older ==> e.occurredAt < now
    requires forall e :: e in newer ==> e.occurredAt == now
    ensures Ascending(older + newer)
  {
    forall i | 0 <= i < |older| ensures older[i].occurredAt < now { assert older[i] in older; }
    forall i | 0 <= i < |newer| ensures newer[i].occurredAt == now { assert newer[i] in newer; }
  }

  lemma SameMembers(p: seq<Event>, q: seq<Event>, e: Event)
    requires multiset(p) == multiset(q) && e in p
    ensures e in q
  {
    assert e in multiset(p);
  }

  lemma NewestComesFirst(answer: seq<Event>, older: seq<Event>, last: Event)
    requires multiset(answer) == multiset(older + [last]) && NewestFirst(answer) && Ascending(older + [last])
    ensures answer != [] && answer[0] == last
  {
    var events := older + [last];
    assert events[|older|] == last;
    SameMembers(events, answer, last);
    SameMembers(answer, events, answer[0]);
    var k :| 0 <= k < |answer| && answer[k] == last;
    var m :| 0 <= m < |events| && events[m] == answer[0];
    assert answer[0].occurredAt >= answer[k].occurredAt;
  }

  lemma WithoutTheNewest(rest: seq<Event>, older: seq<Event>, last: Event)
    requires multiset([last] + rest) == multiset(older + [last])
    ensures multiset(rest) == multiset(older)
  {
    assert multiset([last] + rest) == multiset{last} + multiset(rest);
    assert multiset(older + [last]) == multiset(older) + multiset{last};
    assert multiset(rest) == multiset{last} + multiset(rest) - multiset{last};
  }

  /** With distinct times there is only one newest-first answer: the reversed history. */
  lemma {:induction false} NewestFirstIsUnique(answer: seq<Event>, events: seq<Event>)
    requires multiset(answer) == multiset(events) && NewestFirst(answer) && Ascending(events)
    ensures answer == Reverse(events)
    decreases |events|
  {
    if events == [] {
    } else {
      var older, last := events[..|events| - 1], events[|events| - 1];
      assert events == older + [last];
      NewestComesFirst(answer, older, last);
      var rest := answer[1..];
      assert answer == [last] + rest;
      WithoutTheNewest(rest, older, last);
      assert NewestFirst(rest) && Ascending(older);
      NewestFirstIsUnique(rest, older);
    }
  }

  function Min(a: nat, b: nat): nat {
    if a <= b then a else b
  }

  function FirstOf(answer: seq<Event>, n: nat): seq<Event> {
    answer[..Min(n, |answer|)]
  }

  function Offset(limit: nat, pages: nat): nat {
    if pages == 0 then 0 else Offset(limit, pages - 1) + limit
  }

  /** `limit` and `offset` applied to an answer. */
  function Page(answer: seq<Event>, limit: nat, offset: nat): seq<Event> {
    answer[Min(offset, |answer|)..Min(offset + limit, |answer|)]
  }

  /** The first `n` pages, each taken from the answer to its own query. */
  function FirstPages(answers: seq<seq<Event>>, limit: nat, n: nat): seq<Event>
    requires n <= |answers|
  {
    if n == 0 then [] else FirstPages(answers, limit, n - 1) + Page(answers[n - 1], limit, Offset(limit, n - 1))
  }

  lemma {:induction false} PagesOfOneAnswer(answers: seq<seq<Event>>, whole: seq<Event>, limit: nat, n: nat)
    requires n <= |answers| && forall i :: 0 <= i < |answers| ==> answers[i] == whole
    ensures FirstPages(answers, limit, n) == FirstOf(whole, Offset(limit, n))
  {
    if n > 0 {
      PagesOfOneAnswer(answers, whole, limit, n - 1);
      var a, b := Min(Offset(limit, n - 1), |whole|), Min(Offset(limit, n), |whole|);
      assert whole[..a] + whole[a..b] == whole[..b];
    }
  }

  /** Each answer is some newest-first ordering of one flagger's events. */
  ghost predicate AnswersFor(answers: seq<seq<Event>>, events: seq<Event>) {
    forall i :: 0 <= i < |answers| ==> multiset(answers[i]) == multiset(events) && NewestFirst(answers[i])
  }

  /** However the database breaks ties in each query, the pages of one flagger's history put
      together are its events, newest first, without gap or repetition. */
  lemma HistoryPagesConcatenate(h: History, id: Uuid, answers: seq<seq<Event>>, limit: nat, n: nat)
    requires Valid(h) && StrictlyChronological(h) && n <= |answers|
    requires AnswersFor(answers, EventsOfId(After(h).log, id))
    ensures FirstPages(answers, limit, n) == FirstOf(Reverse(EventsOfId(After(h).log, id)), Offset(limit, n))
  {
    var events := EventsOfId(After(h).log, id);
    HistoryAscends(h, id);
    forall i | 0 <= i < |answers| ensures answers[i] == Reverse(events) {
      NewestFirstIsUnique(answers[i], events);
    }
    PagesOfOneAnswer(answers, Reverse(events), limit, n);
  }
}
