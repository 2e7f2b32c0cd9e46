/** One call of the scraper, written as the sequence of effects it has on its stores. */
module Scraper {
  import opened Wrappers
  import opened Flagger
  import opened Normalize
  import opened Reconcile
  import opened Session
  import opened Histories
  import opened Export
  import opened Ingest
  import opened Guarantees

  /** Both fetches and the envelope check: the raw rows, or the exception raised. */
  datatype Response = Fetched(rows: seq<RawRow>) | FetchRaised(text: string)

  datatype WriteOutcome = NoExportDir | Written | WriteFailed(left: Option<Files>)

  /** A commit may take effect and raise all the same, as when the connection drops before the
      acknowledgement. */
  datatype CommitOutcome = Commits | RollsBack(text: string) | LosesAck(text: string)

  /** Everything the outside world decides during one run. */
  datatype World = World(
    runId: Uuid,
    startedAt: Time,
    response: Response,
    selected: seq<Uuid>,
    occurredAt: Time,
    commit: CommitOutcome,
    failedAt: Time,
    completedAt: Time,
    redisUp: bool,
    write: WriteOutcome,
    remoteConfigured: bool,
    git: GitOutcome
  )

  datatype IngestResult =
    | Ingested(status: RunStatus, rowsSeen: nat, created: nat, updated: nat, removed: nat, restored: nat,
        errors: seq<RowError>)
    | Failure(text: string)

  function ScrapeOf(lib: Libraries, w: World, rows: seq<RawRow>): Scrape {
    Scrape(w.runId, w.startedAt, w.occurredAt, Records(lib, rows), w.selected)
  }

  predicate Raises(w: World) {
    w.response.FetchRaised? || !w.commit.Commits?
  }

  function ErrorOf(w: World): string
    requires Raises(w)
  {
    if w.response.FetchRaised? then w.response.text else w.commit.text
  }

  /** The result of a committed run counts its events by kind and lists its rejected rows. */
  ghost predicate Tells(result: IngestResult, lib: Libraries, rows: seq<RawRow>, events: seq<Event>) {
    && result.Ingested?
    && result.status == (if Errors(lib, rows) == [] then Success else Partial)
    && result.rowsSeen == |rows| && result.errors == Errors(lib, rows)
    && result.created == Count(events, Created) && result.updated == Count(events, Updated)
    && result.removed == Count(events, EventType.Removed) && result.restored == Count(events, Restored)
  }

  /** A checkout: the exported files, the local head and the remote. */
  datatype Checkout = Checkout(tree: Option<Files>, head: Option<Files>, remote: Option<Files>)

  /** What a run that came through makes of the checkout: the files are those of the database unless
      they were not written; they are committed and pushed exactly when the run changed something and a
      remote is configured, as far as git goes along. */
  ghost predicate Publishes(w: World, changed: bool, db: Db, before: Checkout, after: Checkout) {
    && after.tree == (match w.write
                      case NoExportDir => before.tree
                      case WriteFailed(left) => left
                      case Written => Some(ExportAll(db)))
    && if w.write.Written? && w.remoteConfigured && changed
       then
         && after.head == (if w.git == CommitFails then before.head else after.tree)
         && after.remote == (if w.git == Pushes then after.tree else before.remote)
       else after.head == before.head && after.remote == before.remote
  }

  /** What a run makes of its row. */
  ghost predicate Reports(lib: Libraries, w: World, run: RunRow) {
    && run.startedAt == w.startedAt
    && (run.rowsSeen.Some? <==> w.response.Fetched? && !w.commit.RollsBack?)
    && if Raises(w)
       then run.status == Failed && run.completedAt == Some(w.failedAt) && run.errorMessage == Some(Raised(ErrorOf(w)))
       else
         && run.status != Failed && run.completedAt == Some(w.completedAt) && run.rowsSeen == Some(|w.response.rows|)
         && TellsErrors(run, |Records(lib, w.response.rows)|, Errors(lib, w.response.rows))
  }

  /** What the commit, if it takes effect, has written onto the run's row. */
  ghost predicate SavedRow(lib: Libraries, w: World, rows: seq<RawRow>, run: RunRow) {
    && run.startedAt == w.startedAt && run.status != Failed && run.completedAt == Some(w.completedAt)
    && run.rowsSeen == Some(|rows|) && TellsErrors(run, |Records(lib, rows)|, Errors(lib, rows))
  }

  /** Table and log after a run: those of the reconciled response if the commit took effect. */
  ghost predicate Reconciles(lib: Libraries, w: World, before: Db, after: Db) {
    if w.response.Fetched? && !w.commit.RollsBack?
    then
      var scrape := ScrapeOf(lib, w, w.response.rows);
      && after.table == TableAfter(before.table, ById(scrape.records), scrape.scrapedAt)
      && after.log == before.log + NewEvents(before.table, scrape)
    else after == before
  }

  ghost predicate OthersKept(before: map<Uuid, RunRow>, after: map<Uuid, RunRow>, r: Uuid) {
    forall q :: q != r ==> (q in after <==> q in before) && (q in before ==> after[q] == before[q])
  }

  /** Whether the response changes a table. */
  ghost predicate Changes(lib: Libraries, w: World, t: Table) {
    w.response.Fetched? && NewEvents(t, ScrapeOf(lib, w, w.response.rows)) != []
  }

  /** The steps of the state machine a run takes in a given world. */
  ghost function Plan(lib: Libraries, s: System, w: World): seq<Step> {
    Transaction(w) +
    if Raises(w) then [Raise(ErrorOf(w), w.failedAt)]
    else AfterCommit(w, NewEvents(s.db.table, ScrapeOf(lib, w, w.response.rows)) != [])
  }

  /** Up to and including the commit, if it takes effect. */
  ghost function Transaction(w: World): seq<Step> {
    Begun(w) + if w.response.FetchRaised? || w.commit.RollsBack? then [] else [CommitStep(w, w.response.rows)]
  }

  ghost function Begun(w: World): seq<Step> {
    [Step.Begin(w.runId, w.startedAt)]
  }

  ghost function CommitStep(w: World, rows: seq<RawRow>): Step {
    Commit(rows, w.selected, w.occurredAt, w.completedAt, w.commit.Commits?)
  }

  ghost function AfterCommit(w: World, changed: bool): seq<Step> {
    (if w.redisUp then [Stamp] else []) + Aftermath(w, changed)
  }

  ghost function Aftermath(w: World, changed: bool): seq<Step> {
    match w.write
    case NoExportDir => [End]
    case WriteFailed(left) => [WriteFilesFails(left)]
    case Written => [WriteFiles] + if changed && w.remoteConfigured then [Publish(w.git)] else [End]
  }

  lemma {:induction false} ExecOneMore(lib: Libraries, s: System, steps: seq<Step>, step: Step)
    requires Exec(lib, s, steps).Some? && Next(lib, Exec(lib, s, steps).value, step).Some?
    ensures Exec(lib, s, steps + [step]) == Next(lib, Exec(lib, s, steps).value, step)
    decreases |steps|
  {
    if steps == [] {
      assert (steps + [step])[1..] == [];
    } else {
      assert (steps + [step])[1..] == steps[1..] + [step];
      ExecOneMore(lib, Next(lib, s, steps[0]).value, steps[1..], step);
    }
  }

  /** After a run that changed something there is something to commit. */
  lemma FilesAreFresh(lib: Libraries, start: System, written: seq<Step>, s: System)
    requires Inv(start) && Exec(lib, start, written) == Some(s) && s.stage == Exported(true)
    ensures s.tree != s.head
  {
    ExecKeepsInv(lib, start, written);
    PublishIsNeverEmpty(s);
  }

  class Scraper {
    var table: Table
    var log: seq<Event>
    var runs: map<Uuid, RunRow>
    var stamp: Option<Time>
    var tree: Option<Files>
    var head: Option<Files>
    var remote: Option<Files>
    ghost var history: History
    ghost var local: Option<History>
    ghost var pushed: Option<History>

    constructor ()
      ensures State() == INITIAL
    {
      table, log, runs, stamp, tree, head, remote := map[], [], map[], None, None, None, None;
      history, local, pushed := Genesis, None, None;
    }

    ghost function At(stage: Stage): System
      reads this
    {
      System(Db(table, log), runs, stamp, tree, head, remote, stage, history, local, pushed)
    }

    ghost function State(): System
      reads this
    {
      At(Idle)
    }

    ghost function Files(): Checkout
      reads this
    {
      Checkout(tree, head, remote)
    }

    /** The failure handler: only the run row changes. */
    method FailRun(runId: Uuid, text: string, at: Time)
      requires runId in runs
      modifies `runs
      ensures runs == old(runs)[runId := Failing(old(runs)[runId], text, at)]
    {
      var run := runs[runId];
      runs := runs[runId := run.(completedAt := Some(at), status := Failed, errorMessage := Some(Raised(text)))];
    }

    /** Reconciles in a session of its own; the commit makes table, log and run row visible
        together, whether or not it also raises, or leaves everything as it was. */
    method ApplyAndCommit(lib: Libraries, w: World, rows: seq<RawRow>) returns (result: IngestResult)
      requires w.runId in runs && Enumerates(w.selected, table.Keys)
      modifies `table, `log, `runs, `history
      ensures At(Idle) ==
        if w.commit.RollsBack? then old(At(Idle))
        else Saved(lib, old(At(Scraping(w.runId, w.startedAt))), CommitStep(w, rows)).(stage := Idle)
      ensures if w.commit.Commits? then Tells(result, lib, rows, NewEvents(old(table), ScrapeOf(lib, w, rows)))
              else result == Failure(w.commit.text)
    {
      var normalized, errors := NormalizeRows(lib, rows);
      var s := Scrape(w.runId, w.startedAt, w.occurredAt, normalized, w.selected);
      var session := new Session(table, log);
      var created, updated, removed, restored := session.ApplyDiff(s);
      var run := Report(runs[w.runId], |rows|, errors, created, updated, removed, w.completedAt);
      if w.commit.RollsBack? {
        return Failure(w.commit.text);
      }
      table, log, runs := session.table, session.log, runs[w.runId := run];
      history := Then(history, s);
      if w.commit.LosesAck? {
        return Failure(w.commit.text);
      }
      return Ingested(run.status, |rows|, created, updated, removed, restored, errors);
    }

    /** Commit and push what differs from the local head. */
    method PublishChanges(git: GitOutcome)
      modifies `head, `remote, `local, `pushed
      ensures At(Idle) == Published(old(At(Exported(true))), git)
      ensures head == if git == CommitFails then old(head) else tree
      ensures remote == if git == Pushes && tree != old(head) then tree else old(remote)
    {
      if tree == head {
        return;
      }
      if git == CommitFails {
        return;
      }
      head := tree;
      local := Some(history);
      if git == PushFails {
        return;
      }
      remote := head;
      pushed := Some(history);
    }

    method ExportAndPublish(lib: Libraries, w: World, changed: bool, ghost start: System, ghost steps: seq<Step>,
        ghost at: Time)
      requires Exec(lib, start, steps) == Some(At(Committed(at, changed)))
      modifies `tree, `head, `remote, `local, `pushed
      ensures Exec(lib, start, steps + Aftermath(w, changed)) == Some(State())
      ensures Inv(start) ==> Publishes(w, changed, Db(table, log), old(Files()), Files())
    {
      match w.write {
        case NoExportDir =>
          ExecOneMore(lib, start, steps, End);
        case WriteFailed(left) =>
          ExecOneMore(lib, start, steps, WriteFilesFails(left));
          tree := left;
        case Written =>
          ExecOneMore(lib, start, steps, WriteFiles);
          var files := WriteAll(table, log);
          tree := Some(files);
          PublishIfChanged(lib, w, changed, start, steps + [WriteFiles]);
          assert steps + Aftermath(w, changed)
              == (steps + [WriteFiles]) + if changed && w.remoteConfigured then [Publish(w.git)] else [End];
      }
    }

    /** A run that changed nothing leaves the checkout to the next one. */
    method PublishIfChanged(lib: Libraries, w: World, changed: bool, ghost start: System, ghost written: seq<Step>)
      requires Exec(lib, start, written) == Some(At(Exported(changed)))
      modifies `head, `remote, `local, `pushed
      ensures var last := if changed && w.remoteConfigured then [Publish(w.git)] else [End];
        Exec(lib, start, written + last) == Some(State())
      ensures if changed && w.remoteConfigured
        then Inv(start) ==>
          && head == (if w.git == CommitFails then old(head) else tree)
          && remote == (if w.git == Pushes then tree else old(remote))
        else head == old(head) && remote == old(remote)
    {
      if changed && w.remoteConfigured {
        ExecOneMore(lib, start, written, Publish(w.git));
        if Inv(start) {
          FilesAreFresh(lib, start, written, At(Exported(true)));
        }
        PublishChanges(w.git);
      } else {
        ExecOneMore(lib, start, written, End);
      }
    }

    /** After the commit nothing can fail the run any more: the stamp and the export are best effort. */
    method Finish(lib: Libraries, w: World, changed: bool, ghost start: System, ghost steps: seq<Step>)
      requires Exec(lib, start, steps) == Some(At(Committed(w.completedAt, changed)))
      modifies `stamp, `tree, `head, `remote, `local, `pushed
      ensures Exec(lib, start, steps + AfterCommit(w, changed)) == Some(State())
      ensures Inv(start) ==> Publishes(w, changed, Db(table, log), old(Files()), Files())
      ensures stamp == if w.redisUp then Some(w.completedAt) else old(stamp)
    {
      ghost var done := steps;
      if w.redisUp {
        ExecOneMore(lib, start, steps, Stamp);
        stamp := Some(w.completedAt);
        done := steps + [Stamp];
      }
      ExportAndPublish(lib, w, changed, start, done, w.completedAt);
      assert done + Aftermath(w, changed) == steps + AfterCommit(w, changed);
    }

    method Begin(lib: Libraries, w: World, ghost start: System)
      requires w.runId !in runs && start == State()
      modifies `runs
      ensures Exec(lib, start, Begun(w)) == Some(At(Scraping(w.runId, w.startedAt)))
      ensures runs == old(runs)[w.runId := NewRun(w.startedAt)]
    {
      ExecOneMore(lib, start, [], Step.Begin(w.runId, w.startedAt));
      assert [] + [Step.Begin(w.runId, w.startedAt)] == Begun(w);
      runs := runs[w.runId := NewRun(w.startedAt)];
    }

    /** An exception inside the run, before the commit or out of it. */
    method Fail(lib: Libraries, w: World, ghost stage: Stage, text: string, ghost start: System, ghost done: seq<Step>)
      requires w.runId in runs && Exec(lib, start, done) == Some(At(stage))
      requires (stage.Scraping? || stage.Unacknowledged?) && stage.runId == w.runId
      modifies `runs
      ensures Exec(lib, start, done + [Raise(text, w.failedAt)]) == Some(State())
      ensures runs == old(runs)[w.runId := Failing(old(runs)[w.runId], text, w.failedAt)]
    {
      ExecOneMore(lib, start, done, Raise(text, w.failedAt));
      FailRun(w.runId, text, w.failedAt);
    }

    /** The stage after the transaction and, if the commit returned, the result. */
    method Save(lib: Libraries, w: World, rows: seq<RawRow>, ghost start: System)
      returns (result: IngestResult, changed: bool, ghost stage: Stage)
      requires w.response == Fetched(rows)
      requires Exec(lib, start, Begun(w)) == Some(At(Scraping(w.runId, w.startedAt)))
      requires w.runId in runs && runs[w.runId] == NewRun(w.startedAt) && Enumerates(w.selected, table.Keys)
      modifies `table, `log, `runs, `history
      ensures w.runId in runs && Exec(lib, start, Transaction(w)) == Some(At(stage))
      ensures Reconciles(lib, w, old(Db(table, log)), Db(table, log)) && OthersKept(old(runs), runs, w.runId)
      ensures if w.commit.RollsBack? then runs == old(runs) else SavedRow(lib, w, rows, runs[w.runId])
      ensures var events := NewEvents(old(table), ScrapeOf(lib, w, rows));
        match w.commit
        case Commits =>
          Tells(result, lib, rows, events) && changed == (events != []) && stage == Committed(w.completedAt, changed)
        case LosesAck(text) => result == Failure(text) && stage == Unacknowledged(w.runId, events != [])
        case RollsBack(text) => result == Failure(text) && stage == Scraping(w.runId, w.startedAt)
    {
      ghost var events := NewEvents(table, ScrapeOf(lib, w, rows));
      ghost var before := At(Scraping(w.runId, w.startedAt));
      ghost var saved := Saved(lib, before, CommitStep(w, rows));
      ExecOneMore(lib, start, Begun(w), CommitStep(w, rows));
      CommitTellsErrors(lib, before, CommitStep(w, rows));
      result := ApplyAndCommit(lib, w, rows);
      CountAll(events);
      changed := result.Ingested? && result.created + result.updated + result.removed + result.restored > 0;
      stage := if w.commit.RollsBack? then Scraping(w.runId, w.startedAt) else saved.stage;
    }

    /** The part of a run behind the fetches. */
    method IngestRows(lib: Libraries, w: World, rows: seq<RawRow>, ghost start: System) returns (result: IngestResult)
      requires w.response == Fetched(rows)
      requires Exec(lib, start, Begun(w)) == Some(At(Scraping(w.runId, w.startedAt)))
      requires w.runId in runs && runs[w.runId] == NewRun(w.startedAt) && Enumerates(w.selected, table.Keys)
      modifies this
      ensures var changed := NewEvents(old(table), ScrapeOf(lib, w, rows)) != [];
        var last := if Raises(w) then [Raise(ErrorOf(w), w.failedAt)] else AfterCommit(w, changed);
        && Exec(lib, start, Transaction(w) + last) == Some(State())
        && if Raises(w) then Files() == old(Files())
           else Inv(start) ==> Publishes(w, changed, Db(table, log), old(Files()), Files())
      ensures if Raises(w) then result == Failure(ErrorOf(w))
              else Tells(result, lib, rows, NewEvents(old(table), ScrapeOf(lib, w, rows)))
      ensures Reconciles(lib, w, old(Db(table, log)), Db(table, log))
      ensures w.runId in runs && Reports(lib, w, runs[w.runId]) && OthersKept(old(runs), runs, w.runId)
      ensures stamp == if !Raises(w) && w.redisUp then Some(w.completedAt) else old(stamp)
    {
      var changed;
      ghost var stage;
      result, changed, stage := Save(lib, w, rows, start);
      if result.Failure? {
        Fail(lib, w, stage, result.text, start, Transaction(w));
        return;
      }
      Finish(lib, w, changed, start, Transaction(w));
    }

    /** A whole run follows its plan through the state machine. */
    method RunIngest(lib: Libraries, w: World) returns (result: IngestResult)
      requires w.runId !in runs && Enumerates(w.selected, table.Keys)
      modifies this
      ensures Exec(lib, old(State()), Plan(lib, old(State()), w)) == Some(State())
      ensures if Raises(w) then result == Failure(ErrorOf(w))
              else Tells(result, lib, w.response.rows, NewEvents(old(table), ScrapeOf(lib, w, w.response.rows)))
      ensures Reconciles(lib, w, old(Db(table, log)), Db(table, log))
      ensures w.runId in runs && Reports(lib, w, runs[w.runId]) && OthersKept(old(runs), runs, w.runId)
      ensures stamp == if !Raises(w) && w.redisUp then Some(w.completedAt) else old(stamp)
      ensures if Raises(w) then Files() == old(Files())
              else Inv(old(State())) ==>
                Publishes(w, Changes(lib, w, old(table)), Db(table, log), old(Files()), Files())
    {
      ghost var start := State();
      Begin(lib, w, start);
      if w.response.FetchRaised? {
        Fail(lib, w, Scraping(w.runId, w.startedAt), w.response.text, start, Transaction(w));
        return Failure(w.response.text);
      }
      result := IngestRows(lib, w, w.response.rows, start);
    }
  }
}
