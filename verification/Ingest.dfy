/** One scrape run as a state machine, with failures and crashes between any two steps:
    what the database, the freshness stamp and the published copy can look like. */
module Ingest {
  import opened Wrappers
  import opened Flagger
  import opened Normalize
  import opened Reconcile
  import opened Histories
  import opened Export

  datatype RunStatus = Running | Success | Failed | Partial

  datatype Message = RowErrors(errors: seq<RowError>) | Raised(text: string)

  datatype RunRow = RunRow(
    startedAt: Time,
    completedAt: Option<Time>,
    status: RunStatus,
    rowsSeen: Option<nat>,
    rowsCreated: Option<nat>,
    rowsUpdated: Option<nat>,
    rowsRemoved: Option<nat>,
    errorMessage: Option<Message>
  )

  /** Where the current run stands. A run whose process died is simply `Idle` again; one whose
      commit took effect although it raised is `Unacknowledged`. */
  datatype Stage =
    | Idle
    | Scraping(runId: Uuid, startedAt: Time)
    | Unacknowledged(runId: Uuid, changed: bool)
    | Committed(completedAt: Time, changed: bool)
    | Exported(changed: bool)

  /** The database, the stamp in Redis, the export directory with its git head, and the
      remote. The last three fields are history variables: all committed scrapes, and
      which of them the local head and the remote were exported from. */
  datatype System = System(
    db: Db,
    runs: map<Uuid, RunRow>,
    stamp: Option<Time>,
    tree: Option<Files>,
    head: Option<Files>,
    remote: Option<Files>,
    stage: Stage,
    history: History,
    local: Option<History>,
    pushed: Option<History>
  )

  datatype GitOutcome = CommitFails | PushFails | Pushes

  datatype Step =
    | Begin(runId: Uuid, startedAt: Time)
    | Raise(text: string, at: Time)
    | Commit(rows: seq<RawRow>, selected: seq<Uuid>, occurredAt: Time, completedAt: Time, acknowledged: bool)
    | Stamp
    | WriteFiles
    | WriteFilesFails(left: Option<Files>)
    | Publish(git: GitOutcome)
    | End
    | Clone

  const INITIAL: System := System(Db(map[], []), map[], None, None, None, None, Idle, Genesis, None, None)

  function NewRun(startedAt: Time): RunRow {
    RunRow(startedAt, None, Running, None, None, None, None, None)
  }

  predicate IsCommitted(run: RunRow) {
    run.status == Success || run.status == Partial
  }

  /** Only the commit writes the counters, and the failure handler leaves them alone. */
  predicate TookEffect(run: RunRow) {
    run.rowsSeen.Some?
  }

  /** The run row as the failure handler writes it, whatever the row says already. */
  function Failing(run: RunRow, text: string, at: Time): RunRow {
    run.(completedAt := Some(at), status := Failed, errorMessage := Some(Raised(text)))
  }

  function FirstFive(errors: seq<RowError>): Option<Message> {
    if errors == [] then None else Some(RowErrors(if |errors| <= 5 then errors else errors[..5]))
  }

  /** The run row as the commit writes it. */
  function Report(run: RunRow, rowsSeen: nat, errors: seq<RowError>, created: nat, updated: nat, removed: nat, at: Time)
    : RunRow
  {
    run.(completedAt := Some(at), status := if errors == [] then Success else Partial, rowsSeen := Some(rowsSeen),
         rowsCreated := Some(created), rowsUpdated := Some(updated), rowsRemoved := Some(removed),
         errorMessage := FirstFive(errors))
  }

  /** The stages in which an exception reaches the failure handler with the run row found. */
  predicate CanRaise(s: System) {
    (s.stage.Scraping? || s.stage.Unacknowledged?) && s.stage.runId in s.runs
  }

  /** One step, if it can be taken. */
  ghost function Next(lib: Libraries, s: System, step: Step): Option<System> {
    match step
    case Begin(runId, startedAt) =>
      if s.stage.Idle? && runId !in s.runs
      then Some(s.(runs := s.runs[runId := NewRun(startedAt)], stage := Scraping(runId, startedAt)))
      else None
    case Raise(text, at) => if CanRaise(s) then Some(Handled(s, text, at)) else None
    case Commit(rows, selected, occurredAt, completedAt, acknowledged) =>
      if CanCommit(s) && Enumerates(selected, s.db.table.Keys) then Some(Saved(lib, s, step)) else None
    case Stamp => if s.stage.Committed? then Some(s.(stamp := Some(s.stage.completedAt))) else None
    case WriteFiles =>
      if s.stage.Committed?
      then Some(s.(tree := Some(ExportAll(s.db)), stage := Exported(s.stage.changed)))
      else None
    case WriteFilesFails(left) => if s.stage.Committed? then Some(s.(tree := left, stage := Idle)) else None
    case Publish(git) => if s.stage.Exported? && s.stage.changed then Some(Published(s, git)) else None
    case End => if s.stage.Idle? then None else Some(s.(stage := Idle))
    case Clone =>
      if s.stage.Idle? then Some(s.(tree := s.remote, head := s.remote, local := s.pushed)) else None
  }

  predicate CanCommit(s: System) {
    s.stage.Scraping? && s.stage.runId in s.runs
  }

  /** The failure handler; it asks only whether the run row exists. */
  function Handled(s: System, text: string, at: Time): System
    requires CanRaise(s)
  {
    s.(runs := s.runs[s.stage.runId := Failing(s.runs[s.stage.runId], text, at)], stage := Idle)
  }

  /** The scrape a commit reconciles. */
  function ScrapeIn(lib: Libraries, s: System, commit: Step): Scrape
    requires CanCommit(s) && commit.Commit?
  {
    Scrape(s.stage.runId, s.stage.startedAt, commit.occurredAt, Records(lib, commit.rows), commit.selected)
  }

  /** The single transaction: table, log and run row change together, whether or not the
      process learns of it. */
  ghost function Saved(lib: Libraries, s: System, commit: Step): System
    requires CanCommit(s) && commit.Commit?
  {
    var scrape := ScrapeIn(lib, s, commit);
    var events := NewEvents(s.db.table, scrape);
    var run := Report(s.runs[scrape.runId], |commit.rows|, Errors(lib, commit.rows), Count(events, Created),
                      Count(events, Updated), Count(events, EventType.Removed), commit.completedAt);
    s.(db := Reconciled(s.db, scrape),
       runs := s.runs[scrape.runId := run],
       stage := if commit.acknowledged then Committed(commit.completedAt, events != [])
                else Unacknowledged(scrape.runId, events != []),
       history := Then(s.history, scrape))
  }

  /** Stage, commit and push what differs from the local head; nothing to do when nothing differs. */
  function Published(s: System, git: GitOutcome): System {
    var done := s.(stage := Idle);
    if s.tree == s.head || git == CommitFails then done
    else if git == PushFails then done.(head := s.tree, local := Some(s.history))
    else done.(head := s.tree, remote := s.tree, local := Some(s.history), pushed := Some(s.history))
  }

  ghost function Exec(lib: Libraries, s: System, steps: seq<Step>): Option<System>
    decreases |steps|
  {
    if steps == [] then Some(s)
    else
      var next := Next(lib, s, steps[0]);
      if next.None? then None else Exec(lib, next.value, steps[1..])
  }

  // ----- the invariant -----

  ghost predicate DbInv(s: System) {
    Valid(s.history) && s.db == After(s.history) && DerivedRecords(s.history)
  }

  /** The runs whose commit took effect are exactly those whose scrape is part of the history. */
  ghost predicate RunsInv(s: System) {
    && (forall r :: r in RunIds(s.history) <==> r in s.runs && TookEffect(s.runs[r]))
    && (forall r :: r in s.runs && IsCommitted(s.runs[r]) ==> TookEffect(s.runs[r]))
    && (forall r :: r in s.runs && s.runs[r].status == Running ==> !TookEffect(s.runs[r]))
    && (forall r :: r in s.runs ==> (s.runs[r].completedAt.None? <==> s.runs[r].status == Running))
    && Reported(s.history, s.runs)
  }

  /** Every run row written by a commit counts its own events. */
  ghost predicate Reported(h: History, runs: map<Uuid, RunRow>) {
    h.Then? ==>
      && Reported(h.past, runs)
      && h.scrape.runId in runs
      && var run, events := runs[h.scrape.runId], NewEvents(After(h.past).table, h.scrape);
      && run.rowsCreated == Some(Count(events, Created))
      && run.rowsUpdated == Some(Count(events, Updated))
      && run.rowsRemoved == Some(Count(events, EventType.Removed))
      && run.startedAt == h.scrape.scrapedAt
      && TellsNumbers(run, |h.scrape.records|)
  }

  /** The rows seen are the accepted ones and some rejected ones; unless the run failed it is `success`
      without a message when there are none of these, else `partial` naming five of them or all. */
  predicate TellsNumbers(run: RunRow, accepted: nat) {
    && run.rowsSeen.Some? && run.rowsSeen.value >= accepted
    && (run.status != Failed ==>
          var rejected := run.rowsSeen.value - accepted;
          if rejected == 0 then run.status == Success && run.errorMessage.None?
          else
            && run.status == Partial && run.errorMessage.Some? && run.errorMessage.value.RowErrors?
            && |run.errorMessage.value.errors| == if rejected < 5 then rejected else 5)
  }

  /** The row counts accepted and rejected rows together and, unless the run failed, it is `success`
      without a message when none was rejected, else `partial` with the first five errors. */
  ghost predicate TellsErrors(run: RunRow, accepted: nat, errors: seq<RowError>) {
    && run.rowsSeen == Some(accepted + |errors|)
    && (run.status != Failed ==>
          if errors == [] then run.status == Success && run.errorMessage.None?
          else run.status == Partial && run.errorMessage.Some? && IsFirstFive(run.errorMessage.value, errors))
  }

  ghost predicate IsFirstFive(message: Message, errors: seq<RowError>) {
    && message.RowErrors? && message.errors <= errors
    && (|message.errors| == 5 || (|errors| < 5 && message.errors == errors))
  }

  /** What a commit writes onto its run's row, with the response's own errors. */
  lemma CommitTellsErrors(lib: Libraries, s: System, commit: Step)
    requires CanCommit(s) && commit.Commit?
    ensures var run := Saved(lib, s, commit).runs[s.stage.runId];
      && TellsErrors(run, |Records(lib, commit.rows)|, Errors(lib, commit.rows))
      && run.rowsSeen == Some(|commit.rows|) && run.completedAt == Some(commit.completedAt)
      && run.status != Failed && run.startedAt == s.runs[s.stage.runId].startedAt
  {
    RecordsAreDerived(lib, commit.rows);
  }

  ghost predicate StampInv(s: System) {
    s.stamp.Some? ==> exists r :: Stamped(s, r)
  }

  /** The runs of the history whose row no handler will overwrite any more. */
  function SettledRuns(s: System): set<Uuid> {
    RunIds(s.history) - if s.stage.Unacknowledged? then {s.stage.runId} else {}
  }

  ghost predicate Stamped(s: System, r: Uuid) {
    r in SettledRuns(s) && r in s.runs && IsCommitted(s.runs[r]) && s.runs[r].completedAt == s.stamp
  }

  ghost predicate ExportedFrom(files: Option<Files>, from: Option<History>, h: History) {
    match from
    case None => files.None?
    case Some(p) => Earlier(p, h) && files == Some(ExportAll(After(p)))
  }

  ghost predicate FilesInv(s: System) {
    ExportedFrom(s.head, s.local, s.history) && ExportedFrom(s.remote, s.pushed, s.history)
  }

  ghost predicate StageInv(s: System) {
    match s.stage
    case Idle => true
    case Scraping(r, at) => r in s.runs && s.runs[r] == NewRun(at)
    case Unacknowledged(r, changed) =>
      UnpublishedYet(s, changed) && s.history.scrape.runId == r && r in s.runs && IsCommitted(s.runs[r])
    case Committed(at, changed) =>
      && UnpublishedYet(s, changed) && s.history.scrape.runId in s.runs
      && IsCommitted(s.runs[s.history.scrape.runId]) && s.runs[s.history.scrape.runId].completedAt == Some(at)
    case Exported(changed) => UnpublishedYet(s, changed) && s.tree == Some(ExportAll(s.db))
  }

  /** The newest scrape is in the database but not in any git commit. */
  ghost predicate UnpublishedYet(s: System, changed: bool) {
    && s.history.Then?
    && changed == (NewEvents(After(s.history.past).table, s.history.scrape) != [])
    && (s.local.Some? ==> Earlier(s.local.value, s.history.past))
    && (s.pushed.Some? ==> Earlier(s.pushed.value, s.history.past))
  }

  ghost predicate Inv(s: System) {
    DbInv(s) && RunsInv(s) && StampInv(s) && FilesInv(s) && StageInv(s)
  }

  lemma InitialInv()
    ensures Inv(INITIAL)
  {
  }

  /** A row may be replaced if it is not part of the history, or failed with its counters kept. */
  lemma {:induction false} ReportedElsewhere(h: History, runs: map<Uuid, RunRow>, r: Uuid, run: RunRow)
    requires Reported(h, runs)
    requires r in RunIds(h) ==> r in runs && exists text, at :: run == Failing(runs[r], text, at)
    ensures Reported(h, runs[r := run])
  {
    if h.Then? {
      ReportedElsewhere(h.past, runs, r, run);
    }
  }

  lemma StampSurvives(s: System, t: System)
    requires StampInv(s) && t.stamp == s.stamp && SettledRuns(s) <= SettledRuns(t)
    requires forall r :: r in SettledRuns(s) && r in s.runs ==> r in t.runs && t.runs[r] == s.runs[r]
    ensures StampInv(t)
  {
    if s.stamp.Some? {
      var w :| Stamped(s, w);
      assert Stamped(t, w);
    }
  }

  lemma CommitKeepsDb(lib: Libraries, s: System, commit: Step)
    requires DbInv(s) && RunsInv(s) && StageInv(s) && CanCommit(s)
    requires commit.Commit? && Enumerates(commit.selected, s.db.table.Keys)
    ensures DbInv(Saved(lib, s, commit))
  {
    assert s.stage.runId !in RunIds(s.history);
    RecordsAreDerived(lib, commit.rows);
  }

  lemma CommitKeepsRuns(lib: Libraries, s: System, commit: Step)
    requires DbInv(s) && RunsInv(s) && StageInv(s) && CanCommit(s) && commit.Commit?
    ensures RunsInv(Saved(lib, s, commit))
  {
    var t := Saved(lib, s, commit);
    assert s.stage.runId !in RunIds(s.history);
    CommitIsReported(lib, s, commit);
    assert t.runs.Keys == s.runs.Keys;
  }

  lemma CommitIsReported(lib: Libraries, s: System, commit: Step)
    requires s.db == After(s.history) && Reported(s.history, s.runs) && CanCommit(s) && commit.Commit?
    requires s.stage.runId !in RunIds(s.history) && s.runs[s.stage.runId].startedAt == s.stage.startedAt
    ensures var t := Saved(lib, s, commit); Reported(t.history, t.runs)
  {
    var t := Saved(lib, s, commit);
    var r := s.stage.runId;
    CommitTellsErrors(lib, s, commit);
    ReportedElsewhere(s.history, s.runs, r, t.runs[r]);
    assert t.history.past == s.history && t.runs == s.runs[r := t.runs[r]];
  }

  lemma CommitKeepsStamp(lib: Libraries, s: System, commit: Step)
    requires RunsInv(s) && StampInv(s) && StageInv(s) && CanCommit(s) && commit.Commit?
    ensures StampInv(Saved(lib, s, commit))
  {
    assert s.stage.runId !in RunIds(s.history);
    StampSurvives(s, Saved(lib, s, commit));
  }

  lemma CommitKeepsInv(lib: Libraries, s: System, commit: Step)
    requires Inv(s) && CanCommit(s) && commit.Commit? && Enumerates(commit.selected, s.db.table.Keys)
    ensures Inv(Saved(lib, s, commit))
  {
    CommitKeepsDb(lib, s, commit);
    CommitKeepsRuns(lib, s, commit);
    CommitKeepsStamp(lib, s, commit);
  }

  lemma PublishIsNeverEmpty(s: System)
    requires DbInv(s) && FilesInv(s) && StageInv(s) && s.stage.Exported? && s.stage.changed
    ensures s.tree != s.head
  {
    if s.local.Some? {
      FilesAreCurrentIffQuiet(s.local.value, s.history);
      LaterIsLonger(s.local.value, s.history.past);
    }
  }

  function Length(h: History): nat {
    if h.Genesis? then 0 else 1 + Length(h.past)
  }

  lemma {:induction false} LaterIsLonger(p: History, h: History)
    requires Earlier(p, h)
    ensures Length(p) <= Length(h)
  {
    if p != h {
      LaterIsLonger(p, h.past);
    }
  }

  lemma BeginKeepsRuns(s: System, r: Uuid, at: Time)
    requires RunsInv(s) && r !in s.runs
    ensures RunsInv(s.(runs := s.runs[r := NewRun(at)], stage := Scraping(r, at)))
  {
    var t := s.(runs := s.runs[r := NewRun(at)], stage := Scraping(r, at));
    assert r !in RunIds(s.history);
    ReportedElsewhere(s.history, s.runs, r, NewRun(at));
    assert t.runs.Keys == s.runs.Keys + {r};
  }

  lemma BeginKeepsInv(s: System, r: Uuid, at: Time)
    requires Inv(s) && s.stage.Idle? && r !in s.runs
    ensures Inv(s.(runs := s.runs[r := NewRun(at)], stage := Scraping(r, at)))
  {
    BeginKeepsRuns(s, r, at);
    StampSurvives(s, s.(runs := s.runs[r := NewRun(at)], stage := Scraping(r, at)));
  }

  lemma HandlerKeepsReports(s: System, text: string, at: Time)
    requires Reported(s.history, s.runs) && CanRaise(s)
    ensures Reported(s.history, Handled(s, text, at).runs)
  {
    var r := s.stage.runId;
    ReportedElsewhere(s.history, s.runs, r, Failing(s.runs[r], text, at));
  }

  lemma HandlerKeepsRuns(s: System, text: string, at: Time)
    requires RunsInv(s) && CanRaise(s)
    ensures RunsInv(Handled(s, text, at))
  {
    var t := Handled(s, text, at);
    HandlerKeepsReports(s, text, at);
    assert t.runs.Keys == s.runs.Keys;
  }

  lemma HandlerKeepsInv(s: System, text: string, at: Time)
    requires Inv(s) && CanRaise(s)
    ensures Inv(Handled(s, text, at))
  {
    HandlerKeepsRuns(s, text, at);
    assert s.stage.Scraping? ==> s.stage.runId !in RunIds(s.history);
    StampSurvives(s, Handled(s, text, at));
  }

  lemma FilesMove(s: System, t: System)
    requires Inv(s) && FilesInv(t) && StageInv(t) && !t.stage.Unacknowledged?
    requires t.db == s.db && t.runs == s.runs && t.stamp == s.stamp && t.history == s.history
    ensures Inv(t)
  {
    StampSurvives(s, t);
  }

  lemma PublishMovesFiles(s: System, git: GitOutcome)
    requires FilesInv(s) && s.db == After(s.history) && s.tree == Some(ExportAll(s.db))
    ensures var t := Published(s, git);
      FilesInv(t) && t.stage.Idle? && t.db == s.db && t.runs == s.runs && t.stamp == s.stamp && t.history == s.history
  {
  }

  lemma PublishKeepsInv(s: System, git: GitOutcome)
    requires Inv(s) && s.stage.Exported? && s.stage.changed
    ensures Inv(Published(s, git))
  {
    PublishMovesFiles(s, git);
    FilesMove(s, Published(s, git));
  }

  lemma WriteKeepsInv(s: System)
    requires Inv(s) && s.stage.Committed?
    ensures Inv(s.(tree := Some(ExportAll(s.db)), stage := Exported(s.stage.changed)))
  {
    FilesMove(s, s.(tree := Some(ExportAll(s.db)), stage := Exported(s.stage.changed)));
  }

  lemma StopKeepsInv(s: System, left: Option<Files>)
    requires Inv(s)
    ensures Inv(s.(tree := left, stage := Idle))
  {
    FilesMove(s, s.(tree := left, stage := Idle));
  }

  lemma CloneKeepsInv(s: System)
    requires Inv(s) && s.stage.Idle?
    ensures Inv(s.(tree := s.remote, head := s.remote, local := s.pushed))
  {
    FilesMove(s, s.(tree := s.remote, head := s.remote, local := s.pushed));
  }

  lemma StampKeepsInv(s: System)
    requires Inv(s) && s.stage.Committed?
    ensures Inv(s.(stamp := Some(s.stage.completedAt)))
  {
    assert Stamped(s.(stamp := Some(s.stage.completedAt)), s.history.scrape.runId);
  }

  lemma StepKeepsInv(lib: Libraries, s: System, step: Step)
    requires Inv(s) && Next(lib, s, step).Some?
    ensures Inv(Next(lib, s, step).value)
  {
    match step
    case Publish(git) => PublishKeepsInv(s, git);
    case Stamp => StampKeepsInv(s);
    case WriteFiles => WriteKeepsInv(s);
    case WriteFilesFails(left) => StopKeepsInv(s, left);
    case End => StopKeepsInv(s, s.tree);
    case Clone => CloneKeepsInv(s);
    case Begin(r, at) => BeginKeepsInv(s, r, at);
    case Raise(text, at) => HandlerKeepsInv(s, text, at);
    case Commit(_, _, _, _, _) => CommitKeepsInv(lib, s, step);
  }
}
