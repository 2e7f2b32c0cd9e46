/** What holds in every state the scraper can reach, whatever fails or crashes on the way. */
module Guarantees {
  import opened Wrappers
  import opened Areas
  import opened Flagger
  import opened Normalize
  import opened Lookup
  import opened Reconcile
  import opened EventLog
  import opened Histories
  import opened Export
  import opened Ingest

  lemma {:induction false} ExecKeepsInv(lib: Libraries, s: System, steps: seq<Step>)
    requires Inv(s) && Exec(lib, s, steps).Some?
    ensures Inv(Exec(lib, s, steps).value)
    decreases |steps|
  {
    if steps != [] {
      StepKeepsInv(lib, s, steps[0]);
      ExecKeepsInv(lib, Next(lib, s, steps[0]).value, steps[1..]);
    }
  }

  ghost predicate Reaches(lib: Libraries, steps: seq<Step>, s: System) {
    Exec(lib, INITIAL, steps) == Some(s)
  }

  lemma ReachableInv(lib: Libraries, steps: seq<Step>, s: System)
    requires Reaches(lib, steps, s)
    ensures Inv(s)
  {
    InitialInv();
    ExecKeepsInv(lib, INITIAL, steps);
  }

  /** States reached by one run after another, each crashing anywhere or not, are reachable. */
  lemma {:induction false} RunsCompose(lib: Libraries, s: System, first: seq<Step>, second: seq<Step>)
    requires Exec(lib, s, first).Some?
    ensures Exec(lib, s, first + second) == Exec(lib, Exec(lib, s, first).value, second)
    decreases |first|
  {
    if first == [] {
      assert first + second == second;
    } else {
      assert (first + second)[1..] == first[1..] + second;
      RunsCompose(lib, Next(lib, s, first[0]).value, first[1..], second);
    }
  }

  // ----- atomicity -----

  /** The handler is about to overwrite the row of this run although its commit took effect. */
  predicate Overwrites(s: System, step: Step, r: Uuid) {
    s.stage.Unacknowledged? && s.stage.runId == r && step.Raise?
  }

  /** The runs whose commit took effect, raised all the same, and reached the failure handler. */
  ghost function Lost(lib: Libraries, s: System, steps: seq<Step>): set<Uuid>
    decreases |steps|
  {
    if steps == [] || Next(lib, s, steps[0]).None? then {}
    else
      (if s.stage.Unacknowledged? && steps[0].Raise? then {s.stage.runId} else {})
      + Lost(lib, Next(lib, s, steps[0]).value, steps[1..])
  }

  lemma CommitIsMonotone(lib: Libraries, s: System, commit: Step)
    requires CanCommit(s) && commit.Commit? && !TookEffect(s.runs[s.stage.runId])
    ensures var t := Saved(lib, s, commit);
      && Committing(s, t)
      && forall r :: r in s.runs && TookEffect(s.runs[r]) ==> r in t.runs && t.runs[r] == s.runs[r]
  {
  }

  /** A transaction took effect: one scrape more, its events appended, nothing published yet. */
  ghost predicate Committing(s: System, t: System) {
    && t.history.Then? && t.history.past == s.history
    && t.pushed == s.pushed && t.remote == s.remote && t.stamp == s.stamp
    && (t.stage.Committed? || t.stage.Unacknowledged?)
    && t.stage.changed == (NewEvents(s.db.table, t.history.scrape) != [])
    && t.db.log == s.db.log + NewEvents(s.db.table, t.history.scrape)
  }

  lemma OtherStepsKeepDb(lib: Libraries, s: System, step: Step)
    requires StageInv(s) && Next(lib, s, step).Some? && !step.Commit?
    ensures var t := Next(lib, s, step).value;
      && t.db == s.db && t.history == s.history
      && forall r :: r in s.runs && TookEffect(s.runs[r]) ==>
           r in t.runs && t.runs[r] == RowAfter(s, [step], r)
  {
  }

  /** What further steps make of the row of a run whose commit took effect. */
  function RowAfter(s: System, steps: seq<Step>, r: Uuid): RunRow
    requires r in s.runs
  {
    if steps != [] && Overwrites(s, steps[0], r) then Failing(s.runs[r], steps[0].text, steps[0].at) else s.runs[r]
  }

  /** A step other than the commit leaves table and log alone; no step erases an event, deletes
      a flagger or, but for the handler after an unacknowledged commit, changes the row of a run
      whose commit took effect. */
  lemma StepIsMonotone(lib: Libraries, s: System, step: Step)
    requires StageInv(s) && Next(lib, s, step).Some?
    ensures var t := Next(lib, s, step).value;
      && (!step.Commit? ==> t.db == s.db && t.history == s.history)
      && Earlier(s.history, t.history)
      && forall r :: r in s.runs && TookEffect(s.runs[r]) ==>
           r in t.runs && t.runs[r] == RowAfter(s, [step], r)
  {
    if step.Commit? {
      CommitIsMonotone(lib, s, step);
    } else {
      OtherStepsKeepDb(lib, s, step);
    }
  }

  lemma {:induction false} EarlierTransitive(p: History, q: History, h: History)
    requires Earlier(p, q) && Earlier(q, h)
    ensures Earlier(p, h)
    decreases h
  {
    if q != h {
      EarlierTransitive(p, q, h.past);
    }
  }

  /** Across any further steps the log only grows, no flagger disappears, and without a commit
      the database does not change at all. */
  lemma {:induction false} DatabaseOnlyGrows(lib: Libraries, s: System, steps: seq<Step>)
    requires Inv(s) && Exec(lib, s, steps).Some?
    ensures var t := Exec(lib, s, steps).value;
      && Earlier(s.history, t.history)
      && s.db.log <= t.db.log && s.db.table.Keys <= t.db.table.Keys
      && ((forall step :: step in steps ==> !step.Commit?) ==> t.db == s.db)
    decreases |steps|
  {
    if steps != [] {
      var next, rest := Next(lib, s, steps[0]).value, steps[1..];
      var t := Exec(lib, next, rest).value;
      assert Exec(lib, s, steps) == Exec(lib, next, rest);
      StepIsMonotone(lib, s, steps[0]);
      StepKeepsInv(lib, s, steps[0]);
      DatabaseOnlyGrows(lib, next, rest);
      EarlierTransitive(s.history, next.history, t.history);
      ExecKeepsInv(lib, next, rest);
      NothingIsErased(s.history, t.history);
      assert forall step :: step in rest ==> step in steps;
    }
  }

  /** No handler ever overwrites this run again. */
  ghost predicate Settled(s: System, r: Uuid) {
    r in s.runs && TookEffect(s.runs[r]) && !(s.stage.Unacknowledged? && s.stage.runId == r)
  }

  lemma OnlyCommitsGoUnacknowledged(lib: Libraries, s: System, step: Step)
    requires Next(lib, s, step).Some?
    ensures var t := Next(lib, s, step).value;
      t.stage.Unacknowledged? ==> s.stage.Scraping? && t.stage.runId == s.stage.runId
  {
  }

  lemma StaysSettled(lib: Libraries, s: System, step: Step, r: Uuid)
    requires StageInv(s) && Next(lib, s, step).Some? && r in s.runs && TookEffect(s.runs[r])
    ensures Settled(Next(lib, s, step).value, r)
  {
    StepIsMonotone(lib, s, step);
    OnlyCommitsGoUnacknowledged(lib, s, step);
  }

  lemma StepSettles(lib: Libraries, s: System, step: Step, r: Uuid)
    requires Inv(s) && Next(lib, s, step).Some? && r in s.runs && TookEffect(s.runs[r])
    ensures var t := Next(lib, s, step).value;
      Inv(t) && Settled(t, r) && t.runs[r] == RowAfter(s, [step], r)
  {
    StepIsMonotone(lib, s, step);
    StepKeepsInv(lib, s, step);
    StaysSettled(lib, s, step, r);
  }

  lemma OneStepFirst(lib: Libraries, s: System, steps: seq<Step>, r: Uuid)
    requires steps != [] && Exec(lib, s, steps).Some?
    ensures Next(lib, s, steps[0]).Some?
    ensures var next := Next(lib, s, steps[0]).value;
      && Exec(lib, s, steps) == Exec(lib, next, steps[1..])
      && (r in Lost(lib, s, steps) <==> Overwrites(s, steps[0], r) || r in Lost(lib, next, steps[1..]))
  {
  }

  lemma {:induction false} SettledIsFinal(lib: Libraries, s: System, steps: seq<Step>, r: Uuid)
    requires Inv(s) && Exec(lib, s, steps).Some? && Settled(s, r)
    ensures r in Exec(lib, s, steps).value.runs && Exec(lib, s, steps).value.runs[r] == s.runs[r]
    ensures r !in Lost(lib, s, steps)
    decreases |steps|
  {
    if steps != [] {
      OneStepFirst(lib, s, steps, r);
      StepSettles(lib, s, steps[0], r);
      SettledIsFinal(lib, Next(lib, s, steps[0]).value, steps[1..], r);
    }
  }

  /** Over any further steps the row of a run whose commit took effect changes exactly when that
      commit has only just raised and the very next step is the failure handler; then the run is
      marked failed, once and for good, with its counters kept. */
  lemma CommittedIsFinal(lib: Libraries, s: System, steps: seq<Step>, r: Uuid)
    requires Inv(s) && Exec(lib, s, steps).Some? && r in s.runs && TookEffect(s.runs[r])
    ensures var t := Exec(lib, s, steps).value;
      && r in t.runs && t.runs[r] == RowAfter(s, steps, r)
      && (r in Lost(lib, s, steps) <==> steps != [] && Overwrites(s, steps[0], r))
  {
    if steps != [] {
      OneStepFirst(lib, s, steps, r);
      StepSettles(lib, s, steps[0], r);
      SettledIsFinal(lib, Next(lib, s, steps[0]).value, steps[1..], r);
    }
  }

  lemma EffectIsNew(lib: Libraries, s: System, step: Step, r: Uuid)
    requires StageInv(s) && Next(lib, s, step).Some? && !(r in s.runs && TookEffect(s.runs[r]))
    requires forall q :: q in s.runs && IsCommitted(s.runs[q]) ==> TookEffect(s.runs[q])
    ensures var t := Next(lib, s, step).value;
      r in t.runs && TookEffect(t.runs[r]) ==> IsCommitted(t.runs[r])
    ensures !Overwrites(s, step, r)
  {
    if step.Commit? {
      NewEffect(lib, s, step, r);
    } else {
      NoNewEffect(lib, s, step, r);
    }
  }

  lemma NewEffect(lib: Libraries, s: System, commit: Step, r: Uuid)
    requires CanCommit(s) && commit.Commit? && !(r in s.runs && TookEffect(s.runs[r]))
    ensures var t := Saved(lib, s, commit);
      r in t.runs && TookEffect(t.runs[r]) ==> IsCommitted(t.runs[r])
  {
  }

  lemma NoNewEffect(lib: Libraries, s: System, step: Step, r: Uuid)
    requires Next(lib, s, step).Some? && !step.Commit? && !(r in s.runs && TookEffect(s.runs[r]))
    ensures var t := Next(lib, s, step).value; !(r in t.runs && TookEffect(t.runs[r]))
  {
  }

  /** Of the runs whose commit took effect on the way, exactly the lost ones end up failed. */
  lemma {:induction false} LostIffFailed(lib: Libraries, s: System, steps: seq<Step>, r: Uuid)
    requires Inv(s) && Exec(lib, s, steps).Some? && !(r in s.runs && TookEffect(s.runs[r]))
    ensures var t := Exec(lib, s, steps).value;
      && (r in t.runs && TookEffect(t.runs[r]) ==>
            && (t.runs[r].status == Failed <==> r in Lost(lib, s, steps))
            && (IsCommitted(t.runs[r]) <==> r !in Lost(lib, s, steps)))
    decreases |steps|
  {
    if steps != [] {
      var next, rest := Next(lib, s, steps[0]).value, steps[1..];
      OneStepFirst(lib, s, steps, r);
      EffectIsNew(lib, s, steps[0], r);
      StepKeepsInv(lib, s, steps[0]);
      if r in next.runs && TookEffect(next.runs[r]) {
        CommittedIsFinal(lib, next, rest, r);
      } else {
        LostIffFailed(lib, next, rest, r);
      }
    }
  }

  /** Every event belongs to a run of the history, one whose commit took effect. Such a run is
      `failed` exactly when that commit raised all the same and the handler ran; otherwise it is
      `success` or `partial`, and every other failed run, like every crashed or running one, left no
      event. The freshness stamp is the completion time of a run that is not failed. */
  lemma RunsAreAtomic(lib: Libraries, steps: seq<Step>, s: System)
    requires Reaches(lib, steps, s)
    ensures forall e :: e in s.db.log ==> e.runId in RunIds(s.history)
    ensures forall r :: r in RunIds(s.history) ==>
      && r in s.runs
      && (s.runs[r].status == Failed <==> r in Lost(lib, INITIAL, steps))
      && (IsCommitted(s.runs[r]) <==> r !in Lost(lib, INITIAL, steps))
    ensures forall r :: r in s.runs && IsCommitted(s.runs[r]) ==>
      r in RunIds(s.history) && s.runs[r].completedAt.Some?
    ensures s.stamp.Some? ==>
      exists r :: r in s.runs && IsCommitted(s.runs[r]) && s.runs[r].completedAt == s.stamp
  {
    ReachableInv(lib, steps, s);
    InitialInv();
    EventsNameCommittedRuns(s.history);
    forall r | r in RunIds(s.history)
      ensures s.runs[r].status == Failed <==> r in Lost(lib, INITIAL, steps)
      ensures IsCommitted(s.runs[r]) <==> r !in Lost(lib, INITIAL, steps)
    {
      LostIffFailed(lib, INITIAL, steps, r);
    }
    if s.stamp.Some? {
      var r :| Stamped(s, r);
      assert IsCommitted(s.runs[r]);
    }
  }

  // ----- a commit that takes effect and raises -----

  lemma ThreeSteps(lib: Libraries, s: System, a: Step, b: Step, c: Step)
    requires Next(lib, s, a).Some? && Next(lib, Next(lib, s, a).value, b).Some?
    ensures Exec(lib, s, [a, b, c]) == Next(lib, Next(lib, Next(lib, s, a).value, b).value, c)
  {
    var x := Next(lib, s, a).value;
    var y := Next(lib, x, b).value;
    assert [a, b, c][1..] == [b, c] && [b, c][1..] == [c] && [c][1..] == [];
    assert Exec(lib, y, [c]) == Next(lib, y, c);
    assert Exec(lib, x, [b, c]) == Exec(lib, y, [c]);
  }

  /** Every response with an acceptable row can end like that: its events are logged and its run
      is failed. */
  lemma LostCommitIsMarkedFailed(lib: Libraries, rows: seq<RawRow>, r: Uuid, text: string, at: Time)
    requires Records(lib, rows) != []
    ensures var steps := [Step.Begin(r, at), Commit(rows, [], at, at, false), Raise(text, at)];
      && Exec(lib, INITIAL, steps).Some?
      && var s := Exec(lib, INITIAL, steps).value;
         && s.db.log != [] && r in s.runs && s.runs[r].status == Failed
         && forall e :: e in s.db.log ==> e.runId == r
  {
    var begin, commit, raise := Step.Begin(r, at), Commit(rows, [], at, at, false), Raise(text, at);
    var begun := Next(lib, INITIAL, begin).value;
    FirstCommitLogs(lib, begun, commit);
    ThreeSteps(lib, INITIAL, begin, commit, raise);
  }

  lemma FirstCommitLogs(lib: Libraries, s: System, commit: Step)
    requires CanCommit(s) && s.db == Db(map[], []) && s.history == Genesis
    requires commit.Commit? && commit.selected == [] && Records(lib, commit.rows) != []
    ensures Enumerates(commit.selected, s.db.table.Keys)
    ensures var log := Saved(lib, s, commit).db.log; log != [] && forall e :: e in log ==> e.runId == s.stage.runId
  {
    FirstScrapeLogs(Then(Genesis, ScrapeIn(lib, s, commit)));
  }

  lemma HandledIsStale(s: System, text: string, at: Time)
    requires Inv(s) && s.stage.Unacknowledged? && s.stage.changed
    ensures Inv(Handled(s, text, at)) && !Coherent(Handled(s, text, at))
  {
    HandlerKeepsInv(s, text, at);
    LostCommitIsStale(s);
  }

  lemma LostRunStaysStale(lib: Libraries, s: System, text: string, at: Time, later: seq<Step>)
    requires Inv(s) && s.stage.Unacknowledged? && s.stage.changed
    requires Exec(lib, Handled(s, text, at), later).Some?
    requires |Exec(lib, Handled(s, text, at), later).value.db.log| == |s.db.log|
    ensures var t := Exec(lib, Handled(s, text, at), later).value;
      Inv(t) && !Coherent(t) && t.remote == s.remote
  {
    HandledIsStale(s, text, at);
    StaleSteps(lib, Handled(s, text, at), later);
    ExecKeepsInv(lib, Handled(s, text, at), later);
  }

  /** What survives such a run: table and log still agree, the stamp stays what it was, and
      nothing it changed is published by any later steps until another run changes something. */
  lemma LostCommitStaysUnpublished(lib: Libraries, s: System, text: string, at: Time, later: seq<Step>)
    requires Inv(s) && s.stage.Unacknowledged? && s.stage.changed
    requires Exec(lib, Handled(s, text, at), later).Some?
    requires |Exec(lib, Handled(s, text, at), later).value.db.log| == |s.db.log|
    ensures Handled(s, text, at).stamp == s.stamp
    ensures var t := Exec(lib, Handled(s, text, at), later).value;
      && Replay(t.db.log) == ViewOf(t.db.table)
      && t.remote == s.remote && !UpToDate(t)
  {
    var t := Exec(lib, Handled(s, text, at), later).value;
    LostRunStaysStale(lib, s, text, at, later);
    LogReplays(t);
    CurrentIffQuiet(t);
  }

  lemma LogReplays(s: System)
    requires DbInv(s)
    ensures Replay(s.db.log) == ViewOf(s.db.table)
  {
    LogMatchesTable(s.history);
  }

  lemma LostCommitIsStale(s: System)
    requires DbInv(s) && StageInv(s) && s.stage.Unacknowledged? && s.stage.changed
    ensures s.db.log != [] && !(s.pushed.Some? && Quiet(s.pushed.value, s.history))
  {
    if s.pushed.Some? {
      LaterIsLonger(s.pushed.value, s.history.past);
    }
  }

  /** Right after the stamp is written it is the completion time of the newest run of the history. */
  lemma StampIsNewest(lib: Libraries, s: System)
    requires Inv(s) && Next(lib, s, Stamp).Some?
    ensures var t := Next(lib, s, Stamp).value;
      && t.history.Then? && t.history.scrape.runId in t.runs
      && t.stamp.Some? && t.stamp == t.runs[t.history.scrape.runId].completedAt
      && IsCommitted(t.runs[t.history.scrape.runId])
  {
  }

  // ----- what the run rows report -----

  lemma {:induction false} ReportOf(h: History, runs: map<Uuid, RunRow>, p: History)
    requires Reported(h, runs) && Earlier(p, h) && p.Then?
    ensures Reported(p, runs)
  {
    if p != h {
      ReportOf(h.past, runs, p);
    }
  }

  /** Each committed run's counters are the numbers of its own events in the log, however much was
      logged since; it counts accepted and rejected rows together and, unless it was lost, names as many
      errors as there were, five at most. */
  lemma CountersMatchEvents(lib: Libraries, steps: seq<Step>, s: System, p: History)
    requires Reaches(lib, steps, s) && Earlier(p, s.history) && p.Then?
    ensures p.scrape.runId in s.runs
    ensures var run, events := s.runs[p.scrape.runId], EventsOfRun(s.db.log, p.scrape.runId);
      && run.rowsCreated == Some(Count(events, Created))
      && run.rowsUpdated == Some(Count(events, Updated))
      && run.rowsRemoved == Some(Count(events, EventType.Removed))
      && TellsNumbers(run, |p.scrape.records|)
  {
    ReachableInv(lib, steps, s);
    ReportOf(s.history, s.runs, p);
    RunOwnsItsEvents(s.history, p);
  }

  // ----- the log, the table and the lookups -----

  /** In every reachable state the log alone tells each flagger's fields and whether it is
      listed, every status is `active` or `removed`, and totals add up. */
  lemma LogRefinesTable(lib: Libraries, steps: seq<Step>, s: System)
    requires Reaches(lib, steps, s)
    ensures Replay(s.db.log) == ViewOf(s.db.table)
    ensures forall id :: id in s.db.table ==> s.db.table[id].status == Active || s.db.table[id].status == Status.Removed
    ensures |s.db.table| == Count(s.db.log, Created)
    ensures |Listed(s.db.table)| + Count(s.db.log, EventType.Removed)
      == Count(s.db.log, Created) + Count(s.db.log, Restored)
  {
    ReachableInv(lib, steps, s);
    LogMatchesTable(s.history);
    TotalsAddUp(s.history);
    forall id | id in s.db.table ensures s.db.table[id].status == Active || s.db.table[id].status == Status.Removed {
      TableIsHistory(s.history, id);
    }
  }

  /** In every reachable state, what is found by an address is found by its domain, and the
      raw area labels can be read back from the CSV file. */
  lemma DerivedColumnsAgree(lib: Libraries, steps: seq<Step>, s: System, email: string)
    requires Reaches(lib, steps, s)
    ensures ExtractEmailDomain(Some(email)).Some? ==>
      ByEmail(s.db.table, email) <= ByDomain(s.db.table, ExtractEmailDomain(Some(email)).value)
    ensures forall id :: id in s.db.table ==>
      var csv := CsvRowOf(TfToDict(id, s.db.table[id]));
      && Of(AreasRaw) in csv && csv[Of(AreasRaw)].Written?
      && SplitAreasRaw(Some(csv[Of(AreasRaw)].text)) == s.db.table[id].synced.areasRaw
  {
    ReachableInv(lib, steps, s);
    forall id | id in s.db.table ensures Derived(s.db.table[id].synced) { RowsAreDerived(s.history, id); }
    EmailLookupImpliesDomainLookup(s.db.table, email);
    forall id | id in s.db.table
      ensures var csv := CsvRowOf(TfToDict(id, s.db.table[id]));
        && Of(AreasRaw) in csv && csv[Of(AreasRaw)].Written?
        && SplitAreasRaw(Some(csv[Of(AreasRaw)].text)) == s.db.table[id].synced.areasRaw
    {
      CsvKeepsAreaLabels(id, s.db.table[id]);
    }
  }

  // ----- the published copy -----

  ghost predicate UpToDate(s: System) {
    s.remote == Some(ExportAll(s.db))
  }

  lemma CurrentIffQuiet(s: System)
    requires Inv(s)
    ensures UpToDate(s) <==> s.pushed.Some? && Quiet(s.pushed.value, s.history)
  {
    if s.pushed.Some? {
      FilesAreCurrentIffQuiet(s.pushed.value, s.history);
    }
  }

  /** The remote equals the export of today's database exactly when something was pushed and
      no run since that push changed anything. */
  lemma PublishedIff(lib: Libraries, steps: seq<Step>, s: System)
    requires Reaches(lib, steps, s)
    ensures UpToDate(s) <==> s.pushed.Some? && Quiet(s.pushed.value, s.history)
  {
    ReachableInv(lib, steps, s);
    CurrentIffQuiet(s);
  }

  /** A step that gives up publishing a run that changed something. */
  ghost predicate Abandons(s: System, step: Step) {
    || (s.stage.Unacknowledged? && s.stage.changed)
    || (s.stage.Committed? && s.stage.changed && (step.End? || step.WriteFilesFails?))
    || (s.stage.Exported? && s.stage.changed && (step.End? || (step.Publish? && step.git != Pushes)))
  }

  ghost predicate NeverAbandons(lib: Libraries, s: System, steps: seq<Step>)
    decreases |steps|
  {
    steps != [] ==>
      && !Abandons(s, steps[0])
      && (Next(lib, s, steps[0]).Some? ==> NeverAbandons(lib, Next(lib, s, steps[0]).value, steps[1..]))
  }

  /** Nothing logged yet, or the remote is current, or the current run is about to push. */
  ghost predicate Coherent(s: System) {
    || s.db.log == []
    || (s.pushed.Some? && Quiet(s.pushed.value, s.history))
    || ((s.stage.Committed? || s.stage.Unacknowledged? || s.stage.Exported?) && s.stage.changed)
  }

  lemma StepStaysCoherent(lib: Libraries, s: System, step: Step)
    requires Inv(s) && Coherent(s) && !Abandons(s, step) && Next(lib, s, step).Some?
    ensures Coherent(Next(lib, s, step).value)
  {
    if step.Commit? {
      CommitIsMonotone(lib, s, step);
      CommitStaysCoherent(s, Saved(lib, s, step));
    } else if step.Publish? {
      PublishIsNeverEmpty(s);
      PushCatchesUp(s);
    } else {
      OtherStaysCoherent(lib, s, step);
    }
  }

  lemma PushCatchesUp(s: System)
    requires s.tree != s.head
    ensures Published(s, Pushes).pushed == Some(s.history) && Published(s, Pushes).history == s.history
  {
  }

  lemma OtherStaysCoherent(lib: Libraries, s: System, step: Step)
    requires Coherent(s) && !Abandons(s, step) && Next(lib, s, step).Some?
    requires !step.Commit? && !step.Publish?
    ensures Coherent(Next(lib, s, step).value)
  {
  }

  lemma CommitStaysCoherent(s: System, t: System)
    requires Coherent(s) && s.stage.Scraping? && s.db == After(s.history) && Committing(s, t)
    ensures Coherent(t)
  {
  }

  lemma {:induction false} StaysCoherent(lib: Libraries, s: System, steps: seq<Step>)
    requires Inv(s) && Coherent(s) && NeverAbandons(lib, s, steps) && Exec(lib, s, steps).Some?
    ensures Coherent(Exec(lib, s, steps).value)
    decreases |steps|
  {
    if steps != [] {
      var next := Next(lib, s, steps[0]).value;
      StepStaysCoherent(lib, s, steps[0]);
      StepKeepsInv(lib, s, steps[0]);
      StaysCoherent(lib, next, steps[1..]);
    }
  }

  /** As long as every changing run's export and push succeed, the remote is current after
      every run, although runs without changes skip the push. */
  lemma PublishedCopyStaysCurrent(lib: Libraries, steps: seq<Step>, s: System)
    requires Reaches(lib, steps, s) && NeverAbandons(lib, INITIAL, steps)
    ensures s.stage.Idle? && s.db.log != [] ==> UpToDate(s)
  {
    InitialInv();
    StaysCoherent(lib, INITIAL, steps);
    PublishedIff(lib, steps, s);
  }

  lemma StaleStep(lib: Libraries, s: System, step: Step)
    requires Inv(s) && Next(lib, s, step).Some? && !Coherent(s)
    requires |Next(lib, s, step).value.db.log| == |s.db.log|
    ensures !Coherent(Next(lib, s, step).value) && Next(lib, s, step).value.remote == s.remote
  {
    if step.Commit? {
      CommitIsMonotone(lib, s, step);
      StaleCommit(s, Saved(lib, s, step));
    } else {
      StaleOther(lib, s, step);
    }
  }

  lemma StaleCommit(s: System, t: System)
    requires !Coherent(s) && s.db == After(s.history) && FilesInv(s)
    requires Committing(s, t) && |t.db.log| == |s.db.log|
    ensures !Coherent(t)
  {
    if s.pushed.Some? {
      LaterIsLonger(s.pushed.value, s.history);
    }
  }

  lemma StaleOther(lib: Libraries, s: System, step: Step)
    requires Next(lib, s, step).Some? && !step.Commit? && !Coherent(s)
    ensures !Coherent(Next(lib, s, step).value) && Next(lib, s, step).value.remote == s.remote
  {
  }

  /** A push that was missed stays missed: runs that change nothing never catch up. */
  lemma {:induction false} StaleUntilNextChange(lib: Libraries, s: System, steps: seq<Step>)
    requires Inv(s) && s.stage.Idle? && !UpToDate(s) && s.db.log != []
    requires Exec(lib, s, steps).Some? && |Exec(lib, s, steps).value.db.log| == |s.db.log|
    ensures !UpToDate(Exec(lib, s, steps).value) && Exec(lib, s, steps).value.remote == s.remote
  {
    CurrentIffQuiet(s);
    StaleSteps(lib, s, steps);
    ExecKeepsInv(lib, s, steps);
    CurrentIffQuiet(Exec(lib, s, steps).value);
  }

  lemma {:induction false} StaleSteps(lib: Libraries, s: System, steps: seq<Step>)
    requires Inv(s) && !Coherent(s)
    requires Exec(lib, s, steps).Some? && |Exec(lib, s, steps).value.db.log| == |s.db.log|
    ensures !Coherent(Exec(lib, s, steps).value) && Exec(lib, s, steps).value.remote == s.remote
    decreases |steps|
  {
    if steps != [] {
      var next, rest := Next(lib, s, steps[0]).value, steps[1..];
      assert Exec(lib, s, steps) == Exec(lib, next, rest);
      StepKeepsInv(lib, s, steps[0]);
      StepIsMonotone(lib, s, steps[0]);
      NothingIsErased(s.history, next.history);
      DatabaseOnlyGrows(lib, next, rest);
      StaleStep(lib, s, steps[0]);
      StaleSteps(lib, next, rest);
    }
  }
}
