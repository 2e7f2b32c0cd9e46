/** One limit over whole sequences of calls on one key, made one after another. */
module LimiterRuns {
  import opened SlidingWindow

  /** A call by its two clock readings: at the read, and at the write if it is admitted. */
  datatype Call = Call(now: real, written: real)

  ghost predicate Sequential(calls: seq<Call>, start: real) {
    calls != [] ==>
      var before, last := calls[..|calls| - 1], calls[|calls| - 1];
      Sequential(before, start) && EndOf(before, start) <= last.now <= last.written
  }

  ghost function EndOf(calls: seq<Call>, start: real): real {
    if calls == [] then start else calls[|calls| - 1].written
  }

  /** The key's sorted set after some calls. */
  function StoredAfter(calls: seq<Call>, cfg: Limit): ZSet {
    if calls == [] then EMPTY
    else
      var last := calls[|calls| - 1];
      Checked(StoredAfter(calls[..|calls| - 1], cfg), cfg, last.now, last.written)
  }

  /** The decision on the last of some calls. */
  function LastDecision(calls: seq<Call>, cfg: Limit): Decision
    requires calls != []
  {
    var last := calls[|calls| - 1];
    Decide(Look(StoredAfter(calls[..|calls| - 1], cfg), cfg, last.now).scores, cfg, last.now)
  }

  /** Everything the ideal limit has admitted; it forgets nothing. */
  function Remembered(calls: seq<Call>, cfg: Limit): seq<real> {
    if calls == [] then []
    else IdealAdmitted(Remembered(calls[..|calls| - 1], cfg), cfg, calls[|calls| - 1].now)
  }

  lemma {:induction false} RunAgrees(calls: seq<Call>, cfg: Limit, start: real)
    requires Sequential(calls, start)
    ensures Agrees(StoredAfter(calls, cfg), cfg, Remembered(calls, cfg), EndOf(calls, start))
    ensures Bounded(Remembered(calls, cfg), cfg)
  {
    if calls == [] {
      NothingAgrees(cfg, start);
    } else {
      var before, last := calls[..|calls| - 1], calls[|calls| - 1];
      RunAgrees(before, cfg, start);
      CallAgrees(StoredAfter(before, cfg), cfg, Remembered(before, cfg), EndOf(before, start), last.now, last.written);
      AgreesLater(StoredAfter(before, cfg), cfg, Remembered(before, cfg), EndOf(before, start), last.now);
      AdmitKeepsBound(Remembered(before, cfg), cfg, last.now);
    }
  }

  /** Eviction and expiry never show: on every call sequence the limiter answers as a limit that
      remembers all admitted requests, and no window of the configured length ever holds more
      admitted requests than the maximum. */
  lemma LimiterRefinesIdeal(calls: seq<Call>, cfg: Limit, start: real)
    requires Sequential(calls, start) && calls != []
    ensures var before, now := calls[..|calls| - 1], calls[|calls| - 1].now;
      LastDecision(calls, cfg) == IdealDecision(Remembered(before, cfg), cfg, now)
    ensures forall t: real :: |InWindow(Remembered(calls, cfg), cfg, t)| <= Capacity(cfg)
  {
    var before, last := calls[..|calls| - 1], calls[|calls| - 1];
    RunAgrees(before, cfg, start);
    RunAgrees(calls, cfg, start);
    SameDecision(StoredAfter(before, cfg), cfg, Remembered(before, cfg), EndOf(before, start), last.now);
  }

  ghost predicate AllDenied(calls: seq<Call>, cfg: Limit, from: nat) {
    forall n :: from < n <= |calls| ==> !LastDecision(calls[..n], cfg).allowed
  }

  lemma {:induction false} DenialsAreNotRemembered(calls: seq<Call>, cfg: Limit, start: real, from: nat)
    requires Sequential(calls, start) && from <= |calls| && AllDenied(calls, cfg, from)
    ensures Sequential(calls[..from], start)
    ensures Remembered(calls, cfg) == Remembered(calls[..from], cfg)
  {
    if from == |calls| {
      assert calls[..from] == calls;
    } else {
      var before := calls[..|calls| - 1];
      assert before[..from] == calls[..from];
      assert calls[..|calls|] == calls;
      forall n | from < n <= |before| ensures !LastDecision(before[..n], cfg).allowed {
        assert before[..n] == calls[..n];
      }
      DenialsAreNotRemembered(before, cfg, start, from);
      LimiterRefinesIdeal(calls, cfg, start);
    }
  }

  /** The decision on one call of a run is the ideal one on what was remembered before it. */
  lemma CallIsIdeal(calls: seq<Call>, cfg: Limit, start: real, n: nat)
    requires Sequential(calls, start) && n < |calls|
    ensures LastDecision(calls[..n + 1], cfg) == IdealDecision(Remembered(calls[..n], cfg), cfg, calls[n].now)
  {
    assert calls[..n + 1][..n] == calls[..n];
    SequentialPrefix(calls, start, n + 1);
    LimiterRefinesIdeal(calls[..n + 1], cfg, start);
  }

  lemma DeniedByMemory(calls: seq<Call>, cfg: Limit, start: real, k: nat)
    requires Sequential(calls, start) && k + 1 < |calls|
    requires AllDenied(calls[..|calls| - 1], cfg, k)
    ensures LastDecision(calls[..k + 1], cfg) == IdealDecision(Remembered(calls[..k], cfg), cfg, calls[k].now)
    ensures !LastDecision(calls[..k + 1], cfg).allowed
  {
    CallIsIdeal(calls, cfg, start, k);
    assert calls[..|calls| - 1][..k + 1] == calls[..k + 1];
  }

  lemma NextByMemory(calls: seq<Call>, cfg: Limit, start: real, k: nat)
    requires Sequential(calls, start) && k + 1 < |calls|
    requires AllDenied(calls[..|calls| - 1], cfg, k)
    ensures LastDecision(calls, cfg) == IdealDecision(Remembered(calls[..k], cfg), cfg, calls[|calls| - 1].now)
  {
    var before := calls[..|calls| - 1];
    LimiterRefinesIdeal(calls, cfg, start);
    DenialsAreNotRemembered(before, cfg, start, k);
    assert before[..k] == calls[..k];
  }

  /** After a denial the reported wait is between one second and the window; if every call since
      was denied as well, the next call is allowed exactly when the oldest request of the denied
      call's window has aged out: always once the wait plus one second has passed, never while more
      than one second of the wait, if it is longer, is still to come. */
  lemma RetryAfterIsHonest(calls: seq<Call>, cfg: Limit, start: real, k: nat)
    requires cfg.window >= 1 && cfg.maxRequests >= 1
    requires Sequential(calls, start) && k + 1 < |calls|
    requires AllDenied(calls[..|calls| - 1], cfg, k)
    ensures var denied, next := calls[k], calls[|calls| - 1];
      var wait, inside := LastDecision(calls[..k + 1], cfg).retryAfter,
        InWindow(Remembered(calls[..k], cfg), cfg, denied.now);
      && 1 <= wait <= cfg.window
      && inside != []
      && (LastDecision(calls, cfg).allowed <==> next.now >= inside[0] + cfg.window as real)
      && (next.now >= denied.now + (wait + 1) as real ==> LastDecision(calls, cfg).allowed)
      && (wait > 1 && next.now <= denied.now + (wait - 1) as real ==> !LastDecision(calls, cfg).allowed)
  {
    var prefix, denied, next := calls[..k], calls[k].now, calls[|calls| - 1].now;
    var log := Remembered(prefix, cfg);
    DeniedByMemory(calls, cfg, start, k);
    NextByMemory(calls, cfg, start, k);
    DeniedByLog(calls, cfg, start, k);
    IdealRetry(log, cfg, denied, next);
  }

  /** What was remembered before a call is in order, within the bound and not after the call. */
  lemma DeniedByLog(calls: seq<Call>, cfg: Limit, start: real, k: nat)
    requires Sequential(calls, start) && k + 1 < |calls|
    ensures var log := Remembered(calls[..k], cfg);
      Bounded(log, cfg) && Ascending(log) && AllUpTo(log, calls[k].now) && calls[k].now <= calls[|calls| - 1].now
  {
    var prefix := calls[..k];
    assert calls[..k + 1][..k] == prefix;
    SequentialPrefix(calls, start, k + 1);
    TimesIncrease(calls, start, k);
    RunAgrees(prefix, cfg, start);
    AgreesLater(StoredAfter(prefix, cfg), cfg, Remembered(prefix, cfg), EndOf(prefix, start), calls[k].now);
  }

  lemma IdealRetry(log: seq<real>, cfg: Limit, denied: real, next: real)
    requires cfg.window >= 1 && cfg.maxRequests >= 1 && Bounded(log, cfg)
    requires Ascending(log) && AllUpTo(log, denied) && denied <= next
    requires !IdealDecision(log, cfg, denied).allowed
    ensures var wait, inside := IdealDecision(log, cfg, denied).retryAfter, InWindow(log, cfg, denied);
      && 1 <= wait <= cfg.window
      && inside != []
      && (IdealDecision(log, cfg, next).allowed <==> next >= inside[0] + cfg.window as real)
      && (next >= denied + (wait + 1) as real ==> IdealDecision(log, cfg, next).allowed)
      && (wait > 1 && next <= denied + (wait - 1) as real ==> !IdealDecision(log, cfg, next).allowed)
  {
    RetryAfterInRange(log, cfg, denied);
    AllowedIffOldestAgedOut(log, cfg, denied, next);
    AnnouncedWaitSufficesIff(log, cfg, denied);
    if next >= denied + (IdealDecision(log, cfg, denied).retryAfter + 1) as real {
      RetryAfterPlusOneSuffices(log, cfg, denied, next);
    }
  }

  lemma {:induction false} SequentialPrefix(calls: seq<Call>, start: real, n: nat)
    requires Sequential(calls, start) && n <= |calls|
    ensures Sequential(calls[..n], start)
  {
    if n == |calls| {
      assert calls[..n] == calls;
    } else {
      SequentialPrefix(calls[..|calls| - 1], start, n);
      assert calls[..|calls| - 1][..n] == calls[..n];
    }
  }

  lemma {:induction false} TimesIncrease(calls: seq<Call>, start: real, k: nat)
    requires Sequential(calls, start) && k < |calls|
    ensures EndOf(calls[..k], start) <= calls[k].now <= calls[|calls| - 1].now
    decreases |calls|
  {
    var before := calls[..|calls| - 1];
    if k < |before| {
      TimesIncrease(before, start, k);
      assert before[..k] == calls[..k];
    }
  }
}
