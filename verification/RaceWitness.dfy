/** Runs that attain or exceed the concurrent bounds, and the exact condition under which the
    sharper bound holds. */
module RaceWitness {
  import opened Wrappers
  import opened SlidingWindow
  import opened LimiterRace

  /** What a run keeps to: at most `p` pending and `u` waiting calls, at most `x` calls between add
      and renewal when the key expires, and steady commands. */
  datatype Pace = Pace(cfg: Limit, p: nat, u: nat, x: nat, slack: real, count: real, renew: real)

  const START := Race(EMPTY, 0.0, map[], {}, map[], map[], [])

  function HorizonAfter(h: real, s: Race, step: Step): real {
    if step.Clear? && step.id in s.waiting then Later(h, s.waiting[step.id]) else h
  }

  /** The step leads from `s` to `after` at that pace; no eviction used a reading past `h` before it
      nor past `to` after it. */
  ghost predicate Paced(pace: Pace, h: real, s: Race, step: Step, to: real, after: Race) {
    && Next(pace.cfg, s, step) == Some(after)
    && |IdsOf(after.pending)| <= pace.p && |IdsOf(after.waiting)| <= pace.u
    && (Expires(s, step) ==> |IdsOf(s.expiring)| <= pace.x)
    && Prompt(s.expiring, step.at, pace.renew)
    && (step.Count? && step.id in s.waiting ==>
          h - pace.slack <= s.waiting[step.id] && step.at <= s.waiting[step.id] + pace.count)
    && HorizonAfter(h, s, step) <= to
  }

  /** A run with the state after each step and a bound on the readings evicted with so far. */
  datatype Trace = Begun | More(past: Trace, step: Step, h: real, s: Race)

  function Now(tr: Trace): Race {
    if tr.Begun? then START else tr.s
  }

  function Bound(tr: Trace): real {
    if tr.Begun? then 0.0 else tr.h
  }

  function StepsOf(tr: Trace): seq<Step> {
    if tr.Begun? then [] else StepsOf(tr.past) + [tr.step]
  }

  ghost predicate Good(pace: Pace, tr: Trace) {
    tr.More? ==> Good(pace, tr.past) && Paced(pace, Bound(tr.past), Now(tr.past), tr.step, tr.h, tr.s)
  }

  /** The trace keeps the pace and leads to `s`, nothing being evicted with a reading past `h`. */
  ghost predicate Runs(pace: Pace, tr: Trace, h: real, s: Race) {
    Good(pace, tr) && Bound(tr) == h && Now(tr) == s
  }

  lemma StepsOfPast(tr: Trace)
    requires tr.More?
    ensures StepsOf(tr) != [] && StepsOf(tr)[|StepsOf(tr)| - 1] == tr.step
    ensures StepsOf(tr)[..|StepsOf(tr)| - 1] == StepsOf(tr.past)
  {
  }

  lemma {:induction false} RunsExec(pace: Pace, tr: Trace)
    requires Good(pace, tr)
    ensures Exec(pace.cfg, 0.0, StepsOf(tr)) == Some(Now(tr))
  {
    if tr.More? {
      RunsExec(pace, tr.past);
      ExecLonger(pace.cfg, 0.0, StepsOf(tr.past), tr.step);
    }
  }

  lemma {:induction false} RunsHorizon(pace: Pace, tr: Trace)
    requires Good(pace, tr)
    ensures Horizon(pace.cfg, 0.0, StepsOf(tr)) <= Bound(tr)
  {
    if tr.More? {
      RunsExec(pace, tr.past);
      RunsHorizon(pace, tr.past);
      HorizonLonger(pace.cfg, 0.0, StepsOf(tr.past), tr.step);
    }
  }

  lemma {:induction false} RunsCrowd(pace: Pace, tr: Trace)
    requires Good(pace, tr)
    ensures Crowd(pace.cfg, 0.0, StepsOf(tr), pace.p) && Stalls(pace.cfg, 0.0, StepsOf(tr), pace.u)
    ensures Exposed(pace.cfg, 0.0, StepsOf(tr), pace.x)
  {
    RunsExec(pace, tr);
    if tr.More? {
      RunsExec(pace, tr.past);
      RunsCrowd(pace, tr.past);
      StepsOfPast(tr);
    }
  }

  lemma {:induction false} RunsSteady(pace: Pace, tr: Trace)
    requires Good(pace, tr)
    ensures Steady(pace.cfg, 0.0, StepsOf(tr), pace.slack, pace.count, pace.renew)
  {
    if tr.More? {
      RunsExec(pace, tr.past);
      RunsHorizon(pace, tr.past);
      RunsSteady(pace, tr.past);
      StepsOfPast(tr);
    }
  }

  /** The steps of a trace that leaves `n` entries in one window. */
  lemma Realized(pace: Pace, tr: Trace, t: real, n: int) returns (steps: seq<Step>)
    requires Good(pace, tr) && |InWindow(Now(tr).added, pace.cfg, t)| == n
    ensures Exec(pace.cfg, 0.0, steps).Some?
    ensures Crowd(pace.cfg, 0.0, steps, pace.p) && Stalls(pace.cfg, 0.0, steps, pace.u)
    ensures Exposed(pace.cfg, 0.0, steps, pace.x)
    ensures Steady(pace.cfg, 0.0, steps, pace.slack, pace.count, pace.renew)
    ensures |InWindow(Exec(pace.cfg, 0.0, steps).value.added, pace.cfg, t)| == n
  {
    steps := StepsOf(tr);
    RunsExec(pace, tr);
    RunsCrowd(pace, tr);
    RunsSteady(pace, tr);
  }

  /** One step further, at the same pace. */
  lemma OneMore(pace: Pace, tr: Trace, h: real, s: Race, step: Step, to: real, after: Race) returns (more: Trace)
    requires Runs(pace, tr, h, s) && Paced(pace, h, s, step, to, after)
    ensures Runs(pace, more, to, after)
  {
    more := More(tr, step, to, after);
  }

  lemma NoCall()
    ensures IdsOf(map[]) == {}
  {
  }

  lemma OneCall(id: nat, x: real)
    ensures |IdsOf(map[id := x])| == 1 && map[id := x] - {id} == map[] && IdsOf(map[]) == {}
    ensures {id} - {id} == {}
  {
    assert IdsOf(map[id := x]) == {id};
  }

  lemma TwoCalls(x: real, y: real)
    ensures |IdsOf(map[0 := x, 1 := y])| == 2 && map[0 := x, 1 := y] - {0} == map[1 := y]
    ensures map[0 := x][1 := y] == map[0 := x, 1 := y]
  {
    CallAdded(map[0 := x], 1, y, Limit("", 0, 0), 0.0);
    OneCall(0, x);
    assert map[0 := x][1 := y] == map[0 := x, 1 := y];
  }

  // ----- calls that all read the clock at the same time -----

  function Copies(x: real, n: nat): (s: seq<real>)
    ensures |s| == n
  {
    if n == 0 then [] else Copies(x, n - 1) + [x]
  }

  lemma {:induction false} CopiesUpTo(x: real, n: nat)
    ensures AllUpTo(Copies(x, n), x)
  {
    if n > 0 {
      CopiesUpTo(x, n - 1);
    }
  }

  lemma CopiesInsert(x: real, n: nat)
    ensures Insert(Copies(x, n), x) == Copies(x, n + 1)
  {
    CopiesUpTo(x, n);
    InsertAtEnd(Copies(x, n), x);
  }

  lemma {:induction false} CopiesNewer(x: real, n: nat, cutoff: real)
    ensures Newer(Copies(x, n), cutoff) == if x > cutoff then Copies(x, n) else []
  {
    if n > 0 {
      CopiesNewer(x, n - 1, cutoff);
      NewerOneMore(Copies(x, n - 1), x, cutoff);
    }
  }

  lemma {:induction false} CopiesInWindow(prior: seq<real>, x: real, n: nat, cfg: Limit, t: real)
    requires Inside(x, cfg, t)
    ensures Tally(prior + Copies(x, n), cfg, t) == Tally(prior, cfg, t) + n
  {
    if n == 0 {
      assert prior + Copies(x, n) == prior;
    } else {
      CopiesInWindow(prior, x, n - 1, cfg, t);
      TallyOneMore(prior + Copies(x, n - 1), x, cfg, t);
      assert prior + Copies(x, n) == (prior + Copies(x, n - 1)) + [x];
    }
  }

  /** Calls 0, 1, .., m - 1, all with reading `x`. */
  function CallsAt(x: real, m: nat): map<nat, real> {
    if m == 0 then map[] else CallsAt(x, m - 1)[m - 1 := x]
  }

  lemma {:induction false} CallsAtMembers(x: real, m: nat, id: nat)
    ensures id in CallsAt(x, m) <==> id < m
    ensures id in CallsAt(x, m) ==> CallsAt(x, m)[id] == x
  {
    if m > 0 {
      CallsAtMembers(x, m - 1, id);
    }
  }

  lemma {:induction false} CallsAtMeaning(x: real, m: nat)
    ensures |IdsOf(CallsAt(x, m))| == m
    ensures m !in CallsAt(x, m) && CallsAt(x, m)[m := x] == CallsAt(x, m + 1)
    ensures m > 0 ==>
      m - 1 in CallsAt(x, m) && CallsAt(x, m)[m - 1] == x && CallsAt(x, m) - {m - 1} == CallsAt(x, m - 1)
  {
    CallsAtMembers(x, m, m);
    if m > 0 {
      CallsAtMembers(x, m - 1, m - 1);
      CallsAtMeaning(x, m - 1);
      CallAdded(CallsAt(x, m - 1), m - 1, x, Limit("", 0, 0), 0.0);
      assert CallsAt(x, m - 1)[m - 1 := x] - {m - 1} == CallsAt(x, m - 1);
    }
  }

  /** At time `at`, after the entries `prior`: `n` entries stored and `m` calls pending, all with
      reading `at`. */
  function Full(cfg: Limit, at: real, prior: seq<real>, n: nat, m: nat): Race {
    Race(if n == 0 then EMPTY else ZSet(Copies(at, n), Some(at + Span(cfg))), at, map[], {}, CallsAt(at, m), map[],
         prior + Copies(at, n))
  }

  ghost predicate Usable(pace: Pace) {
    && pace.cfg.window >= 1 && pace.cfg.maxRequests >= 1 && pace.p >= 1 && pace.u >= 1
    && pace.slack >= 0.0 && pace.count >= 0.0 && pace.renew >= 0.0
  }

  lemma FullStarts(pace: Pace, at: real, prior: seq<real>, n: nat, m: nat)
    requires Usable(pace) && m <= pace.p
    ensures var s := Full(pace.cfg, at, prior, n, m);
      Paced(pace, at, s, Start(m, at), at, s.(waiting := map[m := at]))
  {
    CallsAtMeaning(at, m);
    OneCall(m, at);
  }

  lemma FullKeepsAll(cfg: Limit, at: real, prior: seq<real>, n: nat, m: nat)
    requires cfg.window >= 1
    ensures var z := Full(cfg, at, prior, n, m).zset; Alive(z, at) == z && Evict(z, at - cfg.window as real) == z
  {
    CopiesNewer(at, n, at - cfg.window as real);
  }

  /** An eviction that finds nothing old enough. */
  lemma ClearsNothing(pace: Pace, s: Race, id: nat, h: real)
    requires s.waiting == map[id := s.clock] && s.cleared == {} && s.expiring == map[] && h <= s.clock
    requires |IdsOf(s.pending)| <= pace.p && 1 <= pace.u
    requires Alive(s.zset, s.clock) == s.zset && Evict(s.zset, s.clock - pace.cfg.window as real) == s.zset
    ensures Paced(pace, h, s, Clear(id, s.clock), s.clock, s.(cleared := {id}))
  {
    OneCall(id, s.clock);
    assert s.cleared + {id} == {id};
  }

  lemma FullClears(pace: Pace, at: real, prior: seq<real>, n: nat, m: nat)
    requires Usable(pace) && m <= pace.p
    ensures var s := Full(pace.cfg, at, prior, n, m).(waiting := map[m := at]);
      Paced(pace, at, s, Clear(m, at), at, s.(cleared := {m}))
  {
    CallsAtMeaning(at, m);
    FullKeepsAll(pace.cfg, at, prior, n, m);
    ClearsNothing(pace, Full(pace.cfg, at, prior, n, m).(waiting := map[m := at]), m, at);
  }

  lemma FullCounts(pace: Pace, at: real, prior: seq<real>, n: nat, m: nat)
    requires Usable(pace) && n < pace.cfg.maxRequests && m < pace.p
    ensures var s := Full(pace.cfg, at, prior, n, m).(waiting := map[m := at], cleared := {m});
      Paced(pace, at, s, Count(m, at), at, Full(pace.cfg, at, prior, n, m + 1))
  {
    CallsAtMeaning(at, m);
    CallsAtMeaning(at, m + 1);
    OneCall(m, at);
  }

  /** While the set is not full, one more call is admitted. */
  lemma Admit(pace: Pace, tr: Trace, at: real, prior: seq<real>, n: nat, m: nat) returns (more: Trace)
    requires Usable(pace) && n < pace.cfg.maxRequests && m < pace.p
    requires Runs(pace, tr, at, Full(pace.cfg, at, prior, n, m))
    ensures Runs(pace, more, at, Full(pace.cfg, at, prior, n, m + 1))
  {
    var s := Full(pace.cfg, at, prior, n, m);
    var started := s.(waiting := map[m := at]);
    FullStarts(pace, at, prior, n, m);
    FullClears(pace, at, prior, n, m);
    FullCounts(pace, at, prior, n, m);
    more := OneMore(pace, tr, at, s, Start(m, at), at, started);
    more := OneMore(pace, more, at, started, Clear(m, at), at, started.(cleared := {m}));
    more := OneMore(pace, more, at, started.(cleared := {m}), Count(m, at), at, Full(pace.cfg, at, prior, n, m + 1));
  }

  /** The state after the last pending call added its entry. */
  function Joined(cfg: Limit, at: real, prior: seq<real>, n: nat, m: nat): Race
    requires m > 0
  {
    var expiry := if n == 0 then None else Some(at + Span(cfg));
    Race(ZSet(Copies(at, n + 1), expiry), at, map[], {}, CallsAt(at, m - 1), map[m - 1 := at],
         prior + Copies(at, n + 1))
  }

  lemma FullAdds(pace: Pace, at: real, prior: seq<real>, n: nat, m: nat)
    requires Usable(pace) && 0 < m <= pace.p
    ensures Paced(pace, at, Full(pace.cfg, at, prior, n, m), Add(m - 1, at), at, Joined(pace.cfg, at, prior, n, m))
  {
    CallsAtMeaning(at, m);
    CallsAtMeaning(at, m - 1);
    NoCall();
    CopiesInsert(at, n);
    assert (prior + Copies(at, n)) + [at] == prior + Copies(at, n + 1);
  }

  lemma FullRenews(pace: Pace, at: real, prior: seq<real>, n: nat, m: nat)
    requires Usable(pace) && 0 < m <= pace.p
    ensures Paced(pace, at, Joined(pace.cfg, at, prior, n, m), Renew(m - 1, at), at,
                  Full(pace.cfg, at, prior, n + 1, m - 1))
  {
    CallsAtMeaning(at, m - 1);
    OneCall(m - 1, at);
  }

  lemma StoreOne(pace: Pace, tr: Trace, at: real, prior: seq<real>, n: nat, m: nat) returns (more: Trace)
    requires Usable(pace) && 0 < m <= pace.p && Runs(pace, tr, at, Full(pace.cfg, at, prior, n, m))
    ensures Runs(pace, more, at, Full(pace.cfg, at, prior, n + 1, m - 1))
  {
    var joined := Joined(pace.cfg, at, prior, n, m);
    FullAdds(pace, at, prior, n, m);
    FullRenews(pace, at, prior, n, m);
    more := OneMore(pace, tr, at, Full(pace.cfg, at, prior, n, m), Add(m - 1, at), at, joined);
    more := OneMore(pace, more, at, joined, Renew(m - 1, at), at, Full(pace.cfg, at, prior, n + 1, m - 1));
  }

  /** Every pending call adds its entry. */
  lemma {:induction false} Drain(pace: Pace, tr: Trace, at: real, prior: seq<real>, n: nat, m: nat)
    returns (more: Trace)
    requires Usable(pace) && m <= pace.p && Runs(pace, tr, at, Full(pace.cfg, at, prior, n, m))
    ensures Runs(pace, more, at, Full(pace.cfg, at, prior, n + m, 0))
    decreases m
  {
    more := tr;
    if m > 0 {
      more := StoreOne(pace, tr, at, prior, n, m);
      more := Drain(pace, more, at, prior, n + 1, m - 1);
    }
  }

  lemma {:induction false} Fill(pace: Pace, tr: Trace, at: real, prior: seq<real>, n: nat)
    returns (more: Trace)
    requires Usable(pace) && n <= pace.cfg.maxRequests && Runs(pace, tr, at, Full(pace.cfg, at, prior, 0, 0))
    ensures Runs(pace, more, at, Full(pace.cfg, at, prior, n, 0))
  {
    more := tr;
    if n > 0 {
      more := Fill(pace, more, at, prior, n - 1);
      more := Admit(pace, more, at, prior, n - 1, 0);
      more := Drain(pace, more, at, prior, n - 1, 1);
    }
  }

  lemma {:induction false} Burst(pace: Pace, tr: Trace, at: real, prior: seq<real>, n: nat, m: nat)
    returns (more: Trace)
    requires Usable(pace) && n < pace.cfg.maxRequests && m <= pace.p
    requires Runs(pace, tr, at, Full(pace.cfg, at, prior, n, 0))
    ensures Runs(pace, more, at, Full(pace.cfg, at, prior, n, m))
  {
    more := tr;
    if m > 0 {
      more := Burst(pace, more, at, prior, n, m - 1);
      more := Admit(pace, more, at, prior, n, m - 1);
    }
  }

  /** As many entries stored at one time as the bound allows. */
  lemma Overfill(pace: Pace, tr: Trace, at: real, prior: seq<real>) returns (more: Trace)
    requires Usable(pace) && Runs(pace, tr, at, Full(pace.cfg, at, prior, 0, 0))
    ensures Runs(pace, more, at, Full(pace.cfg, at, prior, pace.cfg.maxRequests + pace.p - 1, 0))
  {
    more := Fill(pace, tr, at, prior, pace.cfg.maxRequests - 1);
    more := Burst(pace, more, at, prior, pace.cfg.maxRequests - 1, pace.p);
    more := Drain(pace, more, at, prior, pace.cfg.maxRequests - 1, pace.p);
  }

  lemma Empty(pace: Pace)
    ensures Runs(pace, Begun, 0.0, Full(pace.cfg, 0.0, [], 0, 0))
  {
  }

  lemma WholeWindow(cfg: Limit, n: nat)
    requires cfg.window >= 1
    ensures |InWindow([] + Copies(0.0, n), cfg, 0.0)| == n
  {
    CopiesInWindow([], 0.0, n, cfg, 0.0);
  }

  /** For every maximum and every number of concurrent calls there is a run, with every command at
      the very time of its call's reading, that adds max + k - 1 entries to one window. */
  lemma ConcurrentBoundIsAttained(cfg: Limit, k: nat) returns (steps: seq<Step>)
    requires cfg.window >= 1 && cfg.maxRequests >= 1 && k >= 1
    ensures Exec(cfg, 0.0, steps).Some? && Crowd(cfg, 0.0, steps, k) && Steady(cfg, 0.0, steps, 0.0, 0.0, 0.0)
    ensures |InWindow(Exec(cfg, 0.0, steps).value.added, cfg, 0.0)| == cfg.maxRequests + k - 1
  {
    var pace, n := Pace(cfg, k, 1, 0, 0.0, 0.0, 0.0), cfg.maxRequests + k - 1;
    Empty(pace);
    var tr := Overfill(pace, Begun, 0.0, []);
    WholeWindow(cfg, n);
    steps := Realized(pace, tr, 0.0, n);
  }

  // ----- one call that counts late -----

  /** The reading of a call that counts `delay` later, just when the entries of time zero expire. */
  function LateReading(cfg: Limit, delay: real): real {
    if delay <= Span(cfg) then Span(cfg) - delay else 0.0
  }

  /** No entry is left; call 0 has evicted and so have `others`. */
  function Alone(at: real, added: seq<real>, ts: real, others: map<nat, real>): Race {
    Race(EMPTY, at, others[0 := ts], IdsOf(others) + {0}, map[], map[], added)
  }

  lemma LateStarts(pace: Pace, n: nat, ts: real)
    requires Usable(pace) && ts >= 0.0
    ensures var s := Full(pace.cfg, 0.0, [], n, 0);
      Paced(pace, 0.0, s, Start(0, ts), 0.0, s.(clock := ts, waiting := map[0 := ts]))
  {
    OneCall(0, ts);
  }

  lemma LateClears(pace: Pace, n: nat, ts: real, at: real)
    requires Usable(pace) && n > 0 && 0.0 <= ts && Later(ts, Span(pace.cfg)) <= at
    ensures var s, added := Full(pace.cfg, 0.0, [], n, 0), Copies(0.0, n);
      Paced(pace, 0.0, s.(clock := ts, waiting := map[0 := ts]), Clear(0, at), ts,
            Alone(at, added, ts, map[]))
  {
    OneCall(0, ts);
    assert IdsOf(map[]) == {};
    assert [] + Copies(0.0, n) == Copies(0.0, n);
  }

  function AloneCounted(at: real, added: seq<real>, ts: real, others: map<nat, real>): Race {
    Race(EMPTY, at, others, IdsOf(others), map[0 := ts], map[], added)
  }

  /** A call that finds no entry is admitted and adds its own. */
  lemma AloneCounts(pace: Pace, at: real, added: seq<real>, ts: real, others: map<nat, real>, h: real)
    requires Usable(pace) && h - pace.slack <= ts && at <= ts + pace.count
    requires 0 !in others && |IdsOf(others)| <= pace.u
    ensures Paced(pace, h, Alone(at, added, ts, others), Count(0, at), h, AloneCounted(at, added, ts, others))
  {
    OneCall(0, ts);
    assert others[0 := ts] - {0} == others;
    assert IdsOf(others) + {0} - {0} == IdsOf(others);
  }

  function AloneStored(at: real, added: seq<real>, ts: real, others: map<nat, real>): Race {
    Race(ZSet([ts], None), at, others, IdsOf(others), map[], map[0 := ts], added + [ts])
  }

  lemma AloneAdds(pace: Pace, at: real, added: seq<real>, ts: real, others: map<nat, real>, h: real)
    requires Usable(pace) && |IdsOf(others)| <= pace.u
    ensures Paced(pace, h, AloneCounted(at, added, ts, others), Add(0, at), h, AloneStored(at, added, ts, others))
  {
    OneCall(0, ts);
    assert Insert([], ts) == [ts];
  }

  lemma AloneIsAdmitted(pace: Pace, tr: Trace, at: real, added: seq<real>, ts: real, others: map<nat, real>,
      h: real) returns (more: Trace)
    requires Usable(pace) && h - pace.slack <= ts && at <= ts + pace.count
    requires 0 !in others && |IdsOf(others)| <= pace.u && Runs(pace, tr, h, Alone(at, added, ts, others))
    ensures Runs(pace, more, h, AloneStored(at, added, ts, others))
  {
    var counted := AloneCounted(at, added, ts, others);
    AloneCounts(pace, at, added, ts, others, h);
    AloneAdds(pace, at, added, ts, others, h);
    more := OneMore(pace, tr, h, Alone(at, added, ts, others), Count(0, at), h, counted);
    more := OneMore(pace, more, h, counted, Add(0, at), h, AloneStored(at, added, ts, others));
  }

  lemma RunsLate(pace: Pace, tr: Trace, n: nat) returns (more: Trace)
    requires Usable(pace) && pace.count > 1.0 && n > 0 && Runs(pace, tr, 0.0, Full(pace.cfg, 0.0, [], n, 0))
    ensures var ts := LateReading(pace.cfg, pace.count);
      Runs(pace, more, ts, AloneStored(ts + pace.count, Copies(0.0, n), ts, map[]))
  {
    var ts, s := LateReading(pace.cfg, pace.count), Full(pace.cfg, 0.0, [], n, 0);
    var at, started := ts + pace.count, s.(clock := ts, waiting := map[0 := ts]);
    var cleared := Alone(at, Copies(0.0, n), ts, map[]);
    NoCall();
    LateStarts(pace, n, ts);
    LateClears(pace, n, ts, at);
    more := OneMore(pace, tr, 0.0, s, Start(0, ts), 0.0, started);
    more := OneMore(pace, more, 0.0, started, Clear(0, at), ts, cleared);
    more := AloneIsAdmitted(pace, more, at, Copies(0.0, n), ts, map[], ts);
  }

  lemma OneMoreInWindow(x: real, n: nat, y: real, cfg: Limit, t: real)
    requires Inside(x, cfg, t) && Inside(y, cfg, t)
    ensures |InWindow(Copies(x, n) + [y], cfg, t)| == n + 1
  {
    CopiesInWindow([], x, n, cfg, t);
    assert [] + Copies(x, n) == Copies(x, n);
    TallyOneMore(Copies(x, n), y, cfg, t);
  }

  /** Any delay above one second overshoots, with everything in the order of the readings and a
      single call delayed: the entries of its window expire before it looks. */
  lemma DelayOvershoots(cfg: Limit, k: nat, delay: real) returns (steps: seq<Step>, t: real)
    requires cfg.window >= 1 && cfg.maxRequests >= 1 && k >= 1 && delay > 1.0
    ensures Exec(cfg, 0.0, steps).Some? && Crowd(cfg, 0.0, steps, k) && Steady(cfg, 0.0, steps, 0.0, delay, 0.0)
    ensures |InWindow(Exec(cfg, 0.0, steps).value.added, cfg, t)| == cfg.maxRequests + k
  {
    var pace, n := Pace(cfg, k, 1, 0, 0.0, delay, 0.0), cfg.maxRequests + k - 1;
    t := LateReading(cfg, delay);
    Empty(pace);
    var tr := Overfill(pace, Begun, 0.0, []);
    tr := RunsLate(pace, tr, n);
    OneMoreInWindow(0.0, n, t, cfg, t);
    steps := Realized(pace, tr, t, n + 1);
  }

  // ----- two calls swapped -----

  /** The later reading of two calls `gap` apart, at which every entry of time zero has aged out. */
  function SwapReading(cfg: Limit, gap: real): real {
    Later(cfg.window as real, gap)
  }

  lemma SecondStarts(pace: Pace, n: nat, x: real, y: real)
    requires Usable(pace) && pace.u >= 2 && x < y
    ensures var s := Full(pace.cfg, 0.0, [], n, 0);
      Paced(pace, 0.0, s.(clock := x, waiting := map[0 := x]), Start(1, y), 0.0,
            s.(clock := y, waiting := map[0 := x, 1 := y]))
  {
    TwoCalls(x, y);
    NoCall();
  }

  lemma FullIsAged(cfg: Limit, n: nat, y: real)
    requires cfg.window as real <= y
    ensures Evict(Alive(Full(cfg, 0.0, [], n, 0).zset, y), y - cfg.window as real) == EMPTY
  {
    CopiesNewer(0.0, n, y - cfg.window as real);
  }

  /** The state after the later of two calls evicted first. */
  function Overtaken(y: real, added: seq<real>, x: real): Race {
    Race(EMPTY, y, map[0 := x, 1 := y], {1}, map[], map[], added)
  }

  /** An eviction after which no entry is left. */
  lemma ClearsAll(pace: Pace, s: Race, id: nat, at: real, h: real)
    requires id in s.waiting && id !in s.cleared && s.expiring == map[] && s.clock <= at && h <= s.waiting[id]
    requires |IdsOf(s.pending)| <= pace.p && |IdsOf(s.waiting)| <= pace.u
    requires Evict(Alive(s.zset, at), s.waiting[id] - pace.cfg.window as real) == EMPTY
    ensures Paced(pace, h, s, Clear(id, at), s.waiting[id],
                  s.(clock := at, zset := EMPTY, cleared := s.cleared + {id}))
  {
    NoCall();
  }

  lemma SecondClears(pace: Pace, n: nat, x: real, y: real)
    requires Usable(pace) && pace.u >= 2 && 0.0 <= x < y && pace.cfg.window as real <= y
    ensures Paced(pace, 0.0, Full(pace.cfg, 0.0, [], n, 0).(clock := y, waiting := map[0 := x, 1 := y]), Clear(1, y), y,
                  Overtaken(y, Copies(0.0, n), x))
  {
    var s := Full(pace.cfg, 0.0, [], n, 0).(clock := y, waiting := map[0 := x, 1 := y]);
    TwoCalls(x, y);
    NoCall();
    FullIsAged(pace.cfg, n, y);
    assert s.cleared + {1} == {1};
    assert s.added == Copies(0.0, n);
    ClearsAll(pace, s, 1, y, 0.0);
  }

  lemma FirstClears(pace: Pace, added: seq<real>, x: real, y: real)
    requires Usable(pace) && pace.u >= 2 && x < y
    ensures Paced(pace, y, Overtaken(y, added, x), Clear(0, y), y, Alone(y, added, x, map[1 := y]))
  {
    TwoCalls(x, y);
    NoCall();
    assert map[1 := y][0 := x] == map[0 := x, 1 := y];
    assert IdsOf(map[1 := y]) == {1};
  }

  lemma Overtake(pace: Pace, tr: Trace, n: nat, x: real, y: real) returns (more: Trace)
    requires Usable(pace) && pace.u >= 2 && 0.0 <= x < y && pace.cfg.window as real <= y
    requires Runs(pace, tr, 0.0, Full(pace.cfg, 0.0, [], n, 0))
    ensures Runs(pace, more, y, Alone(y, Copies(0.0, n), x, map[1 := y]))
  {
    var s, added := Full(pace.cfg, 0.0, [], n, 0), Copies(0.0, n);
    var s1 := s.(clock := x, waiting := map[0 := x]);
    var s2 := s.(clock := y, waiting := map[0 := x, 1 := y]);
    LateStarts(pace, n, x);
    SecondStarts(pace, n, x, y);
    SecondClears(pace, n, x, y);
    FirstClears(pace, added, x, y);
    more := OneMore(pace, tr, 0.0, s, Start(0, x), 0.0, s1);
    more := OneMore(pace, more, 0.0, s1, Start(1, y), 0.0, s2);
    more := OneMore(pace, more, 0.0, s2, Clear(1, y), y, Overtaken(y, added, x));
    more := OneMore(pace, more, y, Overtaken(y, added, x), Clear(0, y), y, Alone(y, added, x, map[1 := y]));
  }

  /** Any swap overshoots, however close the two readings: the call that read later evicts entries
      that the window of the earlier one still contains, before that one counts. */
  lemma SwapOvershoots(cfg: Limit, k: nat, gap: real) returns (steps: seq<Step>, t: real)
    requires cfg.window >= 1 && cfg.maxRequests >= 1 && k >= 1 && gap > 0.0
    ensures Exec(cfg, 0.0, steps).Some? && Crowd(cfg, 0.0, steps, k) && Steady(cfg, 0.0, steps, gap, gap, 0.0)
    ensures |InWindow(Exec(cfg, 0.0, steps).value.added, cfg, t)| == cfg.maxRequests + k
  {
    var pace, n, y := Pace(cfg, k, 2, 0, gap, gap, 0.0), cfg.maxRequests + k - 1, SwapReading(cfg, gap);
    t := y - gap;
    Empty(pace);
    OneCall(1, y);
    var tr := Overfill(pace, Begun, 0.0, []);
    tr := Overtake(pace, tr, n, t, y);
    tr := AloneIsAdmitted(pace, tr, y, Copies(0.0, n), t, map[1 := y], y);
    OneMoreInWindow(0.0, n, t, cfg, t);
    steps := Realized(pace, tr, t, n + 1);
  }

  // ----- one renewal that comes late -----

  /** The reading of a call whose renewal comes between one and two seconds later, just when the
      entry of time zero expires. */
  function StragglerReading(cfg: Limit, delay: real): real {
    Span(cfg) - if delay < 1.5 then delay else 1.5
  }

  /** One entry stored at time zero, one call past its eviction, count or add. */
  function Straggling(cfg: Limit, ts: real): Race {
    Full(cfg, 0.0, [], 1, 0).(clock := ts)
  }

  lemma StragglerLooks(pace: Pace, ts: real)
    requires Usable(pace) && 0.0 <= ts < pace.cfg.window as real
    ensures var s := Straggling(pace.cfg, ts);
      && Paced(pace, 0.0, Full(pace.cfg, 0.0, [], 1, 0), Start(0, ts), 0.0, s.(waiting := map[0 := ts]))
      && Paced(pace, 0.0, s.(waiting := map[0 := ts]), Clear(0, ts), ts, s.(waiting := map[0 := ts], cleared := {0}))
  {
    OneCall(0, ts);
    CopiesNewer(0.0, 1, ts - pace.cfg.window as real);
  }

  lemma StragglerCounts(pace: Pace, ts: real)
    requires Usable(pace) && pace.cfg.maxRequests >= 2 && 0.0 <= ts < pace.cfg.window as real
    ensures var s := Straggling(pace.cfg, ts);
      Paced(pace, ts, s.(waiting := map[0 := ts], cleared := {0}), Count(0, ts), ts, s.(pending := map[0 := ts]))
  {
    OneCall(0, ts);
    var s := Straggling(pace.cfg, ts).(waiting := map[0 := ts], cleared := {0});
    assert Moment(s, Count(0, ts)) == s && |s.zset.scores| == 1;
    assert s.pending[0 := ts] == map[0 := ts];
    assert Counted(s, pace.cfg, 0) == Straggling(pace.cfg, ts).(pending := map[0 := ts]);
  }

  function Exposing(cfg: Limit, ts: real): Race {
    Race(ZSet([0.0, ts], Some(Span(cfg))), ts, map[], {}, map[], map[0 := ts], [0.0, ts])
  }

  lemma StragglerAdds(pace: Pace, ts: real)
    requires Usable(pace) && 0.0 <= ts < pace.cfg.window as real
    ensures Paced(pace, ts, Straggling(pace.cfg, ts).(pending := map[0 := ts]), Add(0, ts), ts,
                  Exposing(pace.cfg, ts))
  {
    OneCall(0, ts);
    var s := Straggling(pace.cfg, ts).(pending := map[0 := ts]);
    assert Copies(0.0, 1) == [0.0] && [] + [0.0] == [0.0];
    InsertAtEnd([0.0], ts);
    assert Moment(s, Add(0, ts)) == s && s.zset == ZSet([0.0], Some(Span(pace.cfg)));
    assert s.expiring[0 := ts] == map[0 := ts] && s.added + [ts] == [0.0, ts];
    assert Stored(s, 0) == Exposing(pace.cfg, ts);
    NoCall();
  }

  lemma StragglerRenews(pace: Pace, ts: real)
    requires Usable(pace) && pace.x >= 1 && ts <= Span(pace.cfg) <= ts + pace.renew
    ensures Paced(pace, ts, Exposing(pace.cfg, ts), Renew(0, Span(pace.cfg)), Span(pace.cfg),
                  Full(pace.cfg, Span(pace.cfg), [0.0, ts], 0, 0))
  {
    OneCall(0, ts);
    assert [0.0, ts] + Copies(Span(pace.cfg), 0) == [0.0, ts];
  }

  lemma Straggle(pace: Pace, tr: Trace, ts: real) returns (more: Trace)
    requires Usable(pace) && pace.cfg.maxRequests >= 2 && pace.x >= 1
    requires 0.0 <= ts < pace.cfg.window as real && Span(pace.cfg) <= ts + pace.renew
    requires Runs(pace, tr, 0.0, Full(pace.cfg, 0.0, [], 1, 0))
    ensures Runs(pace, more, Span(pace.cfg), Full(pace.cfg, Span(pace.cfg), [0.0, ts], 0, 0))
  {
    var cfg, s := pace.cfg, Straggling(pace.cfg, ts);
    var end := Span(cfg);
    StragglerLooks(pace, ts);
    StragglerCounts(pace, ts);
    StragglerAdds(pace, ts);
    StragglerRenews(pace, ts);
    more := OneMore(pace, tr, 0.0, Full(cfg, 0.0, [], 1, 0), Start(0, ts), 0.0, s.(waiting := map[0 := ts]));
    more := OneMore(pace, more, 0.0, s.(waiting := map[0 := ts]), Clear(0, ts), ts,
                    s.(waiting := map[0 := ts], cleared := {0}));
    more := OneMore(pace, more, ts, s.(waiting := map[0 := ts], cleared := {0}), Count(0, ts), ts,
                    s.(pending := map[0 := ts]));
    more := OneMore(pace, more, ts, s.(pending := map[0 := ts]), Add(0, ts), ts, Exposing(cfg, ts));
    more := OneMore(pace, more, ts, Exposing(cfg, ts), Renew(0, end), end, Full(cfg, end, [0.0, ts], 0, 0));
  }

  lemma StragglerInWindow(cfg: Limit, ts: real, n: nat)
    requires cfg.window > 0 && 1.0 < ts <= Span(cfg)
    ensures |InWindow([0.0, ts] + Copies(Span(cfg), n), cfg, Span(cfg))| == n + 1
  {
    CopiesInWindow([0.0, ts], Span(cfg), n, cfg, Span(cfg));
    TallyOneMore([0.0], ts, cfg, Span(cfg));
    TallyOneMore([], 0.0, cfg, Span(cfg));
    assert [0.0] + [ts] == [0.0, ts] && [] + [0.0] == [0.0];
  }

  lemma RunsStraggling(pace: Pace, ts: real) returns (tr: Trace)
    requires Usable(pace) && pace.cfg.maxRequests >= 2 && pace.x >= 1
    requires 0.0 <= ts < pace.cfg.window as real && Span(pace.cfg) <= ts + pace.renew
    ensures Good(pace, tr)
    ensures Now(tr).added == [0.0, ts] + Copies(Span(pace.cfg), pace.cfg.maxRequests + pace.p - 1)
  {
    Empty(pace);
    tr := Fill(pace, Begun, 0.0, [], 1);
    tr := Straggle(pace, tr, ts);
    tr := Overfill(pace, tr, Span(pace.cfg), [0.0, ts]);
  }

  /** With every call counting at the very time of its reading, one renewal more than a second after
      its own overshoots: the key expires between add and renewal, and a fresh entry is lost. */
  lemma LateRenewalOvershoots(cfg: Limit, k: nat, delay: real) returns (steps: seq<Step>, t: real)
    requires cfg.window >= 2 && cfg.maxRequests >= 2 && k >= 1 && delay > 1.0
    ensures Exec(cfg, 0.0, steps).Some? && Crowd(cfg, 0.0, steps, k) && Exposed(cfg, 0.0, steps, 1)
    ensures Steady(cfg, 0.0, steps, 0.0, 0.0, delay)
    ensures |InWindow(Exec(cfg, 0.0, steps).value.added, cfg, t)| == cfg.maxRequests + k
  {
    var pace, ts := Pace(cfg, k, 1, 1, 0.0, 0.0, delay), StragglerReading(cfg, delay);
    t := Span(cfg);
    var tr := RunsStraggling(pace, ts);
    StragglerInWindow(cfg, ts, cfg.maxRequests + k - 1);
    steps := Realized(pace, tr, t, cfg.maxRequests + k);
  }

  // ----- the exact condition -----

  /** Whether max + k - 1 bounds every window of every run at that pace. */
  ghost predicate Safe(cfg: Limit, k: nat, slack: real, count: real, renew: real) {
    forall start: real, steps: seq<Step>, t: real ::
      Exec(cfg, start, steps).Some? && Crowd(cfg, start, steps, k) && Steady(cfg, start, steps, slack, count, renew) ==>
        |InWindow(Exec(cfg, start, steps).value.added, cfg, t)| <= cfg.maxRequests + k - 1
  }

  lemma PromptLoosens(calls: map<nat, real>, at: real, delay: real, delay': real)
    requires Prompt(calls, at, delay) && delay <= delay'
    ensures Prompt(calls, at, delay')
  {
    forall id: nat ensures OnTime(calls, id, at, delay') {
      assert OnTime(calls, id, at, delay);
    }
  }

  lemma {:induction false} SteadyLoosens(cfg: Limit, start: real, steps: seq<Step>, slack: real, count: real,
      renew: real, slack': real, count': real, renew': real)
    requires Steady(cfg, start, steps, slack, count, renew) && slack <= slack' && count <= count' && renew <= renew'
    ensures Steady(cfg, start, steps, slack', count', renew')
  {
    if steps != [] {
      var before := steps[..|steps| - 1];
      SteadyLoosens(cfg, start, before, slack, count, renew, slack', count', renew');
      if Exec(cfg, start, before).Some? {
        PromptLoosens(Exec(cfg, start, before).value.expiring, steps[|steps| - 1].at, renew, renew');
      }
    }
  }

  predicate Orderly(slack: real, count: real) {
    count == 0.0 || (count <= 1.0 && slack == 0.0)
  }

  lemma SafePaces(cfg: Limit, k: nat, slack: real, count: real, renew: real)
    requires cfg.maxRequests >= 1 && Orderly(slack, count) && renew <= 1.0
    ensures Safe(cfg, k, slack, count, renew)
  {
    forall start: real, steps: seq<Step>, t: real
      | Exec(cfg, start, steps).Some? && Crowd(cfg, start, steps, k) && Steady(cfg, start, steps, slack, count, renew)
      ensures |InWindow(Exec(cfg, start, steps).value.added, cfg, t)| <= cfg.maxRequests + k - 1
    {
      if count == 0.0 {
        PromptIsOrdered(cfg, start, steps, slack, renew);
      }
      SteadyLoosens(cfg, start, steps, 0.0, count, renew, 0.0, 1.0, 1.0);
      ConcurrentBound(cfg, start, steps, k, t);
    }
  }

  lemma UnsafePaces(cfg: Limit, k: nat, slack: real, count: real, renew: real)
    requires cfg.window >= 1 && cfg.maxRequests >= 1 && k >= 1 && slack >= 0.0 && count >= 0.0 && renew >= 0.0
    requires !Orderly(slack, count)
    ensures !Safe(cfg, k, slack, count, renew)
  {
    var steps, t;
    if count > 1.0 {
      steps, t := DelayOvershoots(cfg, k, count);
      SteadyLoosens(cfg, 0.0, steps, 0.0, count, 0.0, slack, count, renew);
    } else {
      var gap := if slack < count then slack else count;
      steps, t := SwapOvershoots(cfg, k, gap);
      SteadyLoosens(cfg, 0.0, steps, gap, gap, 0.0, slack, count, renew);
    }
  }

  /** If every command of a call has one and the same deadline, the bound max + k - 1 holds exactly when
      all of them execute at the very time of the reading, or at most one second later with no eviction
      overtaking an earlier call's count. */
  lemma ConcurrentBoundIsExact(cfg: Limit, k: nat, slack: real, delay: real)
    requires cfg.window >= 1 && cfg.maxRequests >= 1 && k >= 1 && slack >= 0.0 && delay >= 0.0
    ensures Safe(cfg, k, slack, delay, delay) <==> delay == 0.0 || (delay <= 1.0 && slack == 0.0)
  {
    if Orderly(slack, delay) {
      SafePaces(cfg, k, slack, delay, delay);
    } else {
      UnsafePaces(cfg, k, slack, delay, delay);
    }
  }

  /** With deadlines of their own for counts and renewals, and at least two requests in at least two
      seconds, the renewals must come within a second as well, however prompt the counts are. */
  lemma DeadlinesAreExact(cfg: Limit, k: nat, slack: real, count: real, renew: real)
    requires cfg.window >= 2 && cfg.maxRequests >= 2 && k >= 1 && slack >= 0.0 && count >= 0.0 && renew >= 0.0
    ensures Safe(cfg, k, slack, count, renew)
      <==> (count == 0.0 || (count <= 1.0 && slack == 0.0)) && renew <= 1.0
  {
    if !Orderly(slack, count) {
      UnsafePaces(cfg, k, slack, count, renew);
    } else if renew <= 1.0 {
      SafePaces(cfg, k, slack, count, renew);
    } else {
      var steps, t := LateRenewalOvershoots(cfg, k, renew);
      SteadyLoosens(cfg, 0.0, steps, 0.0, 0.0, renew, slack, count, renew);
    }
  }

  // ----- many calls stalled -----

  /** `j` spans of the key's expiry. */
  function Spans(cfg: Limit, j: nat): (length: real)
    ensures length >= 0.0
  {
    if j == 0 then 0.0 else Spans(cfg, j - 1) + Span(cfg)
  }

  /** `j` calls waiting since time zero, `n` entries added, the last expiring a span later. */
  function Stalled(cfg: Limit, at: real, scores: seq<real>, j: nat, n: nat): Race {
    Race(ZSet(scores, Some(at + Span(cfg))), at, CallsAt(0.0, j), {}, map[], map[], Copies(0.0, n))
  }

  lemma {:induction false} Gather(pace: Pace, tr: Trace, scores: seq<real>, n: nat, j: nat)
    returns (more: Trace)
    requires Usable(pace) && j <= pace.u && Runs(pace, tr, 0.0, Stalled(pace.cfg, 0.0, scores, 0, n))
    ensures Runs(pace, more, 0.0, Stalled(pace.cfg, 0.0, scores, j, n))
  {
    more := tr;
    if j > 0 {
      more := Gather(pace, more, scores, n, j - 1);
      OneMoreStalls(pace, scores, j - 1, n);
      more := OneMore(pace, more, 0.0, Stalled(pace.cfg, 0.0, scores, j - 1, n), Start(j - 1, 0.0), 0.0,
                      Stalled(pace.cfg, 0.0, scores, j, n));
    }
  }

  lemma OneMoreStalls(pace: Pace, scores: seq<real>, j: nat, n: nat)
    requires Usable(pace) && j < pace.u
    ensures Paced(pace, 0.0, Stalled(pace.cfg, 0.0, scores, j, n), Start(j, 0.0), 0.0,
                  Stalled(pace.cfg, 0.0, scores, j + 1, n))
  {
    CallsAtMeaning(0.0, j);
    CallsAtMeaning(0.0, j + 1);
    NoCall();
  }

  /** One of `j` stalled calls at work, all entries having expired. */
  function Working(at: real, j: nat, n: nat): Race
    requires j > 0
  {
    Race(EMPTY, at, CallsAt(0.0, j), {j - 1}, map[], map[], Copies(0.0, n))
  }

  lemma StalledClears(pace: Pace, at: real, scores: seq<real>, j: nat, n: nat)
    requires Usable(pace) && 0 < j <= pace.u
    ensures Paced(pace, 0.0, Stalled(pace.cfg, at, scores, j, n), Clear(j - 1, at + Span(pace.cfg)), 0.0,
                  Working(at + Span(pace.cfg), j, n))
  {
    CallsAtMeaning(0.0, j);
    NoCall();
  }

  lemma StalledCounts(pace: Pace, at: real, j: nat, n: nat)
    requires Usable(pace) && 0 < j <= pace.u && at <= pace.count
    ensures Paced(pace, 0.0, Working(at, j, n), Count(j - 1, at), 0.0,
                  Race(EMPTY, at, CallsAt(0.0, j - 1), {}, map[j - 1 := 0.0], map[], Copies(0.0, n)))
  {
    CallsAtMeaning(0.0, j);
    CallsAtMeaning(0.0, j - 1);
    OneCall(j - 1, 0.0);
  }

  lemma StalledAdds(pace: Pace, at: real, j: nat, n: nat)
    requires Usable(pace) && 0 < j <= pace.u
    ensures Paced(pace, 0.0, Race(EMPTY, at, CallsAt(0.0, j - 1), {}, map[j - 1 := 0.0], map[], Copies(0.0, n)),
                  Add(j - 1, at), 0.0,
                  Race(ZSet([0.0], None), at, CallsAt(0.0, j - 1), {}, map[], map[j - 1 := 0.0], Copies(0.0, n + 1)))
  {
    CallsAtMeaning(0.0, j - 1);
    OneCall(j - 1, 0.0);
    assert Insert([], 0.0) == [0.0];
  }

  lemma StalledRenews(pace: Pace, at: real, j: nat, n: nat)
    requires Usable(pace) && 0 < j <= pace.u && at <= pace.renew
    ensures Paced(pace, 0.0,
                  Race(ZSet([0.0], None), at, CallsAt(0.0, j - 1), {}, map[], map[j - 1 := 0.0], Copies(0.0, n + 1)),
                  Renew(j - 1, at), 0.0, Stalled(pace.cfg, at, [0.0], j - 1, n + 1))
  {
    CallsAtMeaning(0.0, j - 1);
    OneCall(j - 1, 0.0);
  }

  /** The next stalled call counts, adds and renews when the entries before it have expired. */
  lemma ReleaseOne(pace: Pace, tr: Trace, at: real, scores: seq<real>, j: nat, n: nat)
    returns (more: Trace)
    requires Usable(pace) && 0 < j <= pace.u
    requires at + Span(pace.cfg) <= pace.count && at + Span(pace.cfg) <= pace.renew
    requires Runs(pace, tr, 0.0, Stalled(pace.cfg, at, scores, j, n))
    ensures Runs(pace, more, 0.0, Stalled(pace.cfg, at + Span(pace.cfg), [0.0], j - 1, n + 1))
  {
    var end := at + Span(pace.cfg);
    var counted := Race(EMPTY, end, CallsAt(0.0, j - 1), {}, map[j - 1 := 0.0], map[], Copies(0.0, n));
    var stored :=
      Race(ZSet([0.0], None), end, CallsAt(0.0, j - 1), {}, map[], map[j - 1 := 0.0], Copies(0.0, n + 1));
    StalledClears(pace, at, scores, j, n);
    StalledCounts(pace, end, j, n);
    StalledAdds(pace, end, j, n);
    StalledRenews(pace, end, j, n);
    more := OneMore(pace, tr, 0.0, Stalled(pace.cfg, at, scores, j, n), Clear(j - 1, end), 0.0, Working(end, j, n));
    more := OneMore(pace, more, 0.0, Working(end, j, n), Count(j - 1, end), 0.0, counted);
    more := OneMore(pace, more, 0.0, counted, Add(j - 1, end), 0.0, stored);
    more := OneMore(pace, more, 0.0, stored, Renew(j - 1, end), 0.0, Stalled(pace.cfg, end, [0.0], j - 1, n + 1));
  }

  lemma {:induction false} Release(pace: Pace, tr: Trace, at: real, scores: seq<real>, j: nat, n: nat)
    returns (more: Trace, after: Race)
    requires Usable(pace) && j <= pace.u
    requires at + Spans(pace.cfg, j) <= pace.count && at + Spans(pace.cfg, j) <= pace.renew
    requires Runs(pace, tr, 0.0, Stalled(pace.cfg, at, scores, j, n))
    ensures Runs(pace, more, 0.0, after) && after.added == Copies(0.0, n + j)
    decreases j
  {
    more, after := tr, Stalled(pace.cfg, at, scores, j, n);
    if j > 0 {
      more := ReleaseOne(pace, tr, at, scores, j, n);
      more, after := Release(pace, more, at + Span(pace.cfg), [0.0], j - 1, n + 1);
    }
  }

  lemma RunsStalled(pace: Pace, n: nat) returns (tr: Trace)
    requires Usable(pace) && n == pace.cfg.maxRequests + pace.p - 1
    ensures Runs(pace, tr, 0.0, Stalled(pace.cfg, 0.0, Copies(0.0, n), pace.u, n))
  {
    Empty(pace);
    tr := Overfill(pace, Begun, 0.0, []);
    assert [] + Copies(0.0, n) == Copies(0.0, n);
    assert Full(pace.cfg, 0.0, [], n, 0) == Stalled(pace.cfg, 0.0, Copies(0.0, n), 0, n);
    tr := Gather(pace, tr, Copies(0.0, n), n, pace.u);
  }

  lemma RunsReleased(pace: Pace) returns (tr: Trace)
    requires Usable(pace) && Spans(pace.cfg, pace.u) <= pace.count && Spans(pace.cfg, pace.u) <= pace.renew
    ensures Good(pace, tr) && Now(tr).added == [] + Copies(0.0, pace.cfg.maxRequests + pace.p - 1 + pace.u)
  {
    var n := pace.cfg.maxRequests + pace.p - 1;
    tr := RunsStalled(pace, n);
    var after;
    tr, after := Release(pace, tr, 0.0, Copies(0.0, n), pace.u, n);
    assert [] + Copies(0.0, n + pace.u) == Copies(0.0, n + pace.u);
  }

  /** For every maximum, every k and every number of stalled calls there is a run that adds
      max + k - 1 + u entries to one window, with every count in the order of the readings and no
      entry lost between add and renewal. */
  lemma StalledBoundIsAttained(cfg: Limit, k: nat, u: nat) returns (steps: seq<Step>)
    requires cfg.window >= 1 && cfg.maxRequests >= 1 && k >= 1 && u >= 1
    ensures Exec(cfg, 0.0, steps).Some? && Crowd(cfg, 0.0, steps, k) && Stalls(cfg, 0.0, steps, u)
    ensures Exposed(cfg, 0.0, steps, 0) && Steady(cfg, 0.0, steps, 0.0, Spans(cfg, u), Spans(cfg, u))
    ensures |InWindow(Exec(cfg, 0.0, steps).value.added, cfg, 0.0)| == cfg.maxRequests + k - 1 + u
  {
    var pace := Pace(cfg, k, u, 0, 0.0, Spans(cfg, u), Spans(cfg, u));
    var tr := RunsReleased(pace);
    WholeWindow(cfg, cfg.maxRequests + k - 1 + u);
    steps := Realized(pace, tr, 0.0, cfg.maxRequests + k - 1 + u);
  }
}
