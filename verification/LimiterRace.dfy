/** Concurrent calls on one key. Reading the clock and every Redis command of a call are separate
    steps, and any number of other calls' steps may fall between them. */
module LimiterRace {
  import opened Wrappers
  import opened SlidingWindow

  /** The key's set; the clock; the calls that read the clock but have not counted yet, and which of
      them have evicted; the admitted calls that have not added their entry yet; the calls that added
      it but have not renewed the key's expiry yet, each with its clock reading; and (a history
      variable) the readings of all entries ever added. A call that dies after its add stays among
      the expiring ones. */
  datatype Race = Race(
    zset: ZSet,
    clock: real,
    waiting: map<nat, real>,
    cleared: set<nat>,
    pending: map<nat, real>,
    expiring: map<nat, real>,
    added: seq<real>
  )

  /** Read the clock; evict; count and decide; add; set the expiry; die before adding anything.
      `at` is when the step executes. */
  datatype Step =
    | Start(id: nat, at: real)
    | Clear(id: nat, at: real)
    | Count(id: nat, at: real)
    | Add(id: nat, at: real)
    | Renew(id: nat, at: real)
    | Leave(id: nat, at: real)

  /** How long the key outlives its last renewal: the window and one second. */
  function Span(cfg: Limit): real {
    (cfg.window + 1) as real
  }

  function Cleared(s: Race, cfg: Limit, id: nat): Race
    requires id in s.waiting
  {
    s.(zset := Evict(s.zset, s.waiting[id] - cfg.window as real), cleared := s.cleared + {id})
  }

  function Counted(s: Race, cfg: Limit, id: nat): Race
    requires id in s.waiting
  {
    var ts := s.waiting[id];
    s.(waiting := s.waiting - {id}, cleared := s.cleared - {id},
       pending := if Allows(s.zset.scores, cfg) then s.pending[id := ts] else s.pending)
  }

  /** `zadd` leaves the expiry of the key as it is. */
  function Stored(s: Race, id: nat): Race
    requires id in s.pending
  {
    var ts := s.pending[id];
    s.(zset := s.zset.(scores := Insert(s.zset.scores, ts)), pending := s.pending - {id},
       expiring := s.expiring[id := ts], added := s.added + [ts])
  }

  /** `expire` does nothing to a missing key. */
  function Renewed(s: Race, cfg: Limit, id: nat): Race {
    s.(zset := if s.zset.scores == [] then EMPTY else s.zset.(expiresAt := Some(s.clock + Span(cfg))),
       expiring := s.expiring - {id})
  }

  /** The state a step finds: a command sees the key gone once its expiry has passed. */
  function Moment(s: Race, step: Step): Race {
    s.(clock := step.at, zset := if step.Start? || step.Leave? then s.zset else Alive(s.zset, step.at))
  }

  function Act(cfg: Limit, s: Race, step: Step): Option<Race> {
    match step
    case Start(id, at) =>
      if id in s.waiting || id in s.pending || id in s.expiring then None
      else Some(s.(waiting := s.waiting[id := at]))
    case Clear(id, _) => if id in s.waiting && id !in s.cleared then Some(Cleared(s, cfg, id)) else None
    case Count(id, _) =>
      if id in s.waiting && id in s.cleared && id !in s.pending then Some(Counted(s, cfg, id)) else None
    case Add(id, _) => if id in s.pending && id !in s.expiring then Some(Stored(s, id)) else None
    case Renew(id, _) => if id in s.expiring then Some(Renewed(s, cfg, id)) else None
    case Leave(id, _) =>
      if id in s.waiting || id in s.pending
      then Some(s.(waiting := s.waiting - {id}, cleared := s.cleared - {id}, pending := s.pending - {id}))
      else None
  }

  function Next(cfg: Limit, s: Race, step: Step): Option<Race> {
    if step.at < s.clock then None else Act(cfg, Moment(s, step), step)
  }

  function Exec(cfg: Limit, start: real, steps: seq<Step>): Option<Race> {
    if steps == [] then Some(Race(EMPTY, start, map[], {}, map[], map[], []))
    else
      var before := Exec(cfg, start, steps[..|steps| - 1]);
      if before.None? then None else Next(cfg, before.value, steps[|steps| - 1])
  }

  function IdsOf(calls: map<nat, real>): set<nat> {
    set id | id in calls
  }

  /** Never more than `p` calls between count and add. */
  ghost predicate Crowd(cfg: Limit, start: real, steps: seq<Step>, p: nat) {
    && (steps != [] ==> Crowd(cfg, start, steps[..|steps| - 1], p))
    && var s := Exec(cfg, start, steps);
       s.Some? ==> |IdsOf(s.value.pending)| <= p
  }

  /** Never more than `u` calls between reading the clock and counting. */
  ghost predicate Stalls(cfg: Limit, start: real, steps: seq<Step>, u: nat) {
    && (steps != [] ==> Stalls(cfg, start, steps[..|steps| - 1], u))
    && var s := Exec(cfg, start, steps);
       s.Some? ==> |IdsOf(s.value.waiting)| <= u
  }

  predicate Expires(s: Race, step: Step) {
    Moment(s, step).zset != s.zset
  }

  /** Never more than `x` calls between add and renewal when the key expires. */
  ghost predicate Exposed(cfg: Limit, start: real, steps: seq<Step>, x: nat) {
    steps != [] ==>
      var before := steps[..|steps| - 1];
      var s := Exec(cfg, start, before);
      && Exposed(cfg, start, before, x)
      && (s.Some? && Expires(s.value, steps[|steps| - 1]) ==> |IdsOf(s.value.expiring)| <= x)
  }

  function Later(a: real, b: real): real {
    if a < b then b else a
  }

  /** The reading a step evicts with, if it does. */
  function ClearedWith(cfg: Limit, start: real, before: seq<Step>, step: Step): Option<real> {
    var s := Exec(cfg, start, before);
    if s.Some? && step.Clear? then Find(s.value.waiting, step.id) else None
  }

  /** The reading a step counts with, if it does. */
  function CountedWith(cfg: Limit, start: real, before: seq<Step>, step: Step): Option<real> {
    var s := Exec(cfg, start, before);
    if s.Some? && step.Count? then Find(s.value.waiting, step.id) else None
  }

  /** The latest reading anything has been evicted with so far. */
  function Horizon(cfg: Limit, start: real, steps: seq<Step>): real {
    if steps == [] then start
    else
      var before := steps[..|steps| - 1];
      var ts := ClearedWith(cfg, start, before, steps[|steps| - 1]);
      var h := Horizon(cfg, start, before);
      if ts.Some? then Later(h, ts.value) else h
  }

  predicate OnTime(calls: map<nat, real>, id: nat, at: real, delay: real) {
    id in calls ==> at <= calls[id] + delay
  }

  /** No call is still to renew the expiry later than `delay` after its reading. */
  ghost predicate Prompt(calls: map<nat, real>, at: real, delay: real) {
    forall id: nat {:trigger OnTime(calls, id, at, delay)} :: OnTime(calls, id, at, delay)
  }

  /** Every call counts at most `count` after its clock reading and, if it adds an entry, renews the
      expiry at most `renew` after it; when it counts, nothing has been evicted with a reading more
      than `slack` later than its own. */
  ghost predicate Steady(cfg: Limit, start: real, steps: seq<Step>, slack: real, count: real, renew: real) {
    steps != [] ==>
      var before, step := steps[..|steps| - 1], steps[|steps| - 1];
      var s, ts := Exec(cfg, start, before), CountedWith(cfg, start, before, step);
      && Steady(cfg, start, before, slack, count, renew)
      && (s.Some? ==> Prompt(s.value.expiring, step.at, renew))
      && (ts.Some? ==> Horizon(cfg, start, before) - slack <= ts.value && step.at <= ts.value + count)
  }

  lemma ExecLonger(cfg: Limit, start: real, steps: seq<Step>, step: Step)
    requires Exec(cfg, start, steps).Some?
    ensures Exec(cfg, start, steps + [step]) == Next(cfg, Exec(cfg, start, steps).value, step)
  {
    assert (steps + [step])[..|steps|] == steps;
  }

  lemma HorizonLonger(cfg: Limit, start: real, steps: seq<Step>, step: Step)
    requires Exec(cfg, start, steps).Some?
    ensures var s, h := Exec(cfg, start, steps).value, Horizon(cfg, start, steps);
      Horizon(cfg, start, steps + [step])
      == if step.Clear? && step.id in s.waiting then Later(h, s.waiting[step.id]) else h
  {
    assert (steps + [step])[..|steps|] == steps;
  }

  // ----- counting in a window -----

  function Tally(s: seq<real>, cfg: Limit, t: real): nat {
    |InWindow(s, cfg, t)|
  }

  predicate Inside(x: real, cfg: Limit, t: real) {
    t - cfg.window as real < x <= t
  }

  function One(x: real, cfg: Limit, t: real): nat {
    if Inside(x, cfg, t) then 1 else 0
  }

  /** The calls whose reading lies in the window ending at `t`. */
  function CallsIn(calls: map<nat, real>, cfg: Limit, t: real): set<nat> {
    set id | id in calls && Inside(calls[id], cfg, t)
  }

  function TallyOf(calls: map<nat, real>, cfg: Limit, t: real): nat {
    |CallsIn(calls, cfg, t)|
  }

  lemma TallyOneMore(s: seq<real>, x: real, cfg: Limit, t: real)
    ensures Tally(s + [x], cfg, t) == Tally(s, cfg, t) + One(x, cfg, t)
  {
    WithinOneMore(s, x, t - cfg.window as real, t);
  }

  lemma CallAdded(calls: map<nat, real>, id: nat, x: real, cfg: Limit, t: real)
    requires id !in calls
    ensures TallyOf(calls[id := x], cfg, t) == TallyOf(calls, cfg, t) + One(x, cfg, t)
    ensures |IdsOf(calls[id := x])| == |IdsOf(calls)| + 1
  {
    var more := CallsIn(calls[id := x], cfg, t);
    assert id !in CallsIn(calls, cfg, t);
    assert IdsOf(calls[id := x]) == IdsOf(calls) + {id};
    assert more == if Inside(x, cfg, t) then CallsIn(calls, cfg, t) + {id} else CallsIn(calls, cfg, t);
  }

  lemma CallRemoved(calls: map<nat, real>, id: nat, cfg: Limit, t: real)
    requires id in calls
    ensures TallyOf(calls, cfg, t) == TallyOf(calls - {id}, cfg, t) + One(calls[id], cfg, t)
    ensures |IdsOf(calls)| == |IdsOf(calls - {id})| + 1
  {
    CallAdded(calls - {id}, id, calls[id], cfg, t);
    assert (calls - {id})[id := calls[id]] == calls;
  }

  lemma CallsAtMostAll(calls: map<nat, real>, cfg: Limit, t: real)
    ensures TallyOf(calls, cfg, t) <= |IdsOf(calls)|
  {
    SubsetIsSmaller(CallsIn(calls, cfg, t), IdsOf(calls));
  }

  lemma {:induction false} SubsetIsSmaller(a: set<nat>, b: set<nat>)
    requires a <= b
    ensures |a| <= |b|
  {
    if a != {} {
      var x :| x in a;
      SubsetIsSmaller(a - {x}, b - {x});
    }
  }

  lemma {:induction false} TallyInsert(s: seq<real>, x: real, cfg: Limit, t: real)
    ensures Tally(Insert(s, x), cfg, t) == Tally(s, cfg, t) + One(x, cfg, t)
    ensures |Insert(s, x)| == |s| + 1
  {
    if s == [] || s[|s| - 1] <= x {
      TallyOneMore(s, x, cfg, t);
    } else {
      var front, last := s[..|s| - 1], s[|s| - 1];
      TallyInsert(front, x, cfg, t);
      TallyOneMore(Insert(front, x), last, cfg, t);
      TallyOneMore(front, last, cfg, t);
      assert s == front + [last];
    }
  }

  lemma {:induction false} TallyNewer(s: seq<real>, cutoff: real, cfg: Limit, t: real)
    requires cutoff <= t - cfg.window as real
    ensures Tally(Newer(s, cutoff), cfg, t) == Tally(s, cfg, t)
  {
    if s != [] {
      var front, last := s[..|s| - 1], s[|s| - 1];
      TallyNewer(front, cutoff, cfg, t);
      TallyOneMore(Newer(front, cutoff), last, cfg, t);
      TallyOneMore(front, last, cfg, t);
      assert s == front + [last];
      if last <= cutoff {
        assert Newer(s, cutoff) == Newer(front, cutoff);
      }
    }
  }

  lemma {:induction false} TallyAtMostLength(s: seq<real>, cfg: Limit, t: real)
    ensures Tally(s, cfg, t) <= |s|
  {
    if s != [] {
      TallyAtMostLength(s[..|s| - 1], cfg, t);
      TallyOneMore(s[..|s| - 1], s[|s| - 1], cfg, t);
      assert s == s[..|s| - 1] + [s[|s| - 1]];
    }
  }

  lemma {:induction false} TallyNone(s: seq<real>, cfg: Limit, t: real)
    requires AllUpTo(s, t - cfg.window as real)
    ensures Tally(s, cfg, t) == 0
  {
    if s != [] {
      TallyNone(s[..|s| - 1], cfg, t);
      TallyOneMore(s[..|s| - 1], s[|s| - 1], cfg, t);
      assert s == s[..|s| - 1] + [s[|s| - 1]];
    }
  }

  // ----- what every interleaving keeps -----

  ghost predicate CallsUpTo(calls: map<nat, real>, t: real) {
    forall id :: id in calls ==> calls[id] <= t
  }

  /** Readings and entries never run ahead of the clock, no empty set is stored, and only waiting calls
      have evicted. */
  ghost predicate Timely(s: Race) {
    && CallsUpTo(s.waiting, s.clock) && CallsUpTo(s.pending, s.clock) && CallsUpTo(s.expiring, s.clock)
    && AllUpTo(s.zset.scores, s.clock) && (s.zset.scores == [] ==> s.zset == EMPTY)
    && forall id :: id in s.cleared ==> id in s.waiting
  }

  /** Stored entries and pending adds together stay below the maximum plus the crowd. */
  ghost predicate Roomy(s: Race, cfg: Limit, p: nat) {
    |s.zset.scores| + |IdsOf(s.pending)| <= cfg.maxRequests + p - 1
  }

  function Above(calls: map<nat, real>, bound: real): set<nat> {
    set id | id in calls && calls[id] > bound
  }

  /** Of the entries that the key does not outlive by a span, each belongs to a call that has yet
      to renew the expiry. */
  ghost predicate Covered(s: Race, cfg: Limit) {
    forall b: real :: CoveredAbove(s, cfg, b)
  }

  ghost predicate CoveredAbove(s: Race, cfg: Limit, b: real) {
    (s.zset.expiresAt.Some? ==> s.zset.expiresAt.value <= b + Span(cfg)) ==>
      |Newer(s.zset.scores, b)| <= |Above(s.expiring, b)|
  }

  lemma {:induction false} InsertUpTo(s: seq<real>, x: real, at: real)
    requires AllUpTo(s, at) && x <= at
    ensures AllUpTo(Insert(s, x), at) && Insert(s, x) != []
  {
    if s != [] && s[|s| - 1] > x {
      InsertUpTo(s[..|s| - 1], x, at);
    }
  }

  lemma {:induction false} NewerInsert(s: seq<real>, x: real, cutoff: real)
    ensures |Newer(Insert(s, x), cutoff)| == |Newer(s, cutoff)| + if x > cutoff then 1 else 0
  {
    if s == [] || s[|s| - 1] <= x {
      NewerOneMore(s, x, cutoff);
    } else {
      var front, last := s[..|s| - 1], s[|s| - 1];
      NewerInsert(front, x, cutoff);
      NewerOneMore(Insert(front, x), last, cutoff);
    }
  }

  /** Evicting first never leaves more above a bound. */
  lemma {:induction false} NewerShrinks(s: seq<real>, c: real, b: real)
    ensures |Newer(Newer(s, c), b)| <= |Newer(s, b)|
  {
    if s != [] {
      var front, last := s[..|s| - 1], s[|s| - 1];
      NewerShrinks(front, c, b);
      if last > c {
        NewerOneMore(Newer(front, c), last, b);
      } else {
        assert Newer(s, c) == Newer(front, c);
      }
    }
  }

  lemma AboveOneMore(calls: map<nat, real>, id: nat, x: real, b: real)
    requires id !in calls
    ensures |Above(calls[id := x], b)| == |Above(calls, b)| + if x > b then 1 else 0
  {
    assert id !in Above(calls, b);
    assert Above(calls[id := x], b) == if x > b then Above(calls, b) + {id} else Above(calls, b);
  }

  lemma EvictBounds(z: ZSet, cutoff: real, bound: real)
    requires AllUpTo(z.scores, bound)
    ensures AllUpTo(Evict(z, cutoff).scores, bound) && |Evict(z, cutoff).scores| <= |z.scores|
  {
    NewerBounds(z.scores, cutoff, bound);
  }

  lemma StaysTimely(s: Race, cfg: Limit, step: Step)
    requires Timely(s) && Next(cfg, s, step).Some?
    ensures Timely(Next(cfg, s, step).value)
  {
    var m := Moment(s, step);
    match step
    case Clear(id, at) => EvictBounds(m.zset, m.waiting[id] - cfg.window as real, at);
    case Add(id, at) => InsertUpTo(m.zset.scores, m.pending[id], at);
    case _ =>
  }

  lemma MomentIsCovered(s: Race, cfg: Limit, step: Step)
    requires Covered(s, cfg)
    ensures Covered(Moment(s, step), cfg)
  {
    var m := Moment(s, step);
    forall b: real ensures CoveredAbove(m, cfg, b) {
      assert CoveredAbove(s, cfg, b);
    }
  }

  lemma ClearIsCovered(s: Race, cfg: Limit, id: nat)
    requires Covered(s, cfg) && id in s.waiting
    ensures Covered(Cleared(s, cfg, id), cfg)
  {
    var n, cutoff := Cleared(s, cfg, id), s.waiting[id] - cfg.window as real;
    forall b: real ensures CoveredAbove(n, cfg, b) {
      assert CoveredAbove(s, cfg, b);
      NewerShrinks(s.zset.scores, cutoff, b);
    }
  }

  lemma AddIsCovered(s: Race, cfg: Limit, id: nat)
    requires Covered(s, cfg) && id in s.pending && id !in s.expiring
    ensures Covered(Stored(s, id), cfg)
  {
    forall b: real ensures CoveredAbove(Stored(s, id), cfg, b) {
      assert CoveredAbove(s, cfg, b);
      NewerInsert(s.zset.scores, s.pending[id], b);
      AboveOneMore(s.expiring, id, s.pending[id], b);
    }
  }

  lemma RenewIsCovered(s: Race, cfg: Limit, id: nat)
    requires Timely(s) && id in s.expiring
    ensures Covered(Renewed(s, cfg, id), cfg)
  {
    var n := Renewed(s, cfg, id);
    forall b: real ensures CoveredAbove(n, cfg, b) {
      if n.zset.expiresAt.Some? && n.zset.expiresAt.value <= b + Span(cfg) {
        assert AllUpTo(n.zset.scores, b);
        NewerNone(n.zset.scores, b);
      }
    }
  }

  lemma SameIsCovered(s: Race, n: Race, cfg: Limit)
    requires Covered(s, cfg) && n.zset == s.zset && n.expiring == s.expiring
    ensures Covered(n, cfg)
  {
    forall b: real ensures CoveredAbove(n, cfg, b) {
      assert CoveredAbove(s, cfg, b);
    }
  }

  lemma MomentIsTimely(s: Race, step: Step)
    requires Timely(s) && s.clock <= step.at
    ensures Timely(Moment(s, step))
  {
  }

  lemma StaysCovered(s: Race, cfg: Limit, step: Step)
    requires Timely(s) && Covered(s, cfg) && Next(cfg, s, step).Some?
    ensures Covered(Next(cfg, s, step).value, cfg)
  {
    var m := Moment(s, step);
    MomentIsCovered(s, cfg, step);
    MomentIsTimely(s, step);
    match step
    case Clear(id, at) => ClearIsCovered(m, cfg, id);
    case Add(id, at) => AddIsCovered(m, cfg, id);
    case Renew(id, at) => RenewIsCovered(m, cfg, id);
    case _ => SameIsCovered(m, Next(cfg, s, step).value, cfg);
  }

  lemma LeaveShrinks(calls: map<nat, real>, id: nat, cfg: Limit, t: real)
    ensures |IdsOf(calls - {id})| <= |IdsOf(calls)| && TallyOf(calls - {id}, cfg, t) <= TallyOf(calls, cfg, t)
  {
    SubsetIsSmaller(IdsOf(calls - {id}), IdsOf(calls));
    SubsetIsSmaller(CallsIn(calls - {id}, cfg, t), CallsIn(calls, cfg, t));
  }

  lemma ActStaysRoomy(s: Race, cfg: Limit, p: nat, step: Step)
    requires Timely(s) && Roomy(s, cfg, p)
    requires Act(cfg, s, step).Some? && |IdsOf(Act(cfg, s, step).value.pending)| <= p
    ensures Roomy(Act(cfg, s, step).value, cfg, p)
  {
    match step
    case Clear(id, at) => EvictBounds(s.zset, s.waiting[id] - cfg.window as real, s.clock);
    case Add(id, at) =>
      TallyInsert(s.zset.scores, s.pending[id], cfg, 0.0);
      CallRemoved(s.pending, id, cfg, 0.0);
    case Leave(id, at) => LeaveShrinks(s.pending, id, cfg, 0.0);
    case _ =>
  }

  lemma {:induction false} RunIsTimely(cfg: Limit, start: real, steps: seq<Step>)
    requires Exec(cfg, start, steps).Some?
    ensures Timely(Exec(cfg, start, steps).value) && Covered(Exec(cfg, start, steps).value, cfg)
  {
    if steps != [] {
      var before, step := steps[..|steps| - 1], steps[|steps| - 1];
      RunIsTimely(cfg, start, before);
      StaysTimely(Exec(cfg, start, before).value, cfg, step);
      StaysCovered(Exec(cfg, start, before).value, cfg, step);
    } else {
      var s := Exec(cfg, start, steps).value;
      forall b: real ensures CoveredAbove(s, cfg, b) {}
    }
  }

  lemma {:induction false} RunIsRoomy(cfg: Limit, start: real, steps: seq<Step>, p: nat)
    requires cfg.maxRequests >= 1 && Exec(cfg, start, steps).Some? && Crowd(cfg, start, steps, p)
    ensures Roomy(Exec(cfg, start, steps).value, cfg, p)
  {
    if steps != [] {
      var before, step := steps[..|steps| - 1], steps[|steps| - 1];
      RunIsRoomy(cfg, start, before, p);
      RunIsTimely(cfg, start, before);
      MomentIsTimely(Exec(cfg, start, before).value, step);
      ActStaysRoomy(Moment(Exec(cfg, start, before).value, step), cfg, p, step);
    }
  }

  // ----- within a second nothing is lost -----

  ghost predicate CallsBelow(calls: map<nat, real>, b: real) {
    forall id :: id in calls ==> calls[id] < b
  }

  ghost predicate SomeBelow(calls: map<nat, real>, b: real) {
    exists id :: id in calls && calls[id] < b
  }

  ghost predicate NoCalls(calls: map<nat, real>) {
    forall id :: id !in calls
  }

  /** If the key is to expire, then some call has to renew it before, or nobody is past its eviction
      who read the clock in the last second before. */
  ghost predicate Guarded(s: Race) {
    s.zset.expiresAt.Some? ==>
      var b := s.zset.expiresAt.value - 1.0;
      SomeBelow(s.expiring, b) || (NoCalls(s.expiring) && CallsBelow(s.pending, b) && ClearedBelow(s, b))
  }

  ghost predicate ClearedBelow(s: Race, b: real) {
    forall id :: id in s.cleared && id in s.waiting ==> s.waiting[id] < b
  }

  /** When the key does expire, every call has renewed its expiry. */
  lemma NothingIsLost(s: Race, at: real)
    requires Guarded(s) && Prompt(s.expiring, at, 1.0)
    ensures s.zset.expiresAt.Some? && s.zset.expiresAt.value <= at ==> NoCalls(s.expiring)
  {
    if s.zset.expiresAt.Some? && SomeBelow(s.expiring, s.zset.expiresAt.value - 1.0) {
      var id :| id in s.expiring && s.expiring[id] < s.zset.expiresAt.value - 1.0;
      assert OnTime(s.expiring, id, at, 1.0);
    }
  }

  /** An eviction by a call that read in the last second before the expiry leaves only entries
      whose calls have yet to renew it. */
  lemma ClearIsGuarded(s: Race, cfg: Limit, id: nat)
    requires Guarded(s) && Covered(s, cfg) && id in s.waiting
    ensures Guarded(Cleared(s, cfg, id))
  {
    var n, cutoff := Cleared(s, cfg, id), s.waiting[id] - cfg.window as real;
    assert CoveredAbove(s, cfg, cutoff);
    if n.zset.expiresAt.Some? && NoCalls(s.expiring) {
      assert Above(s.expiring, cutoff) == {};
    }
  }

  lemma AddIsGuarded(s: Race, cfg: Limit, id: nat)
    requires Guarded(s) && id in s.pending && id !in s.expiring
    ensures Guarded(Stored(s, id))
  {
    var n := Stored(s, id);
    if n.zset.expiresAt.Some? {
      var b := n.zset.expiresAt.value - 1.0;
      if SomeBelow(s.expiring, b) {
        var other :| other in s.expiring && s.expiring[other] < b;
        assert other in n.expiring && n.expiring[other] < b;
      } else {
        assert id in n.expiring && n.expiring[id] < b;
      }
    }
  }

  lemma RenewIsGuarded(s: Race, cfg: Limit, id: nat)
    requires Timely(s) && cfg.window >= 1 && id in s.expiring
    ensures Guarded(Renewed(s, cfg, id))
  {
    var n := Renewed(s, cfg, id);
    if n.zset.expiresAt.Some? {
      var b := n.zset.expiresAt.value - 1.0;
      assert b == s.clock + cfg.window as real;
      if !NoCalls(n.expiring) {
        var other :| other in n.expiring;
        assert n.expiring[other] < b;
      }
    }
  }

  lemma StaysGuarded(s: Race, cfg: Limit, step: Step)
    requires Timely(s) && Covered(s, cfg) && Guarded(s) && cfg.window >= 1 && Next(cfg, s, step).Some?
    ensures Guarded(Next(cfg, s, step).value)
  {
    var m := Moment(s, step);
    MomentIsTimely(s, step);
    MomentIsCovered(s, cfg, step);
    match step
    case Clear(id, at) => ClearIsGuarded(m, cfg, id);
    case Add(id, at) => AddIsGuarded(m, cfg, id);
    case Renew(id, at) => RenewIsGuarded(m, cfg, id);
    case _ =>
  }

  lemma {:induction false} RunIsGuarded(cfg: Limit, start: real, steps: seq<Step>)
    requires cfg.window >= 1 && Exec(cfg, start, steps).Some?
    ensures Guarded(Exec(cfg, start, steps).value)
  {
    if steps != [] {
      var before := steps[..|steps| - 1];
      RunIsGuarded(cfg, start, before);
      RunIsTimely(cfg, start, before);
      StaysGuarded(Exec(cfg, start, before).value, cfg, steps[|steps| - 1]);
    }
  }

  // ----- calls in order and within a second -----

  /** Every entry added in the window ending at `t` is still stored. */
  ghost predicate Balanced(s: Race, cfg: Limit, t: real) {
    Tally(s.added, cfg, t) <= Tally(s.zset.scores, cfg, t)
  }

  ghost predicate Filled(s: Race, cfg: Limit, t: real, bound: int) {
    Tally(s.added, cfg, t) + TallyOf(s.pending, cfg, t) <= bound
  }

  /** Until something is evicted with a reading past `t`, or the expiry could have reached the window
      ending there, every entry of that window is stored; afterwards no call is admitted to it. */
  ghost predicate Accounted(s: Race, horizon: real, cfg: Limit, p: nat, t: real) {
    if s.clock <= t + 1.0 && horizon <= t then Balanced(s, cfg, t) else Filled(s, cfg, t, cfg.maxRequests + p - 1)
  }

  /** A balanced window never holds more entries and pending calls than are stored and pending. */
  lemma BalancedIsFilled(s: Race, cfg: Limit, p: nat, t: real)
    requires Roomy(s, cfg, p) && Balanced(s, cfg, t)
    ensures Filled(s, cfg, t, cfg.maxRequests + p - 1)
  {
    TallyAtMostLength(s.zset.scores, cfg, t);
    CallsAtMostAll(s.pending, cfg, t);
  }

  lemma {:induction false} TallyAtMostNewer(s: seq<real>, cfg: Limit, t: real)
    ensures Tally(s, cfg, t) <= |Newer(s, t - cfg.window as real)|
  {
    if s != [] {
      var front, last := s[..|s| - 1], s[|s| - 1];
      TallyAtMostNewer(front, cfg, t);
      TallyOneMore(front, last, cfg, t);
      assert s == front + [last];
    }
  }

  /** Up to one second past `t`, an expiry loses only entries of the window that are yet to be renewed. */
  lemma ExpiryLoses(s: Race, cfg: Limit, step: Step, t: real)
    requires Covered(s, cfg) && step.at <= t + 1.0
    ensures Tally(s.zset.scores, cfg, t) <= Tally(Moment(s, step).zset.scores, cfg, t)
      + if Expires(s, step) then |IdsOf(s.expiring)| else 0
  {
    var cutoff := t - cfg.window as real;
    if Expires(s, step) {
      assert CoveredAbove(s, cfg, cutoff);
      TallyAtMostNewer(s.zset.scores, cfg, t);
      SubsetIsSmaller(Above(s.expiring, cutoff), IdsOf(s.expiring));
    }
  }

  lemma MomentIsAccounted(s: Race, horizon: real, cfg: Limit, p: nat, step: Step, t: real)
    requires Covered(s, cfg) && Roomy(s, cfg, p) && Accounted(s, horizon, cfg, p, t) && s.clock <= step.at
    requires Expires(s, step) ==> NoCalls(s.expiring)
    ensures Accounted(Moment(s, step), horizon, cfg, p, t) && Roomy(Moment(s, step), cfg, p)
  {
    if step.at <= t + 1.0 && horizon <= t {
      ExpiryLoses(s, cfg, step, t);
      assert NoCalls(s.expiring) ==> IdsOf(s.expiring) == {};
    } else if Balanced(s, cfg, t) {
      BalancedIsFilled(s, cfg, p, t);
    }
  }

  lemma ClearIsAccounted(s: Race, horizon: real, cfg: Limit, p: nat, id: nat, t: real)
    requires Roomy(s, cfg, p) && Accounted(s, horizon, cfg, p, t) && id in s.waiting
    ensures Accounted(Cleared(s, cfg, id), Later(horizon, s.waiting[id]), cfg, p, t)
  {
    if s.waiting[id] <= t {
      TallyNewer(s.zset.scores, s.waiting[id] - cfg.window as real, cfg, t);
    } else if Balanced(s, cfg, t) {
      BalancedIsFilled(s, cfg, p, t);
    }
  }

  lemma CountIsAccounted(s: Race, horizon: real, cfg: Limit, p: nat, id: nat, t: real)
    requires Accounted(s, horizon, cfg, p, t) && id in s.waiting && id !in s.pending
    requires horizon <= s.waiting[id] && s.clock <= s.waiting[id] + 1.0
    ensures Accounted(Counted(s, cfg, id), horizon, cfg, p, t)
  {
    CallAdded(s.pending, id, s.waiting[id], cfg, t);
  }

  /** An add moves a call from the pending ones to the stored and added ones. */
  lemma AddMoves(s: Race, cfg: Limit, id: nat, t: real)
    requires id in s.pending
    ensures var n, one := Stored(s, id), One(s.pending[id], cfg, t);
      && Tally(n.added, cfg, t) == Tally(s.added, cfg, t) + one
      && Tally(n.zset.scores, cfg, t) == Tally(s.zset.scores, cfg, t) + one
      && TallyOf(n.pending, cfg, t) + one == TallyOf(s.pending, cfg, t)
  {
    CallRemoved(s.pending, id, cfg, t);
    TallyOneMore(s.added, s.pending[id], cfg, t);
    TallyInsert(s.zset.scores, s.pending[id], cfg, t);
  }

  lemma ActIsAccounted(s: Race, horizon: real, cfg: Limit, p: nat, step: Step, t: real)
    requires Timely(s) && Roomy(s, cfg, p) && Accounted(s, horizon, cfg, p, t) && Act(cfg, s, step).Some?
    requires step.Count? ==> horizon <= s.waiting[step.id] && s.clock <= s.waiting[step.id] + 1.0
    ensures var to := if step.Clear? then Later(horizon, s.waiting[step.id]) else horizon;
      Accounted(Act(cfg, s, step).value, to, cfg, p, t)
  {
    match step
    case Clear(id, at) => ClearIsAccounted(s, horizon, cfg, p, id, t);
    case Count(id, at) => CountIsAccounted(s, horizon, cfg, p, id, t);
    case Add(id, at) => AddMoves(s, cfg, id, t);
    case Leave(id, at) => LeaveShrinks(s.pending, id, cfg, t);
    case _ =>
  }

  lemma {:induction false} RunIsAccounted(cfg: Limit, start: real, steps: seq<Step>, p: nat, t: real)
    requires cfg.window >= 1 && cfg.maxRequests >= 1 && Exec(cfg, start, steps).Some?
    requires Crowd(cfg, start, steps, p) && Steady(cfg, start, steps, 0.0, 1.0, 1.0)
    ensures Accounted(Exec(cfg, start, steps).value, Horizon(cfg, start, steps), cfg, p, t)
  {
    if steps != [] {
      var before, step := steps[..|steps| - 1], steps[|steps| - 1];
      var s, horizon := Exec(cfg, start, before).value, Horizon(cfg, start, before);
      RunIsAccounted(cfg, start, before, p, t);
      RunIsRoomy(cfg, start, before, p);
      RunIsTimely(cfg, start, before);
      RunIsGuarded(cfg, start, before);
      NothingIsLost(s, step.at);
      MomentIsTimely(s, step);
      MomentIsAccounted(s, horizon, cfg, p, step, t);
      ActIsAccounted(Moment(s, step), horizon, cfg, p, step, t);
    }
  }

  lemma NoWindow(cfg: Limit, s: Race, t: real)
    requires cfg.window == 0
    ensures Tally(s.added, cfg, t) == 0 && TallyOf(s.pending, cfg, t) == 0
  {
    NoneInside(s.added, cfg, t);
    assert CallsIn(s.pending, cfg, t) == {};
  }

  lemma {:induction false} NoneInside(s: seq<real>, cfg: Limit, t: real)
    requires cfg.window == 0
    ensures Tally(s, cfg, t) == 0
  {
    if s != [] {
      NoneInside(s[..|s| - 1], cfg, t);
      TallyOneMore(s[..|s| - 1], s[|s| - 1], cfg, t);
      assert s == s[..|s| - 1] + [s[|s| - 1]];
    }
  }

  /** Let at most `k` calls be between count and add. If every call counts and renews the expiry within
      a second of its clock reading, and counts before anything is evicted with a later reading, then
      stored entries and pending adds never exceed max + k - 1, and no window ever gets more entries,
      those still to be added included. With one call at a time that is the maximum. */
  lemma ConcurrentBound(cfg: Limit, start: real, steps: seq<Step>, k: nat, t: real)
    requires cfg.maxRequests >= 1 && Exec(cfg, start, steps).Some?
    requires Crowd(cfg, start, steps, k) && Steady(cfg, start, steps, 0.0, 1.0, 1.0)
    ensures var s := Exec(cfg, start, steps).value;
      && |s.zset.scores| + |IdsOf(s.pending)| <= cfg.maxRequests + k - 1
      && |InWindow(s.added, cfg, t)| + |CallsIn(s.pending, cfg, t)| <= cfg.maxRequests + k - 1
  {
    var s := Exec(cfg, start, steps).value;
    RunIsRoomy(cfg, start, steps, k);
    if cfg.window == 0 {
      NoWindow(cfg, s, t);
    } else {
      RunIsAccounted(cfg, start, steps, k, t);
      if Balanced(s, cfg, t) {
        BalancedIsFilled(s, cfg, k, t);
      }
    }
  }

  // ----- counts at the very time of the reading -----

  lemma {:induction false} HorizonBehindClock(cfg: Limit, start: real, steps: seq<Step>)
    requires Exec(cfg, start, steps).Some?
    ensures Horizon(cfg, start, steps) <= Exec(cfg, start, steps).value.clock
  {
    if steps != [] {
      var before := steps[..|steps| - 1];
      HorizonBehindClock(cfg, start, before);
      RunIsTimely(cfg, start, before);
    }
  }

  /** When every call counts at the very time of its reading, the order takes care of itself. */
  lemma {:induction false} PromptIsOrdered(cfg: Limit, start: real, steps: seq<Step>, slack: real, renew: real)
    requires Exec(cfg, start, steps).Some? && Steady(cfg, start, steps, slack, 0.0, renew)
    ensures Steady(cfg, start, steps, 0.0, 0.0, renew)
  {
    if steps != [] {
      PromptIsOrdered(cfg, start, steps[..|steps| - 1], slack, renew);
      HorizonBehindClock(cfg, start, steps[..|steps| - 1]);
    }
  }

  // ----- calls in any order and with any delay -----

  /** An expiry in the window ending at `t` lost at most `x` of its entries, and there is no second. */
  ghost predicate Lossy(s: Race, cfg: Limit, x: nat, t: real) {
    && t - cfg.window as real < s.clock
    && (s.zset.expiresAt.Some? ==> s.zset.expiresAt.value > t + 1.0)
    && Tally(s.added, cfg, t) <= Tally(s.zset.scores, cfg, t) + x
  }

  /** Until the clock has passed `t`, all but `x` of the window's entries are stored; afterwards the
      calls still waiting with a reading in the window may yet be admitted to it. */
  ghost predicate AccountedLate(s: Race, cfg: Limit, p: nat, u: nat, x: nat, t: real) {
    if s.clock <= t then Balanced(s, cfg, t) || Lossy(s, cfg, x, t)
    else
      Tally(s.added, cfg, t) + TallyOf(s.pending, cfg, t) + TallyOf(s.waiting, cfg, t)
      <= cfg.maxRequests + p - 1 + u + x
  }

  lemma LateIsFilled(s: Race, cfg: Limit, p: nat, u: nat, x: nat, t: real)
    requires Roomy(s, cfg, p) && |IdsOf(s.waiting)| <= u && AccountedLate(s, cfg, p, u, x, t)
    ensures Tally(s.added, cfg, t) + TallyOf(s.pending, cfg, t) + TallyOf(s.waiting, cfg, t)
         <= cfg.maxRequests + p - 1 + u + x
  {
    TallyAtMostLength(s.zset.scores, cfg, t);
    CallsAtMostAll(s.pending, cfg, t);
    CallsAtMostAll(s.waiting, cfg, t);
  }

  lemma MomentIsAccountedLate(s: Race, cfg: Limit, p: nat, u: nat, x: nat, step: Step, t: real)
    requires Timely(s) && Covered(s, cfg) && Roomy(s, cfg, p) && |IdsOf(s.waiting)| <= u
    requires AccountedLate(s, cfg, p, u, x, t) && s.clock <= step.at
    requires Expires(s, step) ==> |IdsOf(s.expiring)| <= x
    ensures AccountedLate(Moment(s, step), cfg, p, u, x, t)
  {
    if step.at <= t {
      ExpiryLoses(s, cfg, step, t);
      if step.at <= t - cfg.window as real {
        TallyNone(s.zset.scores, cfg, t);
      }
    } else {
      LateIsFilled(s, cfg, p, u, x, t);
    }
  }

  lemma ActIsAccountedLate(s: Race, cfg: Limit, p: nat, u: nat, x: nat, step: Step, t: real)
    requires Timely(s) && AccountedLate(s, cfg, p, u, x, t) && Act(cfg, s, step).Some? && s.clock == step.at
    ensures AccountedLate(Act(cfg, s, step).value, cfg, p, u, x, t)
  {
    match step
    case Start(id, at) => CallAdded(s.waiting, id, at, cfg, t);
    case Clear(id, at) => ClearIsAccountedLate(s, cfg, p, u, x, id, t);
    case Count(id, at) =>
      CallRemoved(s.waiting, id, cfg, t);
      CallAdded(s.pending, id, s.waiting[id], cfg, t);
    case Add(id, at) => AddMoves(s, cfg, id, t);
    case Renew(id, at) =>
    case Leave(id, at) =>
      LeaveShrinks(s.pending, id, cfg, t);
      LeaveShrinks(s.waiting, id, cfg, t);
  }

  lemma ClearIsAccountedLate(s: Race, cfg: Limit, p: nat, u: nat, x: nat, id: nat, t: real)
    requires Timely(s) && AccountedLate(s, cfg, p, u, x, t) && id in s.waiting
    ensures AccountedLate(Cleared(s, cfg, id), cfg, p, u, x, t)
  {
    if s.clock <= t {
      TallyNewer(s.zset.scores, s.waiting[id] - cfg.window as real, cfg, t);
    }
  }

  lemma {:induction false} RunIsAccountedLate(cfg: Limit, start: real, steps: seq<Step>, p: nat, u: nat, x: nat,
      t: real)
    requires cfg.maxRequests >= 1 && Exec(cfg, start, steps).Some?
    requires Crowd(cfg, start, steps, p) && Stalls(cfg, start, steps, u) && Exposed(cfg, start, steps, x)
    ensures AccountedLate(Exec(cfg, start, steps).value, cfg, p, u, x, t)
  {
    if steps != [] {
      var before, step := steps[..|steps| - 1], steps[|steps| - 1];
      var s := Exec(cfg, start, before).value;
      RunIsAccountedLate(cfg, start, before, p, u, x, t);
      RunIsRoomy(cfg, start, before, p);
      RunIsTimely(cfg, start, before);
      StallsBefore(cfg, start, before, u);
      MomentIsTimely(s, step);
      MomentIsAccountedLate(s, cfg, p, u, x, step, t);
      ActIsAccountedLate(Moment(s, step), cfg, p, u, x, step, t);
    }
  }

  lemma StallsBefore(cfg: Limit, start: real, steps: seq<Step>, u: nat)
    requires Stalls(cfg, start, steps, u) && Exec(cfg, start, steps).Some?
    ensures |IdsOf(Exec(cfg, start, steps).value.waiting)| <= u
  {
  }

  /** Whatever the order and the delays, a window gets at most as many more entries as calls are ever
      between clock and count at once, and as calls are between add and renewal when the key expires. */
  lemma StalledBound(cfg: Limit, start: real, steps: seq<Step>, k: nat, u: nat, x: nat, t: real)
    requires cfg.maxRequests >= 1 && Exec(cfg, start, steps).Some?
    requires Crowd(cfg, start, steps, k) && Stalls(cfg, start, steps, u) && Exposed(cfg, start, steps, x)
    ensures var s := Exec(cfg, start, steps).value;
      |InWindow(s.added, cfg, t)| + |CallsIn(s.pending, cfg, t)| <= cfg.maxRequests + k - 1 + u + x
  {
    RunIsAccountedLate(cfg, start, steps, k, u, x, t);
    RunIsRoomy(cfg, start, steps, k);
    StallsBefore(cfg, start, steps, u);
    LateIsFilled(Exec(cfg, start, steps).value, cfg, k, u, x, t);
  }
}
