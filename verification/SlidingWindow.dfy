/** The sliding-window rate limit as a function of one key's sorted set, and the ideal
    limit it must agree with: one that remembers every admitted request forever. */
module SlidingWindow {
  import opened Wrappers

  datatype Limit = Limit(name: string, window: nat, maxRequests: int)

  datatype Decision = Decision(allowed: bool, current: int, retryAfter: int)

  /** A sorted set of fresh members, by score, and the time its key expires. */
  datatype ZSet = ZSet(scores: seq<real>, expiresAt: Option<real>)

  const EMPTY: ZSet := ZSet([], None)

  /** Scores above a cutoff, in order. */
  function Newer(scores: seq<real>, cutoff: real): seq<real> {
    if scores == [] then []
    else
      var last := scores[|scores| - 1];
      Newer(scores[..|scores| - 1], cutoff) + if last > cutoff then [last] else []
  }

  /** Scores in (from, to], in order. */
  function Within(scores: seq<real>, from: real, to: real): seq<real> {
    if scores == [] then []
    else
      var last := scores[|scores| - 1];
      Within(scores[..|scores| - 1], from, to) + if from < last <= to then [last] else []
  }

  /** Adds a score where it belongs. */
  function Insert(scores: seq<real>, x: real): seq<real> {
    if scores == [] || scores[|scores| - 1] <= x then scores + [x]
    else Insert(scores[..|scores| - 1], x) + [scores[|scores| - 1]]
  }

  /** The key as Redis sees it at a time: gone once its expiry has passed. */
  function Alive(z: ZSet, now: real): ZSet {
    if z.expiresAt.Some? && z.expiresAt.value <= now then EMPTY else z
  }

  /** `zremrangebyscore(key, -inf, cutoff)`; a set left empty disappears with its expiry. */
  function Evict(z: ZSet, cutoff: real): ZSet {
    var kept := Newer(z.scores, cutoff);
    if kept == [] then EMPTY else z.(scores := kept)
  }

  /** `zadd` then `expire`. */
  function Record(z: ZSet, score: real, expiresAt: real): ZSet {
    ZSet(Insert(z.scores, score), Some(expiresAt))
  }

  /** `int(x)`. */
  function Truncated(x: real): int {
    if x >= 0.0 then x.Floor else -(-x).Floor
  }

  function AtLeastOne(n: int): int {
    if n < 1 then 1 else n
  }

  predicate Allows(scores: seq<real>, cfg: Limit) {
    |scores| < cfg.maxRequests
  }

  /** The decision for a request at `now`, given the scores inside its window. */
  function Decide(scores: seq<real>, cfg: Limit, now: real): Decision {
    if !Allows(scores, cfg) then
      Decision(false, |scores|,
               if scores != [] then AtLeastOne(Truncated(scores[0] + cfg.window as real - now)) else cfg.window)
    else Decision(true, |scores| + 1, 0)
  }

  /** What the limiter reads at `now`. */
  function Look(z: ZSet, cfg: Limit, now: real): ZSet {
    Evict(Alive(z, now), now - cfg.window as real)
  }

  /** The set after one call that read at `now` and, if admitted, wrote at `written`. */
  function Checked(z: ZSet, cfg: Limit, now: real, written: real): ZSet {
    var seen := Look(z, cfg, now);
    if Decide(seen.scores, cfg, now).allowed
    then Record(Alive(seen, written), now, written + (cfg.window + 1) as real)
    else seen
  }

  // ----- windows -----

  ghost predicate Ascending(s: seq<real>) {
    forall i, j :: 0 <= i < j < |s| ==> s[i] <= s[j]
  }

  ghost predicate AllUpTo(s: seq<real>, t: real) {
    forall i :: 0 <= i < |s| ==> s[i] <= t
  }

  ghost predicate AllAbove(s: seq<real>, t: real) {
    forall i :: 0 <= i < |s| ==> s[i] > t
  }

  /** The newer scores are above the cutoff and under any bound the scores were under. */
  lemma {:induction false} NewerBounds(s: seq<real>, cutoff: real, bound: real)
    requires AllUpTo(s, bound)
    ensures |Newer(s, cutoff)| <= |s|
    ensures AllUpTo(Newer(s, cutoff), bound) && AllAbove(Newer(s, cutoff), cutoff)
  {
    if s != [] {
      NewerBounds(s[..|s| - 1], cutoff, bound);
    }
  }

  lemma {:induction false} NewerAscends(s: seq<real>, cutoff: real)
    requires Ascending(s)
    ensures Ascending(Newer(s, cutoff))
  {
    if s != [] {
      NewerAscends(s[..|s| - 1], cutoff);
      NewerBounds(s[..|s| - 1], cutoff, s[|s| - 1]);
    }
  }

  lemma {:induction false} NewerNone(s: seq<real>, cutoff: real)
    requires AllUpTo(s, cutoff)
    ensures Newer(s, cutoff) == []
  {
    if s != [] {
      NewerNone(s[..|s| - 1], cutoff);
    }
  }

  lemma NewerOneMore(s: seq<real>, x: real, cutoff: real)
    ensures Newer(s + [x], cutoff) == Newer(s, cutoff) + if x > cutoff then [x] else []
  {
    assert (s + [x])[..|s|] == s;
  }

  lemma {:induction false} NewerTwice(s: seq<real>, c: real, d: real)
    requires c <= d
    ensures Newer(Newer(s, c), d) == Newer(s, d)
    ensures |Newer(s, d)| <= |Newer(s, c)|
  {
    if s != [] {
      var before, last := s[..|s| - 1], s[|s| - 1];
      NewerTwice(before, c, d);
      if last > c {
        assert Newer(s, c) == Newer(before, c) + [last];
        NewerOneMore(Newer(before, c), last, d);
      } else {
        assert Newer(s, c) == Newer(before, c);
        assert Newer(s, d) == Newer(before, d);
      }
    }
  }

  lemma WithinOneMore(s: seq<real>, x: real, from: real, to: real)
    ensures Within(s + [x], from, to) == Within(s, from, to) + if from < x <= to then [x] else []
  {
    assert (s + [x])[..|s|] == s;
  }

  lemma {:induction false} WithinIsNewer(s: seq<real>, from: real, to: real)
    requires AllUpTo(s, to)
    ensures Within(s, from, to) == Newer(s, from)
  {
    if s != [] {
      WithinIsNewer(s[..|s| - 1], from, to);
    }
  }

  // ----- agreement with the ideal limit -----

  /** The admitted requests in the window that ends at `t`. */
  function InWindow(admitted: seq<real>, cfg: Limit, t: real): seq<real> {
    Within(admitted, t - cfg.window as real, t)
  }

  lemma InWindowIsNewer(admitted: seq<real>, cfg: Limit, t: real)
    requires AllUpTo(admitted, t)
    ensures InWindow(admitted, cfg, t) == Newer(admitted, t - cfg.window as real)
  {
    WithinIsNewer(admitted, t - cfg.window as real, t);
  }

  /** From `last` on, looking at the set shows exactly the admitted requests still in the window. */
  ghost predicate Agrees(z: ZSet, cfg: Limit, admitted: seq<real>, last: real) {
    && Ascending(admitted) && AllUpTo(admitted, last)
    && (forall t: real :: t >= last ==> Look(z, cfg, t).scores == Newer(admitted, t - cfg.window as real))
    && OutlivesScores(z, cfg.window as real)
  }

  function Capacity(cfg: Limit): nat {
    if cfg.maxRequests > 0 then cfg.maxRequests else 0
  }

  /** No window of the configured length holds more than the maximum. */
  ghost predicate Bounded(admitted: seq<real>, cfg: Limit) {
    forall t: real :: |InWindow(admitted, cfg, t)| <= Capacity(cfg)
  }

  function IdealDecision(admitted: seq<real>, cfg: Limit, now: real): Decision {
    Decide(InWindow(admitted, cfg, now), cfg, now)
  }

  function IdealAdmitted(admitted: seq<real>, cfg: Limit, now: real): seq<real> {
    if IdealDecision(admitted, cfg, now).allowed then admitted + [now] else admitted
  }

  lemma NothingAgrees(cfg: Limit, start: real)
    ensures Agrees(EMPTY, cfg, [], start) && Bounded([], cfg)
  {
    forall t: real ensures Look(EMPTY, cfg, t).scores == Newer([], t - cfg.window as real) {
      LookScores(EMPTY, cfg, t);
    }
  }

  lemma SameDecision(z: ZSet, cfg: Limit, admitted: seq<real>, last: real, now: real)
    requires Agrees(z, cfg, admitted, last) && last <= now
    ensures Look(z, cfg, now).scores == InWindow(admitted, cfg, now)
    ensures Decide(Look(z, cfg, now).scores, cfg, now) == IdealDecision(admitted, cfg, now)
  {
    InWindowIsNewer(admitted, cfg, now);
  }

  lemma LookOutlives(z: ZSet, cfg: Limit, now: real)
    requires OutlivesScores(z, cfg.window as real)
    ensures OutlivesScores(Look(z, cfg, now), cfg.window as real)
  {
    if z.scores != [] {
      NewerBounds(z.scores, now - cfg.window as real, z.expiresAt.value - cfg.window as real);
    }
  }

  /** Looking twice shows what looking once, later, would have shown. */
  lemma LookAgain(z: ZSet, cfg: Limit, now: real, t: real)
    requires now <= t
    ensures Look(Look(z, cfg, now), cfg, t).scores == Look(z, cfg, t).scores
  {
    var w := cfg.window as real;
    NewerTwice(z.scores, now - w, t - w);
    if Look(z, cfg, now) == EMPTY && Alive(z, now) == z {
      assert Newer(z.scores, now - w) == [];
    }
  }

  lemma {:induction false} InsertAtEnd(s: seq<real>, x: real)
    requires AllUpTo(s, x)
    ensures Insert(s, x) == s + [x]
  {
  }

  lemma SeenAgrees(z: ZSet, cfg: Limit, admitted: seq<real>, last: real, now: real)
    requires Agrees(z, cfg, admitted, last) && last <= now
    ensures Agrees(Look(z, cfg, now), cfg, admitted, now) && AllUpTo(Look(z, cfg, now).scores, now)
  {
    var seen := Look(z, cfg, now);
    LookOutlives(z, cfg, now);
    forall t | t >= now ensures Look(seen, cfg, t).scores == Newer(admitted, t - cfg.window as real) {
      LookAgain(z, cfg, now, t);
      assert Look(z, cfg, t).scores == Newer(admitted, t - cfg.window as real);
    }
    assert seen.scores == Newer(admitted, now - cfg.window as real);
    NewerBounds(admitted, now - cfg.window as real, now);
  }

  lemma LookScores(z: ZSet, cfg: Limit, t: real)
    ensures Look(z, cfg, t).scores == Newer(Alive(z, t).scores, t - cfg.window as real)
  {
  }

  ghost predicate OutlivesScores(z: ZSet, span: real) {
    z.scores != [] ==> z.expiresAt.Some? && AllUpTo(z.scores, z.expiresAt.value - span)
  }

  lemma NewerOfAlive(z: ZSet, span: real, written: real, t: real)
    requires OutlivesScores(z, span) && written <= t
    ensures Newer(Alive(z, written).scores, t - span) == Newer(Alive(z, t).scores, t - span)
  {
    if z.expiresAt.Some? && z.expiresAt.value <= t && z.scores != [] {
      NewerNone(z.scores, t - span);
    }
  }

  lemma LookAfterRecord(seen: ZSet, cfg: Limit, admitted: seq<real>, now: real, written: real, t: real)
    requires Look(seen, cfg, t).scores == Newer(admitted, t - cfg.window as real)
    requires OutlivesScores(seen, cfg.window as real)
    requires AllUpTo(seen.scores, now) && AllUpTo(admitted, now) && now <= written <= t
    ensures Look(Record(Alive(seen, written), now, written + (cfg.window + 1) as real), cfg, t).scores
         == Newer(admitted + [now], t - cfg.window as real)
  {
    var cutoff, base := t - cfg.window as real, Alive(seen, written);
    var z := Record(base, now, written + (cfg.window + 1) as real);
    RecordAppends(base, now, written + (cfg.window + 1) as real);
    LookScores(seen, cfg, t);
    LookScores(z, cfg, t);
    if z.expiresAt.value <= t {
      assert now <= cutoff;
      AllUpToLater(admitted, now, cutoff);
      NewerNone(admitted + [now], cutoff);
    } else {
      NewerOfAlive(seen, cfg.window as real, written, t);
      SameAfterOneMore(base.scores, admitted, now, cutoff);
    }
  }

  lemma RecordAppends(z: ZSet, now: real, expiry: real)
    requires AllUpTo(z.scores, now)
    ensures Record(z, now, expiry) == ZSet(z.scores + [now], Some(expiry))
  {
    InsertAtEnd(z.scores, now);
  }

  lemma AllUpToLater(s: seq<real>, now: real, later: real)
    requires AllUpTo(s, now) && now <= later
    ensures AllUpTo(s + [now], later)
  {
  }

  lemma SameAfterOneMore(s: seq<real>, r: seq<real>, x: real, cutoff: real)
    requires Newer(s, cutoff) == Newer(r, cutoff)
    ensures Newer(s + [x], cutoff) == Newer(r + [x], cutoff)
  {
    NewerOneMore(s, x, cutoff);
    NewerOneMore(r, x, cutoff);
  }

  lemma RecordOutlives(seen: ZSet, cfg: Limit, now: real, written: real)
    requires OutlivesScores(seen, cfg.window as real) && AllUpTo(seen.scores, now) && now <= written
    ensures OutlivesScores(Record(Alive(seen, written), now, written + (cfg.window + 1) as real), cfg.window as real)
  {
    InsertAtEnd(Alive(seen, written).scores, now);
  }

  lemma RecordAgrees(seen: ZSet, cfg: Limit, admitted: seq<real>, now: real, written: real)
    requires Agrees(seen, cfg, admitted, now) && AllUpTo(seen.scores, now) && now <= written
    ensures Agrees(Record(Alive(seen, written), now, written + (cfg.window + 1) as real), cfg, admitted + [now],
      written)
  {
    RecordOutlives(seen, cfg, now, written);
    var z := Record(Alive(seen, written), now, written + (cfg.window + 1) as real);
    forall t | t >= written ensures Look(z, cfg, t).scores == Newer(admitted + [now], t - cfg.window as real) {
      LookAfterRecord(seen, cfg, admitted, now, written, t);
    }
  }

  lemma AgreesLater(z: ZSet, cfg: Limit, admitted: seq<real>, last: real, later: real)
    requires Agrees(z, cfg, admitted, last) && last <= later
    ensures Agrees(z, cfg, admitted, later)
  {
  }

  /** One call, sequential and in clock order, decides like the ideal limit and stays in agreement with it. */
  lemma CallAgrees(z: ZSet, cfg: Limit, admitted: seq<real>, last: real, now: real, written: real)
    requires Agrees(z, cfg, admitted, last) && last <= now <= written
    ensures Decide(Look(z, cfg, now).scores, cfg, now) == IdealDecision(admitted, cfg, now)
    ensures Agrees(Checked(z, cfg, now, written), cfg, IdealAdmitted(admitted, cfg, now), written)
  {
    var seen := Look(z, cfg, now);
    SameDecision(z, cfg, admitted, last, now);
    SeenAgrees(z, cfg, admitted, last, now);
    RecordAgrees(seen, cfg, admitted, now, written);
    AgreesLater(seen, cfg, admitted, now, written);
    CheckedMeaning(z, cfg, now, written);
  }

  lemma CheckedMeaning(z: ZSet, cfg: Limit, now: real, written: real)
    ensures var seen := Look(z, cfg, now);
      Checked(z, cfg, now, written) ==
        if Decide(seen.scores, cfg, now).allowed
        then Record(Alive(seen, written), now, written + (cfg.window + 1) as real)
        else seen
  {
  }

  // ----- the bound -----

  lemma OneMoreInWindow(admitted: seq<real>, cfg: Limit, now: real, t: real)
    requires AllUpTo(admitted, now)
    ensures |InWindow(admitted + [now], cfg, t)| <=
            if t < now then |InWindow(admitted, cfg, t)| else |InWindow(admitted, cfg, now)| + 1
  {
    var span := cfg.window as real;
    WithinOneMore(admitted, now, t - span, t);
    if t >= now {
      InWindowIsNewer(admitted, cfg, t);
      InWindowIsNewer(admitted, cfg, now);
      NewerTwice(admitted, now - span, t - span);
    }
  }

  /** Admitting as the ideal limit does never overfills a window, wherever it is placed. */
  lemma AdmitKeepsBound(admitted: seq<real>, cfg: Limit, now: real)
    requires Bounded(admitted, cfg) && AllUpTo(admitted, now)
    ensures Bounded(IdealAdmitted(admitted, cfg, now), cfg)
  {
    if IdealDecision(admitted, cfg, now).allowed {
      forall t: real ensures |InWindow(admitted + [now], cfg, t)| <= Capacity(cfg) {
        OneMoreInWindow(admitted, cfg, now, t);
        assert |InWindow(admitted, cfg, t)| <= Capacity(cfg);
      }
    }
  }

  // ----- retry-after -----

  /** The whole seconds of the time left, but one at least. */
  ghost predicate RoundsDown(wait: int, left: real) {
    wait >= 1 && left < (wait + 1) as real && (wait == 1 || wait as real <= left)
  }

  lemma WaitRoundsDown(left: real)
    ensures RoundsDown(AtLeastOne(Truncated(left)), left)
  {
  }

  /** A denial promises a wait between one second and the whole window. */
  lemma RetryAfterInRange(admitted: seq<real>, cfg: Limit, now: real)
    requires cfg.window >= 1 && cfg.maxRequests >= 1 && AllUpTo(admitted, now)
    requires !IdealDecision(admitted, cfg, now).allowed
    ensures 1 <= IdealDecision(admitted, cfg, now).retryAfter <= cfg.window
  {
    var span := cfg.window as real;
    var inside := InWindow(admitted, cfg, now);
    InWindowIsNewer(admitted, cfg, now);
    NewerBounds(admitted, now - span, now);
    assert now - span < inside[0] <= now;
  }

  lemma WindowShrinks(admitted: seq<real>, cfg: Limit, now: real, later: real)
    requires AllUpTo(admitted, now) && now <= later
    ensures InWindow(admitted, cfg, later) == Newer(InWindow(admitted, cfg, now), later - cfg.window as real)
  {
    InWindowIsNewer(admitted, cfg, now);
    InWindowIsNewer(admitted, cfg, later);
    NewerTwice(admitted, now - cfg.window as real, later - cfg.window as real);
  }

  lemma NewerShrinksIff(s: seq<real>, cutoff: real)
    requires s != [] && Ascending(s)
    ensures |Newer(s, cutoff)| < |s| <==> s[0] <= cutoff
  {
    if s[0] <= cutoff {
      NewerDropsFirst(s, cutoff);
    } else {
      NewerKeepsAll(s, cutoff);
    }
  }

  /** After a denial, and with nothing admitted since, a later request is allowed exactly
      when the oldest request of the window has aged out. */
  lemma AllowedIffOldestAgedOut(admitted: seq<real>, cfg: Limit, now: real, later: real)
    requires cfg.maxRequests >= 1 && Bounded(admitted, cfg)
    requires Ascending(admitted) && AllUpTo(admitted, now) && now <= later
    requires !IdealDecision(admitted, cfg, now).allowed
    ensures var inside := InWindow(admitted, cfg, now);
      inside != [] && (IdealDecision(admitted, cfg, later).allowed <==> later >= inside[0] + cfg.window as real)
  {
    var inside := InWindow(admitted, cfg, now);
    assert |inside| == cfg.maxRequests;
    InWindowIsNewer(admitted, cfg, now);
    NewerAscends(admitted, now - cfg.window as real);
    WindowShrinks(admitted, cfg, now, later);
    NewerShrinksIff(inside, later - cfg.window as real);
  }

  lemma {:induction false} NewerDropsFirst(s: seq<real>, cutoff: real)
    requires s != [] && s[0] <= cutoff
    ensures |Newer(s, cutoff)| < |s|
  {
    if |s| > 1 {
      NewerDropsFirst(s[..|s| - 1], cutoff);
    }
  }

  lemma {:induction false} NewerKeepsAll(s: seq<real>, cutoff: real)
    requires AllAbove(s, cutoff)
    ensures Newer(s, cutoff) == s
  {
    if s != [] {
      NewerKeepsAll(s[..|s| - 1], cutoff);
    }
  }

  /** Waiting one second longer than told is always enough. */
  lemma RetryAfterPlusOneSuffices(admitted: seq<real>, cfg: Limit, now: real, later: real)
    requires cfg.maxRequests >= 1 && Bounded(admitted, cfg)
    requires Ascending(admitted) && AllUpTo(admitted, now)
    requires !IdealDecision(admitted, cfg, now).allowed
    requires later >= now + (IdealDecision(admitted, cfg, now).retryAfter + 1) as real
    ensures IdealDecision(admitted, cfg, later).allowed
  {
    var span := cfg.window as real;
    var inside := InWindow(admitted, cfg, now);
    InWindowIsNewer(admitted, cfg, now);
    NewerBounds(admitted, now - span, now);
    AllowedIffOldestAgedOut(admitted, cfg, now, now);
    assert inside[0] > now - span;
    AllowedIffOldestAgedOut(admitted, cfg, now, later);
  }

  /** The wait is the time left, rounded down to whole seconds but never to zero. Waiting exactly that
      long suffices exactly when the time left was a whole number of seconds or at most one second; one
      second less never does. */
  lemma AnnouncedWaitSufficesIff(admitted: seq<real>, cfg: Limit, now: real)
    requires cfg.window >= 1 && cfg.maxRequests >= 1 && Bounded(admitted, cfg)
    requires Ascending(admitted) && AllUpTo(admitted, now)
    requires !IdealDecision(admitted, cfg, now).allowed
    ensures InWindow(admitted, cfg, now) != []
    ensures var wait := IdealDecision(admitted, cfg, now).retryAfter;
      var left := InWindow(admitted, cfg, now)[0] + cfg.window as real - now;
      && 0.0 < left <= cfg.window as real && RoundsDown(wait, left)
      && (IdealDecision(admitted, cfg, now + wait as real).allowed <==> left <= wait as real)
      && (left <= wait as real <==> left <= 1.0 || left == left.Floor as real)
      && (wait == 1 || !IdealDecision(admitted, cfg, now + (wait - 1) as real).allowed)
  {
    var wait := IdealDecision(admitted, cfg, now).retryAfter;
    RetryAfterInRange(admitted, cfg, now);
    AllowedIffOldestAgedOut(admitted, cfg, now, now + wait as real);
    AllowedIffOldestAgedOut(admitted, cfg, now, now + (wait - 1) as real);
    WaitRoundsDown(InWindow(admitted, cfg, now)[0] + cfg.window as real - now);
    InWindowIsNewer(admitted, cfg, now);
    NewerBounds(admitted, now - cfg.window as real, now);
  }

  /** Waiting exactly as long as told may not be: the wait is rounded down. */
  lemma RetryAfterMayBeTooShort()
    ensures var cfg, admitted := Limit("minute", 60, 1), [0.0];
      && Bounded(admitted, cfg)
      && IdealDecision(admitted, cfg, 0.5) == Decision(false, 1, 59)
      && !IdealDecision(admitted, cfg, 59.5).allowed
  {
    var cfg := Limit("minute", 60, 1);
    forall t: real ensures |InWindow([0.0], cfg, t)| <= Capacity(cfg) { OneInWindow(0.0, cfg, t); }
    OneInWindow(0.0, cfg, 0.5);
    OneInWindow(0.0, cfg, 59.5);
    assert (59.5).Floor == 59;
  }

  lemma OneInWindow(x: real, cfg: Limit, t: real)
    ensures InWindow([x], cfg, t) == if t - cfg.window as real < x <= t then [x] else []
  {
    WithinOneMore([], x, t - cfg.window as real, t);
    assert [] + [x] == [x];
  }
}
