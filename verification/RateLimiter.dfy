/** The rate limiter over Redis sorted sets, and the middleware that applies it twice. */
module RateLimiter {
  import opened Wrappers
  import opened Text
  import opened SlidingWindow

  function Key(prefix: string, name: string, ip: string): string {
    prefix + ":" + name + ":" + ip
  }

  function ZSetAt(sets: map<string, ZSet>, key: string): ZSet {
    if key in sets then sets[key] else EMPTY
  }

  /** Stores a set; Redis keeps no empty ones. */
  function Put(sets: map<string, ZSet>, key: string, z: ZSet): map<string, ZSet> {
    if z.scores == [] then sets - {key} else sets[key := z]
  }

  /** Under names without a colon, different limits or addresses never share a key, whatever
      characters the address contains. */
  lemma KeyInjective(prefix: string, name1: string, ip1: string, name2: string, ip2: string)
    requires ':' !in name1 && ':' !in name2
    ensures Key(prefix, name1, ip1) == Key(prefix, name2, ip2) <==> name1 == name2 && ip1 == ip2
  {
    if Key(prefix, name1, ip1) == Key(prefix, name2, ip2) {
      var n := |prefix| + 1;
      var a, b := name1 + ":" + ip1, name2 + ":" + ip2;
      assert Key(prefix, name1, ip1)[n..] == a && Key(prefix, name2, ip2)[n..] == b;
      IndexOfUnique(a, ':', |name1|);
      IndexOfUnique(b, ':', |name2|);
      assert name1 == a[..|name1|] && name2 == b[..|name2|];
      assert ip1 == a[|name1| + 1..] && ip2 == b[|name2| + 1..];
    }
  }

  /** The commands the limiter uses; every command executes at a time on one shared clock. */
  class Redis {
    var sets: map<string, ZSet>

    constructor ()
      ensures sets == map[]
    {
      sets := map[];
    }

    method ZRemRangeByScore(key: string, cutoff: real, clock: real)
      modifies this
      ensures sets == Put(old(sets), key, Evict(Alive(ZSetAt(old(sets), key), clock), cutoff))
    {
      sets := Put(sets, key, Evict(Alive(ZSetAt(sets, key), clock), cutoff));
    }

    method ZCard(key: string, clock: real) returns (n: nat)
      ensures n == |Alive(ZSetAt(sets, key), clock).scores|
    {
      n := |Alive(ZSetAt(sets, key), clock).scores|;
    }

    method ZRangeFirst(key: string, clock: real) returns (oldest: Option<real>)
      ensures var scores := Alive(ZSetAt(sets, key), clock).scores;
        oldest == if scores == [] then None else Some(scores[0])
    {
      var scores := Alive(ZSetAt(sets, key), clock).scores;
      oldest := if scores == [] then None else Some(scores[0]);
    }

    method ZAdd(key: string, score: real, clock: real)
      modifies this
      ensures var z := Alive(ZSetAt(old(sets), key), clock);
        sets == old(sets)[key := z.(scores := Insert(z.scores, score))]
    {
      var z := Alive(ZSetAt(sets, key), clock);
      sets := sets[key := z.(scores := Insert(z.scores, score))];
    }

    method Expire(key: string, seconds: int, clock: real)
      requires key in sets && seconds > 0
      modifies this
      ensures sets == old(sets)[key := old(sets)[key].(expiresAt := Some(clock + seconds as real))]
    {
      sets := sets[key := sets[key].(expiresAt := Some(clock + seconds as real))];
    }
  }

  function AfterCheck(sets: map<string, ZSet>, ip: string, cfg: Limit, now: real, written: real): map<string, ZSet> {
    var key := Key("rl", cfg.name, ip);
    Put(sets, key, Checked(ZSetAt(sets, key), cfg, now, written))
  }

  function DecisionAt(sets: map<string, ZSet>, ip: string, cfg: Limit, now: real): Decision {
    Decide(Look(ZSetAt(sets, Key("rl", cfg.name, ip)), cfg, now).scores, cfg, now)
  }

  lemma InsertIsNeverEmpty(s: seq<real>, x: real)
    ensures Insert(s, x) != []
  {
  }

  /** The entries under a key with scores in the last `window` seconds. */
  function EntriesIn(sets: map<string, ZSet>, key: string, window: nat, now: real): seq<real> {
    Newer(Alive(ZSetAt(sets, key), now).scores, now - window as real)
  }

  /** What a decision says about the entries found in its window. */
  ghost predicate Answers(decision: Decision, inside: seq<real>, cfg: Limit, now: real) {
    && (decision.allowed <==> |inside| < cfg.maxRequests)
    && decision.current == |inside| + (if decision.allowed then 1 else 0)
    && (decision.allowed ==> decision.retryAfter == 0)
    && (!decision.allowed ==>
          if inside == [] then decision.retryAfter == cfg.window
          else RoundsDown(decision.retryAfter, inside[0] + cfg.window as real - now))
  }

  /** Only a request that was allowed is added, with its reading, and the key lasts a second longer
      than its window; otherwise entries that aged out are all that goes. */
  ghost predicate Leaves(z: ZSet, allowed: bool, inside: seq<real>, cfg: Limit, now: real, written: real) {
    if allowed then z.expiresAt == Some(written + (cfg.window + 1) as real)
                    && (z.scores == Insert(inside, now) || z.scores == [now])
    else z.scores == inside
  }

  lemma CheckAnswers(sets: map<string, ZSet>, ip: string, cfg: Limit, now: real, written: real)
    ensures var key := Key("rl", cfg.name, ip);
      var inside, decision := EntriesIn(sets, key, cfg.window, now), DecisionAt(sets, ip, cfg, now);
      && Answers(decision, inside, cfg, now)
      && Leaves(ZSetAt(AfterCheck(sets, ip, cfg, now, written), key), decision.allowed, inside, cfg, now, written)
  {
    var key := Key("rl", cfg.name, ip);
    var inside := EntriesIn(sets, key, cfg.window, now);
    LookScores(ZSetAt(sets, key), cfg, now);
    if inside != [] {
      WaitRoundsDown(inside[0] + cfg.window as real - now);
    }
    InsertIsNeverEmpty(inside, now);
    InsertIsNeverEmpty([], now);
  }

  /** A call answers from the entries in its window and leaves every other key alone. */
  ghost predicate ChecksOut(sets: map<string, ZSet>, ip: string, cfg: Limit, now: real, written: real,
      decision: Decision, after: map<string, ZSet>) {
    var key := "rl:" + cfg.name + ":" + ip;
    var inside := EntriesIn(sets, key, cfg.window, now);
    && Answers(decision, inside, cfg, now)
    && Leaves(ZSetAt(after, key), decision.allowed, inside, cfg, now, written)
    && forall other :: other != key ==> ZSetAt(after, other) == ZSetAt(sets, other)
  }

  lemma CheckChecksOut(sets: map<string, ZSet>, ip: string, cfg: Limit, now: real, written: real)
    ensures ChecksOut(sets, ip, cfg, now, written, DecisionAt(sets, ip, cfg, now),
                      AfterCheck(sets, ip, cfg, now, written))
  {
    CheckAnswers(sets, ip, cfg, now, written);
    forall other | other != Key("rl", cfg.name, ip)
      ensures ZSetAt(AfterCheck(sets, ip, cfg, now, written), other) == ZSetAt(sets, other)
    {
      CheckTouchesOneKey(sets, ip, cfg, now, written, other);
    }
    assert "rl:" + cfg.name + ":" + ip == Key("rl", cfg.name, ip);
  }

  /** Evict, count, then either deny with a wait or record the request. */
  method CheckLimit(redis: Redis, ip: string, cfg: Limit, now: real, written: real) returns (decision: Decision)
    requires now <= written
    modifies redis
    ensures redis.sets == AfterCheck(old(redis.sets), ip, cfg, now, written)
    ensures decision == DecisionAt(old(redis.sets), ip, cfg, now)
    ensures ChecksOut(old(redis.sets), ip, cfg, now, written, decision, redis.sets)
  {
    CheckChecksOut(redis.sets, ip, cfg, now, written);
    decision := SendCommands(redis, ip, cfg, now, written);
  }

  method SendCommands(redis: Redis, ip: string, cfg: Limit, now: real, written: real) returns (decision: Decision)
    requires now <= written
    modifies redis
    ensures redis.sets == AfterCheck(old(redis.sets), ip, cfg, now, written)
    ensures decision == DecisionAt(old(redis.sets), ip, cfg, now)
  {
    var key := Key("rl", cfg.name, ip);
    var cutoff := now - cfg.window as real;
    redis.ZRemRangeByScore(key, cutoff, now);
    var count := redis.ZCard(key, now);

    if count >= cfg.maxRequests {
      var oldest := redis.ZRangeFirst(key, now);
      var retryAfter := cfg.window;
      if oldest.Some? {
        retryAfter := AtLeastOne(Truncated(oldest.value + cfg.window as real - now));
      }
      return Decision(false, count, retryAfter);
    }

    RecordRequest(redis, key, now, written, cfg.window + 1);
    return Decision(true, count + 1, 0);
  }

  /** The write pipeline: add the request, then renew the key's expiry. */
  method RecordRequest(redis: Redis, key: string, score: real, written: real, seconds: nat)
    requires seconds > 0
    modifies redis
    ensures redis.sets == old(redis.sets)[key :=
      Record(Alive(ZSetAt(old(redis.sets), key), written), score, written + seconds as real)]
    ensures redis.sets[key].scores != []
  {
    InsertIsNeverEmpty(Alive(ZSetAt(redis.sets, key), written).scores, score);
    redis.ZAdd(key, score, written);
    redis.Expire(key, seconds, written);
  }

  // ----- the middleware -----

  /** A request with the clock at both reads and both writes the limiter may make for it. */
  datatype Request = Request(path: string, ip: string, now1: real, written1: real, now2: real, written2: real)

  datatype Reply = Unmetered | Forwarded | TooMany(limit: string, retryAfter: int)

  /** The two limits by their configured maxima. */
  datatype Limits = Limits(perMinute: int, perDay: int) {
    function Minute(): Limit { Limit("minute", 60, perMinute) }

    function Day(): Limit { Limit("day", 86400, perDay) }
  }

  predicate Metered(path: string) {
    "/v1/" <= path && path != "/v1/health" && path != "/v1/version"
  }

  ghost predicate InOrder(r: Request) {
    r.now1 <= r.written1 <= r.now2 <= r.written2
  }

  function SetsAfterReply(sets: map<string, ZSet>, limits: Limits, r: Request): map<string, ZSet> {
    if !Metered(r.path) then sets
    else
      var first := AfterCheck(sets, r.ip, limits.Minute(), r.now1, r.written1);
      if !DecisionAt(sets, r.ip, limits.Minute(), r.now1).allowed then first
      else AfterCheck(first, r.ip, limits.Day(), r.now2, r.written2)
  }

  function ReplyTo(sets: map<string, ZSet>, limits: Limits, r: Request): Reply {
    var minute := DecisionAt(sets, r.ip, limits.Minute(), r.now1);
    var day := DecisionAt(AfterCheck(sets, r.ip, limits.Minute(), r.now1, r.written1), r.ip, limits.Day(), r.now2);
    if !Metered(r.path) then Unmetered
    else if !minute.allowed then TooMany("minute", minute.retryAfter)
    else if !day.allowed then TooMany("day", day.retryAfter)
    else Forwarded
  }

  /** The paths that are served without counting. */
  ghost predicate Free(path: string) {
    !("/v1/" <= path) || path == "/v1/health" || path == "/v1/version"
  }

  /** The wait of a denial by the limit of that many requests in that many seconds. */
  ghost predicate Waits(retryAfter: int, inside: seq<real>, window: nat, now: real) {
    if inside == [] then retryAfter == window else RoundsDown(retryAfter, inside[0] + window as real - now)
  }

  /** What a reply says about the paths and the entries of the last minute and the last day. */
  ghost predicate Explains(sets: map<string, ZSet>, limits: Limits, r: Request, reply: Reply) {
    var minute := EntriesIn(sets, "rl:minute:" + r.ip, 60, r.now1);
    var day := EntriesIn(sets, "rl:day:" + r.ip, 86400, r.now2);
    if Free(r.path) then reply == Unmetered
    else if |minute| >= limits.perMinute then
      reply.TooMany? && reply.limit == "minute" && Waits(reply.retryAfter, minute, 60, r.now1)
    else if |day| >= limits.perDay then
      reply.TooMany? && reply.limit == "day" && Waits(reply.retryAfter, day, 86400, r.now2)
    else reply == Forwarded
  }

  /** What a reply leaves: forwarded requests are added for both limits, day-denied ones for the
      minute limit, no other key is touched, and a denied minute leaves the day alone. */
  ghost predicate LeavesBoth(sets: map<string, ZSet>, limits: Limits, r: Request, reply: Reply,
      after: map<string, ZSet>) {
    var first, second := "rl:minute:" + r.ip, "rl:day:" + r.ip;
    var minute, day := EntriesIn(sets, first, 60, r.now1), EntriesIn(sets, second, 86400, r.now2);
    var passed := reply == Forwarded || (reply.TooMany? && reply.limit == "day");
    && (forall key :: key != first && key != second ==> ZSetAt(after, key) == ZSetAt(sets, key))
    && (reply == Unmetered ==> after == sets)
    && (reply != Unmetered ==> Leaves(ZSetAt(after, first), passed, minute, limits.Minute(), r.now1, r.written1))
    && if passed then Leaves(ZSetAt(after, second), reply == Forwarded, day, limits.Day(), r.now2, r.written2)
       else ZSetAt(after, second) == ZSetAt(sets, second)
  }

  lemma LimitKeys(ip: string)
    ensures "rl:minute:" + ip == Key("rl", "minute", ip) && "rl:day:" + ip == Key("rl", "day", ip)
    ensures Key("rl", "minute", ip) != Key("rl", "day", ip)
  {
    KeyInjective("rl", "minute", ip, "day", ip);
    assert "rl:minute:" + ip == Key("rl", "minute", ip) && "rl:day:" + ip == Key("rl", "day", ip);
  }

  lemma ReplyExplains(sets: map<string, ZSet>, limits: Limits, r: Request)
    ensures Explains(sets, limits, r, ReplyTo(sets, limits, r))
  {
    var first := AfterCheck(sets, r.ip, limits.Minute(), r.now1, r.written1);
    LimitKeys(r.ip);
    CheckTouchesOneKey(sets, r.ip, limits.Minute(), r.now1, r.written1, Key("rl", "day", r.ip));
    CheckAnswers(sets, r.ip, limits.Minute(), r.now1, r.written1);
    CheckAnswers(first, r.ip, limits.Day(), r.now2, r.written2);
  }

  lemma StoppedLeaves(sets: map<string, ZSet>, limits: Limits, r: Request, retryAfter: int)
    requires !DecisionAt(sets, r.ip, limits.Minute(), r.now1).allowed
    ensures LeavesBoth(sets, limits, r, TooMany("minute", retryAfter),
                       AfterCheck(sets, r.ip, limits.Minute(), r.now1, r.written1))
  {
    LimitKeys(r.ip);
    CheckChecksOut(sets, r.ip, limits.Minute(), r.now1, r.written1);
    assert "rl:" + "minute" + ":" + r.ip == "rl:minute:" + r.ip;
  }

  lemma PassedLeaves(sets: map<string, ZSet>, first: map<string, ZSet>, second: map<string, ZSet>, limits: Limits,
      r: Request, minute: Decision, day: Decision, reply: Reply)
    requires ChecksOut(sets, r.ip, limits.Minute(), r.now1, r.written1, minute, first) && minute.allowed
    requires ChecksOut(first, r.ip, limits.Day(), r.now2, r.written2, day, second)
    requires if day.allowed then reply == Forwarded else reply.TooMany? && reply.limit == "day"
    ensures LeavesBoth(sets, limits, r, reply, second)
  {
    LimitKeys(r.ip);
    assert "rl:" + limits.Minute().name + ":" + r.ip == "rl:minute:" + r.ip;
    assert "rl:" + limits.Day().name + ":" + r.ip == "rl:day:" + r.ip;
  }

  lemma ReplyLeaves(sets: map<string, ZSet>, limits: Limits, r: Request)
    ensures LeavesBoth(sets, limits, r, ReplyTo(sets, limits, r), SetsAfterReply(sets, limits, r))
  {
    if Metered(r.path) {
      var reply := ReplyTo(sets, limits, r);
      if DecisionAt(sets, r.ip, limits.Minute(), r.now1).allowed {
        var first := AfterCheck(sets, r.ip, limits.Minute(), r.now1, r.written1);
        CheckChecksOut(sets, r.ip, limits.Minute(), r.now1, r.written1);
        CheckChecksOut(first, r.ip, limits.Day(), r.now2, r.written2);
        PassedLeaves(sets, first, AfterCheck(first, r.ip, limits.Day(), r.now2, r.written2), limits, r,
                     DecisionAt(sets, r.ip, limits.Minute(), r.now1), DecisionAt(first, r.ip, limits.Day(), r.now2),
                     reply);
      } else {
        StoppedLeaves(sets, limits, r, reply.retryAfter);
      }
    } else {
      assert ReplyTo(sets, limits, r) == Unmetered;
    }
  }

  method RateLimit(redis: Redis, limits: Limits, r: Request) returns (reply: Reply)
    requires InOrder(r)
    modifies redis
    ensures redis.sets == SetsAfterReply(old(redis.sets), limits, r)
    ensures reply == ReplyTo(old(redis.sets), limits, r)
    ensures Explains(old(redis.sets), limits, r, reply)
    ensures LeavesBoth(old(redis.sets), limits, r, reply, redis.sets)
  {
    ReplyExplains(redis.sets, limits, r);
    ReplyLeaves(redis.sets, limits, r);
    if !Metered(r.path) {
      return Unmetered;
    }
    var configs := [limits.Minute(), limits.Day()];
    for i := 0 to 2
      invariant i == 0 ==> redis.sets == old(redis.sets)
      invariant i == 1 ==> redis.sets == AfterCheck(old(redis.sets), r.ip, limits.Minute(), r.now1, r.written1)
      invariant i >= 1 ==> DecisionAt(old(redis.sets), r.ip, limits.Minute(), r.now1).allowed
      invariant i == 2 ==> redis.sets == SetsAfterReply(old(redis.sets), limits, r)
      invariant i == 2 ==> ReplyTo(old(redis.sets), limits, r) == Forwarded
    {
      var now, written := if i == 0 then r.now1 else r.now2, if i == 0 then r.written1 else r.written2;
      var decision := CheckLimit(redis, r.ip, configs[i], now, written);
      if !decision.allowed {
        return TooMany(configs[i].name, decision.retryAfter);
      }
    }
    return Forwarded;
  }

  // ----- whole sequential runs -----

  function SetsAfter(rs: seq<Request>, limits: Limits): map<string, ZSet> {
    if rs == [] then map[] else SetsAfterReply(SetsAfter(rs[..|rs| - 1], limits), limits, rs[|rs| - 1])
  }

  /** The reply to the last of some requests. */
  function LastReply(rs: seq<Request>, limits: Limits): Reply
    requires rs != []
  {
    ReplyTo(SetsAfter(rs[..|rs| - 1], limits), limits, rs[|rs| - 1])
  }

  ghost function LastTime(rs: seq<Request>, start: real): real {
    if rs == [] then start else rs[|rs| - 1].written2
  }

  ghost predicate Sequential(rs: seq<Request>, start: real) {
    rs != [] ==>
      && Sequential(rs[..|rs| - 1], start)
      && InOrder(rs[|rs| - 1])
      && LastTime(rs[..|rs| - 1], start) <= rs[|rs| - 1].now1
  }

  /** Read times of an address's requests that passed the minute limit: forwarded or stopped by the day limit. */
  function PassedMinute(rs: seq<Request>, limits: Limits, ip: string): seq<real> {
    if rs == [] then []
    else
      var last, reply := rs[|rs| - 1], LastReply(rs, limits);
      PassedMinute(rs[..|rs| - 1], limits, ip)
      + if last.ip == ip && (reply == Forwarded || (reply.TooMany? && reply.limit == "day")) then [last.now1] else []
  }

  /** Day-limit read times of an address's forwarded requests. */
  function ForwardedDay(rs: seq<Request>, limits: Limits, ip: string): seq<real> {
    if rs == [] then []
    else
      var last := rs[|rs| - 1];
      ForwardedDay(rs[..|rs| - 1], limits, ip)
      + if last.ip == ip && LastReply(rs, limits) == Forwarded then [last.now2] else []
  }

  /** Minute-limit read times of an address's forwarded requests. */
  function ForwardedMinute(rs: seq<Request>, limits: Limits, ip: string): seq<real> {
    if rs == [] then []
    else
      var last := rs[|rs| - 1];
      ForwardedMinute(rs[..|rs| - 1], limits, ip)
      + if last.ip == ip && LastReply(rs, limits) == Forwarded then [last.now1] else []
  }

  /** Both sorted sets of an address agree with what was admitted for it. */
  ghost predicate KeptFor(sets: map<string, ZSet>, limits: Limits, ip: string, minute: seq<real>, day: seq<real>,
      last: real) {
    && Agrees(ZSetAt(sets, Key("rl", "minute", ip)), limits.Minute(), minute, last) && Bounded(minute, limits.Minute())
    && Agrees(ZSetAt(sets, Key("rl", "day", ip)), limits.Day(), day, last) && Bounded(day, limits.Day())
  }

  lemma CheckTouchesOneKey(sets: map<string, ZSet>, ip: string, cfg: Limit, now: real, written: real, key: string)
    ensures key == Key("rl", cfg.name, ip) ==>
      ZSetAt(AfterCheck(sets, ip, cfg, now, written), key).scores
        == Checked(ZSetAt(sets, key), cfg, now, written).scores
    ensures key == Key("rl", cfg.name, ip) && Checked(ZSetAt(sets, key), cfg, now, written).scores != [] ==>
      ZSetAt(AfterCheck(sets, ip, cfg, now, written), key) == Checked(ZSetAt(sets, key), cfg, now, written)
    ensures key != Key("rl", cfg.name, ip) ==>
      ZSetAt(AfterCheck(sets, ip, cfg, now, written), key) == ZSetAt(sets, key)
  {
  }

  /** An emptied set and a missing one look alike. */
  lemma EmptyAgrees(z: ZSet, cfg: Limit, admitted: seq<real>, last: real)
    requires Agrees(z, cfg, admitted, last) && z.scores == []
    ensures Agrees(EMPTY, cfg, admitted, last)
  {
    forall t: real | t >= last ensures Look(EMPTY, cfg, t).scores == Newer(admitted, t - cfg.window as real) {
      LookScores(EMPTY, cfg, t);
      LookScores(z, cfg, t);
      assert Look(z, cfg, t).scores == Newer(admitted, t - cfg.window as real);
    }
  }

  /** One check of an address against one limit keeps that key in agreement with the ideal limit. */
  lemma CheckKeepsKey(sets: map<string, ZSet>, ip: string, cfg: Limit, admitted: seq<real>, last: real, now: real,
      written: real)
    requires Agrees(ZSetAt(sets, Key("rl", cfg.name, ip)), cfg, admitted, last) && Bounded(admitted, cfg)
    requires last <= now <= written
    ensures DecisionAt(sets, ip, cfg, now) == IdealDecision(admitted, cfg, now)
    ensures var after, kept := AfterCheck(sets, ip, cfg, now, written), IdealAdmitted(admitted, cfg, now);
      Agrees(ZSetAt(after, Key("rl", cfg.name, ip)), cfg, kept, written) && Bounded(kept, cfg)
  {
    var key := Key("rl", cfg.name, ip);
    CallAgrees(ZSetAt(sets, key), cfg, admitted, last, now, written);
    AgreesLater(ZSetAt(sets, key), cfg, admitted, last, now);
    AdmitKeepsBound(admitted, cfg, now);
    CheckTouchesOneKey(sets, ip, cfg, now, written, key);
    if Checked(ZSetAt(sets, key), cfg, now, written).scores == [] {
      EmptyAgrees(Checked(ZSetAt(sets, key), cfg, now, written), cfg, IdealAdmitted(admitted, cfg, now), written);
    }
  }
}
