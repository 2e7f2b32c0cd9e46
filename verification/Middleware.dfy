/** The two limits together, over every sequential run of requests from any addresses. */
module Middleware {
  import opened Sequences
  import opened SlidingWindow
  import opened RateLimiter

  lemma KeysDiffer(ip1: string, ip2: string)
    ensures Key("rl", "minute", ip1) != Key("rl", "day", ip2)
    ensures Key("rl", "minute", ip1) == Key("rl", "minute", ip2) ==> ip1 == ip2
    ensures Key("rl", "day", ip1) == Key("rl", "day", ip2) ==> ip1 == ip2
  {
    KeyInjective("rl", "minute", ip1, "day", ip2);
    KeyInjective("rl", "minute", ip1, "minute", ip2);
    KeyInjective("rl", "day", ip1, "day", ip2);
  }

  lemma KeptLater(sets: map<string, ZSet>, limits: Limits, ip: string, minute: seq<real>, day: seq<real>, last: real,
      later: real)
    requires KeptFor(sets, limits, ip, minute, day, last) && last <= later
    ensures KeptFor(sets, limits, ip, minute, day, later)
  {
    AgreesLater(ZSetAt(sets, Key("rl", "minute", ip)), limits.Minute(), minute, last, later);
    AgreesLater(ZSetAt(sets, Key("rl", "day", ip)), limits.Day(), day, last, later);
  }

  lemma MinuteCheckKeeps(sets: map<string, ZSet>, limits: Limits, ip: string, minute: seq<real>, day: seq<real>,
      last: real, now: real, written: real)
    requires KeptFor(sets, limits, ip, minute, day, last) && last <= now <= written
    ensures DecisionAt(sets, ip, limits.Minute(), now) == IdealDecision(minute, limits.Minute(), now)
    ensures KeptFor(AfterCheck(sets, ip, limits.Minute(), now, written), limits, ip,
      IdealAdmitted(minute, limits.Minute(), now), day, written)
  {
    KeysDiffer(ip, ip);
    CheckKeepsKey(sets, ip, limits.Minute(), minute, last, now, written);
    CheckTouchesOneKey(sets, ip, limits.Minute(), now, written, Key("rl", "day", ip));
    AgreesLater(ZSetAt(sets, Key("rl", "day", ip)), limits.Day(), day, last, written);
  }

  lemma DayCheckKeeps(sets: map<string, ZSet>, limits: Limits, ip: string, minute: seq<real>, day: seq<real>,
      last: real, now: real, written: real)
    requires KeptFor(sets, limits, ip, minute, day, last) && last <= now <= written
    ensures DecisionAt(sets, ip, limits.Day(), now) == IdealDecision(day, limits.Day(), now)
    ensures KeptFor(AfterCheck(sets, ip, limits.Day(), now, written), limits, ip, minute,
      IdealAdmitted(day, limits.Day(), now), written)
  {
    KeysDiffer(ip, ip);
    CheckKeepsKey(sets, ip, limits.Day(), day, last, now, written);
    CheckTouchesOneKey(sets, ip, limits.Day(), now, written, Key("rl", "minute", ip));
    AgreesLater(ZSetAt(sets, Key("rl", "minute", ip)), limits.Minute(), minute, last, written);
  }

  lemma OtherAddressesKeep(sets: map<string, ZSet>, limits: Limits, ip: string, r: Request)
    requires r.ip != ip
    ensures ZSetAt(SetsAfterReply(sets, limits, r), Key("rl", "minute", ip)) == ZSetAt(sets, Key("rl", "minute", ip))
    ensures ZSetAt(SetsAfterReply(sets, limits, r), Key("rl", "day", ip)) == ZSetAt(sets, Key("rl", "day", ip))
  {
    KeysDiffer(r.ip, ip);
    KeysDiffer(ip, r.ip);
    var first := AfterCheck(sets, r.ip, limits.Minute(), r.now1, r.written1);
    CheckTouchesOneKey(sets, r.ip, limits.Minute(), r.now1, r.written1, Key("rl", "minute", ip));
    CheckTouchesOneKey(sets, r.ip, limits.Minute(), r.now1, r.written1, Key("rl", "day", ip));
    CheckTouchesOneKey(first, r.ip, limits.Day(), r.now2, r.written2, Key("rl", "minute", ip));
    CheckTouchesOneKey(first, r.ip, limits.Day(), r.now2, r.written2, Key("rl", "day", ip));
  }

  /** The reply of a server that remembers every request each limit ever admitted. */
  function IdealReply(limits: Limits, minute: seq<real>, day: seq<real>, r: Request): Reply {
    var m, d := IdealDecision(minute, limits.Minute(), r.now1), IdealDecision(day, limits.Day(), r.now2);
    if !Metered(r.path) then Unmetered
    else if !m.allowed then TooMany("minute", m.retryAfter)
    else if !d.allowed then TooMany("day", d.retryAfter)
    else Forwarded
  }

  /** What one more request adds to an address's two logs. */
  ghost predicate Logged(reply: Reply, r: Request, ip: string, minute: seq<real>, day: seq<real>, minute': seq<real>,
      day': seq<real>) {
    if r.ip == ip && reply == Forwarded then minute' == minute + [r.now1] && day' == day + [r.now2]
    else if r.ip == ip && reply.TooMany? && reply.limit == "day" then minute' == minute + [r.now1] && day' == day
    else minute' == minute && day' == day
  }

  lemma ReplyKeeps(sets: map<string, ZSet>, limits: Limits, ip: string, minute: seq<real>, day: seq<real>, last: real,
      r: Request)
    returns (minute': seq<real>, day': seq<real>)
    requires KeptFor(sets, limits, ip, minute, day, last) && InOrder(r) && last <= r.now1
    ensures r.ip == ip ==> ReplyTo(sets, limits, r) == IdealReply(limits, minute, day, r)
    ensures Logged(ReplyTo(sets, limits, r), r, ip, minute, day, minute', day')
    ensures KeptFor(SetsAfterReply(sets, limits, r), limits, ip, minute', day', r.written2)
  {
    minute', day' := minute, day;
    if r.ip != ip {
      OtherAddressesKeep(sets, limits, ip, r);
      KeptLater(sets, limits, ip, minute, day, last, r.written2);
    } else if !Metered(r.path) {
      KeptLater(sets, limits, ip, minute, day, last, r.written2);
    } else {
      var first := AfterCheck(sets, ip, limits.Minute(), r.now1, r.written1);
      MinuteCheckKeeps(sets, limits, ip, minute, day, last, r.now1, r.written1);
      minute' := IdealAdmitted(minute, limits.Minute(), r.now1);
      if minute' == minute {
        KeptLater(first, limits, ip, minute', day, r.written1, r.written2);
      } else {
        DayCheckKeeps(first, limits, ip, minute', day, r.written1, r.now2, r.written2);
        day' := IdealAdmitted(day, limits.Day(), r.now2);
      }
    }
  }

  /** After any sequential run, both sorted sets of an address hold exactly what each limit
      admitted for it and still counts. */
  lemma {:induction false} RunKeeps(rs: seq<Request>, limits: Limits, ip: string, start: real)
    requires Sequential(rs, start)
    ensures KeptFor(SetsAfter(rs, limits), limits, ip, PassedMinute(rs, limits, ip), ForwardedDay(rs, limits, ip),
      LastTime(rs, start))
  {
    if rs == [] {
      NothingAgrees(limits.Minute(), start);
      NothingAgrees(limits.Day(), start);
    } else {
      var before, r := rs[..|rs| - 1], rs[|rs| - 1];
      RunKeeps(before, limits, ip, start);
      var m, d := PassedMinute(before, limits, ip), ForwardedDay(before, limits, ip);
      var m', d' := ReplyKeeps(SetsAfter(before, limits), limits, ip, m, d, LastTime(before, start), r);
      assert m + [] == m && d + [] == d;
      assert m' == PassedMinute(rs, limits, ip) && d' == ForwardedDay(rs, limits, ip);
    }
  }

  /** Every reply is the one the ideal server gives, which counts a forwarded request in both
      windows, a request stopped by the day limit in the minute window only, and a request
      stopped by the minute limit in neither. */
  lemma RepliesAreIdeal(rs: seq<Request>, limits: Limits, start: real)
    requires Sequential(rs, start) && rs != []
    ensures var before, r := rs[..|rs| - 1], rs[|rs| - 1];
      LastReply(rs, limits)
        == IdealReply(limits, PassedMinute(before, limits, r.ip), ForwardedDay(before, limits, r.ip), r)
  {
    var before, r := rs[..|rs| - 1], rs[|rs| - 1];
    RunKeeps(before, limits, r.ip, start);
    var m, d := ReplyKeeps(SetsAfter(before, limits), limits, r.ip, PassedMinute(before, limits, r.ip),
                           ForwardedDay(before, limits, r.ip), LastTime(before, start), r);
  }

  lemma {:induction false} ForwardedPassed(rs: seq<Request>, limits: Limits, ip: string, t: real)
    ensures |InWindow(ForwardedMinute(rs, limits, ip), limits.Minute(), t)|
      <= |InWindow(PassedMinute(rs, limits, ip), limits.Minute(), t)|
  {
    if rs != [] {
      var before, r := rs[..|rs| - 1], rs[|rs| - 1];
      var f, p := ForwardedMinute(before, limits, ip), PassedMinute(before, limits, ip);
      ForwardedPassed(before, limits, ip, t);
      WithinOneMore(f, r.now1, t - 60.0, t);
      WithinOneMore(p, r.now1, t - 60.0, t);
      assert f + [] == f && p + [] == p;
    }
  }

  /** In every sequential run, the requests forwarded for one address respect both limits over
      every minute and every day, wherever the window is placed. */
  lemma ForwardedWithinBothLimits(rs: seq<Request>, limits: Limits, ip: string, start: real)
    requires Sequential(rs, start)
    ensures Bounded(ForwardedMinute(rs, limits, ip), limits.Minute())
    ensures Bounded(ForwardedDay(rs, limits, ip), limits.Day())
  {
    RunKeeps(rs, limits, ip, start);
    forall t: real
      ensures |InWindow(ForwardedMinute(rs, limits, ip), limits.Minute(), t)| <= Capacity(limits.Minute())
    {
      ForwardedPassed(rs, limits, ip, t);
      assert |InWindow(PassedMinute(rs, limits, ip), limits.Minute(), t)| <= Capacity(limits.Minute());
    }
  }

  // ----- addresses do not interfere -----

  function IsFrom(ip: string): Request -> bool {
    (r: Request) => r.ip == ip
  }

  function OnlyFrom(rs: seq<Request>, ip: string): seq<Request> {
    Filter(rs, IsFrom(ip))
  }

  lemma {:induction false} OnlyFromIsSequential(rs: seq<Request>, ip: string, start: real)
    requires Sequential(rs, start)
    ensures Sequential(OnlyFrom(rs, ip), start) && LastTime(OnlyFrom(rs, ip), start) <= LastTime(rs, start)
  {
    if rs != [] {
      var before, r := rs[..|rs| - 1], rs[|rs| - 1];
      OnlyFromIsSequential(before, ip, start);
      var own := OnlyFrom(before, ip);
      assert (own + [r])[..|own|] == own && own + [] == own;
    }
  }

  lemma OwnReply(rs: seq<Request>, limits: Limits, r: Request, start: real)
    requires Sequential(rs + [r], start)
    requires PassedMinute(OnlyFrom(rs, r.ip), limits, r.ip) == PassedMinute(rs, limits, r.ip)
    requires ForwardedDay(OnlyFrom(rs, r.ip), limits, r.ip) == ForwardedDay(rs, limits, r.ip)
    ensures LastReply(OnlyFrom(rs, r.ip) + [r], limits) == LastReply(rs + [r], limits)
  {
    var own := OnlyFrom(rs, r.ip);
    assert (rs + [r])[..|rs|] == rs && (own + [r])[..|own|] == own;
    OnlyFromIsSequential(rs + [r], r.ip, start);
    assert OnlyFrom(rs + [r], r.ip) == own + [r];
    RepliesAreIdeal(rs + [r], limits, start);
    RepliesAreIdeal(own + [r], limits, start);
  }

  lemma LogsOneMore(rs: seq<Request>, limits: Limits, r: Request, ip: string)
    ensures var reply := LastReply(rs + [r], limits);
      Logged(reply, r, ip, PassedMinute(rs, limits, ip), ForwardedDay(rs, limits, ip),
             PassedMinute(rs + [r], limits, ip), ForwardedDay(rs + [r], limits, ip))
  {
    assert (rs + [r])[..|rs|] == rs;
    var m, d := PassedMinute(rs, limits, ip), ForwardedDay(rs, limits, ip);
    assert m + [] == m && d + [] == d;
  }

  /** An address's logs are what they would be had nobody else sent anything. */
  lemma {:induction false} OwnRequestsDecide(rs: seq<Request>, limits: Limits, ip: string, start: real)
    requires Sequential(rs, start)
    ensures PassedMinute(OnlyFrom(rs, ip), limits, ip) == PassedMinute(rs, limits, ip)
    ensures ForwardedDay(OnlyFrom(rs, ip), limits, ip) == ForwardedDay(rs, limits, ip)
  {
    if rs != [] {
      var before, r := rs[..|rs| - 1], rs[|rs| - 1];
      var own := OnlyFrom(before, ip);
      assert rs == before + [r];
      OwnRequestsDecide(before, limits, ip, start);
      LogsOneMore(before, limits, r, ip);
      if r.ip == ip {
        assert OnlyFrom(rs, ip) == own + [r];
        OwnReply(before, limits, r, start);
        LogsOneMore(own, limits, r, ip);
      } else {
        assert OnlyFrom(rs, ip) == own;
      }
    }
  }

  /** Every reply depends only on the requests of the same address. */
  lemma AddressesDoNotInterfere(rs: seq<Request>, limits: Limits, start: real)
    requires Sequential(rs, start) && rs != []
    ensures var r := rs[|rs| - 1];
      OnlyFrom(rs, r.ip) != [] && LastReply(OnlyFrom(rs, r.ip), limits) == LastReply(rs, limits)
  {
    var before, r := rs[..|rs| - 1], rs[|rs| - 1];
    OwnRequestsDecide(before, limits, r.ip, start);
    assert rs == before + [r] && OnlyFrom(rs, r.ip) == OnlyFrom(before, r.ip) + [r];
    OwnReply(before, limits, r, start);
  }
}
