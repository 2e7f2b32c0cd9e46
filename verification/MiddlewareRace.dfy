/** Requests of any addresses interleaved over both limits: every clock reading and every Redis
    command of every request is a step of its own, and requests may die on the way. */
module MiddlewareRace {
  import opened Wrappers
  import opened SlidingWindow
  import opened RateLimiter
  import opened LimiterRace

  datatype Which = Minute | Day

  /** Where a request stands with its current limit. */
  datatype Phase = Ready | Reading(ts: real) | Swept(ts: real) | Admitted(ts: real) | Written(ts: real)

  datatype Flight = Flight(ip: string, which: Which, phase: Phase)

  /** An entry added for a request: whose it was and the clock reading it was added with. */
  datatype Pass = Pass(ip: string, ts: real)

  /** The store, the clock, the requests on their way, and (history variables) the request ids
      used so far, every entry added by each limit, the readings added under each key in order,
      and the requests that were forwarded. A request that dies between add and renewal stays on
      its way. */
  datatype Server = Server(
    sets: map<string, ZSet>,
    clock: real,
    flights: map<nat, Flight>,
    used: set<nat>,
    minute: map<nat, Pass>,
    day: map<nat, Pass>,
    logs: map<string, seq<real>>,
    forwarded: set<nat>
  )

  /** A metered request arrives and reads the clock for the minute limit; its next command executes;
      past the minute limit it reads the clock again for the day limit; it dies. */
  datatype Move =
    | Arrive(id: nat, ip: string, at: real)
    | Send(id: nat, at: real)
    | ReadDay(id: nat, at: real)
    | Die(id: nat, at: real)

  function LimitOf(limits: Limits, which: Which): Limit {
    if which == Minute then limits.Minute() else limits.Day()
  }

  function KeyOf(which: Which, ip: string): string {
    Key("rl", if which == Minute then "minute" else "day", ip)
  }

  function PassesOf(s: Server, which: Which): map<nat, Pass> {
    if which == Minute then s.minute else s.day
  }

  function LogAt(s: Server, key: string): seq<real> {
    if key in s.logs then s.logs[key] else []
  }

  /** The set of a request's current limit as a command finds it. */
  function FoundBy(s: Server, f: Flight, at: real): ZSet {
    Alive(ZSetAt(s.sets, KeyOf(f.which, f.ip)), at)
  }

  function Leaving(s: Server, f: Flight, at: real, z: ZSet): Server {
    s.(clock := at, sets := Put(s.sets, KeyOf(f.which, f.ip), z))
  }

  function Sweep(limits: Limits, s: Server, id: nat, at: real): Server
    requires id in s.flights && s.flights[id].phase.Reading?
  {
    var f := s.flights[id];
    var z := Evict(FoundBy(s, f, at), f.phase.ts - LimitOf(limits, f.which).window as real);
    Leaving(s, f, at, z).(flights := s.flights[id := f.(phase := Swept(f.phase.ts))])
  }

  /** Denied requests are answered 429 and leave. */
  function Judge(limits: Limits, s: Server, id: nat, at: real): Server
    requires id in s.flights && s.flights[id].phase.Swept?
  {
    var f := s.flights[id];
    var z := FoundBy(s, f, at);
    Leaving(s, f, at, z).(flights := if Allows(z.scores, LimitOf(limits, f.which))
                                     then s.flights[id := f.(phase := Admitted(f.phase.ts))] else s.flights - {id})
  }

  function Write(s: Server, id: nat, at: real): Server
    requires id in s.flights && s.flights[id].phase.Admitted?
  {
    var f, z := s.flights[id], FoundBy(s, s.flights[id], at);
    var key, ts := KeyOf(f.which, f.ip), f.phase.ts;
    Leaving(s, f, at, z.(scores := Insert(z.scores, ts))).(
      flights := s.flights[id := f.(phase := Written(ts))],
      logs := s.logs[key := LogAt(s, key) + [ts]],
      minute := if f.which == Minute then s.minute[id := Pass(f.ip, ts)] else s.minute,
      day := if f.which == Day then s.day[id := Pass(f.ip, ts)] else s.day)
  }

  /** On to the day limit, or forwarded. */
  function Extend(limits: Limits, s: Server, id: nat, at: real): Server
    requires id in s.flights && s.flights[id].phase.Written?
  {
    var f, z := s.flights[id], FoundBy(s, s.flights[id], at);
    var renewed := if z.scores == [] then EMPTY else z.(expiresAt := Some(at + Span(LimitOf(limits, f.which))));
    var n := Leaving(s, f, at, renewed);
    if f.which == Minute then n.(flights := s.flights[id := Flight(f.ip, Day, Ready)])
    else n.(flights := s.flights - {id}, forwarded := s.forwarded + {id})
  }

  function Sent(limits: Limits, s: Server, id: nat, at: real): Server
    requires id in s.flights && s.flights[id].phase != Ready
  {
    match s.flights[id].phase
    case Reading(_) => Sweep(limits, s, id, at)
    case Swept(_) => Judge(limits, s, id, at)
    case Admitted(_) => Write(s, id, at)
    case Written(_) => Extend(limits, s, id, at)
  }

  function Take(limits: Limits, s: Server, move: Move): Option<Server> {
    if move.at < s.clock then None
    else
      match move
      case Arrive(id, ip, at) =>
        if id in s.used then None
        else Some(s.(clock := at, used := s.used + {id}, flights := s.flights[id := Flight(ip, Minute, Reading(at))]))
      case Send(id, at) =>
        if id in s.flights && s.flights[id].phase != Ready then Some(Sent(limits, s, id, at)) else None
      case ReadDay(id, at) =>
        if id in s.flights && s.flights[id].phase == Ready
        then Some(s.(clock := at, flights := s.flights[id := s.flights[id].(phase := Reading(at))]))
        else None
      case Die(id, at) =>
        if id in s.flights && !s.flights[id].phase.Written?
        then Some(s.(clock := at, flights := s.flights - {id}))
        else None
  }

  function Serve(limits: Limits, start: real, moves: seq<Move>): Option<Server> {
    if moves == [] then Some(Server(map[], start, map[], {}, map[], map[], map[], {}))
    else
      var before := Serve(limits, start, moves[..|moves| - 1]);
      if before.None? then None else Take(limits, before.value, moves[|moves| - 1])
  }

  // ----- what one key sees -----

  datatype Stage = Waiting | Pending | Expiring

  function StageOf(phase: Phase): Option<Stage> {
    match phase
    case Ready => None
    case Reading(_) => Some(Waiting)
    case Swept(_) => Some(Waiting)
    case Admitted(_) => Some(Pending)
    case Written(_) => Some(Expiring)
  }

  predicate IsAt(s: Server, id: nat, which: Which, ip: string, stage: Stage) {
    && id in s.flights && s.flights[id].ip == ip && s.flights[id].which == which
    && StageOf(s.flights[id].phase) == Some(stage)
  }

  function CallsOn(s: Server, which: Which, ip: string, stage: Stage): map<nat, real> {
    map id | id in s.flights && IsAt(s, id, which, ip, stage) :: s.flights[id].phase.ts
  }

  predicate HasSwept(s: Server, id: nat, which: Which, ip: string) {
    IsAt(s, id, which, ip, Waiting) && s.flights[id].phase.Swept?
  }

  function SweptOn(s: Server, which: Which, ip: string): set<nat> {
    set id | id in s.flights && HasSwept(s, id, which, ip)
  }

  /** The race on one key, as of its own last step. */
  function RaceAt(s: Server, which: Which, ip: string, clock: real): Race {
    var key := KeyOf(which, ip);
    Race(ZSetAt(s.sets, key), clock, CallsOn(s, which, ip, Waiting), SweptOn(s, which, ip),
         CallsOn(s, which, ip, Pending), CallsOn(s, which, ip, Expiring), LogAt(s, key))
  }

  function StepFor(phase: Phase, id: nat, at: real): Step
    requires phase != Ready
  {
    match phase
    case Reading(_) => Clear(id, at)
    case Swept(_) => Count(id, at)
    case Admitted(_) => Add(id, at)
    case Written(_) => Renew(id, at)
  }

  predicate IsOn(s: Server, id: nat, which: Which, ip: string) {
    id in s.flights && s.flights[id].which == which && s.flights[id].ip == ip
  }

  /** The step a move makes on one key, if any. */
  function StepOn(s: Server, move: Move, which: Which, ip: string): Option<Step> {
    match move
    case Arrive(id, from, at) => if which == Minute && from == ip then Some(Start(id, at)) else None
    case ReadDay(id, at) => if which == Day && IsOn(s, id, Day, ip) then Some(Start(id, at)) else None
    case Send(id, at) =>
      if IsOn(s, id, which, ip) && s.flights[id].phase != Ready
      then Some(StepFor(s.flights[id].phase, id, at)) else None
    case Die(id, at) =>
      if IsOn(s, id, which, ip) && s.flights[id].phase != Ready then Some(Leave(id, at)) else None
  }

  /** The steps a run makes on one key. */
  function StepsOn(limits: Limits, start: real, moves: seq<Move>, which: Which, ip: string): seq<Step> {
    if moves == [] then []
    else
      var before, last := moves[..|moves| - 1], moves[|moves| - 1];
      var s := Serve(limits, start, before);
      var step := if s.None? then None else StepOn(s.value, last, which, ip);
      StepsOn(limits, start, before, which, ip) + if step.Some? then [step.value] else []
  }

  lemma KeysAreDistinct(w1: Which, ip1: string, w2: Which, ip2: string)
    ensures KeyOf(w1, ip1) == KeyOf(w2, ip2) <==> w1 == w2 && ip1 == ip2
  {
    KeyInjective("rl", if w1 == Minute then "minute" else "day", ip1, if w2 == Minute then "minute" else "day", ip2);
  }

  // ----- ids and entries -----

  /** A request on its way has entries of exactly the limits it is past. */
  ghost predicate SoundFlight(s: Server, id: nat)
    requires id in s.flights
  {
    var f := s.flights[id];
    && id in s.used && id !in s.forwarded
    && (if f.which == Minute
        then f.phase != Ready && id !in s.day && (f.phase.Written? <==> id in s.minute)
        else id in s.minute && (f.phase.Written? <==> id in s.day))
    && (id in s.minute ==> s.minute[id].ip == f.ip)
    && (id in s.day ==> s.day[id].ip == f.ip)
  }

  /** A forwarded request has an entry of each limit for one address, and no empty set is stored. */
  ghost predicate SoundPasses(s: Server) {
    && s.minute.Keys <= s.used && s.day.Keys <= s.minute.Keys && s.forwarded <= s.day.Keys
    && (forall id :: id in s.day ==> id in s.minute && s.minute[id].ip == s.day[id].ip)
    && forall key :: key in s.sets ==> s.sets[key].scores != []
  }

  ghost predicate Sound(s: Server) {
    SoundPasses(s) && forall id :: id in s.flights ==> SoundFlight(s, id)
  }

  lemma SentStaysSound(limits: Limits, s: Server, id: nat, at: real)
    requires Sound(s) && id in s.flights && s.flights[id].phase != Ready
    ensures Sound(Sent(limits, s, id, at))
  {
    var n := Sent(limits, s, id, at);
    assert SoundFlight(s, id);
    forall other | other in n.flights ensures SoundFlight(n, other) {
      assert SoundFlight(s, other);
    }
  }

  lemma StaysSound(limits: Limits, s: Server, move: Move)
    requires Sound(s) && Take(limits, s, move).Some?
    ensures Sound(Take(limits, s, move).value)
  {
    if move.Send? {
      SentStaysSound(limits, s, move.id, move.at);
    } else {
      var n := Take(limits, s, move).value;
      assert move.id in s.flights ==> SoundFlight(s, move.id);
      forall other | other in n.flights ensures SoundFlight(n, other) {
        assert other in s.flights ==> SoundFlight(s, other);
      }
    }
  }

  lemma {:induction false} RunIsSound(limits: Limits, start: real, moves: seq<Move>)
    requires Serve(limits, start, moves).Some?
    ensures Sound(Serve(limits, start, moves).value)
  {
    if moves != [] {
      RunIsSound(limits, start, moves[..|moves| - 1]);
      StaysSound(limits, Serve(limits, start, moves[..|moves| - 1]).value, moves[|moves| - 1]);
    }
  }

  lemma FlightsAreUsed(s: Server)
    requires Sound(s)
    ensures forall id :: id in s.flights ==> id in s.used
  {
    forall id | id in s.flights ensures id in s.used {
      assert SoundFlight(s, id);
    }
  }

  // ----- a run of the server is a race on every key -----

  lemma PutAt(sets: map<string, ZSet>, key: string, z: ZSet, other: string)
    requires z.scores == [] ==> z == EMPTY
    ensures ZSetAt(Put(sets, key, z), other) == if other == key then z else ZSetAt(sets, other)
  {
  }

  /** The two servers have the same request under this id, or neither has one. */
  ghost predicate SameFlight(s: Server, n: Server, id: nat) {
    if id in s.flights then id in n.flights && n.flights[id] == s.flights[id] else id !in n.flights
  }

  ghost predicate ChangesOnly(s: Server, n: Server, id: nat) {
    forall other: nat :: other != id ==> SameFlight(s, n, other)
  }

  /** The calls of one stage differ at most in this request. */
  ghost predicate StageChanges(s: Server, n: Server, id: nat, which: Which, ip: string, stage: Stage) {
    var before, after := CallsOn(s, which, ip, stage), CallsOn(n, which, ip, stage);
    && after == (if IsAt(n, id, which, ip, stage) then before[id := n.flights[id].phase.ts] else before - {id})
    && (!IsAt(s, id, which, ip, stage) ==> before - {id} == before)
  }

  lemma CallsChange(s: Server, n: Server, id: nat, which: Which, ip: string, stage: Stage)
    requires ChangesOnly(s, n, id)
    ensures StageChanges(s, n, id, which, ip, stage)
  {
    var before, after := CallsOn(s, which, ip, stage), CallsOn(n, which, ip, stage);
    forall other: nat | other != id
      ensures other in after <==> other in before
      ensures other in before ==> after[other] == before[other]
    {
      assert SameFlight(s, n, other);
    }
  }

  lemma SweptChange(s: Server, n: Server, id: nat, which: Which, ip: string)
    requires ChangesOnly(s, n, id)
    ensures SweptOn(n, which, ip) ==
      if HasSwept(n, id, which, ip) then SweptOn(s, which, ip) + {id} else SweptOn(s, which, ip) - {id}
    ensures !HasSwept(s, id, which, ip) ==> SweptOn(s, which, ip) - {id} == SweptOn(s, which, ip)
  {
    forall other: nat | other != id ensures other in SweptOn(n, which, ip) <==> other in SweptOn(s, which, ip) {
      assert SameFlight(s, n, other);
    }
  }

  lemma AllChange(s: Server, n: Server, id: nat, which: Which, ip: string)
    requires ChangesOnly(s, n, id)
    ensures StageChanges(s, n, id, which, ip, Waiting) && StageChanges(s, n, id, which, ip, Pending)
    ensures StageChanges(s, n, id, which, ip, Expiring)
    ensures SweptOn(n, which, ip) ==
      if HasSwept(n, id, which, ip) then SweptOn(s, which, ip) + {id} else SweptOn(s, which, ip) - {id}
    ensures !HasSwept(s, id, which, ip) ==> SweptOn(s, which, ip) - {id} == SweptOn(s, which, ip)
  {
    CallsChange(s, n, id, which, ip, Waiting);
    CallsChange(s, n, id, which, ip, Pending);
    CallsChange(s, n, id, which, ip, Expiring);
    SweptChange(s, n, id, which, ip);
  }

  predicate OffKey(s: Server, id: nat, which: Which, ip: string) {
    !(IsOn(s, id, which, ip) && s.flights[id].phase != Ready)
  }

  lemma SameRace(s: Server, n: Server, id: nat, which: Which, ip: string, clock: real)
    requires OffKey(s, id, which, ip) && OffKey(n, id, which, ip) && ChangesOnly(s, n, id)
    requires ZSetAt(n.sets, KeyOf(which, ip)) == ZSetAt(s.sets, KeyOf(which, ip))
    requires LogAt(n, KeyOf(which, ip)) == LogAt(s, KeyOf(which, ip))
    ensures RaceAt(n, which, ip, clock) == RaceAt(s, which, ip, clock)
  {
    AllChange(s, n, id, which, ip);
  }

  /** What a command leaves under its own key. */
  function LeftBy(limits: Limits, s: Server, id: nat, at: real): ZSet
    requires id in s.flights && s.flights[id].phase != Ready
  {
    var f, z := s.flights[id], FoundBy(s, s.flights[id], at);
    var cfg := LimitOf(limits, f.which);
    match f.phase
    case Reading(ts) => Evict(z, ts - cfg.window as real)
    case Swept(_) => z
    case Admitted(ts) => z.(scores := Insert(z.scores, ts))
    case Written(_) => if z.scores == [] then EMPTY else z.(expiresAt := Some(at + Span(cfg)))
  }

  lemma SendStores(limits: Limits, s: Server, id: nat, at: real, key: string)
    requires SoundPasses(s) && id in s.flights && s.flights[id].phase != Ready
    ensures ZSetAt(Sent(limits, s, id, at).sets, key) ==
      if key == KeyOf(s.flights[id].which, s.flights[id].ip) then LeftBy(limits, s, id, at) else ZSetAt(s.sets, key)
  {
    var f, z := s.flights[id], FoundBy(s, s.flights[id], at);
    var own, left := KeyOf(f.which, f.ip), LeftBy(limits, s, id, at);
    assert z.scores == [] ==> z == EMPTY;
    if f.phase.Admitted? {
      InsertIsNeverEmpty(z.scores, f.phase.ts);
    }
    assert Sent(limits, s, id, at).sets == Put(s.sets, own, left);
    PutAt(s.sets, own, left, key);
  }

  lemma SendElsewhere(limits: Limits, s: Server, id: nat, at: real, which: Which, ip: string, clock: real)
    requires SoundPasses(s) && id in s.flights && s.flights[id].phase != Ready && !IsOn(s, id, which, ip)
    ensures RaceAt(Sent(limits, s, id, at), which, ip, clock) == RaceAt(s, which, ip, clock)
  {
    var f := s.flights[id];
    KeysAreDistinct(f.which, f.ip, which, ip);
    SendStores(limits, s, id, at, KeyOf(which, ip));
    SameRace(s, Sent(limits, s, id, at), id, which, ip, clock);
  }

  lemma ElsewhereUnchanged(limits: Limits, s: Server, move: Move, which: Which, ip: string, clock: real)
    requires Sound(s) && Take(limits, s, move).Some? && StepOn(s, move, which, ip).None?
    ensures RaceAt(Take(limits, s, move).value, which, ip, clock) == RaceAt(s, which, ip, clock)
  {
    match move
    case Send(id, at) => SendElsewhere(limits, s, id, at, which, ip, clock);
    case Arrive(id, from, at) =>
      FlightsAreUsed(s);
      SameRace(s, Take(limits, s, move).value, id, which, ip, clock);
    case ReadDay(id, at) =>
      assert SoundFlight(s, id);
      SameRace(s, Take(limits, s, move).value, id, which, ip, clock);
    case Die(id, at) => SameRace(s, Take(limits, s, move).value, id, which, ip, clock);
  }

  lemma StartsOnKey(limits: Limits, s: Server, move: Move, which: Which, ip: string, clock: real)
    requires Sound(s) && Take(limits, s, move).Some? && (move.Arrive? || move.ReadDay?) && clock <= s.clock
    requires StepOn(s, move, which, ip).Some?
    ensures var n := Take(limits, s, move).value;
      Next(LimitOf(limits, which), RaceAt(s, which, ip, clock), Start(move.id, move.at))
      == Some(RaceAt(n, which, ip, move.at))
  {
    FlightsAreUsed(s);
    if move.ReadDay? { assert SoundFlight(s, move.id); }
    AllChange(s, Take(limits, s, move).value, move.id, which, ip);
  }

  lemma DiesOnKey(limits: Limits, s: Server, id: nat, at: real, clock: real)
    requires id in s.flights && s.flights[id].phase != Ready && !s.flights[id].phase.Written?
    requires clock <= s.clock <= at
    ensures var f, n := s.flights[id], s.(clock := at, flights := s.flights - {id});
      Next(LimitOf(limits, f.which), RaceAt(s, f.which, f.ip, clock), Leave(id, at))
      == Some(RaceAt(n, f.which, f.ip, at))
  {
    var f, n := s.flights[id], s.(clock := at, flights := s.flights - {id});
    AllChange(s, n, id, f.which, f.ip);
  }

  /** Seen from its own key, the next command of a request is the step of that name. */
  ghost predicate SendIsStep(limits: Limits, s: Server, id: nat, at: real, clock: real)
    requires id in s.flights && s.flights[id].phase != Ready
  {
    var f := s.flights[id];
    Next(LimitOf(limits, f.which), RaceAt(s, f.which, f.ip, clock), StepFor(f.phase, id, at))
    == Some(RaceAt(Sent(limits, s, id, at), f.which, f.ip, at))
  }

  lemma SweepsOnKey(limits: Limits, s: Server, id: nat, at: real, clock: real)
    requires SoundPasses(s) && id in s.flights && s.flights[id].phase.Reading? && clock <= s.clock <= at
    ensures SendIsStep(limits, s, id, at, clock)
  {
    var f, n := s.flights[id], Sent(limits, s, id, at);
    AllChange(s, n, id, f.which, f.ip);
    SendStores(limits, s, id, at, KeyOf(f.which, f.ip));
    var waiting := CallsOn(s, f.which, f.ip, Waiting);
    assert waiting[id := f.phase.ts] == waiting;
  }

  lemma JudgesOnKey(limits: Limits, s: Server, id: nat, at: real, clock: real)
    requires SoundPasses(s) && id in s.flights && s.flights[id].phase.Swept? && clock <= s.clock <= at
    ensures SendIsStep(limits, s, id, at, clock)
  {
    var f, n := s.flights[id], Sent(limits, s, id, at);
    AllChange(s, n, id, f.which, f.ip);
    SendStores(limits, s, id, at, KeyOf(f.which, f.ip));
  }

  lemma WritesOnKey(limits: Limits, s: Server, id: nat, at: real, clock: real)
    requires SoundPasses(s) && id in s.flights && s.flights[id].phase.Admitted? && clock <= s.clock <= at
    ensures SendIsStep(limits, s, id, at, clock)
  {
    var f, n := s.flights[id], Sent(limits, s, id, at);
    AllChange(s, n, id, f.which, f.ip);
    SendStores(limits, s, id, at, KeyOf(f.which, f.ip));
  }

  lemma ExtendsOnKey(limits: Limits, s: Server, id: nat, at: real, clock: real)
    requires SoundPasses(s) && id in s.flights && s.flights[id].phase.Written? && clock <= s.clock <= at
    ensures SendIsStep(limits, s, id, at, clock)
  {
    var f, n := s.flights[id], Sent(limits, s, id, at);
    AllChange(s, n, id, f.which, f.ip);
    SendStores(limits, s, id, at, KeyOf(f.which, f.ip));
  }

  lemma SendsOnKey(limits: Limits, s: Server, id: nat, at: real, clock: real)
    requires SoundPasses(s) && id in s.flights && s.flights[id].phase != Ready && clock <= s.clock <= at
    ensures SendIsStep(limits, s, id, at, clock)
  {
    match s.flights[id].phase
    case Reading(_) => SweepsOnKey(limits, s, id, at, clock);
    case Swept(_) => JudgesOnKey(limits, s, id, at, clock);
    case Admitted(_) => WritesOnKey(limits, s, id, at, clock);
    case Written(_) => ExtendsOnKey(limits, s, id, at, clock);
  }

  lemma MoveIsStep(limits: Limits, s: Server, move: Move, which: Which, ip: string, clock: real)
    requires Sound(s) && Take(limits, s, move).Some? && clock <= s.clock
    ensures var n, step := Take(limits, s, move).value, StepOn(s, move, which, ip);
      if step.None? then RaceAt(n, which, ip, clock) == RaceAt(s, which, ip, clock)
      else Next(LimitOf(limits, which), RaceAt(s, which, ip, clock), step.value) == Some(RaceAt(n, which, ip, move.at))
  {
    if StepOn(s, move, which, ip).None? {
      ElsewhereUnchanged(limits, s, move, which, ip, clock);
    } else {
      match move
      case Send(id, at) => SendsOnKey(limits, s, id, at, clock);
      case Die(id, at) => DiesOnKey(limits, s, id, at, clock);
      case _ => StartsOnKey(limits, s, move, which, ip, clock);
    }
  }

  lemma RaceBegins(limits: Limits, start: real, which: Which, ip: string)
    ensures var s := Serve(limits, start, []).value;
      RaceAt(s, which, ip, start) == Race(EMPTY, start, map[], {}, map[], map[], [])
  {
  }

  lemma StepsOnLonger(limits: Limits, start: real, moves: seq<Move>, which: Which, ip: string)
    requires moves != [] && Serve(limits, start, moves[..|moves| - 1]).Some?
    ensures var before := moves[..|moves| - 1];
      var step := StepOn(Serve(limits, start, before).value, moves[|moves| - 1], which, ip);
      StepsOn(limits, start, moves, which, ip)
      == if step.Some? then StepsOn(limits, start, before, which, ip) + [step.value]
         else StepsOn(limits, start, before, which, ip)
  {
  }

  /** Seen from one key, a run of the server is a run of the race on it, whatever the other
      addresses and the other limit do in between. */
  lemma {:induction false} ServerSimulatesRace(limits: Limits, start: real, moves: seq<Move>, which: Which, ip: string)
    returns (clock: real)
    requires Serve(limits, start, moves).Some?
    ensures var s := Serve(limits, start, moves).value;
      && Exec(LimitOf(limits, which), start, StepsOn(limits, start, moves, which, ip))
        == Some(RaceAt(s, which, ip, clock))
      && clock <= s.clock
  {
    if moves == [] {
      clock := start;
      RaceBegins(limits, start, which, ip);
    } else {
      var before, last := moves[..|moves| - 1], moves[|moves| - 1];
      clock := ServerSimulatesRace(limits, start, before, which, ip);
      RunIsSound(limits, start, before);
      var s := Serve(limits, start, before).value;
      MoveIsStep(limits, s, last, which, ip, clock);
      ClockFollows(limits, s, last);
      StepsOnLonger(limits, start, moves, which, ip);
      var step := StepOn(s, last, which, ip);
      if step.Some? {
        ExecLonger(LimitOf(limits, which), start, StepsOn(limits, start, before, which, ip), step.value);
        clock := last.at;
      }
    }
  }

  lemma ClockFollows(limits: Limits, s: Server, move: Move)
    requires Take(limits, s, move).Some?
    ensures s.clock <= move.at == Take(limits, s, move).value.clock
  {
  }

  // ----- the bound on forwarded requests -----

  function PassedBy(s: Server, which: Which, ip: string): map<nat, real> {
    map id | id in PassesOf(s, which) && PassesOf(s, which)[id].ip == ip :: PassesOf(s, which)[id].ts
  }

  /** The entries the limit logged for the address in the window are those of the requests it passed. */
  ghost predicate Logged(limits: Limits, s: Server, which: Which, ip: string, t: real) {
    Tally(LogAt(s, KeyOf(which, ip)), LimitOf(limits, which), t)
    == TallyOf(PassedBy(s, which, ip), LimitOf(limits, which), t)
  }

  lemma PassAdded(s: Server, id: nat, at: real)
    requires Sound(s) && id in s.flights && s.flights[id].phase.Admitted?
    ensures var f, n := s.flights[id], Write(s, id, at);
      && LogAt(n, KeyOf(f.which, f.ip)) == LogAt(s, KeyOf(f.which, f.ip)) + [f.phase.ts]
      && id !in PassedBy(s, f.which, f.ip)
      && PassedBy(n, f.which, f.ip) == PassedBy(s, f.which, f.ip)[id := f.phase.ts]
  {
    assert SoundFlight(s, id);
  }

  lemma PassHere(limits: Limits, s: Server, id: nat, at: real, t: real)
    requires Sound(s) && id in s.flights && s.flights[id].phase.Admitted?
    requires Logged(limits, s, s.flights[id].which, s.flights[id].ip, t)
    ensures Logged(limits, Write(s, id, at), s.flights[id].which, s.flights[id].ip, t)
  {
    var f := s.flights[id];
    var cfg := LimitOf(limits, f.which);
    PassAdded(s, id, at);
    TallyOneMore(LogAt(s, KeyOf(f.which, f.ip)), f.phase.ts, cfg, t);
    CallAdded(PassedBy(s, f.which, f.ip), id, f.phase.ts, cfg, t);
  }

  lemma PassElsewhere(s: Server, id: nat, at: real, which: Which, ip: string)
    requires Sound(s) && id in s.flights && s.flights[id].phase.Admitted? && !IsOn(s, id, which, ip)
    ensures var n := Write(s, id, at);
      LogAt(n, KeyOf(which, ip)) == LogAt(s, KeyOf(which, ip)) && PassedBy(n, which, ip) == PassedBy(s, which, ip)
  {
    var f, n := s.flights[id], Write(s, id, at);
    assert SoundFlight(s, id);
    KeysAreDistinct(f.which, f.ip, which, ip);
    assert PassedBy(n, which, ip) == PassedBy(s, which, ip);
  }

  lemma OthersPassNobody(limits: Limits, s: Server, move: Move)
    requires Take(limits, s, move).Some? && !(move.Send? && s.flights[move.id].phase.Admitted?)
    ensures var n := Take(limits, s, move).value; n.logs == s.logs && n.minute == s.minute && n.day == s.day
  {
  }

  lemma SameIsLogged(limits: Limits, s: Server, n: Server, which: Which, ip: string, t: real)
    requires Logged(limits, s, which, ip, t) && n.minute == s.minute && n.day == s.day
    requires LogAt(n, KeyOf(which, ip)) == LogAt(s, KeyOf(which, ip))
    ensures Logged(limits, n, which, ip, t)
  {
    assert PassedBy(n, which, ip) == PassedBy(s, which, ip);
  }

  lemma PassIsLogged(limits: Limits, s: Server, move: Move, which: Which, ip: string, t: real)
    requires Sound(s) && Take(limits, s, move).Some? && Logged(limits, s, which, ip, t)
    ensures Logged(limits, Take(limits, s, move).value, which, ip, t)
  {
    if move.Send? && s.flights[move.id].phase.Admitted? {
      assert Take(limits, s, move).value == Write(s, move.id, move.at);
      if IsOn(s, move.id, which, ip) {
        PassHere(limits, s, move.id, move.at, t);
      } else {
        PassElsewhere(s, move.id, move.at, which, ip);
      }
    } else {
      OthersPassNobody(limits, s, move);
      SameIsLogged(limits, s, Take(limits, s, move).value, which, ip, t);
    }
  }

  lemma {:induction false} PassesAreLogged(limits: Limits, start: real, moves: seq<Move>, which: Which, ip: string,
      t: real)
    requires Serve(limits, start, moves).Some?
    ensures Logged(limits, Serve(limits, start, moves).value, which, ip, t)
  {
    if moves == [] {
      assert CallsIn(PassedBy(Serve(limits, start, moves).value, which, ip), LimitOf(limits, which), t) == {};
    } else {
      var before := moves[..|moves| - 1];
      PassesAreLogged(limits, start, before, which, ip, t);
      RunIsSound(limits, start, before);
      PassIsLogged(limits, Serve(limits, start, before).value, moves[|moves| - 1], which, ip, t);
    }
  }

  /** The forwarded requests of an address that a limit counted in the window ending at `t`. */
  function ForwardedIn(limits: Limits, s: Server, which: Which, ip: string, t: real): set<nat> {
    set id | id in s.forwarded && id in PassesOf(s, which) && PassesOf(s, which)[id].ip == ip
             && Inside(PassesOf(s, which)[id].ts, LimitOf(limits, which), t)
  }

  lemma ForwardedAreLogged(limits: Limits, start: real, moves: seq<Move>, which: Which, ip: string, t: real)
    requires Serve(limits, start, moves).Some?
    ensures var s := Serve(limits, start, moves).value;
      |ForwardedIn(limits, s, which, ip, t)| <= Tally(LogAt(s, KeyOf(which, ip)), LimitOf(limits, which), t)
  {
    var s := Serve(limits, start, moves).value;
    PassesAreLogged(limits, start, moves, which, ip, t);
    SubsetIsSmaller(ForwardedIn(limits, s, which, ip, t), CallsIn(PassedBy(s, which, ip), LimitOf(limits, which), t));
  }

  /** In every interleaving of requests of any addresses, the requests forwarded for one address
      exceed neither limit in any window by more than the number of its own calls, not counting dead
      ones, that limit has between count and add at once, less one, as long as that limit's calls for
      that address count and renew within a second of their clock readings, and count before anything
      is evicted with a later reading. */
  lemma InterleavedForwardsAreBounded(limits: Limits, start: real, moves: seq<Move>, which: Which, ip: string, k: nat,
      t: real)
    requires LimitOf(limits, which).maxRequests >= 1 && Serve(limits, start, moves).Some?
    requires Crowd(LimitOf(limits, which), start, StepsOn(limits, start, moves, which, ip), k)
    requires Steady(LimitOf(limits, which), start, StepsOn(limits, start, moves, which, ip), 0.0, 1.0, 1.0)
    ensures |ForwardedIn(limits, Serve(limits, start, moves).value, which, ip, t)|
         <= LimitOf(limits, which).maxRequests + k - 1
  {
    var clock := ServerSimulatesRace(limits, start, moves, which, ip);
    ConcurrentBound(LimitOf(limits, which), start, StepsOn(limits, start, moves, which, ip), k, t);
    ForwardedAreLogged(limits, start, moves, which, ip, t);
  }

  /** Whatever the order and the delays, the calls that limit has between clock and count for the
      address at once, and those it has between add and renewal when the key expires, add at most
      their own number. */
  lemma DelayedForwardsAreBounded(limits: Limits, start: real, moves: seq<Move>, which: Which, ip: string, k: nat,
      u: nat, x: nat, t: real)
    requires LimitOf(limits, which).maxRequests >= 1 && Serve(limits, start, moves).Some?
    requires Crowd(LimitOf(limits, which), start, StepsOn(limits, start, moves, which, ip), k)
    requires Stalls(LimitOf(limits, which), start, StepsOn(limits, start, moves, which, ip), u)
    requires Exposed(LimitOf(limits, which), start, StepsOn(limits, start, moves, which, ip), x)
    ensures |ForwardedIn(limits, Serve(limits, start, moves).value, which, ip, t)|
         <= LimitOf(limits, which).maxRequests + k - 1 + u + x
  {
    var clock := ServerSimulatesRace(limits, start, moves, which, ip);
    StalledBound(LimitOf(limits, which), start, StepsOn(limits, start, moves, which, ip), k, u, x, t);
    ForwardedAreLogged(limits, start, moves, which, ip, t);
  }

  lemma {:induction false} PassedDayIsForwarded(limits: Limits, start: real, moves: seq<Move>, id: nat)
    requires Serve(limits, start, moves).Some?
    ensures var s := Serve(limits, start, moves).value;
      id in s.day ==>
        id in s.forwarded || (id in s.flights && s.flights[id].which == Day && s.flights[id].phase.Written?)
  {
    if moves != [] {
      var before, last := moves[..|moves| - 1], moves[|moves| - 1];
      var s := Serve(limits, start, before).value;
      RunIsSound(limits, start, before);
      PassedDayIsForwarded(limits, start, before, id);
      assert last.id in s.flights ==> SoundFlight(s, last.id);
    }
  }

  /** A forwarded request has an entry of both limits for the address it came from, the day limit adds
      entries only for requests with one of the minute limit, and a request with an entry of the day
      limit is forwarded or has only the renewal left to do. */
  lemma EachForwardedPassedBoth(limits: Limits, start: real, moves: seq<Move>, id: nat)
    requires Serve(limits, start, moves).Some?
    ensures var s := Serve(limits, start, moves).value;
      && (id in s.forwarded ==> id in s.minute && id in s.day && s.minute[id].ip == s.day[id].ip)
      && (id in s.day ==> id in s.minute)
      && (id in s.day && id !in s.flights ==> id in s.forwarded)
  {
    RunIsSound(limits, start, moves);
    PassedDayIsForwarded(limits, start, moves, id);
  }
}
