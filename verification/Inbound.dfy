/** The guardian's decision on a channel message: secret lookup, signature, rate limits, replay
    check, then forwarding or clearing.  From the secret lookup to the decision there is no await,
    so one request is one step; the two prune timers run in between.
 */
module Inbound {
  import opened Prelude
  import Eviction
  import RateLimit
  import Replay
  import SessionTargets
  import Text

  const NONCE_MAX_SIZE: nat := 50_000

  // ---- Channel secrets ----

  predicate IsChannelChar(c: char) {
    'a' <= c <= 'z' || '0' <= c <= '9' || c == '_'
  }

  function Upper(c: char): char {
    if 'a' <= c <= 'z' then c - 'a' + 'A' else c
  }

  function Mapped(s: string, f: char -> char): string {
    seq(|s|, i requires 0 <= i < |s| => f(s[i]))
  }

  function Normalize(c: char): char {
    if Text.Lower(c) == '-' then '_' else Text.Lower(c)
  }

  function NormalizeChannel(channel: string): string {
    Mapped(channel, Normalize)
  }

  /** The secret that the variables `CHANNEL_<NAME>_SECRET`, with `<NAME>` over A-Z, 0-9 and `_`,
      give to the lower-cased name; empty values do not count. */
  function SecretOf(env: map<string, string>, name: string): Option<string> {
    var key := "CHANNEL_" + Mapped(name, Upper) + "_SECRET";
    if name != "" && (forall c :: c in name ==> IsChannelChar(c)) && key in env && env[key] != "" then Some(env[key])
    else None
  }

  /** A character of a variable's name, and the characters of a channel name that it stands for. */
  predicate Stands(a: char, c: char) {
    || ('A' <= a <= 'Z' && (c == a || c as int == a as int + 32))
    || ('0' <= a <= '9' && c == a)
    || (a == '_' && c in {'_', '-'})
  }

  lemma Spelling(a: char, c: char)
    ensures Stands(a, c) <==> IsChannelChar(Normalize(c)) && Upper(Normalize(c)) == a
  {
    assert 'a' <= Normalize(c) <= 'z' ==> Upper(Normalize(c)) as int == Normalize(c) as int - 32;
    assert 'A' <= c <= 'Z' ==> Normalize(c) as int == c as int + 32;
  }

  /** A channel's secret is what the variable named after it holds, whatever the case of the channel name and
      with `-` for `_`. */
  lemma SecretIsFound(env: map<string, string>, channel: string, name: string)
    requires name != "" && |name| == |channel| && forall i :: 0 <= i < |name| ==> Stands(name[i], channel[i])
    ensures var key := "CHANNEL_" + name + "_SECRET";
      SecretOf(env, NormalizeChannel(channel)) == if key in env && env[key] != "" then Some(env[key]) else None
  {
    var n := NormalizeChannel(channel);
    forall i | 0 <= i < |n| ensures IsChannelChar(n[i]) && Upper(n[i]) == name[i] {
      Spelling(name[i], channel[i]);
    }
    assert Mapped(n, Upper) == name;
  }

  /** No other channel name has a secret. */
  lemma SecretHasName(env: map<string, string>, channel: string)
    requires SecretOf(env, NormalizeChannel(channel)).Some?
    ensures channel != "" && |Mapped(NormalizeChannel(channel), Upper)| == |channel|
    ensures forall i :: 0 <= i < |channel| ==> Stands(Mapped(NormalizeChannel(channel), Upper)[i], channel[i])
  {
    forall i | 0 <= i < |channel| ensures Stands(Mapped(NormalizeChannel(channel), Upper)[i], channel[i]) {
      assert NormalizeChannel(channel)[i] in NormalizeChannel(channel);
      Spelling(Upper(Normalize(channel[i])), channel[i]);
    }
  }

  // ---- Requests ----

  datatype Payload = Payload(userId: string, channel: string, nonce: string, timestamp: int, clear: bool)

  datatype Body =
    | TooLarge
    | NotJson
    | BadPayload
    | Valid(payload: Payload)

  /** `env` holds the channel secrets that this request's lookup sees. */
  datatype Request = Request(body: Body, raw: string, signature: string, env: map<string, string>)

  datatype Decision =
    | PayloadTooLarge | InvalidJson | InvalidPayload
    | InvalidSignature | RateLimited | ReplayDetected
    | Forward | ClearSessions
  {
    predicate Through() { Forward? || ClearSessions? }
  }

  /** HMAC verification of a body against a secret, left uninterpreted. */
  type Verifier = (string, string, string) -> bool

  /** The channel has a secret and the signature verifies under it. */
  predicate Authentic(verify: Verifier, q: Request) {
    && q.body.Valid?
    && var secret := SecretOf(q.env, NormalizeChannel(q.body.payload.channel));
       secret.Some? && verify(secret.value, q.raw, q.signature)
  }

  /** A channel that passes the secret lookup cannot hold the separators of keys and titles. */
  lemma AdmittedChannel(verify: Verifier, q: Request)
    requires Authentic(verify, q)
    ensures SessionTargets.Admitted(q.body.payload.channel)
  {
    var channel := q.body.payload.channel;
    SecretHasName(q.env, channel);
    forall i | 0 <= i < |channel| ensures channel[i] != ':' && channel[i] != '/' {
      assert Stands(Mapped(NormalizeChannel(channel), Upper)[i], channel[i]);
    }
  }

  // ---- One request ----

  /** What a pruning pass keeps, if there was one. */
  type Kept = Option<set<string>>

  /** The outcomes of the pruning passes that the request triggers. */
  datatype Choices = Choices(user: Kept, channel: Kept, nonce: Kept)

  datatype Passed = Passed(request: Request, time: int)

  datatype State = State(rate: RateLimit.State, replay: Replay.State, passed: seq<Passed>, clock: int)

  function Init(clock: int): State {
    State(RateLimit.Init(clock), Replay.Init(clock), [], clock)
  }

  function UserCall(p: Payload, now: int): RateLimit.Call {
    RateLimit.Call(p.userId, RateLimit.USER_RATE_LIMIT, RateLimit.USER_RATE_WINDOW_MS, now)
  }

  function ChannelCall(p: Payload, now: int): RateLimit.Call {
    RateLimit.Call("ch:" + p.channel, RateLimit.CHANNEL_RATE_LIMIT, RateLimit.CHANNEL_RATE_WINDOW_MS, now)
  }

  /** Both limits, in the source's short-circuit order: the limiter after the checks made. */
  function Limits(rate: RateLimit.State, p: Payload, now: int, user: Kept, channel: Kept): (bool, RateLimit.State) {
    var rate1 := RateLimit.Step(rate, RateLimit.Allow(UserCall(p, now), user));
    if !RateLimit.Answer(rate, UserCall(p, now), user) then (false, rate1)
    else (RateLimit.Answer(rate1, ChannelCall(p, now), channel),
          RateLimit.Step(rate1, RateLimit.Allow(ChannelCall(p, now), channel)))
  }

  /** The pruning outcomes are admissible for the limits that are checked. */
  ghost predicate LimitsPossible(rate: RateLimit.State, p: Payload, now: int, user: Kept, channel: Kept) {
    && RateLimit.Enabled(rate, RateLimit.Allow(UserCall(p, now), user))
    && (RateLimit.Answer(rate, UserCall(p, now), user) ==>
      RateLimit.Enabled(RateLimit.Step(rate, RateLimit.Allow(UserCall(p, now), user)),
                        RateLimit.Allow(ChannelCall(p, now), channel)))
  }

  function Decide(verify: Verifier, g: State, q: Request, now: int, k: Choices): Decision {
    match q.body
    case TooLarge => PayloadTooLarge
    case NotJson => InvalidJson
    case BadPayload => InvalidPayload
    case Valid(p) =>
      if !Authentic(verify, q) then InvalidSignature
      else if !Limits(g.rate, p, now, k.user, k.channel).0 then RateLimited
      else if !Replay.Accepts(g.replay.seen, p.nonce, p.timestamp, now) then ReplayDetected
      else if p.clear then ClearSessions
      else Forward
  }

  function NonceCheck(p: Payload, now: int, k: Choices): Replay.Event {
    Replay.Check(p.nonce, p.timestamp, now, k.nonce)
  }

  /** The limiters and the nonce cache are touched only as far as the checks get. */
  function Handle(verify: Verifier, g: State, q: Request, now: int, k: Choices): State {
    if !Authentic(verify, q) then g.(clock := now)
    else
      var p := q.body.payload;
      var (ok, rate) := Limits(g.rate, p, now, k.user, k.channel);
      if !ok then g.(rate := rate, clock := now)
      else State(rate, Replay.Step(g.replay, NonceCheck(p, now, k)),
                 if Decide(verify, g, q, now, k).Through() then g.passed + [Passed(q, now)] else g.passed, now)
  }

  /** The pruning outcomes are admissible for the checks that are made. */
  ghost predicate Possible(verify: Verifier, g: State, q: Request, now: int, k: Choices) {
    Authentic(verify, q) ==>
      var p := q.body.payload;
      && LimitsPossible(g.rate, p, now, k.user, k.channel)
      && (Limits(g.rate, p, now, k.user, k.channel).0 ==>
        Replay.Enabled(g.replay, NonceCheck(p, now, k), NONCE_MAX_SIZE))
  }

  /** A refusal for the rate consumes no nonce, and a refusal before it consumes nothing. */
  lemma RefusalsAreCheap(verify: Verifier, g: State, q: Request, now: int, k: Choices)
    ensures Decide(verify, g, q, now, k).RateLimited? ==> Handle(verify, g, q, now, k).replay == g.replay
    ensures !Authentic(verify, q) ==>
      Handle(verify, g, q, now, k) == g.(clock := now) && !Decide(verify, g, q, now, k).Through()
    ensures Decide(verify, g, q, now, k).Through() <==>
      Handle(verify, g, q, now, k).passed == g.passed + [Passed(q, now)]
    ensures Decide(verify, g, q, now, k).Through() ==>
      q.body.Valid? && (Decide(verify, g, q, now, k).ClearSessions? <==> q.body.payload.clear)
  {
    assert g.passed + [Passed(q, now)] != g.passed;
  }

  class Guardian {
    const limiter: RateLimit.RateLimiter
    const nonces: Replay.NonceCache

    constructor ()
      ensures fresh(limiter) && fresh(nonces)
      ensures limiter.buckets == map[] && nonces.seen == map[] && nonces.maxSize == 50_000
    {
      limiter := new RateLimit.RateLimiter();
      nonces := new Replay.NonceCache(NONCE_MAX_SIZE);
    }

    method CheckLimits(p: Payload, now: int, ghost rate: RateLimit.State)
      returns (ok: bool, user: Kept, channel: Kept)
      requires limiter.buckets == rate.buckets && rate.clock <= now
      modifies limiter
      ensures LimitsPossible(rate, p, now, user, channel)
      ensures ok == Limits(rate, p, now, user, channel).0
      ensures limiter.buckets == Limits(rate, p, now, user, channel).1.buckets
    {
      channel := None;
      ok, user := limiter.Allow(p.userId, RateLimit.USER_RATE_LIMIT, RateLimit.USER_RATE_WINDOW_MS, now);
      if ok {
        ok, channel := limiter.Allow("ch:" + p.channel, RateLimit.CHANNEL_RATE_LIMIT,
                                     RateLimit.CHANNEL_RATE_WINDOW_MS, now);
      }
    }

    method Inbound(verify: Verifier, q: Request, now: int, ghost g: State) returns (d: Decision, k: Choices)
      requires nonces.maxSize == NONCE_MAX_SIZE
      requires limiter.buckets == g.rate.buckets && nonces.seen == g.replay.seen
      requires g.rate.clock <= now && g.replay.clock <= now
      modifies limiter, nonces
      ensures Possible(verify, g, q, now, k)
      ensures d == Decide(verify, g, q, now, k)
      ensures limiter.buckets == Handle(verify, g, q, now, k).rate.buckets
      ensures nonces.seen == Handle(verify, g, q, now, k).replay.seen
    {
      k := Choices(None, None, None);
      match q.body
      case TooLarge => return PayloadTooLarge, k;
      case NotJson => return InvalidJson, k;
      case BadPayload => return InvalidPayload, k;
      case Valid(p) =>
        var secret := SecretOf(q.env, NormalizeChannel(p.channel));
        if secret.None? { return InvalidSignature, k; }
        if !verify(secret.value, q.raw, q.signature) { return InvalidSignature, k; }
        var ok, user, channel := CheckLimits(p, now, g.rate);
        if !ok { return RateLimited, Choices(user, channel, None); }
        var fresh', nonce := nonces.CheckNonce(p.nonce, p.timestamp, now);
        k := Choices(user, channel, nonce);
        if !fresh' { return ReplayDetected, k; }
        return if p.clear then ClearSessions else Forward, k;
    }
  }

  // ---- Whole runs ----

  datatype Event =
    | Message(q: Request, now: int, k: Choices)
    | RateTimer(now: int, stay: set<string>)
    | NonceTimer(now: int, stay: set<string>)

  ghost predicate Enabled(verify: Verifier, g: State, e: Event) {
    && g.clock <= e.now
    && match e
       case Message(q, now, k) => Possible(verify, g, q, now, k)
       case RateTimer(now, stay) => RateLimit.Enabled(g.rate, RateLimit.Timer(now, stay))
       case NonceTimer(now, stay) => Replay.Enabled(g.replay, Replay.Timer(now, stay), NONCE_MAX_SIZE)
  }

  function Step(verify: Verifier, g: State, e: Event): State {
    match e
    case Message(q, now, k) => Handle(verify, g, q, now, k)
    case RateTimer(now, stay) => g.(rate := RateLimit.Step(g.rate, RateLimit.Timer(now, stay)), clock := now)
    case NonceTimer(now, stay) => g.(replay := Replay.Step(g.replay, Replay.Timer(now, stay)), clock := now)
  }

  ghost predicate LimitsSpareLive(rate: RateLimit.State, p: Payload, now: int, user: Kept, channel: Kept) {
    var e1, e2 := RateLimit.Allow(UserCall(p, now), user), RateLimit.Allow(ChannelCall(p, now), channel);
    && RateLimit.NoLiveEviction(rate, e1)
    && (RateLimit.Answer(rate, UserCall(p, now), user) ==> RateLimit.NoLiveEviction(RateLimit.Step(rate, e1), e2))
  }

  /** Neither cache evicts an entry that still counts. */
  ghost predicate NoLiveEviction(verify: Verifier, g: State, e: Event) {
    match e
    case Message(q, now, k) =>
      Authentic(verify, q) ==>
        var p := q.body.payload;
        && LimitsSpareLive(g.rate, p, now, k.user, k.channel)
        && (Limits(g.rate, p, now, k.user, k.channel).0 ==>
          Replay.NoLiveEviction(g.replay, NonceCheck(p, now, k), NONCE_MAX_SIZE))
    case RateTimer(now, stay) => RateLimit.NoLiveEviction(g.rate, RateLimit.Timer(now, stay))
    case NonceTimer(now, stay) => Replay.NoLiveEviction(g.replay, Replay.Timer(now, stay), NONCE_MAX_SIZE)
  }

  ghost function After(verify: Verifier, clock: int, es: seq<Event>): Option<State> {
    if es == [] then Some(Init(clock))
    else
      var e := es[|es| - 1];
      match After(verify, clock, es[..|es| - 1])
      case Some(m) => if Enabled(verify, m, e) then Some(Step(verify, m, e)) else None
      case None => None
  }

  ghost predicate NeverOverfull(verify: Verifier, clock: int, es: seq<Event>) {
    es != [] ==>
      && NeverOverfull(verify, clock, es[..|es| - 1])
      && (After(verify, clock, es[..|es| - 1]).Some? ==>
        NoLiveEviction(verify, After(verify, clock, es[..|es| - 1]).value, es[|es| - 1]))
  }

  // ---- What gets through ----

  /** Whom a rate limit is for. */
  datatype Party = User(id: string) | Channel(name: string) {
    function Key(): string { match this case User(id) => id case Channel(name) => "ch:" + name }
    function Limit(): nat { if User? then RateLimit.USER_RATE_LIMIT else RateLimit.CHANNEL_RATE_LIMIT }
    predicate Sent(q: Request) {
      && q.body.Valid?
      && match this
         case User(id) => q.body.payload.userId == id
         case Channel(name) => q.body.payload.channel == name
    }
  }

  /** When the party's requests got through. */
  function PassTimes(passed: seq<Passed>, party: Party): seq<int> {
    if passed == [] then []
    else
      var last := passed[|passed| - 1];
      PassTimes(passed[..|passed| - 1], party) + if party.Sent(last.request) then [last.time] else []
  }

  /** No more passes than admissions by the party's limiter, in any interval. */
  ghost predicate Charged(g: State, party: Party) {
    NoMore(PassTimes(g.passed, party), Admissions(g.rate, party))
  }

  ghost predicate NoMore(a: seq<int>, b: seq<int>) {
    forall lo, hi :: RateLimit.CountIn(a, lo, hi) <= RateLimit.CountIn(b, lo, hi)
  }

  ghost predicate Recorded(verify: Verifier, g: State) {
    && |g.passed| == |g.replay.accepted|
    && forall i :: 0 <= i < |g.passed| ==>
      && Authentic(verify, g.passed[i].request)
      && var p := g.passed[i].request.body.payload;
         g.replay.accepted[i] == Replay.Pair(p.nonce, p.timestamp)
  }

  ghost predicate Clocks(g: State) {
    g.rate.clock <= g.clock && g.replay.clock <= g.clock
  }

  ghost predicate Inv(verify: Verifier, g: State, party: Party) {
    && Clocks(g)
    && Healthy(g.rate, party)
    && Replay.Remembered(g.replay) && Replay.NoTwice(g.replay.accepted)
    && Recorded(verify, g)
    && Charged(g, party)
  }

  ghost predicate Healthy(s: RateLimit.State, party: Party) {
    RateLimit.Refines(s) && RateLimit.WindowInv(s, party.Key(), party.Limit(), RateLimit.USER_RATE_WINDOW_MS)
  }

  function Admissions(s: RateLimit.State, party: Party): seq<int> {
    RateLimit.Times(s.admitted, party.Key(), party.Limit())
  }

  /** What a step of the limiter keeps, and whether it charges the party. */
  lemma LimiterStep(s: RateLimit.State, e: RateLimit.Event, party: Party) returns (charge: seq<int>)
    requires Healthy(s, party)
    requires RateLimit.Enabled(s, e) && RateLimit.NoLiveEviction(s, e)
    requires e.Allow? ==> e.call.windowMs == RateLimit.USER_RATE_WINDOW_MS
    ensures Healthy(RateLimit.Step(s, e), party)
    ensures Admissions(RateLimit.Step(s, e), party) == Admissions(s, party) + charge
    ensures
      e.Allow? && RateLimit.Answer(s, e.call, e.kept) && e.call.key == party.Key() && e.call.limit <= party.Limit() ==>
      charge == [e.call.time]
  {
    RateLimit.SameAnswer(s, e);
    RateLimit.StepKeepsWindow(s, e, party.Key(), party.Limit(), RateLimit.USER_RATE_WINDOW_MS);
    charge := [];
    if e.Allow? && RateLimit.Answer(s, e.call, e.kept) {
      RateLimit.TimesOfOneMore(s.admitted, e.call, party.Key(), party.Limit());
      if e.call.key == party.Key() && e.call.limit <= party.Limit() {
        charge := [e.call.time];
      }
    }
  }

  /** `party` is charged for an admitted call that is its own. */
  predicate OwnCall(c: RateLimit.Call, party: Party) {
    c.key == party.Key() && c.limit <= party.Limit() && c.windowMs == RateLimit.USER_RATE_WINDOW_MS
  }

  lemma SenderIsCharged(q: Request, now: int, party: Party)
    requires q.body.Valid? && party.Sent(q)
    ensures OwnCall(UserCall(q.body.payload, now), party) || OwnCall(ChannelCall(q.body.payload, now), party)
  {
  }

  /** A further check adds its charge to those before. */
  lemma NextCheck(admitted: seq<int>, s: RateLimit.State, first: seq<int>, c: RateLimit.Call, kept: Kept, party: Party)
    returns (charge: seq<int>)
    requires Healthy(s, party) && Admissions(s, party) == admitted + first
    requires c.windowMs == RateLimit.USER_RATE_WINDOW_MS
    requires RateLimit.Enabled(s, RateLimit.Allow(c, kept)) && RateLimit.NoLiveEviction(s, RateLimit.Allow(c, kept))
    ensures Healthy(RateLimit.Step(s, RateLimit.Allow(c, kept)), party)
    ensures Admissions(RateLimit.Step(s, RateLimit.Allow(c, kept)), party) == admitted + charge
    ensures first <= charge
    ensures RateLimit.Answer(s, c, kept) && OwnCall(c, party) ==> c.time in charge
  {
    var more := LimiterStep(s, RateLimit.Allow(c, kept), party);
    assert admitted + first + more == admitted + (first + more);
    charge := first + more;
  }

  /** The two limit checks of a request keep the limiter healthy and, passed, charge its sender. */
  lemma LimitsStep(s: RateLimit.State, q: Request, now: int, user: Kept, channel: Kept, party: Party)
    returns (charge: seq<int>)
    requires Healthy(s, party) && q.body.Valid?
    requires LimitsPossible(s, q.body.payload, now, user, channel)
    requires LimitsSpareLive(s, q.body.payload, now, user, channel)
    ensures Healthy(Limits(s, q.body.payload, now, user, channel).1, party)
    ensures Admissions(Limits(s, q.body.payload, now, user, channel).1, party) == Admissions(s, party) + charge
    ensures Limits(s, q.body.payload, now, user, channel).0 && party.Sent(q) ==> now in charge
  {
    var p := q.body.payload;
    charge := NextCheck(Admissions(s, party), s, [], UserCall(p, now), user, party);
    if RateLimit.Answer(s, UserCall(p, now), user) {
      var s1 := RateLimit.Step(s, RateLimit.Allow(UserCall(p, now), user));
      charge := NextCheck(Admissions(s, party), s1, charge, ChannelCall(p, now), channel, party);
      if party.Sent(q) {
        SenderIsCharged(q, now, party);
      }
    }
  }

  lemma {:induction false} CountOf(times: seq<int>, t: int, lo: int, hi: int)
    requires t in times && lo <= t <= hi
    ensures RateLimit.CountIn(times, lo, hi) >= 1
  {
    if times[|times| - 1] != t {
      CountOf(times[..|times| - 1], t, lo, hi);
    }
  }

  lemma ChargesAdd(a: seq<int>, b: seq<int>, charge: seq<int>)
    requires NoMore(a, b)
    ensures NoMore(a, b + charge)
    ensures forall t :: t in charge ==> NoMore(a + [t], b + charge)
  {
    forall lo, hi ensures RateLimit.CountIn(a, lo, hi) <= RateLimit.CountIn(b + charge, lo, hi) {
      RateLimit.CountSplit(b, charge, lo, hi);
    }
    forall t, lo, hi | t in charge
      ensures RateLimit.CountIn(a + [t], lo, hi) <= RateLimit.CountIn(b + charge, lo, hi)
    {
      OneCharge(a, b, charge, t, lo, hi);
    }
  }

  lemma OneCharge(a: seq<int>, b: seq<int>, charge: seq<int>, t: int, lo: int, hi: int)
    requires NoMore(a, b) && t in charge
    ensures RateLimit.CountIn(a + [t], lo, hi) <= RateLimit.CountIn(b + charge, lo, hi)
  {
    RateLimit.CountSplit(b, charge, lo, hi);
    DropLast(a, t);
    if lo <= t <= hi { CountOf(charge, t, lo, hi); }
  }

  lemma PassTimesNext(passed: seq<Passed>, q: Request, now: int, party: Party)
    ensures PassTimes(passed + [Passed(q, now)], party) ==
      if party.Sent(q) then PassTimes(passed, party) + [now] else PassTimes(passed, party)
  {
    DropLast(passed, Passed(q, now));
    assert PassTimes(passed, party) + [] == PassTimes(passed, party);
  }

  /** A message keeps the limiter healthy and charges its sender if it gets through. */
  lemma MessageKeepsCharged(verify: Verifier, g: State, q: Request, now: int, k: Choices, party: Party)
    requires Healthy(g.rate, party) && Charged(g, party) && Authentic(verify, q)
    requires LimitsPossible(g.rate, q.body.payload, now, k.user, k.channel)
    requires LimitsSpareLive(g.rate, q.body.payload, now, k.user, k.channel)
    ensures Healthy(Handle(verify, g, q, now, k).rate, party) && Charged(Handle(verify, g, q, now, k), party)
  {
    var charge := LimitsStep(g.rate, q, now, k.user, k.channel, party);
    ChargesAdd(PassTimes(g.passed, party), Admissions(g.rate, party), charge);
    PassTimesNext(g.passed, q, now, party);
  }

  lemma NonceKeepsRecord(verify: Verifier, g: State, q: Request, now: int, k: Choices)
    requires Recorded(verify, g) && Authentic(verify, q) && Limits(g.rate, q.body.payload, now, k.user, k.channel).0
    ensures Recorded(verify, Handle(verify, g, q, now, k))
  {
  }

  lemma MessageKeepsNonces(verify: Verifier, g: State, q: Request, now: int, k: Choices)
    requires Replay.Remembered(g.replay) && Replay.NoTwice(g.replay.accepted) && Recorded(verify, g)
    requires Authentic(verify, q) && Limits(g.rate, q.body.payload, now, k.user, k.channel).0
    requires Replay.Enabled(g.replay, NonceCheck(q.body.payload, now, k), NONCE_MAX_SIZE)
    requires Replay.NoLiveEviction(g.replay, NonceCheck(q.body.payload, now, k), NONCE_MAX_SIZE)
    ensures var g' := Handle(verify, g, q, now, k);
      Replay.Remembered(g'.replay) && Replay.NoTwice(g'.replay.accepted) && Recorded(verify, g')
  {
    var p := q.body.payload;
    Replay.StepKeepsRemembered(g.replay, NonceCheck(p, now, k), NONCE_MAX_SIZE);
    Replay.StepKeepsNoTwice(g.replay, NonceCheck(p, now, k), NONCE_MAX_SIZE);
    NonceKeepsRecord(verify, g, q, now, k);
  }

  lemma MessageKeepsInv(verify: Verifier, g: State, q: Request, now: int, k: Choices, party: Party)
    requires Inv(verify, g, party)
    requires Enabled(verify, g, Message(q, now, k)) && NoLiveEviction(verify, g, Message(q, now, k))
    ensures Inv(verify, Handle(verify, g, q, now, k), party)
  {
    if Authentic(verify, q) {
      MessageKeepsCharged(verify, g, q, now, k, party);
      if Limits(g.rate, q.body.payload, now, k.user, k.channel).0 {
        MessageKeepsNonces(verify, g, q, now, k);
      }
    }
  }

  lemma StepKeepsInv(verify: Verifier, g: State, e: Event, party: Party)
    requires Inv(verify, g, party) && Enabled(verify, g, e) && NoLiveEviction(verify, g, e)
    ensures Inv(verify, Step(verify, g, e), party)
  {
    match e
    case Message(q, now, k) => MessageKeepsInv(verify, g, q, now, k, party);
    case RateTimer(now, stay) => var charge := LimiterStep(g.rate, RateLimit.Timer(now, stay), party);
    case NonceTimer(now, stay) => Replay.StepKeepsRemembered(g.replay, Replay.Timer(now, stay), NONCE_MAX_SIZE);
  }

  lemma {:induction false} RunKeepsInv(verify: Verifier, clock: int, es: seq<Event>, g: State, party: Party)
    requires After(verify, clock, es) == Some(g) && NeverOverfull(verify, clock, es)
    ensures Inv(verify, g, party)
  {
    if es != [] {
      var m := After(verify, clock, es[..|es| - 1]).value;
      RunKeepsInv(verify, clock, es[..|es| - 1], m, party);
      StepKeepsInv(verify, m, es[|es| - 1], party);
    }
  }

  /** In every run at all, whatever got through carried a verified signature of an admitted channel. */
  lemma {:induction false} ThroughIsAuthentic(verify: Verifier, clock: int, es: seq<Event>, g: State, i: nat)
    requires After(verify, clock, es) == Some(g) && i < |g.passed|
    ensures Authentic(verify, g.passed[i].request)
    ensures SessionTargets.Admitted(g.passed[i].request.body.payload.channel)
  {
    var m := After(verify, clock, es[..|es| - 1]).value;
    if i < |m.passed| {
      ThroughIsAuthentic(verify, clock, es[..|es| - 1], m, i);
    } else {
      AdmittedChannel(verify, g.passed[i].request);
    }
  }

  /** Over a whole run that evicts no live entry, no (nonce, timestamp) pair got through twice. */
  lemma ThroughIsOnce(verify: Verifier, clock: int, es: seq<Event>, g: State, i: nat, j: nat)
    requires After(verify, clock, es) == Some(g) && NeverOverfull(verify, clock, es)
    requires i < |g.passed| && j < |g.passed| && i != j
    ensures g.passed[i].request.body.Valid? && g.passed[j].request.body.Valid?
    ensures var p, r := g.passed[i].request.body.payload, g.passed[j].request.body.payload;
            (p.nonce, p.timestamp) != (r.nonce, r.timestamp)
  {
    RunKeepsInv(verify, clock, es, g, User(""));
    assert g.replay.accepted[if i < j then i else j] != g.replay.accepted[if i < j then j else i];
  }

  /** In any minute at most 240 requests of a user, and at most 400 of a channel, get through. */
  lemma ThroughIsBounded(verify: Verifier, clock: int, es: seq<Event>, g: State, party: Party, lo: int)
    requires After(verify, clock, es) == Some(g) && NeverOverfull(verify, clock, es)
    ensures RateLimit.CountIn(PassTimes(g.passed, party), lo, lo + 60_000) <= if party.User? then 240 else 400
  {
    RunKeepsInv(verify, clock, es, g, party);
    RateLimit.SpreadBoundsCount(Admissions(g.rate, party), party.Limit(), RateLimit.USER_RATE_WINDOW_MS, lo);
  }

  // ---- Nothing is refused without cause: every run ----

  /** What holds whatever the pruning passes evict. */
  ghost predicate Grounded(verify: Verifier, g: State) {
    RateLimit.AllCovered(g.rate) && Replay.Bounded(g.replay, NONCE_MAX_SIZE) && Recorded(verify, g)
  }

  lemma LimitsKeepCovered(s: RateLimit.State, p: Payload, now: int, user: Kept, channel: Kept)
    requires RateLimit.AllCovered(s) && LimitsPossible(s, p, now, user, channel)
    ensures RateLimit.AllCovered(Limits(s, p, now, user, channel).1)
  {
    RateLimit.StepKeepsCovered(s, RateLimit.Allow(UserCall(p, now), user));
    if RateLimit.Answer(s, UserCall(p, now), user) {
      var s1 := RateLimit.Step(s, RateLimit.Allow(UserCall(p, now), user));
      RateLimit.StepKeepsCovered(s1, RateLimit.Allow(ChannelCall(p, now), channel));
    }
  }

  lemma StepKeepsGrounded(verify: Verifier, g: State, e: Event)
    requires Grounded(verify, g) && Enabled(verify, g, e)
    ensures Grounded(verify, Step(verify, g, e))
  {
    match e
    case Message(q, now, k) =>
      if Authentic(verify, q) {
        var p := q.body.payload;
        LimitsKeepCovered(g.rate, p, now, k.user, k.channel);
        if Limits(g.rate, p, now, k.user, k.channel).0 {
          Replay.StepKeepsBounded(g.replay, NonceCheck(p, now, k), NONCE_MAX_SIZE);
          NonceKeepsRecord(verify, g, q, now, k);
        }
      }
    case RateTimer(now, stay) => RateLimit.StepKeepsCovered(g.rate, RateLimit.Timer(now, stay));
    case NonceTimer(now, stay) => Replay.StepKeepsBounded(g.replay, Replay.Timer(now, stay), NONCE_MAX_SIZE);
  }

  lemma {:induction false} RunKeepsGrounded(verify: Verifier, clock: int, es: seq<Event>, g: State)
    requires After(verify, clock, es) == Some(g)
    ensures Grounded(verify, g)
  {
    if es != [] {
      var m := After(verify, clock, es[..|es| - 1]).value;
      RunKeepsGrounded(verify, clock, es[..|es| - 1], m);
      StepKeepsGrounded(verify, m, es[|es| - 1]);
    }
  }

  /** The second of two checks is refused. */
  lemma SecondRefused(s: RateLimit.State, c: RateLimit.Call, first: Kept, s1: RateLimit.State,
                      d: RateLimit.Call, second: Kept)
    requires RateLimit.AllCovered(s) && RateLimit.Enabled(s, RateLimit.Allow(c, first))
    requires s1 == RateLimit.Step(s, RateLimit.Allow(c, first)) && RateLimit.Answer(s, c, first)
    requires RateLimit.Enabled(s1, RateLimit.Allow(d, second)) && !RateLimit.Answer(s1, d, second)
    requires c.time == d.time
    ensures RateLimit.Recent(s, d.key, d.windowMs, d.time) >= if c.key == d.key then d.limit - 1 else d.limit
  {
    RateLimit.StepKeepsCovered(s, RateLimit.Allow(c, first));
    RateLimit.CoveredRefusal(s1, d, second);
    RateLimit.RecentNext(s, c, first, d.key, d.windowMs);
  }

  lemma RefusedForRate(s: RateLimit.State, p: Payload, now: int, user: Kept, channel: Kept)
    requires RateLimit.AllCovered(s) && LimitsPossible(s, p, now, user, channel)
    requires !Limits(s, p, now, user, channel).0
    ensures RateLimit.Recent(s, UserCall(p, now).key, 60_000, now) >= 120 ||
            RateLimit.Recent(s, ChannelCall(p, now).key, 60_000, now) >= 200
  {
    var c, d := UserCall(p, now), ChannelCall(p, now);
    if !RateLimit.Answer(s, c, user) {
      RateLimit.CoveredRefusal(s, c, user);
    } else {
      SecondRefused(s, c, user, RateLimit.Step(s, RateLimit.Allow(c, user)), d, channel);
    }
  }

  /** The nonce got through before. */
  predicate Used(g: State, nonce: string) {
    exists i :: 0 <= i < |g.passed| && g.passed[i].request.body.Valid?
                && g.passed[i].request.body.payload.nonce == nonce
  }

  lemma RefusedAsReplay(verify: Verifier, g: State, p: Payload, now: int)
    requires Grounded(verify, g) && !Replay.Accepts(g.replay.seen, p.nonce, p.timestamp, now)
    ensures p.nonce == "" || now - p.timestamp > 300_000 || p.timestamp - now > 300_000 || Used(g, p.nonce)
  {
    if p.nonce in g.replay.seen {
      var i :| 0 <= i < |g.passed| && g.replay.accepted[i] == Replay.Pair(p.nonce, g.replay.seen[p.nonce]);
      assert g.passed[i].request.body.payload.nonce == p.nonce;
    }
  }

  /** In every run each refusal has its cause: the limits refuse an authentic request only if its user had 120
      or its channel 200 admissions in the last minute, and the replay check only an empty nonce, a timestamp
      more than five minutes off, or a nonce that got through before. */
  lemma RefusalHasCause(verify: Verifier, clock: int, es: seq<Event>, g: State, q: Request, now: int, k: Choices)
    requires After(verify, clock, es) == Some(g) && Enabled(verify, g, Message(q, now, k))
    ensures Decide(verify, g, q, now, k).RateLimited? ==>
      && Authentic(verify, q)
      && (|| RateLimit.Recent(g.rate, q.body.payload.userId, 60_000, now) >= 120
          || RateLimit.Recent(g.rate, "ch:" + q.body.payload.channel, 60_000, now) >= 200)
    ensures Decide(verify, g, q, now, k).ReplayDetected? ==>
      && Authentic(verify, q)
      && var p := q.body.payload;
         || p.nonce == "" || now - p.timestamp > 300_000 || p.timestamp - now > 300_000
         || Used(g, p.nonce)
    ensures Decide(verify, g, q, now, k).InvalidSignature? <==> q.body.Valid? && !Authentic(verify, q)
    ensures Decide(verify, g, q, now, k).PayloadTooLarge? <==> q.body.TooLarge?
    ensures Decide(verify, g, q, now, k).InvalidJson? <==> q.body.NotJson?
    ensures Decide(verify, g, q, now, k).InvalidPayload? <==> q.body.BadPayload?
  {
    RunKeepsGrounded(verify, clock, es, g);
    if Authentic(verify, q) {
      if !Limits(g.rate, q.body.payload, now, k.user, k.channel).0 {
        RefusedForRate(g.rate, q.body.payload, now, k.user, k.channel);
      } else if !Replay.Accepts(g.replay.seen, q.body.payload.nonce, q.body.payload.timestamp, now) {
        RefusedAsReplay(verify, g, q.body.payload, now);
      }
    }
  }

  /** An authentic request gets through if its nonce has never got through and its timestamp is within five
      minutes, and its user and channel had fewer than 120 and 200 admissions in the last minute. */
  lemma FreshRequestGetsThrough(
      verify: Verifier, clock: int, es: seq<Event>, g: State, q: Request, now: int, k: Choices)
    requires After(verify, clock, es) == Some(g) && Enabled(verify, g, Message(q, now, k)) && Authentic(verify, q)
    requires RateLimit.Recent(g.rate, q.body.payload.userId, 60_000, now) < 120
    requires RateLimit.Recent(g.rate, "ch:" + q.body.payload.channel, 60_000, now) < 200
    requires q.body.payload.nonce != "" && -300_000 <= now - q.body.payload.timestamp <= 300_000
    requires !Used(g, q.body.payload.nonce)
    ensures Decide(verify, g, q, now, k).Through()
    ensures Step(verify, g, Message(q, now, k)).passed == g.passed + [Passed(q, now)]
  {
    RefusalHasCause(verify, clock, es, g, q, now, k);
  }

  /** A request outside the skew or without a nonce never gets through. */
  lemma OutsideSkewIsRefused(verify: Verifier, g: State, q: Request, now: int, k: Choices)
    requires q.body.Valid?
    requires q.body.payload.nonce == "" || now - q.body.payload.timestamp > 300_000 ||
             q.body.payload.timestamp - now > 300_000
    ensures !Decide(verify, g, q, now, k).Through()
  {
  }
}
