/** Fixed-window rate limiting with a bounded, lazily pruned bucket map, against a limiter that
    never prunes, and the number of calls that it admits in any window.
 */
module RateLimit {
  import opened Prelude
  import Eviction

  const USER_RATE_LIMIT: nat := 120
  const USER_RATE_WINDOW_MS: nat := 60_000
  const CHANNEL_RATE_LIMIT: nat := 200
  const CHANNEL_RATE_WINDOW_MS: nat := 60_000
  const MAX_BUCKETS: nat := 10_000
  const MAX_WINDOW: nat :=
    if USER_RATE_WINDOW_MS > CHANNEL_RATE_WINDOW_MS then USER_RATE_WINDOW_MS else CHANNEL_RATE_WINDOW_MS

  datatype Bucket = Bucket(count: nat, start: int)

  type Buckets = map<string, Bucket>

  function Stamps(b: Buckets): map<string, int> { map k | k in b :: b[k].start }

  class RateLimiter {
    var buckets: Buckets

    constructor ()
      ensures buckets == map[]
    {
      buckets := map[];
    }

    method PruneRateLimitBuckets(now: int) returns (kept: set<string>)
      modifies this
      ensures Eviction.Pruned(Stamps(old(buckets)), now, MAX_WINDOW, MAX_BUCKETS, kept)
      ensures buckets == Eviction.Restrict(old(buckets), kept)
    {
      kept := Eviction.Prune(Stamps(buckets), now, MAX_WINDOW, MAX_BUCKETS);
      buckets := Eviction.Restrict(buckets, kept);
    }

    method Allow(key: string, limit: nat, windowMs: nat, now: int) returns (ok: bool, kept: Option<set<string>>)
      modifies this
      ensures PruneChoice(old(buckets), now, kept)
      ensures ok <==> Admits(Base(old(buckets), kept), key, limit, windowMs, now)
      ensures buckets == Counted(Base(old(buckets), kept), key, limit, windowMs, now)
    {
      kept := None;
      if |buckets| > MAX_BUCKETS {
        var k := PruneRateLimitBuckets(now);
        kept := Some(k);
      }
      if key !in buckets || now - buckets[key].start > windowMs {
        buckets := buckets[key := Bucket(1, now)];
        return true, kept;
      }
      if buckets[key].count >= limit { return false, kept; }
      buckets := buckets[key := buckets[key].(count := buckets[key].count + 1)];
      return true, kept;
    }
  }

  // ---- One call, on the value of the map ----

  ghost predicate PruneChoice(b: Buckets, now: int, kept: Option<set<string>>) {
    if |b| > MAX_BUCKETS then
      kept.Some? && Eviction.Pruned(Stamps(b), now, MAX_WINDOW, MAX_BUCKETS, kept.value)
    else kept.None?
  }

  function Base(b: Buckets, kept: Option<set<string>>): Buckets {
    if kept.Some? then Eviction.Restrict(b, kept.value) else b
  }

  /** The key has no bucket whose window is still open. */
  predicate Opens(b: Buckets, key: string, windowMs: nat, now: int) {
    key !in b || now - b[key].start > windowMs
  }

  predicate Admits(b: Buckets, key: string, limit: nat, windowMs: nat, now: int) {
    Opens(b, key, windowMs, now) || b[key].count < limit
  }

  function Counted(b: Buckets, key: string, limit: nat, windowMs: nat, now: int): Buckets {
    if !Admits(b, key, limit, windowMs, now) then b
    else if Opens(b, key, windowMs, now) then b[key := Bucket(1, now)]
    else b[key := Bucket(b[key].count + 1, b[key].start)]
  }

  // ---- Whole runs ----

  datatype Call = Call(key: string, limit: nat, windowMs: nat, time: int)

  /** `unpruned` is the map of the limiter that never prunes; `admitted` the calls let through. */
  datatype State = State(buckets: Buckets, unpruned: Buckets, admitted: seq<Call>, clock: int)

  datatype Event =
    | Allow(call: Call, kept: Option<set<string>>)
    | Timer(now: int, stay: set<string>)

  function Time(e: Event): int { match e case Allow(c, _) => c.time case Timer(now, _) => now }

  function Init(clock: int): State { State(map[], map[], [], clock) }

  /** No caller uses a window longer than the pruner's. */
  ghost predicate Enabled(s: State, e: Event) {
    && s.clock <= Time(e)
    && match e
       case Allow(c, kept) => c.windowMs <= MAX_WINDOW && PruneChoice(s.buckets, c.time, kept)
       case Timer(now, stay) => Eviction.Pruned(Stamps(s.buckets), now, MAX_WINDOW, MAX_BUCKETS, stay)
  }

  predicate Answer(s: State, c: Call, kept: Option<set<string>>) {
    Admits(Base(s.buckets, kept), c.key, c.limit, c.windowMs, c.time)
  }

  function Step(s: State, e: Event): State {
    match e
    case Allow(c, kept) =>
      State(Counted(Base(s.buckets, kept), c.key, c.limit, c.windowMs, c.time),
            Counted(s.unpruned, c.key, c.limit, c.windowMs, c.time),
            if Answer(s, c, kept) then s.admitted + [c] else s.admitted, c.time)
    case Timer(now, stay) => State(Eviction.Restrict(s.buckets, stay), s.unpruned, s.admitted, now)
  }

  /** A pass, if the event has one, finds at most MAX_BUCKETS unexpired buckets. */
  predicate NoLiveEviction(s: State, e: Event) {
    (e.Timer? || e.kept.Some?) ==> |Eviction.Live(Stamps(s.buckets), Time(e), MAX_WINDOW)| <= MAX_BUCKETS
  }

  ghost function After(clock: int, es: seq<Event>): Option<State> {
    if es == [] then Some(Init(clock))
    else
      var e := es[|es| - 1];
      match After(clock, es[..|es| - 1])
      case Some(m) => if Enabled(m, e) then Some(Step(m, e)) else None
      case None => None
  }

  ghost predicate NeverOverfull(clock: int, es: seq<Event>) {
    es != [] ==>
      && NeverOverfull(clock, es[..|es| - 1])
      && (After(clock, es[..|es| - 1]).Some? ==> NoLiveEviction(After(clock, es[..|es| - 1]).value, es[|es| - 1]))
  }

  lemma PassBoundsSize(b: Buckets, now: int, kept: set<string>)
    requires Eviction.Pruned(Stamps(b), now, MAX_WINDOW, MAX_BUCKETS, kept)
    ensures |Eviction.Restrict(b, kept)| <= MAX_BUCKETS
  {
    Eviction.PrunedKeepsLive(Stamps(b), now, MAX_WINDOW, MAX_BUCKETS, kept);
    Eviction.SubsetSize(Eviction.Restrict(b, kept).Keys, kept);
  }

  lemma CountingAddsOne(b: Buckets, c: Call)
    ensures |Counted(b, c.key, c.limit, c.windowMs, c.time)| <= |b| + 1
  {
    Eviction.SubsetSize(Counted(b, c.key, c.limit, c.windowMs, c.time).Keys, b.Keys + {c.key});
  }

  lemma StepBoundsSize(s: State, e: Event)
    requires Enabled(s, e)
    ensures |Step(s, e).buckets| <= MAX_BUCKETS + 1
  {
    match e
    case Allow(c, kept) =>
      if kept.Some? { PassBoundsSize(s.buckets, c.time, kept.value); }
      CountingAddsOne(Base(s.buckets, kept), c);
    case Timer(now, stay) =>
      PassBoundsSize(s.buckets, now, stay);
  }

  /** The map never holds more than 10001 buckets. */
  lemma SizeBound(clock: int, es: seq<Event>, s: State)
    requires After(clock, es) == Some(s)
    ensures |s.buckets| <= 10_001
  {
    if es != [] {
      StepBoundsSize(After(clock, es[..|es| - 1]).value, es[|es| - 1]);
    }
  }

  // ---- Refinement of the limiter that never prunes ----

  /** The pruned map is the unpruned one without buckets that expired for every caller. */
  ghost predicate Refines(s: State) {
    && (forall k :: k in s.buckets ==> k in s.unpruned && s.unpruned[k] == s.buckets[k])
    && (forall k :: k in s.unpruned && k !in s.buckets ==> s.clock - s.unpruned[k].start > MAX_WINDOW)
  }

  lemma SameAnswer(s: State, e: Event)
    requires Refines(s) && Enabled(s, e) && NoLiveEviction(s, e)
    ensures e.Allow? ==>
      (Answer(s, e.call, e.kept) <==> Admits(s.unpruned, e.call.key, e.call.limit, e.call.windowMs, e.call.time))
    ensures Refines(Step(s, e))
  {
    match e
    case Allow(c, Some(kept)) => assert kept == Eviction.Live(Stamps(s.buckets), c.time, MAX_WINDOW);
    case Allow(c, None) =>
    case Timer(now, stay) => assert stay == Eviction.Live(Stamps(s.buckets), now, MAX_WINDOW);
  }

  lemma {:induction false} RunRefines(clock: int, es: seq<Event>, s: State)
    requires After(clock, es) == Some(s) && NeverOverfull(clock, es)
    ensures Refines(s)
  {
    if es != [] {
      var m := After(clock, es[..|es| - 1]).value;
      RunRefines(clock, es[..|es| - 1], m);
      SameAnswer(m, es[|es| - 1]);
    }
  }

  /** Pruning never changes an answer: after any run that evicts no open bucket, the next call is
      answered as by the limiter that has never pruned. */
  lemma PruningIsInvisible(clock: int, es: seq<Event>, s: State, c: Call, kept: Option<set<string>>)
    requires After(clock, es) == Some(s) && NeverOverfull(clock, es)
    requires Enabled(s, Allow(c, kept)) && NoLiveEviction(s, Allow(c, kept))
    ensures Answer(s, c, kept) <==> Admits(s.unpruned, c.key, c.limit, c.windowMs, c.time)
  {
    RunRefines(clock, es, s);
    SameAnswer(s, Allow(c, kept));
  }

  // ---- At most twice the limit in any window ----

  /** When the calls on `key` with a limit of at most `limit` were admitted. */
  function Times(admitted: seq<Call>, key: string, limit: nat): seq<int> {
    if admitted == [] then []
    else
      var c := admitted[|admitted| - 1];
      Times(admitted[..|admitted| - 1], key, limit) + (if c.key == key && c.limit <= limit then [c.time] else [])
  }

  /** How many of the times lie in the closed interval from `lo` to `hi`. */
  function CountIn(times: seq<int>, lo: int, hi: int): nat {
    if times == [] then 0
    else CountIn(times[..|times| - 1], lo, hi) + if lo <= times[|times| - 1] <= hi then 1 else 0
  }

  ghost predicate InTimeOrder(times: seq<int>) {
    forall i, j :: 0 <= i < j < |times| ==> times[i] <= times[j]
  }

  /** Any two admissions `2 * limit` apart are more than a window apart. */
  ghost predicate Spread(times: seq<int>, limit: nat, w: nat) {
    forall i, j :: 0 <= i && j == i + 2 * limit && j < |times| ==> times[j] - times[i] > w
  }

  /** `times[j..]` were admitted in the bucket's window, `times[..j]` before it opened; those that
      are not among the last `limit` of the latter are a whole window older. */
  ghost predicate SplitAt(times: seq<int>, j: nat, b: Bucket, limit: nat, w: nat) {
    && j <= |times| && |times| - j <= b.count && |times| - j <= limit
    && (forall i :: 0 <= i < j ==> times[i] < b.start)
    && (forall i :: j <= i < |times| ==> b.start <= times[i] <= b.start + w)
    && forall i :: 0 <= i < j - limit ==> b.start - times[i] > w
  }

  ghost predicate WindowInv(s: State, key: string, limit: nat, w: nat) {
    var times := Times(s.admitted, key, limit);
    && InTimeOrder(times) && Spread(times, limit, w)
    && (forall i :: 0 <= i < |times| ==> times[i] <= s.clock)
    && if key in s.unpruned then
         s.unpruned[key].start <= s.clock && exists j: nat :: SplitAt(times, j, s.unpruned[key], limit, w)
       else times == []
  }

  lemma AdmissionKeepsWindow(times: seq<int>, j: nat, b: Bucket, c: Call, counted: bool, limit: nat, w: nat)
    returns (j': nat)
    requires limit >= 1 && c.windowMs == w && (counted ==> c.limit <= limit)
    requires InTimeOrder(times) && Spread(times, limit, w) && SplitAt(times, j, b, limit, w)
    requires b.start <= c.time && forall i :: 0 <= i < |times| ==> times[i] <= c.time
    requires c.time - b.start > w || b.count < c.limit
    ensures var times' := times + if counted then [c.time] else [];
            && InTimeOrder(times') && Spread(times', limit, w)
            && var b' := if c.time - b.start > w then Bucket(1, c.time) else Bucket(b.count + 1, b.start);
               SplitAt(times', j', b', limit, w)
  {
    j' := if c.time - b.start > w then |times| else j;
    var i := |times| - 2 * limit;
    if counted && i >= 0 {
      assert i < j;
      assert i < j - limit || c.time - b.start > w;
    }
  }

  lemma TimesOfOneMore(admitted: seq<Call>, c: Call, key: string, limit: nat)
    ensures Times(admitted + [c], key, limit) ==
            Times(admitted, key, limit) + if c.key == key && c.limit <= limit then [c.time] else []
  {
    assert (admitted + [c])[..|admitted|] == admitted;
  }

  lemma FirstWindow(times: seq<int>, now: int, limit: nat, w: nat)
    requires limit >= 1 && (times == [] || times == [now])
    ensures InTimeOrder(times) && Spread(times, limit, w) && SplitAt(times, 0, Bucket(1, now), limit, w)
    ensures forall i :: 0 <= i < |times| ==> times[i] <= now
  {
  }

  lemma FirstCallKeepsWindow(s: State, c: Call, key: string, limit: nat, w: nat, s': State)
    requires limit >= 1 && Times(s.admitted, key, limit) == [] && c.key == key
    requires key in s'.unpruned && s'.unpruned[key] == Bucket(1, c.time)
    requires s'.admitted == s.admitted + [c] && s'.clock == c.time
    ensures WindowInv(s', key, limit, w)
  {
    TimesOfOneMore(s.admitted, c, key, limit);
    FirstWindow(Times(s'.admitted, key, limit), c.time, limit, w);
  }

  lemma LaterCallKeepsWindow(s: State, c: Call, key: string, limit: nat, w: nat, s': State)
    requires limit >= 1 && WindowInv(s, key, limit, w) && s.clock <= c.time
    requires key in s.unpruned && c.key == key && c.windowMs == w && Admits(s.unpruned, key, c.limit, w, c.time)
    requires s'.unpruned == Counted(s.unpruned, key, c.limit, w, c.time)
    requires s'.admitted == s.admitted + [c] && s'.clock == c.time
    ensures WindowInv(s', key, limit, w)
  {
    var times, b := Times(s.admitted, key, limit), s.unpruned[key];
    TimesOfOneMore(s.admitted, c, key, limit);
    var j: nat :| SplitAt(times, j, b, limit, w);
    var j' := AdmissionKeepsWindow(times, j, b, c, c.limit <= limit, limit, w);
    assert SplitAt(Times(s'.admitted, key, limit), j', s'.unpruned[key], limit, w);
  }

  lemma StepKeepsWindow(s: State, e: Event, key: string, limit: nat, w: nat)
    requires limit >= 1 && WindowInv(s, key, limit, w) && Enabled(s, e)
    requires e.Allow? ==>
      (Answer(s, e.call, e.kept) <==> Admits(s.unpruned, e.call.key, e.call.limit, e.call.windowMs, e.call.time))
    requires e.Allow? && e.call.key == key ==> e.call.windowMs == w
    ensures WindowInv(Step(s, e), key, limit, w)
  {
    var s' := Step(s, e);
    if e.Allow? && e.call.key == key && Answer(s, e.call, e.kept) {
      if key in s.unpruned {
        LaterCallKeepsWindow(s, e.call, key, limit, w, s');
      } else {
        FirstCallKeepsWindow(s, e.call, key, limit, w, s');
      }
    } else {
      if e.Allow? && Answer(s, e.call, e.kept) {
        TimesOfOneMore(s.admitted, e.call, key, limit);
      }
      assert Times(s'.admitted, key, limit) == Times(s.admitted, key, limit);
      assert key in s'.unpruned <==> key in s.unpruned;
      assert key in s.unpruned ==> s'.unpruned[key] == s.unpruned[key];
    }
  }

  /** In the run, every call on `key` asks for the window `w`. */
  predicate UsesWindow(es: seq<Event>, key: string, w: nat) {
    forall i :: 0 <= i < |es| && es[i].Allow? && es[i].call.key == key ==> es[i].call.windowMs == w
  }

  lemma {:induction false} RunKeepsWindow(clock: int, es: seq<Event>, s: State, key: string, limit: nat, w: nat)
    requires After(clock, es) == Some(s) && NeverOverfull(clock, es)
    requires limit >= 1 && UsesWindow(es, key, w)
    ensures WindowInv(s, key, limit, w)
  {
    if es != [] {
      var front := es[..|es| - 1];
      var m := After(clock, front).value;
      RunKeepsWindow(clock, front, m, key, limit, w);
      RunRefines(clock, front, m);
      SameAnswer(m, es[|es| - 1]);
      StepKeepsWindow(m, es[|es| - 1], key, limit, w);
    }
  }

  lemma {:induction false} CountSplit(a: seq<int>, b: seq<int>, lo: int, hi: int)
    ensures CountIn(a + b, lo, hi) == CountIn(a, lo, hi) + CountIn(b, lo, hi)
  {
    if b == [] {
      assert a + b == a;
    } else {
      CountSplit(a, b[..|b| - 1], lo, hi);
      assert (a + b)[..|a + b| - 1] == a + b[..|b| - 1];
    }
  }

  lemma {:induction false} CountBounds(times: seq<int>, lo: int, hi: int)
    ensures CountIn(times, lo, hi) <= |times|
    ensures (forall i :: 0 <= i < |times| ==> !(lo <= times[i] <= hi)) ==> CountIn(times, lo, hi) == 0
  {
    if times != [] {
      CountBounds(times[..|times| - 1], lo, hi);
    }
  }

  lemma {:induction false} FirstAtLeast(times: seq<int>, lo: int) returns (f: nat)
    requires InTimeOrder(times)
    ensures f <= |times|
    ensures forall i :: 0 <= i < f ==> times[i] < lo
    ensures forall i :: f <= i < |times| ==> lo <= times[i]
  {
    if times == [] || times[|times| - 1] < lo {
      f := |times|;
    } else {
      f := FirstAtLeast(times[..|times| - 1], lo);
    }
  }

  lemma CountThirds(a: seq<int>, b: seq<int>, c: seq<int>, lo: int, hi: int)
    requires forall i :: 0 <= i < |a| ==> a[i] < lo
    requires forall i :: 0 <= i < |c| ==> c[i] > hi
    ensures CountIn(a + b + c, lo, hi) <= |b|
  {
    CountSplit(a + b, c, lo, hi);
    CountSplit(a, b, lo, hi);
    CountBounds(a, lo, hi);
    CountBounds(b, lo, hi);
    CountBounds(c, lo, hi);
  }

  lemma Thirds(times: seq<int>, f: nat, g: nat)
    requires f <= g <= |times|
    ensures times == times[..f] + times[f..g] + times[g..]
  {
  }

  lemma SpreadBoundsCount(times: seq<int>, limit: nat, w: nat, lo: int)
    requires InTimeOrder(times) && Spread(times, limit, w)
    ensures CountIn(times, lo, lo + w) <= 2 * limit
  {
    var f := FirstAtLeast(times, lo);
    var g := if f + 2 * limit <= |times| then f + 2 * limit else |times|;
    forall i | g <= i < |times| ensures times[i] > lo + w {
      assert times[g] - times[f] > w;
    }
    Thirds(times, f, g);
    CountThirds(times[..f], times[f..g], times[g..], lo, lo + w);
  }

  /** Twice the limit, at most, in any closed interval of a window's length.  The calls on the key
      may carry different limits (a user may be named like a channel's bucket): those with a limit
      of at most `limit` are admitted at most `2 * limit` times. */
  lemma TwiceTheLimit(clock: int, es: seq<Event>, s: State, key: string, limit: nat, w: nat, lo: int)
    requires After(clock, es) == Some(s) && NeverOverfull(clock, es)
    requires limit >= 1 && UsesWindow(es, key, w)
    ensures CountIn(Times(s.admitted, key, limit), lo, lo + w) <= 2 * limit
  {
    RunKeepsWindow(clock, es, s, key, limit, w);
    SpreadBoundsCount(Times(s.admitted, key, limit), limit, w, lo);
  }

  // ---- No call is refused early: every run ----

  /** When calls on `key` were admitted, whatever their limits. */
  function KeyTimes(admitted: seq<Call>, key: string): seq<int> {
    if admitted == [] then []
    else
      var c := admitted[|admitted| - 1];
      KeyTimes(admitted[..|admitted| - 1], key) + if c.key == key then [c.time] else []
  }

  lemma KeyTimesNext(admitted: seq<Call>, c: Call, key: string)
    ensures KeyTimes(admitted + [c], key) ==
      if c.key == key then KeyTimes(admitted, key) + [c.time] else KeyTimes(admitted, key)
  {
    DropLast(admitted, c);
  }

  lemma {:induction false} CountGrows(times: seq<int>, lo: int, hi: int, lo': int, hi': int)
    requires lo' <= lo && hi <= hi'
    ensures CountIn(times, lo, hi) <= CountIn(times, lo', hi')
  {
    if times != [] { CountGrows(times[..|times| - 1], lo, hi, lo', hi'); }
  }

  lemma CountNext(times: seq<int>, t: int, lo: int, hi: int)
    ensures CountIn(times + [t], lo, hi) == CountIn(times, lo, hi) + if lo <= t <= hi then 1 else 0
  {
    DropLast(times, t);
  }

  /** A bucket counts at least one call, and none that was not admitted since it was opened. */
  ghost predicate Covered(b: Bucket, times: seq<int>, clock: int) {
    1 <= b.count <= CountIn(times, b.start, clock)
  }

  ghost predicate AllCovered(s: State) {
    forall key :: key in s.buckets ==> Covered(s.buckets[key], KeyTimes(s.admitted, key), s.clock)
  }

  lemma CoveredLater(b: Bucket, times: seq<int>, clock: int, later: int)
    requires Covered(b, times, clock) && clock <= later
    ensures Covered(b, times, later)
  {
    CountGrows(times, b.start, clock, b.start, later);
  }

  lemma AdmittedIsCovered(times: seq<int>, now: int, b: Bucket)
    requires b == Bucket(1, now) || (b.count > 1 && b.start <= now && Covered(Bucket(b.count - 1, b.start), times, now))
    ensures Covered(b, times + [now], now)
  {
    CountNext(times, now, b.start, now);
  }

  lemma {:induction false} SomeCounted(times: seq<int>, lo: int, hi: int)
    requires CountIn(times, lo, hi) >= 1
    ensures lo <= hi
  {
    if !(lo <= times[|times| - 1] <= hi) { SomeCounted(times[..|times| - 1], lo, hi); }
  }

  lemma AllowKeepsCovered(s: State, c: Call, kept: Option<set<string>>, key: string)
    requires AllCovered(s) && Enabled(s, Allow(c, kept)) && key in Step(s, Allow(c, kept)).buckets
    ensures Covered(Step(s, Allow(c, kept)).buckets[key], KeyTimes(Step(s, Allow(c, kept)).admitted, key), c.time)
  {
    var times := KeyTimes(s.admitted, key);
    KeyTimesNext(s.admitted, c, key);
    if key in s.buckets {
      CoveredLater(s.buckets[key], times, s.clock, c.time);
      SomeCounted(times, s.buckets[key].start, c.time);
    }
    if Answer(s, c, kept) && c.key == key {
      AdmittedIsCovered(times, c.time, Step(s, Allow(c, kept)).buckets[key]);
    }
  }

  lemma StepKeepsCovered(s: State, e: Event)
    requires AllCovered(s) && Enabled(s, e)
    ensures AllCovered(Step(s, e))
  {
    forall key | key in Step(s, e).buckets
      ensures Covered(Step(s, e).buckets[key], KeyTimes(Step(s, e).admitted, key), Step(s, e).clock)
    {
      match e
      case Allow(c, kept) => AllowKeepsCovered(s, c, kept, key);
      case Timer(now, _) => CoveredLater(s.buckets[key], KeyTimes(s.admitted, key), s.clock, now);
    }
  }

  lemma {:induction false} RunKeepsCovered(clock: int, es: seq<Event>, s: State)
    requires After(clock, es) == Some(s)
    ensures AllCovered(s)
  {
    if es != [] {
      var m := After(clock, es[..|es| - 1]).value;
      RunKeepsCovered(clock, es[..|es| - 1], m);
      StepKeepsCovered(m, es[|es| - 1]);
    }
  }

  /** How many calls on `key` were admitted in the last `w` milliseconds. */
  function Recent(s: State, key: string, w: nat, now: int): nat {
    CountIn(KeyTimes(s.admitted, key), now - w, now)
  }

  lemma CoveredRefusal(s: State, c: Call, kept: Option<set<string>>)
    requires AllCovered(s) && Enabled(s, Allow(c, kept)) && !Answer(s, c, kept)
    ensures Recent(s, c.key, c.windowMs, c.time) >= c.limit && Recent(s, c.key, c.windowMs, c.time) >= 1
  {
    var b := s.buckets[c.key];
    CountGrows(KeyTimes(s.admitted, c.key), b.start, s.clock, c.time - c.windowMs, c.time);
  }

  lemma RecentNext(s: State, c: Call, kept: Option<set<string>>, key: string, w: nat)
    requires Answer(s, c, kept)
    ensures Recent(Step(s, Allow(c, kept)), key, w, c.time) == Recent(s, key, w, c.time) + if c.key == key then 1 else 0
  {
    KeyTimesNext(s.admitted, c, key);
    CountNext(KeyTimes(s.admitted, key), c.time, c.time - w, c.time);
  }

  /** In every run, whatever was pruned, a call is refused only if in the window's length before it at least
      `limit` calls, and at least one, were admitted on its key. */
  lemma RefusalIsEarned(clock: int, es: seq<Event>, s: State, c: Call, kept: Option<set<string>>)
    requires After(clock, es) == Some(s) && Enabled(s, Allow(c, kept)) && !Answer(s, c, kept)
    ensures Recent(s, c.key, c.windowMs, c.time) >= c.limit && Recent(s, c.key, c.windowMs, c.time) >= 1
  {
    RunKeepsCovered(clock, es, s);
    CoveredRefusal(s, c, kept);
  }

  // ---- Exactly the fixed-window limiter ----

  /** The admissions in the latest window, told from the admission times alone: a window opens with the first
      admission that is more than `w` after the opening of the one before. */
  function LatestWindow(times: seq<int>, w: nat): (window: seq<int>)
    ensures times != [] ==> window != []
  {
    if times == [] then []
    else
      var t, window := times[|times| - 1], LatestWindow(times[..|times| - 1], w);
      if window == [] || t - window[0] > w then [t] else window + [t]
  }

  lemma WindowNext(times: seq<int>, t: int, w: nat)
    ensures LatestWindow(times + [t], w) ==
      var window := LatestWindow(times, w);
      if window == [] || t - window[0] > w then [t] else window + [t]
  {
    DropLast(times, t);
  }

  /** The bucket is the latest window of its key. */
  ghost predicate IsWindow(s: State, key: string, w: nat) {
    var window := LatestWindow(KeyTimes(s.admitted, key), w);
    && (key in s.unpruned <==> window != [])
    && (key in s.unpruned ==> s.unpruned[key] == Bucket(|window|, window[0]))
  }

  lemma StepKeepsIsWindow(s: State, e: Event, key: string, w: nat)
    requires IsWindow(s, key, w) && Enabled(s, e)
    requires e.Allow? ==>
      (Answer(s, e.call, e.kept) <==> Admits(s.unpruned, e.call.key, e.call.limit, e.call.windowMs, e.call.time))
    requires e.Allow? && e.call.key == key ==> e.call.windowMs == w
    ensures IsWindow(Step(s, e), key, w)
  {
    if e.Allow? && Answer(s, e.call, e.kept) {
      KeyTimesNext(s.admitted, e.call, key);
      WindowNext(KeyTimes(s.admitted, key), e.call.time, w);
    }
  }

  lemma {:induction false} RunKeepsIsWindow(clock: int, es: seq<Event>, s: State, key: string, w: nat)
    requires After(clock, es) == Some(s) && NeverOverfull(clock, es) && UsesWindow(es, key, w)
    ensures IsWindow(s, key, w)
  {
    if es != [] {
      var front := es[..|es| - 1];
      var m := After(clock, front).value;
      RunKeepsIsWindow(clock, front, m, key, w);
      RunRefines(clock, front, m);
      SameAnswer(m, es[|es| - 1]);
      StepKeepsIsWindow(m, es[|es| - 1], key, w);
    }
  }

  /** When no open bucket is evicted, a call is admitted if and only if its key's latest window is over, or
      fewer calls than the limit were admitted in it. */
  lemma AdmittedIff(clock: int, es: seq<Event>, s: State, c: Call, kept: Option<set<string>>)
    requires After(clock, es) == Some(s) && NeverOverfull(clock, es) && UsesWindow(es, c.key, c.windowMs)
    requires Enabled(s, Allow(c, kept)) && NoLiveEviction(s, Allow(c, kept))
    ensures var window := LatestWindow(KeyTimes(s.admitted, c.key), c.windowMs);
            Answer(s, c, kept) <==> window == [] || c.time - window[0] > c.windowMs || |window| < c.limit
  {
    RunKeepsIsWindow(clock, es, s, c.key, c.windowMs);
    PruningIsInvisible(clock, es, s, c, kept);
  }

  /** The latest window ends the admission times and spans at most `w`. */
  lemma {:induction false} WindowIsSuffix(times: seq<int>, w: nat)
    ensures |LatestWindow(times, w)| <= |times|
    ensures LatestWindow(times, w) == times[|times| - |LatestWindow(times, w)|..]
    ensures forall t :: t in LatestWindow(times, w) ==> t - LatestWindow(times, w)[0] <= w
  {
    if times != [] {
      var front, t := times[..|times| - 1], times[|times| - 1];
      WindowIsSuffix(front, w);
      assert times == front + [t];
    }
  }

  /** A limit of 0 is not enforced: the first call of a window is let through. */
  lemma ZeroLimitAdmitsOne(key: string, w: nat, now: int)
    ensures Admits(map[], key, 0, w, now)
    ensures !Admits(Counted(map[], key, 0, w, now), key, 0, w, now)
  {
    assert now - now <= w;
  }
}
