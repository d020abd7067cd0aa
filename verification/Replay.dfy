/** Replay detection: a bounded, lazily pruned map of nonces against the unbounded record of
    every (nonce, timestamp) pair that was ever accepted.
 */
module Replay {
  import opened Prelude
  import Eviction

  const CLOCK_SKEW := 300_000
  const PRUNE_ABOVE := 10_000

  function Abs(x: int): int { if x < 0 then -x else x }

  /** The clock admits the pair. */
  predicate InWindow(ts: int, now: int) {
    Abs(now - ts) <= CLOCK_SKEW
  }

  class NonceCache {
    var seen: map<string, int>
    const maxSize: nat

    constructor (maxSize: nat)
      ensures seen == map[] && this.maxSize == maxSize
    {
      seen := map[];
      this.maxSize := maxSize;
    }

    method PruneNonceCache(now: int) returns (kept: set<string>)
      modifies this
      ensures Eviction.Pruned(old(seen), now, CLOCK_SKEW, maxSize, kept)
      ensures seen == Eviction.Restrict(old(seen), kept)
    {
      kept := Eviction.Prune(seen, now, CLOCK_SKEW, maxSize);
      seen := Eviction.Restrict(seen, kept);
    }

    /** `now` is the clock; all reads of it within one call agree.  `kept` is the outcome of the
        pruning pass, if there was one. */
    method CheckNonce(nonce: string, ts: int, now: int) returns (ok: bool, kept: Option<set<string>>)
      modifies this
      ensures ok <==> nonce != "" && -300_000 <= now - ts <= 300_000 && nonce !in old(seen)
      ensures !ok ==> seen == old(seen)
      ensures ok && |old(seen)| < 10_000 ==> seen == old(seen)[nonce := ts]
      ensures PruneChoice(old(seen), maxSize, nonce, ts, now, kept)
      ensures seen == Checked(old(seen), nonce, ts, now, kept)
    {
      kept := None;
      if nonce == "" { return false, kept; }
      if Abs(now - ts) > CLOCK_SKEW { return false, kept; }
      if nonce in seen { return false, kept; }
      seen := seen[nonce := ts];
      if |seen| > PRUNE_ABOVE {
        var k := PruneNonceCache(now);
        kept := Some(k);
      }
      return true, kept;
    }
  }

  // ---- One call, on the value of the map ----

  predicate Accepts(seen: map<string, int>, nonce: string, ts: int, now: int) {
    nonce != "" && InWindow(ts, now) && nonce !in seen
  }

  /** A pass happens exactly when the insertion makes the map large. */
  ghost predicate PruneChoice(seen: map<string, int>, maxSize: nat, nonce: string, ts: int, now: int,
                              kept: Option<set<string>>)
  {
    if Accepts(seen, nonce, ts, now) && |seen[nonce := ts]| > PRUNE_ABOVE then
      kept.Some? && Eviction.Pruned(seen[nonce := ts], now, CLOCK_SKEW, maxSize, kept.value)
    else
      kept.None?
  }

  function Checked(seen: map<string, int>, nonce: string, ts: int, now: int,
                   kept: Option<set<string>>): map<string, int>
  {
    if !Accepts(seen, nonce, ts, now) then seen
    else if kept.Some? then Eviction.Restrict(seen[nonce := ts], kept.value)
    else seen[nonce := ts]
  }

  // ---- Whole runs ----

  datatype Pair = Pair(nonce: string, ts: int)

  /** `accepted` is the unbounded record, `clock` the latest reading of the clock. */
  datatype State = State(seen: map<string, int>, accepted: seq<Pair>, clock: int)

  datatype Event =
    | Check(nonce: string, ts: int, now: int, kept: Option<set<string>>)
    | Timer(now: int, stay: set<string>)

  function Init(clock: int): State { State(map[], [], clock) }

  ghost predicate Enabled(s: State, e: Event, maxSize: nat) {
    && s.clock <= e.now
    && match e
       case Check(nonce, ts, now, kept) => PruneChoice(s.seen, maxSize, nonce, ts, now, kept)
       case Timer(now, stay) => Eviction.Pruned(s.seen, now, CLOCK_SKEW, maxSize, stay)
  }

  function Step(s: State, e: Event): State {
    match e
    case Check(nonce, ts, now, kept) =>
      State(Checked(s.seen, nonce, ts, now, kept),
            if Accepts(s.seen, nonce, ts, now) then s.accepted + [Pair(nonce, ts)] else s.accepted, now)
    case Timer(now, stay) => State(Eviction.Restrict(s.seen, stay), s.accepted, now)
  }

  /** The map on which the event's pruning pass works, if it has one. */
  function PrunedMap(s: State, e: Event): Option<map<string, int>> {
    match e
    case Check(nonce, ts, now, kept) => if kept.Some? then Some(s.seen[nonce := ts]) else None
    case Timer(_, _) => Some(s.seen)
  }

  /** The pass, if any, finds no more unexpired nonces than it may keep. */
  predicate NoLiveEviction(s: State, e: Event, maxSize: nat) {
    match PrunedMap(s, e)
    case None => true
    case Some(m) => |Eviction.Live(m, e.now, CLOCK_SKEW)| <= maxSize
  }

  ghost function After(clock: int, es: seq<Event>, maxSize: nat): Option<State> {
    if es == [] then Some(Init(clock))
    else
      var e := es[|es| - 1];
      match After(clock, es[..|es| - 1], maxSize)
      case Some(m) => if Enabled(m, e, maxSize) then Some(Step(m, e)) else None
      case None => None
  }

  ghost predicate NeverOverfull(clock: int, es: seq<Event>, maxSize: nat) {
    es != [] ==>
      && NeverOverfull(clock, es[..|es| - 1], maxSize)
      && (After(clock, es[..|es| - 1], maxSize).Some? ==>
        NoLiveEviction(After(clock, es[..|es| - 1], maxSize).value, es[|es| - 1], maxSize))
  }

  // ---- Bounds and completeness: every run ----

  function Limit(maxSize: nat): nat { if maxSize > PRUNE_ABOVE then maxSize else PRUNE_ABOVE }

  ghost predicate Bounded(s: State, maxSize: nat) {
    && |s.seen| <= Limit(maxSize)
    && forall n :: n in s.seen ==> n != "" && Pair(n, s.seen[n]) in s.accepted
  }

  lemma StepKeepsBounded(s: State, e: Event, maxSize: nat)
    requires Bounded(s, maxSize) && Enabled(s, e, maxSize)
    ensures Bounded(Step(s, e), maxSize)
  {
    match e
    case Check(nonce, ts, now, kept) =>
      if kept.Some? {
        assert Eviction.Restrict(s.seen[nonce := ts], kept.value).Keys == kept.value;
      }
    case Timer(now, stay) =>
      assert Eviction.Restrict(s.seen, stay).Keys == stay;
      Eviction.SubsetSize(stay, s.seen.Keys);
  }

  lemma {:induction false} RunKeepsBounded(clock: int, es: seq<Event>, maxSize: nat, s: State)
    requires After(clock, es, maxSize) == Some(s)
    ensures Bounded(s, maxSize)
  {
    if es != [] {
      var m := After(clock, es[..|es| - 1], maxSize).value;
      RunKeepsBounded(clock, es[..|es| - 1], maxSize, m);
      StepKeepsBounded(m, es[|es| - 1], maxSize);
    }
  }

  /** The map never outgrows its bound, and a nonce that was never accepted is never refused for
      being a replay: in the window it is accepted. */
  lemma BoundedAndFreshAccepted(clock: int, es: seq<Event>, maxSize: nat, s: State, nonce: string, ts: int, now: int)
    requires After(clock, es, maxSize) == Some(s)
    ensures |s.seen| <= 10_000 || |s.seen| <= maxSize
    ensures nonce != "" && (forall p :: p in s.accepted ==> p.nonce != nonce) ==>
              (Accepts(s.seen, nonce, ts, now) <==> -300_000 <= now - ts <= 300_000)
  {
    RunKeepsBounded(clock, es, maxSize, s);
    if nonce in s.seen {
      assert Pair(nonce, s.seen[nonce]) in s.accepted;
    }
  }

  // ---- No replay: runs that evict no live nonce ----

  /** An accepted pair is still in the map or the clock has moved past it for good. */
  ghost predicate Remembered(s: State) {
    forall p :: p in s.accepted ==> (p.nonce in s.seen && s.seen[p.nonce] == p.ts) || s.clock - p.ts > CLOCK_SKEW
  }

  lemma StepKeepsRemembered(s: State, e: Event, maxSize: nat)
    requires Remembered(s) && Enabled(s, e, maxSize) && NoLiveEviction(s, e, maxSize)
    ensures Remembered(Step(s, e))
  {
    match PrunedMap(s, e)
    case None =>
    case Some(m) =>
      assert match e case Check(_, _, _, kept) => kept == Some(Eviction.Live(m, e.now, CLOCK_SKEW))
                     case Timer(_, stay) => stay == Eviction.Live(m, e.now, CLOCK_SKEW);
  }

  lemma {:induction false} RunKeepsRemembered(clock: int, es: seq<Event>, maxSize: nat, s: State)
    requires After(clock, es, maxSize) == Some(s) && NeverOverfull(clock, es, maxSize)
    ensures Remembered(s)
  {
    if es != [] {
      var m := After(clock, es[..|es| - 1], maxSize).value;
      RunKeepsRemembered(clock, es[..|es| - 1], maxSize, m);
      StepKeepsRemembered(m, es[|es| - 1], maxSize);
    }
  }

  ghost predicate NoTwice(accepted: seq<Pair>) {
    forall i, j :: 0 <= i < j < |accepted| ==> accepted[i] != accepted[j]
  }

  lemma StepKeepsNoTwice(s: State, e: Event, maxSize: nat)
    requires NoTwice(s.accepted) && Remembered(s) && Enabled(s, e, maxSize)
    ensures NoTwice(Step(s, e).accepted)
  {
    if e.Check? && Accepts(s.seen, e.nonce, e.ts, e.now) {
      assert Pair(e.nonce, e.ts) !in s.accepted;
    }
  }

  /** No pair is accepted twice over a whole run. */
  lemma {:induction false} NoReplay(clock: int, es: seq<Event>, maxSize: nat, s: State)
    requires After(clock, es, maxSize) == Some(s) && NeverOverfull(clock, es, maxSize)
    ensures NoTwice(s.accepted)
  {
    if es != [] {
      var m := After(clock, es[..|es| - 1], maxSize).value;
      NoReplay(clock, es[..|es| - 1], maxSize, m);
      RunKeepsRemembered(clock, es[..|es| - 1], maxSize, m);
      StepKeepsNoTwice(m, es[|es| - 1], maxSize);
    }
  }

  /** The hypothesis is needed, and is exact for one pass: after pruning, some unexpired nonce of
      the map could be replayed at once if and only if there were more of them than the cap. */
  lemma ReplayableIffOverCap(seen: map<string, int>, now: int, maxSize: nat, kept: set<string>)
    requires Eviction.Pruned(seen, now, CLOCK_SKEW, maxSize, kept) && "" !in seen
    requires forall n :: n in seen ==> seen[n] <= now + CLOCK_SKEW
    ensures (exists n :: n in seen && Accepts(Eviction.Restrict(seen, kept), n, seen[n], now))
            <==> |Eviction.Live(seen, now, CLOCK_SKEW)| > maxSize
  {
    var live := Eviction.Live(seen, now, CLOCK_SKEW);
    if |live| > maxSize {
      assert live != kept;
      var n :| n in live && n !in kept;
      assert Accepts(Eviction.Restrict(seen, kept), n, seen[n], now);
    }
  }
}
