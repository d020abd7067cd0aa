/** The promise-chained mutex `withSessionLock`: one chain per key, each caller awaiting the
    promise its predecessor left in the map.  A call is cut at its awaits: it arrives (reads
    and replaces the chain), enters once the predecessor's promise has resolved, settles when
    `fn` returns or throws, and leaves in the `finally` block.  Any interleaving of these
    steps, of any number of calls over any keys, is a run.
 */
module SessionLock {
  import opened Prelude

  datatype Phase = Waiting | Running | Settled | Finished

  /** A call of `withSessionLock`; its index in `State.requests` is its arrival number, and
      also names the promise that it puts into the map. */
  datatype Request = Request(key: string, previous: Option<nat>, phase: Phase)

  datatype State = State(requests: seq<Request>, locks: map<string, nat>)

  datatype Event =
    | Arrive(key: string)
    | Enter(r: nat)
    | Settle(r: nat)
    | Leave(r: nat)
    | Tick  // something else runs

  const INIT := State([], map[])

  predicate PhaseIs(s: State, r: nat, phase: Phase) {
    r < |s.requests| && s.requests[r].phase == phase
  }

  predicate Enabled(s: State, e: Event) {
    match e
    case Arrive(_) => true
    case Enter(r) =>
      && PhaseIs(s, r, Waiting)
      && (s.requests[r].previous.Some? ==> PhaseIs(s, s.requests[r].previous.value, Finished))
    case Settle(r) => PhaseIs(s, r, Running)
    case Leave(r) => PhaseIs(s, r, Settled)
    case Tick => true
  }

  function WithPhase(s: State, r: nat, phase: Phase): State
    requires r < |s.requests|
  {
    s.(requests := s.requests[r := s.requests[r].(phase := phase)])
  }

  function Step(s: State, e: Event): State
    requires Enabled(s, e)
  {
    match e
    case Arrive(key) =>
      var previous := if key in s.locks then Some(s.locks[key]) else None;
      State(s.requests + [Request(key, previous, Waiting)], s.locks[key := |s.requests|])
    case Enter(r) => WithPhase(s, r, Running)
    case Settle(r) => WithPhase(s, r, Settled)
    case Leave(r) =>
      var key := s.requests[r].key;
      var s' := WithPhase(s, r, Finished);
      if key in s.locks && s.locks[key] == r then s'.(locks := s.locks - {key}) else s'
    case Tick => s
  }

  /** The state after a sequence of events, or None if some event was not enabled. */
  function After(s: State, es: seq<Event>): Option<State> {
    if es == [] then Some(s)
    else
      var e := es[|es| - 1];
      match After(s, es[..|es| - 1])
      case Some(m) => if Enabled(m, e) then Some(Step(m, e)) else None
      case None => None
  }

  // ---- Safety ----

  /** The key of `r`'s call, or nothing when there is no such call. */
  predicate OnKey(s: State, r: nat, key: string) {
    r < |s.requests| && s.requests[r].key == key
  }

  predicate Unfinished(s: State, r: nat) {
    r < |s.requests| && s.requests[r].phase != Finished
  }

  predicate Entered(s: State, r: nat) {
    r < |s.requests| && s.requests[r].phase != Waiting
  }

  /** Every earlier call on the same key is over. */
  ghost predicate AllBefore(s: State, r: nat)
    requires r < |s.requests|
  {
    forall q: nat :: q < r && OnKey(s, q, s.requests[r].key) ==> PhaseIs(s, q, Finished)
  }

  /** `p` is the call on `r`'s key that arrived last before `r`. */
  ghost predicate IsPredecessor(s: State, p: nat, r: nat)
    requires r < |s.requests|
  {
    && p < r && OnKey(s, p, s.requests[r].key)
    && forall q: nat :: p < q < r ==> !OnKey(s, q, s.requests[r].key)
  }

  /** The map holds, for each key, its newest call, and only while that call is unfinished. */
  ghost predicate LocksInv(s: State) {
    && (forall key :: key in s.locks ==>
      && OnKey(s, s.locks[key], key) && Unfinished(s, s.locks[key])
      && forall q: nat :: s.locks[key] < q ==> !OnKey(s, q, key))
    && (forall r: nat :: Unfinished(s, r) ==> s.requests[r].key in s.locks)
  }

  /** The promise that `r` awaits belongs to the call just before it on its key. */
  ghost predicate Linked(s: State, r: nat)
    requires r < |s.requests|
  {
    match s.requests[r].previous
    case Some(p) => IsPredecessor(s, p, r)
    case None => AllBefore(s, r)
  }

  ghost predicate Inv(s: State) {
    && LocksInv(s)
    && (forall r: nat :: r < |s.requests| ==> Linked(s, r))
    && (forall r: nat :: Entered(s, r) ==> AllBefore(s, r))
  }

  lemma EnterAfterAll(s: State, r: nat)
    requires Inv(s) && Enabled(s, Enter(r))
    ensures AllBefore(s, r)
  {
    assert Linked(s, r);
    match s.requests[r].previous
    case None =>
    case Some(p) =>
      assert Entered(s, p) && AllBefore(s, p);
  }

  lemma ArriveKeepsInv(s: State, key: string)
    requires Inv(s)
    ensures Inv(Step(s, Arrive(key)))
  {
    var s' := Step(s, Arrive(key));
    assert forall q: nat, k: string :: q < |s.requests| ==> (OnKey(s', q, k) <==> OnKey(s, q, k));
    forall r: nat | r < |s'.requests|
      ensures Linked(s', r)
    {
      if r < |s.requests| {
        assert Linked(s, r) && s'.requests[r] == s.requests[r];
      }
    }
    forall r: nat | Entered(s', r)
      ensures AllBefore(s', r)
    {
      assert Entered(s, r) && AllBefore(s, r);
    }
  }

  /** Advancing one call's phase breaks no link. */
  lemma AdvanceKeepsLinks(s: State, s': State, r: nat, phase: Phase)
    requires Inv(s) && Unfinished(s, r) && AllBefore(s, r)
    requires s'.requests == WithPhase(s, r, phase).requests
    ensures forall q: nat :: q < |s'.requests| ==> Linked(s', q)
    ensures forall q: nat :: Entered(s', q) ==> AllBefore(s', q)
    ensures s'.locks == s.locks && phase != Finished ==> Inv(s')
  {
    assert forall q: nat, k: string :: OnKey(s', q, k) <==> OnKey(s, q, k);
    assert forall q: nat :: PhaseIs(s, q, Finished) ==> PhaseIs(s', q, Finished);
    forall q: nat | q < |s'.requests|
      ensures Linked(s', q)
    {
      assert Linked(s, q) && s'.requests[q].key == s.requests[q].key;
    }
    forall q: nat | Entered(s', q)
      ensures AllBefore(s', q)
    {
      assert q != r ==> Entered(s, q) && AllBefore(s, q);
    }
  }

  lemma LeaveKeepsLocks(s: State, r: nat)
    requires Inv(s) && Enabled(s, Leave(r))
    ensures LocksInv(Step(s, Leave(r)))
  {
    var s' := Step(s, Leave(r));
    var key := s.requests[r].key;
    assert Entered(s, r) && AllBefore(s, r);
    assert forall q: nat, k: string :: OnKey(s', q, k) <==> OnKey(s, q, k);
    forall q: nat | Unfinished(s', q)
      ensures s'.requests[q].key in s'.locks
    {
      assert Unfinished(s, q) && OnKey(s, q, s.requests[q].key);
    }
  }

  lemma StepKeepsInv(s: State, e: Event)
    requires Inv(s) && Enabled(s, e)
    ensures Inv(Step(s, e))
  {
    var s' := Step(s, e);
    match e
    case Arrive(key) => ArriveKeepsInv(s, key);
    case Enter(r) =>
      EnterAfterAll(s, r);
      AdvanceKeepsLinks(s, s', r, Running);
    case Settle(r) =>
      assert Entered(s, r);
      AdvanceKeepsLinks(s, s', r, Settled);
    case Leave(r) =>
      assert Entered(s, r);
      AdvanceKeepsLinks(s, s', r, Finished);
      LeaveKeepsLocks(s, r);
    case Tick =>
  }

  lemma {:induction false} RunKeepsInv(es: seq<Event>, s: State)
    requires After(INIT, es) == Some(s)
    ensures Inv(s)
  {
    if es != [] {
      var m := After(INIT, es[..|es| - 1]).value;
      RunKeepsInv(es[..|es| - 1], m);
      StepKeepsInv(m, es[|es| - 1]);
    }
  }

  lemma Exclusive(s: State, q: nat, r: nat)
    requires Inv(s)
    requires r < |s.requests| && s.requests[r].phase in {Running, Settled}
    requires q != r && OnKey(s, q, s.requests[r].key)
    ensures s.requests[q].phase !in {Running, Settled}
  {
    assert Entered(s, r);
    if s.requests[q].phase in {Running, Settled} {
      assert Entered(s, q) && OnKey(s, r, s.requests[q].key);
    }
  }

  /** Mutual exclusion: two calls on one key are never both between entering and leaving. */
  lemma MutualExclusion(es: seq<Event>, s: State, q: nat, r: nat)
    requires After(INIT, es) == Some(s)
    requires r < |s.requests| && s.requests[r].phase in {Running, Settled}
    requires q != r && OnKey(s, q, s.requests[r].key)
    ensures s.requests[q].phase !in {Running, Settled}
  {
    RunKeepsInv(es, s);
    Exclusive(s, q, r);
  }

  /** First come, first served: a call that has entered, every earlier call on its key is over,
      whether its `fn` returned or threw. */
  lemma FirstComeFirstServed(es: seq<Event>, s: State, q: nat, r: nat)
    requires After(INIT, es) == Some(s)
    requires q < r && Entered(s, r) && OnKey(s, q, s.requests[r].key)
    ensures PhaseIs(s, q, Finished)
  {
    RunKeepsInv(es, s);
  }

  /** A key is in the map exactly while it has an unfinished call, so the map does not leak. */
  lemma LockedIffUnfinished(es: seq<Event>, s: State, key: string)
    requires After(INIT, es) == Some(s)
    ensures key in s.locks <==> exists r: nat :: OnKey(s, r, key) && Unfinished(s, r)
  {
    RunKeepsInv(es, s);
    if key in s.locks {
      assert OnKey(s, s.locks[key], key) && Unfinished(s, s.locks[key]);
    }
  }

  // ---- Progress ----

  /** An endless run. */
  ghost predicate Execution(run: nat -> State, ev: nat -> Event) {
    && run(0) == INIT
    && forall i: nat :: StepAt(run, ev, i)
  }

  ghost predicate StepAt(run: nat -> State, ev: nat -> Event, i: nat) {
    Enabled(run(i), ev(i)) && run(i + 1) == Step(run(i), ev(i))
  }

  /** Weak fairness: a step that a call can take is eventually taken.  For Settle this is the
      assumption that every `fn` settles. */
  ghost predicate Fair(run: nat -> State, ev: nat -> Event) {
    forall i: nat, e: Event :: (e.Enter? || e.Settle? || e.Leave?) && Enabled(run(i), e) ==>
      exists j: nat :: i <= j && ev(j) == e
  }

  function Rank(p: Phase): nat {
    match p case Waiting => 0 case Running => 1 case Settled => 2 case Finished => 3
  }

  lemma {:induction false} ExecutionInv(run: nat -> State, ev: nat -> Event, i: nat)
    requires Execution(run, ev)
    ensures Inv(run(i))
  {
    if i > 0 {
      ExecutionInv(run, ev, i - 1);
      assert StepAt(run, ev, i - 1);
      StepKeepsInv(run(i - 1), ev(i - 1));
    }
  }

  lemma {:induction false} PhasesAdvance(run: nat -> State, ev: nat -> Event, i: nat, j: nat, r: nat)
    requires Execution(run, ev) && i <= j && r < |run(i).requests|
    ensures r < |run(j).requests|
    ensures run(j).requests[r].(phase := Waiting) == run(i).requests[r].(phase := Waiting)
    ensures Rank(run(i).requests[r].phase) <= Rank(run(j).requests[r].phase)
    decreases j
  {
    if i < j {
      PhasesAdvance(run, ev, i, j - 1, r);
      assert StepAt(run, ev, j - 1);
    }
  }

  /** One enabled step of `r` is eventually behind us. */
  lemma Advances(run: nat -> State, ev: nat -> Event, i: nat, r: nat, e: Event) returns (j: nat)
    requires Execution(run, ev) && Fair(run, ev)
    requires e in {Enter(r), Settle(r), Leave(r)} && Enabled(run(i), e)
    ensures i < j && r < |run(j).requests|
    ensures Rank(run(j).requests[r].phase) > Rank(run(i).requests[r].phase)
  {
    var k: nat :| i <= k && ev(k) == e;
    PhasesAdvance(run, ev, i, k, r);
    j := k + 1;
    assert StepAt(run, ev, k);
  }

  /** No call waits for ever: under fairness every call that arrived is eventually finished. */
  lemma {:induction false} EventuallyFinished(run: nat -> State, ev: nat -> Event, i: nat, r: nat)
    returns (j: nat)
    requires Execution(run, ev) && Fair(run, ev) && r < |run(i).requests|
    ensures i <= j && PhaseIs(run(j), r, Finished)
    decreases r, 3 - Rank(run(i).requests[r].phase)
  {
    ExecutionInv(run, ev, i);
    j := i;
    match run(i).requests[r].phase
    case Finished =>
    case Settled =>
      j := Advances(run, ev, i, r, Leave(r));
      j := EventuallyFinished(run, ev, j, r);
    case Running =>
      j := Advances(run, ev, i, r, Settle(r));
      j := EventuallyFinished(run, ev, j, r);
    case Waiting =>
      match run(i).requests[r].previous {
        case None =>
        case Some(p) =>
          assert Linked(run(i), r);
          j := EventuallyFinished(run, ev, i, p);
      }
      PhasesAdvance(run, ev, i, j, r);
      if run(j).requests[r].phase == Waiting {
        j := Advances(run, ev, j, r, Enter(r));
      }
      j := EventuallyFinished(run, ev, j, r);
  }

  // ---- The module's state in place ----

  /** The promise `current`; `release` resolves it. */
  class Chain {
    var released: bool

    constructor ()
      ensures !released
    {
      released := false;
    }
  }

  class SessionLocks {
    var chains: map<string, Chain>

    constructor ()
      ensures chains == map[] && Represents(INIT, [])
    {
      chains := map[];
    }

    /** The objects hold the abstract state: `handles[r]` is the promise of call `r`. */
    ghost predicate Represents(s: State, handles: seq<Chain>)
      reads this, handles
    {
      && |handles| == |s.requests|
      && (forall i, j :: 0 <= i < j < |handles| ==> handles[i] != handles[j])
      && (forall r :: 0 <= r < |handles| ==> (handles[r].released <==> s.requests[r].phase == Finished))
      && chains.Keys == s.locks.Keys
      && forall key :: key in chains ==> s.locks[key] < |handles| && chains[key] == handles[s.locks[key]]
    }

    /** Up to the first await: remember the predecessor's promise, publish an own one. */
    method Arrive(key: string, ghost s: State, ghost handles: seq<Chain>)
      returns (previous: Chain?, current: Chain)
      requires Represents(s, handles)
      modifies this
      ensures fresh(current)
      ensures Represents(Step(s, Event.Arrive(key)), handles + [current])
      ensures match Step(s, Event.Arrive(key)).requests[|handles|].previous
              case None => previous == null
              case Some(p) => p < |handles| && previous == handles[p]
    {
      previous := if key in chains then chains[key] else null;
      current := new Chain();
      chains := chains[key := current];
    }

    /** The `finally` block: release, and drop the map entry if nobody queued up behind. */
    method Leave(key: string, current: Chain, ghost s: State, ghost handles: seq<Chain>, ghost r: nat)
      requires Represents(s, handles) && Enabled(s, Event.Leave(r)) && Inv(s)
      requires current == handles[r] && key == s.requests[r].key
      modifies this, current
      ensures Represents(Step(s, Event.Leave(r)), handles)
    {
      current.released := true;
      if key in chains && chains[key] == current {
        chains := chains - {key};
      }
    }
  }
}
