/** The per-conversation task queue of the chat channels: one task of a conversation runs at a
    time, later ones queue up, and a clear drops what is queued.  The Discord and the Slack
    package hold the same class.

    The state machine sees the queue at its await points: a task is submitted, the running task
    of a conversation settles (by return or throw) and the next one starts, or a clear arrives.
 */
module ConversationQueue {
  import opened Prelude

  /** A task is named by its acceptance number, its index in `accepted`. */
  type Task = nat

  /** A conversation with a running task. */
  datatype Busy = Busy(running: Task, queue: seq<Task>)

  /** `accepted[t]` is the conversation of task `t`. */
  datatype State = State(
    states: map<string, Busy>, accepted: seq<string>, started: seq<Task>, settled: set<Task>, dropped: set<Task>)

  const INIT := State(map[], [], [], {}, {})

  datatype Event =
    | Submit(key: string)
    | Settle(key: string)
    | Clear(key: string)

  predicate Enabled(s: State, e: Event) {
    e.Settle? ==> e.key in s.states
  }

  function Elements(q: seq<Task>): set<Task> {
    set t | t in q
  }

  function Step(s: State, e: Event): State
    requires Enabled(s, e)
  {
    var key := e.key;
    match e
    case Submit(_) =>
      var t := |s.accepted|;
      var s' := s.(accepted := s.accepted + [key]);
      if key in s.states then s'.(states := s.states[key := s.states[key].(queue := s.states[key].queue + [t])])
      else s'.(states := s.states[key := Busy(t, [])], started := s.started + [t])
    case Settle(_) =>
      var b := s.states[key];
      var s' := s.(settled := s.settled + {b.running});
      if b.queue == [] then s'.(states := s.states - {key})
      else s'.(states := s.states[key := Busy(b.queue[0], b.queue[1..])], started := s.started + [b.queue[0]])
    case Clear(_) =>
      if key in s.states then
        s.(states := s.states[key := s.states[key].(queue := [])], dropped := s.dropped + Elements(s.states[key].queue))
      else s
  }

  function After(es: seq<Event>): Option<State> {
    if es == [] then Some(INIT)
    else
      var e := es[|es| - 1];
      match After(es[..|es| - 1])
      case Some(m) => if Enabled(m, e) then Some(Step(m, e)) else None
      case None => None
  }

  // ---- The order of a conversation's tasks ----

  function Queue(s: State, key: string): seq<Task> {
    if key in s.states then s.states[key].queue else []
  }

  /** The accepted tasks of a conversation that no clear has dropped, in acceptance order. */
  function Kept(accepted: seq<string>, dropped: set<Task>, key: string): seq<Task> {
    if accepted == [] then []
    else
      var t := |accepted| - 1;
      Kept(accepted[..t], dropped, key) + if accepted[t] == key && t !in dropped then [t] else []
  }

  /** The started tasks of a conversation, in starting order. */
  function StartedOf(s: State, started: seq<Task>, key: string): seq<Task> {
    if started == [] then []
    else
      var t := started[|started| - 1];
      StartedOf(s, started[..|started| - 1], key) + if t < |s.accepted| && s.accepted[t] == key then [t] else []
  }

  function WithoutDropped(q: seq<Task>, gone: set<Task>): seq<Task> {
    if q == [] then []
    else WithoutDropped(q[..|q| - 1], gone) + if q[|q| - 1] in gone then [] else [q[|q| - 1]]
  }

  lemma SnocAscending(q: seq<Task>, t: Task)
    requires Ascending(q) && forall x: Task :: x in q ==> x < t
    ensures Ascending(q + [t])
  {
    var r := q + [t];
    forall i, j | 0 <= i < j < |r| ensures r[i] < r[j] {
      assert q[i] in q;
    }
  }

  lemma {:induction false} KeptMembers(accepted: seq<string>, dropped: set<Task>, key: string, t: Task)
    ensures t in Kept(accepted, dropped, key) <==> t < |accepted| && accepted[t] == key && t !in dropped
  {
    if accepted != [] {
      KeptMembers(accepted[..|accepted| - 1], dropped, key, t);
    }
  }

  lemma {:induction false} KeptIsAscending(accepted: seq<string>, dropped: set<Task>, key: string)
    ensures Ascending(Kept(accepted, dropped, key))
  {
    if accepted != [] {
      var before := accepted[..|accepted| - 1];
      KeptIsAscending(before, dropped, key);
      forall t: Task | t in Kept(before, dropped, key) ensures t < |before| {
        KeptMembers(before, dropped, key, t);
      }
      SnocAscending(Kept(before, dropped, key), |before|);
    }
  }

  lemma {:induction false} DroppingMore(accepted: seq<string>, dropped: set<Task>, gone: set<Task>, key: string)
    ensures Kept(accepted, dropped + gone, key) == WithoutDropped(Kept(accepted, dropped, key), gone)
  {
    if accepted != [] {
      var t := |accepted| - 1;
      var front := Kept(accepted[..t], dropped, key);
      DroppingMore(accepted[..t], dropped, gone, key);
      assert (front + [t])[..|front|] == front;
      assert front + [] == front;
    }
  }

  lemma {:induction false} DropsTail(q: seq<Task>, tail: seq<Task>)
    requires forall t: Task :: t in q ==> t !in tail
    ensures WithoutDropped(q + tail, Elements(tail)) == q
  {
    DropsSome(q, tail, Elements(tail));
  }

  lemma {:induction false} DropsSome(q: seq<Task>, tail: seq<Task>, gone: set<Task>)
    requires forall t: Task :: t in q ==> t !in gone
    requires forall t: Task :: t in tail ==> t in gone
    ensures WithoutDropped(q + tail, gone) == q
  {
    if tail != [] {
      assert (q + tail)[..|q + tail| - 1] == q + tail[..|tail| - 1];
      DropsSome(q, tail[..|tail| - 1], gone);
    } else if q != [] {
      assert q + tail == q && q[|q| - 1] in q;
      assert q[..|q| - 1] + [] == q[..|q| - 1];
      DropsSome(q[..|q| - 1], [], gone);
    } else {
      assert q + tail == [];
    }
  }

  lemma {:induction false} StartedFrame(s: State, s': State, started: seq<Task>, key: string)
    requires s.accepted <= s'.accepted && forall t: Task :: t in started ==> t < |s.accepted|
    ensures StartedOf(s', started, key) == StartedOf(s, started, key)
  {
    if started != [] {
      var front, last := started[..|started| - 1], started[|started| - 1];
      assert last in started;
      forall t: Task | t in front ensures t < |s.accepted| {
        assert t in started;
      }
      StartedFrame(s, s', front, key);
    }
  }

  lemma StartedOneMore(s: State, started: seq<Task>, t: Task, key: string)
    ensures StartedOf(s, started + [t], key) ==
            StartedOf(s, started, key) + if t < |s.accepted| && s.accepted[t] == key then [t] else []
  {
    assert (started + [t])[..|started|] == started;
  }

  ghost predicate InOrder(s: State, key: string) {
    Kept(s.accepted, s.dropped, key) == StartedOf(s, s.started, key) + Queue(s, key)
  }

  ghost predicate AllOf(accepted: seq<string>, key: string, q: seq<Task>) {
    forall t: Task :: t in q ==> t < |accepted| && accepted[t] == key
  }

  ghost predicate Known(s: State) {
    && (forall t: Task :: t in s.started ==> t < |s.accepted|)
    && (forall t: Task :: t in s.dropped ==> t < |s.accepted|)
    && forall k :: k in s.states ==> AllOf(s.accepted, k, s.states[k].queue)
  }

  lemma {:induction false} DropsOfOthers(accepted: seq<string>, dropped: set<Task>, gone: set<Task>, key: string)
    requires forall t: Task :: t in gone && t < |accepted| ==> accepted[t] != key
    ensures Kept(accepted, dropped + gone, key) == Kept(accepted, dropped, key)
  {
    if accepted != [] {
      DropsOfOthers(accepted[..|accepted| - 1], dropped, gone, key);
    }
  }

  lemma SubmitIsKept(s: State, k: string, key: string)
    requires Known(s)
    ensures Kept(s.accepted + [k], s.dropped, key) ==
      Kept(s.accepted, s.dropped, key) + if k == key then [|s.accepted|] else []
  {
    var t := |s.accepted|;
    assert (s.accepted + [k])[..t] == s.accepted;
    assert t !in s.dropped;
  }

  lemma SubmitToBusy(s: State, k: string, key: string)
    requires Known(s) && InOrder(s, key) && k in s.states
    ensures InOrder(Step(s, Submit(k)), key)
  {
    var s' := Step(s, Submit(k));
    SubmitIsKept(s, k, key);
    StartedFrame(s, s', s.started, key);
    var started, q, new_ := StartedOf(s, s.started, key), Queue(s, key), if k == key then [|s.accepted|] else [];
    assert Queue(s', key) == q + new_;
    assert (started + q) + new_ == started + (q + new_);
  }

  lemma SubmitToIdle(s: State, k: string, key: string)
    requires Known(s) && InOrder(s, key) && k !in s.states
    ensures InOrder(Step(s, Submit(k)), key)
  {
    var s' := Step(s, Submit(k));
    SubmitIsKept(s, k, key);
    StartedFrame(s, s', s.started, key);
    StartedOneMore(s', s.started, |s.accepted|, key);
    assert Queue(s', key) == Queue(s, key) && (k == key ==> Queue(s, key) == []);
    NewBehind(StartedOf(s, s.started, key), Queue(s, key), if k == key then [|s.accepted|] else []);
  }

  lemma NewBehind(started: seq<Task>, q: seq<Task>, new_: seq<Task>)
    requires q == [] || new_ == []
    ensures (started + q) + new_ == (started + new_) + q
  {
  }

  lemma SettleKeepsOrder(s: State, k: string, key: string)
    requires Known(s) && InOrder(s, key) && k in s.states
    ensures InOrder(Step(s, Settle(k)), key)
  {
    var s' := Step(s, Settle(k));
    StartedFrame(s, s', s.started, key);
    var q := s.states[k].queue;
    if q != [] {
      assert q[0] in q;
      StartedOneMore(s', s.started, q[0], key);
      ShiftOne(StartedOf(s, s.started, key), q);
    }
    assert Queue(s', key) == if k != key then Queue(s, key) else if q == [] then [] else q[1..];
  }

  lemma ShiftOne(a: seq<Task>, q: seq<Task>)
    requires q != []
    ensures a + [q[0]] + q[1..] == a + q
  {
  }

  lemma ClearKeepsOrder(s: State, k: string, key: string)
    requires Known(s) && InOrder(s, key)
    ensures InOrder(Step(s, Clear(k)), key)
  {
    StartedFrame(s, Step(s, Clear(k)), s.started, key);
    if k == key && k in s.states {
      var q, started := s.states[k].queue, StartedOf(s, s.started, key);
      DroppingMore(s.accepted, s.dropped, Elements(q), key);
      KeptIsAscending(s.accepted, s.dropped, key);
      forall t: Task | t in started ensures t !in q {
        AscendingApart(started, q, t);
      }
      DropsTail(started, q);
    } else if k in s.states {
      DropsOfOthers(s.accepted, s.dropped, Elements(s.states[k].queue), key);
    }
  }

  lemma AscendingApart(a: seq<Task>, b: seq<Task>, t: Task)
    requires Ascending(a + b) && t in a
    ensures t !in b
  {
    var i :| 0 <= i < |a| && a[i] == t;
    forall j | 0 <= j < |b| ensures b[j] != t {
      assert (a + b)[i] < (a + b)[|a| + j];
    }
  }

  // ---- One task at a time ----

  /** A conversation is in the map exactly while one of its tasks runs, and then just one does. */
  ghost predicate OneRuns(s: State) {
    && (forall t: Task :: t in s.started && t !in s.settled ==>
      t < |s.accepted| && s.accepted[t] in s.states && s.states[s.accepted[t]].running == t)
    && (forall k :: k in s.states ==>
      var t := s.states[k].running;
      t in s.started && t !in s.settled && t < |s.accepted| && s.accepted[t] == k)
    && (forall t: Task :: t in s.settled ==> t in s.started)
  }

  ghost predicate Inv(s: State) {
    Known(s) && OneRuns(s) && forall key :: InOrder(s, key)
  }

  lemma QueuedIsNotStarted(s: State, key: string, t: Task)
    requires Known(s) && InOrder(s, key) && t in Queue(s, key)
    ensures t !in s.started && t !in s.dropped && t < |s.accepted| && s.accepted[t] == key
  {
    KeptIsAscending(s.accepted, s.dropped, key);
    KeptMembers(s.accepted, s.dropped, key, t);
    if t in s.started {
      StartedHas(s, s.started, key, t);
      AscendingApart(StartedOf(s, s.started, key), Queue(s, key), t);
    }
    assert t in Kept(s.accepted, s.dropped, key);
  }

  lemma {:induction false} StartedHas(s: State, started: seq<Task>, key: string, t: Task)
    ensures t in StartedOf(s, started, key) <==> t in started && t < |s.accepted| && s.accepted[t] == key
  {
    if started != [] {
      StartedHas(s, started[..|started| - 1], key, t);
    }
  }

  lemma StepKeepsOrder(s: State, e: Event, key: string)
    requires Known(s) && InOrder(s, key) && Enabled(s, e)
    ensures InOrder(Step(s, e), key)
  {
    match e
    case Submit(k) => if k in s.states { SubmitToBusy(s, k, key); } else { SubmitToIdle(s, k, key); }
    case Settle(k) => SettleKeepsOrder(s, k, key);
    case Clear(k) => ClearKeepsOrder(s, k, key);
  }

  lemma StepKeepsQueue(s: State, e: Event, k: string)
    requires Known(s) && Enabled(s, e) && k in Step(s, e).states
    ensures AllOf(Step(s, e).accepted, k, Step(s, e).states[k].queue)
  {
    var s' := Step(s, e);
    if k in s.states {
      var q := s.states[k].queue;
      assert AllOf(s.accepted, k, q);
      forall t: Task | t in s'.states[k].queue ensures t < |s'.accepted| && s'.accepted[t] == k {
        if t in q {
          assert t < |s.accepted| && s.accepted[t] == k;
        }
      }
    }
  }

  lemma StepKeepsKnown(s: State, e: Event)
    requires Known(s) && Enabled(s, e)
    ensures Known(Step(s, e))
  {
    var s' := Step(s, e);
    forall k | k in s'.states ensures AllOf(s'.accepted, k, s'.states[k].queue) {
      StepKeepsQueue(s, e, k);
    }
    if e.key in s.states {
      assert AllOf(s.accepted, e.key, s.states[e.key].queue);
      assert e.Settle? && s.states[e.key].queue != [] ==> s.states[e.key].queue[0] in s.states[e.key].queue;
    }
  }

  lemma StepKeepsOneRunning(s: State, e: Event)
    requires Inv(s) && Enabled(s, e)
    ensures OneRuns(Step(s, e))
  {
    if e.Settle? && s.states[e.key].queue != [] {
      assert InOrder(s, e.key);
      assert s.states[e.key].queue[0] in Queue(s, e.key);
      QueuedIsNotStarted(s, e.key, s.states[e.key].queue[0]);
    }
  }

  lemma StepKeepsInv(s: State, e: Event)
    requires Inv(s) && Enabled(s, e)
    ensures Inv(Step(s, e))
  {
    forall key ensures InOrder(Step(s, e), key) {
      assert InOrder(s, key);
      StepKeepsOrder(s, e, key);
    }
    StepKeepsKnown(s, e);
    StepKeepsOneRunning(s, e);
  }

  lemma {:induction false} RunKeepsInv(es: seq<Event>, s: State)
    requires After(es) == Some(s)
    ensures Inv(s)
  {
    if es != [] {
      var m := After(es[..|es| - 1]).value;
      RunKeepsInv(es[..|es| - 1], m);
      StepKeepsInv(m, es[|es| - 1]);
    }
  }

  /** At most one task of a conversation runs, and the map holds exactly the conversations with a
      running task, after any interleaving of submissions, settlements and clears. */
  lemma OneTaskAtATime(es: seq<Event>, s: State, key: string)
    requires After(es) == Some(s)
    ensures key in s.states <==>
      exists t: Task :: t in s.started && t !in s.settled && t < |s.accepted| && s.accepted[t] == key
    ensures forall t: Task, u: Task ::
      (t in s.started && t !in s.settled && u in s.started && u !in s.settled
       && t < |s.accepted| && u < |s.accepted| && s.accepted[t] == s.accepted[u]) ==> t == u
  {
    RunKeepsInv(es, s);
    if key in s.states {
      assert s.states[key].running in s.started;
    }
  }

  /** Tasks of a conversation start in the order of their acceptance, skipping dropped ones only:
      what was accepted and not dropped is what has started followed by what is queued. */
  lemma StartsInAcceptanceOrder(es: seq<Event>, s: State, key: string)
    requires After(es) == Some(s)
    ensures Kept(s.accepted, s.dropped, key) == StartedOf(s, s.started, key) + Queue(s, key)
    ensures Ascending(StartedOf(s, s.started, key) + Queue(s, key))
  {
    RunKeepsInv(es, s);
    assert InOrder(s, key);
    KeptIsAscending(s.accepted, s.dropped, key);
  }

  /** No task is lost or duplicated: each accepted one has started, was dropped, or is queued. */
  lemma EveryTaskHasOneFate(es: seq<Event>, s: State, t: Task)
    requires After(es) == Some(s) && t < |s.accepted|
    ensures t in s.started || t in s.dropped || t in Queue(s, s.accepted[t])
    ensures !(t in s.started && t in s.dropped)
    ensures t in Queue(s, s.accepted[t]) ==> t !in s.started && t !in s.dropped
  {
    RunKeepsInv(es, s);
    var key := s.accepted[t];
    assert InOrder(s, key);
    KeptMembers(s.accepted, s.dropped, key, t);
    StartedHas(s, s.started, key, t);
    if t in Queue(s, key) {
      QueuedIsNotStarted(s, key, t);
    }
    if t in s.started {
      assert t in StartedOf(s, s.started, key) + Queue(s, key);
    }
  }

  // ---- What each event does to a run ----

  lemma OneMoreEvent(es: seq<Event>, s: State, e: Event)
    requires After(es) == Some(s) && Enabled(s, e)
    ensures After(es + [e]) == Some(Step(s, e))
  {
    DropLast(es, e);
  }

  /** What an event of one conversation leaves alone in the others. */
  ghost predicate SameOthers(s: State, s': State, key: string) {
    forall k :: k != key ==>
      (k in s'.states <==> k in s.states) && (k in s.states ==> s'.states[k] == s.states[k])
  }

  /** Every submission is accepted: it starts at once if its conversation is idle, and is queued last
      if not. */
  lemma SubmissionStartsOrQueues(es: seq<Event>, s: State, key: string) returns (s': State)
    requires After(es) == Some(s)
    ensures After(es + [Submit(key)]) == Some(s')
    ensures s'.accepted == s.accepted + [key] && s'.dropped == s.dropped && s'.settled == s.settled
    ensures key !in s.states ==>
      s'.started == s.started + [|s.accepted|] && key in s'.states && s'.states[key] == Busy(|s.accepted|, [])
    ensures key in s.states ==> s'.started == s.started && key in s'.states
    ensures key in s.states ==> s'.states[key] == Busy(s.states[key].running, s.states[key].queue + [|s.accepted|])
    ensures SameOthers(s, s', key)
  {
    OneMoreEvent(es, s, Submit(key));
    s' := Step(s, Submit(key));
  }

  /** When the running task settles the task at the head of the queue starts, if there is one. */
  lemma SettlementStartsHead(es: seq<Event>, s: State, key: string) returns (s': State)
    requires After(es) == Some(s) && key in s.states
    ensures After(es + [Settle(key)]) == Some(s')
    ensures s'.accepted == s.accepted && s'.dropped == s.dropped
    ensures s'.settled == s.settled + {s.states[key].running}
    ensures Queue(s, key) == [] ==> s'.started == s.started && key !in s'.states
    ensures Queue(s, key) != [] ==> key in s'.states && s'.started == s.started + [s'.states[key].running]
    ensures Queue(s, key) != [] ==> [s'.states[key].running] + s'.states[key].queue == s.states[key].queue
    ensures SameOthers(s, s', key)
  {
    OneMoreEvent(es, s, Event.Settle(key));
    s' := Step(s, Event.Settle(key));
  }

  /** A clear drops what is queued, and neither stops the running task nor starts one. */
  lemma ClearDropsQueue(es: seq<Event>, s: State, key: string) returns (s': State)
    requires After(es) == Some(s)
    ensures After(es + [Clear(key)]) == Some(s')
    ensures s'.accepted == s.accepted && s'.started == s.started && s'.settled == s.settled
    ensures forall t: Task :: t in s'.dropped <==> t in s.dropped || t in Queue(s, key)
    ensures Queue(s', key) == [] && (key in s'.states <==> key in s.states)
    ensures key in s.states ==> s'.states[key].running == s.states[key].running
    ensures SameOthers(s, s', key)
  {
    OneMoreEvent(es, s, Event.Clear(key));
    s' := Step(s, Event.Clear(key));
  }

  /** How many tasks of the conversation settle. */
  function Settlements(es: seq<Event>, key: string): nat {
    if es == [] then 0
    else Settlements(es[..|es| - 1], key) + if es[|es| - 1] == Event.Settle(key) then 1 else 0
  }

  /** `n` tasks of `q` have started and the others still head the queue. */
  ghost predicate Started(s: State, key: string, q: seq<Task>, n: nat) {
    && (forall i :: 0 <= i < n && i < |q| ==> q[i] in s.started)
    && (n < |q| ==> key in s.states && q[n..] <= s.states[key].queue)
  }

  lemma StepStarts(s: State, e: Event, key: string, q: seq<Task>, n: nat)
    requires Started(s, key, q, n) && Enabled(s, e) && e != Event.Clear(key)
    ensures Started(Step(s, e), key, q, n + if e == Event.Settle(key) then 1 else 0)
  {
    if n < |q| {
      assert s.states[key].queue[0] == q[n..][0];
    }
  }

  /** Nothing queued is left waiting: while no clear arrives, the `i`-th queued task has started once
      `i + 1` tasks of its conversation have settled, whatever else happens. */
  lemma {:induction false} QueuedTasksStart(
      es: seq<Event>, s: State, more: seq<Event>, s': State, key: string)
    requires After(es) == Some(s) && After(es + more) == Some(s') && Event.Clear(key) !in more
    ensures forall i :: 0 <= i < Settlements(more, key) && i < |Queue(s, key)| ==> Queue(s, key)[i] in s'.started
    ensures Started(s', key, Queue(s, key), Settlements(more, key))
  {
    if more == [] {
      assert es + more == es;
    } else {
      var front, e := more[..|more| - 1], more[|more| - 1];
      ConcatFront(es, more);
      var m := After(es + front).value;
      QueuedTasksStart(es, s, front, m, key);
      StepStarts(m, e, key, Queue(s, key), Settlements(front, key));
    }
  }

  // ---- The class ----

  class SessionState {
    var processing: bool
    var queue: seq<Task>

    constructor ()
      ensures !processing && queue == []
    {
      processing, queue := false, [];
    }
  }

  class ConversationQueue {
    var states: map<string, SessionState>
    /** The object that the running invocation of each conversation holds on to. */
    ghost var captured: map<string, SessionState>

    constructor ()
      ensures Represents(INIT)
    {
      states, captured := map[], map[];
    }

    ghost predicate Separate()
      reads this
    {
      forall k, l :: k in states && l in states && states[k] == states[l] ==> k == l
    }

    /** What holds at every await point. */
    ghost predicate Represents(s: State)
      reads this, states.Values
    {
      && Separate()
      && states == captured
      && states.Keys == s.states.Keys
      && forall k :: k in states ==> states[k].processing && states[k].queue == s.states[k].queue
    }

    method IsProcessing(sessionKey: string, ghost s: State) returns (r: bool)
      requires Represents(s)
      ensures r <==> sessionKey in s.states
    {
      r := if sessionKey in states then states[sessionKey].processing else false;
    }

    method QueuedCount(sessionKey: string, ghost s: State) returns (n: nat)
      requires Represents(s)
      ensures n == |Queue(s, sessionKey)|
    {
      n := if sessionKey in states then |states[sessionKey].queue| else 0;
    }

    /** The objects of other conversations stay as they are. */
    twostate predicate OthersUnchanged(sessionKey: string)
      reads this, states.Values
    {
      forall k :: k in states && k != sessionKey ==>
        && k in old(states) && states[k] == old(states[k])
        && states[k].processing == old(states[k].processing) && states[k].queue == old(states[k].queue)
    }

    /** Empties the queue; forgets a conversation that has no running task. */
    method Clear(sessionKey: string, ghost s: State) returns (dropped: nat)
      requires Separate()
      modifies this`states, states.Values
      ensures OthersUnchanged(sessionKey)
      ensures sessionKey !in old(states) ==> states == old(states) && dropped == 0
      ensures sessionKey in old(states) ==>
        && dropped == |old(states[sessionKey].queue)|
        && old(states[sessionKey]).queue == []
        && states == if old(states[sessionKey].processing) then old(states) else old(states) - {sessionKey}
      ensures old(Represents(s)) ==> Represents(Step(s, Event.Clear(sessionKey))) && dropped == |Queue(s, sessionKey)|
    {
      if sessionKey !in states { return 0; }
      var state := states[sessionKey];
      dropped := |state.queue|;
      state.queue := [];
      if !state.processing {
        states := states - {sessionKey};
      }
    }

    /** `runOrQueue` up to its first await: `started` tells whether the task now runs. */
    method RunOrQueue(sessionKey: string, task: Task, ghost s: State) returns (started: bool, state: SessionState)
      requires Represents(s) && task == |s.accepted|
      modifies this, states.Values
      ensures Represents(Step(s, Submit(sessionKey)))
      ensures started <==> sessionKey !in old(states)
      ensures sessionKey in captured && state == captured[sessionKey]
      ensures states == old(states)[sessionKey := state] && state.processing && OthersUnchanged(sessionKey)
      ensures started ==> fresh(state) && state.queue == []
      ensures !started ==> state == old(states[sessionKey]) && state.queue == old(states[sessionKey].queue) + [task]
    {
      if sessionKey in states {
        state := states[sessionKey];
      } else {
        state := new SessionState();
      }
      states := states[sessionKey := state];
      if state.processing {
        state.queue := state.queue + [task];
        return false, state;
      }
      state.processing := true;
      captured := captured[sessionKey := state];
      return true, state;
    }

    /** `drain` up to its await; `next` is the task it starts. */
    method Drain(sessionKey: string) returns (next: Option<Task>)
      requires Separate()
      modifies this`states, states.Values
      ensures OthersUnchanged(sessionKey)
      ensures sessionKey !in old(states) || old(states[sessionKey].processing) ==> states == old(states) && next == None
      ensures
        sessionKey in old(states) && !old(states[sessionKey].processing) && old(states[sessionKey].queue) == [] ==>
        states == old(states) - {sessionKey} && next == None
      ensures
        sessionKey in old(states) && !old(states[sessionKey].processing) && old(states[sessionKey].queue) != [] ==>
        && states == old(states) && states[sessionKey].processing
        && next.Some? && [next.value] + states[sessionKey].queue == old(states[sessionKey].queue)
    {
      if sessionKey !in states || states[sessionKey].processing { return None; }
      var state := states[sessionKey];
      if state.queue == [] {
        states := states - {sessionKey};
        return None;
      }
      next := Some(state.queue[0]);
      state.queue := state.queue[1..];
      state.processing := true;
    }

    /** The `finally` block of `runOrQueue` and of `drain`, on the object that the settled
        invocation has held since it began. */
    method Settle(sessionKey: string, state: SessionState, ghost s: State) returns (next: Option<Task>)
      requires Represents(s) && sessionKey in captured && state == captured[sessionKey]
      modifies this, states.Values
      ensures Represents(Step(s, Event.Settle(sessionKey)))
      ensures OthersUnchanged(sessionKey)
      ensures old(state.queue) == [] ==> next == None && states == old(states) - {sessionKey}
      ensures old(state.queue) != [] ==> next.Some? && states == old(states) && state.processing
      ensures old(state.queue) != [] ==> [next.value] + state.queue == old(state.queue)
    {
      state.processing := false;
      if |state.queue| > 0 {
        next := Drain(sessionKey);
      } else {
        next := None;
        states := states - {sessionKey};
        captured := captured - {sessionKey};
      }
    }
  }
}
