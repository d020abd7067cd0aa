/** The memory server's request queue, `withMemoryLock`, and what it protects: the feedback
    handler's read-modify-write of a memory's counters, next to content updates of the same memory.

    The run is that of one memory.  Each handler is cut at its awaits, so that without the queue
    another handler could run between its read and its write.
 */
module MemoryService {
  import opened Prelude
  import opened MemoryStore
  import Text

  datatype Kind =
    | Feedback(value: int, reason: Option<string>)
    | Put(data: string)
    | Other                                        // a request that leaves this memory alone

  datatype Phase =
    | Waiting                                      // chained behind the queue's promise
    | Begun
    | Updating(data: string, given: Option<Metadata>)              // `update` has been called
    | Writing(existing: Record, data: string, given: Option<Metadata>)  // ... and has read the record
    | Settled(ok: bool)

  datatype Operation = Operation(kind: Kind, phase: Phase)

  datatype State = State(ops: seq<Operation>, record: Record)

  datatype Event =
    | Arrive(kind: Kind)
    | Start(i: nat)
    | Advance(i: nat)
    | Throw(i: nat)

  function Count(n: Option<int>): int { if n.Some? then n.value else 0 }

  /** The handler's change to the metadata that it read. */
  function Voted(m: Metadata, value: int, reason: Option<string>): Metadata {
    var pos := Count(m.positive) + if value > 0 then 1 else 0;
    var neg := Count(m.negative) + if value < 0 then 1 else 0;
    Metadata(Some(pos), Some(neg), Some(pos - neg), if reason.Some? && reason.value != "" then reason else m.reason)
  }

  /** `put` with blank data is answered with an error and changes nothing. */
  predicate Rejected(kind: Kind) {
    kind.Put? && Text.Trim(kind.data) == ""
  }

  predicate Active(p: Phase) { p.Begun? || p.Updating? || p.Writing? }

  /** `locked` is false for a server that does not queue its operations. */
  predicate Enabled(s: State, e: Event, locked: bool) {
    match e
    case Arrive(_) => true
    case Start(i) => i < |s.ops| && s.ops[i].phase.Waiting? && (locked && i > 0 ==> s.ops[i - 1].phase.Settled?)
    case Advance(i) => i < |s.ops| && Active(s.ops[i].phase)
    case Throw(i) => i < |s.ops| && Active(s.ops[i].phase)
  }

  function WithPhase(s: State, i: nat, phase: Phase): State
    requires i < |s.ops|
  {
    s.(ops := s.ops[i := s.ops[i].(phase := phase)])
  }

  function Step(s: State, e: Event): State
    requires Enabled(s, e, false)
  {
    match e
    case Arrive(kind) => s.(ops := s.ops + [Operation(kind, Waiting)])
    case Start(i) => WithPhase(s, i, Begun)
    case Throw(i) => WithPhase(s, i, Settled(false))
    case Advance(i) =>
      match s.ops[i].phase
      case Begun =>
        (match s.ops[i].kind
         case Feedback(value, reason) =>
           WithPhase(s, i, Updating(s.record.data, Some(Voted(s.record.metadata, value, reason))))
         case Put(data) => WithPhase(s, i, if Rejected(s.ops[i].kind) then Settled(false) else Updating(data, None))
         case Other => WithPhase(s, i, Settled(true)))
      case Updating(data, given) => WithPhase(s, i, Writing(s.record, data, given))
      case Writing(existing, data, given) =>
        WithPhase(s, i, Settled(true)).(record := Revised(existing, data, given))
  }

  function After(s: State, es: seq<Event>, locked: bool): Option<State> {
    if es == [] then Some(s)
    else
      var e := es[|es| - 1];
      match After(s, es[..|es| - 1], locked)
      case Some(m) => if Enabled(m, e, locked) then Some(Step(m, e)) else None
      case None => None
  }

  // ---- One at a time, in arrival order ----

  /** When an operation has started, all that arrived before it have settled. */
  ghost predicate Serial(s: State) {
    forall i, j :: 0 <= i < j < |s.ops| && !s.ops[j].phase.Waiting? ==> s.ops[i].phase.Settled?
  }

  /** The effect of a completed operation. */
  function Effect(r: Record, kind: Kind): Record {
    match kind
    case Feedback(value, reason) => Revised(r, r.data, Some(Voted(r.metadata, value, reason)))
    case Put(data) => Revised(r, data, None)
    case Other => r
  }

  /** The record after the completed operations, one after the other in arrival order. */
  function Sequential(r: Record, ops: seq<Operation>): Record {
    if ops == [] then r
    else
      var op := ops[|ops| - 1];
      var before := Sequential(r, ops[..|ops| - 1]);
      if op.phase == Settled(true) then Effect(before, op.kind) else before
  }

  /** What an operation at work has read is still the record. */
  predicate UpToDate(s: State, op: Operation) {
    match op.phase
    case Updating(data, given) => !Rejected(op.kind) && Revised(s.record, data, given) == Effect(s.record, op.kind)
    case Writing(existing, data, given) =>
      !Rejected(op.kind) && existing == s.record && Revised(s.record, data, given) == Effect(s.record, op.kind)
    case _ => true
  }

  ghost predicate Inv(s: State, initial: Record) {
    && Serial(s)
    && s.record == Sequential(initial, s.ops)
    && forall op :: op in s.ops ==> UpToDate(s, op)
  }

  lemma {:induction false} Unsettled(r: Record, ops: seq<Operation>, ops': seq<Operation>, i: nat)
    requires i < |ops| == |ops'| && ops' == ops[i := ops'[i]]
    requires forall j :: i < j < |ops| ==> !ops[j].phase.Settled?
    requires ops[i].phase != Settled(true)
    ensures Sequential(r, ops') ==
            if ops'[i].phase == Settled(true) then Effect(Sequential(r, ops), ops'[i].kind) else Sequential(r, ops)
  {
    var n := |ops| - 1;
    if i == n {
      assert ops'[..n] == ops[..n];
    } else {
      assert ops'[..n] == ops[..n][i := ops'[i]];
      Unsettled(r, ops[..n], ops'[..n], i);
    }
  }

  lemma StepKeepsUpToDate(s: State, e: Event, initial: Record)
    requires Inv(s, initial) && Enabled(s, e, true) && !e.Arrive?
    ensures forall op :: op in Step(s, e).ops ==> UpToDate(Step(s, e), op)
  {
    var s' := Step(s, e);
    var i := e.i;
    assert s.ops[i] in s.ops && UpToDate(s, s.ops[i]);
    forall op | op in s'.ops ensures UpToDate(s', op) {
      var j :| 0 <= j < |s'.ops| && s'.ops[j] == op;
      if j < i {
        assert s.ops[j].phase.Settled?;
      } else if j > i {
        assert s.ops[j].phase.Waiting?;
      }
    }
  }

  lemma StepKeepsSequential(s: State, e: Event, initial: Record)
    requires Inv(s, initial) && Enabled(s, e, true) && !e.Arrive?
    ensures Step(s, e).record == Sequential(initial, Step(s, e).ops)
  {
    var i := e.i;
    assert s.ops[i] in s.ops && UpToDate(s, s.ops[i]);
    assert forall j :: i < j < |s.ops| ==> s.ops[j].phase.Waiting?;
    Unsettled(initial, s.ops, Step(s, e).ops, i);
  }

  lemma StepKeepsSerial(s: State, e: Event)
    requires Serial(s) && Enabled(s, e, true)
    ensures Serial(Step(s, e))
  {
  }

  lemma StepKeepsInv(s: State, e: Event, initial: Record)
    requires Inv(s, initial) && Enabled(s, e, true)
    ensures Inv(Step(s, e), initial)
  {
    StepKeepsSerial(s, e);
    match e
    case Arrive(kind) => DropLast(s.ops, Operation(kind, Waiting));
    case _ =>
      StepKeepsUpToDate(s, e, initial);
      StepKeepsSequential(s, e, initial);
  }

  lemma {:induction false} RunKeepsInv(initial: Record, es: seq<Event>, s: State)
    requires After(State([], initial), es, true) == Some(s)
    ensures Inv(s, initial)
  {
    if es != [] {
      var m := After(State([], initial), es[..|es| - 1], true).value;
      RunKeepsInv(initial, es[..|es| - 1], m);
      StepKeepsInv(m, es[|es| - 1], initial);
    }
  }

  /** Operations run one at a time in arrival order, whether or not earlier ones failed. */
  lemma OneAtATime(initial: Record, es: seq<Event>, s: State, i: nat, j: nat)
    requires After(State([], initial), es, true) == Some(s)
    requires i < j < |s.ops| && !s.ops[j].phase.Waiting?
    ensures s.ops[i].phase.Settled?
  {
    RunKeepsInv(initial, es, s);
  }

  /** How many completed feedbacks voted with the given sign. */
  function Votes(ops: seq<Operation>, sign: int): nat {
    if ops == [] then 0
    else
      var op := ops[|ops| - 1];
      Votes(ops[..|ops| - 1], sign) +
      if op.phase == Settled(true) && op.kind.Feedback? && sign * op.kind.value > 0 then 1 else 0
  }

  /** The data of the last completed PUT. */
  function LastPut(ops: seq<Operation>, otherwise: string): string {
    if ops == [] then otherwise
    else
      var op := ops[|ops| - 1];
      if op.phase == Settled(true) && op.kind.Put? then op.kind.data else LastPut(ops[..|ops| - 1], otherwise)
  }

  /** The reason of the last completed feedback that gave one. */
  function LastReason(ops: seq<Operation>, otherwise: Option<string>): Option<string> {
    if ops == [] then otherwise
    else
      var op := ops[|ops| - 1];
      if op.phase == Settled(true) && op.kind.Feedback? && op.kind.reason.Some? && op.kind.reason.value != ""
      then op.kind.reason else LastReason(ops[..|ops| - 1], otherwise)
  }

  lemma {:induction false} SequentialReason(r: Record, ops: seq<Operation>)
    ensures Sequential(r, ops).metadata.reason == LastReason(ops, r.metadata.reason)
  {
    if ops != [] { SequentialReason(r, ops[..|ops| - 1]); }
  }

  lemma {:induction false} SequentialCounts(r: Record, ops: seq<Operation>)
    ensures var r' := Sequential(r, ops);
            && Count(r'.metadata.positive) == Count(r.metadata.positive) + Votes(ops, 1)
            && Count(r'.metadata.negative) == Count(r.metadata.negative) + Votes(ops, -1)
            && r'.data == LastPut(ops, r.data)
            && r'.scope == r.scope
            && ((exists op :: op in ops && op.kind.Feedback? && op.phase == Settled(true)) ==>
                 r'.metadata.score == Some(Count(r'.metadata.positive) - Count(r'.metadata.negative)))
  {
    if ops != [] {
      SequentialCounts(r, ops[..|ops| - 1]);
      assert ops == ops[..|ops| - 1] + [ops[|ops| - 1]];
    }
  }

  /** No vote and no edit is lost: after any interleaving of arrivals, steps and failures, the
      counters are the initial ones plus the completed votes, the score is their difference once a
      vote has completed, the reason is the last one given with a completed vote, and the content is that of
      the last completed PUT. */
  lemma NoUpdateIsLost(initial: Record, es: seq<Event>, s: State)
    requires After(State([], initial), es, true) == Some(s)
    ensures Count(s.record.metadata.positive) == Count(initial.metadata.positive) + Votes(s.ops, 1)
    ensures Count(s.record.metadata.negative) == Count(initial.metadata.negative) + Votes(s.ops, -1)
    ensures s.record.data == LastPut(s.ops, initial.data) && s.record.scope == initial.scope
    ensures s.record.metadata.reason == LastReason(s.ops, initial.metadata.reason)
    ensures (exists op :: op in s.ops && op.kind.Feedback? && op.phase == Settled(true)) ==>
      s.record.metadata.score == Some(Count(s.record.metadata.positive) - Count(s.record.metadata.negative))
  {
    RunKeepsInv(initial, es, s);
    SequentialCounts(initial, s.ops);
    SequentialReason(initial, s.ops);
  }

  lemma Extend(s: State, es: seq<Event>, m: State, e: Event, locked: bool) returns (es': seq<Event>, m': State)
    requires After(s, es, locked) == Some(m) && Enabled(m, e, locked)
    ensures m' == Step(m, e) && After(s, es', locked) == Some(m')
  {
    es', m' := es + [e], Step(m, e);
    assert es'[..|es|] == es;
  }

  /** Without the queue a vote can be lost: two approvals, both completed, count once. */
  lemma VoteLostWithoutQueue(initial: Record) returns (es: seq<Event>, s: State)
    ensures After(State([], initial), es, false) == Some(s)
    ensures Votes(s.ops, 1) == 2 && Count(s.record.metadata.positive) == Count(initial.metadata.positive) + 1
  {
    var s0, up := State([], initial), Feedback(1, None);
    var voted := Voted(initial.metadata, 1, None);
    var after := Revised(initial, initial.data, Some(voted));
    es, s := [], s0;
    es, s := Extend(s0, es, s, Arrive(up), false);
    es, s := Extend(s0, es, s, Arrive(up), false);
    es, s := Extend(s0, es, s, Start(0), false);
    es, s := Extend(s0, es, s, Start(1), false);
    assert s == State([Operation(up, Begun), Operation(up, Begun)], initial);
    es, s := Extend(s0, es, s, Advance(0), false);
    es, s := Extend(s0, es, s, Advance(1), false);
    es, s := Extend(s0, es, s, Advance(0), false);
    es, s := Extend(s0, es, s, Advance(0), false);
    assert s == State([Operation(up, Settled(true)), Operation(up, Updating(initial.data, Some(voted)))], after);
    es, s := Extend(s0, es, s, Advance(1), false);
    es, s := Extend(s0, es, s, Advance(1), false);
    assert s == State([Operation(up, Settled(true)), Operation(up, Settled(true))], after);
    assert s.ops[..1] == [Operation(up, Settled(true))] && s.ops[..1][..0] == [];
    assert Votes(s.ops[..1], 1) == 1;
  }

  // ---- The handlers, as the queue runs them ----

  /** The feedback handler. */
  method HandleFeedback(m: Memory, id: Id, value: int, reason: Option<string>, fails: bool) returns (found: bool)
    modifies m
    ensures found <==> id in old(m.store)
    ensures found && !fails ==> m.store == old(m.store)[id := Effect(old(m.store)[id], Feedback(value, reason))]
    ensures !found || fails ==> m.Value() == old(m.Value())
    ensures old(Describes(m.Value())) ==> Describes(m.Value())
  {
    if id !in m.store { return false; }
    var content, metadata := m.store[id].data, m.store[id].metadata;
    var pos, neg := Count(metadata.positive), Count(metadata.negative);
    if value > 0 { pos := pos + 1; } else if value < 0 { neg := neg + 1; }
    metadata := metadata.(positive := Some(pos), negative := Some(neg), score := Some(pos - neg));
    if reason.Some? && reason.value != "" { metadata := metadata.(reason := reason); }
    UpdateDescribes(m.Value(), id, content, Some(metadata));
    var ok := m.Update(id, content, Some(metadata), fails);
    return true;
  }

  /** The PUT handler; an unknown memory makes `update` throw. */
  method HandlePut(m: Memory, id: Id, data: string, fails: bool) returns (ok: bool)
    modifies m
    ensures ok <==> !Rejected(Put(data)) && id in old(m.store) && !fails
    ensures ok ==> m.store == old(m.store)[id := Effect(old(m.store)[id], Put(data))]
    ensures !ok ==> m.Value() == old(m.Value())
    ensures old(Describes(m.Value())) ==> Describes(m.Value())
  {
    if Text.Trim(data) == "" { return false; }
    UpdateDescribes(m.Value(), id, data, None);
    ok := m.Update(id, data, None, fails);
  }

  lemma UpdateDescribes(m: Mem, id: Id, data: string, given: Option<Metadata>)
    ensures Describes(m) ==> Describes(DirectUpdate(m, id, data, given))
  {
    if Describes(m) && id in m.store {
      OverwriteDescribes(m, id, Revised(m.store[id], data, given));
    }
  }
}
