/** The memory class: a record store changed by direct calls and by the operations an LLM infers,
    and a history log that is meant to describe the store.
 */
module MemoryStore {
  import opened Prelude

  type Id = string

  datatype Metadata = Metadata(positive: Option<int>, negative: Option<int>, score: Option<int>, reason: Option<string>)

  const NO_METADATA := Metadata(None, None, None, None)

  datatype Scope = Scope(userId: Option<string>, agentId: Option<string>, runId: Option<string>)

  datatype Record = Record(data: string, scope: Scope, metadata: Metadata)

  datatype Action = ADD | UPDATE | DELETE

  datatype Entry = Entry(id: Id, previous: Option<string>, current: Option<string>, action: Action)

  datatype Mem = Mem(store: map<Id, Record>, history: seq<Entry>)

  /** What the LLM asks for; its output is arbitrary. */
  datatype Op =
    | AddOp(text: string)
    | UpdateOp(id: Option<string>, text: string)
    | DeleteOp(id: Option<string>)
    | NoOp

  /** The rest of one operation's circumstances: the id that a new record would get, and whether an
      embedding or store call throws. */
  datatype Env = Env(newId: Id, fails: bool)

  // ---- Ids ----

  function Decimal(n: nat): string {
    (if n < 10 then "" else Decimal(n / 10)) + ["0123456789"[n % 10]]
  }

  /** Positions of the listed memories, as the LLM sees them, to their ids. */
  function IndexToId(existing: seq<Id>): map<string, Id> {
    if existing == [] then map[]
    else IndexToId(existing[..|existing| - 1])[Decimal(|existing| - 1) := existing[|existing| - 1]]
  }

  /** The number that a string of decimal digits denotes. */
  function Number(s: string): int {
    if s == [] then 0 else 10 * Number(s[..|s| - 1]) + s[|s| - 1] as int - '0' as int
  }

  lemma LastDigit(n: nat) returns (front: string, c: char)
    ensures Decimal(n) == front + [c] && front == if n < 10 then "" else Decimal(n / 10)
    ensures '0' <= c <= '9' && c as int - '0' as int == n % 10
  {
    front, c := if n < 10 then "" else Decimal(n / 10), "0123456789"[n % 10];
  }

  lemma {:induction false} DecimalReadsBack(n: nat)
    ensures Number(Decimal(n)) == n
  {
    var front, c := LastDigit(n);
    if n >= 10 { DecimalReadsBack(n / 10); }
    DropLast(front, c);
  }

  /** A position is written in decimal digits, without a leading zero. */
  lemma {:induction false} DecimalIsCanonical(n: nat)
    ensures Number(Decimal(n)) == n && Decimal(n) != ""
    ensures forall i :: 0 <= i < |Decimal(n)| ==> '0' <= Decimal(n)[i] <= '9'
    ensures n > 0 ==> Decimal(n)[0] != '0'
  {
    DecimalReadsBack(n);
    var front, c := LastDigit(n);
    if n >= 10 {
      DecimalIsCanonical(n / 10);
      assert Decimal(n)[0] == front[0];
    }
  }

  /** Different positions are written differently. */
  lemma DecimalIsInjective(m: nat, n: nat)
    requires Decimal(m) == Decimal(n)
    ensures m == n
  {
    DecimalReadsBack(m);
    DecimalReadsBack(n);
  }

  lemma {:induction false} IndexHas(existing: seq<Id>, i: nat)
    requires i < |existing|
    ensures Decimal(i) in IndexToId(existing) && IndexToId(existing)[Decimal(i)] == existing[i]
  {
    var last := |existing| - 1;
    if i < last {
      IndexHas(existing[..last], i);
      if Decimal(i) == Decimal(last) { DecimalIsInjective(i, last); }
    }
  }

  lemma {:induction false} IndexHasOnly(existing: seq<Id>, key: string)
    requires key in IndexToId(existing)
    ensures exists i: nat :: i < |existing| && Decimal(i) == key
  {
    var last := |existing| - 1;
    if Decimal(last) != key {
      IndexHasOnly(existing[..last], key);
    }
  }

  /** None also stands for the empty id, which the callers skip in the same way. */
  function ResolveId(id: Option<string>, index: map<string, Id>): Option<Id> {
    match id
    case None => None
    case Some(key) =>
      var found := if key in index then index[key] else key;
      if found == "" then None else Some(found)
  }

  /** Position `i`, in decimal, stands for the `i`-th listed memory. */
  lemma PositionResolves(existing: seq<Id>, i: nat)
    requires i < |existing| && existing[i] != ""
    ensures ResolveId(Some(Decimal(i)), IndexToId(existing)) == Some(existing[i])
  {
    IndexHas(existing, i);
  }

  /** Any other id stands for itself. */
  lemma OtherIdsResolve(existing: seq<Id>, key: string)
    requires key != "" && forall i: nat :: i < |existing| ==> Decimal(i) != key
    ensures ResolveId(Some(key), IndexToId(existing)) == Some(key)
  {
    if key in IndexToId(existing) { IndexHasOnly(existing, key); }
  }

  // ---- One operation, on values ----

  function PrevText(m: Mem, id: Id): string {
    if id in m.store then m.store[id].data else ""
  }

  function Insert(m: Mem, id: Id, r: Record): Mem {
    Mem(m.store[id := r], m.history + [Entry(id, None, Some(r.data), ADD)])
  }

  /** `vectorStore.update` then the history entry.  On an absent id the store's update changes no
      row, and does not fail either. */
  function Overwrite(m: Mem, id: Id, r: Record): Mem {
    Mem(if id in m.store then m.store[id := r] else m.store,
        m.history + [Entry(id, Some(PrevText(m, id)), Some(r.data), UPDATE)])
  }

  function Remove(m: Mem, id: Id): Mem {
    Mem(m.store - {id}, m.history + [Entry(id, Some(PrevText(m, id)), None, DELETE)])
  }

  /** An inferred operation; `strict` says that the store's update fails on an absent id. */
  function ApplyOp(m: Mem, op: Op, index: map<string, Id>, scope: Scope, metadata: Metadata, env: Env,
                   strict: bool): Mem
  {
    if env.fails then m else
    match op
    case AddOp(text) => if text == "" then m else Insert(m, env.newId, Record(text, scope, metadata))
    case UpdateOp(id, text) =>
      var target := ResolveId(id, index);
      if target.None? || text == "" || (strict && target.value !in m.store) then m
      else Overwrite(m, target.value, Record(text, scope, metadata))
    case DeleteOp(id) =>
      var target := ResolveId(id, index);
      if target.None? then m else Remove(m, target.value)
    case NoOp => m
  }

  function ApplyAll(m: Mem, ops: seq<(Op, Env)>, index: map<string, Id>, scope: Scope, metadata: Metadata,
                    strict: bool): Mem
  {
    if ops == [] then m
    else
      var (op, env) := ops[|ops| - 1];
      ApplyOp(ApplyAll(m, ops[..|ops| - 1], index, scope, metadata, strict), op, index, scope, metadata, env, strict)
  }

  /** Wherever in a batch it comes, a delete of position `i` removes the `i`-th listed memory and logs its
      text, and an update of it overwrites that memory and logs what it replaces; nothing else changes. */
  lemma PositionIsHit(m: Mem, before: seq<(Op, Env)>, op: Op, env: Env, existing: seq<Id>, i: nat,
                      scope: Scope, metadata: Metadata, strict: bool) returns (was: Mem, now: Mem)
    requires i < |existing| && existing[i] != "" && !env.fails
    ensures was == ApplyAll(m, before, IndexToId(existing), scope, metadata, strict)
    ensures now == ApplyAll(m, before + [(op, env)], IndexToId(existing), scope, metadata, strict)
    ensures op == DeleteOp(Some(Decimal(i))) ==> now.store == was.store - {existing[i]}
    ensures op.UpdateOp? && op.id == Some(Decimal(i)) && op.text != "" && existing[i] in was.store ==>
      now.store == was.store[existing[i] := Record(op.text, scope, metadata)]
    ensures op == DeleteOp(Some(Decimal(i))) && existing[i] in was.store ==>
      now.history == was.history + [Entry(existing[i], Some(was.store[existing[i]].data), None, DELETE)]
    ensures op.UpdateOp? && op.id == Some(Decimal(i)) && op.text != "" && existing[i] in was.store ==>
      now.history == was.history + [Entry(existing[i], Some(was.store[existing[i]].data), Some(op.text), UPDATE)]
  {
    PositionResolves(existing, i);
    var index := IndexToId(existing);
    was := ApplyAll(m, before, index, scope, metadata, strict);
    now := ApplyAll(m, before + [(op, env)], index, scope, metadata, strict);
    DropLast(before, (op, env));
  }

  /** A direct update keeps the scope, and the metadata unless new ones are given. */
  function Revised(r: Record, data: string, metadata: Option<Metadata>): Record {
    r.(data := data, metadata := if metadata.Some? then metadata.value else r.metadata)
  }

  function DirectUpdate(m: Mem, id: Id, data: string, metadata: Option<Metadata>): Mem {
    if id in m.store then Overwrite(m, id, Revised(m.store[id], data, metadata)) else m
  }

  function RemoveEach(m: Mem, ids: seq<Id>): Mem {
    if ids == [] then m else Remove(RemoveEach(m, ids[..|ids| - 1]), ids[|ids| - 1])
  }

  // ---- The history describes the store ----

  function TextMap(store: map<Id, Record>): map<Id, string> {
    map id | id in store :: store[id].data
  }

  function ReplayEntry(t: map<Id, string>, e: Entry): map<Id, string> {
    if e.current.Some? then t[e.id := e.current.value] else t - {e.id}
  }

  /** What the log alone says that the store holds. */
  function Replay(history: seq<Entry>): map<Id, string> {
    if history == [] then map[] else ReplayEntry(Replay(history[..|history| - 1]), history[|history| - 1])
  }

  /** The entry's previous value is the text that it overwrites. */
  predicate Truthful(t: map<Id, string>, e: Entry) {
    match e.action
    case ADD => e.previous.None? && e.current.Some? && e.id !in t
    case UPDATE => e.current.Some? && e.id in t && e.previous == Some(t[e.id])
    case DELETE => e.current.None? && e.previous == Some(if e.id in t then t[e.id] else "")
  }

  predicate AllTruthful(history: seq<Entry>) {
    history == [] ||
    (AllTruthful(history[..|history| - 1]) && Truthful(Replay(history[..|history| - 1]), history[|history| - 1]))
  }

  predicate Describes(m: Mem) {
    Replay(m.history) == TextMap(m.store) && AllTruthful(m.history)
  }

  /** The operation would log an update of a memory that the store does not have. */
  predicate Stray(m: Mem, op: Op, index: map<string, Id>, env: Env, strict: bool) {
    && !env.fails && !strict && op.UpdateOp? && op.text != ""
    && ResolveId(op.id, index).Some? && ResolveId(op.id, index).value !in m.store
  }

  lemma LogOne(h: seq<Entry>, e: Entry)
    ensures Replay(h + [e]) == ReplayEntry(Replay(h), e)
    ensures AllTruthful(h + [e]) <==> AllTruthful(h) && Truthful(Replay(h), e)
  {
    assert (h + [e])[..|h|] == h;
  }

  lemma OverwriteDescribes(m: Mem, id: Id, r: Record)
    requires Describes(m)
    ensures Describes(Overwrite(m, id, r)) <==> id in m.store
  {
    LogOne(m.history, Entry(id, Some(PrevText(m, id)), Some(r.data), UPDATE));
    assert id in m.store ==> TextMap(m.store[id := r]) == TextMap(m.store)[id := r.data];
  }

  lemma RemoveDescribes(m: Mem, id: Id)
    requires Describes(m)
    ensures Describes(Remove(m, id))
  {
    LogOne(m.history, Entry(id, Some(PrevText(m, id)), None, DELETE));
    assert TextMap(m.store - {id}) == TextMap(m.store) - {id};
  }

  lemma InsertDescribes(m: Mem, id: Id, r: Record)
    requires Describes(m) && id !in m.store
    ensures Describes(Insert(m, id, r))
  {
    LogOne(m.history, Entry(id, None, Some(r.data), ADD));
    assert TextMap(m.store[id := r]) == TextMap(m.store)[id := r.data];
  }

  /** Exactly which inferred operations make the log and the store disagree: the effective updates
      of a memory that is not there.  The store's update should fail on those and does not. */
  lemma OpKeepsDescriptionIff(m: Mem, op: Op, index: map<string, Id>, scope: Scope, metadata: Metadata, env: Env,
                              strict: bool)
    requires Describes(m) && env.newId !in m.store
    ensures Describes(ApplyOp(m, op, index, scope, metadata, env, strict)) <==> !Stray(m, op, index, env, strict)
  {
    match op
    case AddOp(text) => InsertDescribes(m, env.newId, Record(text, scope, metadata));
    case UpdateOp(id, text) =>
      var target := ResolveId(id, index);
      if target.Some? { OverwriteDescribes(m, target.value, Record(text, scope, metadata)); }
    case DeleteOp(id) =>
      var target := ResolveId(id, index);
      if target.Some? { RemoveDescribes(m, target.value); }
    case NoOp =>
  }

  lemma ApplyTwo(m: Mem, a: (Op, Env), b: (Op, Env), index: map<string, Id>, scope: Scope, metadata: Metadata,
                 strict: bool)
    ensures ApplyAll(m, [a, b], index, scope, metadata, strict) ==
            ApplyOp(ApplyOp(m, a.0, index, scope, metadata, a.1, strict), b.0, index, scope, metadata, b.1, strict)
  {
    assert [a, b][..1] == [a] && [a][..0] == [];
    assert ApplyAll(m, [a], index, scope, metadata, strict) == ApplyOp(m, a.0, index, scope, metadata, a.1, strict);
  }

  lemma OneIndex(id: Id)
    ensures IndexToId([id]) == map["0" := id]
  {
    assert Decimal(0) == "" + ["0123456789"[0]] == "0";
    assert [id][..|[id]| - 1] == [];
    assert IndexToId([id]) == IndexToId([])[Decimal(0) := id];
  }

  /** A batch that deletes a memory and then updates it leaves a log that brings it back. */
  lemma DeleteThenUpdateMisleads(id: Id, a: string, b: string, scope: Scope)
    requires id != "" && b != ""
    ensures var m := Insert(Mem(map[], []), id, Record(a, scope, NO_METADATA));
            var ops := [(DeleteOp(Some("0")), Env("", false)), (UpdateOp(Some("0"), b), Env("", false))];
            var m' := ApplyAll(m, ops, IndexToId([id]), scope, NO_METADATA, false);
            id !in m'.store && id in Replay(m'.history) && Replay(m'.history)[id] == b
  {
    var index, env := IndexToId([id]), Env("", false);
    OneIndex(id);
    var m := Insert(Mem(map[], []), id, Record(a, scope, NO_METADATA));
    ApplyTwo(m, (DeleteOp(Some("0")), env), (UpdateOp(Some("0"), b), env), index, scope, NO_METADATA, false);
    var m1 := Remove(m, id);
    LogOne(m1.history, Entry(id, Some(PrevText(m1, id)), Some(b), UPDATE));
  }

  // ---- Whole runs ----

  datatype Event =
    | AddDirect(id: Id, record: Record)
    | Infer(op: Op, index: map<string, Id>, scope: Scope, metadata: Metadata, env: Env)
    | Update(id: Id, data: string, given: Option<Metadata>)
    | Delete(id: Id)
    | DeleteAll(ids: seq<Id>)
    | Wipe

  /** New ids are new.  A call that fails changes nothing, so it is no event. */
  predicate Enabled(m: Mem, e: Event) {
    match e
    case AddDirect(id, _) => id !in m.store
    case Infer(_, _, _, _, env) => env.newId !in m.store
    case _ => true
  }

  function Step(m: Mem, e: Event, strict: bool): Mem {
    match e
    case AddDirect(id, record) => Insert(m, id, record)
    case Infer(op, index, scope, metadata, env) => ApplyOp(m, op, index, scope, metadata, env, strict)
    case Update(id, data, metadata) => DirectUpdate(m, id, data, metadata)
    case Delete(id) => Remove(m, id)
    case DeleteAll(ids) => RemoveEach(m, ids)
    case Wipe => Mem(map[], [])
  }

  function After(es: seq<Event>, strict: bool): Option<Mem> {
    if es == [] then Some(Mem(map[], []))
    else
      var e := es[|es| - 1];
      match After(es[..|es| - 1], strict)
      case None => None
      case Some(m) => if Enabled(m, e) then Some(Step(m, e, strict)) else None
  }

  predicate IsStray(m: Mem, e: Event, strict: bool) {
    e.Infer? && Stray(m, e.op, e.index, e.env, strict)
  }

  /** Since the last wipe, if any, no update of an absent memory was logged. */
  predicate NoStraySinceWipe(es: seq<Event>, strict: bool) {
    es == [] || es[|es| - 1].Wipe? ||
    (&& NoStraySinceWipe(es[..|es| - 1], strict)
     && (After(es[..|es| - 1], strict).Some? ==> !IsStray(After(es[..|es| - 1], strict).value, es[|es| - 1], strict)))
  }

  lemma {:induction false} RemoveEachDescribes(m: Mem, ids: seq<Id>)
    requires Describes(m)
    ensures Describes(RemoveEach(m, ids))
  {
    if ids != [] {
      RemoveEachDescribes(m, ids[..|ids| - 1]);
      RemoveDescribes(RemoveEach(m, ids[..|ids| - 1]), ids[|ids| - 1]);
    }
  }

  /** One step from a state in which log and store agree. */
  lemma StepDescribesIff(m: Mem, e: Event, strict: bool)
    requires Describes(m) && Enabled(m, e)
    ensures Describes(Step(m, e, strict)) <==> !IsStray(m, e, strict)
  {
    match e
    case AddDirect(id, record) => InsertDescribes(m, id, record);
    case Infer(op, index, scope, metadata, env) => OpKeepsDescriptionIff(m, op, index, scope, metadata, env, strict);
    case Update(id, data, given) =>
      if id in m.store { OverwriteDescribes(m, id, Revised(m.store[id], data, given)); }
    case Delete(id) => RemoveDescribes(m, id);
    case DeleteAll(ids) => RemoveEachDescribes(m, ids);
    case Wipe =>
  }

  lemma {:induction false} TruthfulPrefix(h: seq<Entry>, more: seq<Entry>)
    requires AllTruthful(h + more)
    ensures AllTruthful(h)
  {
    if more == [] {
      assert h + more == h;
    } else {
      assert (h + more)[..|h + more| - 1] == h + more[..|more| - 1];
      TruthfulPrefix(h, more[..|more| - 1]);
    }
  }

  /** Every step but a wipe only adds to the log. */
  lemma StepExtendsHistory(m: Mem, e: Event, strict: bool)
    requires !e.Wipe?
    ensures m.history <= Step(m, e, strict).history
  {
    if e.DeleteAll? { RemoveEachFrame(m, e.ids); }
  }

  /** A log that has misled stays misleading until it is wiped. */
  lemma UntruthfulStays(m: Mem, e: Event, strict: bool)
    requires !AllTruthful(m.history) && !e.Wipe?
    ensures !AllTruthful(Step(m, e, strict).history)
  {
    var h := Step(m, e, strict).history;
    StepExtendsHistory(m, e, strict);
    assert h == m.history + h[|m.history|..];
    if AllTruthful(h) { TruthfulPrefix(m.history, h[|m.history|..]); }
  }

  /** A stray update is logged with a previous value that no entry has given. */
  lemma StrayIsUntruthful(m: Mem, e: Event, strict: bool)
    requires Describes(m) && Enabled(m, e) && IsStray(m, e, strict)
    ensures !AllTruthful(Step(m, e, strict).history)
  {
    var id := ResolveId(e.op.id, e.index).value;
    LogOne(m.history, Entry(id, Some(PrevText(m, id)), Some(e.op.text), UPDATE));
  }

  /** In every reachable state, replaying the log gives the store's texts and every entry names the text
      it replaced, if and only if no stray update was logged since the last wipe. */
  lemma {:induction false} HistoryDescribesIff(es: seq<Event>, strict: bool, m: Mem)
    requires After(es, strict) == Some(m)
    ensures Describes(m) <==> NoStraySinceWipe(es, strict)
    ensures !Describes(m) ==> !AllTruthful(m.history)
  {
    if es != [] {
      var before, e := After(es[..|es| - 1], strict).value, es[|es| - 1];
      HistoryDescribesIff(es[..|es| - 1], strict, before);
      if Describes(before) {
        StepDescribesIff(before, e, strict);
        if IsStray(before, e, strict) { StrayIsUntruthful(before, e, strict); }
      } else if !e.Wipe? {
        UntruthfulStays(before, e, strict);
      }
    }
  }

  /** With a store whose update fails on absent ids, the log describes the store in every reachable
      state. */
  lemma {:induction false} StrictHistoryDescribes(es: seq<Event>, m: Mem)
    requires After(es, true) == Some(m)
    ensures Describes(m)
  {
    if es != [] {
      var before := After(es[..|es| - 1], true).value;
      StrictHistoryDescribes(es[..|es| - 1], before);
      StepDescribesIff(before, es[|es| - 1], true);
    }
  }

  function Ids(s: seq<Id>): set<Id> {
    set id | id in s
  }

  lemma {:induction false} RemoveEachFrame(m: Mem, ids: seq<Id>)
    ensures RemoveEach(m, ids).store == m.store - Ids(ids)
    ensures m.history <= RemoveEach(m, ids).history
  {
    if ids != [] {
      RemoveEachFrame(m, ids[..|ids| - 1]);
      assert Ids(ids) == Ids(ids[..|ids| - 1]) + {ids[|ids| - 1]};
    }
  }

  lemma {:induction false} RemoveEachAppend(m: Mem, a: seq<Id>, b: seq<Id>)
    ensures RemoveEach(m, a + b) == RemoveEach(RemoveEach(m, a), b)
  {
    if b == [] {
      assert a + b == a;
    } else {
      RemoveEachAppend(m, a, b[..|b| - 1]);
      assert (a + b)[..|a + b| - 1] == a + b[..|b| - 1];
    }
  }

  /** A batch of one operation on a position. */
  lemma OnlyPositionIsHit(m: Mem, ops: seq<(Op, Env)>, existing: seq<Id>, scope: Scope, metadata: Metadata,
                          strict: bool)
    ensures var now := ApplyAll(m, ops, IndexToId(existing), scope, metadata, strict);
      && (forall i: nat, env: Env ::
        i < |existing| && existing[i] != "" && !env.fails && ops == [(DeleteOp(Some(Decimal(i))), env)] ==>
        now.store == m.store - {existing[i]})
      && (forall i: nat, text: string, env: Env ::
        i < |existing| && existing[i] in m.store && existing[i] != "" && text != "" && !env.fails
        && ops == [(UpdateOp(Some(Decimal(i)), text), env)] ==>
        now.store == m.store[existing[i] := Record(text, scope, metadata)])
  {
    if |ops| == 1 {
      var (op, env) := ops[0];
      assert [] + [(op, env)] == ops;
      forall i: nat | i < |existing| && existing[i] != "" && !env.fails
        ensures op == DeleteOp(Some(Decimal(i))) ==>
          ApplyAll(m, ops, IndexToId(existing), scope, metadata, strict).store == m.store - {existing[i]}
        ensures op.UpdateOp? && op.id == Some(Decimal(i)) && op.text != "" && existing[i] in m.store ==>
          ApplyAll(m, ops, IndexToId(existing), scope, metadata, strict).store ==
          m.store[existing[i] := Record(op.text, scope, metadata)]
      {
        var was, now := PositionIsHit(m, [], op, env, existing, i, scope, metadata, strict);
      }
    }
  }

  // ---- The class ----

  function Owned(store: map<Id, Record>, userId: string): set<Id> {
    set id | id in store && store[id].scope.userId == Some(userId)
  }

  lemma DistinctNext(ids: seq<Id>, id: Id)
    requires id !in ids && forall i, j :: 0 <= i < j < |ids| ==> ids[i] != ids[j]
    ensures forall i, j :: 0 <= i < j < |ids + [id]| ==> (ids + [id])[i] != (ids + [id])[j]
    ensures forall x :: x in ids + [id] <==> x in ids || x == id
  {
    forall i, j | 0 <= i < j < |ids + [id]| ensures (ids + [id])[i] != (ids + [id])[j] {
      assert ids[i] in ids;
    }
  }

  /** The store's `list` for one user: up to `limit` distinct matches. */
  method List(store: map<Id, Record>, userId: string, limit: nat) returns (ids: seq<Id>)
    ensures forall id :: id in ids ==> id in Owned(store, userId)
    ensures forall i, j :: 0 <= i < j < |ids| ==> ids[i] != ids[j]
    ensures |ids| <= limit
    ensures |ids| < limit ==> forall id :: id in Owned(store, userId) ==> id in ids
  {
    var todo := Owned(store, userId);
    ids := [];
    while todo != {} && |ids| < limit
      invariant todo <= Owned(store, userId)
      invariant forall id :: id in ids <==> id in Owned(store, userId) - todo
      invariant forall i, j :: 0 <= i < j < |ids| ==> ids[i] != ids[j]
      invariant |ids| <= limit
      decreases todo
    {
      var id :| id in todo;
      DistinctNext(ids, id);
      ids, todo := ids + [id], todo - {id};
    }
  }

  class Memory {
    var store: map<Id, Record>
    var history: seq<Entry>
    const strict: bool

    constructor (strict: bool)
      ensures Value() == Mem(map[], []) && this.strict == strict
    {
      store, history, this.strict := map[], [], strict;
    }

    function Value(): Mem
      reads this
    {
      Mem(store, history)
    }

    /** The direct form of `add`, without inference. */
    method AddDirect(text: string, scope: Scope, metadata: Metadata, newId: Id)
      requires newId !in store
      modifies this
      ensures Value() == Insert(old(Value()), newId, Record(text, scope, metadata))
      ensures old(Describes(Value())) ==> Describes(Value())
    {
      InsertDescribesIf(Value(), newId, Record(text, scope, metadata));
      store := store[newId := Record(text, scope, metadata)];
      history := history + [Entry(newId, None, Some(text), ADD)];
    }

    /** The body of one iteration of the operations loop; a throw leaves no trace. */
    method Perform(op: Op, index: map<string, Id>, scope: Scope, metadata: Metadata, env: Env)
      modifies this
      ensures Value() == ApplyOp(old(Value()), op, index, scope, metadata, env, strict)
      ensures env.fails || op.NoOp? || (!op.DeleteOp? && op.text == "") ==> Value() == old(Value())
      ensures op.AddOp? && op.text != "" && !env.fails ==>
        && store == old(store)[env.newId := Record(op.text, scope, metadata)]
        && history == old(history) + [Entry(env.newId, None, Some(op.text), ADD)]
      ensures !env.fails && op.DeleteOp? && op.id.Some? && op.id.value != "" && op.id.value !in index ==>
        var id := op.id.value;
        && store == old(store) - {id}
        && history ==
          old(history) + [Entry(id, Some(if id in old(store) then old(store[id].data) else ""), None, DELETE)]
      ensures
        !env.fails && op.UpdateOp? && op.text != "" && op.id.Some? && op.id.value !in index
        && op.id.value != "" && op.id.value in old(store) ==>
        var id := op.id.value;
        && store == old(store)[id := Record(op.text, scope, metadata)]
        && history == old(history) + [Entry(id, Some(old(store[id].data)), Some(op.text), UPDATE)]
    {
      if env.fails { return; }
      match op
      case AddOp(text) =>
        if text == "" { return; }
        store := store[env.newId := Record(text, scope, metadata)];
        history := history + [Entry(env.newId, None, Some(text), ADD)];
      case UpdateOp(id, text) =>
        var target := ResolveId(id, index);
        if target.None? || text == "" { return; }
        var existing := target.value in store;
        var prev := if existing then store[target.value].data else "";
        if strict && !existing { return; }
        if existing { store := store[target.value := Record(text, scope, metadata)]; }
        history := history + [Entry(target.value, Some(prev), Some(text), UPDATE)];
      case DeleteOp(id) =>
        var target := ResolveId(id, index);
        if target.None? { return; }
        var prev := if target.value in store then store[target.value].data else "";
        store := store - {target.value};
        history := history + [Entry(target.value, Some(prev), None, DELETE)];
      case NoOp =>
    }

    /** The operations loop of `add`, over the LLM's answer. */
    method Infer(ops: seq<(Op, Env)>, existing: seq<Id>, scope: Scope, metadata: Metadata)
      modifies this
      ensures Value() == ApplyAll(old(Value()), ops, IndexToId(existing), scope, metadata, strict)
      ensures forall i: nat, env: Env ::
        i < |existing| && existing[i] != "" && !env.fails && ops == [(DeleteOp(Some(Decimal(i))), env)] ==>
        store == old(store) - {existing[i]}
      ensures forall i: nat, text: string, env: Env ::
        i < |existing| && existing[i] in old(store) && existing[i] != "" && text != "" && !env.fails
        && ops == [(UpdateOp(Some(Decimal(i)), text), env)] ==>
        store == old(store)[existing[i] := Record(text, scope, metadata)]
    {
      OnlyPositionIsHit(Value(), ops, existing, scope, metadata, strict);
      var index := map[];
      for i := 0 to |existing|
        invariant index == IndexToId(existing[..i]) && Value() == old(Value())
      {
        assert existing[..i + 1][..i] == existing[..i];
        index := index[Decimal(i) := existing[i]];
      }
      assert existing[..|existing|] == existing;
      for i := 0 to |ops|
        invariant Value() == ApplyAll(old(Value()), ops[..i], index, scope, metadata, strict)
      {
        assert ops[..i + 1][..i] == ops[..i];
        var (op, env) := ops[i];
        Perform(op, index, scope, metadata, env);
      }
      assert ops[..|ops|] == ops;
    }

    method Update(id: Id, data: string, metadata: Option<Metadata>, fails: bool) returns (ok: bool)
      modifies this
      ensures ok <==> id in old(store) && !fails
      ensures Value() == if ok then DirectUpdate(old(Value()), id, data, metadata) else old(Value())
      ensures ok ==> store == old(store)[id :=
        Record(data, old(store[id].scope), if metadata.Some? then metadata.value else old(store[id].metadata))]
      ensures ok ==> history == old(history) + [Entry(id, Some(old(store[id].data)), Some(data), UPDATE)]
    {
      if id !in store || fails { return false; }
      var existing := store[id];
      store := store[id := Revised(existing, data, metadata)];
      history := history + [Entry(id, Some(existing.data), Some(data), UPDATE)];
      return true;
    }

    method Delete(id: Id)
      modifies this
      ensures Value() == Remove(old(Value()), id) && store == old(store) - {id}
      ensures history ==
        old(history) + [Entry(id, Some(if id in old(store) then old(store[id].data) else ""), None, DELETE)]
    {
      var prev := if id in store then store[id].data else "";
      store := store - {id};
      history := history + [Entry(id, Some(prev), None, DELETE)];
    }

    method DeleteBatch(results: seq<Id>)
      modifies this
      ensures Value() == RemoveEach(old(Value()), results)
    {
      for i := 0 to |results|
        invariant Value() == RemoveEach(old(Value()), results[..i])
      {
        assert results[..i + 1][..i] == results[..i];
        Delete(results[i]);
      }
      assert results[..|results|] == results;
    }

    /** One batch of `DeleteAll`. */
    method DeleteNextBatch(userId: string, batchSize: nat, ghost start: Mem, ghost done: seq<Id>)
      returns (n: nat, ghost results: seq<Id>)
      requires batchSize > 0 && Value() == RemoveEach(start, done) && store == start.store - Ids(done)
      requires Ids(done) <= Owned(start.store, userId)
      modifies this
      ensures n == |results| && Value() == RemoveEach(start, done + results)
      ensures store == start.store - Ids(done + results) && Ids(done + results) <= Owned(start.store, userId)
      ensures n < batchSize ==> Owned(store, userId) == {}
      ensures n >= batchSize ==> |Owned(store, userId)| < |old(Owned(store, userId))|
    {
      ghost var owned := Owned(store, userId);
      var batch := List(store, userId, batchSize);
      results := batch;
      RemoveEachAppend(start, done, batch);
      RemoveEachFrame(start, done + batch);
      DeleteBatch(batch);
      n := |batch|;
      IdsConcat(done, batch);
      OwnedAfter(start.store, userId, Ids(done), Ids(batch), owned);
      if n >= batchSize {
        assert batch[0] in Ids(batch) && batch[0] in owned;
        SmallerSet(owned - Ids(batch), owned);
      }
    }

    /** Deletes a user's records in batches; without a user, or with an empty one, everything. */
    method DeleteAll(userId: Option<string>) returns (ghost ids: seq<Id>)
      modifies this
      ensures userId.None? || userId == Some("") ==> Value() == Mem(map[], [])
      ensures userId.Some? && userId.value != "" ==>
        && Value() == RemoveEach(old(Value()), ids)
        && store == old(store) - Owned(old(store), userId.value)
      ensures old(Describes(Value())) ==> Describes(Value())
    {
      ids := [];
      if userId.None? || userId.value == "" {
        store, history := map[], [];
        return;
      }
      var batchSize := 1000;
      var more := true;
      while more
        invariant Value() == RemoveEach(old(Value()), ids)
        invariant store == old(store) - Ids(ids) && Ids(ids) <= Owned(old(store), userId.value)
        invariant !more ==> Owned(store, userId.value) == {}
        decreases |Owned(store, userId.value)|, more
      {
        var n, batch := DeleteNextBatch(userId.value, batchSize, old(Value()), ids);
        ids := ids + batch;
        more := n >= batchSize;
      }
      OwnedGone(old(store), userId.value, Ids(ids));
      if Describes(old(Value())) { RemoveEachDescribes(old(Value()), ids); }
    }
  }

  lemma IdsConcat(a: seq<Id>, b: seq<Id>)
    ensures Ids(a + b) == Ids(a) + Ids(b)
  {
  }

  lemma OwnedAfter(store: map<Id, Record>, userId: string, done: set<Id>, batch: set<Id>, owned: set<Id>)
    requires owned == Owned(store - done, userId)
    ensures Owned(store - (done + batch), userId) == owned - batch
  {
  }

  lemma OwnedGone(store: map<Id, Record>, userId: string, done: set<Id>)
    requires done <= Owned(store, userId) && Owned(store - done, userId) == {}
    ensures done == Owned(store, userId)
  {
    forall id | id in Owned(store, userId) ensures id in done {
      assert id !in done ==> id in Owned(store - done, userId);
    }
  }

  lemma InsertDescribesIf(m: Mem, id: Id, r: Record)
    requires id !in m.store
    ensures Describes(m) ==> Describes(Insert(m, id, r))
  {
    if Describes(m) { InsertDescribes(m, id, r); }
  }

  lemma SmallerSet(a: set<Id>, b: set<Id>)
    requires a < b
    ensures |a| < |b|
  {
    assert b == a + (b - a);
  }
}
