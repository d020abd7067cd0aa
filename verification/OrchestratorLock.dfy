/** The orchestrator's lock file as a protocol between processes.  Every file operation of
    `acquireLock` and `releaseLock` is one step, and so is the liveness check on a pid; creating
    the file and writing its content are taken as one step.  Processes start, run, and die in any
    interleaving; a dead process's pid may be used again.
 */
module OrchestratorLock {
  import opened Prelude

  type Pid = nat

  datatype Content = Info(pid: Pid) | Corrupt

  datatype Phase =
    | Idle
    | Exists                  // the exclusive create has failed
    | Observed(holder: Pid)   // the file named this holder
    | Unlinking               // found stale or unreadable; about to remove the file
    | Retrying                // removed; about to create it
    | Holding                 // has a handle
    | Releasing               // has read its own pid; about to remove the file

  /** `live` are the running processes.  `outdated` are those that someone else has overtaken by
      acquiring the lock since they read the file. */
  datatype State = State(file: Option<Content>, live: map<Pid, Phase>, outdated: set<Pid>)

  function Init(file: Option<Content>): State { State(file, map[], {}) }

  datatype Event =
    | Spawn(p: Pid)
    | Die(p: Pid)
    | Create(p: Pid)
    | Read(p: Pid)
    | Judge(p: Pid)           // is the observed holder alive?
    | Unlink(p: Pid)
    | Retry(p: Pid)
    | ReadOwn(p: Pid)         // releaseLock's ownership check
    | Unlock(p: Pid)

  predicate In(s: State, p: Pid, phase: Phase) {
    p in s.live && s.live[p] == phase
  }

  predicate Enabled(s: State, e: Event) {
    match e
    case Spawn(p) => p !in s.live
    case Die(p) => p in s.live
    case Create(p) => In(s, p, Idle)
    case Read(p) => In(s, p, Exists)
    case Judge(p) => p in s.live && s.live[p].Observed?
    case Unlink(p) => In(s, p, Unlinking)
    case Retry(p) => In(s, p, Retrying)
    case ReadOwn(p) => In(s, p, Holding)
    case Unlock(p) => In(s, p, Releasing)
  }

  function Go(s: State, p: Pid, phase: Phase): State {
    s.(live := s.live[p := phase])
  }

  /** The processes that have read the file and not yet acted on it. */
  function Readers(s: State): set<Pid> {
    set p | p in s.live && (s.live[p].Observed? || s.live[p].Unlinking?)
  }

  /** The exclusive create: it succeeds exactly when there is no file. */
  function TryCreate(s: State, p: Pid, otherwise: Phase): State {
    if s.file.None? then
      State(Some(Info(p)), s.live[p := Holding], s.outdated + (Readers(s) - {p}))
    else Go(s, p, otherwise)
  }

  function Step(s: State, e: Event): State
    requires Enabled(s, e)
  {
    match e
    case Spawn(p) => Go(s, p, Idle).(outdated := s.outdated - {p})
    case Die(p) => s.(live := s.live - {p})
    case Create(p) => TryCreate(s, p, Exists)
    case Read(p) =>
      // no file and a corrupt file read alike
      var seen := if s.file.Some? && s.file.value.Info? then Observed(s.file.value.pid) else Unlinking;
      Go(s, p, seen).(outdated := s.outdated - {p})
    case Judge(p) => Go(s, p, if s.live[p].holder in s.live then Idle else Unlinking)
    case Unlink(p) => Go(s, p, Retrying).(file := None)
    case Retry(p) => TryCreate(s, p, Idle)
    case ReadOwn(p) => Go(s, p, if s.file == Some(Info(p)) then Releasing else Idle)
    case Unlock(p) => Go(s, p, Idle).(file := None)
  }

  function After(s: State, es: seq<Event>): Option<State> {
    if es == [] then Some(s)
    else
      var e := es[|es| - 1];
      match After(s, es[..|es| - 1])
      case Some(m) => if Enabled(m, e) then Some(Step(m, e)) else None
      case None => None
  }

  // ---- Safety ----

  predicate Holds(s: State, p: Pid) {
    In(s, p, Holding) || In(s, p, Releasing)
  }

  ghost predicate Exclusive(s: State) {
    forall p, q :: Holds(s, p) && Holds(s, q) ==> p == q
  }

  /** The file names whoever holds the lock. */
  ghost predicate FileNamesHolder(s: State) {
    forall p :: Holds(s, p) ==> s.file == Some(Info(p))
  }

  ghost predicate HeldByOther(s: State, p: Pid) {
    exists q :: q != p && Holds(s, q)
  }

  /** Whoever unlinks a stale or unreadable lock, no other live process holds the lock. */
  ghost predicate Sparing(s: State, e: Event) {
    e.Unlink? ==> !HeldByOther(s, e.p)
  }

  ghost predicate AllSparing(s: State, es: seq<Event>) {
    es != [] ==>
      && AllSparing(s, es[..|es| - 1])
      && (After(s, es[..|es| - 1]).Some? ==> Sparing(After(s, es[..|es| - 1]).value, es[|es| - 1]))
  }

  lemma StepKeepsFile(s: State, e: Event)
    requires FileNamesHolder(s) && Enabled(s, e) && Sparing(s, e)
    ensures FileNamesHolder(Step(s, e))
  {
    var s' := Step(s, e);
    assert e.Unlink? ==> forall q :: q != e.p ==> !Holds(s, q);
    forall p | Holds(s', p) ensures s'.file == Some(Info(p)) {
      assert Holds(s, p) ==> s.file == Some(Info(p));
      assert e.Unlock? ==> Holds(s, e.p);
      match e {
        case Spawn(q) => assert p != q;
        case _ =>
      }
    }
  }

  lemma {:induction false} RunKeepsFile(file: Option<Content>, es: seq<Event>, s: State)
    requires After(Init(file), es) == Some(s) && AllSparing(Init(file), es)
    ensures FileNamesHolder(s)
  {
    if es != [] {
      var m := After(Init(file), es[..|es| - 1]).value;
      RunKeepsFile(file, es[..|es| - 1], m);
      StepKeepsFile(m, es[|es| - 1]);
    }
  }

  /** In every run in which nobody unlinks while another live process holds the lock, at most one live
      process holds it, the file names it, and `releaseLock` removes no lock but its own. */
  lemma AtMostOneHolder(file: Option<Content>, es: seq<Event>, s: State)
    requires After(Init(file), es) == Some(s) && AllSparing(Init(file), es)
    ensures Exclusive(s)
    ensures forall p :: Holds(s, p) ==> s.file == Some(Info(p))
    ensures forall p :: Enabled(s, Unlock(p)) ==> s.file == Some(Info(p)) && forall q :: Holds(s, q) ==> q == p
  {
    RunKeepsFile(file, es, s);
    forall p | Enabled(s, Unlock(p)) ensures s.file == Some(Info(p)) && forall q :: Holds(s, q) ==> q == p {
      assert Holds(s, p);
    }
  }

  lemma RetryTakesOver(s: State, p: Pid)
    requires Exclusive(s) && In(s, p, Unlinking)
    ensures Exclusive(Step(Step(s, Unlink(p)), Retry(p))) <==> !HeldByOther(s, p)
  {
    var s' := Step(Step(s, Unlink(p)), Retry(p));
    assert Holds(s', p) && !Holds(s, p);
    assert forall q :: q != p ==> (Holds(s', q) <==> Holds(s, q));
  }

  /** At every state of such a run, the next two steps of a process about to unlink leave two live
      holders if and only if another live process holds the lock. */
  lemma UnlinkBreaksIffHeld(file: Option<Content>, es: seq<Event>, s: State, p: Pid)
    requires After(Init(file), es) == Some(s) && AllSparing(Init(file), es) && In(s, p, Unlinking)
    ensures !Exclusive(Step(Step(s, Unlink(p)), Retry(p))) <==> HeldByOther(s, p)
  {
    AtMostOneHolder(file, es, s);
    RetryTakesOver(s, p);
  }

  /** The lock is exclusive throughout the run, and would still be if each unlink were followed at once
      by its retry. */
  ghost predicate StaysExclusive(s: State, es: seq<Event>) {
    es != [] ==>
      && StaysExclusive(s, es[..|es| - 1])
      && (After(s, es).Some? ==>
        && Exclusive(After(s, es).value)
        && (es[|es| - 1].Unlink? ==> Exclusive(Step(After(s, es).value, Retry(es[|es| - 1].p)))))
  }

  /** The condition is exact, over every run: the lock stays exclusive if and only if nobody unlinks
      while another live process holds it. */
  lemma {:induction false} ExclusiveIffSparing(file: Option<Content>, es: seq<Event>)
    requires After(Init(file), es).Some?
    ensures StaysExclusive(Init(file), es) <==> AllSparing(Init(file), es)
  {
    if es != [] {
      var front, e := es[..|es| - 1], es[|es| - 1];
      ExclusiveIffSparing(file, front);
      if AllSparing(Init(file), front) {
        var m := After(Init(file), front).value;
        AtMostOneHolder(file, front, m);
        if e.Unlink? { RetryTakesOver(m, e.p); }
        if Sparing(m, e) { AtMostOneHolder(file, es, Step(m, e)); }
      }
    }
  }

  // ---- A condition on the readings ----

  /** The step removes no lock file on the strength of an outdated reading: whoever unlinks a stale
      or unreadable lock, no other process has acquired the lock since it read the file. */
  predicate Prompt(s: State, e: Event) {
    e.Unlink? ==> e.p !in s.outdated
  }

  ghost predicate AllPrompt(s: State, es: seq<Event>) {
    es != [] ==>
      && AllPrompt(s, es[..|es| - 1])
      && (After(s, es[..|es| - 1]).Some? ==> Prompt(After(s, es[..|es| - 1]).value, es[|es| - 1]))
  }

  /** A process whose reading is not outdated takes no held lock for stale. */
  predicate ReadsRight(s: State, p: Pid, h: Pid) {
    p in s.live && p !in s.outdated && Holds(s, h) ==>
      && !s.live[p].Unlinking?
      && (s.live[p].Observed? ==> s.live[p].holder == h)
  }

  ghost predicate Inv(s: State) {
    && FileNamesHolder(s)
    && (forall p, h :: ReadsRight(s, p, h))
  }

  lemma PromptSpares(s: State, e: Event)
    requires Inv(s) && Enabled(s, e) && Prompt(s, e)
    ensures Sparing(s, e)
  {
    if e.Unlink? {
      forall q | q != e.p ensures !Holds(s, q) {
        assert ReadsRight(s, e.p, q);
      }
    }
  }

  lemma StepKeepsReading(s: State, e: Event, p: Pid, h: Pid)
    requires Inv(s) && Enabled(s, e)
    ensures ReadsRight(Step(s, e), p, h)
  {
    assert ReadsRight(s, p, h);
    assert Holds(s, h) ==> s.file == Some(Info(h));
    assert p in s.live ==> (p in Readers(s) <==> s.live[p].Observed? || s.live[p].Unlinking?);
  }

  lemma StepKeepsInv(s: State, e: Event)
    requires Inv(s) && Enabled(s, e) && Prompt(s, e)
    ensures Inv(Step(s, e))
  {
    PromptSpares(s, e);
    StepKeepsFile(s, e);
    forall p, h ensures ReadsRight(Step(s, e), p, h) {
      StepKeepsReading(s, e, p, h);
    }
  }

  /** If nobody unlinks on an outdated reading, nobody unlinks while another process holds the lock, and
      so all of the above follows. */
  lemma {:induction false} PromptRunsAreSparing(file: Option<Content>, es: seq<Event>, s: State)
    requires After(Init(file), es) == Some(s) && AllPrompt(Init(file), es)
    ensures AllSparing(Init(file), es) && Exclusive(s) && Inv(s)
  {
    if es != [] {
      var m := After(Init(file), es[..|es| - 1]).value;
      PromptRunsAreSparing(file, es[..|es| - 1], m);
      PromptSpares(m, es[|es| - 1]);
      StepKeepsInv(m, es[|es| - 1]);
    }
    AtMostOneHolder(file, es, s);
  }

  // ---- The condition is needed ----

  /** Between observing a stale or unreadable lock and the retry. */
  predicate Recovers(s: State, p: Pid) {
    && p in s.live
    && match s.live[p]
       case Observed(holder) => holder !in s.live
       case Unlinking => true
       case Retrying => true
       case _ => false
  }

  ghost predicate OneRecovers(s: State) {
    forall p, q :: Recovers(s, p) && Recovers(s, q) ==> p == q
  }

  ghost predicate AlwaysOneRecovers(s: State, es: seq<Event>) {
    && (After(s, es).Some? ==> OneRecovers(After(s, es).value))
    && (es != [] ==> AlwaysOneRecovers(s, es[..|es| - 1]))
  }

  /** No process but p reads the file. */
  ghost predicate OnlyReads(es: seq<Event>, p: Pid) {
    forall e :: e in es && e.Read? ==> e.p == p
  }

  predicate Aside(s: State, q: Pid) {
    q in s.live ==> !s.live[q].Observed? && !s.live[q].Unlinking? && !s.live[q].Retrying?
  }

  /** If only one process ever reads the file, at most one process at a time recovers. */
  lemma {:induction false} OneReaderRecovers(file: Option<Content>, es: seq<Event>, p: Pid)
    requires OnlyReads(es, p)
    ensures AlwaysOneRecovers(Init(file), es)
    ensures After(Init(file), es).Some? ==> forall q :: q != p ==> Aside(After(Init(file), es).value, q)
  {
    if es != [] {
      var front, e := es[..|es| - 1], es[|es| - 1];
      assert forall x :: x in front ==> x in es;
      OneReaderRecovers(file, front, p);
      if After(Init(file), es).Some? {
        var m := After(Init(file), front).value;
        assert e in es;
        forall q | q != p ensures Aside(Step(m, e), q) { assert Aside(m, q) && (e.p == p || Aside(m, e.p)); }
        forall q | Recovers(Step(m, e), q) ensures q == p { assert q == p || Aside(Step(m, e), q); }
      }
    }
  }

  /** One more step of an explicit run. */
  lemma Extend(s: State, es: seq<Event>, m: State, e: Event) returns (es': seq<Event>, m': State)
    requires After(s, es) == Some(m) && Enabled(m, e)
    ensures m' == Step(m, e) && After(s, es') == Some(m')
    ensures OnlyReads(es, 1) && (e.Read? ==> e.p == 1) ==> OnlyReads(es', 1)
  {
    es', m' := es + [e], Step(m, e);
    assert es'[..|es|] == es;
  }

  /** Two contenders have found the lock of a dead process. */
  lemma BothFoundStale() returns (es: seq<Event>, s: State)
    ensures After(Init(Some(Info(9))), es) == Some(s) && In(s, 1, Unlinking) && In(s, 2, Unlinking)
  {
    var s0 := Init(Some(Info(9)));
    es, s := [], s0;
    es, s := Extend(s0, es, s, Spawn(1));
    es, s := Extend(s0, es, s, Spawn(2));
    es, s := Extend(s0, es, s, Create(1));
    es, s := Extend(s0, es, s, Create(2));
    es, s := Extend(s0, es, s, Read(1));
    es, s := Extend(s0, es, s, Read(2));
    es, s := Extend(s0, es, s, Judge(1));
    es, s := Extend(s0, es, s, Judge(2));
  }

  /** Two contenders that recover the same stale lock can both return with a handle. */
  lemma TwoRecoverersBothHold() returns (es: seq<Event>, s: State)
    ensures After(Init(Some(Info(9))), es) == Some(s) && Holds(s, 1) && Holds(s, 2)
  {
    var s0 := Init(Some(Info(9)));
    es, s := BothFoundStale();
    es, s := Extend(s0, es, s, Unlink(1));
    es, s := Extend(s0, es, s, Retry(1));
    es, s := Extend(s0, es, s, Unlink(2));
    es, s := Extend(s0, es, s, Retry(2));
  }

  /** Process 3 holds the lock and process 1 has failed to create it. */
  lemma Contended() returns (es: seq<Event>, s: State)
    ensures After(Init(None), es) == Some(s) && OnlyReads(es, 1)
    ensures s.file == Some(Info(3)) && In(s, 1, Exists) && In(s, 2, Idle) && In(s, 3, Holding)
  {
    var s0 := Init(None);
    es, s := [], s0;
    es, s := Extend(s0, es, s, Spawn(1));
    es, s := Extend(s0, es, s, Spawn(2));
    es, s := Extend(s0, es, s, Spawn(3));
    es, s := Extend(s0, es, s, Create(3));
    es, s := Extend(s0, es, s, Create(1));
  }

  /** One recoverer at a time is not enough: the holder may release between the failed create and
      the read.  The missing file reads like a corrupt one, and its removal then hits the lock of
      whoever created it in between. */
  lemma OneRecovererVanishedFile() returns (es: seq<Event>, s: State)
    ensures After(Init(None), es) == Some(s) && AlwaysOneRecovers(Init(None), es)
    ensures Holds(s, 1) && Holds(s, 2)
  {
    var s0 := Init(None);
    es, s := Contended();
    es, s := Extend(s0, es, s, ReadOwn(3));
    es, s := Extend(s0, es, s, Unlock(3));
    es, s := Extend(s0, es, s, Read(1));
    es, s := Extend(s0, es, s, Create(2));
    es, s := Extend(s0, es, s, Unlink(1));
    es, s := Extend(s0, es, s, Retry(1));
    OneReaderRecovers(None, es, 1);
  }

  /** Nor if no file is ever missing: a holder that was alive when read may release and exit before
      it is checked, and its successor's lock is taken for the stale one. */
  lemma OneRecovererLateCheck() returns (es: seq<Event>, s: State)
    ensures After(Init(None), es) == Some(s) && AlwaysOneRecovers(Init(None), es)
    ensures Holds(s, 1) && Holds(s, 2)
  {
    var s0 := Init(None);
    es, s := Contended();
    es, s := Extend(s0, es, s, Read(1));
    es, s := Extend(s0, es, s, ReadOwn(3));
    es, s := Extend(s0, es, s, Unlock(3));
    es, s := Extend(s0, es, s, Create(2));
    es, s := Extend(s0, es, s, Die(3));
    es, s := Extend(s0, es, s, Judge(1));
    es, s := Extend(s0, es, s, Unlink(1));
    es, s := Extend(s0, es, s, Retry(1));
    OneReaderRecovers(None, es, 1);
  }

  // ---- Undisturbed calls, as runs ----

  /** `es'` continues `es` with steps of `p` alone. */
  ghost predicate Continues(es: seq<Event>, es': seq<Event>, p: Pid) {
    |es| <= |es'| && es'[..|es|] == es && forall i :: |es| <= i < |es'| ==> es'[i].p == p
  }

  lemma GoOn(file: Option<Content>, es0: seq<Event>, es: seq<Event>, s: State, e: Event)
    returns (es': seq<Event>, s': State)
    requires After(Init(file), es) == Some(s) && Enabled(s, e) && Continues(es0, es, e.p)
    ensures After(Init(file), es') == Some(s') && s' == Step(s, e) && Continues(es0, es', e.p)
  {
    es', s' := es + [e], Step(s, e);
    DropLast(es, e);
    assert es'[..|es0|] == es[..|es0|];
  }

  lemma AloneRecovers(file: Option<Content>, es0: seq<Event>, es: seq<Event>, s: State, p: Pid)
    returns (es': seq<Event>, s': State)
    requires After(Init(file), es) == Some(s) && In(s, p, Unlinking) && Continues(es0, es, p)
    ensures After(Init(file), es') == Some(s') && Continues(es0, es', p)
    ensures s'.file == Some(Info(p)) && In(s', p, Holding)
  {
    es', s' := GoOn(file, es0, es, s, Unlink(p));
    es', s' := GoOn(file, es0, es', s', Retry(p));
  }

  /** From any state of any run: a process that acts alone gets the lock if there is no file, or if the file is
      unreadable or names a process that is not alive; if it names a live one, nothing changes. */
  lemma AloneAcquires(file: Option<Content>, es: seq<Event>, s: State, p: Pid) returns (es': seq<Event>, s': State)
    requires After(Init(file), es) == Some(s) && In(s, p, Idle)
    ensures After(Init(file), es') == Some(s') && Continues(es, es', p)
    ensures if s.file.Some? && s.file.value.Info? && s.file.value.pid in s.live
            then s'.file == s.file && In(s', p, Idle)
            else s'.file == Some(Info(p)) && In(s', p, Holding)
  {
    es', s' := GoOn(file, es, es, s, Create(p));
    if s.file.Some? {
      es', s' := GoOn(file, es, es', s', Read(p));
      if s.file.value.Info? {
        es', s' := GoOn(file, es, es', s', Judge(p));
      }
      if In(s', p, Unlinking) {
        es', s' := AloneRecovers(file, es, es', s', p);
      }
    }
  }

  /** From any state of any run: a holder that acts alone removes the file if it names the holder, and
      otherwise leaves it. */
  lemma AloneReleases(file: Option<Content>, es: seq<Event>, s: State, p: Pid) returns (es': seq<Event>, s': State)
    requires After(Init(file), es) == Some(s) && In(s, p, Holding)
    ensures After(Init(file), es') == Some(s') && Continues(es, es', p)
    ensures In(s', p, Idle) && s'.file == if s.file == Some(Info(p)) then None else s.file
  {
    es', s' := GoOn(file, es, es, s, ReadOwn(p));
    if In(s', p, Releasing) {
      es', s' := GoOn(file, es, es', s', Unlock(p));
    }
  }

  // ---- Undisturbed calls ----

  /** The lock file, and the processes that are alive. */
  class LockFile {
    var content: Option<Content>
    var alive: set<Pid>

    constructor (content: Option<Content>, alive: set<Pid>)
      ensures this.content == content && this.alive == alive
    {
      this.content, this.alive := content, alive;
    }

    method CreateExclusively(pid: Pid) returns (ok: bool)
      modifies this`content
      ensures ok <==> old(content).None?
      ensures content == if ok then Some(Info(pid)) else old(content)
    {
      ok := content.None?;
      if ok { content := Some(Info(pid)); }
    }

    /** `acquireLock` with nobody else acting: the lock is taken unless a live process holds it, who
        is then named in the error. */
    method AcquireLock(pid: Pid) returns (ok: bool, holder: Option<Pid>)
      modifies this`content
      ensures ok <==> !(old(content).Some? && old(content).value.Info? && old(content).value.pid in alive)
      ensures ok ==> content == Some(Info(pid))
      ensures !ok ==> content == old(content) && holder == Some(old(content).value.pid)
    {
      holder := None;
      ok := CreateExclusively(pid);
      if ok { return; }
      var existing := if content.Some? && content.value.Info? then Some(content.value.pid) else None;
      if existing.Some? && existing.value in alive {
        return false, existing;
      }
      content := None;
      ok := CreateExclusively(pid);
    }

    /** `releaseLock` with nobody else acting; releasing twice is harmless. */
    method ReleaseLock(pid: Pid)
      modifies this`content
      ensures content == if old(content) == Some(Info(pid)) then None else old(content)
    {
      if content.None? || content.value.Corrupt? { return; }
      if content.value.pid != pid { return; }
      content := None;
    }
  }
}
