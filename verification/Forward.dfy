/** Forwarding to the assistant: `askAssistant` and `clearAssistantSessions` under
    `withSessionLock`, the session cache, the title cache with its list TTL, and the prune timer.

    A run interleaves any number of requests.  Code between two awaits is one step.  A call to
    the assistant server is three: it is issued at the end of a segment, the server handles it
    (`Serve`) at some later time and the segment that awaits it resumes later still, so a
    request may act on a reply that is out of date.
 */
module Forward {
  import opened Prelude
  import opened SessionTargets
  import Eviction
  import Lock = SessionLock

  type Id = nat

  const SESSION_TTL_MS := 15 * 60_000
  const SESSION_LIST_CACHE_TTL_MS := 60_000
  const MAX_SESSIONS := 10_000

  // ---- The module's caches ----

  datatype Entry = Entry(sessionId: Id, lastUsed: int)

  /** `sessionCache` maps keys to entry objects, which a segment can keep hold of across an
      await; `heap` holds the objects. */
  datatype Caches = Caches(cache: map<string, nat>, heap: seq<Entry>, titles: map<string, Id>, loaded: int)

  const NO_CACHES := Caches(map[], [], map[], 0)

  datatype Session = Session(id: Id, title: string)

  function Forget(c: Caches, t: Target): Caches {
    c.(cache := c.cache - {t.CacheKey()}, titles := c.titles - {t.Title()}, loaded := 0)
  }

  function Remember(c: Caches, t: Target, id: Id, now: int): Caches {
    c.(cache := c.cache[t.CacheKey() := |c.heap|],
       heap := c.heap + [Entry(id, now)],
       titles := c.titles[t.Title() := id])
  }

  function Touch(c: Caches, t: Target, ref: nat, id: Id, now: int): Caches {
    var c' := if ref < |c.heap| then c.(heap := c.heap[ref := c.heap[ref].(lastUsed := now)]) else c;
    c'.(titles := c.titles[t.Title() := id])
  }

  /** The title index of a session list; a later session wins, untitled ones are left out. */
  function Index(list: seq<Session>): map<string, Id> {
    if list == [] then map[]
    else
      var m := Index(list[..|list| - 1]);
      var x := list[|list| - 1];
      if x.title == "" then m else m[x.title := x.id]
  }

  function Refill(c: Caches, list: seq<Session>, issued: int): Caches {
    c.(titles := Index(list), loaded := issued)
  }

  function Stamps(c: Caches): map<string, int> {
    map k | k in c.cache && c.cache[k] < |c.heap| :: c.heap[c.cache[k]].lastUsed
  }

  // ---- The segments of a request ----

  datatype Kind = Ask | Clear

  datatype Remote =
    | SendCached(ref: nat, id: Id)
    | SendExisting(id: Id)
    | SendNew(id: Id)
    | List(issued: int)
    | Create
    | ListToClear
    | Delete(id: Id, rest: seq<Id>, listed: set<Id>, deleted: set<Id>)

  datatype Reply = Failed | Answered | Sessions(list: seq<Session>) | Created(id: Id) | Deleted

  datatype Result =
    | Answer(id: Id)                             // an answer, and the session it came from
    | Cleared(listed: set<Id>, deleted: set<Id>)  // sessions found under the title, and those deleted
    | Threw

  datatype Frame =
    | Queued                                     // waiting for the lock
    | Await(remote: Remote, reply: Option<Reply>)
    | Found(id: Option<Id>)                      // findExistingSessionId has returned
    | Returned(result: Result)

  function FindExisting(c: Caches, t: Target, now: int): Frame {
    if t.Title() in c.titles && now - c.loaded < SESSION_LIST_CACHE_TTL_MS then
      Found(Some(c.titles[t.Title()]))
    else
      Await(List(now), None)
  }

  function Begin(kind: Kind, t: Target, c: Caches, now: int): (Caches, Frame) {
    match kind
    case Clear => (Forget(c, t), Await(ListToClear, None))
    case Ask =>
      var key := t.CacheKey();
      if key in c.cache && c.cache[key] < |c.heap| && now - c.heap[c.cache[key]].lastUsed < SESSION_TTL_MS then
        (c, Await(SendCached(c.cache[key], c.heap[c.cache[key]].sessionId), None))
      else
        (c, FindExisting(c, t, now))
  }

  function Matching(list: seq<Session>, title: string): seq<Id> {
    if list == [] then []
    else if list[0].title == title then [list[0].id] + Matching(list[1..], title)
    else Matching(list[1..], title)
  }

  function DeleteNext(ids: seq<Id>, listed: set<Id>, deleted: set<Id>): Frame {
    if ids == [] then Returned(Cleared(listed, deleted))
    else Await(Delete(ids[0], ids[1..], listed, deleted), None)
  }

  function Continue(t: Target, c: Caches, remote: Remote, reply: Reply, now: int): (Caches, Frame) {
    match remote
    case SendCached(ref, id) =>
      if reply == Answered then (Touch(c, t, ref, id, now), Returned(Answer(id)))
      else (Forget(c, t), FindExisting(Forget(c, t), t, now))
    case SendExisting(id) =>
      if reply == Answered then (Remember(c, t, id, now), Returned(Answer(id)))
      else (Forget(c, t), Await(Create, None))
    case SendNew(id) =>
      if reply == Answered then (Remember(c, t, id, now), Returned(Answer(id)))
      else (c, Returned(Threw))
    case List(issued) =>
      if reply.Sessions? then
        var c' := Refill(c, reply.list, issued);
        (c', Found(if t.Title() in c'.titles then Some(c'.titles[t.Title()]) else None))
      else (c, Returned(Threw))
    case Create =>
      if reply.Created? then (c, Await(SendNew(reply.id), None))
      else (c, Returned(Threw))
    case ListToClear =>
      if reply.Sessions? then
        var ids := Matching(reply.list, t.Title());
        (c, DeleteNext(ids, set id | id in ids, {}))
      else (c, Returned(Threw))
    case Delete(id, rest, listed, deleted) =>
      (c, DeleteNext(rest, listed, if reply == Deleted then deleted + {id} else deleted))
  }

  // ---- The world ----

  datatype Call = Call(kind: Kind, target: Target, frame: Frame)

  /** `sessions` are the assistant's sessions now, `ever` all that it has had. */
  datatype World =
    World(lock: Lock.State, calls: seq<Call>, caches: Caches, sessions: map<Id, string>, ever: map<Id, string>)

  function Init(sessions: map<Id, string>): World {
    World(Lock.INIT, [], NO_CACHES, sessions, sessions)
  }

  datatype Event =
    | Request(kind: Kind, target: Target)
    | Enter(r: nat, now: int)
    | Serve(r: nat, reply: Reply)
    | ServeUnheard(r: nat, born: Id)            // the server acts but its reply is lost
    | Resume(r: nat, now: int)
    | Leave(r: nat)
    | Prune(now: int, kept: set<string>)
    | Outside(sessions: map<Id, string>)         // others create and delete sessions

  ghost predicate Lists(sessions: map<Id, string>, list: seq<Session>) {
    forall x: Session :: x in list <==> x.id in sessions && sessions[x.id] == x.title
  }

  /** What the server can reply: failure at any time, success only as its sessions allow. */
  ghost predicate Possible(w: World, remote: Remote, reply: Reply) {
    reply == Failed ||
    match remote
    case SendCached(_, id) => reply == Answered && id in w.sessions
    case SendExisting(id) => reply == Answered && id in w.sessions
    case SendNew(id) => reply == Answered && id in w.sessions
    case List(_) => reply.Sessions? && Lists(w.sessions, reply.list)
    case ListToClear => reply.Sessions? && Lists(w.sessions, reply.list)
    case Create => reply.Created? && reply.id !in w.ever
    case Delete(_, _, _, _) => reply == Deleted
  }

  predicate Waits(w: World, r: nat) {
    r < |w.calls| && w.calls[r].frame.Await? && w.calls[r].frame.reply.None?
  }

  ghost predicate Enabled(w: World, e: Event) {
    match e
    case Request(_, target) => Admitted(target.channel)
    case Enter(r, _) => r < |w.calls| && Lock.Enabled(w.lock, Lock.Enter(r))
    case Serve(r, reply) => Waits(w, r) && Possible(w, w.calls[r].frame.remote, reply)
    case ServeUnheard(r, born) =>
      Waits(w, r) && (w.calls[r].frame.remote.Delete? || (w.calls[r].frame.remote.Create? && born !in w.ever))
    case Resume(r, _) =>
      && r < |w.calls| && Lock.PhaseIs(w.lock, r, Lock.Running)
      && (w.calls[r].frame.Found? || (w.calls[r].frame.Await? && w.calls[r].frame.reply.Some?))
    case Leave(r) => Lock.Enabled(w.lock, Lock.Leave(r))
    case Prune(now, kept) => Eviction.Pruned(Stamps(w.caches), now, SESSION_TTL_MS, MAX_SESSIONS, kept)
    case Outside(sessions) =>
      forall id :: id in sessions && id in w.ever ==> id in w.sessions && sessions[id] == w.sessions[id]
  }

  function WithFrame(w: World, r: nat, frame: Frame): World
    requires r < |w.calls|
  {
    w.(calls := w.calls[r := w.calls[r].(frame := frame)])
  }

  function WithSession(w: World, id: Id, title: string): World {
    w.(sessions := w.sessions[id := title], ever := w.ever[id := title])
  }

  /** The effect of `r`'s call on the server. */
  function Effect(w: World, r: nat, id: Id): World
    requires Waits(w, r)
  {
    match w.calls[r].frame.remote
    case Create => WithSession(w, id, w.calls[r].target.Title())
    case Delete(d, _, _, _) => w.(sessions := w.sessions - {d})
    case _ => w
  }

  /** What `r` does when it enters or resumes. */
  function Segment(w: World, r: nat, now: int): (Caches, Frame)
    requires r < |w.calls|
  {
    var t := w.calls[r].target;
    match w.calls[r].frame
    case Queued => Begin(w.calls[r].kind, t, w.caches, now)
    case Found(None) => (w.caches, Await(Create, None))
    case Found(Some(id)) => (w.caches, Await(SendExisting(id), None))
    case Await(remote, Some(reply)) => Continue(t, w.caches, remote, reply, now)
    case _ => (w.caches, w.calls[r].frame)
  }

  function Advance(w: World, r: nat, now: int): World
    requires r < |w.calls|
  {
    var (c, frame) := Segment(w, r, now);
    WithFrame(w, r, frame).(caches := c)
  }

  /** The step of the session lock that a step of the world contains. */
  function LockEvent(w: World, e: Event): Lock.Event {
    match e
    case Request(_, target) => Lock.Arrive(target.CacheKey())
    case Enter(r, _) => Lock.Enter(r)
    case Resume(r, now) => if r < |w.calls| && Segment(w, r, now).1.Returned? then Lock.Settle(r) else Lock.Tick
    case Leave(r) => Lock.Leave(r)
    case _ => Lock.Tick
  }

  ghost function Step(w: World, e: Event): World
    requires Enabled(w, e)
  {
    var lock' := Lock.Step(w.lock, LockEvent(w, e));
    match e
    case Request(kind, target) => w.(lock := lock', calls := w.calls + [Call(kind, target, Queued)])
    case Enter(r, now) => Advance(w, r, now).(lock := lock')
    case Serve(r, reply) =>
      var w' := match reply
        case Created(id) => Effect(w, r, id)
        case Deleted => Effect(w, r, 0)
        case _ => w;
      WithFrame(w', r, w.calls[r].frame.(reply := Some(reply)))
    case ServeUnheard(r, born) => WithFrame(Effect(w, r, born), r, w.calls[r].frame.(reply := Some(Failed)))
    case Resume(r, now) => Advance(w, r, now).(lock := lock')
    case Leave(r) => w.(lock := lock')
    case Prune(_, kept) =>
      w.(caches := w.caches.(cache := map k | k in w.caches.cache && k in kept :: w.caches.cache[k]))
    case Outside(sessions) => w.(sessions := sessions, ever := w.ever + sessions)
  }

  ghost function After(w: World, es: seq<Event>): Option<World> {
    if es == [] then Some(w)
    else
      var e := es[|es| - 1];
      match After(w, es[..|es| - 1])
      case Some(m) => if Enabled(m, e) then Some(Step(m, e)) else None
      case None => None
  }

  // ---- What every step keeps ----

  ghost predicate InStep(w: World, r: nat)
    requires r < |w.calls| && r < |w.lock.requests|
  {
    var call := w.calls[r];
    var phase := w.lock.requests[r].phase;
    && Admitted(call.target.channel)
    && w.lock.requests[r].key == call.target.CacheKey()
    && (call.frame.Queued? <==> phase == Lock.Waiting)
    && (call.frame.Returned? <==> phase in {Lock.Settled, Lock.Finished})
  }

  ghost predicate AllInStep(w: World) {
    && |w.calls| == |w.lock.requests|
    && forall r: nat :: r < |w.calls| ==> InStep(w, r)
  }

  /** The frames agree with the phases of the lock. */
  ghost predicate Shape(w: World) {
    Lock.Inv(w.lock) && AllInStep(w)
  }

  lemma SegmentIsAnswerable(w: World, r: nat, now: int)
    requires r < |w.calls|
    ensures !Segment(w, r, now).1.Queued? || w.calls[r].frame.Queued?
    ensures w.calls[r].frame.Queued? ==> Segment(w, r, now).1.Await? || Segment(w, r, now).1.Found?
  {
  }

  lemma StepHasLockStep(w: World, e: Event)
    requires AllInStep(w) && Enabled(w, e)
    ensures Lock.Enabled(w.lock, LockEvent(w, e))
    ensures Step(w, e).lock == Lock.Step(w.lock, LockEvent(w, e))
    ensures |Step(w, e).calls| == |Step(w, e).lock.requests|
  {
    if !e.Request? && !e.Prune? && !e.Outside? && e.r < |w.calls| {
      assert InStep(w, e.r);
    }
  }

  lemma StepKeepsOneInStep(w: World, e: Event, r: nat)
    requires AllInStep(w) && Enabled(w, e)
    requires Lock.Enabled(w.lock, LockEvent(w, e)) && Step(w, e).lock == Lock.Step(w.lock, LockEvent(w, e))
    requires r < |Step(w, e).calls| == |Step(w, e).lock.requests|
    ensures InStep(Step(w, e), r)
  {
    if r < |w.calls| {
      assert InStep(w, r);
      if e.Enter? || e.Resume? {
        assert InStep(w, e.r);
        SegmentIsAnswerable(w, e.r, e.now);
      }
    }
  }

  lemma StepKeepsInStep(w: World, e: Event)
    requires AllInStep(w) && Enabled(w, e)
    ensures Lock.Enabled(w.lock, LockEvent(w, e)) && AllInStep(Step(w, e))
    ensures Step(w, e).lock == Lock.Step(w.lock, LockEvent(w, e))
  {
    StepHasLockStep(w, e);
    forall r: nat | r < |Step(w, e).calls| ensures InStep(Step(w, e), r) {
      StepKeepsOneInStep(w, e, r);
    }
  }

  lemma StepKeepsShape(w: World, e: Event)
    requires Shape(w) && Enabled(w, e)
    ensures Shape(Step(w, e))
  {
    StepKeepsInStep(w, e);
    Lock.StepKeepsInv(w.lock, LockEvent(w, e));
  }

  /** `id` is, or was, a session of that title. */
  predicate Titled(ever: map<Id, string>, id: Id, title: string) {
    id in ever && ever[id] == title
  }

  ghost predicate FrameTitled(ever: map<Id, string>, t: Target, frame: Frame) {
    match frame
    case Queued => true
    case Found(id) => id.Some? ==> Titled(ever, id.value, t.Title())
    case Returned(Answer(id)) => Titled(ever, id, t.Title())
    case Returned(_) => true
    case Await(remote, reply) =>
      && (match remote
          case SendCached(_, id) => Titled(ever, id, t.Title())
          case SendExisting(id) => Titled(ever, id, t.Title())
          case SendNew(id) => Titled(ever, id, t.Title())
          case Delete(id, rest, _, _) =>
            Titled(ever, id, t.Title()) && forall x :: x in rest ==> Titled(ever, x, t.Title())
          case _ => true)
      && (match reply
          case Some(Sessions(list)) => forall x :: x in list ==> Titled(ever, x.id, x.title)
          case Some(Created(id)) => Titled(ever, id, t.Title())
          case _ => true)
  }

  ghost predicate CachesTitled(ever: map<Id, string>, c: Caches) {
    && (forall key :: key in c.cache ==>
      && c.cache[key] < |c.heap|
      && Titled(ever, c.heap[c.cache[key]].sessionId, TitleOfKey(key)))
    && (forall title :: title in c.titles ==> Titled(ever, c.titles[title], title))
  }

  /** Whatever a cache or a request holds for a title is a session of that title. */
  ghost predicate AllTitled(w: World) {
    && (forall id :: id in w.sessions ==> Titled(w.ever, id, w.sessions[id]))
    && CachesTitled(w.ever, w.caches)
    && forall r :: 0 <= r < |w.calls| ==> FrameTitled(w.ever, w.calls[r].target, w.calls[r].frame)
  }

  lemma {:induction false} IndexIsTitled(ever: map<Id, string>, list: seq<Session>)
    requires forall x :: x in list ==> Titled(ever, x.id, x.title)
    ensures forall title :: title in Index(list) ==> Titled(ever, Index(list)[title], title)
  {
    if list != [] {
      IndexIsTitled(ever, list[..|list| - 1]);
      assert list[|list| - 1] in list;
    }
  }

  lemma {:induction false} MatchingIsExact(list: seq<Session>, title: string)
    ensures forall id :: id in Matching(list, title) <==> Session(id, title) in list
  {
    if list != [] {
      MatchingIsExact(list[1..], title);
      assert list == [list[0]] + list[1..];
    }
  }

  lemma ForgetIsTitled(ever: map<Id, string>, c: Caches, t: Target)
    requires CachesTitled(ever, c)
    ensures CachesTitled(ever, Forget(c, t))
  {
  }

  lemma RememberIsTitled(ever: map<Id, string>, c: Caches, t: Target, id: Id, now: int)
    requires CachesTitled(ever, c) && TitleOfKey(t.CacheKey()) == t.Title() && Titled(ever, id, t.Title())
    ensures CachesTitled(ever, Remember(c, t, id, now))
  {
    var c' := Remember(c, t, id, now);
    forall key | key in c'.cache
      ensures c'.cache[key] < |c'.heap| && Titled(ever, c'.heap[c'.cache[key]].sessionId, TitleOfKey(key))
    {
      if key != t.CacheKey() { assert key in c.cache && c.cache[key] < |c.heap|; }
    }
  }

  lemma TouchIsTitled(ever: map<Id, string>, c: Caches, t: Target, ref: nat, id: Id, now: int)
    requires CachesTitled(ever, c) && Titled(ever, id, t.Title())
    ensures CachesTitled(ever, Touch(c, t, ref, id, now))
  {
    var c' := Touch(c, t, ref, id, now);
    forall key | key in c'.cache
      ensures c'.cache[key] < |c'.heap| && Titled(ever, c'.heap[c'.cache[key]].sessionId, TitleOfKey(key))
    {
      assert key in c.cache && c.cache[key] < |c.heap|;
    }
  }

  lemma FindExistingIsTitled(ever: map<Id, string>, c: Caches, t: Target, now: int)
    requires CachesTitled(ever, c)
    ensures FrameTitled(ever, t, FindExisting(c, t, now))
  {
  }

  lemma RefillIsTitled(ever: map<Id, string>, c: Caches, list: seq<Session>, issued: int)
    requires CachesTitled(ever, c) && forall x :: x in list ==> Titled(ever, x.id, x.title)
    ensures CachesTitled(ever, Refill(c, list, issued))
  {
    IndexIsTitled(ever, list);
  }

  lemma MatchingIsTitled(ever: map<Id, string>, list: seq<Session>, title: string)
    requires forall x :: x in list ==> Titled(ever, x.id, x.title)
    ensures forall id :: id in Matching(list, title) ==> Titled(ever, id, title)
  {
    MatchingIsExact(list, title);
    forall id | id in Matching(list, title) ensures Titled(ever, id, title) {
      assert Session(id, title) in list;
    }
  }

  lemma SendingIsTitled(ever: map<Id, string>, t: Target, c: Caches, remote: Remote, reply: Reply, now: int)
    requires remote.SendCached? || remote.SendExisting? || remote.SendNew?
    requires CachesTitled(ever, c) && FrameTitled(ever, t, Await(remote, Some(reply)))
    requires TitleOfKey(t.CacheKey()) == t.Title()
    ensures CachesTitled(ever, Continue(t, c, remote, reply, now).0)
    ensures FrameTitled(ever, t, Continue(t, c, remote, reply, now).1)
  {
    ForgetIsTitled(ever, c, t);
    match remote
    case SendCached(ref, id) =>
      TouchIsTitled(ever, c, t, ref, id, now);
      FindExistingIsTitled(ever, Forget(c, t), t, now);
    case SendExisting(id) => RememberIsTitled(ever, c, t, id, now);
    case SendNew(id) => RememberIsTitled(ever, c, t, id, now);
  }

  lemma ListingIsTitled(ever: map<Id, string>, t: Target, c: Caches, remote: Remote, reply: Reply, now: int)
    requires !remote.SendCached? && !remote.SendExisting? && !remote.SendNew?
    requires CachesTitled(ever, c) && FrameTitled(ever, t, Await(remote, Some(reply)))
    ensures CachesTitled(ever, Continue(t, c, remote, reply, now).0)
    ensures FrameTitled(ever, t, Continue(t, c, remote, reply, now).1)
  {
    if reply.Sessions? {
      if remote.List? { RefillIsTitled(ever, c, reply.list, remote.issued); }
      MatchingIsTitled(ever, reply.list, t.Title());
    }
  }

  lemma SegmentIsTitled(w: World, r: nat, now: int)
    requires AllTitled(w) && r < |w.calls| && Admitted(w.calls[r].target.channel)
    ensures CachesTitled(w.ever, Segment(w, r, now).0)
    ensures FrameTitled(w.ever, w.calls[r].target, Segment(w, r, now).1)
  {
    var t := w.calls[r].target;
    KeysMatchTitles(t);
    assert FrameTitled(w.ever, t, w.calls[r].frame);
    match w.calls[r].frame
    case Await(remote, Some(reply)) =>
      if remote.SendCached? || remote.SendExisting? || remote.SendNew? {
        SendingIsTitled(w.ever, t, w.caches, remote, reply, now);
      } else {
        ListingIsTitled(w.ever, t, w.caches, remote, reply, now);
      }
    case Queued =>
      ForgetIsTitled(w.ever, w.caches, t);
      FindExistingIsTitled(w.ever, w.caches, t, now);
    case _ =>
  }

  /** Sessions are added to the record, never changed in it. */
  lemma MoreSessionsKeepTitled(w: World, sessions: map<Id, string>, ever: map<Id, string>)
    requires AllTitled(w) && forall id :: id in w.ever ==> id in ever && ever[id] == w.ever[id]
    requires forall id :: id in sessions ==> Titled(ever, id, sessions[id])
    ensures AllTitled(w.(sessions := sessions, ever := ever))
  {
    forall r | 0 <= r < |w.calls|
      ensures FrameTitled(ever, w.calls[r].target, w.calls[r].frame)
    {
      assert FrameTitled(w.ever, w.calls[r].target, w.calls[r].frame);
    }
  }

  lemma NewFrameKeepsTitled(w: World, r: nat, frame: Frame)
    requires AllTitled(w) && r < |w.calls| && FrameTitled(w.ever, w.calls[r].target, frame)
    ensures AllTitled(WithFrame(w, r, frame))
  {
  }

  lemma NewCachesKeepTitled(w: World, c: Caches, lock: Lock.State)
    requires AllTitled(w) && CachesTitled(w.ever, c)
    ensures AllTitled(w.(caches := c, lock := lock))
  {
  }

  lemma AdvanceKeepsTitled(w: World, e: Event)
    requires AllInStep(w) && AllTitled(w) && Enabled(w, e) && (e.Enter? || e.Resume?)
    ensures AllTitled(Step(w, e))
  {
    assert InStep(w, e.r);
    SegmentIsTitled(w, e.r, e.now);
    var (c, frame) := Segment(w, e.r, e.now);
    NewFrameKeepsTitled(w, e.r, frame);
    NewCachesKeepTitled(WithFrame(w, e.r, frame), c, Step(w, e).lock);
  }

  lemma EffectKeepsTitled(w: World, r: nat, id: Id)
    requires AllTitled(w) && Waits(w, r) && (w.calls[r].frame.remote.Create? ==> id !in w.ever)
    ensures AllTitled(Effect(w, r, id)) && Effect(w, r, id).calls == w.calls
    ensures w.calls[r].frame.remote.Create? ==> Titled(Effect(w, r, id).ever, id, w.calls[r].target.Title())
  {
    var w' := Effect(w, r, id);
    MoreSessionsKeepTitled(w, w'.sessions, w'.ever);
  }

  lemma ReplyKeepsTitled(w: World, r: nat, reply: Reply)
    requires AllTitled(w) && Waits(w, r)
    requires reply.Sessions? ==> forall x :: x in reply.list ==> Titled(w.ever, x.id, x.title)
    requires reply.Created? ==> Titled(w.ever, reply.id, w.calls[r].target.Title())
    ensures AllTitled(WithFrame(w, r, w.calls[r].frame.(reply := Some(reply))))
  {
    assert FrameTitled(w.ever, w.calls[r].target, w.calls[r].frame);
    NewFrameKeepsTitled(w, r, w.calls[r].frame.(reply := Some(reply)));
  }

  lemma ServeKeepsTitled(w: World, r: nat, reply: Reply)
    requires AllTitled(w) && Enabled(w, Serve(r, reply))
    ensures AllTitled(Step(w, Serve(r, reply)))
  {
    var remote := w.calls[r].frame.remote;
    if remote.Create? && reply.Created? {
      EffectKeepsTitled(w, r, reply.id);
      ReplyKeepsTitled(Effect(w, r, reply.id), r, reply);
    } else if remote.Delete? && reply == Deleted {
      EffectKeepsTitled(w, r, 0);
      ReplyKeepsTitled(Effect(w, r, 0), r, reply);
    } else {
      ReplyKeepsTitled(w, r, reply);
    }
  }

  lemma StepKeepsTitled(w: World, e: Event)
    requires AllInStep(w) && AllTitled(w) && Enabled(w, e)
    ensures AllTitled(Step(w, e))
  {
    match e
    case Enter(_, _) => AdvanceKeepsTitled(w, e);
    case Resume(_, _) => AdvanceKeepsTitled(w, e);
    case Serve(r, reply) => ServeKeepsTitled(w, r, reply);
    case ServeUnheard(r, born) =>
      EffectKeepsTitled(w, r, born);
      ReplyKeepsTitled(Effect(w, r, born), r, Failed);
    case Outside(sessions) => MoreSessionsKeepTitled(w, sessions, w.ever + sessions);
    case _ =>
  }

  lemma {:induction false} RunKeepsTitled(sessions: map<Id, string>, es: seq<Event>, w: World)
    requires After(Init(sessions), es) == Some(w)
    ensures Shape(w) && AllTitled(w)
  {
    if es != [] {
      var m := After(Init(sessions), es[..|es| - 1]).value;
      RunKeepsTitled(sessions, es[..|es| - 1], m);
      StepKeepsShape(m, es[|es| - 1]);
      StepKeepsTitled(m, es[|es| - 1]);
    }
  }

  /** Conversations do not mix: in every run, whatever fails, is cleared, pruned or listed late,
      an answer comes from a session with the title of the request. */
  lemma AnswersComeFromOwnTitle(sessions: map<Id, string>, es: seq<Event>, w: World, r: nat)
    requires After(Init(sessions), es) == Some(w)
    requires r < |w.calls| && w.calls[r].frame.Returned? && w.calls[r].frame.result.Answer?
    ensures Titled(w.ever, w.calls[r].frame.result.id, w.calls[r].target.Title())
  {
    RunKeepsTitled(sessions, es, w);
  }

  // ---- One session per title ----

  /** The event neither fails a server call of `t`'s requests, nor clears `t`, nor adds or removes
      a session with `t`'s title from outside.  Other conversations may do anything. */
  ghost predicate Undisturbed(w: World, e: Event, t: Target) {
    match e
    case Request(Clear, target) => target != t
    case Serve(r, Failed) => r < |w.calls| ==> w.calls[r].target != t
    case ServeUnheard(r, _) => r < |w.calls| ==> w.calls[r].target != t
    case Outside(sessions) => forall id :: Titled(w.sessions, id, t.Title()) <==> Titled(sessions, id, t.Title())
    case _ => true
  }

  ghost predicate Calm(w: World, es: seq<Event>, t: Target) {
    es != [] ==>
      && Calm(w, es[..|es| - 1], t)
      && (After(w, es[..|es| - 1]).Some? ==> Undisturbed(After(w, es[..|es| - 1]).value, es[|es| - 1], t))
  }

  ghost predicate NoneYet(w: World, t: Target) {
    forall id :: !Titled(w.ever, id, t.Title())
  }

  predicate AtMostOneTitled(sessions: map<Id, string>, t: Target) {
    forall i, j :: i in sessions && j in sessions && sessions[i] == t.Title() && sessions[j] == t.Title() ==> i == j
  }

  /** What a request of `t` knows about the sessions with its title. */
  ghost predicate Knows(w: World, t: Target, call: Call) {
    && call.kind == Ask
    && match call.frame
       case Queued => true
       case Found(None) => NoneYet(w, t)
       case Found(Some(_)) => true
       case Returned(result) => result.Answer?
       case Await(remote, reply) =>
         && !remote.ListToClear? && !remote.Delete? && reply != Some(Failed)
         && (remote.Create? && reply.None? ==> NoneYet(w, t))
         && (reply.Some? ==>
           match remote
           case Create => reply.value.Created?
           case List(_) => reply.value.Sessions? &&
             forall id :: Titled(w.ever, id, t.Title()) ==> Session(id, t.Title()) in reply.value.list
           case _ => reply.value.Answered?)
  }

  ghost predicate OnlyOne(w: World, t: Target) {
    && (forall i, j :: Titled(w.ever, i, t.Title()) && Titled(w.ever, j, t.Title()) ==> i == j)
    && (forall i :: Titled(w.ever, i, t.Title()) ==> i in w.sessions)
    && forall r :: 0 <= r < |w.calls| && w.calls[r].target == t ==> Knows(w, t, w.calls[r])
  }

  lemma {:induction false} IndexFinds(list: seq<Session>, id: Id, title: string)
    requires Session(id, title) in list && title != ""
    ensures title in Index(list)
  {
    if list[|list| - 1] != Session(id, title) {
      IndexFinds(list[..|list| - 1], id, title);
    }
  }

  lemma SegmentKnows(w: World, t: Target, r: nat, now: int)
    requires OnlyOne(w, t) && AllTitled(w) && r < |w.calls| && w.calls[r].target == t
    requires w.calls[r].frame.Await? ==> w.calls[r].frame.reply.Some?
    ensures Knows(w, t, w.calls[r].(frame := Segment(w, r, now).1))
  {
    assert Knows(w, t, w.calls[r]);
    match w.calls[r].frame
    case Await(List(_), Some(Sessions(list))) =>
      forall id | Titled(w.ever, id, t.Title())
        ensures t.Title() in Index(list)
      {
        IndexFinds(list, id, t.Title());
      }
    case _ =>
  }

  /** Only one request of `t` is at work, so what it knows cannot be outdated by another. */
  lemma OthersKnow(w: World, w': World, t: Target, r: nat)
    requires Shape(w) && OnlyOne(w, t)
    requires r < |w.calls| && w.calls[r].target == t && w.calls[r].frame.Await?
    requires |w'.calls| == |w.calls|
    requires forall q :: 0 <= q < |w.calls| && q != r ==> w'.calls[q] == w.calls[q]
    ensures forall q :: 0 <= q < |w.calls| && q != r && w.calls[q].target == t ==> Knows(w', t, w'.calls[q])
  {
    assert InStep(w, r);
    forall q: nat | q < |w.calls| && q != r && w.calls[q].target == t
      ensures Knows(w', t, w'.calls[q])
    {
      assert InStep(w, q) && Knows(w, t, w.calls[q]);
      assert Lock.OnKey(w.lock, q, w.lock.requests[r].key);
      Lock.Exclusive(w.lock, q, r);
    }
  }

  lemma ServeOwnKeepsOnlyOne(w: World, t: Target, r: nat, reply: Reply)
    requires Shape(w) && AllTitled(w) && OnlyOne(w, t)
    requires Enabled(w, Serve(r, reply)) && Undisturbed(w, Serve(r, reply), t) && w.calls[r].target == t
    ensures OnlyOne(Step(w, Serve(r, reply)), t)
  {
    var w' := Step(w, Serve(r, reply));
    assert InStep(w, r) && FrameTitled(w.ever, t, w.calls[r].frame) && Knows(w, t, w.calls[r]);
    OthersKnow(w, w', t, r);
    assert forall id :: Titled(w.ever, id, t.Title()) ==> Titled(w.sessions, id, t.Title());
    assert forall id :: Titled(w'.ever, id, t.Title()) ==> Titled(w.ever, id, t.Title()) || reply == Created(id);
  }

  lemma ServeOtherKeepsOnlyOne(w: World, t: Target, r: nat, reply: Reply)
    requires Shape(w) && AllTitled(w) && OnlyOne(w, t)
    requires Enabled(w, Serve(r, reply)) && Undisturbed(w, Serve(r, reply), t)
    requires w.calls[r].target.Title() != t.Title()
    ensures OnlyOne(Step(w, Serve(r, reply)), t)
  {
    var w' := Step(w, Serve(r, reply));
    assert InStep(w, r) && FrameTitled(w.ever, w.calls[r].target, w.calls[r].frame);
    assert forall id :: Titled(w'.ever, id, t.Title()) <==> Titled(w.ever, id, t.Title());
    forall q | 0 <= q < |w.calls| && w.calls[q].target == t
      ensures Knows(w', t, w'.calls[q])
    {
      assert Knows(w, t, w.calls[q]);
    }
  }

  lemma ServeKeepsOnlyOne(w: World, t: Target, r: nat, reply: Reply)
    requires Shape(w) && AllTitled(w) && OnlyOne(w, t) && Admitted(t.channel)
    requires Enabled(w, Serve(r, reply)) && Undisturbed(w, Serve(r, reply), t)
    ensures OnlyOne(Step(w, Serve(r, reply)), t)
  {
    assert InStep(w, r);
    OneLockPerTitle(t, w.calls[r].target);
    if w.calls[r].target == t {
      ServeOwnKeepsOnlyOne(w, t, r, reply);
    } else {
      ServeOtherKeepsOnlyOne(w, t, r, reply);
    }
  }

  lemma AdvanceKeepsOnlyOne(w: World, e: Event, t: Target)
    requires AllInStep(w) && AllTitled(w) && OnlyOne(w, t)
    requires Enabled(w, e) && (e.Enter? || e.Resume?)
    ensures OnlyOne(Step(w, e), t)
  {
    var w' := Step(w, e);
    assert InStep(w, e.r);
    if w.calls[e.r].target == t {
      SegmentKnows(w, t, e.r, e.now);
    }
    forall q | 0 <= q < |w'.calls| && w'.calls[q].target == t
      ensures Knows(w', t, w'.calls[q])
    {
      assert Knows(w, t, w.calls[q]);
    }
  }

  /** Steps that leave the requests of `t` and the sessions with its title alone. */
  lemma FrameKeepsOnlyOne(w: World, w': World, t: Target)
    requires OnlyOne(w, t)
    requires forall id :: Titled(w'.ever, id, t.Title()) <==> Titled(w.ever, id, t.Title())
    requires forall id :: Titled(w.ever, id, t.Title()) && id in w.sessions ==> id in w'.sessions
    requires forall q :: 0 <= q < |w'.calls| && w'.calls[q].target == t ==>
               (q < |w.calls| && w'.calls[q] == w.calls[q]) || (w'.calls[q].kind == Ask && w'.calls[q].frame == Queued)
    ensures OnlyOne(w', t)
  {
    forall q | 0 <= q < |w'.calls| && w'.calls[q].target == t
      ensures Knows(w', t, w'.calls[q])
    {
      if q < |w.calls| && w'.calls[q] == w.calls[q] {
        assert Knows(w, t, w.calls[q]);
      }
    }
  }

  lemma StepKeepsOnlyOne(w: World, e: Event, t: Target)
    requires Shape(w) && AllTitled(w) && OnlyOne(w, t) && Admitted(t.channel)
    requires Enabled(w, e) && Undisturbed(w, e, t)
    ensures OnlyOne(Step(w, e), t)
  {
    match e
    case Serve(r, reply) => ServeKeepsOnlyOne(w, t, r, reply);
    case Enter(_, _) => AdvanceKeepsOnlyOne(w, e, t);
    case Resume(_, _) => AdvanceKeepsOnlyOne(w, e, t);
    case ServeUnheard(r, _) =>
      assert InStep(w, r) && FrameTitled(w.ever, w.calls[r].target, w.calls[r].frame);
      OneLockPerTitle(t, w.calls[r].target);
      FrameKeepsOnlyOne(w, Step(w, e), t);
    case Outside(sessions) =>
      assert forall id :: Titled(w.ever, id, t.Title()) ==> Titled(w.sessions, id, t.Title());
      assert forall id :: Titled(w.ever + sessions, id, t.Title()) ==>
        Titled(w.sessions, id, t.Title()) || Titled(w.ever, id, t.Title());
      FrameKeepsOnlyOne(w, Step(w, e), t);
    case _ => FrameKeepsOnlyOne(w, Step(w, e), t);
  }

  lemma {:induction false} RunKeepsOnlyOne(sessions: map<Id, string>, es: seq<Event>, w: World, t: Target)
    requires After(Init(sessions), es) == Some(w) && Calm(Init(sessions), es, t)
    requires Admitted(t.channel) && AtMostOneTitled(sessions, t)
    ensures OnlyOne(w, t)
  {
    if es != [] {
      var m := After(Init(sessions), es[..|es| - 1]).value;
      RunKeepsTitled(sessions, es[..|es| - 1], m);
      RunKeepsOnlyOne(sessions, es[..|es| - 1], m, t);
      StepKeepsOnlyOne(m, es[|es| - 1], t);
    }
  }

  /** No duplicate sessions: however requests interleave, with pruning and other conversations'
      calls, clears and failures in between, a title that had at most one session at the start has at
      most one ever, every finished request of it is answered, and all from that session. */
  lemma OneSessionPerTitle(sessions: map<Id, string>, es: seq<Event>, w: World, t: Target)
    requires After(Init(sessions), es) == Some(w) && Calm(Init(sessions), es, t)
    requires Admitted(t.channel) && AtMostOneTitled(sessions, t)
    ensures forall i, j :: Titled(w.ever, i, t.Title()) && Titled(w.ever, j, t.Title()) ==> i == j
    ensures forall r :: 0 <= r < |w.calls| && w.calls[r].target == t && w.calls[r].frame.Returned? ==>
      && w.calls[r].frame.result.Answer?
      && Titled(w.ever, w.calls[r].frame.result.id, t.Title())
  {
    RunKeepsTitled(sessions, es, w);
    RunKeepsOnlyOne(sessions, es, w, t);
    forall r | 0 <= r < |w.calls| && w.calls[r].target == t && w.calls[r].frame.Returned?
      ensures w.calls[r].frame.result.Answer? && Titled(w.ever, w.calls[r].frame.result.id, t.Title())
    {
      assert Knows(w, t, w.calls[r]) && FrameTitled(w.ever, t, w.calls[r].frame);
    }
  }

  // ---- After a clear ----

  /** The sessions that a clearing request has deleted so far. */
  function DeletedBy(call: Call): set<Id> {
    match call.frame
    case Await(Delete(_, _, _, deleted), _) => deleted
    case Returned(Cleared(_, deleted)) => deleted
    case _ => {}
  }

  /** The session that has answered, if any. */
  function AnsweredBy(call: Call): Option<Id> {
    match call.frame
    case Returned(Answer(id)) => Some(id)
    case Await(SendCached(_, id), Some(Answered)) => Some(id)
    case Await(SendExisting(id), Some(Answered)) => Some(id)
    case Await(SendNew(id), Some(Answered)) => Some(id)
    case _ => None
  }

  ghost predicate Apart(w: World, c: nat, r: nat)
    requires c < |w.calls| && r < |w.calls|
  {
    c < r && w.calls[c].target == w.calls[r].target && AnsweredBy(w.calls[r]).Some? ==>
      AnsweredBy(w.calls[r]).value !in DeletedBy(w.calls[c])
  }

  ghost predicate Gone(w: World, c: nat)
    requires c < |w.calls|
  {
    forall id :: id in DeletedBy(w.calls[c]) ==> id in w.ever && id !in w.sessions
  }

  ghost predicate DeletionDone(w: World, c: nat)
    requires c < |w.calls|
  {
    match w.calls[c].frame
    case Await(Delete(id, _, _, _), Some(Deleted)) => id in w.ever && id !in w.sessions
    case _ => true
  }

  ghost predicate ClearInv(w: World) {
    && AllTitled(w)
    && (forall c: nat :: c < |w.calls| ==> Gone(w, c) && DeletionDone(w, c))
    && forall c: nat, r: nat :: c < |w.calls| && r < |w.calls| ==> Apart(w, c, r)
  }

  lemma SegmentKeepsClear(w: World, r: nat, now: int)
    requires ClearInv(w) && r < |w.calls|
    requires w.calls[r].frame.Await? ==> w.calls[r].frame.reply.Some?
    ensures AnsweredBy(w.calls[r].(frame := Segment(w, r, now).1)) == AnsweredBy(w.calls[r])
    ensures forall id :: id in DeletedBy(w.calls[r].(frame := Segment(w, r, now).1)) ==>
      id in w.ever && id !in w.sessions
    ensures Segment(w, r, now).1 == w.calls[r].frame || !Segment(w, r, now).1.Await? || Segment(w, r, now).1.reply.None?
  {
    assert Gone(w, r);
  }

  /** A request behind an unfinished one of its conversation has not begun. */
  lemma LaterIsQueued(w: World, c: nat, r: nat)
    requires Shape(w) && c < r < |w.calls| && w.calls[c].target == w.calls[r].target
    requires w.lock.requests[c].phase != Lock.Finished
    ensures w.calls[r].frame.Queued?
  {
    assert InStep(w, c) && InStep(w, r);
    assert Lock.OnKey(w.lock, c, w.lock.requests[r].key);
    assert Lock.Entered(w.lock, r) ==> Lock.PhaseIs(w.lock, c, Lock.Finished);
  }

  lemma AdvanceKeepsApart(w: World, e: Event, c: nat, r: nat)
    requires Shape(w) && ClearInv(w) && Enabled(w, e) && (e.Enter? || e.Resume?)
    requires c < r < |w.calls| && w.calls[c].target == w.calls[r].target
    ensures Apart(Step(w, e), c, r)
  {
    assert Apart(w, c, r) && Gone(w, c) && InStep(w, c) && InStep(w, e.r);
    SegmentKeepsClear(w, e.r, e.now);
    if e.r == c { LaterIsQueued(w, c, r); }
  }

  lemma ServeKeepsApart(w: World, q: nat, reply: Reply, c: nat, r: nat)
    requires Shape(w) && ClearInv(w) && Enabled(w, Serve(q, reply))
    requires c < r < |w.calls| && w.calls[c].target == w.calls[r].target
    ensures Apart(Step(w, Serve(q, reply)), c, r)
  {
    assert Apart(w, c, r) && Gone(w, c) && InStep(w, c) && InStep(w, r);
    assert q != c ==> Step(w, Serve(q, reply)).calls[c] == w.calls[c];
    assert q != r ==> Step(w, Serve(q, reply)).calls[r] == w.calls[r];
  }

  lemma StepKeepsApart(w: World, e: Event, c: nat, r: nat)
    requires Shape(w) && ClearInv(w) && Enabled(w, e)
    requires c < |Step(w, e).calls| && r < |Step(w, e).calls|
    ensures Apart(Step(w, e), c, r)
  {
    if c < r < |w.calls| && w.calls[c].target == w.calls[r].target {
      if e.Enter? || e.Resume? {
        AdvanceKeepsApart(w, e, c, r);
      } else if e.Serve? {
        ServeKeepsApart(w, e.r, e.reply, c, r);
      } else if e.ServeUnheard? {
        assert Apart(w, c, r);
        assert InStep(w, e.r);
      } else {
        assert Apart(w, c, r);
        assert Step(w, e).calls[c] == w.calls[c] && Step(w, e).calls[r] == w.calls[r];
      }
    }
  }

  lemma StepKeepsGone(w: World, e: Event, c: nat)
    requires AllInStep(w) && ClearInv(w) && Enabled(w, e) && c < |Step(w, e).calls|
    ensures Gone(Step(w, e), c)
  {
    if c < |w.calls| {
      assert Gone(w, c) && InStep(w, c);
      if e.Enter? || e.Resume? {
        assert InStep(w, e.r);
        SegmentKeepsClear(w, e.r, e.now);
      }
    }
  }

  lemma StepKeepsDeletionDone(w: World, e: Event, c: nat)
    requires AllInStep(w) && ClearInv(w) && Enabled(w, e) && c < |Step(w, e).calls|
    ensures DeletionDone(Step(w, e), c)
  {
    if c < |w.calls| {
      assert DeletionDone(w, c);
      if e.Enter? || e.Resume? {
        assert InStep(w, e.r);
        SegmentKeepsClear(w, e.r, e.now);
      } else if e.Serve? {
        ServeKeepsDeletionDone(w, e.r, e.reply, c);
      }
    }
  }

  lemma ServeKeepsDeletionDone(w: World, r: nat, reply: Reply, c: nat)
    requires ClearInv(w) && Enabled(w, Serve(r, reply)) && c < |w.calls|
    ensures DeletionDone(Step(w, Serve(r, reply)), c)
  {
    assert DeletionDone(w, c) && FrameTitled(w.ever, w.calls[c].target, w.calls[c].frame);
  }

  lemma StepKeepsClearInv(w: World, e: Event)
    requires Shape(w) && ClearInv(w) && Enabled(w, e)
    ensures ClearInv(Step(w, e))
  {
    var w' := Step(w, e);
    StepKeepsTitled(w, e);
    forall c: nat | c < |w'.calls| ensures Gone(w', c) && DeletionDone(w', c) {
      StepKeepsGone(w, e, c);
      StepKeepsDeletionDone(w, e, c);
    }
    forall c: nat, r: nat | c < |w'.calls| && r < |w'.calls| ensures Apart(w', c, r) {
      StepKeepsApart(w, e, c, r);
    }
  }

  lemma {:induction false} RunKeepsClearInv(w: World, es: seq<Event>, w': World)
    requires Shape(w) && ClearInv(w) && After(w, es) == Some(w')
    ensures Shape(w') && ClearInv(w') && |w.calls| <= |w'.calls|
    ensures forall c :: 0 <= c < |w.calls| ==> w'.calls[c].target == w.calls[c].target
  {
    if es != [] {
      var m := After(w, es[..|es| - 1]).value;
      RunKeepsClearInv(w, es[..|es| - 1], m);
      StepKeepsShape(m, es[|es| - 1]);
      StepKeepsClearInv(m, es[|es| - 1]);
    }
  }

  /** `c` is clearing and has, or will have, listed exactly `ids`. */
  ghost predicate ClearsFrom(w: World, c: nat, list: seq<Session>)
    requires c < |w.calls|
  {
    var ids := set x | x in list && x.title == w.calls[c].target.Title() :: x.id;
    match w.calls[c].frame
    case Await(ListToClear, Some(Sessions(l))) => l == list
    case Await(Delete(_, _, listed, deleted), _) => listed == ids
    case Returned(Cleared(listed, deleted)) => listed == ids
    case _ => false
  }

  lemma StepGoesOnClearing(w: World, e: Event, c: nat, list: seq<Session>)
    requires AllInStep(w) && Enabled(w, e) && c < |w.calls| && ClearsFrom(w, c, list)
    ensures c < |Step(w, e).calls| && ClearsFrom(Step(w, e), c, list)
  {
    assert InStep(w, c);
    MatchingIsExact(list, w.calls[c].target.Title());
  }

  lemma {:induction false} ClearingGoesOn(w: World, es: seq<Event>, w': World, c: nat, list: seq<Session>)
    requires AllInStep(w) && After(w, es) == Some(w') && c < |w.calls| && ClearsFrom(w, c, list)
    ensures AllInStep(w') && c < |w'.calls| && ClearsFrom(w', c, list)
  {
    if es != [] {
      var m := After(w, es[..|es| - 1]).value;
      ClearingGoesOn(w, es[..|es| - 1], m, c, list);
      StepKeepsInStep(m, es[|es| - 1]);
      StepGoesOnClearing(m, es[|es| - 1], c, list);
    }
  }

  lemma RunReachesClear(sessions: map<Id, string>, before: seq<Event>, w: World, e: Event)
    requires After(Init(sessions), before) == Some(w) && Enabled(w, e)
    ensures AllTitled(w) && Shape(w) && Shape(Step(w, e)) && ClearInv(Step(w, e))
  {
    RunKeepsTitled(sessions, before, w);
    assert ClearInv(Init(sessions));
    RunKeepsClearInv(Init(sessions), before, w);
    StepKeepsShape(w, e);
    StepKeepsClearInv(w, e);
  }

  /** A cleared conversation starts afresh: once a clear of `t` has returned, no answer to a later
      request of `t` comes from a session that the clear deleted, even if another conversation's
      stale list put that session back into the title cache.  When every deletion succeeded these
      are all the sessions that had the title when the server was asked for them. */
  lemma NextAnswerAfterClear(
      sessions: map<Id, string>, before: seq<Event>, w: World,
      c: nat, list: seq<Session>, after: seq<Event>, w': World, r: nat)
    requires After(Init(sessions), before) == Some(w)
    requires c < |w.calls| && w.calls[c].frame == Await(ListToClear, None)
    requires Enabled(w, Serve(c, Sessions(list)))
    requires After(Step(w, Serve(c, Sessions(list))), after) == Some(w')
    requires c < r < |w'.calls| && w'.calls[r].target == w.calls[c].target
    requires w'.calls[r].frame.Returned? && w'.calls[r].frame.result.Answer?
    ensures c < |w'.calls| && w'.calls[c].frame.Returned? && w'.calls[c].frame.result.Cleared?
    ensures w'.calls[r].frame.result.id !in w'.calls[c].frame.result.deleted
    ensures var cleared := w'.calls[c].frame.result;
            cleared.deleted == cleared.listed ==>
              !Titled(w.sessions, w'.calls[r].frame.result.id, w.calls[c].target.Title())
  {
    var t := w.calls[c].target;
    var m := Step(w, Serve(c, Sessions(list)));
    RunReachesClear(sessions, before, w, Serve(c, Sessions(list)));
    RunKeepsClearInv(m, after, w');
    ClearingGoesOn(m, after, w', c, list);
    assert InStep(w', c) && InStep(w', r) && Apart(w', c, r);
    if w'.lock.requests[c].phase != Lock.Finished {
      LaterIsQueued(w', c, r);
    }
    var id := w'.calls[r].frame.result.id;
    if Titled(w.sessions, id, t.Title()) {
      assert Session(id, t.Title()) in list;
    }
  }
}
