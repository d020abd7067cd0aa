/** What becomes of the requests of Forward: a clear deletes every session it was listed, a question is
    answered unless a call that has no substitute fails, a session is created only for want of one, and the
    session of an answer is used again until it expires or is cleared.
 */
module ForwardOutcomes {
  import opened Prelude
  import opened SessionTargets
  import opened Forward
  import Eviction
  import Lock = SessionLock

  // ---- Requests and the calls they make ----

  /** The event is the failure of `r`'s call, or the loss of its reply. */
  predicate FailsFor(e: Event, r: nat) {
    (e.Serve? && e.r == r && e.reply == Failed) || (e.ServeUnheard? && e.r == r)
  }

  /** A question never lists to clear or deletes, and a clear never sends a message. */
  predicate KindFits(call: Call) {
    match call.frame
    case Queued => true
    case Found(_) => call.kind == Ask
    case Await(remote, _) => call.kind == Clear <==> remote.ListToClear? || remote.Delete?
    case Returned(result) => if call.kind == Clear then !result.Answer? else !result.Cleared?
  }

  ghost predicate AllFit(w: World) {
    AllInStep(w) && forall r :: 0 <= r < |w.calls| ==> KindFits(w.calls[r])
  }

  lemma StepKeepsFit(w: World, e: Event)
    requires AllFit(w) && Enabled(w, e)
    ensures AllFit(Step(w, e))
  {
    StepKeepsInStep(w, e);
    forall r: nat | r < |Step(w, e).calls| ensures KindFits(Step(w, e).calls[r]) {
      StepKeepsOneFit(w, e, r);
    }
  }

  lemma StepKeepsOneFit(w: World, e: Event, r: nat)
    requires AllFit(w) && Enabled(w, e) && r < |Step(w, e).calls|
    ensures KindFits(Step(w, e).calls[r])
  {
    if r < |w.calls| {
      assert KindFits(w.calls[r]) && InStep(w, r);
      if (e.Enter? || e.Resume?) && e.r == r { SegmentFits(w, r, e.now); }
    }
  }

  lemma SegmentFits(w: World, r: nat, now: int)
    requires r < |w.calls| && KindFits(w.calls[r])
    ensures KindFits(w.calls[r].(frame := Segment(w, r, now).1))
  {
  }

  lemma {:induction false} RunKeepsFit(w: World, es: seq<Event>, w': World)
    requires AllFit(w) && After(w, es) == Some(w')
    ensures AllFit(w')
  {
    if es != [] {
      RunKeepsFit(w, es[..|es| - 1], After(w, es[..|es| - 1]).value);
      StepKeepsFit(After(w, es[..|es| - 1]).value, es[|es| - 1]);
    }
  }

  // ---- A clear deletes what it was listed ----

  /** The session whose deletion by `c` the event fails. */
  function FailedDeletion(w: World, e: Event, c: nat): set<Id> {
    if c < |w.calls| && FailsFor(e, c) && w.calls[c].frame.Await? && w.calls[c].frame.remote.Delete?
    then {w.calls[c].frame.remote.id} else {}
  }

  ghost function FailedDeletions(w: World, es: seq<Event>, c: nat): set<Id> {
    if es == [] then {}
    else
      var front := es[..|es| - 1];
      FailedDeletions(w, front, c) +
      match After(w, front) case Some(m) => FailedDeletion(m, es[|es| - 1], c) case None => {}
  }

  /** The ids that the list has under the title. */
  ghost predicate ListedIn(list: seq<Session>, title: string, ids: set<Id>) {
    forall id :: id in ids <==> Session(id, title) in list
  }

  /** What a clear has neither deleted nor failed to delete, it is deleting or will. */
  ghost predicate Clearing(w: World, c: nat, list: seq<Session>, failed: set<Id>)
    requires c < |w.calls|
  {
    var title := w.calls[c].target.Title();
    match w.calls[c].frame
    case Await(ListToClear, Some(Sessions(l))) => l == list
    case Await(Delete(id, rest, listed, deleted), reply) =>
      && (reply == Some(Failed) ==> id in failed)
      && deleted <= listed <= deleted + failed + {id} + (set x | x in rest)
      && id in listed && (forall x :: x in rest ==> x in listed)
      && ListedIn(list, title, listed)
    case Returned(Cleared(listed, deleted)) =>
      deleted <= listed <= deleted + failed && ListedIn(list, title, listed)
    case _ => false
  }

  lemma SegmentGoesOn(w: World, c: nat, now: int, list: seq<Session>, failed: set<Id>)
    requires c < |w.calls| && Clearing(w, c, list, failed)
    requires w.calls[c].frame.Await? && w.calls[c].frame.reply.Some?
    requires w.calls[c].frame.remote.Delete? ==> w.calls[c].frame.reply.value in {Failed, Deleted}
    ensures Clearing(WithFrame(w, c, Segment(w, c, now).1), c, list, failed)
  {
    MatchingIsExact(list, w.calls[c].target.Title());
    match w.calls[c].frame
    case Await(ListToClear, Some(Sessions(l))) =>
    case Await(Delete(id, rest, listed, deleted), Some(reply)) =>
      if rest != [] { assert (set x | x in rest) == {rest[0]} + (set x | x in rest[1..]); }
    case _ =>
  }

  /** Replies to a deletion are failures or confirmations. */
  ghost predicate DeletionReplied(w: World, c: nat)
    requires c < |w.calls|
  {
    match w.calls[c].frame
    case Await(Delete(_, _, _, _), Some(reply)) => reply in {Failed, Deleted}
    case _ => true
  }

  lemma ReplyGoesOn(w: World, e: Event, c: nat, list: seq<Session>, failed: set<Id>)
    requires Enabled(w, e) && c < |w.calls| && Clearing(w, c, list, failed)
    requires (e.Serve? || e.ServeUnheard?) && e.r == c
    ensures c < |Step(w, e).calls| && Step(w, e).calls[c].target == w.calls[c].target
    ensures Clearing(Step(w, e), c, list, failed + FailedDeletion(w, e, c)) && DeletionReplied(Step(w, e), c)
  {
  }

  lemma StepKeepsClearing(w: World, e: Event, c: nat, list: seq<Session>, failed: set<Id>)
    requires AllInStep(w) && Enabled(w, e) && c < |w.calls| && Clearing(w, c, list, failed) && DeletionReplied(w, c)
    ensures c < |Step(w, e).calls| && Step(w, e).calls[c].target == w.calls[c].target
    ensures Clearing(Step(w, e), c, list, failed + FailedDeletion(w, e, c)) && DeletionReplied(Step(w, e), c)
  {
    assert InStep(w, c);
    if (e.Enter? || e.Resume?) && e.r == c {
      SegmentGoesOn(w, c, e.now, list, failed);
    } else if (e.Serve? || e.ServeUnheard?) && e.r == c {
      ReplyGoesOn(w, e, c, list, failed);
    }
  }

  lemma {:induction false} RunGoesOnClearing(w: World, es: seq<Event>, w': World, c: nat, list: seq<Session>)
    requires AllInStep(w) && After(w, es) == Some(w') && c < |w.calls|
    requires Clearing(w, c, list, {}) && DeletionReplied(w, c)
    ensures AllInStep(w') && c < |w'.calls| && w'.calls[c].target == w.calls[c].target
    ensures Clearing(w', c, list, FailedDeletions(w, es, c)) && DeletionReplied(w', c)
  {
    if es != [] {
      var front, e := es[..|es| - 1], es[|es| - 1];
      var m := After(w, front).value;
      RunGoesOnClearing(w, front, m, c, list);
      StepKeepsInStep(m, e);
      StepKeepsClearing(m, e, c, list, FailedDeletions(w, front, c));
    }
  }

  /** A clear that is served a list has, when it returns, deleted every session that the list has under its
      title and whose deletion did not fail: none of those is on the server any more.  It deletes no other. */
  lemma ClearDeletesEverything(
      sessions: map<Id, string>, before: seq<Event>, w: World,
      c: nat, list: seq<Session>, after: seq<Event>, w': World)
    requires After(Init(sessions), before) == Some(w)
    requires c < |w.calls| && w.calls[c].frame == Await(ListToClear, None)
    requires Enabled(w, Serve(c, Sessions(list)))
    requires After(Step(w, Serve(c, Sessions(list))), after) == Some(w')
    requires c < |w'.calls| && w'.calls[c].frame.Returned?
    ensures w'.calls[c].frame.result.Cleared?
    ensures forall id :: Session(id, w.calls[c].target.Title()) in list ==>
      || id in FailedDeletions(Step(w, Serve(c, Sessions(list))), after, c)
      || (id in w'.calls[c].frame.result.deleted && id !in w'.sessions)
    ensures forall id :: id in w'.calls[c].frame.result.deleted ==> Session(id, w.calls[c].target.Title()) in list
    ensures FailedDeletions(Step(w, Serve(c, Sessions(list))), after, c) == {} ==>
      w'.calls[c].frame.result.deleted == w'.calls[c].frame.result.listed
  {
    var m := Step(w, Serve(c, Sessions(list)));
    RunReachesClear(sessions, before, w, Serve(c, Sessions(list)));
    RunGoesOnClearing(m, after, w', c, list);
    RunKeepsClearInv(m, after, w');
    assert Gone(w', c);
  }

  /** After a clear the conversation starts afresh: an answer to a later request of the target comes from no
      session that had its title when the clear asked the server, but for those whose deletion failed. */
  lemma AnswerAfterClearIsFresh(
      sessions: map<Id, string>, before: seq<Event>, w: World,
      c: nat, list: seq<Session>, after: seq<Event>, w': World, r: nat)
    requires After(Init(sessions), before) == Some(w)
    requires c < |w.calls| && w.calls[c].frame == Await(ListToClear, None)
    requires Enabled(w, Serve(c, Sessions(list)))
    requires After(Step(w, Serve(c, Sessions(list))), after) == Some(w')
    requires c < r < |w'.calls| && w'.calls[r].target == w.calls[c].target
    requires w'.calls[r].frame.Returned? && w'.calls[r].frame.result.Answer?
    ensures Titled(w.sessions, w'.calls[r].frame.result.id, w.calls[c].target.Title()) ==>
      w'.calls[r].frame.result.id in FailedDeletions(Step(w, Serve(c, Sessions(list))), after, c)
  {
    NextAnswerAfterClear(sessions, before, w, c, list, after, w', r);
    ClearDeletesEverything(sessions, before, w, c, list, after, w');
    assert Titled(w.sessions, w'.calls[r].frame.result.id, w.calls[c].target.Title()) ==>
      Session(w'.calls[r].frame.result.id, w.calls[c].target.Title()) in list;
  }

  // ---- A question is answered ----

  /** The event fails a call of `r` for which `r` has no substitute: listing, creating, or sending to the
      session that it has just created. */
  predicate Hard(w: World, e: Event, r: nat) {
    && FailsFor(e, r) && r < |w.calls| && w.calls[r].frame.Await?
    && (w.calls[r].frame.remote.List? || w.calls[r].frame.remote.Create? || w.calls[r].frame.remote.SendNew?)
  }

  ghost predicate NoHardFailure(w: World, es: seq<Event>, r: nat) {
    es != [] ==>
      && NoHardFailure(w, es[..|es| - 1], r)
      && (After(w, es[..|es| - 1]).Some? ==> !Hard(After(w, es[..|es| - 1]).value, es[|es| - 1], r))
  }

  predicate Answerable(call: Call) {
    match call.frame
    case Returned(result) => result.Answer?
    case Await(List(_), Some(reply)) => reply.Sessions?
    case Await(Create, Some(reply)) => reply.Created?
    case Await(SendNew(_), Some(reply)) => reply.Answered?
    case Await(remote, _) => !remote.ListToClear? && !remote.Delete?
    case _ => true
  }

  lemma StepKeepsAnswerable(w: World, e: Event, r: nat)
    requires AllInStep(w) && Enabled(w, e) && !Hard(w, e, r)
    requires r < |w.calls| && w.calls[r].kind == Ask && Answerable(w.calls[r])
    ensures Step(w, e).calls[r].kind == Ask && Answerable(Step(w, e).calls[r])
  {
    assert InStep(w, r);
  }

  lemma {:induction false} RunKeepsAnswerable(w: World, es: seq<Event>, w': World, r: nat)
    requires AllInStep(w) && |w.calls| <= r < |w'.calls| && After(w, es) == Some(w') && NoHardFailure(w, es, r)
    requires w'.calls[r].kind == Ask
    ensures AllInStep(w') && Answerable(w'.calls[r])
  {
    var front, e := es[..|es| - 1], es[|es| - 1];
    var m := After(w, front).value;
    if r < |m.calls| {
      RunKeepsAnswerable(w, front, m, r);
      StepKeepsInStep(m, e);
      StepKeepsAnswerable(m, e, r);
    } else {
      RunKeepsInStep(w, front, m);
      StepKeepsInStep(m, e);
    }
  }

  lemma {:induction false} RunKeepsInStep(w: World, es: seq<Event>, w': World)
    requires AllInStep(w) && After(w, es) == Some(w')
    ensures AllInStep(w')
  {
    if es != [] {
      RunKeepsInStep(w, es[..|es| - 1], After(w, es[..|es| - 1]).value);
      StepKeepsInStep(After(w, es[..|es| - 1]).value, es[|es| - 1]);
    }
  }

  /** Dead sessions are recovered from: a question that has returned has been answered, whatever became of
      the cached and the listed session, unless listing, creating or sending to the created one failed. */
  lemma AskIsAnswered(sessions: map<Id, string>, es: seq<Event>, w: World, r: nat)
    requires After(Init(sessions), es) == Some(w) && NoHardFailure(Init(sessions), es, r)
    requires r < |w.calls| && w.calls[r].kind == Ask && w.calls[r].frame.Returned?
    ensures w.calls[r].frame.result.Answer?
    ensures Titled(w.ever, w.calls[r].frame.result.id, w.calls[r].target.Title())
  {
    RunKeepsAnswerable(Init(sessions), es, w, r);
    AnswersComeFromOwnTitle(sessions, es, w, r);
  }

  // ---- A session is created only for want of one ----

  /** `r` is told that no session has its title, or the session that it was told of fails. */
  ghost predicate Excuse(w: World, e: Event, r: nat) {
    && r < |w.calls| && w.calls[r].frame.Await? && e.Serve? && e.r == r
    && match w.calls[r].frame.remote
       case List(_) => e.reply.Sessions? && forall id :: Session(id, w.calls[r].target.Title()) !in e.reply.list
       case SendExisting(_) => e.reply == Failed
       case _ => false
  }

  ghost predicate Excused(w: World, es: seq<Event>, r: nat) {
    && es != []
    && (|| Excused(w, es[..|es| - 1], r)
        || (After(w, es[..|es| - 1]).Some? && Excuse(After(w, es[..|es| - 1]).value, es[|es| - 1], r)))
  }

  /** `r` creates, has created, or is about to. */
  ghost predicate Creates(call: Call) {
    match call.frame
    case Found(id) => id.None?
    case Await(Create, _) => true
    case Await(SendNew(_), _) => true
    case Await(SendExisting(_), Some(reply)) => reply != Answered
    case Await(List(_), Some(Sessions(list))) => forall id :: Session(id, call.target.Title()) !in list
    case _ => false
  }

  /** A session is in the title index if and only if the list has one of that title; the last one counts. */
  lemma {:induction false} IndexIsLast(list: seq<Session>, title: string)
    ensures title in Index(list) <==> title != "" && exists i :: 0 <= i < |list| && list[i].title == title
    ensures title in Index(list) ==> exists i ::
      && 0 <= i < |list| && list[i] == Session(Index(list)[title], title)
      && forall j :: i < j < |list| ==> list[j].title != title
  {
    if list != [] {
      var front, last := list[..|list| - 1], list[|list| - 1];
      IndexIsLast(front, title);
      if last.title == title {
        assert list[|list| - 1] == last;
      } else if title in Index(front) {
        var i :| 0 <= i < |front| && front[i] == Session(Index(front)[title], title)
                 && forall j :: i < j < |front| ==> front[j].title != title;
        assert list[i] == front[i];
      }
    }
  }

  lemma SegmentCreates(w: World, r: nat, now: int)
    requires r < |w.calls| && Creates(w.calls[r].(frame := Segment(w, r, now).1))
    requires w.calls[r].frame.Queued? || w.calls[r].frame.Found? || w.calls[r].frame.Await?
    ensures Creates(w.calls[r])
  {
    match w.calls[r].frame
    case Await(List(_), Some(Sessions(list))) =>
      forall id ensures Session(id, w.calls[r].target.Title()) !in list {
        if Session(id, w.calls[r].target.Title()) in list {
          IndexFinds(list, id, w.calls[r].target.Title());
        }
      }
    case _ =>
  }

  lemma StepCreates(w: World, e: Event, r: nat)
    requires AllInStep(w) && Enabled(w, e) && r < |Step(w, e).calls| && Creates(Step(w, e).calls[r])
    ensures r < |w.calls| && (Creates(w.calls[r]) || Excuse(w, e, r))
  {
    if r < |w.calls| && (e.Enter? || e.Resume?) && e.r == r {
      assert InStep(w, r);
      SegmentCreates(w, r, e.now);
    }
  }

  lemma {:induction false} RunExcuses(w: World, es: seq<Event>, w': World, r: nat)
    requires AllInStep(w) && |w.calls| <= r < |w'.calls| && After(w, es) == Some(w') && Creates(w'.calls[r])
    ensures Excused(w, es, r)
  {
    var front, e := es[..|es| - 1], es[|es| - 1];
    var m := After(w, front).value;
    RunKeepsInStep(w, front, m);
    StepCreates(m, e, r);
    if Creates(m.calls[r]) {
      RunExcuses(w, front, m, r);
    }
  }

  /** In every run a request asks for a new session only after a list without its title, or after the session
      that it was listed has failed. */
  lemma CreatesForWantOfOne(sessions: map<Id, string>, es: seq<Event>, w: World, r: nat)
    requires After(Init(sessions), es) == Some(w)
    requires r < |w.calls| && w.calls[r].frame.Await? && w.calls[r].frame.remote.Create?
    ensures Excused(Init(sessions), es, r)
  {
    RunExcuses(Init(sessions), es, w, r);
  }

  /** A session that was last used fifteen minutes ago or earlier is not used from the cache.  The title index
      is used for a minute after the list was asked for, and not longer: a question without a usable cached
      session asks for a list, or uses an entry of a younger index. */
  lemma IndexIsUsedForAMinute(w: World, r: nat, now: int)
    requires r < |w.calls| && w.calls[r].frame.Queued? && w.calls[r].kind == Ask
    requires var key, c := w.calls[r].target.CacheKey(), w.caches;
             key in c.cache && c.cache[key] < |c.heap| ==> c.heap[c.cache[key]].lastUsed <= now - 15 * 60_000
    ensures var t, c := w.calls[r].target, w.caches;
            if t.Title() in c.titles && now < c.loaded + 60_000
            then Segment(w, r, now).1 == Found(Some(c.titles[t.Title()]))
            else Segment(w, r, now).1 == Await(List(now), None)
  {
  }

  // ---- The session of an answer is used again ----

  /** The target's cached session is `id`, last used at `since` or later. */
  predicate Held(c: Caches, t: Target, id: Id, since: int) {
    && t.CacheKey() in c.cache && c.cache[t.CacheKey()] < |c.heap|
    && c.heap[c.cache[t.CacheKey()]].sessionId == id && c.heap[c.cache[t.CacheKey()]].lastUsed >= since
  }

  /** The entry object that the request took hold of is still the cached one. */
  predicate StillCached(c: Caches, t: Target, ref: nat, id: Id) {
    && t.CacheKey() in c.cache && c.cache[t.CacheKey()] == ref
    && ref < |c.heap| && c.heap[ref].sessionId == id
  }

  /** The event is not of a request of `t`, the clock is not behind `since`, and a pruning pass comes before
      the session has expired and finds room for all that have not. */
  ghost predicate Elsewhere(w: World, e: Event, t: Target, since: int) {
    && ((e.Enter? || e.Resume?) ==> e.now >= since && e.r < |w.calls| && w.calls[e.r].target != t)
    && (e.Prune? ==>
      e.now - since <= 15 * 60_000 && |Eviction.Live(Stamps(w.caches), e.now, 15 * 60_000)| <= 10_000)
  }

  ghost predicate AllElsewhere(w: World, es: seq<Event>, t: Target, since: int) {
    es != [] ==>
      && AllElsewhere(w, es[..|es| - 1], t, since)
      && (After(w, es[..|es| - 1]).Some? ==> Elsewhere(After(w, es[..|es| - 1]).value, es[|es| - 1], t, since))
  }

  lemma OthersHold(w: World, r: nat, now: int, t: Target, id: Id, since: int)
    requires r < |w.calls| && Admitted(w.calls[r].target.channel) && Admitted(t.channel)
    requires w.calls[r].target != t && now >= since && Held(w.caches, t, id, since)
    ensures Held(Segment(w, r, now).0, t, id, since)
  {
    OneLockPerTitle(w.calls[r].target, t);
  }

  lemma StepHolds(w: World, e: Event, t: Target, id: Id, since: int)
    requires AllInStep(w) && Admitted(t.channel) && Enabled(w, e) && Elsewhere(w, e, t, since)
    requires Held(w.caches, t, id, since)
    ensures Held(Step(w, e).caches, t, id, since)
  {
    if e.Enter? || e.Resume? {
      assert InStep(w, e.r);
      OthersHold(w, e.r, e.now, t, id, since);
    } else if e.Prune? {
      assert t.CacheKey() in Eviction.Live(Stamps(w.caches), e.now, SESSION_TTL_MS);
    }
  }

  lemma {:induction false} RunHolds(w: World, es: seq<Event>, w': World, t: Target, id: Id, since: int)
    requires AllInStep(w) && Admitted(t.channel) && After(w, es) == Some(w') && AllElsewhere(w, es, t, since)
    requires Held(w.caches, t, id, since)
    ensures Held(w'.caches, t, id, since)
  {
    if es != [] {
      var m := After(w, es[..|es| - 1]).value;
      RunHolds(w, es[..|es| - 1], m, t, id, since);
      RunKeepsInStep(w, es[..|es| - 1], m);
      StepHolds(m, es[|es| - 1], t, id, since);
    }
  }

  /** After an answer the conversation goes on in the same session: the next question of the target goes to
      the session that has just answered if it is asked within fifteen minutes and the clock does not go
      back, whatever other conversations do.  A cached session must not have been pruned while it answered. */
  lemma AnswerIsReused(
      sessions: map<Id, string>, before: seq<Event>, w: World, r: nat, id: Id, now: int,
      more: seq<Event>, m: World, next: nat, later: int)
    requires After(Init(sessions), before) == Some(w) && Enabled(w, Resume(r, now))
    requires w.calls[r].frame.Await? && w.calls[r].frame.reply == Some(Answered)
    requires match w.calls[r].frame.remote
             case SendExisting(i) => i == id
             case SendNew(i) => i == id
             case SendCached(ref, i) => i == id && StillCached(w.caches, w.calls[r].target, ref, id)
             case _ => false
    requires After(Step(w, Resume(r, now)), more) == Some(m)
    requires AllElsewhere(Step(w, Resume(r, now)), more, w.calls[r].target, now)
    requires Enabled(m, Enter(next, later)) && m.calls[next].kind == Ask && m.calls[next].target == w.calls[r].target
    requires later - now < 15 * 60_000
    ensures Step(w, Resume(r, now)).calls[r].frame == Returned(Answer(id))
    ensures var frame := Step(m, Enter(next, later)).calls[next].frame;
            frame.Await? && frame.remote.SendCached? && frame.remote.id == id
  {
    RunKeepsInStep(Init(sessions), before, w);
    assert InStep(w, r);
    var w1 := Step(w, Resume(r, now));
    StepKeepsInStep(w, Resume(r, now));
    RunHolds(w1, more, m, w.calls[r].target, id, now);
    RunKeepsInStep(w1, more, m);
    assert InStep(m, next);
  }

  // ---- A clear forgets at once ----

  ghost predicate NoQuestion(w: World, es: seq<Event>, t: Target) {
    es != [] ==>
      && NoQuestion(w, es[..|es| - 1], t)
      && (After(w, es[..|es| - 1]).Some? ==> AsksNothing(After(w, es[..|es| - 1]).value, es[|es| - 1], t))
  }

  /** The event is not a step of a question to `t`. */
  predicate AsksNothing(w: World, e: Event, t: Target) {
    (e.Enter? || e.Resume?) ==> e.r < |w.calls| ==> w.calls[e.r].target != t || w.calls[e.r].kind == Clear
  }

  lemma StepForgets(w: World, e: Event, t: Target)
    requires AllFit(w) && Admitted(t.channel) && Enabled(w, e) && AsksNothing(w, e, t)
    requires t.CacheKey() !in w.caches.cache
    ensures t.CacheKey() !in Step(w, e).caches.cache
  {
    if e.Enter? || e.Resume? {
      assert InStep(w, e.r) && KindFits(w.calls[e.r]);
      OneLockPerTitle(w.calls[e.r].target, t);
    }
  }

  lemma {:induction false} RunForgets(w: World, es: seq<Event>, w': World, t: Target)
    requires AllFit(w) && Admitted(t.channel) && After(w, es) == Some(w') && NoQuestion(w, es, t)
    requires t.CacheKey() !in w.caches.cache
    ensures t.CacheKey() !in w'.caches.cache
  {
    if es != [] {
      var m := After(w, es[..|es| - 1]).value;
      RunForgets(w, es[..|es| - 1], m, t);
      RunKeepsFit(w, es[..|es| - 1], m);
      StepForgets(m, es[|es| - 1], t);
    }
  }

  /** From the moment a clear enters, whether or not its deletions succeed, no session of the target is
      cached, so that the next question does not go to one; and the title index is out of date at once. */
  lemma ClearForgets(
      sessions: map<Id, string>, before: seq<Event>, w: World, c: nat, now: int,
      more: seq<Event>, m: World, next: nat, later: int)
    requires After(Init(sessions), before) == Some(w) && Enabled(w, Enter(c, now)) && w.calls[c].kind == Clear
    requires After(Step(w, Enter(c, now)), more) == Some(m)
    requires NoQuestion(Step(w, Enter(c, now)), more, w.calls[c].target)
    requires Enabled(m, Enter(next, later)) && m.calls[next].kind == Ask && m.calls[next].target == w.calls[c].target
    ensures w.calls[c].target.Title() !in Step(w, Enter(c, now)).caches.titles
    ensures Step(w, Enter(c, now)).caches.loaded == 0
    ensures w.calls[c].target.CacheKey() !in m.caches.cache
    ensures var frame := Step(m, Enter(next, later)).calls[next].frame;
            frame.Found? || (frame.Await? && frame.remote.List?)
  {
    RunKeepsFit(Init(sessions), before, w);
    assert InStep(w, c);
    StepKeepsFit(w, Enter(c, now));
    RunForgets(Step(w, Enter(c, now)), more, m, w.calls[c].target);
    RunKeepsFit(Step(w, Enter(c, now)), more, m);
    assert InStep(m, next);
  }
}
