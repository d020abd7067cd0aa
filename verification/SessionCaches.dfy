/** The forwarding module's maps as they are updated in place, between the awaits that the state
    machine in Forward cuts at.  Each method carries the represented `Caches` to the value that
    the state machine gives the same segment.
 */
module SessionCaches {
  import opened Forward
  import opened SessionTargets
  import Eviction

  class CacheEntry {
    const sessionId: Id
    var lastUsed: int

    constructor (sessionId: Id, now: int)
      ensures this.sessionId == sessionId && lastUsed == now
    {
      this.sessionId := sessionId;
      lastUsed := now;
    }
  }

  class SessionMaps {
    var sessionCache: map<string, CacheEntry>
    var sessionTitleCache: map<string, Id>
    var sessionListCacheLastLoaded: int

    constructor ()
      ensures Represents(NO_CACHES, [])
    {
      sessionCache, sessionTitleCache, sessionListCacheLastLoaded := map[], map[], 0;
    }

    /** `entries[i]` is the object that `c.heap[i]` stands for. */
    ghost predicate Represents(c: Caches, entries: seq<CacheEntry>)
      reads this, entries
    {
      && |entries| == |c.heap|
      && (forall i, j :: 0 <= i < j < |entries| ==> entries[i] != entries[j])
      && (forall i :: 0 <= i < |entries| ==> Entry(entries[i].sessionId, entries[i].lastUsed) == c.heap[i])
      && sessionCache.Keys == c.cache.Keys
      && (forall key :: key in sessionCache ==> c.cache[key] < |entries| && sessionCache[key] == entries[c.cache[key]])
      && sessionTitleCache == c.titles
      && sessionListCacheLastLoaded == c.loaded
    }

    /** Both `catch` blocks, and the start of a clear. */
    method Drop(t: Target, ghost c: Caches, ghost entries: seq<CacheEntry>)
      requires Represents(c, entries)
      modifies this
      ensures Represents(Forget(c, t), entries)
    {
      sessionCache := sessionCache - {t.CacheKey()};
      sessionTitleCache := sessionTitleCache - {t.Title()};
      sessionListCacheLastLoaded := 0;
    }

    /** After a session other than the cached one has answered. */
    method Store(t: Target, id: Id, now: int, ghost c: Caches, ghost entries: seq<CacheEntry>)
      returns (entry: CacheEntry)
      requires Represents(c, entries)
      modifies this
      ensures fresh(entry) && Represents(Remember(c, t, id, now), entries + [entry])
    {
      entry := new CacheEntry(id, now);
      sessionCache := sessionCache[t.CacheKey() := entry];
      sessionTitleCache := sessionTitleCache[t.Title() := id];
    }

    /** After the cached session has answered.  The entry may have left the map meanwhile. */
    method Refresh(t: Target, cached: CacheEntry, now: int,
                   ghost c: Caches, ghost entries: seq<CacheEntry>, ghost ref: nat)
      requires Represents(c, entries) && ref < |entries| && entries[ref] == cached
      modifies this, cached
      ensures Represents(Touch(c, t, ref, cached.sessionId, now), entries)
    {
      cached.lastUsed := now;
      sessionTitleCache := sessionTitleCache[t.Title() := cached.sessionId];
    }

    /** After a session list has arrived: rebuild the title cache. */
    method Reload(list: seq<Session>, issued: int, ghost c: Caches, ghost entries: seq<CacheEntry>)
      requires Represents(c, entries)
      modifies this
      ensures Represents(Refill(c, list, issued), entries)
    {
      sessionTitleCache := map[];
      for i := 0 to |list|
        invariant sessionTitleCache == Index(list[..i])
        invariant Represents(c.(titles := sessionTitleCache), entries)
      {
        assert list[..i + 1][..i] == list[..i];
        if list[i].title != "" {
          sessionTitleCache := sessionTitleCache[list[i].title := list[i].id];
        }
      }
      assert list[..|list|] == list;
      sessionListCacheLastLoaded := issued;
    }

    /** The timer: expired entries go, then the oldest beyond the cap. */
    method PruneSessions(now: int, ghost c: Caches, ghost entries: seq<CacheEntry>) returns (kept: set<string>)
      requires Represents(c, entries)
      modifies this
      ensures Eviction.Pruned(Stamps(c), now, SESSION_TTL_MS, MAX_SESSIONS, kept)
      ensures Represents(c.(cache := map k | k in c.cache && k in kept :: c.cache[k]), entries)
    {
      var stamps := LastUses(c, entries);
      kept := Eviction.Prune(stamps, now, SESSION_TTL_MS, MAX_SESSIONS);
      KeepOnly(kept, c, entries);
    }

    method LastUses(ghost c: Caches, ghost entries: seq<CacheEntry>) returns (stamps: map<string, int>)
      requires Represents(c, entries)
      ensures stamps == Stamps(c)
    {
      stamps := map k | k in sessionCache :: sessionCache[k].lastUsed;
      forall k | k in sessionCache ensures k in Stamps(c) && stamps[k] == Stamps(c)[k] {
        var i := c.cache[k];
        assert sessionCache[k] == entries[i] && Entry(entries[i].sessionId, entries[i].lastUsed) == c.heap[i];
      }
    }

    method KeepOnly(kept: set<string>, ghost c: Caches, ghost entries: seq<CacheEntry>)
      requires Represents(c, entries)
      modifies this
      ensures Represents(c.(cache := map k | k in c.cache && k in kept :: c.cache[k]), entries)
    {
      sessionCache := map k | k in sessionCache && k in kept :: sessionCache[k];
    }
  }
}
