/** Which cache key and session title a request gets.  Keys serialise requests and titles name
    sessions on the assistant server; the two must identify the same conversations.
 */
module SessionTargets {
  import opened Prelude
  import Text

  const SESSION_KEY_MAX_LENGTH := 256

  datatype Target = Target(channel: string, sessionKey: string) {
    function CacheKey(): string { channel + ":" + sessionKey }
    function Title(): string { channel + "/" + sessionKey }
  }

  /** `metadata` is `meta.sessionKey` when that is a string.  The target's session key is that
      value, trimmed, unless it is absent, blank or too long. */
  function ResolveSessionTarget(userId: string, channel: string, metadata: Option<string>): Target {
    var key := if metadata.Some? then Text.Trim(metadata.value) else "";
    Target(channel, if 0 < |key| <= SESSION_KEY_MAX_LENGTH then key else userId)
  }

  /** Channel names that pass the secret lookup; see Inbound.AdmittedChannel. */
  predicate Admitted(channel: string) {
    ':' !in channel && '/' !in channel
  }

  function Swap(s: string, from: char, to: char): string {
    match Text.IndexOf(s, from)
    case None => s
    case Some(i) => s[..i] + [to] + s[i + 1..]
  }

  function TitleOfKey(key: string): string { Swap(key, ':', '/') }
  function KeyOfTitle(title: string): string { Swap(title, '/', ':') }

  /** Swapping the separator after a prefix that has none. */
  lemma SwapsSeparator(prefix: string, from: char, to: char, rest: string)
    requires from !in prefix
    ensures Swap(prefix + [from] + rest, from, to) == prefix + [to] + rest
  {
    var s := prefix + [from] + rest;
    Text.IndexOfFirst(prefix, from, rest);
    assert s[..|prefix|] == prefix && s[|prefix| + 1..] == rest;
  }

  /** For admitted channels the key determines the title and the title determines the key. */
  lemma KeysMatchTitles(t: Target)
    requires Admitted(t.channel)
    ensures TitleOfKey(t.CacheKey()) == t.Title()
    ensures KeyOfTitle(t.Title()) == t.CacheKey()
  {
    SwapsSeparator(t.channel, ':', '/', t.sessionKey);
    SwapsSeparator(t.channel, '/', ':', t.sessionKey);
  }

  lemma SeparatorSplits(a: string, x: string, b: string, y: string, c: char)
    requires c !in a && c !in b && a + [c] + x == b + [c] + y
    ensures a == b && x == y
  {
    var s := a + [c] + x;
    Text.IndexOfFirst(a, c, x);
    Text.IndexOfFirst(b, c, y);
    assert s[..|a|] == a && s[|a| + 1..] == x;
    assert s[..|a|] == b && s[|a| + 1..] == y;
  }

  /** Equal titles share one lock, and only equal targets do. */
  lemma OneLockPerTitle(t: Target, u: Target)
    requires Admitted(t.channel) && Admitted(u.channel)
    ensures t.CacheKey() == u.CacheKey() <==> t == u
    ensures t.Title() == u.Title() <==> t == u
  {
    if t.CacheKey() == u.CacheKey() {
      SeparatorSplits(t.channel, t.sessionKey, u.channel, u.sessionKey, ':');
    }
    if t.Title() == u.Title() {
      SeparatorSplits(t.channel, t.sessionKey, u.channel, u.sessionKey, '/');
    }
  }

  predicate ValidSessionKey(key: string) {
    1 <= |key| <= 256 && Text.Trimmed(key)
  }

  /** The session key is always the user id or a valid key.  A valid key is taken as it stands; a missing
      or blank one falls back to the user id. */
  lemma ResolvedSessionKey(userId: string, channel: string, metadata: Option<string>)
    ensures var t := ResolveSessionTarget(userId, channel, metadata);
      && t.channel == channel
      && (t.sessionKey == userId || (metadata.Some? && ValidSessionKey(t.sessionKey)))
      && (metadata.Some? && ValidSessionKey(metadata.value) ==> t.sessionKey == metadata.value)
      && (metadata.None? || Text.Blank(metadata.value) ==> t.sessionKey == userId)
  {
    if metadata.Some? {
      Text.TrimIsTrimmed(metadata.value);
      var before, after := Text.TrimDecomposes(metadata.value);
      assert Text.Trim(metadata.value) != "" ==> metadata.value[|before|] == Text.Trim(metadata.value)[0];
    }
  }

  /** Requests that bring a session key share a session and a lock exactly when channel and key agree,
      whoever sends them; requests without one, exactly when channel and user agree. */
  lemma SharedSessionIff(user1: string, user2: string, channel1: string, channel2: string, key1: string, key2: string)
    requires Admitted(channel1) && Admitted(channel2) && ValidSessionKey(key1) && ValidSessionKey(key2)
    ensures ResolveSessionTarget(user1, channel1, Some(key1)).Title()
         == ResolveSessionTarget(user2, channel2, Some(key2)).Title()
      <==> channel1 == channel2 && key1 == key2
    ensures ResolveSessionTarget(user1, channel1, None).Title() == ResolveSessionTarget(user2, channel2, None).Title()
      <==> channel1 == channel2 && user1 == user2
  {
    ResolvedSessionKey(user1, channel1, Some(key1));
    ResolvedSessionKey(user2, channel2, Some(key2));
    var t1, t2 := ResolveSessionTarget(user1, channel1, Some(key1)), ResolveSessionTarget(user2, channel2, Some(key2));
    OneLockPerTitle(t1, t2);
    OneLockPerTitle(ResolveSessionTarget(user1, channel1, None), ResolveSessionTarget(user2, channel2, None));
  }

  /** Without the restriction on channel names, one lock could serve two titles. */
  lemma SeparatorsInChannelsWouldCollide()
    ensures Target("a:b", "c").CacheKey() == Target("a", "b:c").CacheKey()
    ensures Target("a:b", "c").Title() != Target("a", "b:c").Title()
    ensures Target("a/b", "c").Title() == Target("a", "b/c").Title()
    ensures Target("a/b", "c").CacheKey() != Target("a", "b/c").CacheKey()
  {
    assert Target("a:b", "c").Title()[1] == ':' && Target("a", "b:c").Title()[1] == '/';
    assert Target("a/b", "c").CacheKey()[1] == '/' && Target("a", "b/c").CacheKey()[1] == ':';
  }
}
