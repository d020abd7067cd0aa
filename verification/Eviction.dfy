/** The pruning pass that the session cache, the nonce cache and the rate limiter share:
    drop what has expired, then, if still over the cap, drop the oldest entries.
 */
module Eviction {

  /** An entry stamped `stamp` has outlived `ttl` at time `now`. */
  predicate Expired(stamp: int, now: int, ttl: int) {
    now - stamp > ttl
  }

  function Live(stamps: map<string, int>, now: int, ttl: int): set<string> {
    set k | k in stamps && !Expired(stamps[k], now, ttl)
  }

  /** `kept` is an admissible outcome of one pruning pass.  Ties between equal stamps are
      left open: the source breaks them by insertion order. */
  ghost predicate Pruned(stamps: map<string, int>, now: int, ttl: int, cap: nat, kept: set<string>) {
    var live := Live(stamps, now, ttl);
    && kept <= live
    && (|live| <= cap ==> kept == live)
    && (|live| > cap ==> |kept| == cap)
    && forall x, y :: x in kept && y in live - kept ==> stamps[y] <= stamps[x]
  }

  ghost predicate OldestFirst(stamps: map<string, int>, s: seq<string>) {
    && (forall i :: 0 <= i < |s| ==> s[i] in stamps)
    && (forall i, j :: 0 <= i < j < |s| ==> s[i] != s[j] && stamps[s[i]] <= stamps[s[j]])
  }

  function Members(s: seq<string>): set<string> {
    set k | k in s
  }

  lemma {:induction false} DistinctSize(s: seq<string>)
    requires forall i, j :: 0 <= i < j < |s| ==> s[i] != s[j]
    ensures |Members(s)| == |s|
  {
    if s != [] {
      var front := s[..|s| - 1];
      DistinctSize(front);
      assert Members(s) == Members(front) + {s[|s| - 1]};
    }
  }

  function Inserted(s: seq<string>, i: nat, k: string): seq<string>
    requires i <= |s|
  {
    s[..i] + [k] + s[i..]
  }

  lemma InsertedMembers(s: seq<string>, i: nat, k: string)
    requires i <= |s|
    ensures Members(Inserted(s, i, k)) == Members(s) + {k}
  {
    assert s == s[..i] + s[i..];
    forall x ensures x in Inserted(s, i, k) <==> x in s || x == k {
      assert x in s <==> x in s[..i] || x in s[i..];
    }
  }

  lemma InsertedInOrder(stamps: map<string, int>, s: seq<string>, i: nat, k: string)
    requires OldestFirst(stamps, s) && k in stamps && k !in s && i <= |s|
    requires i > 0 ==> stamps[s[i - 1]] <= stamps[k]
    requires forall j :: i <= j < |s| ==> stamps[k] <= stamps[s[j]]
    ensures OldestFirst(stamps, Inserted(s, i, k))
  {
    var t := Inserted(s, i, k);
    forall a | 0 <= a < |t| ensures t[a] == (if a < i then s[a] else if a == i then k else s[a - 1]) {}
    forall a | 0 <= a < i ensures stamps[s[a]] <= stamps[k] {
      assert a < i - 1 ==> stamps[s[a]] <= stamps[s[i - 1]];
    }
    forall a, b | 0 <= a < b < |t| ensures t[a] != t[b] && stamps[t[a]] <= stamps[t[b]] {
    }
  }

  /** `[...entries].sort((a, b) => a.stamp - b.stamp)` on the keys of a map. */
  method SortOldestFirst(stamps: map<string, int>) returns (sorted: seq<string>)
    ensures OldestFirst(stamps, sorted)
    ensures Members(sorted) == stamps.Keys
  {
    sorted := [];
    var todo := stamps.Keys;
    while todo != {}
      invariant todo <= stamps.Keys
      invariant OldestFirst(stamps, sorted)
      invariant Members(sorted) == stamps.Keys - todo
      decreases todo
    {
      var k :| k in todo;
      var i := |sorted|;
      while i > 0 && stamps[sorted[i - 1]] > stamps[k]
        invariant 0 <= i <= |sorted|
        invariant forall j :: i <= j < |sorted| ==> stamps[k] <= stamps[sorted[j]]
      {
        i := i - 1;
      }
      InsertedMembers(sorted, i, k);
      assert k !in Members(sorted);
      InsertedInOrder(stamps, sorted, i, k);
      sorted := Inserted(sorted, i, k);
      todo := todo - {k};
    }
  }

  /** Drop the oldest entries until `cap` are left. */
  method DropOldest(m: map<string, int>, cap: nat) returns (kept: set<string>)
    requires |m| > cap
    ensures kept <= m.Keys && |kept| == cap
    ensures forall x, y :: x in kept && y in m.Keys - kept ==> m[y] <= m[x]
  {
    var sorted := SortOldestFirst(m);
    DistinctSize(sorted);
    var n := |sorted| - cap;
    kept := m.Keys;
    for i := 0 to n
      invariant kept == m.Keys - Members(sorted[..i])
    {
      assert Members(sorted[..i + 1]) == Members(sorted[..i]) + {sorted[i]};
      kept := kept - {sorted[i]};
    }
    SplitMembers(m, sorted, n);
  }

  lemma SplitMembers(m: map<string, int>, s: seq<string>, n: nat)
    requires n <= |s| && OldestFirst(m, s)
    ensures Members(s[n..]) == Members(s) - Members(s[..n])
    ensures |Members(s[n..])| == |s| - n
    ensures forall x, y :: x in Members(s[n..]) && y in Members(s[..n]) ==> m[y] <= m[x]
  {
    DistinctSize(s[n..]);
    assert s == s[..n] + s[n..];
  }

  /** What a pass that keeps `kept` leaves of a map. */
  function Restrict<V>(m: map<string, V>, kept: set<string>): map<string, V> {
    map k | k in m && k in kept :: m[k]
  }

  /** One pruning pass; returns the keys that stay. */
  method Prune(stamps: map<string, int>, now: int, ttl: int, cap: nat) returns (kept: set<string>)
    ensures Pruned(stamps, now, ttl, cap, kept)
  {
    var m := stamps;
    var todo := stamps.Keys;
    while todo != {}
      invariant todo <= stamps.Keys
      invariant m == map k | k in stamps && (k in todo || !Expired(stamps[k], now, ttl)) :: stamps[k]
      decreases todo
    {
      var k :| k in todo;
      if Expired(stamps[k], now, ttl) {
        m := m - {k};
      }
      todo := todo - {k};
    }
    assert m.Keys == Live(stamps, now, ttl);
    if |m| > cap {
      kept := DropOldest(m, cap);
    } else {
      kept := m.Keys;
    }
  }

  /** If the live entries fit under the cap, a pass keeps exactly them. */
  lemma PrunedKeepsLive(stamps: map<string, int>, now: int, ttl: int, cap: nat, kept: set<string>)
    requires Pruned(stamps, now, ttl, cap, kept)
    ensures |kept| <= cap
    ensures kept == Live(stamps, now, ttl) <==> |Live(stamps, now, ttl)| <= cap
  {
  }

  lemma SubsetSize(a: set<string>, b: set<string>)
    requires a <= b
    ensures |a| <= |b|
  {
    assert b == a + (b - a);
  }
}
