/** What a hygiene run promises, for lists whose ids are distinct. */
module HygieneProperties {
  import opened Prelude
  import opened Hygiene
  import opened Text

  ghost predicate NoRepeats(s: seq<string>) {
    forall i, j :: 0 <= i < j < |s| ==> s[i] != s[j]
  }

  lemma IdDetermines(items: seq<Item>, a: Item, b: Item)
    requires DistinctIds(items) && a in items && b in items && a.id == b.id
    ensures a == b
  {
  }

  // ---- One group ----

  lemma SnocDistinct(s: seq<Item>, m: Item)
    requires DistinctIds(s) && forall x :: x in s ==> x.id != m.id
    ensures DistinctIds(s + [m])
  {
    var t := s + [m];
    forall i, j | 0 <= i < j < |t| ensures t[i].id != t[j].id {
      assert t[i] in s;
    }
  }

  lemma {:induction false} InsertDistinct(s: seq<Item>, m: Item)
    requires DistinctIds(s) && forall x :: x in s ==> x.id != m.id
    ensures DistinctIds(Insert(s, m))
    ensures forall x :: x in Insert(s, m) <==> x in s || x == m
  {
    if s != [] && Precedes(m, s[|s| - 1]) {
      var front, last := s[..|s| - 1], s[|s| - 1];
      assert s == front + [last];
      InsertDistinct(front, m);
      SnocDistinct(Insert(front, m), last);
    } else {
      SnocDistinct(s, m);
    }
  }

  lemma {:induction false} SortedDistinct(s: seq<Item>)
    requires DistinctIds(s)
    ensures DistinctIds(ByPriority(s))
  {
    if s != [] {
      var front, last := s[..|s| - 1], s[|s| - 1];
      SortedDistinct(front);
      forall x | x in ByPriority(front) ensures x.id != last.id {
        SortedMembers(front, x);
      }
      InsertDistinct(ByPriority(front), last);
    }
  }

  lemma {:induction false} GroupDistinct(items: seq<Item>, key: string)
    requires DistinctIds(items)
    ensures DistinctIds(GroupOf(items, key))
  {
    if items != [] {
      var front, last := items[..|items| - 1], items[|items| - 1];
      GroupDistinct(front, key);
      forall x | x in GroupOf(front, key) ensures x.id != last.id {
        GroupMembers(front, key, x);
      }
    }
  }

  lemma {:induction false} ChosenMembers(sorted: seq<Item>, keep: string, id: string)
    ensures id in Chosen(sorted, keep) <==> exists m :: m in sorted && m.id == id && id != keep && !Protected(m)
  {
    if sorted != [] {
      var front, last := sorted[..|sorted| - 1], sorted[|sorted| - 1];
      ChosenMembers(front, keep, id);
      assert sorted == front + [last];
      assert forall m :: m in sorted <==> m in front || m == last;
    }
  }

  lemma {:induction false} ChosenDistinct(sorted: seq<Item>, keep: string)
    requires DistinctIds(sorted)
    ensures NoRepeats(Chosen(sorted, keep))
  {
    if sorted != [] {
      var front, last := sorted[..|sorted| - 1], sorted[|sorted| - 1];
      ChosenDistinct(front, keep);
      ChosenMembers(front, keep, last.id);
    }
  }

  /** Every member of a sorted group is chosen, skipped as protected, or the one kept. */
  lemma {:induction false} ChosenAndSkipped(sorted: seq<Item>, keep: Item)
    requires DistinctIds(sorted)
    ensures |Chosen(sorted, keep.id)| + SkippedIn(sorted, keep.id)
      == |sorted| - (if exists m :: m in sorted && m.id == keep.id then 1 else 0)
  {
    if sorted != [] {
      var front, last := sorted[..|sorted| - 1], sorted[|sorted| - 1];
      ChosenAndSkipped(front, keep);
      assert sorted == front + [last];
      assert forall m :: m in sorted <==> m in front || m == last;
    }
  }

  lemma GroupAddsUp(group: seq<Item>)
    requires DistinctIds(group)
    ensures |ChosenIn(group)| + SkippedInGroup(group) == if |group| < 2 then 0 else |group| - 1
    ensures NoRepeats(ChosenIn(group))
  {
    if |group| >= 2 {
      PrioritySorts(group);
      SortedDistinct(group);
      ChosenAndSkipped(ByPriority(group), ByPriority(group)[0]);
      ChosenDistinct(ByPriority(group), ByPriority(group)[0].id);
    }
  }

  /** The member of a group that the duplicate pass keeps. */
  function Keeper(items: seq<Item>, key: string): Item
    requires GroupOf(items, key) != []
  {
    PrioritySorted(GroupOf(items, key));
    ByPriority(GroupOf(items, key))[0]
  }

  lemma ChosenInIff(items: seq<Item>, key: string, m: Item)
    requires DistinctIds(items) && m in items && KeyOf(m) == Some(key)
    ensures GroupOf(items, key) != []
    ensures m.id in ChosenIn(GroupOf(items, key)) <==> !Protected(m) && Keeper(items, key) != m
  {
    var group := GroupOf(items, key);
    GroupMembers(items, key, m);
    PrioritySorts(group);
    var keep := Keeper(items, key);
    SortedMembers(group, keep);
    SortedMembers(group, m);
    GroupDistinct(items, key);
    if |group| >= 2 {
      ChosenMembers(ByPriority(group), keep.id, m.id);
      forall x | x in ByPriority(group) && x.id == m.id ensures x == m {
        SortedMembers(group, x);
        IdDetermines(group, x, m);
      }
      if keep.id == m.id { IdDetermines(group, keep, m); }
    }
  }

  lemma ChosenComesFromGroup(items: seq<Item>, key: string, id: string) returns (m: Item)
    requires id in ChosenIn(GroupOf(items, key))
    ensures m in items && KeyOf(m) == Some(key) && m.id == id
  {
    var group := GroupOf(items, key);
    ChosenMembers(ByPriority(group), ByPriority(group)[0].id, id);
    m :| m in ByPriority(group) && m.id == id;
    SortedMembers(group, m);
    GroupMembers(items, key, m);
  }

  // ---- The duplicate pass ----

  ghost predicate TakenBySome(items: seq<Item>, keys: seq<string>, id: string) {
    exists k :: k in keys && id in ChosenIn(GroupOf(items, k))
  }

  lemma TakenNext(items: seq<Item>, keys: seq<string>, id: string)
    requires keys != []
    ensures TakenBySome(items, keys, id) <==>
      TakenBySome(items, keys[..|keys| - 1], id) || id in ChosenIn(GroupOf(items, keys[|keys| - 1]))
  {
    forall k ensures k in keys <==> k in keys[..|keys| - 1] || k == keys[|keys| - 1] { InFrontOrLast(keys, k); }
  }

  lemma {:induction false} CandidatesIff(items: seq<Item>, keys: seq<string>, id: string)
    ensures id in Candidates(items, keys) <==> TakenBySome(items, keys, id)
  {
    if keys != [] {
      var front, last := keys[..|keys| - 1], keys[|keys| - 1];
      CandidatesIff(items, front, id);
      TakenNext(items, keys, id);
    }
  }

  lemma {:induction false} UniqueMembers(ids: seq<string>, id: string)
    ensures id in Unique(ids) <==> id in ids
  {
    if ids != [] {
      UniqueMembers(ids[..|ids| - 1], id);
      InFrontOrLast(ids, id);
    }
  }

  lemma {:induction false} UniqueOfDistinct(ids: seq<string>)
    requires NoRepeats(ids)
    ensures Unique(ids) == ids
  {
    if ids != [] {
      var front, last := ids[..|ids| - 1], ids[|ids| - 1];
      UniqueOfDistinct(front);
      assert ids == front + [last];
    }
  }

  lemma AppendDistinct(a: seq<string>, b: seq<string>)
    requires NoRepeats(a) && NoRepeats(b) && forall x :: x in a ==> x !in b
    ensures NoRepeats(a + b)
  {
    var c := a + b;
    forall i, j | 0 <= i < j < |c| ensures c[i] != c[j] {
      if i < |a| <= j { assert a[i] in a && b[j - |a|] in b; }
    }
  }

  lemma {:induction false} CandidatesDistinct(items: seq<Item>, keys: seq<string>)
    requires DistinctIds(items) && NoRepeats(keys)
    ensures NoRepeats(Candidates(items, keys))
  {
    if keys != [] {
      var front, last := keys[..|keys| - 1], keys[|keys| - 1];
      CandidatesDistinct(items, front);
      GroupDistinct(items, last);
      GroupAddsUp(GroupOf(items, last));
      forall id | id in Candidates(items, front) ensures id !in ChosenIn(GroupOf(items, last)) {
        CandidatesIff(items, front, id);
        var k :| k in front && id in ChosenIn(GroupOf(items, k));
        var a := ChosenComesFromGroup(items, k, id);
        if id in ChosenIn(GroupOf(items, last)) {
          var b := ChosenComesFromGroup(items, last, id);
          IdDetermines(items, a, b);
        }
      }
      AppendDistinct(Candidates(items, front), ChosenIn(GroupOf(items, last)));
    }
  }

  lemma DuplicatesAreCandidates(items: seq<Item>)
    requires DistinctIds(items)
    ensures Duplicates(items) == Candidates(items, Keys(items)) && NoRepeats(Duplicates(items))
  {
    KeysAreDistinct(items);
    CandidatesDistinct(items, Keys(items));
    UniqueOfDistinct(Candidates(items, Keys(items)));
  }

  /** Exactly the unprotected members of a group other than the one it keeps are taken as duplicates. */
  lemma DuplicateIff(items: seq<Item>, m: Item)
    requires DistinctIds(items) && m in items
    ensures KeyOf(m).None? ==> m.id !in Duplicates(items)
    ensures KeyOf(m).Some? ==> (
      && GroupOf(items, KeyOf(m).value) != []
      && (m.id in Duplicates(items) <==> !Protected(m) && Keeper(items, KeyOf(m).value) != m))
  {
    DuplicatesAreCandidates(items);
    KeysAreDistinct(items);
    CandidatesIff(items, Keys(items), m.id);
    forall k | m.id in ChosenIn(GroupOf(items, k)) ensures KeyOf(m) == Some(k) {
      var x := ChosenComesFromGroup(items, k, m.id);
      IdDetermines(items, x, m);
    }
    if KeyOf(m).Some? {
      GroupMembers(items, KeyOf(m).value, m);
      ChosenInIff(items, KeyOf(m).value, m);
    }
  }

  /** The kept member belongs to the group and is not taken; no member of the group has a higher quality,
      and none of the same quality was created later. */
  lemma GroupKeepsItsBest(items: seq<Item>, key: string)
    requires DistinctIds(items) && GroupOf(items, key) != []
    ensures var keep := Keeper(items, key);
      && keep in items && KeyOf(keep) == Some(key) && keep.id !in Duplicates(items)
      && forall m :: m in items && KeyOf(m) == Some(key) ==>
        && Quality(m) <= Quality(keep)
        && (Quality(m) == Quality(keep) ==> CreatedOrZero(m) <= CreatedOrZero(keep))
  {
    var group, keep := GroupOf(items, key), Keeper(items, key);
    PrioritySorts(group);
    SortedMembers(group, keep);
    GroupMembers(items, key, keep);
    DuplicateIff(items, keep);
    forall m | m in items && KeyOf(m) == Some(key) ensures !Precedes(m, keep) {
      GroupMembers(items, key, m);
      SortedMembers(group, m);
      FirstIsBest(ByPriority(group), m);
    }
  }

  lemma {:induction false} HeadOfInsert(sorted: seq<Item>, m: Item)
    requires sorted != [] && Ordered(sorted)
    ensures Insert(sorted, m)[0] == if Precedes(m, sorted[0]) then m else sorted[0]
  {
    var front, last := sorted[..|sorted| - 1], sorted[|sorted| - 1];
    if |sorted| > 1 {
      PriorityIsTotal(m, last, sorted[0]);
      if Precedes(m, last) { HeadOfInsert(front, m); InsertMembers(front, m); }
    }
  }

  lemma KeeperNext(items: seq<Item>, m: Item, key: string)
    requires GroupOf(items, key) != [] && KeyOf(m) == Some(key)
    ensures GroupOf(items + [m], key) != []
    ensures Keeper(items + [m], key) == if Precedes(m, Keeper(items, key)) then m else Keeper(items, key)
  {
    var group := GroupOf(items, key);
    GroupNext(items, m, key);
    DropLast(group, m);
    PrioritySorts(group);
    HeadOfInsert(ByPriority(group), m);
  }

  lemma KeeperIsBest(items: seq<Item>, key: string, m: Item)
    requires m in items && KeyOf(m) == Some(key)
    ensures GroupOf(items, key) != [] && !Precedes(m, Keeper(items, key))
  {
    GroupMembers(items, key, m);
    PrioritySorts(GroupOf(items, key));
    SortedMembers(GroupOf(items, key), m);
    FirstIsBest(ByPriority(GroupOf(items, key)), m);
  }

  /** `keep` is at `j`, and every member of the group before it has a lower quality or was created earlier. */
  ghost predicate FirstBest(items: seq<Item>, key: string, keep: Item, j: nat) {
    && j < |items| && items[j] == keep
    && forall i :: 0 <= i < j && KeyOf(items[i]) == Some(key) ==>
      || Quality(items[i]) < Quality(keep)
      || (Quality(items[i]) == Quality(keep) && CreatedOrZero(items[i]) < CreatedOrZero(keep))
  }

  lemma FirstBestStays(items: seq<Item>, last: Item, key: string, keep: Item, j: nat)
    requires FirstBest(items, key, keep, j)
    ensures FirstBest(items + [last], key, keep, j)
  {
    assert forall i :: 0 <= i <= j ==> (items + [last])[i] == items[i];
  }

  lemma FirstBestAtEnd(items: seq<Item>, last: Item, key: string)
    requires forall x :: x in items && KeyOf(x) == Some(key) ==> Precedes(last, x)
    ensures FirstBest(items + [last], key, last, |items|)
  {
    assert forall i :: 0 <= i < |items| ==> (items + [last])[i] == items[i] && items[i] in items;
  }

  lemma KeeperApart(items: seq<Item>, last: Item, key: string)
    requires KeyOf(last) != Some(key) && GroupOf(items + [last], key) != []
    ensures GroupOf(items, key) != [] && Keeper(items + [last], key) == Keeper(items, key)
  {
    GroupNext(items, last, key);
    assert GroupOf(items, key) + [] == GroupOf(items, key);
  }

  lemma KeeperAlone(items: seq<Item>, last: Item, key: string)
    requires KeyOf(last) == Some(key) && GroupOf(items, key) == []
    ensures GroupOf(items + [last], key) == [last] && Keeper(items + [last], key) == last
    ensures FirstBest(items + [last], key, last, |items|)
  {
    GroupNext(items, last, key);
    OnlyOneKept(last);
    forall x | x in items ensures KeyOf(x) != Some(key) { GroupMembers(items, key, x); }
    FirstBestAtEnd(items, last, key);
  }

  lemma NewKeeper(items: seq<Item>, last: Item, key: string)
    requires KeyOf(last) == Some(key) && GroupOf(items, key) != [] && Precedes(last, Keeper(items, key))
    ensures FirstBest(items + [last], key, last, |items|)
  {
    forall x | x in items && KeyOf(x) == Some(key) ensures Precedes(last, x) { KeeperIsBest(items, key, x); }
    FirstBestAtEnd(items, last, key);
  }

  /** What one more item changes. */
  lemma KeeperWith(items: seq<Item>, last: Item, key: string, j: nat) returns (j': nat)
    requires GroupOf(items + [last], key) != []
    requires GroupOf(items, key) != [] ==> FirstBest(items, key, Keeper(items, key), j)
    ensures FirstBest(items + [last], key, Keeper(items + [last], key), j')
  {
    if KeyOf(last) != Some(key) {
      j' := j;
      KeeperApart(items, last, key);
      FirstBestStays(items, last, key, Keeper(items, key), j);
    } else if GroupOf(items, key) == [] {
      j' := |items|;
      KeeperAlone(items, last, key);
    } else {
      KeeperNext(items, last, key);
      if Precedes(last, Keeper(items, key)) {
        j' := |items|;
        NewKeeper(items, last, key);
      } else {
        j' := j;
        FirstBestStays(items, last, key, Keeper(items, key), j);
      }
    }
  }

  /** Among equals the earliest in the list is kept: the kept one is better than every member before it. */
  lemma {:induction false} KeeperIsFirst(items: seq<Item>, key: string) returns (j: nat)
    requires GroupOf(items, key) != []
    ensures FirstBest(items, key, Keeper(items, key), j)
  {
    var front, last := items[..|items| - 1], items[|items| - 1];
    j := 0;
    if GroupOf(front, key) != [] { j := KeeperIsFirst(front, key); }
    FrontAndLast(items);
    j := KeeperWith(front, last, key, j);
  }

  lemma FrontAndLast(items: seq<Item>)
    requires items != []
    ensures items[..|items| - 1] + [items[|items| - 1]] == items
  {
  }

  lemma OnlyOneKept(m: Item)
    ensures ByPriority([m]) == [m]
  {
    assert [m][..0] == [];
    assert Insert([], m) == [m];
  }

  /** What confidence and feedback say of an item. */
  function Score(m: Item): real {
    (if m.confidence.Some? then m.confidence.value else 0.0) + (if m.feedback.Some? then m.feedback.value else 0.0)
  }

  /** Where these stay below 5 in size a protected member is kept before any other, and among members none
      of which is protected one of the highest score is kept. */
  lemma ProtectedIsKept(items: seq<Item>, key: string, m: Item)
    requires DistinctIds(items) && m in items && KeyOf(m) == Some(key)
    requires forall x :: x in items ==> -5.0 < Score(x) < 5.0
    ensures GroupOf(items, key) != []
    ensures Protected(m) ==> Protected(Keeper(items, key))
    ensures !Protected(Keeper(items, key)) ==> Score(m) <= Score(Keeper(items, key))
  {
    KeeperIsBest(items, key, m);
    GroupKeepsItsBest(items, key);
    assert Keeper(items, key) in items;
  }

  lemma FirstIsBest(sorted: seq<Item>, m: Item)
    requires Ordered(sorted) && m in sorted
    ensures !Precedes(m, sorted[0])
  {
    var i :| 0 <= i < |sorted| && sorted[i] == m;
  }

  lemma {:induction false} CandidatesAddUp(items: seq<Item>, keys: seq<string>)
    requires DistinctIds(items)
    ensures Surplus(items, keys) == |Candidates(items, keys)| + Skipped(items, keys)
  {
    if keys != [] {
      CandidatesAddUp(items, keys[..|keys| - 1]);
      GroupDistinct(items, keys[|keys| - 1]);
      GroupAddsUp(GroupOf(items, keys[|keys| - 1]));
    }
  }

  /** `duplicatesFound` is the duplicates taken plus the protected ones skipped. */
  lemma DuplicatesAddUp(items: seq<Item>)
    requires DistinctIds(items)
    ensures Surplus(items, Keys(items)) == |Duplicates(items)| + Skipped(items, Keys(items))
  {
    DuplicatesAreCandidates(items);
    CandidatesAddUp(items, Keys(items));
  }

  /** How many items have a text to compare, that is, belong to a group. */
  function Keyed(items: seq<Item>): nat {
    if items == [] then 0
    else Keyed(items[..|items| - 1]) + if KeyOf(items[|items| - 1]).Some? then 1 else 0
  }

  /** One more item adds one to the surplus of its group, unless it founds it. */
  lemma {:induction false} SurplusNext(items: seq<Item>, m: Item, keys: seq<string>)
    requires NoRepeats(keys)
    ensures Surplus(items + [m], keys) == Surplus(items, keys) +
      if KeyOf(m).Some? && KeyOf(m).value in keys && GroupOf(items, KeyOf(m).value) != [] then 1 else 0
  {
    if keys != [] {
      var front, last := keys[..|keys| - 1], keys[|keys| - 1];
      SurplusNext(items, m, front);
      GroupNext(items, m, last);
      if KeyOf(m).Some? { InFrontOrLast(keys, KeyOf(m).value); }
    }
  }

  lemma SurplusOfNewKey(items: seq<Item>, keys: seq<string>, k: string)
    requires |GroupOf(items, k)| <= 1
    ensures Surplus(items, keys + [k]) == Surplus(items, keys)
  {
    DropLast(keys, k);
  }

  /** `duplicatesFound` is how many items belong to a group beyond one for each group. */
  lemma {:induction false} SurplusIs(items: seq<Item>)
    ensures Surplus(items, Keys(items)) + |Keys(items)| == Keyed(items)
  {
    if items != [] {
      var front, m := items[..|items| - 1], items[|items| - 1];
      FrontAndLast(items);
      SurplusIs(front);
      KeysAreDistinct(front);
      KeysNext(front, m);
      SurplusNext(front, m, Keys(front));
      if KeyOf(m).Some? && KeyOf(m).value !in Keys(front) {
        GroupNext(front, m, KeyOf(m).value);
        SurplusOfNewKey(items, Keys(front), KeyOf(m).value);
      }
    }
  }

  // ---- The stale pass and the batches ----

  lemma {:induction false} StaleMembers(items: seq<Item>, already: seq<string>, now: int, id: string)
    ensures id in StaleAmong(items, already, now) <==>
      exists m :: m in items && m.id == id && id !in already && !Protected(m) && IsStale(m, now)
  {
    if items != [] {
      var front, last := items[..|items| - 1], items[|items| - 1];
      StaleMembers(front, already, now, id);
      assert items == front + [last];
      assert forall m :: m in items <==> m in front || m == last;
    }
  }

  function Spared(items: seq<Item>, already: seq<string>): set<Item> {
    set m | m in items && Protected(m) && m.id !in already
  }

  lemma SparedNext(items: seq<Item>, already: seq<string>)
    requires items != []
    ensures var last := items[|items| - 1];
      Spared(items, already) ==
        Spared(items[..|items| - 1], already) + (if last.id !in already && Protected(last) then {last} else {})
  {
    forall m ensures m in items <==> m in items[..|items| - 1] || m == items[|items| - 1] { InFrontOrLast(items, m); }
  }

  /** The stale pass counts each protected item that is not taken already, once. */
  lemma {:induction false} StaleSkippedIs(items: seq<Item>, already: seq<string>)
    requires DistinctIds(items)
    ensures StaleSkipped(items, already) == |Spared(items, already)|
  {
    if items != [] {
      StaleSkippedIs(items[..|items| - 1], already);
      SparedNext(items, already);
      assert items[|items| - 1] !in Spared(items[..|items| - 1], already);
    }
  }

  lemma {:induction false} StaleDistinct(items: seq<Item>, already: seq<string>, now: int)
    requires DistinctIds(items)
    ensures NoRepeats(StaleAmong(items, already, now))
  {
    if items != [] {
      var front, last := items[..|items| - 1], items[|items| - 1];
      StaleDistinct(front, already, now);
      StaleMembers(front, already, now, last.id);
    }
  }

  lemma {:induction false} ExcludingMembers(ids: seq<string>, batch: seq<string>, id: string)
    ensures id in Excluding(ids, batch) <==> id in ids && id !in batch
  {
    if ids != [] {
      ExcludingMembers(ids[..|ids| - 1], batch, id);
      InFrontOrLast(ids, id);
    }
  }

  lemma {:induction false} ExcludingNone(ids: seq<string>, batch: seq<string>)
    requires forall id :: id in ids ==> id !in batch
    ensures Excluding(ids, batch) == ids
  {
    if ids != [] {
      var front := ids[..|ids| - 1];
      ExcludingNone(front, batch);
      assert ids == front + [ids[|ids| - 1]];
    }
  }

  /** The stale batch is the first of the stale memories: the filter before it finds nothing to drop. */
  lemma StaleBatchIs(items: seq<Item>, now: int)
    ensures StaleBatch(items, now) == Batch(Unique(StaleAmong(items, Duplicates(items), now)))
  {
    var stale := Unique(StaleAmong(items, Duplicates(items), now));
    forall id | id in stale ensures id !in DuplicateBatch(items) {
      UniqueMembers(StaleAmong(items, Duplicates(items), now), id);
      StaleMembers(items, Duplicates(items), now, id);
    }
    ExcludingNone(stale, DuplicateBatch(items));
  }

  /** For any list at all: the batches are disjoint, of at most 60 ids each, and the first of the duplicates
      and of the stale memories, of which they leave out none below that. */
  lemma BatchesAreBounded(items: seq<Item>, now: int)
    ensures |DuplicateBatch(items)| <= 60 && |StaleBatch(items, now)| <= 60
    ensures forall id :: id in DuplicateBatch(items) ==> id !in StaleBatch(items, now)
    ensures DuplicateBatch(items) <= Duplicates(items)
    ensures |DuplicateBatch(items)| == 60 || DuplicateBatch(items) == Duplicates(items)
    ensures StaleBatch(items, now) <= Unique(StaleAmong(items, Duplicates(items), now))
    ensures |StaleBatch(items, now)| == 60 ||
            StaleBatch(items, now) == Unique(StaleAmong(items, Duplicates(items), now))
  {
    StaleBatchIs(items, now);
    var stale := Unique(StaleAmong(items, Duplicates(items), now));
    forall id | id in StaleBatch(items, now) ensures id !in DuplicateBatch(items) {
      ExcludingMembers(stale, DuplicateBatch(items), id);
    }
  }

  /** No protected memory is ever deleted, and every stale deletion is of a stale memory that is no
      duplicate. */
  lemma ProtectedIsSafe(items: seq<Item>, now: int, m: Item)
    requires DistinctIds(items) && m in items
    ensures Protected(m) ==> m.id !in DuplicateBatch(items) && m.id !in StaleBatch(items, now)
    ensures m.id in StaleBatch(items, now) ==> IsStale(m, now) && m.id !in Duplicates(items)
  {
    DuplicateIff(items, m);
    StaleBatchIs(items, now);
    UniqueMembers(StaleAmong(items, Duplicates(items), now), m.id);
    StaleMembers(items, Duplicates(items), now, m.id);
    forall x | x in items && x.id == m.id ensures x == m {
      IdDetermines(items, x, m);
    }
  }

  /** Below the caps, a run takes exactly the stale, unprotected memories that are not duplicates, and
      `staleFound` counts them. */
  lemma StaleIff(items: seq<Item>, now: int, m: Item)
    requires DistinctIds(items) && m in items
    requires |StaleAmong(items, Duplicates(items), now)| <= MAX_DELETE_BATCH
    ensures m.id in StaleBatch(items, now) <==> m.id !in Duplicates(items) && !Protected(m) && IsStale(m, now)
    ensures |StaleBatch(items, now)| == |StaleAmong(items, Duplicates(items), now)|
  {
    StaleBatchIs(items, now);
    StaleDistinct(items, Duplicates(items), now);
    UniqueOfDistinct(StaleAmong(items, Duplicates(items), now));
    StaleMembers(items, Duplicates(items), now, m.id);
    forall x | x in items && x.id == m.id ensures x == m {
      IdDetermines(items, x, m);
    }
  }

  /** A memory without a date is not stale.  Otherwise it is from 120 days after its last use, never before 45
      days, and in between if it has a confidence of at most 0.25 and no positive feedback.  The last use is the
      last access, or the creation if there is none. */
  lemma StaleByAge(m: Item, now: int)
    ensures m.accessed.None? && m.created.None? ==> !IsStale(m, now)
    ensures var used := if m.accessed.Some? then m.accessed else m.created;
      used.Some? && used.value != 0 ==>
        && (now - used.value < 3_888_000_000 ==> !IsStale(m, now))
        && (now - used.value >= 10_368_000_000 ==> IsStale(m, now))
        && (3_888_000_000 <= now - used.value < 10_368_000_000 ==>
          (IsStale(m, now) <==>
            m.confidence.Some? && m.confidence.value <= 0.25 && (m.feedback.Some? ==> m.feedback.value <= 0.0)))
  {
  }

  // ---- Normalised texts ----

  lemma {:induction false} CollapsedHas(s: string, c: char)
    requires c in Collapse(s)
    ensures c in s || c == ' '
  {
    if !IsSpace(s[0]) && c == s[0] { return; }
    if c in Collapse(s[1..]) {
      CollapsedHas(s[1..], c);
      assert c in s[1..] ==> c in s;
    }
  }

  lemma {:induction false} LoweredHas(s: string, c: char)
    requires c in Lowered(s)
    ensures !('A' <= c <= 'Z')
  {
    if c != Lower(s[0]) { LoweredHas(s[1..], c); }
  }

  lemma {:induction false} KeptWordsHave(s: string, c: char)
    requires c in KeepWords(s)
    ensures c in s && Kept(c)
  {
    if !(Kept(s[0]) && c == s[0]) { KeptWordsHave(s[1..], c); }
  }

  function NonSpaces(s: string): string {
    if s == [] then [] else (if IsSpace(s[0]) then [] else [s[0]]) + NonSpaces(s[1..])
  }

  lemma {:induction false} CollapseStart(s: string)
    requires s != []
    ensures Collapse(s) != [] && IsSpace(Collapse(s)[0]) == IsSpace(s[0])
  {
    if IsSpace(s[0]) && |s| > 1 && IsSpace(s[1]) { CollapseStart(s[1..]); }
  }

  /** Each run of white space becomes one blank, and nothing else changes. */
  lemma {:induction false} CollapsedShape(s: string)
    ensures NonSpaces(Collapse(s)) == NonSpaces(s)
    ensures forall i :: 0 <= i < |Collapse(s)| && IsSpace(Collapse(s)[i]) ==>
      Collapse(s)[i] == ' ' && (i + 1 < |Collapse(s)| ==> !IsSpace(Collapse(s)[i + 1]))
  {
    if s != [] {
      CollapsedShape(s[1..]);
      var rest := Collapse(s[1..]);
      if |s| > 1 { CollapseStart(s[1..]); }
      if !IsSpace(s[0]) {
        CollapsedCons(s[0], rest);
      } else if |s| == 1 || !IsSpace(s[1]) {
        CollapsedCons(' ', rest);
      }
    }
  }

  lemma CollapsedCons(c: char, rest: string)
    requires IsSpace(c) ==> c == ' ' && (rest != [] ==> !IsSpace(rest[0]))
    requires forall i :: 0 <= i < |rest| && IsSpace(rest[i]) ==>
      rest[i] == ' ' && (i + 1 < |rest| ==> !IsSpace(rest[i + 1]))
    ensures var r := [c] + rest;
      && NonSpaces(r) == (if IsSpace(c) then [] else [c]) + NonSpaces(rest)
      && forall i :: 0 <= i < |r| && IsSpace(r[i]) ==> r[i] == ' ' && (i + 1 < |r| ==> !IsSpace(r[i + 1]))
  {
    var r := [c] + rest;
    assert r[1..] == rest;
    forall i | 0 <= i < |r| && IsSpace(r[i]) ensures r[i] == ' ' && (i + 1 < |r| ==> !IsSpace(r[i + 1])) {
      if i > 0 { assert r[i] == rest[i - 1]; }
    }
  }

  lemma {:induction false} LoweredTwice(s: string)
    ensures Lowered(Lowered(s)) == Lowered(s)
  {
    if s != [] {
      LoweredTwice(s[1..]);
      assert Lowered(s)[1..] == Lowered(s[1..]);
    }
  }

  /** Two texts that differ in the case of letters only are duplicates of each other; a normalised text holds
      lower-case letters, digits, white space and `_`, `.`, `-` only, starts with none of the white space, and
      is the whole of the trimmed words or their first 220 characters. */
  lemma NormalizedShape(content: string, c: char)
    ensures NormalizeText(Lowered(content)) == NormalizeText(content)
    ensures c in NormalizeText(content) ==> 'a' <= c <= 'z' || '0' <= c <= '9' || c in {'_', '.', '-'} || IsSpace(c)
    ensures NormalizeText(content) != "" ==> !IsSpace(NormalizeText(content)[0])
    ensures var t := Trim(KeepWords(Collapse(Lowered(content))));
      NormalizeText(content) == if |t| <= 220 then t else t[..220]
  {
    LoweredTwice(content);
    var words := KeepWords(Collapse(Lowered(content)));
    TrimIsTrimmed(words);
    if c in NormalizeText(content) {
      var before, after := TrimDecomposes(words);
      assert c in words;
      KeptWordsHave(Collapse(Lowered(content)), c);
      CollapsedHas(Lowered(content), c);
      if c in Lowered(content) { LoweredHas(content, c); }
    }
  }
}
