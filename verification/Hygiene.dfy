/** Automated memory hygiene: near-duplicates and stale memories are picked for deletion, in two
    batches, without touching protected memories. */
module Hygiene {
  import opened Prelude
  import opened Text

  /** Metadata values of the wrong type count as absent; `created` and `accessed` are the parsed dates,
      in milliseconds, absent when unparsable. */
  datatype Item = Item(id: string, content: string, category: Option<string>, pinned: bool, immutable: bool,
                       confidence: Option<real>, feedback: Option<real>, created: Option<int>, accessed: Option<int>)

  predicate Protected(m: Item) { m.pinned || m.immutable }

  function Quality(m: Item): real {
    (if m.pinned then 10.0 else 0.0) + (if m.immutable then 10.0 else 0.0)
    + (if m.confidence.Some? then m.confidence.value else 0.0)
    + (if m.feedback.Some? then m.feedback.value else 0.0)
  }

  function CreatedOrZero(m: Item): int {
    if m.created.Some? then m.created.value else 0
  }

  /** `compareMemoryPriority(a, b) < 0`. */
  predicate Precedes(a: Item, b: Item) {
    Quality(a) > Quality(b) || (Quality(a) == Quality(b) && CreatedOrZero(a) > CreatedOrZero(b))
  }

  // ---- Normalised text and group keys ----

  function Lowered(s: string): string {
    if s == [] then [] else [Lower(s[0])] + Lowered(s[1..])
  }

  /** `replace(/\s+/g, ' ')`. */
  function Collapse(s: string): string {
    if s == [] then []
    else if !IsSpace(s[0]) then [s[0]] + Collapse(s[1..])
    else if |s| > 1 && IsSpace(s[1]) then Collapse(s[1..])
    else [' '] + Collapse(s[1..])
  }

  predicate Kept(c: char) {
    'a' <= c <= 'z' || 'A' <= c <= 'Z' || '0' <= c <= '9' || c == '_' || c == '.' || c == '-' || IsSpace(c)
  }

  function KeepWords(s: string): (r: string)
    ensures ':' !in r
  {
    if s == [] then [] else (if Kept(s[0]) then [s[0]] else []) + KeepWords(s[1..])
  }

  const MAX_NORMALIZED := 220

  function NormalizeText(content: string): (r: string)
    ensures |r| <= MAX_NORMALIZED && ':' !in r
  {
    var words := KeepWords(Collapse(Lowered(content)));
    var t := Trim(words);
    assert ':' !in t by {
      var before, after := TrimDecomposes(words);
      assert forall c :: c in t ==> c in words;
    }
    if |t| > MAX_NORMALIZED then t[..MAX_NORMALIZED] else t
  }

  function Category(m: Item): string {
    if m.category.Some? then m.category.value else "unknown"
  }

  /** The key of an item's group; an item whose text normalises to nothing has none. */
  function KeyOf(m: Item): Option<string> {
    var n := NormalizeText(m.content);
    if n == "" then None else Some(Category(m) + "::" + n)
  }

  /** Grouping by the joined key groups by category and normalised text: the text has no colon. */
  lemma SameKeyIff(a: Item, b: Item)
    requires KeyOf(a).Some? && KeyOf(b).Some?
    ensures KeyOf(a) == KeyOf(b) <==> Category(a) == Category(b) && NormalizeText(a.content) == NormalizeText(b.content)
  {
    var ca, na, cb, nb := Category(a), NormalizeText(a.content), Category(b), NormalizeText(b.content);
    var ka, kb := ca + "::" + na, cb + "::" + nb;
    if ka == kb {
      LastColon(ca, na);
      LastColon(cb, nb);
      assert ka[|ca| + 2..] == na && kb[|cb| + 2..] == nb;
      assert ka[..|ca|] == ca && kb[..|cb|] == cb;
    }
  }

  lemma LastColon(c: string, n: string)
    requires ':' !in n
    ensures var k := c + "::" + n; k[|c| + 1] == ':' && forall i :: |c| + 2 <= i < |k| ==> k[i] != ':'
  {
    var k := c + "::" + n;
    forall i | |c| + 2 <= i < |k| ensures k[i] != ':' {
      assert k[i] == n[i - |c| - 2];
    }
  }

  // ---- Groups ----

  /** The group of `key`, in list order. */
  function GroupOf(items: seq<Item>, key: string): seq<Item> {
    if items == [] then []
    else
      var last := items[|items| - 1];
      GroupOf(items[..|items| - 1], key) + (if KeyOf(last) == Some(key) then [last] else [])
  }

  /** The keys in order of first appearance. */
  function Keys(items: seq<Item>): seq<string> {
    if items == [] then []
    else
      var front, key := Keys(items[..|items| - 1]), KeyOf(items[|items| - 1]);
      if key.Some? && key.value !in front then front + [key.value] else front
  }

  lemma {:induction false} GroupMembers(items: seq<Item>, key: string, m: Item)
    ensures m in GroupOf(items, key) <==> m in items && KeyOf(m) == Some(key)
  {
    if items != [] {
      GroupMembers(items[..|items| - 1], key, m);
      InFrontOrLast(items, m);
    }
  }

  lemma {:induction false} KeysAreDistinct(items: seq<Item>)
    ensures forall i, j :: 0 <= i < j < |Keys(items)| ==> Keys(items)[i] != Keys(items)[j]
    ensures forall k :: k in Keys(items) <==> GroupOf(items, k) != []
  {
    if items != [] { KeysAreDistinct(items[..|items| - 1]); }
  }

  // ---- Order of priority ----

  /** Where a stable sort puts `m` among items sorted before it came. */
  function Insert(sorted: seq<Item>, m: Item): seq<Item> {
    if sorted != [] && Precedes(m, sorted[|sorted| - 1])
    then Insert(sorted[..|sorted| - 1], m) + [sorted[|sorted| - 1]]
    else sorted + [m]
  }

  /** `[...group].sort(compareMemoryPriority)`; the sort is stable. */
  function ByPriority(group: seq<Item>): seq<Item> {
    if group == [] then [] else Insert(ByPriority(group[..|group| - 1]), group[|group| - 1])
  }

  ghost predicate Ordered(s: seq<Item>) {
    forall i, j :: 0 <= i < j < |s| ==> !Precedes(s[j], s[i])
  }

  ghost predicate DistinctIds(s: seq<Item>) {
    forall i, j :: 0 <= i < j < |s| ==> s[i].id != s[j].id
  }

  function Ids(s: seq<Item>): set<string> {
    set m | m in s :: m.id
  }

  lemma PriorityIsTotal(a: Item, b: Item, c: Item)
    ensures Precedes(a, b) ==> !Precedes(b, a)
    ensures !Precedes(a, b) && !Precedes(b, c) ==> !Precedes(a, c)
  {
  }

  lemma SnocOrdered(s: seq<Item>, m: Item)
    requires Ordered(s) && forall x :: x in s ==> !Precedes(m, x)
    ensures Ordered(s + [m])
  {
    var t := s + [m];
    forall i, j | 0 <= i < j < |t| ensures !Precedes(t[j], t[i]) {
      assert t[i] in s;
    }
  }

  lemma {:induction false} InsertMembers(s: seq<Item>, m: Item)
    ensures multiset(Insert(s, m)) == multiset(s) + multiset{m} && |Insert(s, m)| == |s| + 1
    ensures forall x :: x in Insert(s, m) <==> x in s || x == m
  {
    if s != [] && Precedes(m, s[|s| - 1]) {
      InsertMembers(s[..|s| - 1], m);
      assert s == s[..|s| - 1] + [s[|s| - 1]];
    }
  }

  lemma {:induction false} InsertSorts(s: seq<Item>, m: Item)
    requires Ordered(s)
    ensures Ordered(Insert(s, m))
  {
    if s == [] { return; }
    var front, last := s[..|s| - 1], s[|s| - 1];
    forall x | x in front ensures !Precedes(last, x) {
      var i :| 0 <= i < |front| && front[i] == x;
    }
    if Precedes(m, last) {
      InsertSorts(front, m);
      InsertMembers(front, m);
      PriorityIsTotal(m, last, last);
      SnocOrdered(Insert(front, m), last);
    } else {
      forall x | x in s ensures !Precedes(m, x) {
        assert x in front || x == last;
        PriorityIsTotal(m, last, x);
      }
      SnocOrdered(s, m);
    }
  }

  lemma SnocMultiset(s: seq<Item>)
    requires s != []
    ensures multiset(s) == multiset(s[..|s| - 1]) + multiset{s[|s| - 1]}
  {
    assert s == s[..|s| - 1] + [s[|s| - 1]];
  }

  lemma {:induction false} PrioritySorts(s: seq<Item>)
    ensures Ordered(ByPriority(s)) && multiset(ByPriority(s)) == multiset(s)
    ensures |ByPriority(s)| == |s|
  {
    if s != [] {
      PrioritySorts(s[..|s| - 1]);
      InsertSorts(ByPriority(s[..|s| - 1]), s[|s| - 1]);
      InsertMembers(ByPriority(s[..|s| - 1]), s[|s| - 1]);
      SnocMultiset(s);
    }
  }

  lemma SortedMembers(s: seq<Item>, m: Item)
    ensures m in ByPriority(s) <==> m in s
  {
    PrioritySorts(s);
    assert m in multiset(s) <==> m in s;
    assert m in multiset(ByPriority(s)) <==> m in ByPriority(s);
  }

  // ---- The duplicate pass ----

  /** The ids the pass takes from a group of two or more, sorted, of which it keeps `keep`. */
  function Chosen(sorted: seq<Item>, keep: string): seq<string> {
    if sorted == [] then []
    else
      var last := sorted[|sorted| - 1];
      Chosen(sorted[..|sorted| - 1], keep) + (if last.id != keep && !Protected(last) then [last.id] else [])
  }

  /** How many protected members the pass skips in such a group. */
  function SkippedIn(sorted: seq<Item>, keep: string): nat {
    if sorted == [] then 0
    else
      var last := sorted[|sorted| - 1];
      SkippedIn(sorted[..|sorted| - 1], keep) + (if last.id != keep && Protected(last) then 1 else 0)
  }

  function ChosenIn(group: seq<Item>): seq<string> {
    if |group| < 2 then [] else PrioritySorted(group); Chosen(ByPriority(group), ByPriority(group)[0].id)
  }

  lemma PrioritySorted(group: seq<Item>)
    ensures |ByPriority(group)| == |group|
  {
    PrioritySorts(group);
  }

  function SkippedInGroup(group: seq<Item>): nat {
    if |group| < 2 then 0 else PrioritySorted(group); SkippedIn(ByPriority(group), ByPriority(group)[0].id)
  }

  function Candidates(items: seq<Item>, keys: seq<string>): seq<string> {
    if keys == [] then []
    else Candidates(items, keys[..|keys| - 1]) + ChosenIn(GroupOf(items, keys[|keys| - 1]))
  }

  function Skipped(items: seq<Item>, keys: seq<string>): nat {
    if keys == [] then 0
    else Skipped(items, keys[..|keys| - 1]) + SkippedInGroup(GroupOf(items, keys[|keys| - 1]))
  }

  /** All members of the groups beyond the first of each. */
  function Surplus(items: seq<Item>, keys: seq<string>): nat {
    if keys == [] then 0
    else Surplus(items, keys[..|keys| - 1]) + SurplusIn(GroupOf(items, keys[|keys| - 1]))
  }

  /** `[...new Set(ids)]`. */
  function Unique(ids: seq<string>): seq<string> {
    if ids == [] then []
    else
      var front, last := Unique(ids[..|ids| - 1]), ids[|ids| - 1];
      if last in front then front else front + [last]
  }

  function Duplicates(items: seq<Item>): seq<string> {
    Unique(Candidates(items, Keys(items)))
  }

  class HygieneReport {
    var scanned: nat
    var duplicatesFound: nat
    var staleFound: nat
    var deletedDuplicates: nat
    var deletedStale: nat
    var skippedProtected: nat
    var errors: nat

    constructor ()
      ensures scanned == duplicatesFound == staleFound == deletedDuplicates == deletedStale == 0
      ensures skippedProtected == errors == 0
    {
      scanned, duplicatesFound, staleFound, deletedDuplicates, deletedStale := 0, 0, 0, 0, 0;
      skippedProtected, errors := 0, 0;
    }
  }

  /** The map holds the groups of `items`, under their keys. */
  ghost predicate Grouped(items: seq<Item>, keys: seq<string>, grouped: map<string, seq<Item>>) {
    && keys == Keys(items)
    && (forall k :: k in grouped <==> k in keys)
    && forall k :: GroupOf(items, k) == if k in grouped then grouped[k] else []
  }

  lemma GroupNext(before: seq<Item>, item: Item, k: string)
    ensures GroupOf(before + [item], k) == GroupOf(before, k) + (if KeyOf(item) == Some(k) then [item] else [])
  {
    DropLast(before, item);
  }

  lemma KeysNext(before: seq<Item>, item: Item)
    ensures Keys(before + [item]) == Keys(before)
      + (if KeyOf(item).Some? && KeyOf(item).value !in Keys(before) then [KeyOf(item).value] else [])
  {
    DropLast(before, item);
  }

  function AddKey(keys: seq<string>, key: Option<string>): seq<string> {
    keys + (if key.Some? && key.value !in keys then [key.value] else [])
  }

  function AddTo(grouped: map<string, seq<Item>>, key: Option<string>, item: Item): map<string, seq<Item>> {
    if key.None? then grouped
    else grouped[key.value := (if key.value in grouped then grouped[key.value] else []) + [item]]
  }

  /** Adding an item to the group of its key, if it has one. */
  lemma GroupedSnoc(before: seq<Item>, item: Item, keys: seq<string>, grouped: map<string, seq<Item>>)
    requires Grouped(before, keys, grouped)
    ensures Grouped(before + [item], AddKey(keys, KeyOf(item)), AddTo(grouped, KeyOf(item), item))
  {
    var grouped' := AddTo(grouped, KeyOf(item), item);
    KeysNext(before, item);
    forall k ensures GroupOf(before + [item], k) == if k in grouped' then grouped'[k] else [] {
      GroupNext(before, item, k);
      assert GroupOf(before, k) == if k in grouped then grouped[k] else [];
    }
  }

  lemma GroupedNext(items: seq<Item>, i: nat, keys: seq<string>, grouped: map<string, seq<Item>>)
    requires i < |items| && Grouped(items[..i], keys, grouped)
    ensures Grouped(items[..i + 1], AddKey(keys, KeyOf(items[i])), AddTo(grouped, KeyOf(items[i]), items[i]))
  {
    GroupedSnoc(items[..i], items[i], keys, grouped);
    TakeNext(items, i);
  }

  method GroupItems(items: seq<Item>) returns (keys: seq<string>, grouped: map<string, seq<Item>>)
    ensures Grouped(items, keys, grouped)
  {
    keys, grouped := [], map[];
    for i := 0 to |items|
      invariant Grouped(items[..i], keys, grouped)
    {
      var item := items[i];
      var key := KeyOf(item);
      GroupedNext(items, i, keys, grouped);
      if key.Some? {
        if key.value !in grouped { keys := keys + [key.value]; }
        var list := if key.value in grouped then grouped[key.value] else [];
        grouped := grouped[key.value := list + [item]];
      }
    }
    TakeAll(items);
  }

  method CollectFromGroup(sorted: seq<Item>, toDelete: seq<string>, report: HygieneReport) returns (r: seq<string>)
    requires |sorted| >= 2
    modifies report`skippedProtected
    ensures r == toDelete + Chosen(sorted, sorted[0].id)
    ensures report.skippedProtected == old(report.skippedProtected) + SkippedIn(sorted, sorted[0].id)
  {
    r := toDelete;
    var keep := sorted[0];
    for i := 0 to |sorted|
      invariant r == toDelete + Chosen(sorted[..i], keep.id)
      invariant report.skippedProtected == old(report.skippedProtected) + SkippedIn(sorted[..i], keep.id)
    {
      TakeFront(sorted, i);
      var candidate := sorted[i];
      if candidate.id == keep.id { continue; }
      if Protected(candidate) {
        report.skippedProtected := report.skippedProtected + 1;
        continue;
      }
      r := r + [candidate.id];
    }
    TakeAll(sorted);
  }

  method UniqueIds(ids: seq<string>) returns (r: seq<string>)
    ensures r == Unique(ids)
  {
    r := [];
    for i := 0 to |ids|
      invariant r == Unique(ids[..i])
    {
      TakeFront(ids, i);
      if ids[i] !in r { r := r + [ids[i]]; }
    }
    TakeAll(ids);
  }

  method CollectDuplicateCandidates(items: seq<Item>, report: HygieneReport) returns (ids: seq<string>)
    modifies report`duplicatesFound, report`skippedProtected
    ensures ids == Duplicates(items)
    ensures report.duplicatesFound == old(report.duplicatesFound) + Surplus(items, Keys(items))
    ensures report.skippedProtected == old(report.skippedProtected) + Skipped(items, Keys(items))
  {
    var keys, grouped := GroupItems(items);
    var toDelete := [];
    for i := 0 to |keys|
      invariant toDelete == Candidates(items, keys[..i])
      invariant report.duplicatesFound == old(report.duplicatesFound) + Surplus(items, keys[..i])
      invariant report.skippedProtected == old(report.skippedProtected) + Skipped(items, keys[..i])
    {
      TakeFront(keys, i);
      toDelete := CollectOne(grouped[keys[i]], toDelete, report);
    }
    TakeAll(keys);
    ids := UniqueIds(toDelete);
  }

  function SurplusIn(group: seq<Item>): nat {
    if |group| < 2 then 0 else |group| - 1
  }

  /** The loop's body, for one group. */
  method CollectOne(group: seq<Item>, toDelete: seq<string>, report: HygieneReport) returns (r: seq<string>)
    modifies report`duplicatesFound, report`skippedProtected
    ensures r == toDelete + ChosenIn(group)
    ensures report.duplicatesFound == old(report.duplicatesFound) + SurplusIn(group)
    ensures report.skippedProtected == old(report.skippedProtected) + SkippedInGroup(group)
  {
    if |group| < 2 { return toDelete; }
    report.duplicatesFound := report.duplicatesFound + |group| - 1;
    PrioritySorted(group);
    r := CollectFromGroup(ByPriority(group), toDelete, report);
  }

  // ---- The stale pass ----

  const DAY := 24 * 60 * 60 * 1000

  predicate IsStale(m: Item, now: int) {
    var confidence := if m.confidence.Some? then m.confidence.value else 0.7;
    var feedback := if m.feedback.Some? then m.feedback.value else 0.0;
    var reference := if m.accessed.Some? then m.accessed else m.created;
    && reference.Some? && reference.value != 0
    && var age := now - reference.value;
       (age >= 45 * DAY && confidence <= 0.25 && feedback <= 0.0) || age >= 120 * DAY
  }

  function StaleAmong(items: seq<Item>, already: seq<string>, now: int): seq<string> {
    if items == [] then []
    else
      var last := items[|items| - 1];
      StaleAmong(items[..|items| - 1], already, now)
      + (if last.id !in already && !Protected(last) && IsStale(last, now) then [last.id] else [])
  }

  function StaleSkipped(items: seq<Item>, already: seq<string>): nat {
    if items == [] then 0
    else
      var last := items[|items| - 1];
      StaleSkipped(items[..|items| - 1], already) + (if last.id !in already && Protected(last) then 1 else 0)
  }

  method CollectStaleCandidates(items: seq<Item>, already: seq<string>, now: int, report: HygieneReport)
    returns (ids: seq<string>)
    modifies report`staleFound, report`skippedProtected
    ensures ids == Unique(StaleAmong(items, already, now))
    ensures report.staleFound == old(report.staleFound) + |StaleAmong(items, already, now)|
    ensures report.skippedProtected == old(report.skippedProtected) + StaleSkipped(items, already)
  {
    var toDelete := [];
    for i := 0 to |items|
      invariant toDelete == StaleAmong(items[..i], already, now)
      invariant report.staleFound == old(report.staleFound) + |toDelete|
      invariant report.skippedProtected == old(report.skippedProtected) + StaleSkipped(items[..i], already)
    {
      TakeFront(items, i);
      var item := items[i];
      if item.id in already { continue; }
      if Protected(item) {
        report.skippedProtected := report.skippedProtected + 1;
        continue;
      }
      if IsStale(item, now) {
        report.staleFound := report.staleFound + 1;
        toDelete := toDelete + [item.id];
      }
    }
    TakeAll(items);
    ids := UniqueIds(toDelete);
  }

  // ---- One run ----

  const MAX_DELETE_BATCH := 60

  /** `ids.slice(0, MAX_DELETE_BATCH)`. */
  function Batch(ids: seq<string>): seq<string> {
    if |ids| > MAX_DELETE_BATCH then ids[..MAX_DELETE_BATCH] else ids
  }

  function Excluding(ids: seq<string>, batch: seq<string>): seq<string> {
    if ids == [] then []
    else
      var last := ids[|ids| - 1];
      Excluding(ids[..|ids| - 1], batch) + (if last in batch then [] else [last])
  }

  method Filter(ids: seq<string>, batch: seq<string>) returns (r: seq<string>)
    ensures r == Excluding(ids, batch)
  {
    r := [];
    for i := 0 to |ids|
      invariant r == Excluding(ids[..i], batch)
    {
      TakeFront(ids, i);
      if ids[i] !in batch { r := r + [ids[i]]; }
    }
    TakeAll(ids);
  }

  function DuplicateBatch(items: seq<Item>): seq<string> {
    Batch(Duplicates(items))
  }

  function StaleBatch(items: seq<Item>, now: int): seq<string> {
    Batch(Excluding(Unique(StaleAmong(items, Duplicates(items), now)), DuplicateBatch(items)))
  }

  lemma EmptyListTakesNothing(now: int)
    ensures DuplicateBatch([]) == [] && StaleBatch([], now) == []
    ensures Surplus([], Keys([])) == Skipped([], Keys([])) == 0
    ensures StaleAmong([], Duplicates([]), now) == [] && StaleSkipped([], Duplicates([])) == 0
  {
    assert Keys([]) == [];
    assert Duplicates([]) == [];
  }

  /** The run, with the outcomes of its two delete requests. */
  method RunAutomatedHygiene(items: seq<Item>, now: int, duplicatesGone: bool, staleGone: bool)
    returns (report: HygieneReport, duplicateBatch: seq<string>, staleBatch: seq<string>)
    ensures fresh(report) && report.scanned == |items|
    ensures duplicateBatch == DuplicateBatch(items) && staleBatch == StaleBatch(items, now)
    ensures report.duplicatesFound == Surplus(items, Keys(items))
    ensures report.staleFound == |StaleAmong(items, Duplicates(items), now)|
    ensures report.skippedProtected == Skipped(items, Keys(items)) + StaleSkipped(items, Duplicates(items))
    ensures report.deletedDuplicates == if duplicatesGone then |duplicateBatch| else 0
    ensures report.deletedStale == if staleGone then |staleBatch| else 0
    ensures report.errors == Failures(duplicatesGone, duplicateBatch) + Failures(staleGone, staleBatch)
  {
    report := new HygieneReport();
    report.scanned := |items|;
    duplicateBatch, staleBatch := [], [];
    if |items| == 0 {
      EmptyListTakesNothing(now);
      assert items == [];
    } else {
      var duplicates, stale := CollectCandidates(items, now, report);
      duplicateBatch, staleBatch := DeleteBatches(duplicates, stale, duplicatesGone, staleGone, report);
    }
  }

  method CollectCandidates(items: seq<Item>, now: int, report: HygieneReport)
    returns (duplicates: seq<string>, stale: seq<string>)
    modifies report`duplicatesFound, report`staleFound, report`skippedProtected
    ensures duplicates == Duplicates(items) && stale == Unique(StaleAmong(items, duplicates, now))
    ensures report.duplicatesFound == old(report.duplicatesFound) + Surplus(items, Keys(items))
    ensures report.staleFound == old(report.staleFound) + |StaleAmong(items, duplicates, now)|
    ensures report.skippedProtected == old(report.skippedProtected) + Skipped(items, Keys(items))
      + StaleSkipped(items, duplicates)
  {
    duplicates := CollectDuplicateCandidates(items, report);
    stale := CollectStaleCandidates(items, duplicates, now, report);
  }

  method DeleteBatches(duplicates: seq<string>, stale: seq<string>, duplicatesGone: bool, staleGone: bool,
                       report: HygieneReport)
    returns (duplicateBatch: seq<string>, staleBatch: seq<string>)
    modifies report`deletedDuplicates, report`deletedStale, report`errors
    ensures duplicateBatch == Batch(duplicates) && staleBatch == Batch(Excluding(stale, Batch(duplicates)))
    ensures report.deletedDuplicates == if duplicatesGone then |duplicateBatch| else 0
    ensures report.deletedStale == if staleGone then |staleBatch| else 0
    ensures report.errors == old(report.errors) + Failures(duplicatesGone, duplicateBatch)
      + Failures(staleGone, staleBatch)
  {
    duplicateBatch := Batch(duplicates);
    report.deletedDuplicates := RequestDeletion(duplicateBatch, duplicatesGone, report);
    var rest := Filter(stale, duplicateBatch);
    staleBatch := Batch(rest);
    report.deletedStale := RequestDeletion(staleBatch, staleGone, report);
  }

  function Failures(gone: bool, batch: seq<string>): nat {
    if !gone && batch != [] then 1 else 0
  }

  /** One delete request; an empty batch sends none. */
  method RequestDeletion(batch: seq<string>, gone: bool, report: HygieneReport) returns (deleted: nat)
    modifies report`errors
    ensures deleted == if gone then |batch| else 0
    ensures report.errors == old(report.errors) + Failures(gone, batch)
  {
    deleted := 0;
    if |batch| > 0 {
      if gone {
        deleted := |batch|;
      } else {
        report.errors := report.errors + 1;
      }
    }
  }
}
