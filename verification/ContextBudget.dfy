/** Assembling session context within a token budget. */
module ContextBudget {
  import opened Prelude

  // ---- Tokens ----

  /** About four characters a token, rounded up. */
  function EstimateTokens(text: string): nat {
    (|text| + 3) / 4
  }

  /** Rounded up: `n` tokens cover the text, and no fewer do. */
  lemma EstimateRoundsUp(text: string, n: nat)
    ensures |text| <= 4 * n <==> EstimateTokens(text) <= n
  {
  }

  datatype Source = Viking | Memory

  datatype ContextItem = ContextItem(source: Source, uri: Option<string>, content: string, score: Option<real>)

  function Tokens(items: seq<ContextItem>): nat {
    if items == [] then 0
    else Tokens(items[..|items| - 1]) + EstimateTokens(items[|items| - 1].content)
  }

  lemma {:induction false} TokensConcat(a: seq<ContextItem>, b: seq<ContextItem>)
    ensures Tokens(a + b) == Tokens(a) + Tokens(b)
  {
    if b == [] {
      assert a + b == a;
    } else {
      TokensConcat(a, b[..|b| - 1]);
      assert (a + b)[..|a + b| - 1] == a + b[..|b| - 1];
    }
  }

  // ---- Fitting ----

  /** An item goes in if it fits beside those already in. */
  function Fitted(items: seq<ContextItem>, budget: int): seq<ContextItem> {
    if items == [] then []
    else
      var before, last := Fitted(items[..|items| - 1], budget), items[|items| - 1];
      if Tokens(before) + EstimateTokens(last.content) > budget then before else before + [last]
  }

  /** `fitItemsInBudget`: without a budget nothing goes in, not even an empty item. */
  function FitItems(items: seq<ContextItem>, budget: int): seq<ContextItem> {
    if budget <= 0 then [] else Fitted(items, budget)
  }

  method FitItemsInBudget(items: seq<ContextItem>, budget: int) returns (result: seq<ContextItem>)
    ensures result == FitItems(items, budget)
    ensures result == [] || Tokens(result) <= budget
  {
    result := [];
    if budget <= 0 { return; }
    var used := 0;
    for i := 0 to |items|
      invariant result == Fitted(items[..i], budget)
      invariant used == Tokens(result) <= budget
    {
      assert items[..i + 1][..i] == items[..i];
      var tokens := EstimateTokens(items[i].content);
      if used + tokens > budget { continue; }
      ghost var was := result;
      result := result + [items[i]];
      assert result[..|was|] == was;
      used := used + tokens;
    }
    assert items[..|items|] == items;
  }

  ghost predicate Increasing(taken: seq<nat>, n: nat) {
    && (forall j :: 0 <= j < |taken| ==> taken[j] < n)
    && (forall j, k :: 0 <= j < k < |taken| ==> taken[j] < taken[k])
  }

  ghost predicate Picks(items: seq<ContextItem>, taken: seq<nat>, r: seq<ContextItem>) {
    && Increasing(taken, |items|) && |r| == |taken|
    && forall j :: 0 <= j < |r| ==> r[j] == items[taken[j]]
  }

  /** Every item that is not picked is too big for what the picked ones leave of the budget. */
  ghost predicate NothingElseFits(items: seq<ContextItem>, taken: seq<nat>, r: seq<ContextItem>, budget: int) {
    forall i: nat :: i < |items| && i !in taken ==> Tokens(r) + EstimateTokens(items[i].content) > budget
  }

  lemma TokensSnoc(r: seq<ContextItem>, m: ContextItem)
    ensures Tokens(r + [m]) == Tokens(r) + EstimateTokens(m.content)
  {
    assert (r + [m])[..|r|] == r;
  }

  lemma TakeLast(front: seq<ContextItem>, last: ContextItem, taken: seq<nat>, r: seq<ContextItem>, budget: nat)
    requires Picks(front, taken, r) && NothingElseFits(front, taken, r, budget)
    ensures Picks(front + [last], taken + [|front|], r + [last])
    ensures NothingElseFits(front + [last], taken + [|front|], r + [last], budget)
  {
    PicksLast(front, last, taken, r);
    TokensSnoc(r, last);
    forall i: nat | i < |front + [last]| && i !in taken + [|front|]
      ensures Tokens(r + [last]) + EstimateTokens((front + [last])[i].content) > budget
    {
      assert i !in taken && (taken + [|front|])[|taken|] == |front|;
      assert (front + [last])[i] == front[i];
    }
  }

  lemma PicksLast(front: seq<ContextItem>, last: ContextItem, taken: seq<nat>, r: seq<ContextItem>)
    requires Picks(front, taken, r)
    ensures Picks(front + [last], taken + [|front|], r + [last])
  {
    var taken' := taken + [|front|];
    forall j | 0 <= j < |taken| ensures taken'[j] == taken[j] < |front| {}
    forall j | 0 <= j < |r| ensures (r + [last])[j] == (front + [last])[taken'[j]] {
      assert r[j] == front[taken[j]];
    }
  }

  lemma SkipLast(front: seq<ContextItem>, last: ContextItem, taken: seq<nat>, r: seq<ContextItem>, budget: nat)
    requires Picks(front, taken, r) && NothingElseFits(front, taken, r, budget)
    requires Tokens(r) + EstimateTokens(last.content) > budget
    ensures Picks(front + [last], taken, r) && NothingElseFits(front + [last], taken, r, budget)
  {
  }

  lemma {:induction false} FittedPicks(items: seq<ContextItem>, budget: nat) returns (taken: seq<nat>)
    ensures Picks(items, taken, Fitted(items, budget))
    ensures Tokens(Fitted(items, budget)) <= budget
    ensures NothingElseFits(items, taken, Fitted(items, budget), budget)
  {
    taken := [];
    if items != [] {
      var front, last := items[..|items| - 1], items[|items| - 1];
      var was := Fitted(front, budget);
      taken := FittedPicks(front, budget);
      assert items == front + [last];
      if Tokens(was) + EstimateTokens(last.content) <= budget {
        TakeLast(front, last, taken, was, budget);
        TokensSnoc(was, last);
        taken := taken + [|front|];
      } else {
        SkipLast(front, last, taken, was, budget);
      }
    }
  }

  /** What goes in is an in-order selection within the budget, and nothing left out would still fit,
      except that a budget of exactly zero leaves out items without any text. */
  lemma FitIsMaximalIff(items: seq<ContextItem>, budget: int) returns (taken: seq<nat>)
    ensures Picks(items, taken, FitItems(items, budget))
    ensures Tokens(FitItems(items, budget)) <= if budget > 0 then budget else 0
    ensures NothingElseFits(items, taken, FitItems(items, budget), budget)
      <==> !(budget == 0 && exists m :: m in items && m.content == "")
  {
    if budget > 0 {
      taken := FittedPicks(items, budget);
    } else {
      taken := [];
      if budget == 0 {
        if m :| m in items && m.content == "" {
          var i: nat :| i < |items| && items[i] == m;
          assert i !in taken && Tokens([]) + EstimateTokens(items[i].content) == 0;
        } else {
          forall i: nat | i < |items| ensures EstimateTokens(items[i].content) > 0 {
            assert items[i] in items;
          }
        }
      }
    }
  }

  // ---- Allocation ----

  datatype BudgetAllocation = BudgetAllocation(semanticMemory: int, proceduralMemory: int, episodicMemory: int,
                                               vikingResources: int, vikingMemories: int)

  /** The floor of a percentage. */
  function Share(total: int, percent: int): int {
    total * percent / 100
  }

  function CalculateRecommendedBudgets(total: int, vikingAvailable: bool): BudgetAllocation {
    if vikingAvailable
    then BudgetAllocation(Share(total, 25), Share(total, 20), Share(total, 15), Share(total, 25), Share(total, 15))
    else BudgetAllocation(Share(total, 40), Share(total, 35), Share(total, 25), Share(total, 0), Share(total, 0))
  }

  function MemoryShare(b: BudgetAllocation): int {
    b.semanticMemory + b.proceduralMemory + b.episodicMemory
  }

  /** `share` tokens are at most `percent` percent of the total, and one more would be too many. */
  predicate LargestWithin(share: int, total: int, percent: int) {
    100 * share <= percent * total < 100 * (share + 1)
  }

  /** Each allocation is the largest within its percentage; together they never exceed the total, and
      rounding loses fewer than five tokens of it. */
  lemma AllocationsAddUp(total: int, vikingAvailable: bool)
    ensures var b := CalculateRecommendedBudgets(total, vikingAvailable);
      && LargestWithin(b.semanticMemory, total, if vikingAvailable then 25 else 40)
      && LargestWithin(b.proceduralMemory, total, if vikingAvailable then 20 else 35)
      && LargestWithin(b.episodicMemory, total, if vikingAvailable then 15 else 25)
      && LargestWithin(b.vikingResources, total, if vikingAvailable then 25 else 0)
      && LargestWithin(b.vikingMemories, total, if vikingAvailable then 15 else 0)
    ensures var b := CalculateRecommendedBudgets(total, vikingAvailable);
      && total - 5 < MemoryShare(b) + b.vikingResources + b.vikingMemories <= total
      && (total >= 0 ==> MemoryShare(b) >= 0 && b.vikingResources >= 0 && b.vikingMemories >= 0)
      && (total < 0 ==> MemoryShare(b) < 0 && b.vikingResources <= 0 && b.vikingMemories <= 0)
  {
  }

  // ---- Assembly ----

  datatype Entry = Entry(uri: string, abstract_: Option<string>, score: Option<real>)

  /** A field of the parsed response: missing, of the wrong shape, or a list. */
  datatype Field = Missing | Malformed | Entries(entries: seq<Entry>)

  /** The search request: it throws, reports an error, cannot be parsed, or answers. */
  datatype VikingOutcome = Throws | ReportsError | Unparsable | Answers(resources: Field, memories: Field)

  datatype Hit = Hit(content: string, score: Option<real>)

  datatype MemoryOutcome = NoSearch | SearchFails | Finds(hits: seq<Hit>)

  function Abstract(e: Entry): string {
    if e.abstract_.Some? then e.abstract_.value else ""
  }

  function FromEntry(e: Entry): ContextItem {
    ContextItem(Viking, Some(e.uri), Abstract(e), e.score)
  }

  function FromHit(h: Hit): ContextItem {
    ContextItem(Memory, None, h.content, h.score)
  }

  function FromEntries(es: seq<Entry>): (r: seq<ContextItem>) {
    seq(|es|, i requires 0 <= i < |es| => FromEntry(es[i]))
  }

  function FromHits(hs: seq<Hit>): (r: seq<ContextItem>) {
    seq(|hs|, i requires 0 <= i < |hs| => FromHit(hs[i]))
  }

  /** What each source offers.  A malformed field throws: what follows it is lost, what was collected
      before it stays. */
  function Resources(v: VikingOutcome): seq<ContextItem> {
    if v.Answers? && v.resources.Entries? then FromEntries(v.resources.entries) else []
  }

  function Memories(v: VikingOutcome): seq<ContextItem> {
    if v.Answers? && !v.resources.Malformed? && v.memories.Entries? then FromEntries(v.memories.entries) else []
  }

  function Hits(m: MemoryOutcome): seq<ContextItem> {
    if m.Finds? then FromHits(m.hits) else []
  }

  lemma NothingFits(budget: int)
    ensures FitItems([], budget) == []
  {
  }

  method AssembleContext(totalBudget: int, vikingAvailable: bool, viking: VikingOutcome, memory: MemoryOutcome)
    returns (items: seq<ContextItem>, budget: BudgetAllocation, totalTokens: nat)
    ensures budget == CalculateRecommendedBudgets(totalBudget, vikingAvailable)
    ensures totalTokens == Tokens(items)
    ensures totalTokens <= if totalBudget >= 0 then totalBudget else 0
    ensures items == Assembled(budget, vikingAvailable, viking, memory)
  {
    budget := CalculateRecommendedBudgets(totalBudget, vikingAvailable);
    items := [];
    NothingFits(budget.vikingResources);
    NothingFits(budget.vikingMemories);
    NothingFits(MemoryShare(budget));
    if vikingAvailable {
      items := CollectViking(budget, viking);
    }
    if memory.Finds? {
      var fitted := FitItemsInBudget(FromHits(memory.hits), MemoryShare(budget));
      items := items + fitted;
    }
    totalTokens := Tokens(items);
    assert items == Assembled(budget, vikingAvailable, viking, memory);
    WithinBudget(totalBudget, vikingAvailable, viking, memory);
  }

  method CollectViking(budget: BudgetAllocation, viking: VikingOutcome) returns (items: seq<ContextItem>)
    ensures items ==
      FitItems(Resources(viking), budget.vikingResources) + FitItems(Memories(viking), budget.vikingMemories)
  {
    items := [];
    NothingFits(budget.vikingResources);
    NothingFits(budget.vikingMemories);
    if !viking.Answers? || viking.resources.Malformed? {
      assert Resources(viking) == [] && Memories(viking) == [];
      return;
    }
    var fitted := FitItemsInBudget(Resources(viking), budget.vikingResources);
    items := items + fitted;
    if viking.memories.Malformed? {
      assert Memories(viking) == [];
      return;
    }
    fitted := FitItemsInBudget(Memories(viking), budget.vikingMemories);
    items := items + fitted;
  }

  function VikingPart(b: BudgetAllocation, vikingAvailable: bool, v: VikingOutcome): seq<ContextItem> {
    if vikingAvailable then FitItems(Resources(v), b.vikingResources) + FitItems(Memories(v), b.vikingMemories) else []
  }

  function Assembled(b: BudgetAllocation, vikingAvailable: bool, v: VikingOutcome, m: MemoryOutcome): seq<ContextItem> {
    VikingPart(b, vikingAvailable, v) + FitItems(Hits(m), MemoryShare(b))
  }

  /** Whatever the searches return, and whichever fail, the context stays within the total budget. */
  lemma WithinBudget(total: int, vikingAvailable: bool, v: VikingOutcome, m: MemoryOutcome)
    ensures var b := CalculateRecommendedBudgets(total, vikingAvailable);
      Tokens(Assembled(b, vikingAvailable, v, m)) <= if total >= 0 then total else 0
  {
    var b := CalculateRecommendedBudgets(total, vikingAvailable);
    AllocationsAddUp(total, vikingAvailable);
    TokensConcat(VikingPart(b, vikingAvailable, v), FitItems(Hits(m), MemoryShare(b)));
    TokensConcat(FitItems(Resources(v), b.vikingResources), FitItems(Memories(v), b.vikingMemories));
    var _ := FitIsMaximalIff(Hits(m), MemoryShare(b));
    var _ := FitIsMaximalIff(Resources(v), b.vikingResources);
    var _ := FitIsMaximalIff(Memories(v), b.vikingMemories);
  }

  /** An in-order selection from what the source offers, within its allocation, which leaves out
      nothing that would still fit (but for empty texts when the allocation is zero). */
  ghost predicate FittedFrom(offered: seq<ContextItem>, taken: seq<nat>, r: seq<ContextItem>, allocation: int) {
    && Picks(offered, taken, r)
    && Tokens(r) <= allocation
    && (allocation > 0 ==> NothingElseFits(offered, taken, r, allocation))
  }

  lemma FitsFrom(offered: seq<ContextItem>, allocation: int) returns (taken: seq<nat>)
    requires allocation >= 0
    ensures FittedFrom(offered, taken, FitItems(offered, allocation), allocation)
  {
    taken := FitIsMaximalIff(offered, allocation);
  }

  /** The same, told from the entries of the response: `r[j]` holds uri, abstract and score of the entry
      `taken[j]`, a missing abstract being empty. */
  ghost predicate EntriesFitted(es: seq<Entry>, taken: seq<nat>, r: seq<ContextItem>, allocation: int) {
    && Increasing(taken, |es|) && |r| == |taken|
    && (forall j :: 0 <= j < |r| ==>
      var e := es[taken[j]]; r[j] == ContextItem(Viking, Some(e.uri), Abstract(e), e.score))
    && Tokens(r) <= allocation
    && (allocation > 0 ==>
      forall i: nat :: i < |es| && i !in taken ==> Tokens(r) + EstimateTokens(Abstract(es[i])) > allocation)
  }

  ghost predicate HitsFitted(hs: seq<Hit>, taken: seq<nat>, r: seq<ContextItem>, allocation: int) {
    && Increasing(taken, |hs|) && |r| == |taken|
    && (forall j :: 0 <= j < |r| ==>
      r[j] == ContextItem(Memory, None, hs[taken[j]].content, hs[taken[j]].score))
    && Tokens(r) <= allocation
    && (allocation > 0 ==>
      forall i: nat :: i < |hs| && i !in taken ==> Tokens(r) + EstimateTokens(hs[i].content) > allocation)
  }

  lemma EntriesFit(es: seq<Entry>, allocation: int) returns (taken: seq<nat>)
    requires allocation >= 0
    ensures EntriesFitted(es, taken, FitItems(FromEntries(es), allocation), allocation)
  {
    taken := FitsFrom(FromEntries(es), allocation);
    assert forall i :: 0 <= i < |es| ==> FromEntries(es)[i].content == Abstract(es[i]);
  }

  lemma HitsFit(hs: seq<Hit>, allocation: int) returns (taken: seq<nat>)
    requires allocation >= 0
    ensures HitsFitted(hs, taken, FitItems(FromHits(hs), allocation), allocation)
  {
    taken := FitsFrom(FromHits(hs), allocation);
    assert forall i :: 0 <= i < |hs| ==> FromHits(hs)[i].content == hs[i].content;
  }

  /** The context is the three sources' parts in order, each fitted from its own source to its own allocation.
      A source that fails offers nothing, and neither do the memories of a response whose resources are
      malformed. */
  lemma EachSourceIsFitted(total: int, vikingAvailable: bool, v: VikingOutcome, m: MemoryOutcome)
    returns (r: seq<ContextItem>, s: seq<ContextItem>, h: seq<ContextItem>,
             fromResources: seq<nat>, fromMemories: seq<nat>, fromHits: seq<nat>)
    requires total >= 0
    ensures var b := CalculateRecommendedBudgets(total, vikingAvailable);
      && Assembled(b, vikingAvailable, v, m) == r + s + h
      && (if v.Answers? && v.resources.Entries?
          then EntriesFitted(v.resources.entries, fromResources, r, b.vikingResources) else r == [])
      && (if v.Answers? && !v.resources.Malformed? && v.memories.Entries?
          then EntriesFitted(v.memories.entries, fromMemories, s, b.vikingMemories) else s == [])
      && (if m.Finds?
          then HitsFitted(m.hits, fromHits, h, b.semanticMemory + b.proceduralMemory + b.episodicMemory) else h == [])
      && (!vikingAvailable ==> r == s == [])
  {
    var b := CalculateRecommendedBudgets(total, vikingAvailable);
    AllocationsAddUp(total, vikingAvailable);
    fromResources, fromMemories, fromHits := [], [], [];
    r, s, h := FitItems(Resources(v), b.vikingResources), FitItems(Memories(v), b.vikingMemories),
               FitItems(Hits(m), MemoryShare(b));
    if v.Answers? && v.resources.Entries? { fromResources := EntriesFit(v.resources.entries, b.vikingResources); }
    if v.Answers? && v.memories.Entries? { fromMemories := EntriesFit(v.memories.entries, b.vikingMemories); }
    if m.Finds? { fromHits := HitsFit(m.hits, MemoryShare(b)); }
  }
}
