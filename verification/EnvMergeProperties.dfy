/** What merging an env file promises: unrelated lines stay, merging twice is merging once, and a
    reader of the result sees the updates. */
module EnvMergeProperties {
  import opened Prelude
  import opened Text
  import opened EnvQuoting
  import opened EnvFile
  import opened EnvMerge

  // ---- The result has the lines it was built from ----

  /** Nothing that is written brings a newline with it. */
  ghost predicate OneLiners(us: seq<Update>, header: string) {
    && (forall u :: u in us ==> NL !in u.key && NL !in Quote(u.value))
    && NL !in header
  }

  lemma {:induction false} LookupIn(us: seq<Update>, k: string)
    ensures Lookup(us, k).Some? ==> Update(k, Lookup(us, k).value) in us
  {
    if us != [] { LookupIn(us[1..], k); }
  }

  lemma {:induction false} LookupFinds(us: seq<Update>, u: Update)
    requires Distinct(us) && u in us
    ensures Lookup(us, u.key) == Some(u.value)
  {
    if us[0] != u {
      assert u in us[1..];
      LookupFinds(us[1..], u);
    }
  }

  lemma AssignmentOneLine(exported: bool, k: string, raw: string)
    requires NL !in k && NL !in raw
    ensures NL !in Assignment(exported, k, raw)
  {
    assert NL !in EXPORT;
  }

  lemma NewLineOneLine(line: string, p: Line, earlier: seq<Line>, us: seq<Update>, header: string)
    requires NL !in line && OneLiners(us, header)
    ensures NL !in NewLine(line, p, earlier, us)
  {
    if p.Sets? && Lookup(us, p.key).Some? {
      LookupIn(us, p.key);
      AssignmentOneLine(p.exported, p.key, Quote(Lookup(us, p.key).value));
    }
  }

  lemma {:induction false} UnmatchedSubset(us: seq<Update>, ps: seq<Line>, u: Update)
    ensures u in Unmatched(us, ps) <==> u in us && !Matches(ps, u.key)
  {
    if us != [] { UnmatchedSubset(us[1..], ps, u); }
  }

  lemma {:induction false} WrittenMembers(us: seq<Update>, l: string)
    ensures l in Written(us) <==> exists u :: u in us && l == Assignment(false, u.key, Quote(u.value))
  {
    if l in Written(us) {
      var i :| 0 <= i < |us| && Written(us)[i] == l;
      WrittenAt(us, i);
      assert us[i] in us;
    }
    if u: Update :| u in us && l == Assignment(false, u.key, Quote(u.value)) {
      var i :| 0 <= i < |us| && us[i] == u;
      WrittenAt(us, i);
    }
  }

  lemma AppendedLineIs(endsBlank: bool, us: seq<Update>, header: string, l: string)
    requires l in Appended(endsBlank, us, header)
    ensures l == "" || l == header || exists u :: u in us && l == Assignment(false, u.key, Quote(u.value))
  {
    if l != "" && l != header {
      assert l in Written(us);
      WrittenMembers(us, l);
    }
  }

  /** A line of the result is the old line at that place, possibly rewritten, or one of the appended. */
  lemma MergedLineIs(lines: seq<string>, ps: seq<Line>, us: seq<Update>, header: string, l: string)
    requires |ps| == |lines| && l in MergedLines(lines, ps, us, header)
    ensures
      || (exists i :: 0 <= i < |lines| && l == NewLine(lines[i], ps[i], ps[..i], us))
      || l == "" || l == header
      || (exists u :: u in us && l == Assignment(false, u.key, Quote(u.value)))
  {
    var kept, rest := NewLines(lines, ps, us), Unmatched(us, ps);
    if l in kept {
      var i :| 0 <= i < |kept| && kept[i] == l;
      NewLinesAt(lines, ps, us, i);
    } else {
      AppendedLineIs(EndsBlank(kept), rest, header, l);
      if u :| u in rest && l == Assignment(false, u.key, Quote(u.value)) {
        UnmatchedSubset(us, ps, u);
      }
    }
  }

  lemma MergedSplits(content: string, us: seq<Update>, uncomment: bool, header: string)
    requires OneLiners(us, header)
    ensures var lines := Split(content);
      Split(Merged(content, us, uncomment, header)) == MergedLines(lines, Parsed(lines, uncomment), us, header)
  {
    var lines := Split(content);
    var ps := Parsed(lines, uncomment);
    var merged := MergedLines(lines, ps, us, header);
    forall l | l in merged ensures NL !in l {
      MergedLineIs(lines, ps, us, header, l);
      if i :| 0 <= i < |lines| && l == NewLine(lines[i], ps[i], ps[..i], us) {
        NewLineOneLine(lines[i], ps[i], ps[..i], us, header);
      } else if u :| u in us && l == Assignment(false, u.key, Quote(u.value)) {
        AssignmentOneLine(false, u.key, Quote(u.value));
      }
    }
    SplitJoin(merged);
  }

  /** Every line that sets no updated key stays in its place; so does every later duplicate of one
      that does. */
  lemma UnrelatedLinesStay(content: string, us: seq<Update>, uncomment: bool, header: string, i: nat)
    requires OneLiners(us, header) && i < |Split(content)|
    requires var lines := Split(content);
      var p := Parse(lines[i], uncomment);
      p.Sets? && Lookup(us, p.key).Some? ==> Matches(Parsed(lines, uncomment)[..i], p.key)
    ensures |Split(Merged(content, us, uncomment, header))| >= |Split(content)|
    ensures Split(Merged(content, us, uncomment, header))[i] == Split(content)[i]
  {
    var lines := Split(content);
    MergedSplits(content, us, uncomment, header);
    ParsedAt(lines, uncomment, i);
    NewLinesAt(lines, Parsed(lines, uncomment), us, i);
  }

  // ---- Idempotence ----

  ghost predicate AllAddressable(us: seq<Update>, uncomment: bool) {
    forall u :: u in us ==> Addressable(u.key, uncomment)
  }

  /** A line that merging again leaves alone, wherever it stands. */
  ghost predicate Settled(line: string, us: seq<Update>, uncomment: bool) {
    var p := Parse(line, uncomment);
    p.Sets? && Lookup(us, p.key).Some? ==> line == Assignment(p.exported, p.key, Quote(Lookup(us, p.key).value))
  }

  lemma WrittenIsSettled(exported: bool, u: Update, us: seq<Update>, uncomment: bool)
    requires Distinct(us) && AllAddressable(us, uncomment) && u in us
    ensures Parse(Assignment(exported, u.key, Quote(u.value)), uncomment) == Sets(exported, u.key, Quote(u.value))
    ensures Settled(Assignment(exported, u.key, Quote(u.value)), us, uncomment)
  {
    QuoteIsTrimmed(u.value);
    AssignmentParses(exported, u.key, Quote(u.value), uncomment);
    LookupFinds(us, u);
  }

  lemma BlankIsOther(uncomment: bool)
    ensures Parse("", uncomment) == Other
  {
    assert Trim("") == "";
    assert IndexOf("", '=').None?;
  }

  /** Rewriting a line keeps its key. */
  lemma KeyKept(line: string, earlier: seq<Line>, us: seq<Update>, uncomment: bool)
    requires Distinct(us) && AllAddressable(us, uncomment)
    ensures var p := Parse(line, uncomment);
      var new_ := NewLine(line, p, earlier, us);
      && Parse(new_, uncomment).Sets? == p.Sets?
      && (p.Sets? ==> Parse(new_, uncomment).key == p.key)
      && (new_ != line || (p.Sets? && !Matches(earlier, p.key)) ==> Settled(new_, us, uncomment))
  {
    var p := Parse(line, uncomment);
    if p.Sets? && Lookup(us, p.key).Some? && !Matches(earlier, p.key) {
      LookupIn(us, p.key);
      WrittenIsSettled(p.exported, Update(p.key, Lookup(us, p.key).value), us, uncomment);
    }
  }

  lemma SameKeysMatch(ps: seq<Line>, qs: seq<Line>, k: string)
    requires |ps| == |qs|
    requires forall j :: 0 <= j < |ps| ==> (KeyIs(ps[j], k) <==> KeyIs(qs[j], k))
    ensures Matches(ps, k) <==> Matches(qs, k)
  {
    if p :| p in ps && KeyIs(p, k) {
      var j :| 0 <= j < |ps| && ps[j] == p;
      assert qs[j] in qs;
    }
    if q :| q in qs && KeyIs(q, k) {
      var j :| 0 <= j < |qs| && qs[j] == q;
      assert ps[j] in ps;
    }
  }

  lemma {:induction false} AllMatched(us: seq<Update>, ps: seq<Line>)
    requires forall u :: u in us ==> Matches(ps, u.key)
    ensures Unmatched(us, ps) == []
  {
    if us != [] { AllMatched(us[1..], ps); }
  }

  /** The header, if any, does not itself set an updated key. */
  ghost predicate InertHeader(header: string, us: seq<Update>, uncomment: bool) {
    var p := Parse(header, uncomment);
    p.Sets? ==> Lookup(us, p.key).None?
  }

  ghost predicate Repeatable(us: seq<Update>, uncomment: bool, header: string) {
    Distinct(us) && AllAddressable(us, uncomment) && InertHeader(header, us, uncomment)
  }

  lemma FrontKeys(lines: seq<string>, us: seq<Update>, uncomment: bool, header: string, i: nat)
    requires Repeatable(us, uncomment, header) && i < |lines|
    ensures var ps := Parsed(lines, uncomment);
      var merged := MergedLines(lines, ps, us, header);
      var qs := Parsed(merged, uncomment);
      && |qs| >= |ps|
      && (forall k :: KeyIs(ps[i], k) <==> KeyIs(qs[i], k))
      && qs[i] == Parse(merged[i], uncomment)
      && merged[i] == NewLine(lines[i], ps[i], ps[..i], us)
  {
    var ps := Parsed(lines, uncomment);
    var merged := MergedLines(lines, ps, us, header);
    ParsedAt(lines, uncomment, i);
    ParsedAt(merged, uncomment, i);
    NewLinesAt(lines, ps, us, i);
    KeyKept(lines[i], ps[..i], us, uncomment);
  }

  lemma MatchAt(qs: seq<Line>, i: nat, k: string)
    requires i < |qs| && KeyIs(qs[i], k)
    ensures Matches(qs, k)
  {
    assert qs[i] in qs;
  }

  lemma MatchedUpdateLands(lines: seq<string>, us: seq<Update>, uncomment: bool, header: string, k: string)
    requires Repeatable(us, uncomment, header) && Matches(Parsed(lines, uncomment), k)
    ensures Matches(Parsed(MergedLines(lines, Parsed(lines, uncomment), us, header), uncomment), k)
  {
    var ps := Parsed(lines, uncomment);
    var p :| p in ps && KeyIs(p, k);
    var i: nat :| i < |ps| && ps[i] == p;
    FrontKeys(lines, us, uncomment, header, i);
    MatchAt(Parsed(MergedLines(lines, ps, us, header), uncomment), i, k);
  }

  lemma AppendedUpdateLands(lines: seq<string>, us: seq<Update>, uncomment: bool, header: string, u: Update)
    requires Repeatable(us, uncomment, header) && u in us && !Matches(Parsed(lines, uncomment), u.key)
    ensures Matches(Parsed(MergedLines(lines, Parsed(lines, uncomment), us, header), uncomment), u.key)
  {
    var ps := Parsed(lines, uncomment);
    var merged := MergedLines(lines, ps, us, header);
    var rest, line := Unmatched(us, ps), Assignment(false, u.key, Quote(u.value));
    UnmatchedSubset(us, ps, u);
    WrittenMembers(rest, line);
    assert line in merged;
    var i: nat :| i < |merged| && merged[i] == line;
    ParsedAt(merged, uncomment, i);
    WrittenIsSettled(false, u, us, uncomment);
    MatchAt(Parsed(merged, uncomment), i, u.key);
  }

  lemma EveryUpdateLands(lines: seq<string>, us: seq<Update>, uncomment: bool, header: string, u: Update)
    requires Repeatable(us, uncomment, header) && u in us
    ensures Matches(Parsed(MergedLines(lines, Parsed(lines, uncomment), us, header), uncomment), u.key)
  {
    if Matches(Parsed(lines, uncomment), u.key) {
      MatchedUpdateLands(lines, us, uncomment, header, u.key);
    } else {
      AppendedUpdateLands(lines, us, uncomment, header, u);
    }
  }

  lemma MergedLineStays(lines: seq<string>, us: seq<Update>, uncomment: bool, header: string, i: nat)
    requires Repeatable(us, uncomment, header)
    requires i < |MergedLines(lines, Parsed(lines, uncomment), us, header)|
    ensures var merged := MergedLines(lines, Parsed(lines, uncomment), us, header);
      var qs := Parsed(merged, uncomment);
      NewLine(merged[i], qs[i], qs[..i], us) == merged[i]
  {
    var ps := Parsed(lines, uncomment);
    var merged := MergedLines(lines, ps, us, header);
    var qs := Parsed(merged, uncomment);
    ParsedAt(merged, uncomment, i);
    if i < |lines| {
      FrontKeys(lines, us, uncomment, header, i);
      ParsedAt(lines, uncomment, i);
      KeyKept(lines[i], ps[..i], us, uncomment);
      if qs[i].Sets? {
        var k := qs[i].key;
        forall j | 0 <= j < i ensures KeyIs(ps[..i][j], k) <==> KeyIs(qs[..i][j], k) {
          FrontKeys(lines, us, uncomment, header, j);
        }
        SameKeysMatch(ps[..i], qs[..i], k);
      }
    } else {
      AppendedIsSettled(lines, us, uncomment, header, i);
    }
  }

  lemma AppendedLineIsSettled(endsBlank: bool, ps: seq<Line>, us: seq<Update>, uncomment: bool, header: string,
                              l: string)
    requires Repeatable(us, uncomment, header) && l in Appended(endsBlank, Unmatched(us, ps), header)
    ensures Settled(l, us, uncomment)
  {
    AppendedLineIs(endsBlank, Unmatched(us, ps), header, l);
    if l == "" {
      BlankIsOther(uncomment);
    } else if l != header {
      var u :| u in Unmatched(us, ps) && l == Assignment(false, u.key, Quote(u.value));
      UnmatchedSubset(us, ps, u);
      WrittenIsSettled(false, u, us, uncomment);
    }
  }

  lemma AppendedIsSettled(lines: seq<string>, us: seq<Update>, uncomment: bool, header: string, i: nat)
    requires Repeatable(us, uncomment, header)
    requires |lines| <= i < |MergedLines(lines, Parsed(lines, uncomment), us, header)|
    ensures Settled(MergedLines(lines, Parsed(lines, uncomment), us, header)[i], us, uncomment)
  {
    var ps := Parsed(lines, uncomment);
    var kept := NewLines(lines, ps, us);
    var appended := Appended(EndsBlank(kept), Unmatched(us, ps), header);
    PastFirst(kept, appended, i);
    AppendedLineIsSettled(EndsBlank(kept), ps, us, uncomment, header, appended[i - |lines|]);
  }

  lemma MergingLinesAgain(lines: seq<string>, us: seq<Update>, uncomment: bool, header: string)
    requires Repeatable(us, uncomment, header)
    ensures var merged := MergedLines(lines, Parsed(lines, uncomment), us, header);
      MergedLines(merged, Parsed(merged, uncomment), us, header) == merged
  {
    var merged := MergedLines(lines, Parsed(lines, uncomment), us, header);
    var qs := Parsed(merged, uncomment);
    forall u | u in us ensures Matches(qs, u.key) {
      EveryUpdateLands(lines, us, uncomment, header, u);
    }
    AllMatched(us, qs);
    forall i | 0 <= i < |merged| ensures NewLines(merged, qs, us)[i] == merged[i] {
      NewLinesAt(merged, qs, us, i);
      MergedLineStays(lines, us, uncomment, header, i);
    }
    assert NewLines(merged, qs, us) == merged;
  }

  /** Merging the same updates again changes nothing. */
  lemma MergeIsIdempotent(content: string, us: seq<Update>, uncomment: bool, header: string)
    requires OneLiners(us, header) && Repeatable(us, uncomment, header)
    ensures var once := Merged(content, us, uncomment, header); Merged(once, us, uncomment, header) == once
  {
    MergedSplits(content, us, uncomment, header);
    MergingLinesAgain(Split(content), us, uncomment, header);
  }

  // ---- Matches and lookups ----

  lemma FirstMatch(ps: seq<Line>, k: string) returns (i: nat)
    requires Matches(ps, k)
    ensures i < |ps| && KeyIs(ps[i], k) && !Matches(ps[..i], k)
  {
    var p :| p in ps && KeyIs(p, k);
    i :| i < |ps| && ps[i] == p;
    if Matches(ps[..i], k) {
      var j := FirstMatch(ps[..i], k);
      assert ps[..i][..j] == ps[..j];
      i := j;
    }
  }

  lemma LookupOne(k: string, v: string, j: string)
    ensures Lookup([Update(k, v)], j) == if j == k then Some(v) else None
  {
  }

  // ---- The whole result, told from the input ----

  /** Line `i` is the first that sets `k`. */
  predicate FirstSets(lines: seq<string>, i: nat, k: string, uncomment: bool) {
    && i < |lines| && KeyIs(Parse(lines[i], uncomment), k)
    && forall j :: 0 <= j < i ==> !KeyIs(Parse(lines[j], uncomment), k)
  }

  lemma MatchesBefore(lines: seq<string>, uncomment: bool, i: nat, k: string)
    requires i <= |lines|
    ensures Matches(Parsed(lines, uncomment)[..i], k) <==>
      exists j :: 0 <= j < i && KeyIs(Parse(lines[j], uncomment), k)
  {
    var ps := Parsed(lines, uncomment);
    forall j: nat | j < i ensures ps[..i][j] == Parse(lines[j], uncomment) {
      ParsedAt(lines, uncomment, j);
    }
    if j: nat :| j < i && KeyIs(Parse(lines[j], uncomment), k) {
      MatchAt(ps[..i], j, k);
    }
  }

  /** The first line of an updated key is overwritten. */
  lemma FirstLineIs(lines: seq<string>, us: seq<Update>, uncomment: bool, i: nat, u: Update)
    requires Distinct(us) && u in us && FirstSets(lines, i, u.key, uncomment)
    ensures NewLines(lines, Parsed(lines, uncomment), us)[i] ==
      (if Parse(lines[i], uncomment).exported then "export " else "") + u.key + "=" + Quote(u.value)
  {
    var ps := Parsed(lines, uncomment);
    NewLinesAt(lines, ps, us, i);
    ParsedAt(lines, uncomment, i);
    MatchesBefore(lines, uncomment, i, u.key);
    LookupFinds(us, u);
    Associates("export " + u.key, "=", Quote(u.value));
    Associates("export ", u.key, "=");
    Associates("export ", u.key + "=", Quote(u.value));
    assert "" + u.key == u.key;
  }

  lemma OtherLineIs(lines: seq<string>, us: seq<Update>, uncomment: bool, i: nat)
    requires i < |lines| && forall u :: u in us ==> !FirstSets(lines, i, u.key, uncomment)
    ensures NewLines(lines, Parsed(lines, uncomment), us)[i] == lines[i]
  {
    var ps := Parsed(lines, uncomment);
    NewLinesAt(lines, ps, us, i);
    ParsedAt(lines, uncomment, i);
    if ps[i].Sets? && Lookup(us, ps[i].key).Some? {
      LookupIn(us, ps[i].key);
      MatchesBefore(lines, uncomment, i, ps[i].key);
    }
  }

  /** `rest` lists, in order, the positions of the updates whose key no line sets. */
  ghost predicate ListsUnset(us: seq<Update>, lines: seq<string>, uncomment: bool, rest: seq<nat>) {
    && Ascending(rest)
    && forall i: nat :: i in rest <==>
      i < |us| && forall j :: 0 <= j < |lines| ==> !KeyIs(Parse(lines[j], uncomment), us[i].key)
  }

  ghost function UnmatchedFrom(us: seq<Update>, ps: seq<Line>, from: nat): seq<nat>
    decreases |us| - from
  {
    if from >= |us| then []
    else (if Matches(ps, us[from].key) then [] else [from]) + UnmatchedFrom(us, ps, from + 1)
  }

  lemma {:induction false} UnmatchedPositions(us: seq<Update>, ps: seq<Line>, from: nat, i: nat)
    ensures i in UnmatchedFrom(us, ps, from) <==> from <= i < |us| && !Matches(ps, us[i].key)
    decreases |us| - from
  {
    if from < |us| { UnmatchedPositions(us, ps, from + 1, i); }
  }

  lemma ConsAscends(x: nat, r: seq<nat>)
    requires Ascending(r) && forall m :: 0 <= m < |r| ==> x < r[m]
    ensures Ascending([x] + r)
  {
    var s := [x] + r;
    forall m, n | 0 <= m < n < |s| ensures s[m] < s[n] {
      assert s[n] == r[n - 1] && (m > 0 ==> s[m] == r[m - 1]);
    }
  }

  lemma {:induction false} UnmatchedAscend(us: seq<Update>, ps: seq<Line>, from: nat)
    ensures Ascending(UnmatchedFrom(us, ps, from))
    decreases |us| - from
  {
    if from < |us| {
      var after := UnmatchedFrom(us, ps, from + 1);
      UnmatchedAscend(us, ps, from + 1);
      forall m | 0 <= m < |after| ensures from < after[m] {
        UnmatchedPositions(us, ps, from + 1, after[m]);
      }
      ConsAscends(from, after);
      assert [] + after == after;
    }
  }

  /** `picked` are the updates at the positions `r`. */
  ghost predicate AreAt(us: seq<Update>, picked: seq<Update>, r: seq<nat>) {
    |picked| == |r| && forall m :: 0 <= m < |r| ==> r[m] < |us| && picked[m] == us[r[m]]
  }

  lemma ConsAreAt(us: seq<Update>, from: nat, picked: seq<Update>, r: seq<nat>)
    requires from < |us| && AreAt(us, picked, r)
    ensures AreAt(us, [us[from]] + picked, [from] + r)
    ensures AreAt(us, [] + picked, [] + r)
  {
    assert [] + picked == picked && [] + r == r;
  }

  lemma {:induction false} UnmatchedAt(us: seq<Update>, ps: seq<Line>, from: nat)
    requires from <= |us|
    ensures AreAt(us, Unmatched(us[from..], ps), UnmatchedFrom(us, ps, from))
    decreases |us| - from
  {
    if from < |us| {
      UnmatchedAt(us, ps, from + 1);
      UnmatchedNow(us, ps, from);
      ConsAreAt(us, from, Unmatched(us[from + 1..], ps), UnmatchedFrom(us, ps, from + 1));
    }
  }

  lemma UnmatchedNow(us: seq<Update>, ps: seq<Line>, from: nat)
    requires from < |us|
    ensures Unmatched(us[from..], ps) ==
      (if Matches(ps, us[from].key) then [] else [us[from]]) + Unmatched(us[from + 1..], ps)
  {
    assert us[from..][1..] == us[from + 1..];
    assert [] + Unmatched(us[from + 1..], ps) == Unmatched(us[from + 1..], ps);
  }

  lemma UnsetInOrder(us: seq<Update>, lines: seq<string>, uncomment: bool) returns (rest: seq<nat>)
    ensures ListsUnset(us, lines, uncomment, rest)
    ensures AreAt(us, Unmatched(us, Parsed(lines, uncomment)), rest)
  {
    var ps := Parsed(lines, uncomment);
    rest := UnmatchedFrom(us, ps, 0);
    UnmatchedAscend(us, ps, 0);
    UnmatchedAt(us, ps, 0);
    assert us[0..] == us;
    forall i: nat ensures i in rest <==>
      i < |us| && forall j :: 0 <= j < |lines| ==> !KeyIs(Parse(lines[j], uncomment), us[i].key)
    {
      UnmatchedPositions(us, ps, 0, i);
      if i < |us| { MatchesAnywhere(lines, uncomment, us[i].key); }
    }
  }

  lemma MatchesAnywhere(lines: seq<string>, uncomment: bool, k: string)
    ensures Matches(Parsed(lines, uncomment), k) <==>
      exists j :: 0 <= j < |lines| && KeyIs(Parse(lines[j], uncomment), k)
  {
    MatchesBefore(lines, uncomment, |lines|, k);
    TakeAll(Parsed(lines, uncomment));
  }

  /** Nothing for no updates; otherwise a blank line, unless the last line is blank, the header, if there is
      one, and the assignments. */
  ghost predicate Follows(kept: seq<string>, header: string, added: seq<string>, written: seq<string>) {
    if written == [] then added == []
    else added == (if kept != [] && kept[|kept| - 1] == "" then [] else [""])
                  + (if header == "" then [] else [header]) + written
  }

  /** What is appended for the updates at the positions `rest`. */
  lemma AppendedIs(kept: seq<string>, us: seq<Update>, unmatched: seq<Update>, rest: seq<nat>, header: string)
    returns (written: seq<string>)
    requires AreAt(us, unmatched, rest)
    ensures Follows(kept, header, Appended(EndsBlank(kept), unmatched, header), written)
    ensures |written| == |rest|
    ensures forall m :: 0 <= m < |rest| ==> written[m] == us[rest[m]].key + "=" + Quote(us[rest[m]].value)
  {
    written := Written(unmatched);
    forall m | 0 <= m < |rest| ensures written[m] == us[rest[m]].key + "=" + Quote(us[rest[m]].value) {
      WrittenAt(unmatched, m);
    }
  }

  /** The first line of each updated key becomes the new assignment, with its export prefix kept, and every
      other line stays. */
  ghost predicate Overwritten(lines: seq<string>, us: seq<Update>, uncomment: bool, kept: seq<string>) {
    && |kept| == |lines|
    && (forall i: nat, u: Update :: u in us && FirstSets(lines, i, u.key, uncomment) ==>
      kept[i] ==
      (if Parse(lines[i], uncomment).exported then "export " else "") + u.key + "=" + Quote(u.value))
    && forall i: nat :: i < |kept| && (forall u :: u in us ==> !FirstSets(lines, i, u.key, uncomment)) ==>
      kept[i] == lines[i]
  }

  lemma LinesOverwritten(lines: seq<string>, us: seq<Update>, uncomment: bool)
    requires Distinct(us)
    ensures Overwritten(lines, us, uncomment, NewLines(lines, Parsed(lines, uncomment), us))
  {
    var kept := NewLines(lines, Parsed(lines, uncomment), us);
    forall i: nat, u: Update | u in us && FirstSets(lines, i, u.key, uncomment)
      ensures kept[i] ==
        (if Parse(lines[i], uncomment).exported then "export " else "") + u.key + "=" + Quote(u.value)
    {
      FirstLineIs(lines, us, uncomment, i, u);
    }
    forall i: nat | i < |kept| && (forall u :: u in us ==> !FirstSets(lines, i, u.key, uncomment))
      ensures kept[i] == lines[i]
    {
      OtherLineIs(lines, us, uncomment, i);
    }
  }

  lemma LinesMergeTo(lines: seq<string>, us: seq<Update>, uncomment: bool, header: string)
    returns (kept: seq<string>, added: seq<string>, rest: seq<nat>, written: seq<string>)
    requires Distinct(us)
    ensures MergedLines(lines, Parsed(lines, uncomment), us, header) == kept + added
    ensures kept == NewLines(lines, Parsed(lines, uncomment), us)
    ensures Follows(kept, header, added, written)
    ensures ListsUnset(us, lines, uncomment, rest) && |written| == |rest|
    ensures forall m :: 0 <= m < |rest| ==>
      rest[m] < |us| && written[m] == us[rest[m]].key + "=" + Quote(us[rest[m]].value)
  {
    var unmatched := Unmatched(us, Parsed(lines, uncomment));
    kept := NewLines(lines, Parsed(lines, uncomment), us);
    rest := UnsetInOrder(us, lines, uncomment);
    written := AppendedIs(kept, us, unmatched, rest, header);
    added := Appended(EndsBlank(kept), unmatched, header);
  }

  /** The whole result, on every content: the lines, overwritten, and after them the updates that have no
      line, in their order. */
  lemma MergeIs(content: string, us: seq<Update>, uncomment: bool, header: string)
    returns (kept: seq<string>, added: seq<string>, rest: seq<nat>, written: seq<string>)
    requires Distinct(us)
    ensures Merged(content, us, uncomment, header) == Join(kept + added)
    ensures Overwritten(Split(content), us, uncomment, kept) && Follows(kept, header, added, written)
    ensures ListsUnset(us, Split(content), uncomment, rest) && |written| == |rest|
    ensures forall m :: 0 <= m < |rest| ==>
      rest[m] < |us| && written[m] == us[rest[m]].key + "=" + Quote(us[rest[m]].value)
  {
    LinesOverwritten(Split(content), us, uncomment);
    kept, added, rest, written := LinesMergeTo(Split(content), us, uncomment, header);
  }
}
