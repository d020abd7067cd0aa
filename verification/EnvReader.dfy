/** A reader of env files in which the last line that sets a key wins, and what it sees after a merge. */
module EnvReader {
  import opened Prelude
  import opened Text
  import opened EnvQuoting
  import opened EnvFile
  import opened EnvMerge
  import opened EnvMergeProperties

  predicate Comment(line: string) {
    var t := Trim(line);
    t != "" && t[0] == '#'
  }

  /** The value that this line gives to `k`. */
  function Reading(line: string, k: string): Option<string> {
    var p := Parse(line, false);
    if !Comment(line) && KeyIs(p, k) then Some(Decode(p.raw)) else None
  }

  function Seen(lines: seq<string>, k: string): Option<string> {
    if lines == [] then None
    else
      var last := Reading(lines[|lines| - 1], k);
      if last.Some? then last else Seen(lines[..|lines| - 1], k)
  }

  lemma {:induction false} SeenConcat(a: seq<string>, b: seq<string>, k: string)
    ensures Seen(a + b, k) == if Seen(b, k).Some? then Seen(b, k) else Seen(a, k)
  {
    if b == [] {
      assert a + b == a;
    } else {
      SeenConcat(a, b[..|b| - 1], k);
      ConcatFront(a, b);
    }
  }

  lemma {:induction false} SeenSame(a: seq<string>, b: seq<string>, k: string)
    requires |a| == |b| && forall i :: 0 <= i < |a| ==> Reading(a[i], k) == Reading(b[i], k)
    ensures Seen(a, k) == Seen(b, k)
  {
    if a != [] { SeenSame(a[..|a| - 1], b[..|b| - 1], k); }
  }

  lemma SeenOne(l: string, k: string)
    ensures Seen([l], k) == Reading(l, k)
  {
    assert [l][..0] == [];
  }

  // ---- Readings of the lines a merge writes ----

  /** Every updated key can be read: it is addressable and does not start a comment. */
  ghost predicate Readable(us: seq<Update>, header: string) {
    && Distinct(us) && OneLiners(us, header)
    && (forall u :: u in us ==> Addressable(u.key, true))
    && forall k :: Reading(header, k).None?
  }

  lemma ReadingOfAssignment(exported: bool, key: string, v: string, k: string)
    requires Addressable(key, true)
    ensures Reading(Assignment(exported, key, Quote(v)), k) == if k == key then Some(v) else None
  {
    QuoteIsTrimmed(v);
    QuoteIsLossless(v);
    AssignmentParses(exported, key, Quote(v), false);
    AssignmentIsTrimmed(exported, key, Quote(v), true);
    NotAComment(exported, key, Quote(v));
  }

  lemma NotAComment(exported: bool, key: string, raw: string)
    requires Addressable(key, true) && Trimmed(raw)
    ensures !Comment(Assignment(exported, key, raw))
  {
    AssignmentIsTrimmed(exported, key, raw, true);
    assert Assignment(exported, key, raw)[0] == if exported then 'e' else key[0];
  }

  /** Uncommenting does not change how a line that is not a comment is parsed. */
  lemma ReadingIsMatched(line: string, k: string, uncomment: bool)
    requires Reading(line, k).Some?
    ensures KeyIs(Parse(line, uncomment), k)
  {
    TrimIsTrimmed(line);
    TrimNoop(Trim(line));
    assert Uncommented(Trim(line), uncomment) == Trim(line);
  }

  lemma BlankReadsNothing(k: string)
    ensures Reading("", k).None?
  {
    BlankIsOther(false);
  }

  /** Rewriting a line changes nothing for the other keys. */
  lemma RewritingKeepsOthers(line: string, earlier: seq<Line>, us: seq<Update>, uncomment: bool, k: string)
    requires forall u :: u in us ==> Addressable(u.key, true)
    requires Lookup(us, k).None? || Matches(earlier, k)
    ensures Reading(NewLine(line, Parse(line, uncomment), earlier, us), k) == Reading(line, k)
  {
    var p := Parse(line, uncomment);
    if p.Sets? && Lookup(us, p.key).Some? && !Matches(earlier, p.key) {
      LookupIn(us, p.key);
      ReadingOfAssignment(p.exported, p.key, Lookup(us, p.key).value, k);
      if Reading(line, k).Some? { ReadingIsMatched(line, k, uncomment); }
    }
  }

  lemma {:induction false} SeenWritten(us: seq<Update>, k: string)
    requires Distinct(us) && forall u :: u in us ==> Addressable(u.key, true)
    ensures Seen(Written(us), k) == Lookup(us, k)
  {
    if us != [] {
      var l := Assignment(false, us[0].key, Quote(us[0].value));
      SeenWritten(us[1..], k);
      SeenConcat([l], Written(us[1..]), k);
      SeenOne(l, k);
      assert us[0] in us;
      ReadingOfAssignment(false, us[0].key, us[0].value, k);
      LookupIn(us[1..], k);
    }
  }

  lemma {:induction false} UnmatchedDistinct(us: seq<Update>, ps: seq<Line>)
    requires Distinct(us)
    ensures Distinct(Unmatched(us, ps))
  {
    if us != [] {
      UnmatchedDistinct(us[1..], ps);
      forall u | u in Unmatched(us[1..], ps) ensures u.key != us[0].key {
        UnmatchedSubset(us[1..], ps, u);
      }
    }
  }

  /** The appended lines are read as the updates that no line took. */
  lemma SeenAppended(endsBlank: bool, us: seq<Update>, ps: seq<Line>, header: string, k: string)
    requires Readable(us, header)
    ensures Seen(Appended(endsBlank, Unmatched(us, ps), header), k) == if Matches(ps, k) then None else Lookup(us, k)
  {
    var rest := Unmatched(us, ps);
    UnmatchedDistinct(us, ps);
    forall u | u in rest ensures Addressable(u.key, true) { UnmatchedSubset(us, ps, u); }
    SeenWritten(rest, k);
    LookupUnmatched(us, ps, k);
    var blank := if endsBlank then [] else [""];
    var head := if header == "" then [] else [header];
    BlankReadsNothing(k);
    SeenOne("", k);
    SeenOne(header, k);
    SeenConcat(blank, head, k);
    SeenConcat(blank + head, Written(rest), k);
  }

  // ---- Before and after ----

  lemma SeenMerged(content: string, us: seq<Update>, uncomment: bool, header: string, k: string)
    requires Readable(us, header)
    ensures var lines := Split(content);
      var ps := Parsed(lines, uncomment);
      Seen(Split(Merged(content, us, uncomment, header)), k) ==
        if Matches(ps, k) || Lookup(us, k).None? then Seen(NewLines(lines, ps, us), k) else Lookup(us, k)
  {
    var lines := Split(content);
    var ps := Parsed(lines, uncomment);
    var kept := NewLines(lines, ps, us);
    MergedSplits(content, us, uncomment, header);
    SeenAppended(EndsBlank(kept), us, ps, header, k);
    SeenConcat(kept, Appended(EndsBlank(kept), Unmatched(us, ps), header), k);
  }

  lemma MatchesMore(ps: seq<Line>, i: nat, j: nat, k: string)
    requires i <= j <= |ps|
    ensures Matches(ps[..i], k) ==> Matches(ps[..j], k)
  {
    forall p | p in ps[..i] ensures p in ps[..j] {
      var m :| 0 <= m < i && ps[m] == p;
      assert ps[..j][m] == p;
    }
  }

  lemma LineKeeps(lines: seq<string>, us: seq<Update>, uncomment: bool, k: string, from: nat, j: nat)
    requires forall u :: u in us ==> Addressable(u.key, true)
    requires from <= j < |lines|
    requires Lookup(us, k).None? || Matches(Parsed(lines, uncomment)[..from], k)
    ensures Reading(NewLines(lines, Parsed(lines, uncomment), us)[j], k) == Reading(lines[j], k)
  {
    var ps := Parsed(lines, uncomment);
    NewLinesAt(lines, ps, us, j);
    ParsedAt(lines, uncomment, j);
    MatchesMore(ps, from, j, k);
    RewritingKeepsOthers(lines[j], ps[..j], us, uncomment, k);
  }

  lemma TailKeeps(lines: seq<string>, us: seq<Update>, uncomment: bool, k: string, from: nat)
    requires forall u :: u in us ==> Addressable(u.key, true)
    requires from <= |lines|
    requires Lookup(us, k).None? || Matches(Parsed(lines, uncomment)[..from], k)
    ensures Seen(NewLines(lines, Parsed(lines, uncomment), us)[from..], k) == Seen(lines[from..], k)
  {
    var kept := NewLines(lines, Parsed(lines, uncomment), us);
    forall i | 0 <= i < |lines| - from ensures Reading(kept[from..][i], k) == Reading(lines[from..][i], k) {
      LineKeeps(lines, us, uncomment, k, from, from + i);
    }
    SeenSame(kept[from..], lines[from..], k);
  }

  lemma SplitAround<T>(s: seq<T>, i: nat)
    requires i < |s|
    ensures s == (s[..i] + [s[i]]) + s[i + 1..]
  {
  }

  lemma SeenAround(lines: seq<string>, i: nat, k: string)
    requires i < |lines|
    ensures Seen(lines, k) ==
      if Seen(lines[i + 1..], k).Some? then Seen(lines[i + 1..], k)
      else if Reading(lines[i], k).Some? then Reading(lines[i], k)
      else Seen(lines[..i], k)
  {
    SplitAround(lines, i);
    SeenConcat(lines[..i] + [lines[i]], lines[i + 1..], k);
    SeenConcat(lines[..i], [lines[i]], k);
    SeenOne(lines[i], k);
  }

  /** A key that is not updated reads as before. */
  lemma OthersReadAsBefore(content: string, us: seq<Update>, uncomment: bool, header: string, k: string)
    requires Readable(us, header) && Lookup(us, k).None?
    ensures Seen(Split(Merged(content, us, uncomment, header)), k) == Seen(Split(content), k)
  {
    var lines := Split(content);
    SeenMerged(content, us, uncomment, header, k);
    TailKeeps(lines, us, uncomment, k, 0);
    assert NewLines(lines, Parsed(lines, uncomment), us)[0..] == NewLines(lines, Parsed(lines, uncomment), us);
    assert lines[0..] == lines;
  }

  /** An updated key whose first line is i reads as what a later line still gives it, if any does, and
      otherwise as the update. */
  lemma UpdatedReadsAs(content: string, us: seq<Update>, uncomment: bool, header: string, k: string, i: nat)
    requires Readable(us, header) && Lookup(us, k).Some?
    requires var ps := Parsed(Split(content), uncomment);
      i < |ps| && KeyIs(ps[i], k) && !Matches(ps[..i], k)
    ensures Seen(Split(Merged(content, us, uncomment, header)), k) ==
      var later := Seen(Split(content)[i + 1..], k);
      if later.Some? then later else Lookup(us, k)
  {
    var lines := Split(content);
    var ps := Parsed(lines, uncomment);
    var kept := NewLines(lines, ps, us);
    assert ps[i] in ps && ps[i] in ps[..i + 1];
    SeenMerged(content, us, uncomment, header, k);
    TailKeeps(lines, us, uncomment, k, i + 1);
    SeenAround(kept, i, k);
    NewLinesAt(lines, ps, us, i);
    LookupIn(us, k);
    ReadingOfAssignment(ps[i].exported, k, Lookup(us, k).value, k);
  }

  lemma NoneBefore(ps: seq<Line>, k: string, i: nat)
    requires i <= |ps| && !Matches(ps[..i], k)
    ensures forall j :: 0 <= j < i ==> !KeyIs(ps[j], k)
  {
    forall j | 0 <= j < i ensures !KeyIs(ps[j], k) {
      assert ps[j] in ps[..i];
    }
  }

  lemma ShadowedAtFirst(content: string, uncomment: bool, k: string, v: string, i: nat)
    requires var ps := Parsed(Split(content), uncomment);
      i < |ps| && KeyIs(ps[i], k) && !Matches(ps[..i], k)
    ensures Shadowed(content, uncomment, k, v) <==>
      Seen(Split(content)[i + 1..], k).Some? && Seen(Split(content)[i + 1..], k) != Some(v)
  {
    var lines := Split(content);
    var ps := Parsed(lines, uncomment);
    NoneBefore(ps, k, i);
    forall j: nat | j < |lines| && ShadowedAt(lines, ps, k, v, j) ensures j == i {
      NoneBefore(ps, k, j);
    }
    assert ShadowedAt(lines, ps, k, v, i) <==> Seen(lines[i + 1..], k).Some? && Seen(lines[i + 1..], k) != Some(v);
  }

  /** The reader sees an update exactly when no line after the one it was written on gives the key
      another value. */
  lemma UpdateIsSeenIff(content: string, us: seq<Update>, uncomment: bool, header: string, k: string, v: string)
    requires Readable(us, header) && Lookup(us, k) == Some(v)
    ensures Seen(Split(Merged(content, us, uncomment, header)), k) == Some(v) <==> !Shadowed(content, uncomment, k, v)
  {
    var lines := Split(content);
    var ps := Parsed(lines, uncomment);
    SeenMerged(content, us, uncomment, header, k);
    if Matches(ps, k) {
      var i := FirstMatch(ps, k);
      UpdatedReadsAs(content, us, uncomment, header, k, i);
      ShadowedAtFirst(content, uncomment, k, v, i);
    } else {
      forall j | 0 <= j < |ps| ensures !KeyIs(ps[j], k) { assert ps[j] in ps; }
    }
  }

  /** Line j is the first that sets `k`, and a later line gives `k` another value. */
  ghost predicate ShadowedAt(lines: seq<string>, ps: seq<Line>, k: string, v: string, j: nat)
    requires j < |lines| == |ps|
  {
    && KeyIs(ps[j], k) && !Matches(ps[..j], k)
    && Seen(lines[j + 1..], k).Some? && Seen(lines[j + 1..], k).value != v
  }

  ghost predicate Shadowed(content: string, uncomment: bool, k: string, v: string) {
    var lines := Split(content);
    exists j: nat :: j < |lines| && ShadowedAt(lines, Parsed(lines, uncomment), k, v, j)
  }

  ghost predicate AtMostOneLine(ps: seq<Line>, k: string) {
    forall i, j :: 0 <= i < |ps| && 0 <= j < |ps| && KeyIs(ps[i], k) && KeyIs(ps[j], k) ==> i == j
  }

  lemma {:induction false} ReadingMatches(lines: seq<string>, uncomment: bool, k: string, i: nat)
    requires i < |lines| && Reading(lines[i], k).Some?
    ensures KeyIs(Parsed(lines, uncomment)[i], k)
  {
    ReadingIsMatched(lines[i], k, uncomment);
    ParsedAt(lines, uncomment, i);
  }

  lemma {:induction false} SeenNone(lines: seq<string>, k: string)
    requires forall l :: l in lines ==> Reading(l, k).None?
    ensures Seen(lines, k).None?
  {
    if lines != [] { SeenNone(lines[..|lines| - 1], k); }
  }

  lemma NotReadLater(lines: seq<string>, uncomment: bool, k: string, j: nat)
    requires j < |lines| && KeyIs(Parsed(lines, uncomment)[j], k) && AtMostOneLine(Parsed(lines, uncomment), k)
    ensures Seen(lines[j + 1..], k).None?
  {
    forall l | l in lines[j + 1..] ensures Reading(l, k).None? {
      var i :| j < i < |lines| && lines[i] == l;
      if Reading(l, k).Some? { ReadingMatches(lines, uncomment, k, i); }
    }
    SeenNone(lines[j + 1..], k);
  }

  /** When each updated key is on at most one line, the reader sees exactly the updates, and everything
      else as before. */
  lemma ReaderSeesUpdates(content: string, us: seq<Update>, uncomment: bool, header: string, k: string)
    requires Readable(us, header)
    requires forall u :: u in us ==> AtMostOneLine(Parsed(Split(content), uncomment), u.key)
    ensures Seen(Split(Merged(content, us, uncomment, header)), k) ==
      if Lookup(us, k).Some? then Lookup(us, k) else Seen(Split(content), k)
  {
    if Lookup(us, k).None? {
      OthersReadAsBefore(content, us, uncomment, header, k);
    } else {
      LookupIn(us, k);
      var u := Update(k, Lookup(us, k).value);
      UpdateIsSeenIff(content, us, uncomment, header, k, u.value);
      forall j: nat | j < |Split(content)| && KeyIs(Parsed(Split(content), uncomment)[j], k)
        ensures Seen(Split(content)[j + 1..], k).None?
      {
        NotReadLater(Split(content), uncomment, k, j);
      }
    }
  }

  /** With a key on two lines the hypothesis is needed: only the first is rewritten, and the reader
      takes the second. */
  lemma SecondLineWins(k: string, first: string, second: string, v: string)
    requires Addressable(k, true) && NL !in first && NL !in second && NL !in v
    ensures var content := Join([Plain(k, Quote(first)), Plain(k, Quote(second))]);
      Seen(Split(Merged(content, [Update(k, v)], false, "")), k) == Some(second)
  {
    TwoLines(k, first, second);
    ReadableOne(k, v);
    LookupOne(k, v, k);
    UpdatedReadsAs(Join([Plain(k, Quote(first)), Plain(k, Quote(second))]), [Update(k, v)], false, "", k, 0);
  }

  lemma TwoLines(k: string, first: string, second: string)
    requires Addressable(k, true) && NL !in first && NL !in second
    ensures var lines := [Plain(k, Quote(first)), Plain(k, Quote(second))];
      var ps := Parsed(lines, false);
      && Split(Join(lines)) == lines
      && KeyIs(ps[0], k) && !Matches(ps[..0], k) && Seen(lines[1..], k) == Some(second)
  {
    var lines := [Plain(k, Quote(first)), Plain(k, Quote(second))];
    OneLineQuotes(k, first);
    OneLineQuotes(k, second);
    SplitJoin(lines);
    FirstLineMatches(lines, k, first);
    SeenLast(lines, k, second);
  }

  lemma FirstLineMatches(lines: seq<string>, k: string, first: string)
    requires lines != [] && lines[0] == Plain(k, Quote(first)) && Parse(lines[0], false) == Sets(false, k, Quote(first))
    ensures var ps := Parsed(lines, false); KeyIs(ps[0], k) && !Matches(ps[..0], k)
  {
    ParsedAt(lines, false, 0);
  }

  lemma ReadableOne(k: string, v: string)
    requires Addressable(k, true) && NL !in v
    ensures Readable([Update(k, v)], "")
  {
    OneLineQuotes(k, v);
    forall j ensures Reading("", j).None? { BlankReadsNothing(j); }
  }

  lemma SeenLast(lines: seq<string>, k: string, v: string)
    requires Addressable(k, true) && |lines| == 2 && lines[1] == Plain(k, Quote(v))
    ensures Seen(lines[1..], k) == Some(v)
  {
    assert lines[1..] == [lines[1]];
    SeenOne(lines[1], k);
    ReadingOfAssignment(false, k, v, k);
  }

  lemma OneLineQuotes(k: string, v: string)
    requires Addressable(k, true) && NL !in v
    ensures NL !in Quote(v) && NL !in Plain(k, Quote(v))
    ensures Parse(Plain(k, Quote(v)), false) == Sets(false, k, Quote(v))
  {
    QuoteIsOneLineIff(v);
    QuoteIsTrimmed(v);
    AssignmentOneLine(false, k, Quote(v));
    AssignmentParses(false, k, Quote(v), false);
  }
}
