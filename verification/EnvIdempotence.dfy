/** Exactly when merging an env file twice is merging it once, on every file. */
module EnvIdempotence {
  import opened Prelude
  import opened Text
  import opened EnvQuoting
  import opened EnvFile
  import opened EnvMerge
  import opened EnvMergeProperties

  ghost predicate Settles(content: string, us: seq<Update>, uncomment: bool, header: string) {
    var once := Merged(content, us, uncomment, header);
    Merged(once, us, uncomment, header) == once
  }

  // ---- Counting newlines ----

  function Newlines(s: string): nat {
    if s == [] then 0 else (if s[0] == NL then 1 else 0) + Newlines(s[1..])
  }

  function TotalNewlines(lines: seq<string>): nat {
    if lines == [] then 0 else Newlines(lines[0]) + TotalNewlines(lines[1..])
  }

  lemma {:induction false} NewlinesConcat(a: string, b: string)
    ensures Newlines(a + b) == Newlines(a) + Newlines(b)
  {
    if a == [] {
      assert a + b == b;
    } else {
      NewlinesConcat(a[1..], b);
      assert (a + b)[1..] == a[1..] + b;
    }
  }

  lemma {:induction false} NoNewlines(s: string)
    ensures Newlines(s) == 0 <==> NL !in s
  {
    if s != [] {
      NoNewlines(s[1..]);
      assert s == [s[0]] + s[1..];
    }
  }

  lemma {:induction false} TotalIsZeroIff(lines: seq<string>)
    ensures TotalNewlines(lines) == 0 <==> forall l :: l in lines ==> NL !in l
  {
    if lines != [] {
      NoNewlines(lines[0]);
      TotalIsZeroIff(lines[1..]);
      assert lines == [lines[0]] + lines[1..];
    }
  }

  lemma {:induction false} JoinNewlines(lines: seq<string>)
    requires lines != []
    ensures Newlines(Join(lines)) == |lines| - 1 + TotalNewlines(lines)
  {
    if |lines| == 1 {
      assert lines[1..] == [];
    } else {
      JoinNewlines(lines[1..]);
      NewlinesConcat(lines[0] + [NL], Join(lines[1..]));
      NewlinesConcat(lines[0], [NL]);
      assert Newlines([NL]) == 1;
    }
  }

  /** At least as many lines that join to the same text are the same lines. */
  lemma SameLines(old_: seq<string>, new_: seq<string>)
    requires old_ != [] && |new_| >= |old_| && Join(new_) == Join(old_)
    requires forall l :: l in old_ ==> NL !in l
    ensures new_ == old_
  {
    JoinNewlines(old_);
    JoinNewlines(new_);
    TotalIsZeroIff(old_);
    TotalIsZeroIff(new_);
    SplitJoin(old_);
    SplitJoin(new_);
  }

  // ---- A line and the key that it is read under ----

  lemma TrimStartKeeps(s: string, i: nat) returns (j: nat)
    requires i < |s| && !IsSpace(s[i])
    ensures j <= i && j < |TrimStart(s)| && TrimStart(s)[j] == s[i]
  {
    var n := LeadingSpaces(s);
    forall m | 0 <= m < n ensures IsSpace(s[m]) {
      assert s[..n][m] == s[m];
    }
    j := i - n;
  }

  lemma TrimKeeps(s: string, i: nat) returns (j: nat)
    requires i < |s| && !IsSpace(s[i])
    ensures j <= i && j < |Trim(s)| && Trim(s)[j] == s[i]
  {
    j := TrimStartKeeps(s, i);
    TrimEndKeeps(TrimStart(s), j);
  }

  lemma IndexOfBefore(s: string, c: char, i: nat)
    requires i < |s| && s[i] == c
    ensures IndexOf(s, c).Some? && IndexOf(s, c).value <= i
  {
    var j := IndexOf(s, c).value;
    forall m | 0 <= m < j ensures s[m] != c {
      assert s[..j][m] == s[m];
    }
  }

  /** A line that starts with `#` loses it when uncommented, so its key is shorter than what stood
      before the `=`. */
  lemma UncommentingShortens(t: string, i: nat)
    requires i < |t| && t[i] == '=' && i > 0 && t[0] == '#'
    ensures var body := Uncommented(t, true);
      IndexOf(body, '=').Some? && |Trim(body[..IndexOf(body, '=').value])| < i
  {
    var rest := t[1..];
    var j := TrimStartKeeps(rest, i - 1);
    var m := TrimKeeps(TrimStart(rest), j);
    IndexOfBefore(Uncommented(t, true), '=', m);
  }

  lemma TrimKeepsKey(k: string, raw: string)
    requires k != "" && Trimmed(k)
    ensures var t := Trim(Plain(k, raw)); |t| > |k| && t[|k|] == '=' && t[..|k|] == k && Trimmed(t)
  {
    var line := Plain(k, raw);
    assert line[0] == k[0] && line[|k|] == '=' && line[..|k|] == k;
    assert TrimStart(line) == line;
    TrimEndKeeps(line, |k|);
    var t := Trim(line);
    assert t == line[..|t|];
    assert line[..|t|][..|k|] == line[..|k|];
    TrimIsTrimmed(line);
  }

  lemma KeyStaysShort(t: string, i: nat)
    requires i < |t| && t[i] == '=' && i > 0 && t[0] == '#'
    requires ParseTrimmed(Uncommented(t, true)).Sets? && !ParseTrimmed(Uncommented(t, true)).exported
    ensures |ParseTrimmed(Uncommented(t, true)).key| < i
  {
    UncommentingShortens(t, i);
  }

  /** A line that starts with `#` is not read back under the key that begins it. */
  lemma HashIsLost(k: string, raw: string)
    requires k != "" && Trimmed(k) && k[0] == '#'
    requires var p := Parse(Plain(k, raw), true); p.Sets? && !p.exported
    ensures Parse(Plain(k, raw), true).key != k
  {
    TrimKeepsKey(k, raw);
    KeyStaysShort(Trim(Plain(k, raw)), |k|);
  }

  /** A key that starts with `export ` is read back as exported. */
  lemma ExportIsRead(k: string, raw: string, uncomment: bool)
    requires k != "" && Trimmed(k) && EXPORT <= k
    ensures var p := Parse(Plain(k, raw), uncomment); p.Sets? ==> p.exported
  {
    TrimKeepsKey(k, raw);
    var t := Trim(Plain(k, raw));
    TrimNoop(t);
    assert t[..7] == k[..7] == EXPORT;
    assert t[0] == 'e';
  }

  /** Only an addressable key is read back, unexported, from the line written for it. */
  lemma ReadBackIsAddressable(k: string, raw: string, uncomment: bool)
    requires NL !in k
    requires var p := Parse(Plain(k, raw), uncomment); p.Sets? && !p.exported && p.key == k
    ensures Addressable(k, uncomment)
  {
    KeyShape(Plain(k, raw), uncomment);
    if EXPORT <= k { ExportIsRead(k, raw, uncomment); }
    if uncomment && k[0] == '#' { HashIsLost(k, raw); }
  }

  /** `b` is a stretch of `s` from `d` on that contains position `i`. */
  ghost predicate SliceAt(b: string, s: string, d: nat, i: nat) {
    d <= i < d + |b| <= |s| && b == s[d..d + |b|] && b[i - d] == s[i]
  }

  lemma SlicesCompose(b: string, t: string, s: string, d: nat, e: nat, i: nat)
    requires SliceAt(t, s, d, i) && SliceAt(b, t, e, i - d)
    ensures SliceAt(b, s, d + e, i)
  {
    forall m | 0 <= m < |b| ensures b[m] == s[d + e + m] {
      assert b[m] == t[e + m];
    }
  }

  lemma TailIsSlice(s: string, d: nat, i: nat)
    requires d <= i < |s|
    ensures SliceAt(s[d..], s, d, i)
  {
  }

  lemma TrimStartIsSlice(s: string, i: nat) returns (d: nat)
    requires i < |s| && !IsSpace(s[i])
    ensures SliceAt(TrimStart(s), s, d, i)
  {
    d := LeadingSpaces(s);
    forall m | 0 <= m < d ensures IsSpace(s[m]) { assert s[..d][m] == s[m]; }
    TailIsSlice(s, d, i);
  }

  lemma TrimIsSlice(s: string, i: nat) returns (d: nat)
    requires i < |s| && !IsSpace(s[i])
    ensures SliceAt(Trim(s), s, d, i)
  {
    d := TrimStartIsSlice(s, i);
    var t := TrimStart(s);
    TrimEndKeeps(t, i - d);
    assert TrimEnd(t) == t[0..|TrimEnd(t)|];
    SlicesCompose(TrimEnd(t), t, s, d, 0, i);
  }

  lemma TrimStartThrough(t: string, s: string, d: nat, i: nat) returns (e: nat)
    requires SliceAt(t, s, d, i) && !IsSpace(s[i])
    ensures SliceAt(TrimStart(t), s, e, i) && e >= d
  {
    var a := TrimStartIsSlice(t, i - d);
    SlicesCompose(TrimStart(t), t, s, d, a, i);
    e := d + a;
  }

  lemma TrimThrough(t: string, s: string, d: nat, i: nat) returns (e: nat)
    requires SliceAt(t, s, d, i) && !IsSpace(s[i])
    ensures SliceAt(Trim(t), s, e, i) && e >= d
  {
    var a := TrimIsSlice(t, i - d);
    SlicesCompose(Trim(t), t, s, d, a, i);
    e := d + a;
  }

  lemma TailThrough(t: string, s: string, d: nat, i: nat, n: nat)
    requires SliceAt(t, s, d, i) && n <= i - d
    ensures SliceAt(t[n..], s, d + n, i)
  {
    TailIsSlice(t, n, i - d);
    SlicesCompose(t[n..], t, s, d, n, i);
  }

  lemma UncommentedThrough(t: string, s: string, d: nat, i: nat, uncomment: bool) returns (e: nat)
    requires SliceAt(t, s, d, i) && s[i] == '='
    ensures SliceAt(Uncommented(t, uncomment), s, e, i)
  {
    if !uncomment {
      e := d;
    } else if t[0] == '#' {
      TailThrough(t, s, d, i, 1);
      e := TrimStartThrough(t[1..], s, d + 1, i);
      e := TrimThrough(TrimStart(t[1..]), s, e, i);
    } else {
      e := TrimThrough(t, s, d, i);
    }
  }

  lemma ExportThrough(t: string, s: string, d: nat, i: nat) returns (e: nat)
    requires SliceAt(t, s, d, i) && s[i] == '=' && EXPORT <= t
    ensures e >= 7 && SliceAt(TrimStart(t[7..]), s, e, i)
  {
    assert i - d >= 7 by {
      forall m | 0 <= m < 7 ensures t[m] != '=' { assert t[m] == EXPORT[m]; }
    }
    TailThrough(t, s, d, i, 7);
    e := TrimStartThrough(t[7..], s, d + 7, i);
  }

  /** What the parser takes the key from: `body`, a stretch of the line around its first `=`. */
  lemma BodyIsSlice(line: string, uncomment: bool, i: nat) returns (exported: bool, body: string, d: nat)
    requires i < |line| && line[i] == '='
    ensures SliceAt(body, line, d, i) && (exported ==> d >= 7)
    ensures Parse(line, uncomment) == ParseBody(exported, body)
  {
    d := TrimIsSlice(line, i);
    d := UncommentedThrough(Trim(line), line, d, i, uncomment);
    var u := Uncommented(Trim(line), uncomment);
    exported, body := EXPORT <= u, u;
    if exported {
      d := ExportThrough(u, line, d, i);
      body := TrimStart(u[7..]);
    }
  }

  lemma FullTrim(s: string)
    requires |Trim(s)| == |s|
    ensures Trim(s) == s
  {
    var before, after := TrimDecomposes(s);
    assert |before| == |after| == 0;
  }

  lemma TrimIsNoLonger(s: string)
    ensures |Trim(s)| <= |s|
  {
    var before, after := TrimDecomposes(s);
  }

  lemma BeforeIs(k: string, raw: string, body: string, d: nat) returns (before: string)
    requires SliceAt(body, Plain(k, raw), d, |k|)
    ensures IndexOf(body, '=').Some? && before == body[..IndexOf(body, '=').value]
    ensures |before| <= |k| - d && (|before| == |k| ==> before == k)
  {
    assert Plain(k, raw)[|k|] == '=';
    IndexOfBefore(body, '=', |k| - d);
    before := body[..IndexOf(body, '=').value];
    if |before| == |k| {
      forall m | 0 <= m < |k| ensures before[m] == k[m] {
        assert body[m] == Plain(k, raw)[m];
      }
    }
  }

  lemma KeyOfBody(k: string, raw: string, exported: bool, body: string, d: nat)
    requires SliceAt(body, Plain(k, raw), d, |k|) && ParseBody(exported, body).Sets?
    ensures |ParseBody(exported, body).key| <= |k| - d
    ensures |ParseBody(exported, body).key| == |k| ==> ParseBody(exported, body).key == k
  {
    var before := BeforeIs(k, raw, body, d);
    TrimIsNoLonger(before);
    if |Trim(before)| == |k| { FullTrim(before); }
  }

  /** A line written for `k` is read back under a shorter key, or under `k`, which is then addressable. */
  lemma ReadBackShortens(k: string, raw: string, uncomment: bool)
    requires NL !in k && Parse(Plain(k, raw), uncomment).Sets?
    ensures var key := Parse(Plain(k, raw), uncomment).key;
      |key| < |k| || (key == k && Addressable(k, uncomment))
  {
    var line := Plain(k, raw);
    assert line[|k|] == '=';
    var exported, body, d := BodyIsSlice(line, uncomment, |k|);
    KeyOfBody(k, raw, exported, body, d);
    if |ParseBody(exported, body).key| == |k| {
      ReadBackIsAddressable(k, raw, uncomment);
    }
  }

  // ---- A merge that changes nothing ----

  lemma OneLineOfAssignment(exported: bool, k: string, raw: string)
    requires NL !in Assignment(exported, k, raw)
    ensures NL !in k && NL !in raw && NL !in Plain(k, raw)
  {
    var line, plain := Assignment(exported, k, raw), Plain(k, raw);
    var n := |line| - |plain|;
    assert forall j :: 0 <= j < |plain| ==> plain[j] == line[n + j];
    assert forall j :: 0 <= j < |k| ==> k[j] == plain[j];
    assert forall j :: 0 <= j < |raw| ==> raw[j] == plain[|k| + 1 + j];
  }

  lemma MergedIsLonger(lines: seq<string>, ps: seq<Line>, us: seq<Update>)
    requires |ps| == |lines|
    ensures |MergedLines(lines, ps, us, "")| >= |lines|
    ensures |MergedLines(lines, ps, us, "")| == |lines| ==> Unmatched(us, ps) == []
  {
  }

  /** Merging again changes nothing only if it changes no line and appends none. */
  lemma SettledLines(text: string, us: seq<Update>, uncomment: bool)
    requires Merged(text, us, uncomment, "") == text
    ensures var lines := Split(text);
      var ps := Parsed(lines, uncomment);
      MergedLines(lines, ps, us, "") == lines && Unmatched(us, ps) == []
  {
    var lines := Split(text);
    var ps := Parsed(lines, uncomment);
    JoinSplit(text);
    MergedIsLonger(lines, ps, us);
    SameLines(lines, MergedLines(lines, ps, us, ""));
  }

  /** Every update is then already written on some line. */
  lemma SettledHasLine(lines: seq<string>, us: seq<Update>, uncomment: bool, u: Update) returns (i: nat)
    requires Distinct(us) && u in us
    requires var ps := Parsed(lines, uncomment); MergedLines(lines, ps, us, "") == lines && Unmatched(us, ps) == []
    ensures i < |lines|
    ensures var p := Parse(lines[i], uncomment);
      KeyIs(p, u.key) && lines[i] == Assignment(p.exported, u.key, Quote(u.value))
  {
    var ps := Parsed(lines, uncomment);
    UnmatchedSubset(us, ps, u);
    i := FirstMatch(ps, u.key);
    LookupFinds(us, u);
    NewLinesAt(lines, ps, us, i);
    ParsedAt(lines, uncomment, i);
    assert MergedLines(lines, ps, us, "")[i] == NewLines(lines, ps, us)[i];
  }

  // ---- The empty file ----

  lemma EmptyFileHasOneLine(uncomment: bool)
    ensures Split("") == [""] && Parsed([""], uncomment) == [Other]
  {
    BlankIsOther(uncomment);
    ParsedAt([""], uncomment, 0);
  }

  lemma {:induction false} OtherMatchesNone(us: seq<Update>)
    ensures Unmatched(us, [Other]) == us
  {
    if us != [] { OtherMatchesNone(us[1..]); }
  }

  lemma LinesMergedIntoEmpty(us: seq<Update>)
    ensures MergedLines([""], [Other], us, "") == [""] + Written(us)
  {
    NewLinesAt([""], [Other], us, 0);
    OtherMatchesNone(us);
    assert NewLines([""], [Other], us) == [""];
    assert [] + [] + Written(us) == Written(us);
  }

  lemma MergedIntoEmpty(us: seq<Update>, uncomment: bool)
    ensures Merged("", us, uncomment, "") == Join([""] + Written(us))
  {
    EmptyFileHasOneLine(uncomment);
    LinesMergedIntoEmpty(us);
  }

  /** If merging into the empty file settles, the result has just the lines that were written. */
  lemma EmptyFileLines(us: seq<Update>, uncomment: bool)
    requires Distinct(us) && Settles("", us, uncomment, "")
    ensures forall u :: u in us ==> NL !in u.key && NL !in Quote(u.value)
    ensures var lines := [""] + Written(us);
      var ps := Parsed(lines, uncomment);
      MergedLines(lines, ps, us, "") == lines && Unmatched(us, ps) == []
  {
    var once := Merged("", us, uncomment, "");
    SettledLines(once, us, uncomment);
    var found := Split(once);
    forall u | u in us ensures NL !in u.key && NL !in Quote(u.value) {
      var i := SettledHasLine(found, us, uncomment, u);
      assert found[i] in found;
      OneLineOfAssignment(Parse(found[i], uncomment).exported, u.key, Quote(u.value));
    }
    MergedIntoEmpty(us, uncomment);
    var lines := [""] + Written(us);
    forall l | l in lines ensures NL !in l {
      if l != "" {
        WrittenMembers(us, l);
        var u :| u in us && l == Assignment(false, u.key, Quote(u.value));
        AssignmentOneLine(false, u.key, Quote(u.value));
      }
    }
    SplitJoin(lines);
  }

  lemma AfterBlank(written: seq<string>, i: nat)
    requires i <= |written| && ([""] + written)[i] != ""
    ensures i > 0 && ([""] + written)[i] == written[i - 1]
  {
  }

  lemma AssignmentIsNotBlank(exported: bool, k: string, raw: string)
    ensures Assignment(exported, k, raw) != ""
  {
    assert |Plain(k, raw)| > 0;
  }

  /** Some line after the first, blank one is read under the key of the update. */
  lemma SomeLine(us: seq<Update>, written: seq<string>, uncomment: bool, u: Update) returns (i: nat)
    requires Distinct(us) && u in us
    requires var ps := Parsed([""] + written, uncomment);
      MergedLines([""] + written, ps, us, "") == [""] + written && Unmatched(us, ps) == []
    ensures i < |written| && KeyIs(Parse(written[i], uncomment), u.key)
  {
    var lines := [""] + written;
    var j := SettledHasLine(lines, us, uncomment, u);
    AssignmentIsNotBlank(Parse(lines[j], uncomment).exported, u.key, Quote(u.value));
    AfterBlank(written, j);
    i := j - 1;
  }

  lemma SettledByWritten(us: seq<Update>, uncomment: bool, u: Update) returns (v: Update)
    requires Distinct(us) && Settles("", us, uncomment, "") && u in us
    ensures v in us && KeyIs(Parse(Plain(v.key, Quote(v.value)), uncomment), u.key)
  {
    EmptyFileLines(us, uncomment);
    var i := SomeLine(us, Written(us), uncomment, u);
    WrittenAt(us, i);
    v := us[i];
  }

  /** For an unaddressable key it was written for a longer unaddressable one. */
  lemma LongerUnaddressable(us: seq<Update>, uncomment: bool, u: Update) returns (v: Update)
    requires Distinct(us) && Settles("", us, uncomment, "") && u in us && !Addressable(u.key, uncomment)
    ensures v in us && !Addressable(v.key, uncomment) && |v.key| > |u.key|
  {
    v := SettledByWritten(us, uncomment, u);
    EmptyFileLines(us, uncomment);
    ReadBackShortens(v.key, Quote(v.value), uncomment);
    if Addressable(v.key, uncomment) {
      QuoteIsTrimmed(v.value);
      AssignmentParses(false, v.key, Quote(v.value), uncomment);
    }
  }

  function LongestKey(us: seq<Update>): (n: nat)
    ensures forall u :: u in us ==> |u.key| <= n
  {
    if us == [] then 0
    else
      var n := LongestKey(us[1..]);
      assert us == [us[0]] + us[1..];
      if |us[0].key| > n then |us[0].key| else n
  }

  lemma {:induction false} NoUnaddressable(us: seq<Update>, uncomment: bool, u: Update)
    requires Distinct(us) && Settles("", us, uncomment, "") && u in us
    ensures Addressable(u.key, uncomment)
    decreases LongestKey(us) - |u.key|
  {
    if !Addressable(u.key, uncomment) {
      var v := LongerUnaddressable(us, uncomment, u);
      NoUnaddressable(us, uncomment, v);
    }
  }

  /** Merging updates is idempotent on every file if and only if every key is read back from the line
      written for it, and every value has no newline or holds a single quote (so that the newline is
      escaped). */
  lemma IdempotentIff(us: seq<Update>, uncomment: bool)
    requires Distinct(us)
    ensures (forall content :: Settles(content, us, uncomment, ""))
      <==> forall u :: u in us ==> Addressable(u.key, uncomment) && (NL !in u.value || '\'' in u.value)
  {
    forall u: Update ensures NL !in Quote(u.value) <==> NL !in u.value || '\'' in u.value {
      QuoteIsOneLineIff(u.value);
    }
    if forall u :: u in us ==> Addressable(u.key, uncomment) && (NL !in u.value || '\'' in u.value) {
      BlankIsOther(uncomment);
      forall content ensures Settles(content, us, uncomment, "") {
        MergeIsIdempotent(content, us, uncomment, "");
      }
    }
    if Settles("", us, uncomment, "") {
      EmptyFileLines(us, uncomment);
      forall u | u in us ensures Addressable(u.key, uncomment) {
        NoUnaddressable(us, uncomment, u);
      }
    }
  }

  /** A key with an `=` in it is appended again by every merge. */
  lemma KeyWithEqualsIsAppendedAgain(v: string, uncomment: bool)
    ensures !Settles("", [Update("A=B", v)], uncomment, "")
  {
    assert "A=B"[1] == '=';
    if Settles("", [Update("A=B", v)], uncomment, "") {
      NoUnaddressable([Update("A=B", v)], uncomment, Update("A=B", v));
    }
  }
}
