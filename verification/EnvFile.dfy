/** The lines of an env file, and how `mergeEnvContent` finds the key of a line. */
module EnvFile {
  import opened Prelude
  import opened Text
  import opened EnvQuoting

  // ---- Lines ----

  const NL := '\n'

  /** `content.split('\n')`. */
  function Split(s: string): (lines: seq<string>)
    ensures lines != [] && forall l :: l in lines ==> NL !in l
    decreases |s|
  {
    match IndexOf(s, NL)
    case None => [s]
    case Some(i) => [s[..i]] + Split(s[i + 1..])
  }

  /** `lines.join('\n')`. */
  function Join(lines: seq<string>): string {
    if lines == [] then ""
    else if |lines| == 1 then lines[0]
    else lines[0] + [NL] + Join(lines[1..])
  }

  lemma {:induction false} JoinSplit(s: string)
    ensures Join(Split(s)) == s
    decreases |s|
  {
    match IndexOf(s, NL)
    case None =>
    case Some(i) =>
      JoinSplit(s[i + 1..]);
      assert Split(s)[1..] == Split(s[i + 1..]);
      assert s == s[..i] + [NL] + s[i + 1..];
  }

  lemma {:induction false} SplitJoin(lines: seq<string>)
    requires lines != [] && forall l :: l in lines ==> NL !in l
    ensures Split(Join(lines)) == lines
  {
    var s := Join(lines);
    if |lines| == 1 {
      assert IndexOf(s, NL).None?;
    } else {
      SplitJoin(lines[1..]);
      IndexOfFirst(lines[0], NL, Join(lines[1..]));
      assert s == lines[0] + [NL] + Join(lines[1..]);
      assert s[..|lines[0]|] == lines[0] && s[|lines[0]| + 1..] == Join(lines[1..]);
      assert Split(s) == [lines[0]] + lines[1..];
    }
  }

  // ---- One line ----

  datatype Line = Other | Sets(exported: bool, key: string, raw: string)

  const EXPORT := "export "

  /** With `uncomment`, one leading `#` and the white space after it are dropped. */
  function Uncommented(t: string, uncomment: bool): string {
    if !uncomment then t
    else Trim(if t != "" && t[0] == '#' then TrimStart(t[1..]) else t)
  }

  function ParseBody(exported: bool, body: string): Line {
    match IndexOf(body, '=')
    case None => Other
    case Some(eq) => if eq == 0 then Other else Sets(exported, Trim(body[..eq]), Trim(body[eq + 1..]))
  }

  function ParseTrimmed(t: string): Line {
    if EXPORT <= t then ParseBody(true, TrimStart(t[7..])) else ParseBody(false, t)
  }

  function Parse(line: string, uncomment: bool): Line {
    ParseTrimmed(Uncommented(Trim(line), uncomment))
  }

  function Plain(key: string, raw: string): string {
    key + "=" + raw
  }

  function Assignment(exported: bool, key: string, raw: string): string {
    if exported then EXPORT + Plain(key, raw) else Plain(key, raw)
  }

  /** The keys that are read back from the line they are written to. */
  predicate Addressable(k: string, uncomment: bool) {
    && k != "" && Trimmed(k)
    && '=' !in k && NL !in k
    && !(EXPORT <= k)
    && (uncomment ==> k[0] != '#')
  }

  lemma TrimEndKeeps(s: string, i: nat)
    requires i < |s| && !IsSpace(s[i])
    ensures |TrimEnd(s)| > i
  {
    var r := TrimEnd(s);
    forall j | |r| <= j < |s| ensures IsSpace(s[j]) {
      assert s[|r|..][j - |r|] == s[j];
    }
  }

  lemma IndexIs(s: string, c: char, i: nat)
    requires i < |s| && s[i] == c && c !in s[..i]
    ensures IndexOf(s, c) == Some(i)
  {
    assert s == s[..i] + [c] + s[i + 1..];
    IndexOfFirst(s[..i], c, s[i + 1..]);
  }

  lemma PlainShape(k: string, raw: string, uncomment: bool)
    requires Addressable(k, uncomment) && Trimmed(raw)
    ensures var p := Plain(k, raw);
      p != "" && p[0] == k[0] && Trimmed(p) && !(EXPORT <= p)
      && IndexOf(p, '=') == Some(|k|) && p[..|k|] == k && p[|k| + 1..] == raw
  {
    var p, n := Plain(k, raw), |k|;
    assert p[n] == '=' && p[..n] == k && p[n + 1..] == raw;
    assert p[|p| - 1] == if raw == "" then '=' else raw[|raw| - 1];
    if n < 7 { assert p[n] != EXPORT[n]; } else { assert p[..7] == k[..7]; }
    IndexIs(p, '=', n);
  }

  lemma TrimNoop(s: string)
    requires Trimmed(s)
    ensures Trim(s) == s && TrimStart(s) == s
  {
    TrimIsTrimmed(s);
  }

  lemma ExportPrefix(s: string)
    ensures EXPORT <= EXPORT + s && (EXPORT + s)[7..] == s
    ensures Trimmed(s) && s != "" ==> Trimmed(EXPORT + s)
  {
    assert (EXPORT + s)[0] == 'e';
    assert s != "" ==> (EXPORT + s)[|s| + 6] == s[|s| - 1];
  }

  lemma PlainParses(exported: bool, k: string, raw: string)
    requires Addressable(k, false) && Trimmed(raw)
    ensures ParseBody(exported, Plain(k, raw)) == Sets(exported, k, raw)
  {
    PlainShape(k, raw, false);
    TrimNoop(k);
    TrimNoop(raw);
  }

  lemma AssignmentIsTrimmed(exported: bool, k: string, raw: string, uncomment: bool)
    requires Addressable(k, uncomment) && Trimmed(raw)
    ensures var line := Assignment(exported, k, raw);
      Trim(line) == line && Uncommented(line, uncomment) == line
  {
    var line := Assignment(exported, k, raw);
    PlainShape(k, raw, uncomment);
    ExportPrefix(Plain(k, raw));
    assert line[0] == if exported then 'e' else k[0];
    TrimNoop(line);
  }

  /** An addressable key is parsed back, with its value, whatever the value's form. */
  lemma AssignmentParses(exported: bool, k: string, raw: string, uncomment: bool)
    requires Addressable(k, uncomment) && Trimmed(raw)
    ensures Parse(Assignment(exported, k, raw), uncomment) == Sets(exported, k, raw)
  {
    AssignmentIsTrimmed(exported, k, raw, uncomment);
    PlainParses(exported, k, raw);
    PlainShape(k, raw, uncomment);
    ExportPrefix(Plain(k, raw));
    TrimNoop(Plain(k, raw));
  }

  lemma {:induction false} BlankIsSkipped(b: string, s: string)
    requires Blank(b) && Trimmed(s) && s != ""
    ensures TrimStart(b + s) == s
    decreases |b|
  {
    LeadingIs(b, s);
    assert (b + s)[|b|..] == s;
  }

  lemma {:induction false} LeadingIs(b: string, s: string)
    requires Blank(b) && s != "" && !IsSpace(s[0])
    ensures LeadingSpaces(b + s) == |b|
  {
    if b != [] {
      LeadingIs(b[1..], s);
      assert (b + s)[1..] == b[1..] + s;
    }
  }

  lemma CommentIsTrimmed(b: string, a: string)
    requires Trimmed(a) && a != ""
    ensures Trim("#" + b + a) == "#" + b + a
  {
    var line := "#" + b + a;
    assert line[0] == '#' && line[|line| - 1] == a[|a| - 1];
    TrimNoop(line);
  }

  lemma UncommentedIs(b: string, a: string)
    requires Trimmed(a) && a != "" && Blank(b)
    ensures Uncommented("#" + b + a, true) == a
  {
    assert ("#" + b + a)[1..] == b + a;
    BlankIsSkipped(b, a);
    TrimNoop(a);
  }

  lemma AssignmentNotBlank(exported: bool, k: string, raw: string)
    requires Addressable(k, true) && Trimmed(raw)
    ensures Assignment(exported, k, raw) != "" && Trimmed(Assignment(exported, k, raw))
  {
    AssignmentIsTrimmed(exported, k, raw, true);
    TrimIsTrimmed(Assignment(exported, k, raw));
  }

  /** A commented-out assignment is found when commented lines count, and not otherwise. */
  lemma CommentedParses(exported: bool, k: string, raw: string, b: string)
    requires Addressable(k, true) && Trimmed(raw) && Blank(b)
    ensures Parse("#" + b + Assignment(exported, k, raw), true) == Sets(exported, k, raw)
    ensures !Parse("#" + b + Assignment(exported, k, raw), false).Sets? ||
            Parse("#" + b + Assignment(exported, k, raw), false).key != k
  {
    var a := Assignment(exported, k, raw);
    AssignmentNotBlank(exported, k, raw);
    CommentIsTrimmed(b, a);
    UncommentedIs(b, a);
    AssignmentIsTrimmed(exported, k, raw, true);
    AssignmentParses(exported, k, raw, true);
    CommentHasOtherKey("#" + b + a, k);
  }

  /** A line that starts with `#` sets, if any, a key that does. */
  lemma CommentHasOtherKey(line: string, k: string)
    requires Trim(line) == line && line != "" && line[0] == '#' && k != "" && k[0] != '#'
    ensures !Parse(line, false).Sets? || Parse(line, false).key != k
  {
    var p := Parse(line, false);
    if p.Sets? {
      var before := line[..IndexOf(line, '=').value];
      assert before[0] == '#' && LeadingSpaces(before) == 0;
      assert TrimStart(before) == before;
      TrimEndKeeps(before, 0);
      assert p.key[0] == '#';
    }
  }

  /** The text before a line's first `=` bounds its key. */
  lemma KeyShape(line: string, uncomment: bool)
    requires Parse(line, uncomment).Sets?
    ensures var k := Parse(line, uncomment).key; k != "" && Trimmed(k) && '=' !in k
  {
    var t := Uncommented(Trim(line), uncomment);
    TrimIsTrimmed(line);
    TrimIsTrimmed(if Trim(line) != "" && Trim(line)[0] == '#' then TrimStart(Trim(line)[1..]) else Trim(line));
    assert Trimmed(t);
    var body := if EXPORT <= t then TrimStart(t[7..]) else t;
    var before := body[..IndexOf(body, '=').value];
    assert !IsSpace(body[0]) && before[0] == body[0];
    TrimIsTrimmed(before);
    TrimEndKeeps(TrimStart(before), 0);
    var a, b := TrimDecomposes(before);
  }
}
