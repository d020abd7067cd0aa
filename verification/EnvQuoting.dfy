/** `quoteEnvValue`: how a value is written into an env file, and the one decoder that reads all
    three forms back. */
module EnvQuoting {
  import opened Prelude
  import opened Text

  /** `s.replace(/c/g, r)`. */
  function ReplaceAll(s: string, c: char, r: string): string {
    if s == [] then [] else (if s[0] == c then r else [s[0]]) + ReplaceAll(s[1..], c, r)
  }

  /** The five chained replacements of the source, in its order. */
  function EscapeChained(s: string): string {
    var a := ReplaceAll(s, '\\', "\\\\");
    var b := ReplaceAll(a, '$', "\\$");
    var c := ReplaceAll(b, '"', "\\\"");
    var d := ReplaceAll(c, '\n', "\\n");
    ReplaceAll(d, '\r', "\\r")
  }

  predicate Special(c: char) {
    c in {'#', '"', '\'', '\\', '\n', '\r', '$'}
  }

  predicate NeedsQuoting(v: string) {
    (exists c :: c in v && Special(c)) || v != Trim(v)
  }

  function Quote(v: string): string {
    if v == "" then ""
    else if !NeedsQuoting(v) then v
    else if '\'' !in v then "'" + v + "'"
    else "\"" + EscapeChained(v) + "\""
  }

  // ---- The chain is one pass ----

  function EscapeChar(c: char): string {
    match c
    case '\\' => "\\\\"
    case '$' => "\\$"
    case '"' => "\\\""
    case '\n' => "\\n"
    case '\r' => "\\r"
    case _ => [c]
  }

  /** Escapes each character on its own, once. */
  function Escape(s: string): string {
    if s == [] then [] else EscapeChar(s[0]) + Escape(s[1..])
  }

  lemma TailOfConcat(a: string, b: string)
    requires a != []
    ensures (a + b)[0] == a[0] && (a + b)[1..] == a[1..] + b
  {
  }

  lemma {:induction false} ReplaceConcat(a: string, b: string, c: char, r: string)
    ensures ReplaceAll(a + b, c, r) == ReplaceAll(a, c, r) + ReplaceAll(b, c, r)
  {
    if a == [] {
      assert a + b == b;
    } else {
      ReplaceConcat(a[1..], b, c, r);
      TailOfConcat(a, b);
      Associates(if a[0] == c then r else [a[0]], ReplaceAll(a[1..], c, r), ReplaceAll(b, c, r));
    }
  }

  lemma ChainConcat(s: string, t: string)
    ensures EscapeChained(s + t) == EscapeChained(s) + EscapeChained(t)
  {
    ReplaceConcat(s, t, '\\', "\\\\");
    var sa, ta := ReplaceAll(s, '\\', "\\\\"), ReplaceAll(t, '\\', "\\\\");
    ReplaceConcat(sa, ta, '$', "\\$");
    var sb, tb := ReplaceAll(sa, '$', "\\$"), ReplaceAll(ta, '$', "\\$");
    ReplaceConcat(sb, tb, '"', "\\\"");
    var sc, tc := ReplaceAll(sb, '"', "\\\""), ReplaceAll(tb, '"', "\\\"");
    ReplaceConcat(sc, tc, '\n', "\\n");
    ReplaceConcat(ReplaceAll(sc, '\n', "\\n"), ReplaceAll(tc, '\n', "\\n"), '\r', "\\r");
  }

  lemma ReplaceOne(c: char, d: char, r: string)
    ensures ReplaceAll([c], d, r) == if c == d then r else [c]
  {
  }

  lemma ReplaceTwo(x: char, y: char, d: char, r: string)
    requires x != d && y != d
    ensures ReplaceAll([x, y], d, r) == [x, y]
  {
    assert [x, y][1..] == [y];
    ReplaceOne(y, d, r);
  }

  lemma ChainOne(c: char)
    ensures EscapeChained([c]) == EscapeChar(c)
  {
    var a := ReplaceAll([c], '\\', "\\\\");
    ReplaceOne(c, '\\', "\\\\");
    ReplaceOne(c, '$', "\\$");
    ReplaceOne(c, '"', "\\\"");
    ReplaceOne(c, '\n', "\\n");
    ReplaceOne(c, '\r', "\\r");
    var e := EscapeChar(c);
    if |e| == 2 {
      assert e == [e[0], e[1]];
      if e[1] != '$' { ReplaceTwo(e[0], e[1], '$', "\\$"); }
      if e[1] != '"' { ReplaceTwo(e[0], e[1], '"', "\\\""); }
      ReplaceTwo(e[0], e[1], '\n', "\\n");
      ReplaceTwo(e[0], e[1], '\r', "\\r");
    }
  }

  /** No replacement of the chain touches what an earlier one wrote. */
  lemma {:induction false} ChainIsSinglePass(s: string)
    ensures EscapeChained(s) == Escape(s)
  {
    if s != [] {
      ChainIsSinglePass(s[1..]);
      ChainConcat([s[0]], s[1..]);
      ChainOne(s[0]);
      assert s == [s[0]] + s[1..];
    }
  }

  // ---- Reading back ----

  function Unescape(s: string): string {
    if s == [] then []
    else if s[0] == '\\' && |s| > 1 then
      [match s[1] case 'n' => '\n' case 'r' => '\r' case c => c] + Unescape(s[2..])
    else [s[0]] + Unescape(s[1..])
  }

  predicate Wrapped(q: string, c: char) {
    |q| >= 2 && q[0] == c && q[|q| - 1] == c
  }

  function Decode(q: string): string {
    if Wrapped(q, '\'') then q[1..|q| - 1]
    else if Wrapped(q, '"') then Unescape(q[1..|q| - 1])
    else q
  }

  lemma UnescapeOne(c: char, rest: string)
    ensures Unescape(EscapeChar(c) + rest) == [c] + Unescape(rest)
  {
    var e := EscapeChar(c);
    assert (e + rest)[|e|..] == rest && (e + rest)[0] == e[0];
    assert |e| == 2 ==> (e + rest)[1] == e[1];
  }

  lemma {:induction false} UnescapeInverts(s: string)
    ensures Unescape(Escape(s)) == s
  {
    if s != [] {
      UnescapeInverts(s[1..]);
      UnescapeOne(s[0], Escape(s[1..]));
    }
  }

  /** Quoting loses nothing: one decoder inverts all three forms. */
  lemma QuoteIsLossless(v: string)
    ensures Decode(Quote(v)) == v
  {
    ChainIsSinglePass(v);
    UnescapeInverts(v);
    if v != "" && !NeedsQuoting(v) {
      assert v[0] in v && Special('\'') && Special('"');
    }
  }

  lemma QuoteIsInjective(v: string, w: string)
    requires Quote(v) == Quote(w)
    ensures v == w
  {
    QuoteIsLossless(v);
    QuoteIsLossless(w);
  }

  /** A value is written as it is exactly when it has no special character and no white space at an end, in
      single quotes exactly when it needs quoting and holds none, and in double quotes otherwise. */
  lemma QuoteFormIs(v: string)
    ensures Quote(v) == v <==> Trimmed(v) && forall c :: c in v ==> c !in "#\"'\\\n\r$"
    ensures Quote(v) != v ==> (Quote(v) == "'" + v + "'" <==> '\'' !in v)
    ensures Quote(v) != v && '\'' in v ==> Wrapped(Quote(v), '"')
  {
    TrimIsTrimmed(v);
    forall c ensures Special(c) <==> c in "#\"'\\\n\r$" {
      SpecialIs(c);
    }
    if NeedsQuoting(v) && '\'' in v {
      assert Quote(v)[0] == '"' && Quote(v)[|Quote(v)| - 1] == '"';
      DoubleQuotedDiffers(v);
    } else if NeedsQuoting(v) {
      assert |Quote(v)| == |v| + 2;
    }
  }

  lemma SpecialIs(c: char)
    ensures Special(c) <==> c in "#\"'\\\n\r$"
  {
    var s := "#\"'\\\n\r$";
    assert s[0] == '#' && s[1] == '"' && s[2] == '\'' && s[3] == '\\' && s[4] == '\n' && s[5] == '\r' && s[6] == '$';
  }

  /** The double-quoted form is longer than its value. */
  lemma DoubleQuotedDiffers(v: string)
    ensures "\"" + EscapeChained(v) + "\"" != v
    ensures "\"" + EscapeChained(v) + "\"" != "'" + v + "'"
  {
    ChainIsSinglePass(v);
    EscapeLengthens(v);
    assert ("\"" + EscapeChained(v) + "\"")[0] != ("'" + v + "'")[0];
    assert |"\"" + EscapeChained(v) + "\""| > |v|;
  }

  lemma {:induction false} EscapeLengthens(s: string)
    ensures |Escape(s)| >= |s|
  {
    if s != [] { EscapeLengthens(s[1..]); }
  }

  lemma QuoteIsTrimmed(v: string)
    ensures Trimmed(Quote(v))
  {
    TrimIsTrimmed(v);
  }

  lemma {:induction false} EscapeHasNoNewline(s: string)
    ensures '\n' !in Escape(s)
  {
    if s != [] { EscapeHasNoNewline(s[1..]); }
  }

  lemma SingleQuotedKeeps(v: string)
    ensures '\n' in "'" + v + "'" <==> '\n' in v
  {
    assert forall c :: c in "'" + v + "'" <==> c == '\'' || c in v;
  }

  lemma DoubleQuotedIsOneLine(v: string)
    ensures '\n' !in "\"" + EscapeChained(v) + "\""
  {
    ChainIsSinglePass(v);
    EscapeHasNoNewline(v);
  }

  /** The written form is one line exactly when the value is, or holds a single quote: only the
      double-quoted form escapes newlines. */
  lemma QuoteIsOneLineIff(v: string)
    ensures '\n' !in Quote(v) <==> '\n' !in v || '\'' in v
  {
    assert Special('\n') && Special('\'');
    SingleQuotedKeeps(v);
    DoubleQuotedIsOneLine(v);
  }
}
