/** Splitting a long message into chunks: cut positions, code blocks closed at a cut and reopened
    after it, and what that does to the text.
 */
module SplitMessage {
  import opened Prelude
  import opened Text

  const FENCE := "```"
  const CLOSER := "\n```"

  // ---- Fences and words ----

  predicate FenceAt(s: string, i: int) {
    0 <= i && i + 3 <= |s| && s[i] == '`' && s[i + 1] == '`' && s[i + 2] == '`'
  }

  /** How often the global expression for three backticks matches, left to right. */
  function Fences(s: string): nat {
    if |s| < 3 then 0
    else if FenceAt(s, 0) then 1 + Fences(s[3..])
    else Fences(s[1..])
  }

  predicate Odd(n: nat) { n % 2 == 1 }

  predicate IsWord(c: char) {
    'a' <= c <= 'z' || 'A' <= c <= 'Z' || '0' <= c <= '9' || c == '_'
  }

  /** The length of the run of word characters that `s` starts with. */
  function WordRun(s: string): (n: nat)
    ensures n <= |s| && (forall i :: 0 <= i < n ==> IsWord(s[i])) && (n < |s| ==> !IsWord(s[n]))
  {
    if s != [] && IsWord(s[0]) then 1 + WordRun(s[1..]) else 0
  }

  /** The position of the first fence. */
  function FirstFence(s: string): (r: Option<nat>)
    ensures r.Some? ==> FenceAt(s, r.value) && forall i :: 0 <= i < r.value ==> !FenceAt(s, i)
    ensures r.None? ==> forall i :: !FenceAt(s, i)
  {
    if |s| < 3 then None
    else if FenceAt(s, 0) then Some(0)
    else
      assert forall i :: i > 0 ==> FenceAt(s, i) == FenceAt(s[1..], i - 1);
      match FirstFence(s[1..])
      case None => None
      case Some(i) => Some(i + 1)
  }

  /** The language hint: the word right after the first fence. */
  function Lang(s: string): string {
    match FirstFence(s)
    case None => ""
    case Some(i) => s[i + 3..][..WordRun(s[i + 3..])]
  }

  /** The hint is all the word characters right after the first fence, and none without a fence. */
  lemma LangIsFirstWord(s: string, i: nat)
    requires FenceAt(s, i) && forall j :: 0 <= j < i ==> !FenceAt(s, j)
    ensures i + 3 + |Lang(s)| <= |s| && s[i + 3..i + 3 + |Lang(s)|] == Lang(s)
    ensures forall j :: 0 <= j < |Lang(s)| ==> IsWord(Lang(s)[j])
    ensures i + 3 + |Lang(s)| < |s| ==> !IsWord(s[i + 3 + |Lang(s)|])
  {
    assert FirstFence(s) == Some(i);
  }

  // ---- Where a chunk ends ----

  /** `lastIndexOf("\n", from)`. */
  function LastNewline(s: string, from: int): (r: int)
    requires from < |s|
    ensures -1 <= r && (r <= from || r == -1)
    ensures r >= 0 ==> s[r] == '\n'
    ensures forall i :: r < i <= from && 0 <= i ==> s[i] != '\n'
    decreases from + 1
  {
    if from < 0 then -1 else if s[from] == '\n' then from else LastNewline(s, from - 1)
  }

  predicate BlankLineAt(s: string, i: int) {
    0 <= i && i + 1 < |s| && s[i] == '\n' && s[i + 1] == '\n'
  }

  /** `lastIndexOf("\n\n", from)`. */
  function LastBlankLine(s: string, from: int): (r: int)
    requires from < |s|
    ensures -1 <= r && (r <= from || r == -1)
    ensures r >= 0 ==> BlankLineAt(s, r)
    ensures forall i :: r < i <= from ==> !BlankLineAt(s, i)
    decreases from + 1
  {
    if from < 0 then -1 else if BlankLineAt(s, from) then from else LastBlankLine(s, from - 1)
  }

  /** The source's `splitIndex`. */
  function Cut(remaining: string, maxLength: nat): (c: nat)
    requires |remaining| > maxLength
    ensures c <= |remaining| && (maxLength >= 1 ==> 2 * c > maxLength)
  {
    var newline := LastNewline(remaining, maxLength);
    var blank := LastBlankLine(remaining, maxLength);
    if Odd(Fences(remaining[..maxLength])) then
      if 2 * newline > maxLength then newline else maxLength
    else if 2 * blank > maxLength then blank + 2
    else if 2 * newline > maxLength then newline + 1
    else maxLength
  }

  /** A cut lies in the second half.  Outside a code block it follows the last blank line there,
      or else the last newline; inside it precedes the last newline. */
  lemma CutPlace(remaining: string, maxLength: nat)
    requires |remaining| > maxLength >= 1
    ensures var c := Cut(remaining, maxLength);
            && 2 * c > maxLength && c <= maxLength + 2 && c <= |remaining|
            && (Odd(Fences(remaining[..maxLength])) ==> c <= maxLength)
            && (c > maxLength ==> remaining[c - 1] == '\n' && (c == maxLength + 2 ==> remaining[c - 2] == '\n'))
            && (!Odd(Fences(remaining[..maxLength])) ==>
              if exists i :: BlankLineAt(remaining, i) && maxLength < 2 * i && i <= maxLength
              then BlankLineAt(remaining, c - 2) && forall i :: c - 2 < i <= maxLength ==> !BlankLineAt(remaining, i)
              else if exists i :: maxLength < 2 * i && i <= maxLength && remaining[i] == '\n'
              then remaining[c - 1] == '\n' && forall i :: c <= i <= maxLength ==> remaining[i] != '\n'
              else c == maxLength)
            && (Odd(Fences(remaining[..maxLength])) ==>
              if exists i :: maxLength < 2 * i && i <= maxLength && remaining[i] == '\n'
              then remaining[c] == '\n' && forall i :: c < i <= maxLength ==> remaining[i] != '\n'
              else c == maxLength)
  {
  }

  function Closer(text: string): string {
    if Odd(Fences(text)) then CLOSER else ""
  }

  /** What reopens the code block in the next chunk. */
  function Header(closed: string): string {
    FENCE + Lang(closed) + "\n"
  }

  /** What the loop body leaves for the next iteration. */
  function Rest(remaining: string, maxLength: nat): string
    requires |remaining| > maxLength
  {
    var c := Cut(remaining, maxLength);
    var chunk := remaining[..c];
    (if Odd(Fences(chunk)) then Header(chunk + CLOSER) else "") + remaining[c..]
  }

  // ---- Pieces of the text ----

  /** A stretch of the original text with what its chunk puts before and after it.  `left` is what of
      the header handed to it the cut left over, when it fell inside that header. */
  datatype Piece = Piece(header: string, text: string, closer: string, left: string) {
    function Whole(): string { header + text + closer }
  }

  function Texts(ps: seq<Piece>): string {
    if ps == [] then "" else Texts(ps[..|ps| - 1]) + ps[|ps| - 1].text
  }

  /** What a piece hands on to the next one, before the text. */
  function Next(p: Piece): string {
    (if p.closer == "" then "" else Header(p.Whole())) + p.left
  }

  function Handed(ps: seq<Piece>): string {
    if ps == [] then "" else Next(ps[|ps| - 1])
  }

  /** `p` is what one iteration cuts from `p.header + p.left + rest`. */
  ghost predicate IsCut(p: Piece, rest: string, maxLength: nat) {
    && (p.left == "" || p.text == "")
    && p.text <= rest
    && |p.header + p.left + rest| > maxLength
    && |p.header + p.text| == Cut(p.header + p.left + rest, maxLength)
    && p.closer == Closer(p.header + p.text)
  }

  /** The pieces cut off so far, and the text that is left. */
  ghost predicate Cuts(ps: seq<Piece>, content: string, rest: string, maxLength: nat) {
    if ps == [] then rest == content
    else
      var p := ps[|ps| - 1];
      && Cuts(ps[..|ps| - 1], content, p.text + rest, maxLength)
      && p.header + p.left == Handed(ps[..|ps| - 1])
      && IsCut(p, p.text + rest, maxLength)
  }

  function Trims(ps: seq<Piece>): seq<string> {
    if ps == [] then [] else Trims(ps[..|ps| - 1]) + [Trim(ps[|ps| - 1].Whole())]
  }

  function NonEmpty(chunks: seq<string>): seq<string> {
    if chunks == [] then []
    else NonEmpty(chunks[..|chunks| - 1]) + if chunks[|chunks| - 1] == "" then [] else [chunks[|chunks| - 1]]
  }

  // ---- Counting fences ----

  /** A boundary between two strings inside a run of backticks. */
  predicate InsideRun(a: string, b: string) {
    a != [] && b != [] && a[|a| - 1] == '`' && b[0] == '`'
  }

  lemma {:induction false} FencesAppend(a: string, b: string)
    requires !InsideRun(a, b)
    ensures Fences(a + b) == Fences(a) + Fences(b)
    decreases |a|
  {
    if a == [] {
      assert a + b == b;
    } else if |a + b| >= 3 {
      if FenceAt(a + b, 0) {
        if |a| >= 3 {
          FencesAppend(a[3..], b);
          assert (a + b)[3..] == a[3..] + b;
        }
      } else {
        FencesAppend(a[1..], b);
        assert (a + b)[1..] == a[1..] + b;
      }
    }
  }

  lemma {:induction false} NoTicksNoFences(s: string)
    requires '`' !in s
    ensures Fences(s) == 0
  {
    if |s| >= 3 {
      NoTicksNoFences(s[1..]);
    }
  }

  lemma BlankHasNoFences(s: string)
    requires Blank(s)
    ensures '`' !in s && Fences(s) == 0
  {
    NoTicksNoFences(s);
  }

  lemma TrimKeepsFences(s: string)
    ensures Fences(Trim(s)) == Fences(s)
  {
    var before, after := TrimDecomposes(s);
    BlankHasNoFences(before);
    BlankHasNoFences(after);
    FencesAppend(before + Trim(s), after);
    FencesAppend(before, Trim(s));
  }

  lemma CloserAddsOne(s: string)
    ensures Fences(s + CLOSER) == Fences(s) + 1
  {
    FencesAppend(s, CLOSER);
    assert CLOSER[1..] == FENCE && FENCE[3..] == "";
    assert Fences(FENCE) == 1;
  }

  lemma HeaderAddsOne(closed: string, rest: string)
    ensures Fences(Header(closed) + rest) == 1 + Fences(rest)
  {
    var h := Header(closed);
    FencesAppend(h, rest);
    assert h[3..] == Lang(closed) + "\n";
    NoTicksNoFences(Lang(closed) + "\n");
  }

  // ---- Words after fences, and progress ----

  /** Every word that follows a fence has at most `n` characters. */
  ghost predicate WordsBounded(s: string, n: nat) {
    forall i :: FenceAt(s, i) ==> WordRun(s[i + 3..]) <= n
  }

  lemma WordsBoundedSuffix(s: string, n: nat, c: nat)
    requires WordsBounded(s, n) && c <= |s|
    ensures WordsBounded(s[c..], n)
  {
    forall i | FenceAt(s[c..], i) ensures WordRun(s[c..][i + 3..]) <= n {
      assert FenceAt(s, c + i) && s[c..][i + 3..] == s[c + i + 3..];
    }
  }

  lemma {:induction false} WordRunEndsAt(w: string, c: char, rest: string)
    requires !IsWord(c) && forall i :: 0 <= i < |w| ==> IsWord(w[i])
    ensures WordRun(w + [c] + rest) == |w|
  {
    if w != [] {
      WordRunEndsAt(w[1..], c, rest);
      assert (w + [c] + rest)[1..] == w[1..] + [c] + rest;
    }
  }

  /** In a reopened header there is no fence after its first. */
  lemma OneFenceInHeader(lang: string, rest: string, i: int)
    requires forall j :: 0 <= j < |lang| ==> IsWord(lang[j])
    requires 0 < i < 4 + |lang|
    ensures !FenceAt(FENCE + lang + "\n" + rest, i)
  {
    var s := FENCE + lang + "\n" + rest;
    assert forall j :: 3 <= j < 3 + |lang| ==> s[j] == lang[j - 3];
    assert s[3 + |lang|] == '\n';
  }

  lemma WordAfterHeader(lang: string, rest: string)
    requires forall j :: 0 <= j < |lang| ==> IsWord(lang[j])
    ensures WordRun((FENCE + lang + "\n" + rest)[3..]) == |lang|
  {
    WordRunEndsAt(lang, '\n', rest);
    assert (FENCE + lang + "\n" + rest)[3..] == lang + "\n" + rest;
  }

  lemma WordsBoundedHeader(lang: string, rest: string, n: nat)
    requires |lang| <= n && (forall i :: 0 <= i < |lang| ==> IsWord(lang[i])) && WordsBounded(rest, n)
    ensures WordsBounded(FENCE + lang + "\n" + rest, n)
  {
    var s, h := FENCE + lang + "\n" + rest, FENCE + lang + "\n";
    forall i | FenceAt(s, i) ensures WordRun(s[i + 3..]) <= n {
      if i == 0 {
        WordAfterHeader(lang, rest);
      } else if i < |h| {
        OneFenceInHeader(lang, rest, i);
      } else {
        FenceInRest(h, rest, i);
      }
    }
  }

  lemma FenceInRest(h: string, rest: string, i: nat)
    requires i >= |h| && FenceAt(h + rest, i)
    ensures FenceAt(rest, i - |h|) && (h + rest)[i + 3..] == rest[i - |h| + 3..]
  {
    DropPast(h, rest, i + 3);
  }

  lemma {:induction false} FirstFenceIn(a: string, b: string)
    requires Fences(a) > 0
    ensures FirstFence(a + b).Some? && FenceAt(a, FirstFence(a + b).value)
  {
    if !FenceAt(a, 0) {
      FirstFenceIn(a[1..], b);
      assert (a + b)[1..] == a[1..] + b;
    }
  }

  lemma {:induction false} WordRunGrows(a: string, b: string)
    ensures WordRun(a + CLOSER) <= WordRun(a + b)
  {
    if a != [] {
      WordRunGrows(a[1..], b);
      assert (a + CLOSER)[1..] == a[1..] + CLOSER && (a + b)[1..] == a[1..] + b;
    }
  }

  lemma DropConcat(a: string, b: string, i: nat)
    requires i <= |a|
    ensures (a + b)[i..] == a[i..] + b
  {
  }

  lemma LangLength(s: string, i: nat)
    requires FirstFence(s) == Some(i)
    ensures |Lang(s)| == WordRun(s[i + 3..])
  {
  }

  lemma WordAfterFence(s: string, i: nat, n: nat)
    requires WordsBounded(s, n) && FenceAt(s, i)
    ensures WordRun(s[i + 3..]) <= n
  {
  }

  lemma LangBounded(chunk: string, rest: string, n: nat)
    requires WordsBounded(chunk + rest, n) && Fences(chunk) > 0
    ensures |Lang(chunk + CLOSER)| <= n
  {
    FirstFenceIn(chunk, CLOSER);
    var i := FirstFence(chunk + CLOSER).value;
    LangLength(chunk + CLOSER, i);
    WordAfterFence(chunk + rest, i, n);
    DropConcat(chunk, CLOSER, i + 3);
    DropConcat(chunk, rest, i + 3);
    WordRunGrows(chunk[i + 3..], rest);
  }

  /** A reopened code block keeps its language hint through the next cut as well. */
  lemma LanguageCarriesOver(closed: string, rest: string)
    ensures FenceAt(Header(closed) + rest, 0) && Lang(Header(closed) + rest) == Lang(closed)
  {
    var s := FENCE + Lang(closed) + "\n" + rest;
    WordAfterHeader(Lang(closed), rest);
    assert Header(closed) + rest == s && FirstFence(s) == Some(0);
    assert s[3..][..|Lang(closed)|] == Lang(closed);
  }

  /** With short words an iteration makes progress, and the words stay short. */
  lemma RestShrinks(remaining: string, maxLength: nat, n: nat)
    requires |remaining| > maxLength >= 2 * (n + 4) && WordsBounded(remaining, n)
    ensures |Rest(remaining, maxLength)| < |remaining|
    ensures WordsBounded(Rest(remaining, maxLength), n)
    ensures Cut(remaining, maxLength) > n + 4
    ensures Odd(Fences(remaining[..Cut(remaining, maxLength)])) ==>
              |Header(remaining[..Cut(remaining, maxLength)] + CLOSER)| <= n + 4
  {
    CutPlace(remaining, maxLength);
    var c := Cut(remaining, maxLength);
    var chunk, rest := remaining[..c], remaining[c..];
    WordsBoundedSuffix(remaining, n, c);
    if Odd(Fences(chunk)) {
      assert remaining == chunk + rest;
      LangBounded(chunk, rest, n);
      WordsBoundedHeader(Lang(chunk + CLOSER), rest, n);
      assert Rest(remaining, maxLength) == FENCE + Lang(chunk + CLOSER) + "\n" + rest;
    } else {
      assert Rest(remaining, maxLength) == rest;
    }
  }

  // ---- Exactly when the loop ends ----

  /** `k` iterations suffice. */
  predicate Halts(remaining: string, maxLength: nat, k: nat)
    decreases k
  {
    |remaining| <= maxLength || (k > 0 && Halts(Rest(remaining, maxLength), maxLength, k - 1))
  }

  ghost predicate Terminates(content: string, maxLength: nat) {
    exists k: nat :: Halts(content, maxLength, k)
  }

  lemma {:induction false} ShortWordsHalt(remaining: string, maxLength: nat, n: nat, k: nat)
    requires maxLength >= 2 * (n + 4) && WordsBounded(remaining, n) && k >= |remaining|
    ensures Halts(remaining, maxLength, k)
    decreases k
  {
    if |remaining| > maxLength {
      RestShrinks(remaining, maxLength, n);
      ShortWordsHalt(Rest(remaining, maxLength), maxLength, n, k - 1);
    }
  }

  function Repeat(c: char, n: nat): string {
    seq(n, i => c)
  }

  /** A fence, a word of `m` letters, an empty line and a long line. */
  function Stuck(m: nat, maxLength: nat): string {
    FENCE + Repeat('a', m) + "\n" + "\n" + Repeat('b', maxLength)
  }

  lemma StuckWords(m: nat, maxLength: nat)
    ensures WordsBounded(Stuck(m, maxLength), m)
  {
    var rest := "\n" + Repeat('b', maxLength);
    assert forall i :: !FenceAt(rest, i);
    WordsBoundedHeader(Repeat('a', m), rest, m);
    assert FENCE + Repeat('a', m) + "\n" + rest == Stuck(m, maxLength);
  }

  lemma OneFence(s: string)
    requires FenceAt(s, 0) && '`' !in s[3..]
    ensures Fences(s) == 1 && FirstFence(s) == Some(0)
  {
    NoTicksNoFences(s[3..]);
  }

  lemma StuckCut(m: nat, maxLength: nat)
    requires m + 4 <= maxLength < 2 * (m + 4)
    ensures |Stuck(m, maxLength)| > maxLength
    ensures Cut(Stuck(m, maxLength), maxLength) == m + 4
  {
    var s := Stuck(m, maxLength);
    var before := s[..maxLength];
    assert forall i :: 3 <= i < |s| ==> s[i] != '`';
    assert forall i :: 0 <= i < |before[3..]| ==> before[3..][i] == s[i + 3];
    OneFence(before);
    assert s[m + 4] == '\n' && forall i :: m + 4 < i <= maxLength ==> s[i] == 'b';
  }

  lemma LangOfOpening(w: string, rest: string)
    requires forall i :: 0 <= i < |w| ==> IsWord(w[i])
    ensures Lang(FENCE + (w + "\n" + rest)) == w
  {
    var tail := w + "\n" + rest;
    DropConcat(FENCE, tail, 3);
    assert FenceAt(FENCE + tail, 0);
    WordRunEndsAt(w, '\n', rest);
    assert tail[..|w|] == w;
  }

  /** Reopening after a chunk that is just the opening line puts that line back. */
  lemma ReopensSame(w: string, chunk: string)
    requires (forall i :: 0 <= i < |w| ==> IsWord(w[i])) && chunk == FENCE + w + "\n"
    ensures Header(chunk + CLOSER) == chunk && Odd(Fences(chunk))
  {
    assert chunk + CLOSER == FENCE + (w + "\n" + CLOSER);
    LangOfOpening(w, CLOSER);
    assert chunk[3..] == w + "\n";
    OneFence(chunk);
  }

  /** Such a text is cut before the empty line, and reopening the block puts everything back. */
  lemma StuckIsStuck(m: nat, maxLength: nat)
    requires m + 4 <= maxLength < 2 * (m + 4)
    ensures |Stuck(m, maxLength)| > maxLength
    ensures Rest(Stuck(m, maxLength), maxLength) == Stuck(m, maxLength)
  {
    StuckCut(m, maxLength);
    StuckChunk(m, maxLength);
    ReopensSame(Repeat('a', m), Stuck(m, maxLength)[..m + 4]);
    RestReopens(Stuck(m, maxLength), maxLength);
  }

  lemma StuckChunk(m: nat, maxLength: nat)
    ensures |Stuck(m, maxLength)| > m + 4 && Stuck(m, maxLength)[..m + 4] == FENCE + Repeat('a', m) + "\n"
  {
  }

  lemma RestReopens(s: string, maxLength: nat)
    requires |s| > maxLength
    requires var chunk := s[..Cut(s, maxLength)]; Header(chunk + CLOSER) == chunk && Odd(Fences(chunk))
    ensures Rest(s, maxLength) == s
  {
    var c := Cut(s, maxLength);
    assert s == s[..c] + s[c..];
  }

  lemma {:induction false} FixpointsDoNotHalt(remaining: string, maxLength: nat, k: nat)
    requires |remaining| > maxLength && Rest(remaining, maxLength) == remaining
    ensures !Halts(remaining, maxLength, k)
  {
    if k > 0 {
      FixpointsDoNotHalt(remaining, maxLength, k - 1);
    }
  }

  /** Limits 1 and 2 are too short for a fence in a chunk. */
  lemma TinyChunkIsEven(remaining: string, maxLength: nat)
    requires 1 <= maxLength <= 2 && |remaining| > maxLength
    ensures !Odd(Fences(remaining[..Cut(remaining, maxLength)]))
  {
    if Cut(remaining, maxLength) > maxLength { LongCutIsEven(remaining, maxLength); }
  }

  lemma TinyRestShrinks(remaining: string, maxLength: nat)
    requires 1 <= maxLength <= 2 && |remaining| > maxLength
    ensures |Rest(remaining, maxLength)| < |remaining|
  {
    TinyChunkIsEven(remaining, maxLength);
    NoHeader(remaining[Cut(remaining, maxLength)..]);
  }

  lemma {:induction false} TinyLimitsHalt(remaining: string, maxLength: nat, k: nat)
    requires 1 <= maxLength <= 2 && k >= |remaining|
    ensures Halts(remaining, maxLength, k)
    decreases k
  {
    if |remaining| > maxLength {
      TinyRestShrinks(remaining, maxLength);
      TinyLimitsHalt(Rest(remaining, maxLength), maxLength, k - 1);
    }
  }

  /** With limit 3 every chunk of a text that starts with a fence is that fence. */
  lemma ThreeCutsTheFence(remaining: string)
    requires |remaining| > 3 && FenceAt(remaining, 0)
    ensures |Rest(remaining, 3)| > 3 && FenceAt(Rest(remaining, 3), 0)
  {
    assert remaining[..3] == FENCE && Fences(FENCE) == 1;
    CutPlace(remaining, 3);
    assert Cut(remaining, 3) == 3;
    assert Rest(remaining, 3) == FENCE + (Lang(FENCE + CLOSER) + "\n" + remaining[3..]);
  }

  lemma {:induction false} ThreeNeverHalts(remaining: string, k: nat)
    requires |remaining| > 3 && FenceAt(remaining, 0)
    ensures !Halts(remaining, 3, k)
    decreases k
  {
    if k > 0 {
      ThreeCutsTheFence(remaining);
      ThreeNeverHalts(Rest(remaining, 3), k - 1);
    }
  }

  /** Limit 0 cuts nothing off. */
  lemma ZeroNeverHalts(content: string, k: nat)
    requires content != ""
    ensures !Halts(content, 0, k)
  {
    assert Cut(content, 0) == 0;
    NoHeader(content);
    FixpointsDoNotHalt(content, 0, k);
  }

  /** A text whose words after fences have at most `n` characters and on which the loop does not end. */
  function Endless(maxLength: nat, n: nat): string {
    if maxLength == 0 then "a"
    else if maxLength == 3 then FENCE + "\n"
    else Stuck(if n + 4 <= maxLength then n else if maxLength >= 4 then maxLength - 4 else 0, maxLength)
  }

  lemma EndlessIsBounded(maxLength: nat, n: nat)
    ensures maxLength in {0, 3} ==> WordsBounded(Endless(maxLength, n), n)
  {
    if maxLength == 3 {
      WordsBoundedHeader("", "", n);
      assert FENCE + "" + "\n" + "" == FENCE + "\n";
    }
  }

  lemma EndlessNeverHalts(maxLength: nat, n: nat, k: nat)
    requires maxLength !in {1, 2} && maxLength < 2 * (n + 4)
    ensures WordsBounded(Endless(maxLength, n), n) && !Halts(Endless(maxLength, n), maxLength, k)
  {
    EndlessIsBounded(maxLength, n);
    if maxLength == 0 {
      ZeroNeverHalts("a", k);
    } else if maxLength == 3 {
      ThreeNeverHalts(FENCE + "\n", k);
    } else {
      var m := if n + 4 <= maxLength then n else maxLength - 4;
      StuckWords(m, maxLength);
      StuckIsStuck(m, maxLength);
      FixpointsDoNotHalt(Stuck(m, maxLength), maxLength, k);
    }
  }

  /** Exactly when the loop ends on every text whose words after fences have at most `n` characters. */
  lemma TerminatesIffWordsFit(maxLength: nat, n: nat)
    ensures (forall content :: WordsBounded(content, n) ==> Terminates(content, maxLength))
      <==> maxLength in {1, 2} || maxLength >= 2 * (n + 4)
  {
    if maxLength in {1, 2} {
      forall content ensures Terminates(content, maxLength) {
        TinyLimitsHalt(content, maxLength, |content|);
      }
    } else if maxLength >= 2 * (n + 4) {
      forall content | WordsBounded(content, n) ensures Terminates(content, maxLength) {
        ShortWordsHalt(content, maxLength, n, |content|);
      }
    } else {
      forall k: nat ensures !Halts(Endless(maxLength, n), maxLength, k) {
        EndlessNeverHalts(maxLength, n, k);
      }
      EndlessNeverHalts(maxLength, n, 0);
      assert !Terminates(Endless(maxLength, n), maxLength);
    }
  }

  // ---- What the chunks are ----

  /** No cut falls inside a run of backticks. */
  predicate RunsIntact(ps: seq<Piece>, rest: string) {
    ps == [] ||
    var p := ps[|ps| - 1];
    !InsideRun(p.header + p.text, p.left + rest) && RunsIntact(ps[..|ps| - 1], p.text + rest)
  }

  /** Nothing is lost: the pieces and the rest make up the text. */
  lemma {:induction false} NothingLost(ps: seq<Piece>, content: string, rest: string, maxLength: nat)
    requires Cuts(ps, content, rest, maxLength)
    ensures Texts(ps) + rest == content
  {
    if ps != [] {
      var p := ps[|ps| - 1];
      NothingLost(ps[..|ps| - 1], content, p.text + rest, maxLength);
      assert Texts(ps[..|ps| - 1]) + p.text + rest == Texts(ps[..|ps| - 1]) + (p.text + rest);
    }
  }

  lemma TrimLength(s: string, n: nat)
    requires n <= |s| && Blank(s[n..])
    ensures |Trim(s)| <= n
  {
    var r := Trim(s);
    assert r == "" || r[|r| - 1] == s[LeadingSpaces(s) + |r| - 1];
    forall i | n <= i < |s| ensures IsSpace(s[i]) {
      assert s[i] == s[n..][i - n];
    }
  }

  /** Past the limit a chunk holds only newlines, and then it was cut outside a code block. */
  lemma LongCutIsEven(remaining: string, maxLength: nat)
    requires |remaining| > maxLength >= 1 && Cut(remaining, maxLength) > maxLength
    ensures Blank(remaining[maxLength..Cut(remaining, maxLength)])
    ensures !Odd(Fences(remaining[..Cut(remaining, maxLength)]))
  {
    CutPlace(remaining, maxLength);
    var c := Cut(remaining, maxLength);
    var tail := remaining[maxLength..c];
    assert remaining[..c] == remaining[..maxLength] + tail;
    assert forall i :: 0 <= i < |tail| ==> tail[i] == '\n';
    NoTicksNoFences(tail);
    FencesAppend(remaining[..maxLength], tail);
  }

  lemma ClosedIsEven(chunk: string)
    ensures !Odd(Fences(chunk + Closer(chunk)))
  {
    if Odd(Fences(chunk)) {
      CloserAddsOne(chunk);
    } else {
      assert chunk + "" == chunk;
    }
  }

  lemma ChunkLength(remaining: string, maxLength: nat)
    requires |remaining| > maxLength >= 1
    ensures var chunk := remaining[..Cut(remaining, maxLength)];
            |Trim(chunk + Closer(chunk))| <= maxLength + |Closer(chunk)|
  {
    var c := Cut(remaining, maxLength);
    CutPlace(remaining, maxLength);
    var chunk := remaining[..c];
    if c > maxLength {
      LongCutIsEven(remaining, maxLength);
      assert chunk + "" == chunk && chunk[maxLength..] == remaining[maxLength..c];
      TrimLength(chunk, maxLength);
    } else {
      TrimLength(chunk + Closer(chunk), |chunk + Closer(chunk)|);
    }
  }

  /** What a piece takes, and what is left after it. */
  lemma CutSplits(p: Piece, rest: string)
    requires (p.left == "" || p.text == "") && p.text <= rest
    ensures p.header + p.left + rest == (p.header + p.text) + (p.left + rest[|p.text|..])
  {
    assert rest == p.text + rest[|p.text|..];
  }

  lemma CutTakes(p: Piece, rest: string, maxLength: nat)
    requires IsCut(p, rest, maxLength)
    ensures var remaining := p.header + p.left + rest;
      p.header + p.text == remaining[..Cut(remaining, maxLength)]
  {
    CutSplits(p, rest);
  }

  /** A chunk exceeds the limit by no more than the closing fence it was given, and its fences
      pair up. */
  lemma ChunkIsBalanced(p: Piece, rest: string, maxLength: nat)
    requires maxLength >= 1 && IsCut(p, rest, maxLength)
    ensures |Trim(p.Whole())| <= maxLength + |p.closer| <= maxLength + 4
    ensures !Odd(Fences(Trim(p.Whole())))
  {
    CutTakes(p, rest, maxLength);
    ChunkLength(p.header + p.left + rest, maxLength);
    ClosedIsEven(p.header + p.text);
    TrimKeepsFences(p.Whole());
  }

  lemma {:induction false} LeadingSpacesAppend(s: string, t: string)
    requires !Blank(s)
    ensures LeadingSpaces(s + t) == LeadingSpaces(s) < |s|
  {
    if IsSpace(s[0]) {
      assert !Blank(s[1..]) by {
        var i :| 0 <= i < |s| && !IsSpace(s[i]);
        assert s[1..][i - 1] == s[i];
      }
      LeadingSpacesAppend(s[1..], t);
      assert (s + t)[1..] == s[1..] + t;
    }
  }

  /** Closing a chunk keeps it from being trimmed at the end. */
  lemma ClosedLength(text: string)
    requires Odd(Fences(text))
    ensures |Trim(text + CLOSER)| == |TrimStart(text)| + 4
  {
    if Blank(text) { BlankHasNoFences(text); }
    LeadingSpacesAppend(text, CLOSER);
    var start := TrimStart(text + CLOSER);
    assert start[|start| - 1] == '`';
  }

  /** The closing fence still fits. */
  predicate Fits(p: Piece, maxLength: nat) {
    p.closer == "" || |TrimStart(p.header + p.text)| + 4 <= maxLength
  }

  /** A chunk respects the limit if and only if it got no closing fence or was cut short enough for it. */
  lemma ChunkFitsIff(p: Piece, rest: string, maxLength: nat)
    requires maxLength >= 1 && IsCut(p, rest, maxLength)
    ensures |Trim(p.Whole())| <= maxLength <==> Fits(p, maxLength)
  {
    ChunkIsBalanced(p, rest, maxLength);
    if p.closer != "" { ClosedLength(p.header + p.text); }
  }

  /** An open code block without a newline in the second half. */
  function OneLongLine(maxLength: nat): string {
    FENCE + "\n" + Repeat('a', maxLength)
  }

  lemma OneLongLineCut(maxLength: nat)
    requires maxLength >= 6
    ensures var s := OneLongLine(maxLength);
      |s| > maxLength && Cut(s, maxLength) == maxLength && Fences(s[..maxLength]) == 1 && s[0] == '`'
  {
    var s := OneLongLine(maxLength);
    var before := s[..maxLength];
    assert forall i :: 3 <= i < |s| ==> s[i] != '`';
    assert forall i :: 0 <= i < |before[3..]| ==> before[3..][i] == s[i + 3];
    OneFence(before);
    assert s[3] == '\n' && forall i :: 3 < i < |s| ==> s[i] == 'a';
  }

  /** The bound is attained: splitting this text starts with a chunk as long as the limit and its closing
      fence together. */
  lemma BoundIsAttained(maxLength: nat) returns (p: Piece, rest: string)
    requires maxLength >= 6
    ensures Cuts([p], OneLongLine(maxLength), rest, maxLength) && |Trim(p.Whole())| == maxLength + 4
  {
    var s := OneLongLine(maxLength);
    OneLongLineCut(maxLength);
    var text := s[..maxLength];
    rest := s[maxLength..];
    p := Piece("", text, CLOSER, "");
    FirstCut(text, rest, maxLength);
    ClosedLength(text);
  }

  lemma FirstCut(text: string, rest: string, maxLength: nat)
    requires |text + rest| > maxLength && |text| == Cut(text + rest, maxLength)
    ensures Cuts([Piece("", text, Closer(text), "")], text + rest, rest, maxLength)
    ensures Piece("", text, Closer(text), "").Whole() == text + Closer(text)
  {
    var p := Piece("", text, Closer(text), "");
    NoHeader(text);
    NoHeader(text + rest);
    assert [p][..0] == [];
    assert p.header + p.left + (text + rest) == text + rest;
  }

  lemma NoHeader(s: string)
    ensures "" + s == s
  {
  }

  lemma HandOver(chunk: string, closed: string, rest: string)
    requires !InsideRun(chunk, rest)
    ensures Odd(Fences(if Odd(Fences(chunk)) then Header(closed) + rest else rest)) == Odd(Fences(chunk + rest))
  {
    FencesAppend(chunk, rest);
    HeaderAddsOne(closed, rest);
  }

  /** What comes after a piece, with what the piece hands on. */
  lemma NextWithRest(p: Piece, rest: string)
    requires p.closer == Closer(p.header + p.text)
    ensures Next(p) + rest ==
      if Odd(Fences(p.header + p.text)) then Header(p.Whole()) + (p.left + rest) else p.left + rest
  {
    NoHeader(p.left);
    Associates(Header(p.Whole()), p.left, rest);
  }

  lemma PieceKeepsParity(p: Piece, rest: string)
    requires p.left == "" || p.text == ""
    requires p.closer == Closer(p.header + p.text) && !InsideRun(p.header + p.text, p.left + rest)
    ensures Odd(Fences(Next(p) + rest)) == Odd(Fences(p.header + p.left + (p.text + rest)))
  {
    CutSplits(p, p.text + rest);
    assert (p.text + rest)[|p.text|..] == rest;
    HandOver(p.header + p.text, p.Whole(), p.left + rest);
    NextWithRest(p, rest);
  }

  /** If no cut falls inside a run of backticks, what is left has the parity of the whole. */
  lemma {:induction false} ParityKept(ps: seq<Piece>, content: string, rest: string, maxLength: nat)
    requires Cuts(ps, content, rest, maxLength) && RunsIntact(ps, rest)
    ensures Odd(Fences(Handed(ps) + rest)) == Odd(Fences(content))
  {
    if ps == [] {
      NoHeader(rest);
    } else {
      var p := ps[|ps| - 1];
      ParityKept(ps[..|ps| - 1], content, p.text + rest, maxLength);
      PieceKeepsParity(p, rest);
    }
  }

  /** If the words after fences fit the limit, no cut falls inside a header: each chunk is a piece of the
      text with at most a whole reopened header before it. */
  lemma {:induction false} HeadersStayWhole(ps: seq<Piece>, content: string, rest: string, maxLength: nat, n: nat)
    requires Cuts(ps, content, rest, maxLength) && maxLength >= 2 * (n + 4) && WordsBounded(content, n)
    ensures WordsBounded(Handed(ps) + rest, n) && |Handed(ps)| <= n + 4
    ensures forall p :: p in ps ==> p.left == ""
  {
    if ps == [] {
      NoHeader(rest);
    } else {
      var front, p := ps[..|ps| - 1], ps[|ps| - 1];
      HeadersStayWhole(front, content, p.text + rest, maxLength, n);
      HeaderStaysWhole(p, rest, maxLength, n);
      forall q | q in ps ensures q.left == "" { InFrontOrLast(ps, q); }
    }
  }

  lemma HeaderStaysWhole(p: Piece, rest: string, maxLength: nat, n: nat)
    requires IsCut(p, p.text + rest, maxLength) && maxLength >= 2 * (n + 4)
    requires WordsBounded(p.header + p.left + (p.text + rest), n) && |p.header + p.left| <= n + 4
    ensures p.left == "" && WordsBounded(Next(p) + rest, n) && |Next(p)| <= n + 4
  {
    var remaining := p.header + p.left + (p.text + rest);
    RestShrinks(remaining, maxLength, n);
    CutTakes(p, p.text + rest, maxLength);
    CutSplits(p, p.text + rest);
    assert (p.text + rest)[|p.text|..] == rest;
    NextWithRest(p, rest);
    RestIsNext(p, rest, maxLength);
  }

  /** What the next iteration works on is what the piece hands on, and the rest of the text. */
  lemma RestIsNext(p: Piece, rest: string, maxLength: nat)
    requires IsCut(p, p.text + rest, maxLength)
    ensures Rest(p.header + p.left + (p.text + rest), maxLength) == Next(p) + rest
  {
    var remaining := p.header + p.left + (p.text + rest);
    CutTakes(p, p.text + rest, maxLength);
    CutSplits(p, p.text + rest);
    assert (p.text + rest)[|p.text|..] == rest;
    assert remaining[Cut(remaining, maxLength)..] == p.left + rest;
    NextWithRest(p, rest);
    NoHeader(p.left + rest);
  }

  // ---- The loop ----

  /** The piece that an iteration cuts from `handed + rest`, and what of the text is left after it. */
  function PieceOf(handed: string, rest: string, maxLength: nat): (Piece, string)
    requires |handed + rest| > maxLength
  {
    var c := Cut(handed + rest, maxLength);
    if |handed| <= c then
      (Piece(handed, rest[..c - |handed|], Closer(handed + rest[..c - |handed|]), ""), rest[c - |handed|..])
    else (Piece(handed[..c], "", Closer(handed[..c]), handed[c..]), rest)
  }

  /** The cut falls in the text. */
  lemma PieceOfText(handed: string, text: string, rest: string, maxLength: nat)
    requires |handed + (text + rest)| > maxLength && |handed + text| == Cut(handed + (text + rest), maxLength)
    ensures IsCut(Piece(handed, text, Closer(handed + text), ""), text + rest, maxLength)
  {
    assert handed + "" == handed;
  }

  /** The cut falls in the header. */
  lemma PieceOfHeader(start: string, left: string, rest: string, maxLength: nat)
    requires |start + left + rest| > maxLength && |start| == Cut(start + left + rest, maxLength)
    ensures IsCut(Piece(start, "", Closer(start), left), rest, maxLength)
  {
    assert start + "" == start;
  }

  lemma PieceFits(handed: string, rest: string, maxLength: nat)
    requires |handed + rest| > maxLength
    ensures var (p, rest') := PieceOf(handed, rest, maxLength);
      p.header + p.left == handed && rest == p.text + rest' && IsCut(p, rest, maxLength)
  {
    var c := Cut(handed + rest, maxLength);
    if |handed| <= c {
      var n := c - |handed|;
      assert rest == rest[..n] + rest[n..] && handed + "" == handed;
      PieceOfText(handed, rest[..n], rest[n..], maxLength);
    } else {
      assert handed == handed[..c] + handed[c..];
      NoHeader(rest);
      PieceOfHeader(handed[..c], handed[c..], rest, maxLength);
    }
  }

  /** One more iteration cuts one more piece. */
  lemma CutsExtend(ps: seq<Piece>, content: string, rest: string, maxLength: nat)
    requires Cuts(ps, content, rest, maxLength) && |Handed(ps) + rest| > maxLength
    ensures var (p, rest') := PieceOf(Handed(ps), rest, maxLength); Cuts(ps + [p], content, rest', maxLength)
  {
    var (p, rest') := PieceOf(Handed(ps), rest, maxLength);
    PieceFits(Handed(ps), rest, maxLength);
    DropLast(ps, p);
  }

  lemma {:induction false} ChunksAreBalanced(ps: seq<Piece>, content: string, rest: string, maxLength: nat)
    requires maxLength >= 1 && Cuts(ps, content, rest, maxLength)
    ensures forall p :: p in ps ==> |Trim(p.Whole())| <= maxLength + |p.closer| && p.closer in {"", CLOSER}
    ensures forall c :: c in Trims(ps) ==> |c| <= maxLength + 4 && !Odd(Fences(c))
  {
    if ps != [] {
      var p := ps[|ps| - 1];
      ChunksAreBalanced(ps[..|ps| - 1], content, p.text + rest, maxLength);
      ChunkIsBalanced(p, p.text + rest, maxLength);
    }
  }

  /** `kept` lists, in ascending order, exactly the positions at which a string is not empty. */
  ghost predicate ListsNonEmpty(all: seq<string>, kept: seq<nat>) {
    && Ascending(kept)
    && forall i: nat :: i in kept <==> i < |all| && all[i] != ""
  }

  lemma ListOneMore(all: seq<string>, c: string, kept: seq<nat>, kept': seq<nat>)
    requires ListsNonEmpty(all, kept) && kept' == if c == "" then kept else kept + [|all|]
    ensures ListsNonEmpty(all + [c], kept')
  {
    forall j | 0 <= j < |kept| ensures kept[j] < |all| {
      assert kept[j] in kept;
    }
    forall i: nat ensures i in kept' <==> i < |all + [c]| && (all + [c])[i] != "" {
      assert i in kept' <==> i in kept || (c != "" && i == |all|);
      assert i in kept <==> i < |all| && all[i] != "";
    }
  }

  /** The filter keeps what is not empty, in its order. */
  lemma {:induction false} NonEmptyInOrder(all: seq<string>) returns (kept: seq<nat>)
    ensures ListsNonEmpty(all, kept) && |NonEmpty(all)| == |kept|
    ensures forall j :: 0 <= j < |kept| ==> kept[j] < |all| && NonEmpty(all)[j] == all[kept[j]]
  {
    kept := [];
    if all != [] {
      var front, c := all[..|all| - 1], all[|all| - 1];
      var before := NonEmptyInOrder(front);
      kept := if c == "" then before else before + [|front|];
      assert all == front + [c];
      ListOneMore(front, c, before, kept);
    }
  }

  lemma {:induction false} NonEmptyKeeps(chunks: seq<string>)
    ensures forall c :: c in NonEmpty(chunks) <==> c in chunks && c != ""
  {
    if chunks != [] {
      NonEmptyKeeps(chunks[..|chunks| - 1]);
    }
  }

  /** The loop body: one chunk, and what the next iteration works on. */
  method CutChunk(remaining: string, maxLength: nat) returns (chunk: string, rest: string)
    requires |remaining| > maxLength
    ensures chunk == Trim(remaining[..Cut(remaining, maxLength)] + Closer(remaining[..Cut(remaining, maxLength)]))
    ensures rest == Rest(remaining, maxLength)
  {
    var splitIndex := maxLength;
    var newline := LastNewline(remaining, splitIndex);
    if Odd(Fences(remaining[..splitIndex])) {
      if 2 * newline > maxLength { splitIndex := newline; }
    } else {
      var blank := LastBlankLine(remaining, splitIndex);
      if 2 * blank > maxLength { splitIndex := blank + 2; }
      else if 2 * newline > maxLength { splitIndex := newline + 1; }
    }
    assert splitIndex == Cut(remaining, maxLength);
    chunk := remaining[..splitIndex];
    rest := remaining[splitIndex..];
    if Odd(Fences(chunk)) {
      chunk := chunk + CLOSER;
      rest := FENCE + Lang(chunk) + "\n" + rest;
    } else {
      assert chunk + "" == chunk && "" + rest == rest;
    }
    chunk := Trim(chunk);
  }

  lemma TrimsNext(ps: seq<Piece>, p: Piece)
    ensures Trims(ps + [p]) == Trims(ps) + [Trim(p.Whole())] && Handed(ps + [p]) == Next(p)
  {
    assert (ps + [p])[..|ps|] == ps;
  }

  /** What one iteration does to the pieces and to what the next one works on. */
  lemma OneMorePiece(ps: seq<Piece>, content: string, last: string, maxLength: nat) returns (p: Piece, last': string)
    requires Cuts(ps, content, last, maxLength) && |Handed(ps) + last| > maxLength
    ensures var remaining := Handed(ps) + last;
      var c := Cut(remaining, maxLength);
      && Cuts(ps + [p], content, last', maxLength)
      && p.Whole() == remaining[..c] + Closer(remaining[..c])
      && Rest(remaining, maxLength) == Next(p) + last'
  {
    var next := PieceOf(Handed(ps), last, maxLength);
    p, last' := next.0, next.1;
    PieceFits(Handed(ps), last, maxLength);
    CutsExtend(ps, content, last, maxLength);
    CutTakes(p, last, maxLength);
    RestIsNext(p, last', maxLength);
  }

  method SplitLoop(content: string, maxLength: nat)
    returns (chunks: seq<string>, ghost ps: seq<Piece>, ghost last: string)
    requires Terminates(content, maxLength)
    ensures Cuts(ps, content, last, maxLength)
    ensures chunks == Trims(ps) + LastChunk(ps, last)
    ensures |Handed(ps) + last| <= maxLength
  {
    ps, last := [], content;
    chunks := [];
    var remaining := content;
    ghost var k: nat :| Halts(content, maxLength, k);
    NoHeader(content);
    while |remaining| > 0
      invariant Cuts(ps, content, last, maxLength)
      invariant remaining == Handed(ps) + last
      invariant Halts(remaining, maxLength, k)
      invariant chunks == Trims(ps)
      decreases k
    {
      if |remaining| <= maxLength {
        chunks := chunks + [remaining];
        return;
      }
      ghost var p, rest := OneMorePiece(ps, content, last, maxLength);
      TrimsNext(ps, p);
      var chunk;
      chunk, remaining := CutChunk(remaining, maxLength);
      chunks := chunks + [chunk];
      ps, last, k := ps + [p], rest, k - 1;
    }
    assert Trims(ps) + [] == Trims(ps);
  }

  lemma {:induction false} OneTrimEach(ps: seq<Piece>)
    ensures |Trims(ps)| == |ps|
  {
    if ps != [] { OneTrimEach(ps[..|ps| - 1]); }
  }

  lemma {:induction false} TrimAt(ps: seq<Piece>, i: nat)
    requires i < |ps| && |Trims(ps)| == |ps|
    ensures Trims(ps)[i] == Trim(ps[i].Whole())
  {
    if i < |ps| - 1 {
      TrimAt(ps[..|ps| - 1], i);
    }
  }

  /** The chunks are, in their order, the pieces that are not blank and then what is left, if anything. */
  lemma ChunksInOrder(ps: seq<Piece>, last: string) returns (kept: seq<nat>)
    ensures |NonEmpty(Trims(ps) + LastChunk(ps, last))| == |kept|
    ensures forall j, k :: 0 <= j < k < |kept| ==> kept[j] < kept[k]
    ensures forall i: nat ::
      i in kept <==> if i < |ps| then Trim(ps[i].Whole()) != "" else i == |ps| && Handed(ps) + last != ""
    ensures forall j :: 0 <= j < |kept| ==>
      NonEmpty(Trims(ps) + LastChunk(ps, last))[j] ==
      (if kept[j] < |ps| then Trim(ps[kept[j]].Whole()) else Handed(ps) + last)
  {
    var all := Trims(ps) + LastChunk(ps, last);
    kept := NonEmptyInOrder(all);
    OneTrimEach(ps);
    forall i: nat | i < |ps| ensures all[i] == Trim(ps[i].Whole()) {
      TrimAt(ps, i);
    }
  }

  /** Splits `content`, whenever the source's loop ends on it.  The ghost results tell where the text was
      cut: into `ps`, and what was left when the loop ended; and which of these parts are the chunks: part
      `i` is piece `i`, trimmed, and the part after all pieces is what was left. */
  method SplitMessage(content: string, maxLength: nat)
    returns (chunks: seq<string>, ghost ps: seq<Piece>, ghost last: string, ghost kept: seq<nat>)
    requires Terminates(content, maxLength)
    ensures Cuts(ps, content, last, maxLength)
    ensures |chunks| == |kept| && forall j, k :: 0 <= j < k < |kept| ==> kept[j] < kept[k]
    ensures forall i: nat ::
      i in kept <==> if i < |ps| then Trim(ps[i].Whole()) != "" else i == |ps| && Handed(ps) + last != ""
    ensures forall j :: 0 <= j < |chunks| ==>
      chunks[j] == (if kept[j] < |ps| then Trim(ps[kept[j]].Whole()) else Handed(ps) + last)
    ensures |Handed(ps) + last| <= maxLength
    ensures Texts(ps) + last == content
    ensures forall p :: p in ps ==> |Trim(p.Whole())| <= maxLength + |p.closer| && p.closer in {"", CLOSER}
    ensures forall c :: c in chunks ==> 0 < |c| <= maxLength + 4
    ensures (forall c :: c in chunks ==> |c| <= maxLength) <==> (forall p :: p in ps ==> Fits(p, maxLength))
    ensures forall i :: 0 <= i < |chunks| - 1 ==> !Odd(Fences(chunks[i]))
    ensures RunsIntact(ps, last) ==> Odd(Fences(Handed(ps) + last)) == Odd(Fences(content))
  {
    ps, last := [], content;
    NoHeader(content);
    if content == "" { return [], ps, last, []; }
    if |content| <= maxLength {
      chunks := [content];
      OneChunk(content);
    } else {
      ghost var k: nat :| Halts(content, maxLength, k);
      if maxLength == 0 { ZeroNeverHalts(content, k); }
      chunks, ps, last := SplitLoop(content, maxLength);
      chunks := NonEmpty(chunks);
    }
    SplitFacts(ps, content, last, maxLength);
    kept := ChunksInOrder(ps, last);
  }

  lemma OneChunk(content: string)
    requires content != ""
    ensures NonEmpty([content]) == [content] && Trims([]) + [content] == [content]
  {
    assert NonEmpty([content][..0]) == [];
  }

  /** The last chunk is what is left when it fits; it is not trimmed. */
  function LastChunk(ps: seq<Piece>, last: string): seq<string> {
    if Handed(ps) + last == "" then [] else [Handed(ps) + last]
  }

  /** Every chunk respects the limit if and only if every closing fence fits. */
  lemma ChunksFitIff(ps: seq<Piece>, content: string, last: string, maxLength: nat)
    requires maxLength >= 1 && Cuts(ps, content, last, maxLength) && |Handed(ps) + last| <= maxLength
    ensures (forall c :: c in NonEmpty(Trims(ps) + LastChunk(ps, last)) ==> |c| <= maxLength)
      <==> (forall p :: p in ps ==> Fits(p, maxLength))
  {
    var all := Trims(ps) + LastChunk(ps, last);
    NonEmptyKeeps(all);
    TrimsFitIff(ps, content, last, maxLength);
    assert forall c :: c in all <==> c in Trims(ps) || c in LastChunk(ps, last);
  }

  lemma {:induction false} TrimsFitIff(ps: seq<Piece>, content: string, rest: string, maxLength: nat)
    requires maxLength >= 1 && Cuts(ps, content, rest, maxLength)
    ensures (forall c :: c in Trims(ps) ==> |c| <= maxLength) <==> (forall p :: p in ps ==> Fits(p, maxLength))
  {
    if ps != [] {
      var front, p := ps[..|ps| - 1], ps[|ps| - 1];
      TrimsFitIff(front, content, p.text + rest, maxLength);
      ChunkFitsIff(p, p.text + rest, maxLength);
      assert Trim(p.Whole()) in Trims(ps) && p in ps;
      forall q ensures q in ps <==> q in front || q == p { InFrontOrLast(ps, q); }
      assert forall c :: c in Trims(ps) <==> c in Trims(front) || c == Trim(p.Whole());
    }
  }

  lemma SplitFacts(ps: seq<Piece>, content: string, last: string, maxLength: nat)
    requires maxLength >= 1 && Cuts(ps, content, last, maxLength) && |Handed(ps) + last| <= maxLength
    ensures Texts(ps) + last == content
    ensures forall p :: p in ps ==> |Trim(p.Whole())| <= maxLength + |p.closer| && p.closer in {"", CLOSER}
    ensures var chunks := NonEmpty(Trims(ps) + LastChunk(ps, last));
      && (forall c :: c in chunks ==> 0 < |c| <= maxLength + 4)
      && ((forall c :: c in chunks ==> |c| <= maxLength) <==> (forall p :: p in ps ==> Fits(p, maxLength)))
      && (forall i :: 0 <= i < |chunks| - 1 ==> !Odd(Fences(chunks[i])))
    ensures RunsIntact(ps, last) ==> Odd(Fences(Handed(ps) + last)) == Odd(Fences(content))
  {
    NothingLost(ps, content, last, maxLength);
    ChunksAreBalanced(ps, content, last, maxLength);
    ChunksFitIff(ps, content, last, maxLength);
    if RunsIntact(ps, last) {
      ParityKept(ps, content, last, maxLength);
    }
    TailIsLast(Trims(ps), LastChunk(ps, last));
  }

  lemma TailIsLast(chunks: seq<string>, tail: seq<string>)
    requires |tail| <= 1
    ensures forall c :: c in NonEmpty(chunks + tail) ==> c != "" && (c in chunks || c in tail)
    ensures forall i :: 0 <= i < |NonEmpty(chunks + tail)| - 1 ==> NonEmpty(chunks + tail)[i] in chunks
  {
    NonEmptyKeeps(chunks + tail);
    NonEmptyKeeps(chunks);
    if tail == [] {
      assert chunks + tail == chunks;
    } else {
      assert (chunks + tail)[..|chunks|] == chunks;
    }
  }
}
