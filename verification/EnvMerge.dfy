/** `mergeEnvContent`: updating an env file in place, line by line. */
module EnvMerge {
  import opened Prelude
  import opened Text
  import opened EnvQuoting
  import opened EnvFile

  /** `Object.entries(updates)`; no key occurs twice. */
  datatype Update = Update(key: string, value: string)

  ghost predicate Distinct(us: seq<Update>) {
    forall i, j :: 0 <= i < j < |us| ==> us[i].key != us[j].key
  }

  function Lookup(us: seq<Update>, k: string): Option<string> {
    if us == [] then None
    else if us[0].key == k then Some(us[0].value)
    else Lookup(us[1..], k)
  }

  /** `remaining.delete(k)`. */
  function Without(us: seq<Update>, k: string): seq<Update> {
    if us == [] then []
    else if us[0].key == k then Without(us[1..], k)
    else [us[0]] + Without(us[1..], k)
  }

  // ---- What the merge yields ----

  function Parsed(lines: seq<string>, uncomment: bool): (ps: seq<Line>)
    ensures |ps| == |lines|
  {
    if lines == [] then [] else [Parse(lines[0], uncomment)] + Parsed(lines[1..], uncomment)
  }

  lemma {:induction false} ParsedAt(lines: seq<string>, uncomment: bool, i: nat)
    requires i < |lines|
    ensures Parsed(lines, uncomment)[i] == Parse(lines[i], uncomment)
  {
    if i > 0 {
      ParsedAt(lines[1..], uncomment, i - 1);
      ConsAt(Parse(lines[0], uncomment), Parsed(lines[1..], uncomment), i);
    }
  }

  predicate KeyIs(p: Line, k: string) {
    p.Sets? && p.key == k
  }

  /** Some line sets `k`. */
  ghost predicate Matches(ps: seq<Line>, k: string) {
    exists p | p in ps :: KeyIs(p, k)
  }

  /** A line of the result: an updated key is written on the first line that sets it. */
  ghost function NewLine(line: string, p: Line, earlier: seq<Line>, us: seq<Update>): string {
    if p.Sets? && Lookup(us, p.key).Some? && !Matches(earlier, p.key)
    then Assignment(p.exported, p.key, Quote(Lookup(us, p.key).value))
    else line
  }

  ghost function NewLines(lines: seq<string>, ps: seq<Line>, us: seq<Update>): (r: seq<string>)
    requires |ps| == |lines|
    ensures |r| == |lines|
  {
    seq(|lines|, i requires 0 <= i < |lines| => NewLine(lines[i], ps[i], ps[..i], us))
  }

  /** The updates whose key no line sets, in their order. */
  ghost function Unmatched(us: seq<Update>, ps: seq<Line>): seq<Update> {
    if us == [] then []
    else if Matches(ps, us[0].key) then Unmatched(us[1..], ps)
    else [us[0]] + Unmatched(us[1..], ps)
  }

  function Written(us: seq<Update>): (r: seq<string>)
    ensures |r| == |us|
  {
    if us == [] then [] else [Assignment(false, us[0].key, Quote(us[0].value))] + Written(us[1..])
  }

  /** What is appended: a blank line unless the file ends with one, the section header if there is
      one, and the updates that no line took. */
  function Appended(endsBlank: bool, us: seq<Update>, header: string): seq<string> {
    if us == [] then []
    else (if endsBlank then [] else [""]) + (if header == "" then [] else [header]) + Written(us)
  }

  predicate EndsBlank(lines: seq<string>) {
    lines != [] && lines[|lines| - 1] == ""
  }

  ghost function MergedLines(lines: seq<string>, ps: seq<Line>, us: seq<Update>, header: string): seq<string>
    requires |ps| == |lines|
  {
    var kept := NewLines(lines, ps, us);
    kept + Appended(EndsBlank(kept), Unmatched(us, ps), header)
  }

  ghost function Merged(content: string, us: seq<Update>, uncomment: bool, header: string): string {
    var lines := Split(content);
    Join(MergedLines(lines, Parsed(lines, uncomment), us, header))
  }

  // ---- The loop ----

  lemma LookupCons(u: Update, us: seq<Update>, k: string)
    ensures Lookup([u] + us, k) == if u.key == k then Some(u.value) else Lookup(us, k)
  {
    assert ([u] + us)[1..] == us;
  }

  lemma {:induction false} WithoutAbsent(us: seq<Update>, k: string)
    requires Lookup(us, k).None?
    ensures Without(us, k) == us
  {
    if us != [] { WithoutAbsent(us[1..], k); }
  }

  lemma {:induction false} LookupUnmatched(us: seq<Update>, ps: seq<Line>, k: string)
    ensures Lookup(Unmatched(us, ps), k) == if Matches(ps, k) then None else Lookup(us, k)
  {
    if us != [] {
      LookupUnmatched(us[1..], ps, k);
      LookupCons(us[0], Unmatched(us[1..], ps), k);
    }
  }

  lemma MatchesNext(ps: seq<Line>, p: Line, k: string)
    ensures Matches(ps + [p], k) <==> Matches(ps, k) || KeyIs(p, k)
  {
    assert forall x :: x in ps + [p] <==> x in ps || x == p;
  }

  lemma WithoutCons(u: Update, us: seq<Update>, k: string)
    ensures Without([u] + us, k) == if u.key == k then Without(us, k) else [u] + Without(us, k)
  {
    assert ([u] + us)[1..] == us;
  }

  /** One more line removes from the unmatched updates the one whose key it sets. */
  lemma {:induction false} UnmatchedNext(us: seq<Update>, ps: seq<Line>, p: Line)
    ensures Unmatched(us, ps + [p]) == if p.Sets? then Without(Unmatched(us, ps), p.key) else Unmatched(us, ps)
  {
    if us != [] {
      UnmatchedNext(us[1..], ps, p);
      MatchesNext(ps, p, us[0].key);
      if p.Sets? { WithoutCons(us[0], Unmatched(us[1..], ps), p.key); }
    }
  }

  lemma {:induction false} NoneMatchedYet(us: seq<Update>)
    ensures Unmatched(us, []) == us
  {
    if us != [] { NoneMatchedYet(us[1..]); }
  }

  method MergeEnvContent(content: string, updates: seq<Update>, uncomment: bool, sectionHeader: string)
    returns (merged: string)
    ensures merged == Merged(content, updates, uncomment, sectionHeader)
  {
    var lines := Split(content);
    var kept, remaining := RewriteLines(lines, updates, uncomment);
    lines := Append(kept, remaining, sectionHeader);
    merged := Join(lines);
  }

  /** The loop over the lines, which are overwritten in place. */
  method RewriteLines(was: seq<string>, updates: seq<Update>, uncomment: bool)
    returns (lines: seq<string>, remaining: seq<Update>)
    ensures lines == NewLines(was, Parsed(was, uncomment), updates)
    ensures remaining == Unmatched(updates, Parsed(was, uncomment))
  {
    lines, remaining := was, updates;
    ghost var ps := Parsed(was, uncomment);
    ghost var target := NewLines(was, ps, updates);
    NoneMatchedYet(updates);
    for i := 0 to |lines|
      invariant lines == target[..i] + was[i..]
      invariant remaining == Unmatched(updates, ps[..i])
    {
      var line, rest := Rewrite(lines[i], ps[..i], updates, remaining, uncomment);
      ParsedAt(was, uncomment, i);
      NewLinesAt(was, ps, updates, i);
      Overwrite(target, was, i);
      TakeNext(ps, i);
      lines, remaining := lines[i := line], rest;
    }
    TakeAll(ps);
    TakeAll(target);
  }

  lemma Overwrite<T>(new_: seq<T>, was: seq<T>, i: nat)
    requires i < |was| == |new_|
    ensures (new_[..i] + was[i..])[i := new_[i]] == new_[..i + 1] + was[i + 1..]
  {
  }

  lemma NewLinesAt(lines: seq<string>, ps: seq<Line>, us: seq<Update>, i: nat)
    requires i < |ps| == |lines|
    ensures NewLines(lines, ps, us)[i] == NewLine(lines[i], ps[i], ps[..i], us)
  {
  }

  /** The updates that found no line go to the end. */
  method Append(before: seq<string>, remaining: seq<Update>, sectionHeader: string) returns (lines: seq<string>)
    ensures lines == before + Appended(EndsBlank(before), remaining, sectionHeader)
  {
    lines := before;
    if |remaining| == 0 { return; }
    ghost var blank := if EndsBlank(before) then [] else [""];
    ghost var head := if sectionHeader == "" then [] else [sectionHeader];
    if |lines| == 0 || lines[|lines| - 1] != "" { lines := lines + [""]; }
    assert lines == before + blank;
    if sectionHeader != "" { lines := lines + [sectionHeader]; }
    ghost var start := lines;
    assert start == before + blank + head;
    for i := 0 to |remaining|
      invariant lines == start + Written(remaining)[..i]
    {
      WrittenAt(remaining, i);
      Snoc(start, Written(remaining), i);
      lines := lines + [Assignment(false, remaining[i].key, Quote(remaining[i].value))];
    }
    assert Written(remaining)[..|remaining|] == Written(remaining);
    Associates(before, blank, head);
    Associates(before, blank + head, Written(remaining));
  }

  lemma Snoc<T>(a: seq<T>, b: seq<T>, i: nat)
    requires i < |b|
    ensures (a + b[..i]) + [b[i]] == a + b[..i + 1]
  {
  }

  lemma ConsAt<T>(x: T, s: seq<T>, i: nat)
    requires 0 < i <= |s|
    ensures ([x] + s)[i] == s[i - 1]
  {
  }

  lemma {:induction false} WrittenAt(us: seq<Update>, i: nat)
    requires i < |us|
    ensures Written(us)[i] == Assignment(false, us[i].key, Quote(us[i].value))
  {
    if i > 0 {
      WrittenAt(us[1..], i - 1);
      assert us[1..][i - 1] == us[i];
      ConsAt(Assignment(false, us[0].key, Quote(us[0].value)), Written(us[1..]), i);
    }
  }

  /** The loop's body. */
  method Rewrite(line: string, ghost earlier: seq<Line>, ghost updates: seq<Update>, remaining: seq<Update>,
                 uncomment: bool)
    returns (r: string, rest: seq<Update>)
    requires remaining == Unmatched(updates, earlier)
    ensures r == NewLine(line, Parse(line, uncomment), earlier, updates)
    ensures rest == Unmatched(updates, earlier + [Parse(line, uncomment)])
  {
    r, rest := line, remaining;
    var p := Parse(line, uncomment);
    UnmatchedNext(updates, earlier, p);
    if p.Other? { return; }
    LookupUnmatched(updates, earlier, p.key);
    var found := Lookup(remaining, p.key);
    if found.Some? {
      r := Assignment(p.exported, p.key, Quote(found.value));
      rest := Without(remaining, p.key);
    } else {
      WithoutAbsent(remaining, p.key);
    }
  }
}
