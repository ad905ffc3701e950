/**
 * The handful of Rust `str` operations the parsers are built from, written out
 * as sequence functions: `trim`, `trim_matches`, `lines`, `split`,
 * `split_whitespace`, `contains`, `starts_with`, `split_once`, `to_lowercase`
 * and `join`. Whitespace is the ASCII part of `char::is_whitespace`.
 */
module Text {
  import opened Wrappers

  /** Space, tab, line feed, vertical tab, form feed and carriage return. */
  predicate IsSpace(c: char) {
    c == ' ' || '\t' <= c <= '\r'
  }

  predicate IsBlank(s: string) {
    forall i :: 0 <= i < |s| ==> IsSpace(s[i])
  }

  predicate NoSpace(s: string) {
    forall i :: 0 <= i < |s| ==> !IsSpace(s[i])
  }

  // ---------------------------------------------------------------- trimming

  /** `trim_start_matches(strip)`: drop every leading character that matches. */
  function TrimStartBy(s: string, strip: char -> bool): (r: string)
    ensures |r| <= |s| && r == s[|s| - |r|..]
    ensures r == [] || !strip(r[0])
    ensures forall i :: 0 <= i < |s| - |r| ==> strip(s[i])
    decreases |s|
  {
    if s != [] && strip(s[0]) then TrimStartBy(s[1..], strip) else s
  }

  /** `trim_end_matches(strip)`: drop every trailing character that matches. */
  function TrimEndBy(s: string, strip: char -> bool): (r: string)
    ensures |r| <= |s| && r == s[..|r|]
    ensures r == [] || !strip(r[|r| - 1])
    ensures forall i :: |r| <= i < |s| ==> strip(s[i])
    decreases |s|
  {
    if s != [] && strip(s[|s| - 1]) then TrimEndBy(s[..|s| - 1], strip) else s
  }

  /** `trim_matches(strip)`: both ends. */
  function TrimMatches(s: string, strip: char -> bool): string {
    TrimEndBy(TrimStartBy(s, strip), strip)
  }

  /** `trim()`. */
  function Trim(s: string): string {
    TrimMatches(s, IsSpace)
  }

  predicate IsQuote(c: char) { c == '"' }

  predicate IsParen(c: char) { c == '(' || c == ')' }

  /** A trimmed string is empty exactly when the input was all whitespace. */
  lemma TrimEmptyIffBlank(s: string)
    ensures Trim(s) == [] <==> IsBlank(s)
  {
    var t := TrimStartBy(s, IsSpace);
    if t != [] {
      assert !IsSpace(t[0]) && s[|s| - |t|] == t[0];
    } else {
      assert forall i :: 0 <= i < |s| ==> IsSpace(s[i]);
    }
  }

  /** Text with no whitespace at either end is its own trim. */
  lemma TrimUnchanged(s: string)
    requires s == [] || (!IsSpace(s[0]) && !IsSpace(s[|s| - 1]))
    ensures Trim(s) == s
  {
    assert TrimStartBy(s, IsSpace) == s;
    assert TrimEndBy(s, IsSpace) == s;
  }

  /** A trimmed string has no whitespace at either end. */
  lemma TrimEnds(s: string)
    ensures Trim(s) == [] || (!IsSpace(Trim(s)[0]) && !IsSpace(Trim(s)[|Trim(s)| - 1]))
  {
    var t := TrimStartBy(s, IsSpace);
    var u := TrimEndBy(t, IsSpace);
    if u != [] {
      assert u[0] == t[0];
    }
  }

  // ---------------------------------------------------------------- searching

  /** `position(|y| y == x)`: the index of the first `x` in `s`. */
  function IndexOf<T(==)>(s: seq<T>, x: T): (r: Option<nat>)
    ensures r.Some? ==> r.value < |s| && s[r.value] == x && x !in s[..r.value]
    ensures r.None? <==> x !in s
  {
    if s == [] then None
    else if s[0] == x then Some(0)
    else match IndexOf(s[1..], x)
      case None => None
      case Some(i) =>
        assert s[1..][..i] == s[1..i + 1];
        Some(i + 1)
  }

  predicate OccursAt(s: string, pat: string, i: nat) {
    i + |pat| <= |s| && s[i..i + |pat|] == pat
  }

  function FindFrom(s: string, pat: string, i: nat): (r: Option<nat>)
    requires i <= |s|
    ensures r.Some? ==> i <= r.value && OccursAt(s, pat, r.value)
    ensures r.Some? ==> forall j :: i <= j < r.value ==> !OccursAt(s, pat, j)
    ensures r.None? ==> forall j :: i <= j ==> !OccursAt(s, pat, j)
    decreases |s| - i
  {
    if OccursAt(s, pat, i) then Some(i)
    else if i == |s| then None
    else FindFrom(s, pat, i + 1)
  }

  /** `find(pat)`: the first position where `pat` occurs. */
  function Find(s: string, pat: string): (r: Option<nat>)
    ensures r.Some? ==> OccursAt(s, pat, r.value) && forall j :: 0 <= j < r.value ==> !OccursAt(s, pat, j)
    ensures r.None? <==> forall j :: 0 <= j ==> !OccursAt(s, pat, j)
  {
    FindFrom(s, pat, 0)
  }

  /** `contains(pat)`. */
  predicate Contains(s: string, pat: string) {
    Find(s, pat).Some?
  }

  /** A one-character pattern occurs exactly when the character does. */
  lemma ContainsChar(s: string, c: char)
    ensures Contains(s, [c]) <==> c in s
  {
    if c in s {
      var j :| 0 <= j < |s| && s[j] == c;
      assert s[j..j + 1] == [c];
      assert OccursAt(s, [c], j);
    }
    if Contains(s, [c]) {
      var j := Find(s, [c]).value;
      assert s[j..j + 1][0] == s[j];
    }
  }

  /** `starts_with(pre)`. */
  predicate StartsWith(s: string, pre: string) {
    |pre| <= |s| && s[..|pre|] == pre
  }

  /** `ends_with(suf)`. */
  predicate EndsWith(s: string, suf: string) {
    |suf| <= |s| && s[|s| - |suf|..] == suf
  }

  /** `trim_end_matches(suf)` for a non-empty string pattern: every trailing copy goes. */
  function TrimEndMatches(s: string, suf: string): (r: string)
    requires |suf| > 0
    ensures |r| <= |s| && r == s[..|r|]
    ensures !EndsWith(r, suf)
    decreases |s|
  {
    if EndsWith(s, suf) then TrimEndMatches(s[..|s| - |suf|], suf) else s
  }

  // ---------------------------------------------------------------- splitting

  /** `split(sep)` on a character: every piece, empty ones included. */
  function Split(s: string, sep: char): (parts: seq<string>)
    ensures |parts| >= 1
    ensures forall p :: p in parts ==> sep !in p
    decreases |s|
  {
    match IndexOf(s, sep)
    case None => [s]
    case Some(i) => [s[..i]] + Split(s[i + 1..], sep)
  }

  /** `split(pat)` on a non-empty string pattern. */
  function SplitStr(s: string, pat: string): (parts: seq<string>)
    requires |pat| > 0
    ensures |parts| >= 1
    decreases |s|
  {
    match Find(s, pat)
    case None => [s]
    case Some(i) => [s[..i]] + SplitStr(s[i + |pat|..], pat)
  }

  /** `split_once(pat)` (and `splitn(2, pat)`): the text around the first occurrence. */
  function SplitOnce(s: string, pat: string): (r: Option<(string, string)>)
    ensures r.Some? <==> Contains(s, pat)
    ensures r.Some? ==> r.value.0 + pat + r.value.1 == s
    ensures r.Some? && |pat| > 0 ==> !Contains(r.value.0, pat)
  {
    match Find(s, pat)
    case None => None
    case Some(i) =>
      assert s == s[..i] + pat + s[i + |pat|..];
      assert forall j :: 0 <= j && OccursAt(s[..i], pat, j) ==> OccursAt(s, pat, j) by {
        forall j | 0 <= j && OccursAt(s[..i], pat, j) ensures OccursAt(s, pat, j) {
          assert s[..i][j..j + |pat|] == s[j..j + |pat|];
        }
      }
      Some((s[..i], s[i + |pat|..]))
  }

  /** `split_once(pat)` on `a + pat + b` gives `a` and `b` when `pat` first occurs right after `a`. */
  lemma SplitOnceFirst(a: string, pat: string, b: string)
    requires |pat| > 0
    requires forall j :: 0 <= j < |a| ==> !OccursAt(a + pat + b, pat, j)
    ensures SplitOnce(a + pat + b, pat) == Some((a, b))
  {
    var s := a + pat + b;
    assert s[|a|..|a| + |pat|] == pat;
    assert OccursAt(s, pat, |a|);
    assert s[..|a|] == a && s[|a| + |pat|..] == b;
  }

  /**
   * A pattern whose character at `m` is neither in `a` nor earlier in the
   * pattern cannot start inside `a`.
   */
  lemma PatternNotInside(a: string, pat: string, b: string, m: nat)
    requires m < |pat| && pat[m] !in a && pat[m] !in pat[..m]
    ensures forall j :: 0 <= j < |a| ==> !OccursAt(a + pat + b, pat, j)
  {
    var s := a + pat + b;
    forall j | 0 <= j < |a|
      ensures !OccursAt(s, pat, j)
    {
      if j + |pat| <= |s| {
        var w := s[j..j + |pat|];
        assert w[m] == s[j + m];
        if j + m < |a| {
          assert s[j + m] == a[j + m];
          assert a[j + m] in a;
        } else {
          assert s[j + m] == pat[j + m - |a|] == pat[..m][j + m - |a|];
          assert pat[..m][j + m - |a|] in pat[..m];
        }
        assert w[m] != pat[m];
      }
    }
  }

  /** A pattern does not occur in text that lacks one of its characters. */
  lemma AbsentPattern(s: string, pat: string, m: nat)
    requires m < |pat| && pat[m] !in s
    ensures !Contains(s, pat)
  {
    forall j | 0 <= j
      ensures !OccursAt(s, pat, j)
    {
      if j + |pat| <= |s| {
        assert s[j..j + |pat|][m] == s[j + m];
        assert s[j + m] in s;
      }
    }
  }

  /** The first piece of `split(pat)` is the text before the first occurrence; the rest splits what follows. */
  lemma SplitStrFirst(s: string, pat: string)
    requires |pat| > 0
    ensures !Contains(s, pat) ==> SplitStr(s, pat) == [s]
    ensures Contains(s, pat) ==> SplitStr(s, pat) == [SplitOnce(s, pat).value.0] + SplitStr(SplitOnce(s, pat).value.1, pat)
  {
  }

  /** `join(sep)`. */
  function Join(parts: seq<string>, sep: string): string {
    if |parts| == 0 then ""
    else if |parts| == 1 then parts[0]
    else parts[0] + sep + Join(parts[1..], sep)
  }

  /** Joining the pieces of a split with the same separator gives the text back. */
  lemma {:induction false} SplitThenJoin(s: string, sep: char)
    ensures Join(Split(s, sep), [sep]) == s
    decreases |s|
  {
    match IndexOf(s, sep)
    case None =>
    case Some(i) =>
      SplitThenJoin(s[i + 1..], sep);
      JoinCons(s[..i], Split(s[i + 1..], sep), [sep]);
      Around(s, i);
  }

  /** A sequence is its prefix, the element at `i` and its suffix. */
  lemma Around<T>(s: seq<T>, i: nat)
    requires i < |s|
    ensures s == s[..i] + [s[i]] + s[i + 1..]
  {
  }

  lemma JoinCons(head: string, rest: seq<string>, sep: string)
    requires |rest| >= 1
    ensures Join([head] + rest, sep) == head + sep + Join(rest, sep)
  {
    assert ([head] + rest)[1..] == rest;
  }

  /** Splitting at the first separator: a separator-free head comes off first. */
  lemma SplitCons(head: string, rest: string, sep: char)
    requires sep !in head
    ensures Split(head + [sep] + rest, sep) == [head] + Split(rest, sep)
  {
    var s := head + [sep] + rest;
    assert s[..|head|] == head && s[|head|] == sep;
    assert IndexOf(s, sep) == Some(|head|);
    assert s[|head| + 1..] == rest;
  }

  /** Splitting at a last separator: a separator-free tail comes off last. */
  lemma {:induction false} SplitSnoc(a: string, b: string, sep: char)
    requires sep !in b
    ensures Split(a + [sep] + b, sep) == Split(a, sep) + [b]
    decreases |a|
  {
    match IndexOf(a, sep)
    case None =>
      SplitCons(a, b, sep);
      assert Split(b, sep) == [b];
    case Some(i) =>
      var head, tail := a[..i], a[i + 1..];
      var rest := tail + [sep] + b;
      assert a + [sep] + b == head + [sep] + rest by { Around(a, i); }
      SplitCons(head, rest, sep);
      SplitSnoc(tail, b, sep);
      assert Split(a, sep) == [head] + Split(tail, sep) by { Around(a, i); SplitCons(head, tail, sep); }
  }

  /** `split(sep).last()` (and `rsplit(sep).next()`): the text after the last separator. */
  function LastPiece(s: string, sep: char): string {
    var pieces := Split(s, sep);
    pieces[|pieces| - 1]
  }

  /** The last piece of `prefix + [sep] + name` is `name` when `name` has no separator, whatever `prefix` holds. */
  lemma LastPieceAfter(prefix: string, name: string, sep: char)
    requires sep !in name
    ensures LastPiece(prefix + [sep] + name, sep) == name
  {
    SplitSnoc(prefix, name, sep);
  }

  /** A character in neither the pieces nor the separator is not in their join. */
  lemma {:induction false} JoinAvoids(parts: seq<string>, sep: string, c: char)
    requires c !in sep
    requires forall p :: p in parts ==> c !in p
    ensures c !in Join(parts, sep)
    decreases |parts|
  {
    if |parts| > 1 {
      assert forall p :: p in parts[1..] ==> p in parts;
      JoinAvoids(parts[1..], sep, c);
      assert parts[0] in parts;
    } else if |parts| == 1 {
      assert parts[0] in parts;
    }
  }

  /** Splitting a join of separator-free pieces gives the pieces back. */
  lemma {:induction false} JoinThenSplit(parts: seq<string>, sep: char)
    requires |parts| >= 1
    requires forall p :: p in parts ==> sep !in p
    ensures Split(Join(parts, [sep]), sep) == parts
    decreases |parts|
  {
    if |parts| > 1 {
      JoinThenSplit(parts[1..], sep);
      JoinCons(parts[0], parts[1..], [sep]);
      SplitCons(parts[0], Join(parts[1..], [sep]), sep);
      assert parts == [parts[0]] + parts[1..];
    }
  }

  /** Drops the `\r` of a `\r\n` line ending. */
  function StripCr(line: string): string {
    if |line| > 0 && line[|line| - 1] == '\r' then line[..|line| - 1] else line
  }

  /**
   * `lines()`: split at `\n`, drop a `\r` just before it, and produce no line
   * after a final `\n` (so the empty text has no lines).
   */
  function Lines(s: string): (ls: seq<string>)
    ensures s != [] ==> |ls| >= 1
    decreases |s|
  {
    if s == [] then []
    else match IndexOf(s, '\n')
      case None => [s]
      case Some(i) => [StripCr(s[..i])] + Lines(s[i + 1..])
  }

  /** The lines of `a + "\n" + b` when `a` holds no line feed. */
  lemma LinesCons(a: string, b: string)
    requires '\n' !in a
    ensures Lines(a + "\n" + b) == [StripCr(a)] + Lines(b)
  {
    var s := a + "\n" + b;
    assert s[..|a|] == a && s[|a|] == '\n';
    assert IndexOf(s, '\n') == Some(|a|);
    assert s[|a| + 1..] == b;
  }

  /** Two lines joined by a line feed read back as those two lines. */
  lemma LinesTwo(a: string, b: string)
    requires '\n' !in a && '\n' !in b && b != []
    requires a == [] || a[|a| - 1] != '\r'
    ensures Lines(a + "\n" + b) == [a, b]
  {
    LinesCons(a, b);
    assert StripCr(a) == a;
    assert Lines(b) == [b];
  }

  /** Index just past the first word of `s`. */
  function TokenEnd(s: string): (k: nat)
    ensures k <= |s|
    ensures forall i :: 0 <= i < k ==> !IsSpace(s[i])
    ensures k < |s| ==> IsSpace(s[k])
  {
    if s == [] || IsSpace(s[0]) then 0 else 1 + TokenEnd(s[1..])
  }

  /** Index of the first non-whitespace character of `s`, or `|s|`. */
  function SpaceEnd(s: string): (k: nat)
    ensures k <= |s|
    ensures forall i :: 0 <= i < k ==> IsSpace(s[i])
    ensures k < |s| ==> !IsSpace(s[k])
  {
    if s == [] || !IsSpace(s[0]) then 0 else 1 + SpaceEnd(s[1..])
  }

  /** `split_whitespace()`: the maximal runs of non-whitespace characters. */
  function SplitWhitespace(s: string): (ts: seq<string>)
    ensures forall t :: t in ts ==> t != [] && NoSpace(t)
    ensures ts == [] <==> IsBlank(s)
    decreases |s|
  {
    var i := SpaceEnd(s);
    if i == |s| then []
    else
      var t := s[i..];
      var k := TokenEnd(t);
      var word, rest := t[..k], SplitWhitespace(t[k..]);
      assert word != [] && NoSpace(word) by {
        assert word[0] == t[0];
        forall j | 0 <= j < |word| ensures !IsSpace(word[j]) {
          assert word[j] == t[j];
        }
      }
      assert forall x :: x in [word] + rest ==> x == word || x in rest;
      [word] + rest
  }

  /** A word followed by whitespace or nothing is the first token, and the rest splits on. */
  lemma WordsCons(word: string, rest: string)
    requires word != [] && NoSpace(word)
    requires rest == [] || IsSpace(rest[0])
    ensures SplitWhitespace(word + rest) == [word] + SplitWhitespace(rest)
  {
    var s := word + rest;
    assert SpaceEnd(s) == 0 by {
      assert s[0] == word[0];
    }
    assert s[0..] == s;
    assert forall i :: 0 <= i < |word| ==> !IsSpace(s[i]) by {
      forall i | 0 <= i < |word| ensures !IsSpace(s[i]) {
        assert s[i] == word[i];
      }
    }
    assert |s| > |word| ==> IsSpace(s[|word|]);
    assert TokenEnd(s) == |word|;
    assert s[..|word|] == word && s[|word|..] == rest;
  }

  /** One leading space does not change the tokens. */
  lemma LeadingSpace(x: string)
    ensures SplitWhitespace(" " + x) == SplitWhitespace(x)
  {
    var s := " " + x;
    assert SpaceEnd(s) == 1 + SpaceEnd(x) by {
      assert s[1..] == x;
    }
    var i := SpaceEnd(x);
    assert s[1 + i..] == x[i..];
  }

  /** A word, a space and more text: the word, then the tokens of the text. */
  lemma WordThenSpace(word: string, rest: string)
    requires word != [] && NoSpace(word)
    ensures SplitWhitespace(word + (" " + rest)) == [word] + SplitWhitespace(rest)
  {
    var spaced := " " + rest;
    assert spaced[0] == ' ';
    WordsCons(word, spaced);
    LeadingSpace(rest);
  }

  /** A single word is its only token. */
  lemma OneWord(word: string)
    requires word != [] && NoSpace(word)
    ensures SplitWhitespace(word) == [word]
  {
    WordsCons(word, "");
    assert word + "" == word;
    assert IsBlank("");
  }

  /** Joining by spaces puts the first word, then a space, then the rest joined. */
  lemma JoinSpaceCons(words: seq<string>)
    requires |words| >= 2
    ensures Join(words, " ") == words[0] + (" " + Join(words[1..], " "))
  {
  }

  /** Words without whitespace, joined by single spaces, split back into those words. */
  lemma {:induction false} SplitWhitespaceJoin(words: seq<string>)
    requires forall w :: w in words ==> w != [] && NoSpace(w)
    ensures SplitWhitespace(Join(words, " ")) == words
    decreases |words|
  {
    if |words| == 0 {
      assert IsBlank("");
    } else if |words| == 1 {
      assert words[0] in words;
      OneWord(words[0]);
    } else {
      assert forall w :: w in words[1..] ==> w in words;
      SplitWhitespaceJoin(words[1..]);
      assert words[0] in words;
      JoinSpaceCons(words);
      WordThenSpace(words[0], Join(words[1..], " "));
    }
  }

  /** `skip(1)`. */
  function Skip1<T>(s: seq<T>): seq<T> {
    if s == [] then [] else s[1..]
  }

  // ---------------------------------------------------------------- case

  /** ASCII `to_lowercase` of one character. */
  function LowerChar(c: char): char {
    if 'A' <= c <= 'Z' then (c as int + 32) as char else c
  }

  /** `to_lowercase()`, restricted to ASCII letters. */
  function Lower(s: string): (r: string)
    ensures |r| == |s|
    ensures forall i :: 0 <= i < |s| ==> r[i] == LowerChar(s[i])
  {
    if s == [] then [] else [LowerChar(s[0])] + Lower(s[1..])
  }

  // ---------------------------------------------------------------- collecting

  /** Text without ASCII capitals is its own lower-case form. */
  lemma LowerOfLowercase(s: string)
    requires forall i :: 0 <= i < |s| ==> !('A' <= s[i] <= 'Z')
    ensures Lower(s) == s
  {
    assert forall i :: 0 <= i < |s| ==> Lower(s)[i] == s[i];
  }

  /** `position(p)`: the index of the first line satisfying `p`. */
  function FirstWhere(ls: seq<string>, p: string -> bool): (r: Option<nat>)
    ensures r.Some? ==> r.value < |ls| && p(ls[r.value])
    ensures r.Some? ==> forall j :: 0 <= j < r.value ==> !p(ls[j])
    ensures r.None? <==> forall j :: 0 <= j < |ls| ==> !p(ls[j])
    decreases |ls|
  {
    if ls == [] then None
    else if p(ls[0]) then Some(0)
    else match FirstWhere(ls[1..], p)
      case None => None
      case Some(k) => Some(k + 1)
  }

  /** The first line after lines that all fail `p`, when it satisfies `p`, is found. */
  lemma FirstWhereAfter(before: seq<string>, line: string, after: seq<string>, p: string -> bool)
    requires forall l :: l in before ==> !p(l)
    requires p(line)
    ensures FirstWhere(before + [line] + after, p) == Some(|before|)
  {
    var ls := before + [line] + after;
    assert ls[|before|] == line;
    forall j | 0 <= j < |before|
      ensures !p(ls[j])
    {
      assert ls[j] == before[j];
      assert before[j] in before;
    }
  }

  /** `filter_map(f).collect()` over lines: keep each line's record, in order. */
  function Collect<T>(ls: seq<string>, f: string -> Option<T>): (r: seq<T>)
    ensures |r| <= |ls|
    decreases |ls|
  {
    if ls == [] then []
    else Collect(ls[..|ls| - 1], f) + match f(ls[|ls| - 1]) case Some(x) => [x] case None => []
  }

  /** Two lines whose records both exist collect to those two records. */
  lemma CollectPair<T>(a: string, b: string, f: string -> Option<T>)
    requires f(a).Some? && f(b).Some?
    ensures Collect([a, b], f) == [f(a).value, f(b).value]
  {
    assert [a, b][..1] == [a];
    assert [a][..0] == [];
  }

  /** Extending a prefix of the lines by one line appends that line's record, if any. */
  lemma CollectStep<T>(ls: seq<string>, i: nat, f: string -> Option<T>)
    requires i < |ls|
    ensures Collect(ls[..i + 1], f) == Collect(ls[..i], f) + match f(ls[i]) case Some(x) => [x] case None => []
  {
    assert ls[..i + 1][..i] == ls[..i];
  }

  /** How many lines satisfy `p`. */
  function CountWhere(ls: seq<string>, p: string -> bool): (n: nat)
    ensures n <= |ls|
    decreases |ls|
  {
    if ls == [] then 0 else CountWhere(ls[..|ls| - 1], p) + if p(ls[|ls| - 1]) then 1 else 0
  }

  /** Collecting distributes over concatenation: record order follows line order. */
  lemma {:induction false} CollectAppend<T>(a: seq<string>, b: seq<string>, f: string -> Option<T>)
    ensures Collect(a + b, f) == Collect(a, f) + Collect(b, f)
    decreases |b|
  {
    if b == [] {
      assert a + b == a;
    } else {
      var b' := b[..|b| - 1];
      CollectAppend(a, b', f);
      assert (a + b)[..|a + b| - 1] == a + b';
    }
  }

  /** Every collected record is the record of some line. */
  lemma {:induction false} CollectFrom<T>(ls: seq<string>, f: string -> Option<T>, x: T)
    requires x in Collect(ls, f)
    ensures exists l :: l in ls && f(l) == Some(x)
    decreases |ls|
  {
    var init := ls[..|ls| - 1];
    if x in Collect(init, f) {
      CollectFrom(init, f, x);
      var l :| l in init && f(l) == Some(x);
      assert l in ls;
    } else {
      assert f(ls[|ls| - 1]) == Some(x);
    }
  }

  /** When `f` keeps exactly the lines satisfying `p`, there are that many records. */
  lemma {:induction false} CollectCount<T>(ls: seq<string>, f: string -> Option<T>, p: string -> bool)
    requires forall l :: l in ls ==> (f(l).Some? <==> p(l))
    ensures |Collect(ls, f)| == CountWhere(ls, p)
    decreases |ls|
  {
    if ls != [] {
      CollectCount(ls[..|ls| - 1], f, p);
      assert ls[|ls| - 1] in ls;
    }
  }

  /** When `f` keeps every line, record `i` is the record of line `i`. */
  lemma {:induction false} CollectEvery<T>(ls: seq<string>, f: string -> Option<T>)
    requires forall l :: l in ls ==> f(l).Some?
    ensures |Collect(ls, f)| == |ls|
    ensures forall i :: 0 <= i < |ls| ==> Some(Collect(ls, f)[i]) == f(ls[i])
    decreases |ls|
  {
    if ls != [] {
      var init := ls[..|ls| - 1];
      assert forall l :: l in init ==> l in ls;
      CollectEvery(init, f);
      assert ls[|ls| - 1] in ls;
    }
  }
}
