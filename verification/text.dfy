/** The few Python string operations the extractor is built from: `str.strip()`,
    `str.split()`, `str.splitlines()`, the substring test `in`, and `re.search` for a
    literal. Whitespace and digits are ASCII; `'\n'` is the only line break. */
module Text {
  import opened Wrappers

  /** ASCII whitespace: what `str.strip()`, `str.split()` and the regex class `\s` act on. */
  predicate IsSpace(c: char) {
    c == ' ' || c == '\t' || c == '\n' || c == '\r' || c == '\U{000B}' || c == '\U{000C}'
  }

  predicate IsDigit(c: char) {
    '0' <= c <= '9'
  }

  predicate AllSpace(s: string) {
    forall i :: 0 <= i < |s| ==> IsSpace(s[i])
  }

  predicate SpaceBetween(s: string, lo: int, hi: int)
    requires 0 <= lo && hi <= |s|
  {
    forall i :: lo <= i < hi ==> IsSpace(s[i])
  }

  predicate NoSpace(s: string) {
    forall i :: 0 <= i < |s| ==> !IsSpace(s[i])
  }

  predicate AllDigits(s: string) {
    forall i :: 0 <= i < |s| ==> IsDigit(s[i])
  }

  /** No whitespace at either end: the form `str.strip()` leaves. */
  predicate Trimmed(s: string) {
    s == [] || (!IsSpace(s[0]) && !IsSpace(s[|s| - 1]))
  }

  /** Number of whitespace characters at the start of `s`. */
  function LeadingSpace(s: string): (k: nat)
    ensures k <= |s|
    ensures AllSpace(s[..k])
    ensures k < |s| ==> !IsSpace(s[k])
  {
    if |s| > 0 && IsSpace(s[0]) then
      var k' := LeadingSpace(s[1..]);
      assert s[..k' + 1] == [s[0]] + s[1..][..k'];
      k' + 1
    else 0
  }

  /** Number of whitespace characters at the end of `s`. */
  function TrailingSpace(s: string): (k: nat)
    ensures k <= |s|
    ensures SpaceBetween(s, |s| - k, |s|)
    ensures k < |s| ==> !IsSpace(s[|s| - k - 1])
  {
    if |s| > 0 && IsSpace(s[|s| - 1]) then
      var p := s[..|s| - 1];
      var k' := TrailingSpace(p);
      assert forall i :: |p| - k' <= i < |p| ==> s[i] == p[i];
      k' + 1
    else 0
  }

  /** Python's `s.strip()`: the slice of `s` between its leading and its trailing
      whitespace. */
  function Strip(s: string): (r: string)
    ensures Trimmed(r)
    ensures r == [] <==> AllSpace(s)
    ensures LeadingSpace(s) + |r| <= |s|
    ensures r == s[LeadingSpace(s)..LeadingSpace(s) + |r|]
    ensures AllSpace(s[LeadingSpace(s) + |r|..])
  {
    var lo := LeadingSpace(s);
    if lo == |s| then
      assert s == s[..lo];
      []
    else
      StripEnd(s, lo);
      assert !AllSpace(s) by { assert !IsSpace(s[lo]); }
      s[lo..|s| - TrailingSpace(s[lo..])]
  }

  /** After a non-whitespace character at `lo`, the trailing whitespace of `s[lo..]`
      ends `s` and leaves a non-whitespace character before it. */
  lemma StripEnd(s: string, lo: nat)
    requires lo < |s| && !IsSpace(s[lo])
    ensures var hi := |s| - TrailingSpace(s[lo..]);
      lo < hi <= |s| && !IsSpace(s[hi - 1]) && AllSpace(s[hi..])
  {
    var t := s[lo..];
    var k := TrailingSpace(t);
    assert t[0] == s[lo];
    assert k < |t|;
    var hi := |s| - k;
    assert s[hi - 1] == t[|t| - k - 1];
    forall i | 0 <= i < |s[hi..]| ensures IsSpace(s[hi..][i]) {
      assert s[hi..][i] == t[|t| - k + i];
    }
  }

  /** Stripping a string that is already stripped changes nothing. */
  lemma {:induction false} StripTrimmed(s: string)
    requires Trimmed(s)
    ensures Strip(s) == s
  {
    if s != [] {
      assert LeadingSpace(s) == 0;
    }
  }

  /** `pat` occurs in `s` starting at index `j`. */
  predicate OccursAt(s: string, pat: string, j: nat) {
    j + |pat| <= |s| && s[j..j + |pat|] == pat
  }

  /** Python's `s.find(pat, start)`, as an option: the least index at or after `from`
      where `pat` occurs. */
  function IndexOf(s: string, pat: string, from: nat): (r: Option<nat>)
    ensures r.Some? ==> from <= r.value && OccursAt(s, pat, r.value)
    ensures r.Some? ==> forall j :: from <= j < r.value ==> !OccursAt(s, pat, j)
    ensures r.None? ==> forall j :: from <= j ==> !OccursAt(s, pat, j)
    decreases |s| - from
  {
    if from + |pat| > |s| then None
    else if s[from..from + |pat|] == pat then Some(from)
    else IndexOf(s, pat, from + 1)
  }

  /** The first occurrence at or after `from` is the one `IndexOf` finds. */
  lemma IndexOfIs(s: string, pat: string, from: nat, k: nat)
    requires from <= k && OccursAt(s, pat, k)
    requires forall j :: from <= j < k ==> !OccursAt(s, pat, j)
    ensures IndexOf(s, pat, from) == Some(k)
  {
    var r := IndexOf(s, pat, from);
    assert r.Some? && r.value == k;
  }

  /** Python's substring test `pat in s`. */
  predicate Contains(s: string, pat: string) {
    IndexOf(s, pat, 0).Some?
  }

  /** `pat in s` holds exactly when `pat` occurs at some index of `s`. */
  lemma ContainsOccurs(s: string, pat: string, j: nat)
    requires OccursAt(s, pat, j)
    ensures Contains(s, pat)
  {
  }

  /** `s.split(sep)` for a one-character separator: the pieces between the
      occurrences of `sep`, never fewer than one. */
  function SplitOn(s: string, sep: char): (r: seq<string>)
    ensures |r| >= 1
    ensures forall k :: 0 <= k < |r| ==> sep !in r[k]
    decreases |s|
  {
    match IndexOf(s, [sep], 0)
    case None =>
      assert sep !in s by {
        forall j | 0 <= j < |s| ensures s[j] != sep {
          assert !OccursAt(s, [sep], j);
          assert s[j..j + 1] == [s[j]];
        }
      }
      [s]
    case Some(k) =>
      assert sep !in s[..k] by {
        forall j | 0 <= j < k ensures s[j] != sep {
          assert !OccursAt(s, [sep], j);
          assert s[j..j + 1] == [s[j]];
        }
      }
      [s[..k]] + SplitOn(s[k + 1..], sep)
  }

  /** `sep.join(parts)`. */
  function Join(parts: seq<string>, sep: char): string
    requires |parts| >= 1
  {
    if |parts| == 1 then parts[0] else parts[0] + [sep] + Join(parts[1..], sep)
  }

  /** Splitting on a character and joining back on it restores the string. */
  lemma {:induction false} JoinSplitOn(s: string, sep: char)
    ensures Join(SplitOn(s, sep), sep) == s
    decreases |s|
  {
    match IndexOf(s, [sep], 0)
    case None =>
    case Some(k) =>
      assert s[k..k + 1] == [sep];
      JoinSplitOn(s[k + 1..], sep);
      assert s == s[..k] + [sep] + s[k + 1..];
  }

  /** Python's `text.splitlines()` with `'\n'` as the only line break: a final line
      break does not start an extra empty line, and the empty text has no lines. */
  function SplitLines(text: string): (lines: seq<string>)
    ensures text == [] <==> lines == []
  {
    if text == [] then []
    else if text[|text| - 1] == '\n' then SplitOn(text[..|text| - 1], '\n')
    else SplitOn(text, '\n')
  }

  /** Joining the lines with line breaks gives the text back, but for a final line
      break, which starts no line of its own. */
  lemma SplitLinesJoin(text: string)
    requires text != []
    ensures var final := if text[|text| - 1] == '\n' then "\n" else "";
      Join(SplitLines(text), '\n') + final == text
  {
    if text[|text| - 1] == '\n' {
      JoinSplitOn(text[..|text| - 1], '\n');
      assert text == text[..|text| - 1] + "\n";
    } else {
      JoinSplitOn(text, '\n');
    }
  }

  /** No line holds a line break. */
  lemma SplitLinesNoBreak(text: string)
    ensures var lines := SplitLines(text);
      forall k :: 0 <= k < |lines| ==> '\n' !in lines[k]
  {
  }

  /** Length of the run of non-whitespace characters that starts `s`. */
  function WordLength(s: string): (k: nat)
    ensures k <= |s|
    ensures NoSpace(s[..k])
    ensures k < |s| ==> IsSpace(s[k])
  {
    if |s| > 0 && !IsSpace(s[0]) then
      var k' := WordLength(s[1..]);
      assert s[..k' + 1] == [s[0]] + s[1..][..k'];
      k' + 1
    else 0
  }

  /** Python's `s.split()` without arguments: the maximal runs of non-whitespace
      characters, in order. */
  function SplitWhitespace(s: string): (words: seq<string>)
    ensures forall k :: 0 <= k < |words| ==> words[k] != [] && NoSpace(words[k])
    decreases |s|
  {
    var t := s[LeadingSpace(s)..];
    if t == [] then []
    else
      var k := WordLength(t);
      [t[..k]] + SplitWhitespace(t[k..])
  }

  /** Leading whitespace does not change the words. */
  lemma SplitWhitespaceSkipsSpace(c: char, s: string)
    requires IsSpace(c)
    ensures SplitWhitespace([c] + s) == SplitWhitespace(s)
  {
    var cs := [c] + s;
    assert cs[1..] == s;
    assert LeadingSpace(cs) == 1 + LeadingSpace(s);
    assert cs[LeadingSpace(cs)..] == s[LeadingSpace(s)..];
  }

  /** The run that starts `w + rest` is all of `w` when `rest` starts with whitespace. */
  lemma {:induction false} WordLengthOfWord(w: string, rest: string)
    requires NoSpace(w)
    requires rest == [] || IsSpace(rest[0])
    ensures WordLength(w + rest) == |w|
  {
    if w != [] {
      assert (w + rest)[1..] == w[1..] + rest;
      WordLengthOfWord(w[1..], rest);
    } else {
      assert w + rest == rest;
    }
  }

  /** A word followed by whitespace or by nothing is the first word. */
  lemma SplitWhitespaceFirstWord(w: string, rest: string)
    requires w != [] && NoSpace(w)
    requires rest == [] || IsSpace(rest[0])
    ensures SplitWhitespace(w + rest) == [w] + SplitWhitespace(rest)
  {
    var s := w + rest;
    assert LeadingSpace(s) == 0;
    assert s[0..] == s;
    WordLengthOfWord(w, rest);
    assert s[..|w|] == w && s[|w|..] == rest;
  }

  /** Whitespace alone has no words. */
  lemma SplitWhitespaceAllSpace(sp: string)
    requires AllSpace(sp)
    ensures SplitWhitespace(sp) == []
  {
    assert LeadingSpace(sp) == |sp|;
  }

  /** Leading whitespace of any length does not change the words. */
  lemma {:induction false} SplitWhitespaceLeading(sp: string, y: string)
    requires AllSpace(sp)
    ensures SplitWhitespace(sp + y) == SplitWhitespace(y)
    decreases |sp|
  {
    if sp != [] {
      assert sp + y == [sp[0]] + (sp[1..] + y);
      SplitWhitespaceSkipsSpace(sp[0], sp[1..] + y);
      SplitWhitespaceLeading(sp[1..], y);
    } else {
      assert sp + y == y;
    }
  }

  /** Trailing whitespace does not change the words. */
  lemma {:induction false} SplitWhitespaceTrailing(y: string, sp: string)
    requires AllSpace(sp)
    ensures SplitWhitespace(y + sp) == SplitWhitespace(y)
    decreases |y|
  {
    if y == [] {
      assert y + sp == sp;
      SplitWhitespaceAllSpace(sp);
      SplitWhitespaceAllSpace(y);
    } else if IsSpace(y[0]) {
      assert y + sp == [y[0]] + (y[1..] + sp);
      assert y == [y[0]] + y[1..];
      SplitWhitespaceSkipsSpace(y[0], y[1..] + sp);
      SplitWhitespaceSkipsSpace(y[0], y[1..]);
      SplitWhitespaceTrailing(y[1..], sp);
    } else {
      var k := WordLength(y);
      SplitWhitespaceTrailing(y[k..], sp);
      TrailingAfterWord(y, k, sp);
    }
  }

  /** The step of `SplitWhitespaceTrailing` over the first word of `y`. */
  lemma TrailingAfterWord(y: string, k: nat, sp: string)
    requires y != [] && !IsSpace(y[0]) && k == WordLength(y) && AllSpace(sp)
    requires SplitWhitespace(y[k..] + sp) == SplitWhitespace(y[k..])
    ensures SplitWhitespace(y + sp) == SplitWhitespace(y)
  {
    var w, rest := y[..k], y[k..];
    assert k > 0 && w != [] && NoSpace(w);
    assert rest == [] || IsSpace(rest[0]);
    var more := rest + sp;
    assert more == [] || IsSpace(more[0]) by {
      if rest == [] { assert more == sp; }
      else { assert more[0] == rest[0]; }
    }
    SplitWhitespaceFirstWord(w, rest);
    SplitWhitespaceFirstWord(w, more);
    AppendAfterSplit(y, k, sp);
  }

  lemma AppendAfterSplit(y: string, k: nat, sp: string)
    requires k <= |y|
    ensures y == y[..k] + y[k..] && y + sp == y[..k] + (y[k..] + sp)
  {
  }

  /** Stripping does not change the words. */
  lemma SplitWhitespaceStrip(x: string)
    ensures SplitWhitespace(Strip(x)) == SplitWhitespace(x)
  {
    var lo, r := LeadingSpace(x), Strip(x);
    var tail := x[lo + |r|..];
    assert x == x[..lo] + (r + tail);
    SplitWhitespaceLeading(x[..lo], r + tail);
    SplitWhitespaceTrailing(r, tail);
  }

  /** "first second" splits into exactly its two words. */
  lemma SplitTwoWords(first: string, second: string)
    requires first != [] && NoSpace(first)
    requires second != [] && NoSpace(second)
    ensures SplitWhitespace(first + " " + second) == [first, second]
  {
    var rest := [' '] + second;
    assert first + " " + second == first + rest;
    SplitWhitespaceFirstWord(first, rest);
    SplitWhitespaceSkipsSpace(' ', second);
    SplitOneWord(second);
  }

  /** A single word splits into itself. */
  lemma SplitOneWord(w: string)
    requires w != [] && NoSpace(w)
    ensures SplitWhitespace(w) == [w]
  {
    SplitWhitespaceFirstWord(w, "");
    assert w + "" == w;
    assert SplitWhitespace("") == [];
  }
}
