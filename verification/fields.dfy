/** The field extractor of utils.py: space normalisation, and "first non-empty group of
    the first pattern that has one" over an ordered list of patterns. Patterns are
    matcher functions; the six fixed patterns the statement assembler uses for the
    card and account numbers are coded by hand below. */
module Fields {
  import opened Wrappers
  import opened Text

  /** No two consecutive ASCII spaces. */
  predicate NoDoubleSpace(s: string) {
    forall i :: 0 <= i < |s| - 1 ==> !(s[i] == ' ' && s[i + 1] == ' ')
  }

  /** `re.sub(r"[ ]{2,}", " ", s)`: every run of two or more spaces becomes one space. */
  function CollapseSpaces(s: string): (r: string)
    ensures NoDoubleSpace(r)
    ensures |s| > 0 ==> |r| > 0 && r[0] == s[0]
    decreases |s|
  {
    if |s| < 2 then s
    else if s[0] == ' ' && s[1] == ' ' then CollapseSpaces(s[1..])
    else [s[0]] + CollapseSpaces(s[1..])
  }

  /** A string without double spaces is left as it is. */
  lemma {:induction false} CollapseNoDoubleSpace(s: string)
    requires NoDoubleSpace(s)
    ensures CollapseSpaces(s) == s
    decreases |s|
  {
    if |s| >= 2 {
      assert !(s[0] == ' ' && s[1] == ' ');
      CollapseNoDoubleSpace(s[1..]);
      assert s == [s[0]] + s[1..];
    }
  }

  /** Collapsing only shortens runs of spaces: a double space anywhere reads as a
      single one, so with `CollapseNoDoubleSpace` this pins the collapsed text. */
  lemma {:induction false} CollapseDoubleSpace(a: string, b: string)
    ensures CollapseSpaces(a + "  " + b) == CollapseSpaces(a + " " + b)
    decreases |a|
  {
    var s, t := a + "  " + b, a + " " + b;
    if a == [] {
      assert s[1..] == t;
    } else {
      var a' := a[1..];
      assert s[0] == t[0] && s[1] == t[1];
      assert s[1..] == a' + "  " + b;
      assert t[1..] == a' + " " + b;
      CollapseDoubleSpace(a', b);
    }
  }

  /** Collapsing keeps the words of the text, behind any word prefix `w`. */
  lemma {:induction false} CollapseKeepsWordsAfter(w: string, s: string)
    requires NoSpace(w)
    ensures SplitWhitespace(w + CollapseSpaces(s)) == SplitWhitespace(w + s)
    decreases |s|
  {
    if |s| >= 2 {
      if s[0] == ' ' && s[1] == ' ' {
        CollapseKeepsWordsAfter(w, s[1..]);
        CollapseDoubleStep(w, s);
      } else if !IsSpace(s[0]) {
        assert NoSpace(w + [s[0]]);
        CollapseKeepsWordsAfter(w + [s[0]], s[1..]);
        CollapseWordStep(w, s);
      } else {
        CollapseKeepsWordsAfter([], s[1..]);
        CollapseSpaceStep(w, s);
      }
    }
  }

  lemma CollapseDoubleStep(w: string, s: string)
    requires NoSpace(w) && |s| >= 2 && s[0] == ' ' && s[1] == ' '
    requires SplitWhitespace(w + CollapseSpaces(s[1..])) == SplitWhitespace(w + s[1..])
    ensures SplitWhitespace(w + CollapseSpaces(s)) == SplitWhitespace(w + s)
  {
    assert s == [' '] + s[1..];
    SpaceBeforeSpace(w, s[1..]);
  }

  lemma CollapseWordStep(w: string, s: string)
    requires NoSpace(w) && |s| >= 2 && !IsSpace(s[0])
    requires SplitWhitespace((w + [s[0]]) + CollapseSpaces(s[1..])) == SplitWhitespace((w + [s[0]]) + s[1..])
    ensures SplitWhitespace(w + CollapseSpaces(s)) == SplitWhitespace(w + s)
  {
    CollapseWordShift(w, s);
  }

  lemma CollapseWordShift(w: string, s: string)
    requires |s| >= 2 && s[0] != ' '
    ensures w + CollapseSpaces(s) == (w + [s[0]]) + CollapseSpaces(s[1..])
    ensures w + s == (w + [s[0]]) + s[1..]
  {
    CollapseHead(s);
    assert s == [s[0]] + s[1..];
    ShiftChar(w, s[0], CollapseSpaces(s[1..]));
    ShiftChar(w, s[0], s[1..]);
  }

  /** A character that does not start a double space is kept in front. */
  lemma CollapseHead(s: string)
    requires |s| >= 2 && s[0] != ' '
    ensures CollapseSpaces(s) == [s[0]] + CollapseSpaces(s[1..])
  {
  }

  lemma ShiftChar(w: string, c: char, x: string)
    ensures w + ([c] + x) == (w + [c]) + x
  {
  }

  lemma CollapseSpaceStep(w: string, s: string)
    requires NoSpace(w) && |s| >= 2 && IsSpace(s[0]) && !(s[0] == ' ' && s[1] == ' ')
    requires SplitWhitespace([] + CollapseSpaces(s[1..])) == SplitWhitespace([] + s[1..])
    ensures SplitWhitespace(w + CollapseSpaces(s)) == SplitWhitespace(w + s)
  {
    var c, x, rest := s[0], CollapseSpaces(s[1..]), s[1..];
    assert CollapseSpaces(s) == [c] + x;
    assert s == [c] + rest;
    assert [] + x == x && [] + rest == rest;
    SpaceSkipped(w, c, x, rest);
  }

  /** A whitespace character between a word prefix and two texts of the same words
      leaves the words the same. */
  lemma SpaceSkipped(w: string, c: char, x: string, y: string)
    requires NoSpace(w) && IsSpace(c) && SplitWhitespace(x) == SplitWhitespace(y)
    ensures SplitWhitespace(w + ([c] + x)) == SplitWhitespace(w + ([c] + y))
  {
    SplitWhitespaceSkipsSpace(c, x);
    SplitWhitespaceSkipsSpace(c, y);
    if w != [] {
      SplitWhitespaceFirstWord(w, [c] + x);
      SplitWhitespaceFirstWord(w, [c] + y);
    } else {
      assert w + ([c] + x) == [c] + x && w + ([c] + y) == [c] + y;
    }
  }

  /** Dropping a space in front of another one leaves the words as they are. */
  lemma SpaceBeforeSpace(w: string, rest: string)
    requires NoSpace(w) && |rest| > 0 && rest[0] == ' '
    ensures SplitWhitespace(w + ([' '] + rest)) == SplitWhitespace(w + rest)
  {
    SplitWhitespaceSkipsSpace(' ', rest);
    if w != [] {
      SplitWhitespaceFirstWord(w, [' '] + rest);
      SplitWhitespaceFirstWord(w, rest);
    } else {
      assert w + ([' '] + rest) == [' '] + rest && w + rest == rest;
    }
  }

  /** Collapsing keeps the words of the text. */
  lemma CollapseKeepsWords(s: string)
    ensures SplitWhitespace(CollapseSpaces(s)) == SplitWhitespace(s)
  {
    CollapseKeepsWordsAfter([], s);
    assert [] + CollapseSpaces(s) == CollapseSpaces(s) && [] + s == s;
  }

  /** Normalising keeps the words of the text, in order: only the whitespace between,
      before and after them changes. */
  lemma NormalizeKeepsWords(s: string)
    ensures SplitWhitespace(NormalizeSpaces(s)) == SplitWhitespace(s)
  {
    CollapseKeepsWords(s);
    SplitWhitespaceStrip(CollapseSpaces(s));
  }

  /** `normalize_spaces`: collapse runs of spaces, then strip. */
  function NormalizeSpaces(s: string): (r: string)
    ensures NoDoubleSpace(r)
    ensures Trimmed(r)
  {
    var c := CollapseSpaces(s);
    var r := Strip(c);
    assert forall i :: 0 <= i < |r| ==> r[i] == c[LeadingSpace(c) + i];
    r
  }

  /** Normalising twice is normalising once. */
  lemma NormalizeIdempotent(s: string)
    ensures NormalizeSpaces(NormalizeSpaces(s)) == NormalizeSpaces(s)
  {
    var n := NormalizeSpaces(s);
    CollapseNoDoubleSpace(n);
    StripTrimmed(n);
  }

  /** The groups of one regex match, in order; a group that took no part in the match
      is the empty string, which Python treats as false just like `None`. */
  type Groups = seq<string>

  /** A compiled pattern applied with `re.search`: the groups of its leftmost match,
      or `None` when it does not match. */
  type Matcher = string -> Option<Groups>

  /** The first group that is not empty. */
  function FirstFilled(groups: Groups): (r: Option<string>)
    ensures r.Some? ==> r.value != [] && r.value in groups
    ensures r.None? <==> forall k :: 0 <= k < |groups| ==> groups[k] == []
    ensures r.Some? ==> exists k ::
      (0 <= k < |groups| && groups[k] == r.value && forall j :: 0 <= j < k ==> groups[j] == [])
  {
    if groups == [] then None
    else if groups[0] != [] then Some(groups[0])
    else FirstFilled(groups[1..])
  }

  /** A match outcome that `extract_field` accepts: a match with a non-empty group. */
  predicate Qualifies(m: Option<Groups>) {
    m.Some? && FirstFilled(m.value).Some?
  }

  /** What `extract_field(text, patterns, fallback)` returns: the stripped first filled
      group of the first pattern whose match has one, or `fallback`. */
  function FieldValue(text: string, patterns: seq<Matcher>, fallback: string): string
  {
    if patterns == [] then fallback
    else
      var m := patterns[0](text);
      if Qualifies(m) then Strip(FirstFilled(m.value).value)
      else FieldValue(text, patterns[1..], fallback)
  }

  /** The first qualifying pattern decides the value, whatever the later ones match. */
  lemma {:induction false} FieldValueFirstWins(text: string, patterns: seq<Matcher>, fallback: string, k: nat)
    requires k < |patterns| && Qualifies(patterns[k](text))
    requires forall j :: 0 <= j < k ==> !Qualifies(patterns[j](text))
    ensures FieldValue(text, patterns, fallback) == Strip(FirstFilled(patterns[k](text).value).value)
  {
    if k > 0 {
      assert !Qualifies(patterns[0](text));
      FieldValueFirstWins(text, patterns[1..], fallback, k - 1);
    }
  }

  /** With no qualifying pattern the fallback is returned; a match whose groups are
      all empty does not qualify. */
  lemma {:induction false} FieldValueFallback(text: string, patterns: seq<Matcher>, fallback: string)
    requires forall j :: 0 <= j < |patterns| ==> !Qualifies(patterns[j](text))
    ensures FieldValue(text, patterns, fallback) == fallback
  {
    if patterns != [] {
      assert !Qualifies(patterns[0](text));
      FieldValueFallback(text, patterns[1..], fallback);
    }
  }

  /** `extract_field`: the patterns in order, the groups of each match in order,
      returning as soon as one group is filled. */
  method ExtractField(text: string, patterns: seq<Matcher>, fallback: string) returns (r: string)
    ensures r == FieldValue(text, patterns, fallback)
  {
    for i := 0 to |patterns|
      invariant FieldValue(text, patterns, fallback) == FieldValue(text, patterns[i..], fallback)
    {
      assert patterns[i..][1..] == patterns[i + 1..];
      var m := patterns[i](text);
      if m.Some? {
        var groups := m.value;
        for g := 0 to |groups|
          invariant FirstFilled(groups) == FirstFilled(groups[g..])
        {
          assert groups[g..][1..] == groups[g + 1..];
          if groups[g] != [] {
            return Strip(groups[g]);
          }
        }
      }
    }
    return fallback;
  }

  /** The character class of a captured token: `\d` or `[A-Z0-9]`. */
  datatype TokenClass = Digits | UpperAlnum {
    predicate Has(c: char) {
      match this
      case Digits => IsDigit(c)
      case UpperAlnum => IsDigit(c) || 'A' <= c <= 'Z'
    }
  }

  /** A pattern of the form `Label:\s*\*?(token+)`, each of `\s*` and `\*?` present or
      not: a fixed label, optional whitespace, an optional asterisk, then a captured run
      of one or more token characters. */
  datatype LabelPattern = LabelPattern(key: string, skipSpace: bool, optionalStar: bool, token: TokenClass)

  /** Length of the run of `token` characters at the start of `s`. */
  function TokenRun(s: string, token: TokenClass): (k: nat)
    ensures k <= |s|
    ensures forall i :: 0 <= i < k ==> token.Has(s[i])
    ensures k < |s| ==> !token.Has(s[k])
  {
    if |s| > 0 && token.Has(s[0]) then 1 + TokenRun(s[1..], token) else 0
  }

  /** Where the captured token would start if `p`'s label occurs at `at`: after the
      label, the whitespace (when `\s*` is present) and an asterisk (when `\*?` is). */
  function TokenStart(p: LabelPattern, text: string, at: nat): (k: nat)
    requires OccursAt(text, p.key, at)
    ensures at + |p.key| <= k <= |text|
  {
    var afterLabel := at + |p.key|;
    var afterSpace := if p.skipSpace then afterLabel + LeadingSpace(text[afterLabel..]) else afterLabel;
    if p.optionalStar && afterSpace < |text| && text[afterSpace] == '*' then afterSpace + 1 else afterSpace
  }

  /** The pattern matches at an occurrence `at` of its label when a non-empty token
      follows the label, the whitespace and the asterisk. */
  predicate LabelMatchAt(p: LabelPattern, text: string, at: nat) {
    OccursAt(text, p.key, at) && TokenRun(text[TokenStart(p, text, at)..], p.token) > 0
  }

  /** The token captured by a match at `at`. */
  function LabelGroup(p: LabelPattern, text: string, at: nat): (g: string)
    requires OccursAt(text, p.key, at)
    ensures |g| == TokenRun(text[TokenStart(p, text, at)..], p.token)
    ensures forall i :: 0 <= i < |g| ==> p.token.Has(g[i])
  {
    var k := TokenStart(p, text, at);
    text[k..k + TokenRun(text[k..], p.token)]
  }

  /** Where `re.search` of a label pattern from index `from` on matches: the leftmost
      occurrence of the label that is followed by a non-empty token. Greedy `\s*`
      followed by `\*?` leaves nothing to backtrack into, so each occurrence has a
      single token start and either matches there or not at all. */
  function LabelMatchFrom(p: LabelPattern, text: string, from: nat): (r: Option<nat>)
    ensures r.Some? ==> from <= r.value && LabelMatchAt(p, text, r.value)
    ensures r.Some? ==> forall j :: from <= j < r.value ==> !LabelMatchAt(p, text, j)
    ensures r.None? ==> forall j :: from <= j ==> !LabelMatchAt(p, text, j)
    decreases |text| - from
  {
    match IndexOf(text, p.key, from)
    case None =>
      LabelNeedsKey(p, text, from, |text| + 1);
      None
    case Some(at) =>
      LabelNeedsKey(p, text, from, at);
      if LabelMatchAt(p, text, at) then Some(at)
      else
        var r := if at + 1 <= |text| then LabelMatchFrom(p, text, at + 1) else None;
        LabelSkipped(p, text, from, at, r);
        r
  }

  /** No match where the label does not occur. */
  lemma LabelNeedsKey(p: LabelPattern, text: string, from: nat, to: nat)
    requires forall j :: from <= j < to ==> !OccursAt(text, p.key, j)
    ensures forall j :: from <= j < to ==> !LabelMatchAt(p, text, j)
  {
  }

  /** A label occurrence without a token is skipped: the search goes on after it. */
  lemma LabelSkipped(p: LabelPattern, text: string, from: nat, at: nat, r: Option<nat>)
    requires from <= at && !LabelMatchAt(p, text, at)
    requires forall j :: from <= j < at ==> !LabelMatchAt(p, text, j)
    requires at + 1 > |text| ==> r.None?
    requires r.Some? ==> at + 1 <= r.value && LabelMatchAt(p, text, r.value)
    requires r.Some? ==> forall j :: at + 1 <= j < r.value ==> !LabelMatchAt(p, text, j)
    requires r.None? && at + 1 <= |text| ==> forall j :: at + 1 <= j ==> !LabelMatchAt(p, text, j)
    ensures r.Some? ==> from <= r.value && LabelMatchAt(p, text, r.value)
    ensures r.Some? ==> forall j :: from <= j < r.value ==> !LabelMatchAt(p, text, j)
    ensures r.None? ==> forall j :: from <= j ==> !LabelMatchAt(p, text, j)
  {
  }

  /** `re.search` of a label pattern: the token of the leftmost match as the one group. */
  function SearchLabel(p: LabelPattern, text: string, from: nat): (r: Option<Groups>)
    ensures r.Some? ==> |r.value| == 1 && r.value[0] != []
    ensures r.Some? ==> forall i :: 0 <= i < |r.value[0]| ==> p.token.Has(r.value[0][i])
    ensures r.Some? ==> exists at ::
      (from <= at && LabelMatchAt(p, text, at) && r.value == [LabelGroup(p, text, at)]
       && forall j :: from <= j < at ==> !LabelMatchAt(p, text, j))
    ensures r.None? ==> forall j :: from <= j ==> !LabelMatchAt(p, text, j)
  {
    match LabelMatchFrom(p, text, from)
    case None => None
    case Some(at) => Some([LabelGroup(p, text, at)])
  }

  /** The label pattern as a matcher. */
  function AsMatcher(p: LabelPattern): Matcher {
    (text: string) => SearchLabel(p, text, 0)
  }

  /** The card-number patterns of kaspi_parser.py, English, Russian, Kazakh. */
  const CardPatterns: seq<LabelPattern> := [
    LabelPattern("Card number:", true, true, Digits),
    LabelPattern("Номер карты:", true, true, Digits),
    LabelPattern("Карта нөмірі:", true, true, Digits)
  ]

  /** The account-number patterns; the English one has no `\s*` after the colon. */
  const AccountPatterns: seq<LabelPattern> := [
    LabelPattern("Account number:", false, false, UpperAlnum),
    LabelPattern("Номер счета:", true, false, UpperAlnum),
    LabelPattern("Шот нөмірі:", true, false, UpperAlnum)
  ]

  function Matchers(ps: seq<LabelPattern>): (ms: seq<Matcher>)
    ensures |ms| == |ps|
    ensures forall k :: 0 <= k < |ps| ==> ms[k] == AsMatcher(ps[k])
  {
    seq(|ps|, k requires 0 <= k < |ps| => AsMatcher(ps[k]))
  }

  /** A field read with label patterns of one token class is the fallback or a
      non-empty run of that class. */
  lemma {:induction false} LabelFieldInClass(text: string, ps: seq<LabelPattern>, token: TokenClass, fallback: string)
    requires forall k :: 0 <= k < |ps| ==> ps[k].token == token
    ensures var v := FieldValue(text, Matchers(ps), fallback);
      v == fallback || (v != [] && forall i :: 0 <= i < |v| ==> token.Has(v[i]))
  {
    if ps != [] {
      var ms := Matchers(ps);
      var m := ms[0](text);
      assert m == SearchLabel(ps[0], text, 0);
      if Qualifies(m) {
        var g := FirstFilled(m.value).value;
        assert g == m.value[0];
        assert NoSpace(g) by {
          forall i | 0 <= i < |g| ensures !IsSpace(g[i]) { assert token.Has(g[i]); }
        }
        StripTrimmed(g);
      } else {
        assert ms[1..] == Matchers(ps[1..]);
        LabelFieldInClass(text, ps[1..], token, fallback);
      }
    }
  }

  /** The card number the assembler extracts is empty or a run of ASCII digits. */
  lemma CardNumberDigits(text: string)
    ensures var card := FieldValue(text, Matchers(CardPatterns), "");
      card == [] || AllDigits(card)
  {
    LabelFieldInClass(text, CardPatterns, Digits, "");
  }
}
