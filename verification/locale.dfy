/** The locale and name detector of utils.py (`detect_language_and_name`): English is
    recognised by a block between a product-name anchor and a "Card number" anchor;
    Russian and Kazakh by two marker phrases and then positionally, around the first
    line that holds the card-number marker and has a line above it and two below. */
module Locale {
  import opened Wrappers
  import opened Text
  import opened Fields

  /** The statement language, with the code the source stores for it. */
  datatype Language = Eng | Rus | Kaz | Unknown {
    function Code(): string {
      match this
      case Eng => "eng"
      case Rus => "rus"
      case Kaz => "kaz"
      case Unknown => "unknown"
    }
  }

  const EnglishStart: string := "Kaspi Gold"
  const EnglishEnd: string := "\nCard number"
  const RussianProduct: string := "по Kaspi Gold"
  const RussianLabel: string := "Номер карты"
  const KazakhProduct: string := "Kaspi Gold бойынша"
  const KazakhLabel: string := "Карта нөмірі"

  /** The name lines reported when no language is recognised. */
  const UnknownNames: seq<string> := ["Unknown"]

  /** Indices that witness a match of `Kaspi Gold.*?\n(.*?)\nCard number` under
      DOTALL: the start anchor at `p`, a line break at `a` after it, the end anchor at
      `b`, the group being `text[a+1..b]`. */
  predicate EnglishWitness(text: string, p: nat, a: nat, b: nat) {
    && OccursAt(text, EnglishStart, p)
    && p + |EnglishStart| <= a && OccursAt(text, "\n", a)
    && a + 1 <= b && OccursAt(text, EnglishEnd, b)
  }

  /** The witness the lazy leftmost match picks: the first start anchor, the first line
      break after it, and the first end anchor after that line break. */
  predicate FirstEnglishWitness(text: string, p: nat, a: nat, b: nat) {
    && EnglishWitness(text, p, a, b)
    && (forall j :: 0 <= j < p ==> !OccursAt(text, EnglishStart, j))
    && (forall j :: p + |EnglishStart| <= j < a ==> !OccursAt(text, "\n", j))
    && (forall j :: a + 1 <= j < b ==> !OccursAt(text, EnglishEnd, j))
  }

  /** Group 1 of the leftmost match of the English pattern. Both `.*?` are lazy, so the
      leftmost match takes the first start anchor, the first line break after it and
      the first end anchor after that. The pattern matches exactly when some witness
      exists, and then the group is the one of the first witness. */
  function EnglishBlock(text: string): (r: Option<string>)
    ensures r.Some? ==> exists p: nat, a: nat, b: nat ::
      FirstEnglishWitness(text, p, a, b) && r.value == text[a + 1..b]
    ensures forall p: nat, a: nat, b: nat :: EnglishWitness(text, p, a, b) ==> r.Some?
    ensures forall p: nat, a: nat, b: nat ::
      FirstEnglishWitness(text, p, a, b) ==> r == Some(text[a + 1..b])
  {
    match IndexOf(text, EnglishStart, 0)
    case None =>
      NoStartNoWitness(text);
      None
    case Some(p) =>
      match IndexOf(text, "\n", p + |EnglishStart|)
      case None =>
        NoBreakNoWitness(text, p);
        None
      case Some(a) =>
        match IndexOf(text, EnglishEnd, a + 1)
        case None =>
          NoEndNoWitness(text, p, a);
          None
        case Some(b) =>
          SearchesWitness(text, p, a, b);
          Some(text[a + 1..b])
  }

  /** Without a start anchor there is no match. */
  lemma NoStartNoWitness(text: string)
    requires IndexOf(text, EnglishStart, 0).None?
    ensures forall p: nat, a: nat, b: nat :: !EnglishWitness(text, p, a, b)
  {
  }

  /** Without a line break after the first start anchor there is no match: any later
      start anchor would need a line break later still. */
  lemma NoBreakNoWitness(text: string, p: nat)
    requires IndexOf(text, EnglishStart, 0) == Some(p)
    requires IndexOf(text, "\n", p + |EnglishStart|).None?
    ensures forall p': nat, a: nat, b: nat :: !EnglishWitness(text, p', a, b)
  {
  }

  /** Without an end anchor after the first line break there is no match. */
  lemma NoEndNoWitness(text: string, p: nat, a: nat)
    requires IndexOf(text, EnglishStart, 0) == Some(p)
    requires IndexOf(text, "\n", p + |EnglishStart|) == Some(a)
    requires IndexOf(text, EnglishEnd, a + 1).None?
    ensures forall p': nat, a': nat, b: nat :: !EnglishWitness(text, p', a', b)
  {
  }

  /** The three searches find the first witness, and it is the only first witness. */
  lemma SearchesWitness(text: string, p: nat, a: nat, b: nat)
    requires IndexOf(text, EnglishStart, 0) == Some(p)
    requires IndexOf(text, "\n", p + |EnglishStart|) == Some(a)
    requires IndexOf(text, EnglishEnd, a + 1) == Some(b)
    ensures FirstEnglishWitness(text, p, a, b)
    ensures forall p': nat, a': nat, b': nat ::
      FirstEnglishWitness(text, p', a', b') ==> p' == p && a' == a && b' == b
  {
  }

  /** The English name lines keep the order of the block's lines: a line appended
      contributes its normalised form at the end exactly when it is not blank. */
  lemma {:induction false} EnglishNamesAppend(lines: seq<string>, line: string)
    ensures EnglishNames([]) == []
    ensures EnglishNames(lines + [line])
      == EnglishNames(lines) + (if Strip(line) == [] then [] else [NormalizeSpaces(line)])
    decreases |lines|
  {
    if lines == [] {
      assert [] + [line] == [line];
      assert [line][1..] == [];
    } else {
      assert (lines + [line])[0] == lines[0];
      assert (lines + [line])[1..] == lines[1..] + [line];
      EnglishNamesAppend(lines[1..], line);
    }
  }

  /** The English name lines: the non-blank lines of the block, each normalised. */
  function EnglishNames(lines: seq<string>): (names: seq<string>)
    ensures |names| <= |lines|
    ensures forall k :: 0 <= k < |names| ==> NoDoubleSpace(names[k]) && Trimmed(names[k])
  {
    if lines == [] then []
    else if Strip(lines[0]) == [] then EnglishNames(lines[1..])
    else [NormalizeSpaces(lines[0])] + EnglishNames(lines[1..])
  }

  /** A line that holds the card-number marker and has a line above it and two below. */
  predicate IsAnchor(lines: seq<string>, marker: string, i: nat) {
    i < |lines| && Contains(lines[i], marker) && 1 <= i && i + 2 < |lines|
  }

  /** The first anchor line at or after `from`. */
  function FirstAnchor(lines: seq<string>, marker: string, from: nat): (r: Option<nat>)
    ensures r.Some? ==> from <= r.value && IsAnchor(lines, marker, r.value)
    ensures r.Some? ==> forall j :: from <= j < r.value ==> !IsAnchor(lines, marker, j)
    ensures r.None? ==> forall j :: from <= j ==> !IsAnchor(lines, marker, j)
    decreases |lines| - from
  {
    if from >= |lines| then None
    else if IsAnchor(lines, marker, from) then Some(from)
    else FirstAnchor(lines, marker, from + 1)
  }

  /** The two name lines around an anchor: the surname on the line just above it and
      "name patronymic" two lines below it, both normalised. */
  function NamesAround(lines: seq<string>, i: nat): (names: seq<string>)
    requires 1 <= i && i + 2 < |lines|
    ensures |names| == 2
    ensures names[0] == NormalizeSpaces(Strip(lines[i - 1]))
    ensures names[1] == NormalizeSpaces(Strip(lines[i + 2]))
  {
    [NormalizeSpaces(Strip(lines[i - 1])), NormalizeSpaces(Strip(lines[i + 2]))]
  }

  /** The anchor of a positional locale: none unless both marker phrases occur. */
  function PositionalAnchor(text: string, product: string, marker: string): Option<nat> {
    if Contains(text, product) && Contains(text, marker) then FirstAnchor(SplitLines(text), marker, 0)
    else None
  }

  /** What `detect_language_and_name` returns. */
  function Detect(text: string): (r: (Language, seq<string>))
    ensures r.0 != Eng ==> |r.1| >= 1
  {
    match EnglishBlock(text)
    case Some(block) => (Eng, EnglishNames(SplitLines(block)))
    case None =>
      var lines := SplitLines(text);
      match PositionalAnchor(text, RussianProduct, RussianLabel)
      case Some(i) => (Rus, NamesAround(lines, i))
      case None =>
        match PositionalAnchor(text, KazakhProduct, KazakhLabel)
        case Some(i) => (Kaz, NamesAround(lines, i))
        case None => (Unknown, UnknownNames)
  }

  /** The languages are tried in a fixed order: English wins over Russian, Russian over
      Kazakh, and nothing recognised yields exactly `("unknown", ["Unknown"])`. */
  lemma DetectPrecedence(text: string)
    ensures EnglishBlock(text).Some? <==> Detect(text).0 == Eng
    ensures Detect(text).0 == Rus <==>
      EnglishBlock(text).None? && PositionalAnchor(text, RussianProduct, RussianLabel).Some?
    ensures Detect(text).0 == Kaz <==>
      && EnglishBlock(text).None?
      && PositionalAnchor(text, RussianProduct, RussianLabel).None?
      && PositionalAnchor(text, KazakhProduct, KazakhLabel).Some?
    ensures Detect(text).0 == Unknown <==> Detect(text) == (Unknown, ["Unknown"])
  {
  }

  /** English, at the witness the lazy leftmost match picks: the name lines are the
      non-blank lines between the first line break after the start anchor and the
      "Card number" line, normalised. */
  lemma EnglishDetected(text: string, p: nat, a: nat, b: nat)
    requires FirstEnglishWitness(text, p, a, b)
    ensures Detect(text) == (Eng, EnglishNames(SplitLines(text[a + 1..b])))
  {
    DetectEnglish(text);
  }

  /** With an English block, the name lines are read from it. */
  lemma DetectEnglish(text: string)
    requires EnglishBlock(text).Some?
    ensures Detect(text) == (Eng, EnglishNames(SplitLines(EnglishBlock(text).value)))
  {
  }

  /** Russian, when the text has no English block, carries both Russian marker phrases
      and `i` is its first usable anchor line: the name lines are the line just above
      the anchor and the line two below it, normalised. */
  lemma RussianNames(text: string, i: nat)
    requires EnglishBlock(text).None?
    requires Contains(text, RussianProduct) && Contains(text, RussianLabel)
    requires IsAnchor(SplitLines(text), RussianLabel, i)
    requires forall j :: 0 <= j < i ==> !IsAnchor(SplitLines(text), RussianLabel, j)
    ensures var lines := SplitLines(text);
      Detect(text) == (Rus, [NormalizeSpaces(Strip(lines[i - 1])), NormalizeSpaces(Strip(lines[i + 2]))])
  {
    FirstAnchorIs(SplitLines(text), RussianLabel, i);
    DetectedAt(text, Rus, i);
  }

  /** Once the positional anchor of a language is known, the names are read around it. */
  lemma DetectedAt(text: string, language: Language, i: nat)
    requires language == Rus || language == Kaz
    requires EnglishBlock(text).None?
    requires language == Rus ==> PositionalAnchor(text, RussianProduct, RussianLabel) == Some(i)
    requires language == Kaz ==> PositionalAnchor(text, RussianProduct, RussianLabel).None?
    requires language == Kaz ==> PositionalAnchor(text, KazakhProduct, KazakhLabel) == Some(i)
    ensures 1 <= i && i + 2 < |SplitLines(text)|
    ensures Detect(text) == (language, NamesAround(SplitLines(text), i))
  {
  }

  /** The anchor found is the one no earlier line qualifies before. */
  lemma FirstAnchorIs(lines: seq<string>, marker: string, i: nat)
    requires IsAnchor(lines, marker, i)
    requires forall j :: 0 <= j < i ==> !IsAnchor(lines, marker, j)
    ensures FirstAnchor(lines, marker, 0) == Some(i)
  {
    var r := FirstAnchor(lines, marker, 0);
    assert r.Some? && r.value == i;
  }

  /** Kazakh, when neither English nor Russian was recognised and `i` is the first usable
      Kazakh anchor line: the same two positional lines. */
  lemma KazakhNames(text: string, i: nat)
    requires EnglishBlock(text).None?
    requires !(Contains(text, RussianProduct) && Contains(text, RussianLabel))
      || forall j :: 0 <= j ==> !IsAnchor(SplitLines(text), RussianLabel, j)
    requires Contains(text, KazakhProduct) && Contains(text, KazakhLabel)
    requires IsAnchor(SplitLines(text), KazakhLabel, i)
    requires forall j :: 0 <= j < i ==> !IsAnchor(SplitLines(text), KazakhLabel, j)
    ensures var lines := SplitLines(text);
      Detect(text) == (Kaz, [NormalizeSpaces(Strip(lines[i - 1])), NormalizeSpaces(Strip(lines[i + 2]))])
  {
    var lines := SplitLines(text);
    assert PositionalAnchor(text, RussianProduct, RussianLabel).None? by {
      var rus := FirstAnchor(lines, RussianLabel, 0);
      assert rus.Some? ==> IsAnchor(lines, RussianLabel, rus.value);
    }
    FirstAnchorIs(lines, KazakhLabel, i);
    DetectedAt(text, Kaz, i);
  }

  /** The loop of a positional branch: the first line holding `marker` that has a line
      above and two below, skipping earlier marker lines that lack them. */
  method FindAnchorLine(lines: seq<string>, marker: string) returns (r: Option<nat>)
    ensures r == FirstAnchor(lines, marker, 0)
  {
    for i := 0 to |lines|
      invariant FirstAnchor(lines, marker, 0) == FirstAnchor(lines, marker, i)
    {
      if Contains(lines[i], marker) {
        if i >= 1 && i + 2 < |lines| {
          return Some(i);
        }
      }
    }
    return None;
  }

  /** `detect_language_and_name`. */
  method DetectLanguageAndName(text: string) returns (language: Language, names: seq<string>)
    ensures (language, names) == Detect(text)
  {
    var block := EnglishBlock(text);
    if block.Some? {
      return Eng, EnglishNames(SplitLines(block.value));
    }
    if Contains(text, RussianProduct) && Contains(text, RussianLabel) {
      var lines := SplitLines(text);
      var i := FindAnchorLine(lines, RussianLabel);
      if i.Some? {
        return Rus, NamesAround(lines, i.value);
      }
    }
    if Contains(text, KazakhProduct) && Contains(text, KazakhLabel) {
      var lines := SplitLines(text);
      var i := FindAnchorLine(lines, KazakhLabel);
      if i.Some? {
        return Kaz, NamesAround(lines, i.value);
      }
    }
    return Unknown, UnknownNames;
  }
}
