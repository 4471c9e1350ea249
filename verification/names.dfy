/** The name composer of utils.py (`split_full_name`): the raw name lines of a statement
    become (full name, surname, given name, patronymic) by the grammar of its language. */
module Names {
  import opened Wrappers
  import opened Text
  import opened Locale

  datatype PersonName = PersonName(fullName: string, surname: string, givenName: string, patronymic: string)

  /** `split_full_name(language, name_lines)`. `None` stands for the `IndexError` the
      source raises when `name_lines` is empty. */
  function SplitFullName(language: Language, nameLines: seq<string>): (r: Option<PersonName>)
    ensures r.Some? <==> nameLines != []
    ensures r.Some? && language == Eng ==>
      var line := nameLines[|nameLines| - 1];
      var words := SplitWhitespace(line);
      && r.value.patronymic == []
      && (|words| == 2 ==>
           && r.value.givenName == words[0] && r.value.surname == words[1]
           && r.value.fullName == r.value.surname + " " + r.value.givenName)
      && (|words| != 2 ==> r.value == PersonName(line, "", "", ""))
    ensures r.Some? && language in {Rus, Kaz} ==> r.value.surname == nameLines[0]
    ensures r.Some? && language in {Rus, Kaz} && |nameLines| >= 2 ==>
      var words := SplitWhitespace(nameLines[1]);
      && r.value.givenName == (if |words| >= 1 then words[0] else "")
      && r.value.patronymic == (if |words| >= 2 then words[1] else "")
      && NoSpace(r.value.givenName) && NoSpace(r.value.patronymic)
      && r.value.fullName == Strip(r.value.surname + " " + r.value.givenName + " " + r.value.patronymic)
    ensures r.Some? && language in {Rus, Kaz} && |nameLines| == 1 ==>
      r.value == PersonName(nameLines[0], nameLines[0], "", "")
    ensures r.Some? && language == Unknown ==> r.value == PersonName(nameLines[0], "", "", "")
  {
    if nameLines == [] then None
    else if language == Eng then
      var line := nameLines[|nameLines| - 1];
      var words := SplitWhitespace(line);
      if |words| == 2 then
        var given, surname := words[0], words[1];
        Some(PersonName(surname + " " + given, surname, given, ""))
      else Some(PersonName(line, "", "", ""))
    else if language in {Rus, Kaz} then
      if |nameLines| >= 2 then
        var surname := nameLines[0];
        var words := SplitWhitespace(nameLines[1]);
        var given := if |words| >= 1 then words[0] else "";
        var patronymic := if |words| >= 2 then words[1] else "";
        Some(PersonName(Strip(surname + " " + given + " " + patronymic), surname, given, patronymic))
      else Some(PersonName(nameLines[0], nameLines[0], "", ""))
    else Some(PersonName(nameLines[0], "", "", ""))
  }

  /** An English line "Given Surname" is reversed into the full name "Surname Given". */
  lemma EnglishTwoWords(nameLines: seq<string>, given: string, surname: string)
    requires given != [] && NoSpace(given) && surname != [] && NoSpace(surname)
    requires nameLines != [] && nameLines[|nameLines| - 1] == given + " " + surname
    ensures SplitFullName(Eng, nameLines) == Some(PersonName(surname + " " + given, surname, given, ""))
  {
    SplitTwoWords(given, surname);
  }

  /** Russian or Kazakh: a trimmed surname line and a "Given Patronymic" line give the
      full name "Surname Given Patronymic". */
  lemma PositionalThreeParts(language: Language, surname: string, given: string, patronymic: string)
    requires language in {Rus, Kaz}
    requires surname != [] && Trimmed(surname)
    requires given != [] && NoSpace(given) && patronymic != [] && NoSpace(patronymic)
    ensures SplitFullName(language, [surname, given + " " + patronymic])
      == Some(PersonName(surname + " " + given + " " + patronymic, surname, given, patronymic))
  {
    SplitTwoWords(given, patronymic);
    var full := surname + " " + given + " " + patronymic;
    assert full[0] == surname[0];
    assert full[|full| - 1] == patronymic[|patronymic| - 1];
    StripTrimmed(full);
  }

  /** Russian or Kazakh without a patronymic: the space the empty patronymic would
      follow is stripped from the full name. */
  lemma PositionalNoPatronymic(language: Language, surname: string, given: string)
    requires language in {Rus, Kaz}
    requires surname != [] && Trimmed(surname)
    requires given != [] && NoSpace(given)
    ensures SplitFullName(language, [surname, given])
      == Some(PersonName(surname + " " + given, surname, given, ""))
  {
    SplitOneWord(given);
    var full := surname + " " + given;
    assert full + " " + "" == full + " ";
    assert full[0] == surname[0];
    assert full[|full| - 1] == given[|given| - 1];
    StripTrailingSpace(full);
  }

  /** Stripping a trimmed text followed by one space gives the text. */
  lemma StripTrailingSpace(s: string)
    requires s != [] && Trimmed(s)
    ensures Strip(s + " ") == s
  {
    var t := s + " ";
    assert LeadingSpace(t) == 0 by {
      assert t[0] == s[0];
    }
    assert TrailingSpace(t[0..]) == 1 by {
      assert t[0..] == t;
      assert t[..|t| - 1] == s;
    }
  }

  /** Russian or Kazakh with a single line: that line is full name and surname, the
      other parts are empty. */
  lemma PositionalOneLine(language: Language, line: string)
    requires language in {Rus, Kaz}
    ensures SplitFullName(language, [line]) == Some(PersonName(line, line, "", ""))
  {
  }
}
