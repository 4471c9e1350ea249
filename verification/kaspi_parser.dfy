/** The statement assembler of kaspi_parser.py (`KaspiParser.parse`): it runs the
    extractors over the statement text in a fixed order and builds the statement record,
    its metrics and the success envelope. */
module Assembler {
  import opened Wrappers
  import opened Text
  import opened Fields
  import opened Locale
  import opened Names
  import opened Period
  import opened Transactions

  /** The `metrics` part of the record. */
  datatype Metrics = Metrics(
    fromDate: string, toDate: string, statementLanguage: string,
    name: string, surname: string, patronymic: string, fullName: string,
    finInstitut: string, cardNumber: string, numberAccount: string, avgSum: real)

  /** The statement record the parser keeps in `data`. */
  datatype Statement = Statement(
    financialInstitutionName: string, cardNumber: string, fromDate: string, toDate: string,
    details: seq<Transaction>, metrics: Metrics, statementLanguage: string, fullName: string)

  /** The value `parse` returns on success. */
  datatype Envelope = Envelope(success: bool, msg: Option<string>, msgType: Option<string>, data: Statement)

  /** The exceptions that escape `parse`: the `IndexError` of an empty list of name
      lines, and the two `ValueError`s of the period extractor. */
  datatype ParseError = NoNameLines | BadPeriod(reason: PeriodError)

  const Institution: string := "Kaspi"

  /** The incoming amounts: the positive amounts, in order. */
  function Incoming(txs: seq<Transaction>): (xs: seq<real>)
    ensures |xs| <= |txs|
    ensures forall k :: 0 <= k < |xs| ==> xs[k] > 0.0
    ensures forall k :: 0 <= k < |txs| && txs[k].amount > 0.0 ==> txs[k].amount in xs
    ensures forall x :: x in xs ==> exists k :: 0 <= k < |txs| && txs[k].amount == x
  {
    if txs == [] then []
    else
      var rest := Incoming(txs[1..]);
      assert forall x :: x in rest ==> exists k :: 0 <= k < |txs| && txs[k].amount == x by {
        forall x | x in rest ensures exists k :: 0 <= k < |txs| && txs[k].amount == x {
          var j :| 0 <= j < |txs[1..]| && txs[1..][j].amount == x;
          assert txs[j + 1].amount == x;
        }
      }
      assert forall k :: 1 <= k < |txs| ==> txs[k] == txs[1..][k - 1];
      if txs[0].amount > 0.0 then [txs[0].amount] + rest else rest
  }

  /** The incoming amounts keep the order and the multiplicity of the transactions: a
      transaction appended contributes its amount at the end exactly when it is
      positive. */
  lemma {:induction false} IncomingAppend(txs: seq<Transaction>, t: Transaction)
    ensures Incoming([]) == []
    ensures Incoming(txs + [t]) == Incoming(txs) + (if t.amount > 0.0 then [t.amount] else [])
    decreases |txs|
  {
    if txs == [] {
      assert [] + [t] == [t];
      assert [t][1..] == [];
    } else {
      assert (txs + [t])[0] == txs[0];
      assert (txs + [t])[1..] == txs[1..] + [t];
      IncomingAppend(txs[1..], t);
    }
  }

  function Sum(xs: seq<real>): real {
    if xs == [] then 0.0 else xs[0] + Sum(xs[1..])
  }

  /** `avg_sum` before rounding: the mean of the incoming amounts, 0 when there are none. */
  function AverageIncoming(txs: seq<Transaction>): real {
    var xs := Incoming(txs);
    if xs == [] then 0.0 else Sum(xs) / (|xs| as real)
  }

  /** A sum of values between `lo` and `hi` lies between `n * lo` and `n * hi`. */
  lemma {:induction false} SumWithin(xs: seq<real>, lo: real, hi: real)
    requires forall k :: 0 <= k < |xs| ==> lo <= xs[k] <= hi
    ensures (|xs| as real) * lo <= Sum(xs) <= (|xs| as real) * hi
  {
    if xs != [] {
      SumWithin(xs[1..], lo, hi);
      assert (|xs| as real) * lo == lo + (|xs[1..]| as real) * lo;
      assert (|xs| as real) * hi == hi + (|xs[1..]| as real) * hi;
    }
  }

  /** A quotient by a positive count keeps the bounds the count times the bounds give. */
  lemma QuotientWithin(total: real, n: real, lo: real, hi: real)
    requires n > 0.0 && n * lo <= total <= n * hi
    ensures lo <= total / n <= hi
  {
  }

  /** The average lies between any bounds of the incoming amounts. */
  lemma AverageWithin(txs: seq<Transaction>, lo: real, hi: real)
    requires forall x :: x in Incoming(txs) ==> lo <= x <= hi
    ensures Incoming(txs) != [] ==> lo <= AverageIncoming(txs) <= hi
  {
    var xs := Incoming(txs);
    if xs != [] {
      MeanWithin(xs, lo, hi);
    }
  }

  /** The mean of a non-empty sequence lies between any bounds of its values. */
  lemma MeanWithin(xs: seq<real>, lo: real, hi: real)
    requires xs != [] && forall x :: x in xs ==> lo <= x <= hi
    ensures lo <= Sum(xs) / (|xs| as real) <= hi
  {
    forall k | 0 <= k < |xs| ensures lo <= xs[k] <= hi {
      assert xs[k] in xs;
    }
    SumWithin(xs, lo, hi);
    QuotientWithin(Sum(xs), |xs| as real, lo, hi);
  }

  /** The average is 0 without incoming amounts and positive with them. */
  lemma AverageSign(txs: seq<Transaction>)
    ensures Incoming(txs) == [] <==> AverageIncoming(txs) == 0.0
    ensures Incoming(txs) != [] ==> AverageIncoming(txs) > 0.0
  {
    var xs := Incoming(txs);
    if xs != [] {
      MeanPositive(xs);
    }
  }

  lemma MeanPositive(xs: seq<real>)
    requires xs != [] && forall k :: 0 <= k < |xs| ==> xs[k] > 0.0
    ensures Sum(xs) / (|xs| as real) > 0.0
  {
    SumPositive(xs);
  }

  lemma {:induction false} SumPositive(xs: seq<real>)
    requires xs != [] && forall k :: 0 <= k < |xs| ==> xs[k] > 0.0
    ensures Sum(xs) > 0.0
  {
    if |xs| > 1 {
      SumPositive(xs[1..]);
    }
  }

  /** `f"*{card_number[-4:]}"`: an asterisk and the last four characters of the card
      number, or all of them when it is shorter. */
  function MaskCard(card: string): (m: string)
    ensures |m| == 1 + (if |card| < 4 then |card| else 4)
    ensures m[0] == '*' && m[1..] == card[|card| - (|m| - 1)..]
  {
    "*" + (if |card| <= 4 then card else card[|card| - 4..])
  }

  /** The record built from the extracted pieces: the period is written `DD.MM.YYYY` in
      the record and `YYYY-MM-DDT00:00:00` in the metrics. */
  function Record(language: Language, person: PersonName, from: Date, to: Date,
                  card: string, account: string, txs: seq<Transaction>): Statement
    requires ValidDate(from) && InPivotWindow(from) && ValidDate(to) && InPivotWindow(to)
  {
    var metrics := Metrics(
      IsoDateTime(from), IsoDateTime(to), language.Code(),
      person.givenName, person.surname, person.patronymic, person.fullName,
      Institution, MaskCard(card), account, AverageIncoming(txs));
    Statement(
      Institution, card, DisplayForm(from), DisplayForm(to), txs, metrics,
      language.Code(), person.fullName)
  }

  /** What `parse` produces for the statement text: the record, or the exception that
      escapes. The extractors run in the order of the source, so a missing name wins
      over a missing period. */
  function Assemble(text: string): Result<Statement, ParseError> {
    var (language, nameLines) := Detect(text);
    match SplitFullName(language, nameLines)
    case None => Failure(NoNameLines)
    case Some(person) =>
      match ExtractDates(text)
      case Failure(e) => Failure(BadPeriod(e))
      case Success((from, to)) =>
        Success(Record(language, person, from, to,
          FieldValue(text, Matchers(CardPatterns), ""),
          FieldValue(text, Matchers(AccountPatterns), ""),
          TransactionsOf(text)))
  }

  /** A successful assembly is the record of the pieces the extractors give. */
  lemma AssembledRecord(text: string)
    requires Assemble(text).Success?
    ensures var (language, nameLines) := Detect(text);
      && SplitFullName(language, nameLines).Some?
      && ExtractDates(text).Success?
      && Assemble(text).value == Record(language, SplitFullName(language, nameLines).value,
           ExtractDates(text).value.0, ExtractDates(text).value.1,
           FieldValue(text, Matchers(CardPatterns), ""),
           FieldValue(text, Matchers(AccountPatterns), ""),
           TransactionsOf(text))
  {
  }

  /** `parse` returns a record exactly when the detector gives at least one name line
      and the period extractor succeeds; every other text raises. */
  lemma AssembleSucceeds(text: string)
    ensures Assemble(text).Success? <==> Detect(text).1 != [] && ExtractDates(text).Success?
  {
    var (language, nameLines) := Detect(text);
    assert SplitFullName(language, nameLines).Some? <==> nameLines != [];
  }

  /** The name error can only come from an English statement whose name block has no
      non-blank line: the other languages always give at least one name line. */
  lemma NameErrorOnlyEnglish(text: string)
    requires Assemble(text) == Failure(NoNameLines)
    ensures Detect(text).0 == Eng && Detect(text).1 == []
  {
  }

  /** A statement with its names is rejected for its period exactly when the period
      extractor fails, with the same reason. */
  lemma PeriodErrorReason(text: string)
    requires Detect(text).1 != []
    ensures Assemble(text).Failure? <==> ExtractDates(text).Failure?
    ensures ExtractDates(text).Failure? ==> Assemble(text) == Failure(BadPeriod(ExtractDates(text).error))
  {
  }

  /** The parts of a record agree with each other: the institution, the language and
      the full name appear in the record and in its metrics alike, the masked card is
      taken from the card number, the card number is empty or digits, and the details
      are the extracted transactions. */
  lemma StatementConsistent(text: string)
    requires Assemble(text).Success?
    ensures var s := Assemble(text).value;
      && s.financialInstitutionName == s.metrics.finInstitut == "Kaspi"
      && s.statementLanguage == s.metrics.statementLanguage
      && s.statementLanguage in {"eng", "rus", "kaz", "unknown"}
      && s.fullName == s.metrics.fullName
      && s.metrics.cardNumber[0] == '*'
      && s.metrics.cardNumber[1..] == s.cardNumber[|s.cardNumber| - (|s.metrics.cardNumber| - 1)..]
      && (s.cardNumber == [] || AllDigits(s.cardNumber))
      && s.cardNumber == FieldValue(text, Matchers(CardPatterns), "")
      && s.metrics.numberAccount == FieldValue(text, Matchers(AccountPatterns), "")
      && var person := SplitFullName(Detect(text).0, Detect(text).1).value;
      && s.metrics.name == person.givenName && s.metrics.surname == person.surname
      && s.metrics.patronymic == person.patronymic && s.fullName == person.fullName
      && s.details == TransactionsOf(text)
      && s.metrics.avgSum == AverageIncoming(s.details)
  {
    AssembledRecord(text);
    CardNumberDigits(text);
    var (language, nameLines) := Detect(text);
    var (from, to) := ExtractDates(text).value;
    RecordConsistent(language, SplitFullName(language, nameLines).value, from, to,
      FieldValue(text, Matchers(CardPatterns), ""), FieldValue(text, Matchers(AccountPatterns), ""),
      TransactionsOf(text));
  }

  /** The parts of a record built from any pieces agree with each other. */
  lemma RecordConsistent(language: Language, person: PersonName, from: Date, to: Date,
                         card: string, account: string, txs: seq<Transaction>)
    requires ValidDate(from) && InPivotWindow(from) && ValidDate(to) && InPivotWindow(to)
    ensures var s := Record(language, person, from, to, card, account, txs);
      && s.financialInstitutionName == s.metrics.finInstitut == "Kaspi"
      && s.statementLanguage == s.metrics.statementLanguage
      && s.statementLanguage in {"eng", "rus", "kaz", "unknown"}
      && s.fullName == s.metrics.fullName
      && s.metrics.cardNumber[0] == '*'
      && s.metrics.cardNumber[1..] == s.cardNumber[|s.cardNumber| - (|s.metrics.cardNumber| - 1)..]
      && s.cardNumber == card && s.details == txs
      && s.metrics.numberAccount == account
      && s.metrics.name == person.givenName && s.metrics.surname == person.surname
      && s.metrics.patronymic == person.patronymic && s.fullName == person.fullName
      && s.metrics.avgSum == AverageIncoming(s.details)
  {
  }

  /** The period appears twice: as `DD.MM.YYYY` in the record and as
      `YYYY-MM-DDT00:00:00` in the metrics, both for the dates the period phrase names. */
  lemma PeriodForms(text: string)
    requires Assemble(text).Success?
    ensures var s := Assemble(text).value;
      && ExtractDates(text).Success?
      && var (from, to) := ExtractDates(text).value;
      && s.fromDate == DisplayForm(from) && s.metrics.fromDate == IsoDateTime(from)
      && s.toDate == DisplayForm(to) && s.metrics.toDate == IsoDateTime(to)
      && s.fromDate[..2] == s.metrics.fromDate[8..10]
      && s.fromDate[3..5] == s.metrics.fromDate[5..7]
      && s.fromDate[6..] == s.metrics.fromDate[..4]
  {
    AssembledRecord(text);
    var (from, to) := ExtractDates(text).value;
    DisplayIsoAgree(from);
  }

  /** The display form and the ISO form write the same day, month and year. */
  lemma DisplayIsoAgree(d: Date)
    requires ValidDate(d) && 0 <= d.year < 10000
    ensures var display, iso := DisplayForm(d), IsoDateTime(d);
      display[..2] == iso[8..10] && display[3..5] == iso[5..7] && display[6..] == iso[..4]
  {
    var day, month, year := Pad2(d.day), Pad2(d.month), Pad4(d.year);
    var display := DisplayForm(d);
    var iso := IsoDateTime(d);
    assert display == day + "." + month + "." + year;
    assert iso == year + "-" + month + "-" + day + "T00:00:00";
    assert display[..2] == day && iso[8..10] == day;
    assert display[3..5] == month && iso[5..7] == month;
    assert display[6..] == year && iso[..4] == year;
  }

  /** The parser of one statement. The PDF text extraction is outside this model: the
      parser is built with the text it would extract. */
  class KaspiParser {
    /** The text of the statement PDF. */
    const sourceText: string
    /** `raw_text`: `None` until `parse` runs. */
    var rawText: Option<string>
    /** `data`: empty (`None`) until a `parse` succeeds. */
    var data: Option<Statement>

    constructor(sourceText: string)
      ensures this.sourceText == sourceText && rawText == None && data == None
    {
      this.sourceText := sourceText;
      rawText := None;
      data := None;
    }

    /** `parse`: stores the raw text, runs the extractors in order and, when none of
        them raises, stores the record and returns the success envelope. An exception
        leaves `data` as it was. */
    method Parse() returns (r: Result<Envelope, ParseError>)
      modifies this
      ensures rawText == Some(sourceText)
      ensures r.Success? <==> Assemble(sourceText).Success?
      ensures r.Success? ==>
        && r.value == Envelope(true, None, None, Assemble(sourceText).value)
        && data == Some(r.value.data)
      ensures r.Failure? ==> r.error == Assemble(sourceText).error && data == old(data)
    {
      rawText := Some(sourceText);
      var text := sourceText;
      var language, nameLines := DetectLanguageAndName(text);
      var person := SplitFullName(language, nameLines);
      if person.None? {
        return Failure(NoNameLines);
      }
      var period := ExtractDates(text);
      if period.Failure? {
        return Failure(BadPeriod(period.error));
      }
      var (from, to) := period.value;
      var card := ExtractField(text, Matchers(CardPatterns), "");
      var account := ExtractField(text, Matchers(AccountPatterns), "");
      var txs := ExtractTransactions(text);
      var statement := Record(language, person.value, from, to, card, account, txs);
      data := Some(statement);
      return Success(Envelope(true, None, None, statement));
    }
  }
}
