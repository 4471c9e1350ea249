# Kaspi Gold statement parser — a Dafny model

This project models how the Kaspi bank statement parser turns the text of a Kaspi Gold
card statement into a statement record. The text may be in English, Russian or Kazakh.
It covers the text-to-record pipeline of `utils.py` and the record assembly of
`KaspiParser.parse` in `kaspi_parser.py`. The parser is built with the text that PDF
extraction would give.

The modules follow the source:

- `Text`: Python's `str` operations the pipeline uses. These are `strip`, `split()`,
  `split("\t")`, `in` and `splitlines`, over ASCII whitespace.
- `Fields`: `normalize_spaces` and `extract_field`. The regex patterns are an ordered
  sequence of matcher functions. The six label patterns of the assembler are
  hand-coded matchers.
- `Locale`: `detect_language_and_name`. English is tried first, then Russian, then
  Kazakh, then unknown. The Russian and Kazakh branches are positional. They use the
  first card-number line that has a line above it and two below it, and take the
  line above and the line two below. A card-number line at the top or among the
  last two lines is skipped; when no card-number line qualifies, the next language
  is tried.
- `Names`: `split_full_name`.
- `Period`: `extract_dates`, `strptime("%d.%m.%y")` with the `%y` pivot (00–68 is 20xx,
  69–99 is 19xx), and the three `strftime`/`isoformat` forms.
- `Amounts`: the amount line decoder. It covers the regex, the `replace` chain,
  `float()` and the sign rule, over exact reals.
- `Transactions`: `find_transaction_start_index` and the scanning loop of
  `extract_transactions`. The loop is a method. It is proved equal to a recursive
  `Scan` over the outcome of reading a block at each line.
- `Assembler`: the record datatypes and the average of the incoming amounts. It also
  holds the card mask, `Assemble` (the record or the exception `parse` lets out) and
  the class `KaspiParser` with its fields `rawText` and `data`.

Behaviour followed from the code:

- The Russian and Kazakh detectors take `lines[i - 1]` as the surname line, one line
  above the card-number line.
- `split_full_name` with one Russian or Kazakh line gives `(line, line, "", "")`, so
  the given name is empty.
- `split_full_name` raises `IndexError` on an empty list of name lines. The English
  detector gives that list when its name block holds only blank lines, and the error
  escapes `parse` (`NoNameLines`).
- `extract_field` returns `""`, not the fallback, for a capture made only of
  whitespace. Such a capture is truthy, and stripping it leaves nothing.
- `parse` builds no failed envelope. A missing or invalid period, or the name error,
  escapes as an exception (`Result.Failure`).
- The English account pattern `Account number:([A-Z0-9]+)` has no `\s*`. A space after
  the colon makes it miss, and the Russian and Kazakh patterns are tried next.
- The en dash is not in the sign class `[−\-+]`, so its `replace` never applies to a
  sign. A line starting with an en dash does not match (`Amounts.EnDashRejected`).

## Model

| member | source | states |
|---|---|---|
| Text.SplitLines | utils.py:118 | the lines of a text are empty exactly when the text is |
| Text.SplitLinesJoin | utils.py:118 | joining the lines with line breaks, plus the final break when the text ends in one, gives back the text |
| Text.SplitLinesNoBreak | utils.py:118 | no line holds a line break |
| Text.SplitWhitespace | utils.py:66 | `split()` gives non-empty words without whitespace |
| Text.SplitTwoWords | utils.py:66-68 | "A B" of two words splits into exactly `[A, B]` |
| Text.JoinSplitOn | utils.py:148 | splitting on a character and joining back gives the string |
| Fields.CollapseSpaces | utils.py:12 | `re.sub("[ ]{2,}", " ", …)` leaves no two consecutive spaces and keeps the first character |
| Fields.CollapseNoDoubleSpace | utils.py:12 | a text without double spaces is left unchanged |
| Fields.CollapseDoubleSpace | utils.py:12 | a double space anywhere collapses exactly like a single space there |
| Fields.CollapseKeepsWords | utils.py:12 | collapsing keeps the whitespace-separated words, in order |
| Text.SplitWhitespaceStrip | utils.py:12 | stripping keeps the whitespace-separated words, in order |
| Fields.NormalizeSpaces | utils.py:10-12 | the result has no two consecutive spaces and no leading or trailing whitespace |
| Fields.NormalizeKeepsWords | utils.py:10-12 | normalising keeps the words of the text in order; only the whitespace around and between them changes |
| Fields.NormalizeIdempotent | utils.py:10-12 | normalising twice equals normalising once |
| Fields.FirstFilled | utils.py:23-25 | the result is the group at some index k that is non-empty while every group before k is empty; there is none exactly when all groups are empty |
| Fields.FieldValue | utils.py:15-26 | `extract_field`'s value; its meaning is given by FieldValueFirstWins and FieldValueFallback, and ExtractField computes it |
| Fields.FieldValueFirstWins | utils.py:20-25 | when pattern k is the first whose match has a non-empty group, the field is that group stripped |
| Fields.FieldValueFallback | utils.py:26 | when no pattern's match has a non-empty group, the field is the fallback |
| Fields.ExtractField | utils.py:15-26 | the loop over patterns and groups, with early returns, returns the specified field value |
| Fields.LabelMatchFrom | kaspi_parser.py:20-29 | finds the leftmost label occurrence followed by a non-empty token; none exists when it fails |
| Fields.SearchLabel | kaspi_parser.py:20-29 | the one group is the token after the leftmost label occurrence that has one, a non-empty run of its token class; no match exactly when no occurrence has one |
| Fields.LabelFieldInClass | kaspi_parser.py:20-29 | a field read with same-class label patterns is the fallback or a non-empty run of that class |
| Fields.CardNumberDigits | kaspi_parser.py:20-24 | the card number is empty or ASCII digits |
| Locale.EnglishBlock | utils.py:31-32 | the pattern matches exactly when a start anchor, a later line break and a later "Card number" line exist; the group is the text between the first line break after the first anchor and the first "Card number" after it |
| Locale.EnglishNames | utils.py:34-35 | the English name lines are at most the block's lines, each normalised and without double spaces |
| Locale.EnglishNamesAppend | utils.py:34-35 | a line appended to the block adds its normalised form at the end exactly when it is not blank |
| Locale.EnglishDetected | utils.py:31-35 | an English statement gives `eng` and the normalised non-blank lines between the first line break after "Kaspi Gold" and the next "Card number" |
| Locale.FirstAnchor | utils.py:40-42 | finds the first line with the marker that has a line above and two below; none exists when it fails |
| Locale.Detect | utils.py:29-58 | a non-English result carries at least one name line |
| Locale.DetectPrecedence | utils.py:31-58 | English wins over Russian, Russian over Kazakh; unknown is exactly `("unknown", ["Unknown"])` |
| Locale.RussianNames | utils.py:37-45 | a Russian statement gives the normalised `lines[i-1]` and `lines[i+2]` of the first usable anchor |
| Locale.KazakhNames | utils.py:47-55 | the same for a Kazakh statement that is not Russian |
| Locale.FindAnchorLine | utils.py:40-42 | the anchor loop returns the first usable anchor line |
| Locale.DetectLanguageAndName | utils.py:29-58 | the detector with its loops returns the specified language and name lines |
| Names.SplitFullName | utils.py:61-81 | fails exactly on an empty list; English: two words give `(S G, S, G, "")`, else `(line, "", "", "")`; Russian/Kazakh: surname line, first two words of the second line (or "") and the stripped join, one line gives `(line, line, "", "")`; other: `(line, "", "", "")` |
| Names.EnglishTwoWords | utils.py:65-69 | an English "G S" gives `("S G", "S", "G", "")` |
| Names.PositionalThreeParts | utils.py:72-78 | Russian/Kazakh surname line and "G P" give full name "S G P" and its parts |
| Names.PositionalNoPatronymic | utils.py:72-78 | Russian/Kazakh surname line and a one-word line give full name "S G" and an empty patronymic |
| Names.PositionalOneLine | utils.py:79 | one Russian/Kazakh line gives `(line, line, "", "")` |
| Period.PivotYear | utils.py:99 | `%y` maps a two-digit year into 1969–2068 with the same last two digits |
| Period.ParseShortDate | utils.py:99 | an accepted `DD.MM.YY` is a valid calendar date in the pivot window |
| Period.ShortFormRoundTrip | utils.py:99 | every date of the pivot window is read back from its `DD.MM.YY` form |
| Period.ParseShortDateInverse | utils.py:99 | an accepted string is the `DD.MM.YY` form of the date read from it |
| Period.IsoForm | utils.py:130 | `%Y-%m-%d` has ten characters with dashes at 4 and 7 |
| Period.IsoFormRoundTrip | utils.py:130 | the date is read back from its `%Y-%m-%d` form |
| Period.DisplayForm | kaspi_parser.py:39-40 | `%d.%m.%Y` has ten characters with dots at 2 and 5 |
| Period.DisplayFormRoundTrip | kaspi_parser.py:39-40 | the date is read back from its `%d.%m.%Y` form |
| Period.IsoDateTime | kaspi_parser.py:43-44 | `isoformat()` is the `%Y-%m-%d` form followed by `T00:00:00` |
| Period.IsoDateTimeRoundTrip | kaspi_parser.py:43-44 | the date is read back from the first ten characters of its `isoformat()` |
| Period.AlternativeAt | utils.py:89-93 | at one position the regex takes the first phrasing that matches |
| Period.FindPeriod | utils.py:89-94 | finds the leftmost position where a phrasing matches; none matches when it fails |
| Period.ExtractDates | utils.py:84-99 | fails with "period not found" exactly when no phrasing occurs; the dates read are valid |
| Period.ExtractDatesLeftmost | utils.py:89-99 | the dates are those of the leftmost match, in textual order, or a date error |
| Amounts.SignedAmount | utils.py:137-146 | the cleaned and parsed number with the sign rule; TwoCommasRejected, SignedAfterMinusSign, SignedNoMinus and SignRule give its value |
| Amounts.DecodeAmount | utils.py:132-146 | the amount of an amount line; AmountRoundTrip, DecodedSign and EnDashRejected give its value |
| Amounts.AmountGroup | utils.py:132-137 | the captured group is the line's prefix that fits the pattern; none exists when it fails |
| Amounts.AmountShapeUnique | utils.py:132 | the pattern matches a line in at most one way |
| Amounts.GroupUnsigned | utils.py:132 | only the first character of the group can be a sign, and no en dash occurs |
| Amounts.EnDashRejected | utils.py:132-140 | a line starting with an en dash yields no amount |
| Amounts.CleanAmountNoMinus | utils.py:138-144 | without a minus, hyphen or en dash the cleaned text has no "-" |
| Amounts.CleanCountsPoints | utils.py:138-144 | the cleaned text has one point per comma or point of the captured text |
| Amounts.CleanPrinted | utils.py:138-144 | a printed amount cleans to its sign, its digits without spaces and a point fraction |
| Amounts.DecimalLiteralPoint | utils.py:145 | `float` of "D.F" is D plus F over ten to the length of F |
| Amounts.ParseFloatOnePoint | utils.py:145 | `float` accepts at most one point |
| Amounts.TwoCommasRejected | utils.py:138-145 | a captured amount with two or more commas has no value |
| Amounts.DecodedSign | utils.py:145-146 | a decoded amount is at most 0 after "−" or "-", and at least 0 otherwise |
| Amounts.PrintedMinus | utils.py:146 | a printed amount holds "-" exactly when its sign is "-" |
| Amounts.NumBelowPow10 | utils.py:145 | n decimal digits write a number below ten to the n |
| Amounts.DecimalFraction | utils.py:145 | the digits after the point add less than one to the whole part |
| Amounts.ParseFloatPrinted | utils.py:145 | `float` of a cleaned printed amount is its signed decimal value |
| Amounts.AmountRoundTrip | utils.py:132-146 | sign, space-grouped digits, optional comma fraction and " ₸" decode to the signed exact value |
| Transactions.StartIndex | utils.py:102-110 | the start index; StartAfterFirstHeader gives its value and FindTransactionStartIndex computes it |
| Transactions.FirstHeaderLeast | utils.py:107-109 | the header search finds the first header line |
| Transactions.StartAfterFirstHeader | utils.py:102-110 | the start index is 0 exactly when no line has a header, else one past the first header line |
| Transactions.FindTransactionStartIndex | utils.py:102-110 | the loop with its early return computes the start index |
| Transactions.Retab | utils.py:148 | the substitution never lengthens the line and keeps whether it starts with whitespace |
| Transactions.RetabKeepsPlain | utils.py:148 | text without tabs or whitespace pairs is left unchanged |
| Transactions.InfoColumns | utils.py:148-150 | both description columns are stripped and tab-free |
| Transactions.InfoTwoColumns | utils.py:148-150 | "type", a tab or two or more spaces, then "details" gives exactly `(type, details)` |
| Transactions.InfoOneColumn | utils.py:148-150 | a description without separator gives `(type, "")` |
| Transactions.DatePrefix | utils.py:128 | `date_line[:8]` is the prefix of length min(8, length of the line) |
| Transactions.Block | utils.py:124-164 | the outcome of one loop iteration on three stripped lines; BlockReads and ReadBlockLines give it |
| Transactions.BlockReads | utils.py:124-157 | a block is recorded exactly when its date and amount parse, with the ISO date, decoded amount and columns |
| Transactions.ReadBlockLines | utils.py:124-164 | the loop body, with early exits in the source's order: no date token, a bad date, no amount match or a bad amount each give their own outcome; otherwise the record holds the ISO date, the decoded amount and the columns |
| Transactions.Scan | utils.py:121-164 | the records of the `while` loop from line i; ScanBlocks, ScanFirstBlock, ScanNoBlock and ScanBound give them, and ScanLines computes them |
| Transactions.TransactionsOf | utils.py:113-166 | `extract_transactions`: the scan from the start index over the text's lines; ExtractedBlocks gives it and ExtractTransactions computes it |
| Transactions.ScanBlocks | utils.py:121-164 | each record comes from a block that reads; blocks are in order from the start and three lines apart or more |
| Transactions.ScanFirstBlock | utils.py:123-164 | the scan moves line by line past failed blocks and records the first block that reads |
| Transactions.ScanNoBlock | utils.py:123-164 | without a readable block from a line on, nothing is recorded |
| Transactions.ScanBound | utils.py:123 | every record uses three lines of its own |
| Transactions.ExtractedBlocks | utils.py:113-166 | records come from non-overlapping blocks in text order at or after the start index; at most a third as many records as lines |
| Transactions.ExtractTransactions | utils.py:113-166 | the loop stepping by 3 or 1 returns exactly the scanned records |
| Transactions.ScanLines | utils.py:121-164 | the `while` loop from the start index returns exactly the scan of the block outcomes |
| Transactions.PurchaseExample | utils.py:113-166 | "15.03.24", "−2 500 ₸", "Покупка⇥Магазин" is one record of −2500 on 2024-03-15 |
| Assembler.Incoming | kaspi_parser.py:33 | the incoming amounts are exactly the positive amounts |
| Assembler.IncomingAppend | kaspi_parser.py:33 | no record gives no amount; an appended record adds its amount at the end exactly when it is positive |
| Assembler.AverageIncoming | kaspi_parser.py:33-34 | `avg_sum` before rounding; AverageSign and AverageWithin give its value |
| Assembler.SumWithin | kaspi_parser.py:34 | a sum of n values between lo and hi lies between n·lo and n·hi |
| Assembler.MeanWithin | kaspi_parser.py:34 | the mean of a non-empty sequence lies between any bounds of its values |
| Assembler.AverageWithin | kaspi_parser.py:33-34 | with incoming amounts, the average lies between any bounds of them |
| Assembler.AverageSign | kaspi_parser.py:33-34 | the average is 0 exactly when there is no incoming amount, and positive otherwise |
| Assembler.MaskCard | kaspi_parser.py:51 | "*" followed by the last min(4, length) characters of the card number |
| Assembler.Assemble | kaspi_parser.py:16-57 | what `parse` builds or lets escape; AssembleSucceeds, NameErrorOnlyEnglish, PeriodErrorReason, StatementConsistent and PeriodForms give it |
| Assembler.AssembleSucceeds | kaspi_parser.py:17-19 | a record is built exactly when the detector gives a name line and the period extractor succeeds |
| Assembler.NameErrorOnlyEnglish | kaspi_parser.py:17-18 | the name error only comes from an English statement with no name line |
| Assembler.PeriodErrorReason | kaspi_parser.py:19 | with name lines, the parse fails exactly when the period extractor does, for its reason |
| Assembler.StatementConsistent | kaspi_parser.py:20-57 | institution, language and full name agree between record and metrics; the card and account numbers are the field values; the name parts are those of `split_full_name`; the mask comes from the card number; details are the extracted records and `avg_sum` is their incoming average |
| Assembler.RecordConsistent | kaspi_parser.py:36-57 | for any pieces, the record and its metrics agree on institution, language and full name, keep the card number, account, name parts and records given, and hold the records' incoming average |
| Assembler.PeriodForms | kaspi_parser.py:39-44 | the period is `DD.MM.YYYY` in the record and `YYYY-MM-DDT00:00:00` in the metrics, with the same day, month and year |
| Assembler.DisplayIsoAgree | kaspi_parser.py:39-44 | the display and ISO forms write the same day, month and year |
| Assembler.KaspiParser.constructor | kaspi_parser.py:10-13 | a new parser has no raw text and no data |
| Assembler.KaspiParser.Parse | kaspi_parser.py:15-64 | stores the raw text; on success stores the record and returns `(True, None, None, record)`; otherwise returns the error and leaves `data` as it was |

## Left out

- PDF text extraction (`PDFParser.extract_text`) is not part of this model. A parser is
  constructed with the text it would extract.
- Logging calls are left out. They have no effect on the result.
- Unicode `\s`, `\d` and `str.isspace` are left out. Whitespace is the ASCII set (space,
  tab, line feed, carriage return, vertical tab, form feed) and digits are `0`–`9`.
- Text.SplitLines: splits on `'\n'` only, so the other line separators of Python's
  `splitlines` are not modelled. It keeps Python's rule of no trailing empty line.
- General regular expressions are left out. Each fixed pattern of the source is
  hand-coded as a matcher over characters. `extract_field` takes any ordered
  sequence of matchers.
- Amounts are exact reals, not binary floating point. Float rounding and `-0.0` are not
  modelled. `float()` is modelled only on the strings the amount cleaner can produce.
- Assembler.AverageIncoming: the exact mean is kept, so the `round(avg_sum, 2)` of the
  metrics is not modelled.
- Amounts.DecodedSign: states `<= 0` after a minus sign and `>= 0` otherwise, not
  strict signs, because an amount of zero such as "−0 ₸" is neither.
