/** The transaction extractor of utils.py (`find_transaction_start_index`,
    `extract_transactions`): after the first table-header line, the lines are read as
    blocks of three (date, amount, description); a block that reads is recorded and
    skipped, any other line is passed over one at a time. */
module Transactions {
  import opened Wrappers
  import opened Text
  import opened Period
  import opened Amounts

  /** One transaction record: the signed amount, the ISO operation date, the operation
      type and its details. */
  datatype Transaction = Transaction(amount: real, operationDate: string, transactionType: string, details: string)

  /** The words of the table header in Russian, Kazakh and English. */
  const Headers: seq<string> := ["Дата", "Сумма", "Күні", "Сомасы", "Date", "Amount"]

  predicate HasHeader(line: string) {
    exists k :: 0 <= k < |Headers| && Contains(line, Headers[k])
  }

  /** The first header line at or after `from`. */
  function FirstHeader(lines: seq<string>, from: nat): (r: Option<nat>)
    ensures r.Some? ==> from <= r.value < |lines|
    decreases |lines| - from
  {
    if from >= |lines| then None
    else if HasHeader(lines[from]) then Some(from)
    else FirstHeader(lines, from + 1)
  }

  /** The first header line is a header line with none before it; no result means no
      header line at all. */
  lemma {:induction false} FirstHeaderLeast(lines: seq<string>, from: nat)
    ensures var r := FirstHeader(lines, from);
      && (r.Some? ==> HasHeader(lines[r.value]) && forall j :: from <= j < r.value ==> !HasHeader(lines[j]))
      && (r.None? ==> forall j :: from <= j < |lines| ==> !HasHeader(lines[j]))
    decreases |lines| - from
  {
    if from < |lines| && !HasHeader(lines[from]) {
      FirstHeaderLeast(lines, from + 1);
    }
  }

  /** Where the records start: just after the first header line, or at the top when
      there is none. */
  function StartIndex(lines: seq<string>): (r: nat)
    ensures r <= |lines|
  {
    match FirstHeader(lines, 0)
    case None => 0
    case Some(i) => i + 1
  }

  /** The records start at the top exactly when no line holds a header word, and
      otherwise just after the first line that does. */
  lemma StartAfterFirstHeader(lines: seq<string>)
    ensures var r := StartIndex(lines);
      && (r == 0 <==> forall j :: 0 <= j < |lines| ==> !HasHeader(lines[j]))
      && (r > 0 ==> HasHeader(lines[r - 1]) && forall j :: 0 <= j < r - 1 ==> !HasHeader(lines[j]))
  {
    FirstHeaderLeast(lines, 0);
  }

  /** `find_transaction_start_index`. */
  method FindTransactionStartIndex(lines: seq<string>) returns (r: nat)
    ensures r == StartIndex(lines)
  {
    for i := 0 to |lines|
      invariant FirstHeader(lines, 0) == FirstHeader(lines, i)
    {
      if HasHeader(lines[i]) {
        return i + 1;
      }
    }
    return 0;
  }

  /** `re.sub(r"\s{2,}|\t+", "\t", s)`: a run of two or more whitespace characters, or
      a single tab, becomes one tab; a single other whitespace character stays. The
      first alternative is greedy and tried first, so each maximal run is replaced
      whole. */
  function Retab(s: string): (r: string)
    ensures |r| <= |s|
    ensures s != [] ==> r != [] && (IsSpace(r[0]) <==> IsSpace(s[0]))
    decreases |s|
  {
    if s == [] then []
    else if IsSpace(s[0]) then
      var n := LeadingSpace(s);
      (if n >= 2 || s[0] == '\t' then "\t" else [s[0]]) + Retab(s[n..])
    else [s[0]] + Retab(s[1..])
  }

  /** The operation type and details of a (stripped) description line: its first two
      tab-separated columns after `Retab`, each stripped; no second column gives "". */
  function InfoColumns(info: string): (r: (string, string))
    ensures Trimmed(r.0) && Trimmed(r.1)
    ensures '\t' !in r.0 && '\t' !in r.1
  {
    var parts := SplitOn(Retab(info), '\t');
    StripKeepsOut(parts[0], '\t');
    if |parts| > 1 then StripKeepsOut(parts[1], '\t'); (Strip(parts[0]), Strip(parts[1]))
    else (Strip(parts[0]), "")
  }

  /** Stripping adds no character. */
  lemma StripKeepsOut(s: string, c: char)
    requires c !in s
    ensures c !in Strip(s)
  {
    var t := Strip(s);
    var lo := LeadingSpace(s);
    forall i | 0 <= i < |t| ensures t[i] != c {
      assert t[i] == s[lo + i];
    }
  }

  /** A column as descriptions show it: not empty, no tab, no two whitespace
      characters in a row, nothing to strip. */
  predicate PlainColumn(s: string) {
    s != [] && Trimmed(s) && '\t' !in s && NoSpacePair(s)
  }

  /** No two whitespace characters in a row. */
  predicate NoSpacePair(s: string) {
    forall i :: 0 <= i < |s| - 1 ==> !(IsSpace(s[i]) && IsSpace(s[i + 1]))
  }

  lemma {:induction false} RetabKeepsPlain(s: string)
    requires '\t' !in s && NoSpacePair(s)
    ensures Retab(s) == s
    decreases |s|
  {
    if s != [] {
      var t := s[1..];
      if IsSpace(s[0]) {
        SingleLeadingSpace(s);
      }
      assert '\t' !in t by {
        forall i | 0 <= i < |t| ensures t[i] != '\t' {
          assert t[i] == s[i + 1];
        }
      }
      assert NoSpacePair(t) by {
        forall i | 0 <= i < |t| - 1 ensures !(IsSpace(t[i]) && IsSpace(t[i + 1])) {
          assert t[i] == s[i + 1] && t[i + 1] == s[i + 2];
        }
      }
      RetabKeepsPlain(t);
    }
  }

  /** A whitespace character not followed by another counts as a run of one. */
  lemma SingleLeadingSpace(s: string)
    requires s != [] && IsSpace(s[0]) && (|s| == 1 || !IsSpace(s[1]))
    ensures LeadingSpace(s) == 1
  {
    if |s| > 1 {
      assert s[..1] == [s[0]];
      LeadingSpaceIs(s, 1);
    } else {
      assert s[1..] == [];
    }
  }

  /** Replacement works run by run: a cut after a non-space character splits it. */
  lemma {:induction false} RetabAppend(a: string, b: string)
    requires a != [] && !IsSpace(a[|a| - 1])
    ensures Retab(a + b) == Retab(a) + Retab(b)
    decreases |a|, 1
  {
    var s := a + b;
    if IsSpace(a[0]) {
      RetabAppendRun(a, b);
    } else if |a| > 1 {
      assert s[0] == a[0] && s[1..] == a[1..] + b;
      RetabAppend(a[1..], b);
    } else {
      assert s[0] == a[0] && s[1..] == b;
    }
  }

  /** The case of `RetabAppend` where `a` opens with a whitespace run. */
  lemma {:induction false} RetabAppendRun(a: string, b: string)
    requires a != [] && !IsSpace(a[|a| - 1]) && IsSpace(a[0])
    ensures Retab(a + b) == Retab(a) + Retab(b)
    decreases |a|, 0
  {
    var s := a + b;
    var n := LeadingSpace(a);
    LeadingSpaceAppend(a, b);
    assert s[0] == a[0] && s[n..] == a[n..] + b;
    RetabAppend(a[n..], b);
  }

  /** A leading run that ends inside `a` is not lengthened by what follows `a`. */
  lemma LeadingSpaceAppend(a: string, b: string)
    requires a != [] && !IsSpace(a[|a| - 1])
    ensures LeadingSpace(a) < |a| && LeadingSpace(a + b) == LeadingSpace(a)
  {
    var s := a + b;
    var n := LeadingSpace(a);
    assert n < |a|;
    assert s[..n] == a[..n];
    assert s[n] == a[n];
    LeadingSpaceIs(s, n);
  }

  /** The leading whitespace count is determined by where the run ends. */
  lemma LeadingSpaceIs(s: string, n: nat)
    requires n < |s| && AllSpace(s[..n]) && !IsSpace(s[n])
    ensures LeadingSpace(s) == n
  {
    var k := LeadingSpace(s);
    forall i | 0 <= i < n ensures IsSpace(s[i]) {
      assert s[..n][i] == s[i];
    }
    forall i | 0 <= i < k ensures IsSpace(s[i]) {
      assert s[..k][i] == s[i];
    }
  }

  /** A separator of two or more whitespace characters, or a single tab, before a
      non-space character becomes one tab. */
  lemma RetabSeparator(sep: string, b: string)
    requires sep != [] && AllSpace(sep) && (|sep| >= 2 || sep == "\t")
    requires b != [] && !IsSpace(b[0])
    ensures Retab(sep + b) == "\t" + Retab(b)
  {
    var s := sep + b;
    assert s[..|sep|] == sep;
    LeadingSpaceIs(s, |sep|);
    assert s[|sep|..] == b;
  }

  /** Splitting text without the separator gives the text. */
  lemma SplitOnAbsent(s: string, sep: char)
    requires sep !in s
    ensures SplitOn(s, sep) == [s]
  {
    forall j: nat ensures !OccursAt(s, [sep], j) {
      if j + 1 <= |s| {
        assert s[j..j + 1] == [s[j]];
      }
    }
  }

  /** Splitting two separator-free pieces joined by the separator gives the pieces. */
  lemma SplitOnPair(a: string, b: string, sep: char)
    requires sep !in a && sep !in b
    ensures SplitOn(a + [sep] + b, sep) == [a, b]
  {
    var s := a + [sep] + b;
    var r := IndexOf(s, [sep], 0);
    assert OccursAt(s, [sep], |a|) by {
      assert s[|a|..|a| + 1] == [sep];
    }
    assert r.Some?;
    forall j: nat | j < |a| ensures !OccursAt(s, [sep], j) {
      assert s[j..j + 1] == [a[j]];
    }
    assert r.value == |a|;
    assert s[..|a|] == a && s[|a| + 1..] == b;
    SplitOnAbsent(b, sep);
  }

  /** A separator before a plain column becomes one tab. */
  lemma RetabSeparatorPlain(sep: string, details: string)
    requires PlainColumn(details)
    requires sep != [] && AllSpace(sep) && (|sep| >= 2 || sep == "\t")
    ensures Retab(sep + details) == "\t" + details
  {
    RetabSeparator(sep, details);
    RetabKeepsPlain(details);
  }

  /** Joining a column that `Retab` keeps to the rest of a line. */
  lemma RetabJoin(kind: string, sep: string, details: string)
    requires kind != [] && !IsSpace(kind[|kind| - 1])
    requires Retab(kind) == kind && Retab(sep + details) == "\t" + details
    ensures Retab(kind + sep + details) == kind + ['\t'] + details
  {
    var rest := sep + details;
    assert kind + sep + details == kind + rest;
    RetabAppend(kind, rest);
    assert kind + ("\t" + details) == kind + ['\t'] + details;
  }

  /** The separator between two plain columns becomes one tab. */
  lemma RetabTwoColumns(kind: string, details: string, sep: string)
    requires PlainColumn(kind) && PlainColumn(details)
    requires sep != [] && AllSpace(sep) && (|sep| >= 2 || sep == "\t")
    ensures Retab(kind + sep + details) == kind + ['\t'] + details
  {
    RetabKeepsPlain(kind);
    RetabSeparatorPlain(sep, details);
    RetabJoin(kind, sep, details);
  }

  /** A description of two columns separated by a tab, or by two or more whitespace
      characters, gives those columns as operation type and details. */
  lemma InfoTwoColumns(kind: string, details: string, sep: string)
    requires PlainColumn(kind) && PlainColumn(details)
    requires sep != [] && AllSpace(sep) && (|sep| >= 2 || sep == "\t")
    ensures InfoColumns(kind + sep + details) == (kind, details)
  {
    RetabTwoColumns(kind, details, sep);
    SplitOnPair(kind, details, '\t');
    var parts := SplitOn(Retab(kind + sep + details), '\t');
    assert parts == [kind, details];
    StripTrimmed(kind);
    StripTrimmed(details);
  }

  /** A description of one column is the operation type, with empty details. */
  lemma InfoOneColumn(kind: string)
    requires PlainColumn(kind)
    ensures InfoColumns(kind) == (kind, "")
  {
    RetabKeepsPlain(kind);
    SplitOnAbsent(kind, '\t');
    StripTrimmed(kind);
  }

  /** `date_line[:8]`. */
  function DatePrefix(line: string): (p: string)
    ensures |p| == (if |line| <= 8 then |line| else 8) && p == line[..|p|]
  {
    if |line| <= 8 then line else line[..8]
  }

  /** How reading a block at a line ends: a record, or why the line is passed over (no
      date at the start, a date `strptime` rejects, no amount match, an amount `float`
      rejects). */
  datatype BlockOutcome = Committed(tx: Transaction) | NoDate | BadDate | NoAmount | BadAmount

  /** One block of the stripped date, amount and description lines. The date is read
      before the amount, as in the source. */
  function Block(dateLine: string, amountLine: string, infoLine: string): (r: BlockOutcome)
  {
    var prefix := DatePrefix(dateLine);
    if !IsDateToken(prefix) then NoDate
    else match ParseShortDate(prefix)
      case None => BadDate
      case Some(d) =>
        var date := IsoForm(d);
        match AmountGroup(amountLine)
        case None => NoAmount
        case Some(raw) =>
          match SignedAmount(raw)
          case None => BadAmount
          case Some(amount) =>
            var (kind, details) := InfoColumns(infoLine);
            Committed(Transaction(amount, date, kind, details))
  }

  /** A block is recorded exactly when its date prefix is a date `strptime` accepts and
      its amount line decodes; the record holds the decoded amount, the ISO form of the
      date and the two description columns. */
  lemma BlockReads(dateLine: string, amountLine: string, infoLine: string)
    ensures var r := Block(dateLine, amountLine, infoLine);
      r.Committed? <==> ParseShortDate(DatePrefix(dateLine)).Some? && DecodeAmount(amountLine).Some?
    ensures var r := Block(dateLine, amountLine, infoLine);
      r.Committed? ==>
        var d := ParseShortDate(DatePrefix(dateLine)).value;
        && r.tx.amount == DecodeAmount(amountLine).value
        && r.tx.operationDate == IsoForm(d)
        && (r.tx.transactionType, r.tx.details) == InfoColumns(infoLine)
  {
  }

  /** The block starting at line `i`, its lines stripped. */
  function ReadBlock(lines: seq<string>, i: nat): BlockOutcome
    requires i + 2 < |lines|
  {
    Block(Strip(lines[i]), Strip(lines[i + 1]), Strip(lines[i + 2]))
  }

  /** The outcome of reading a block at each line that has two lines below it. */
  function Outcomes(lines: seq<string>): (outs: seq<BlockOutcome>)
    ensures |outs| == if |lines| >= 2 then |lines| - 2 else 0
  {
    var n := if |lines| >= 2 then |lines| - 2 else 0;
    seq(n, i => if 0 <= i && i + 2 < |lines| then ReadBlock(lines, i) else NoDate)
  }

  lemma OutcomeAt(lines: seq<string>, i: nat)
    requires i + 2 < |lines|
    ensures Outcomes(lines)[i] == ReadBlock(lines, i)
  {
  }

  /** The records read from line `i` on, given the outcome at each line: a block that
      reads is recorded and the scan moves three lines on, otherwise one; it stops
      when fewer than three lines remain. */
  function Scan(outs: seq<BlockOutcome>, i: nat): seq<Transaction>
    decreases |outs| - i
  {
    if i >= |outs| then []
    else match outs[i]
      case Committed(tx) => [tx] + Scan(outs, i + 3)
      case _ => Scan(outs, i + 1)
  }

  /** The lines at which recorded blocks start. */
  function Blocks(outs: seq<BlockOutcome>, i: nat): seq<nat>
    decreases |outs| - i
  {
    if i >= |outs| then []
    else if outs[i].Committed? then [i] + Blocks(outs, i + 3)
    else Blocks(outs, i + 1)
  }

  /** What `extract_transactions(text)` returns. */
  function TransactionsOf(text: string): seq<Transaction> {
    var lines := SplitLines(text);
    Scan(Outcomes(lines), StartIndex(lines))
  }

  /** Each record comes from a block that reads, the blocks lie in order from line `i`
      on, and no two overlap. */
  lemma {:induction false} ScanBlocks(outs: seq<BlockOutcome>, i: nat)
    ensures var txs, bs := Scan(outs, i), Blocks(outs, i);
      && |bs| == |txs|
      && (forall k :: 0 <= k < |bs| ==> i <= bs[k] < |outs| && outs[bs[k]] == Committed(txs[k]))
      && (forall k :: 0 <= k < |bs| - 1 ==> bs[k] + 3 <= bs[k + 1])
    decreases |outs| - i
  {
    if i < |outs| {
      if outs[i].Committed? {
        ScanBlocks(outs, i + 3);
        var bs := Blocks(outs, i + 3);
        assert bs != [] ==> i + 3 <= bs[0];
      } else {
        ScanBlocks(outs, i + 1);
      }
    }
  }

  /** The scan passes over lines one at a time up to the first block that reads, and
      records that block. */
  lemma {:induction false} ScanFirstBlock(outs: seq<BlockOutcome>, i: nat, p: nat)
    requires i <= p < |outs| && outs[p].Committed?
    requires forall q :: i <= q < p ==> !outs[q].Committed?
    ensures Scan(outs, i) == [outs[p].tx] + Scan(outs, p + 3)
    decreases p - i
  {
    if i < p {
      ScanFirstBlock(outs, i + 1, p);
    }
  }

  /** No block that reads from line `i` on: no records. */
  lemma {:induction false} ScanNoBlock(outs: seq<BlockOutcome>, i: nat)
    requires forall q :: i <= q < |outs| ==> !outs[q].Committed?
    ensures Scan(outs, i) == []
    decreases |outs| - i
  {
    if i < |outs| {
      ScanNoBlock(outs, i + 1);
    }
  }

  /** Every record uses three lines of its own: a block is read at most at the third
      line from the end. */
  lemma {:induction false} ScanBound(outs: seq<BlockOutcome>, i: nat)
    requires i <= |outs|
    ensures 3 * |Scan(outs, i)| <= |outs| - i + 2
    decreases |outs| - i
  {
    if i < |outs| {
      if outs[i].Committed? {
        if i + 3 <= |outs| {
          ScanBound(outs, i + 3);
        }
      } else {
        ScanBound(outs, i + 1);
      }
    }
  }

  /** The records of a text come from blocks that read, each starting at or after the
      start index with two lines below it, in the order of the text and with no line
      shared by two blocks; so there are at most a third as many records as lines. */
  lemma ExtractedBlocks(text: string)
    ensures var lines := SplitLines(text);
      var txs, bs := TransactionsOf(text), Blocks(Outcomes(lines), StartIndex(lines));
      && |bs| == |txs|
      && (forall k :: 0 <= k < |bs| ==>
            StartIndex(lines) <= bs[k] && bs[k] + 2 < |lines| && ReadBlock(lines, bs[k]) == Committed(txs[k]))
      && (forall k :: 0 <= k < |bs| - 1 ==> bs[k] + 3 <= bs[k + 1])
      && 3 * |txs| <= |lines|
  {
    var lines := SplitLines(text);
    var outs, start := Outcomes(lines), StartIndex(lines);
    ScanBlocks(outs, start);
    if start <= |outs| {
      ScanBound(outs, start);
    }
  }

  /** The body of the loop of `extract_transactions` on one block of stripped lines:
      the checks in the order of the source, each failure ending the block with its
      reason: no date at the start, a date `strptime` rejects, no amount match, an
      amount `float` rejects. */
  method ReadBlockLines(dateLine: string, amountLine: string, infoLine: string) returns (outcome: BlockOutcome)
    ensures outcome == Block(dateLine, amountLine, infoLine)
    ensures outcome == NoDate <==> !IsDateToken(DatePrefix(dateLine))
    ensures outcome == BadDate <==> IsDateToken(DatePrefix(dateLine)) && ParseShortDate(DatePrefix(dateLine)).None?
    ensures outcome == NoAmount <==> ParseShortDate(DatePrefix(dateLine)).Some? && AmountGroup(amountLine).None?
    ensures outcome == BadAmount <==>
      && ParseShortDate(DatePrefix(dateLine)).Some? && AmountGroup(amountLine).Some?
      && SignedAmount(AmountGroup(amountLine).value).None?
    ensures outcome.Committed? ==>
      && ParseShortDate(DatePrefix(dateLine)).Some? && DecodeAmount(amountLine).Some?
      && outcome.tx.amount == DecodeAmount(amountLine).value
      && outcome.tx.operationDate == IsoForm(ParseShortDate(DatePrefix(dateLine)).value)
      && (outcome.tx.transactionType, outcome.tx.details) == InfoColumns(infoLine)
  {
    var prefix := DatePrefix(dateLine);
    if !IsDateToken(prefix) {
      return NoDate;
    }
    var date := ParseShortDate(prefix);
    if date.None? {
      return BadDate;
    }
    var operationDate := IsoForm(date.value);
    var raw := AmountGroup(amountLine);
    if raw.None? {
      return NoAmount;
    }
    var amount := SignedAmount(raw.value);
    if amount.None? {
      return BadAmount;
    }
    var (kind, details) := InfoColumns(infoLine);
    return Committed(Transaction(amount.value, operationDate, kind, details));
  }

  /** One step of the scan: a block that reads is recorded and the scan moves three
      lines on, otherwise one. */
  lemma ScanStep(outs: seq<BlockOutcome>, i: nat)
    requires i < |outs|
    ensures Scan(outs, i) == if outs[i].Committed? then [outs[i].tx] + Scan(outs, i + 3) else Scan(outs, i + 1)
  {
  }

  /** The block at line `i`: its three lines stripped and read. */
  method ReadBlockAt(lines: seq<string>, i: nat) returns (outcome: BlockOutcome)
    requires i + 2 < |lines|
    ensures outcome == Outcomes(lines)[i]
  {
    outcome := ReadBlockLines(Strip(lines[i]), Strip(lines[i + 1]), Strip(lines[i + 2]));
    OutcomeAt(lines, i);
  }

  /** `extract_transactions`. */
  method ExtractTransactions(text: string) returns (txs: seq<Transaction>)
    ensures txs == TransactionsOf(text)
  {
    var lines := SplitLines(text);
    var start := FindTransactionStartIndex(lines);
    txs := ScanLines(lines, start);
  }

  /** The loop of `extract_transactions` from line `start` on: a block that reads is
      recorded and the scan moves three lines on; otherwise it moves one line on. It
      stops when fewer than three lines remain. */
  method ScanLines(lines: seq<string>, start: nat) returns (txs: seq<Transaction>)
    ensures txs == Scan(Outcomes(lines), start)
  {
    ghost var outs := Outcomes(lines);
    ghost var all := Scan(outs, start);
    txs := [];
    var i := start;
    assert txs + all == all;
    while i + 2 < |lines|
      invariant txs + Scan(outs, i) == all
      decreases |lines| - i
    {
      var outcome := ReadBlockAt(lines, i);
      ScanStep(outs, i);
      if outcome.Committed? {
        assert txs + [outcome.tx] + Scan(outs, i + 3) == txs + ([outcome.tx] + Scan(outs, i + 3));
        txs := txs + [outcome.tx];
        i := i + 3;
      } else {
        i := i + 1;
      }
    }
  }

  /** A typical block: "15.03.24", "−2 500 ₸", "Покупка<tab>Магазин" is a purchase of
      2500 tenge on 15 March 2024. */
  lemma PurchaseExample()
    ensures Scan(Outcomes(["15.03.24", [MinusSign] + "2 500 " + [Tenge], "Покупка\tМагазин"]), 0)
      == [Transaction(-2500.0, "2024-03-15", "Покупка", "Магазин")]
  {
    var lines := ["15.03.24", [MinusSign] + "2 500 " + [Tenge], "Покупка\tМагазин"];
    var tx := Transaction(-2500.0, "2024-03-15", "Покупка", "Магазин");
    ExampleBlock(lines, tx);
    var outs := Outcomes(lines);
    OutcomeAt(lines, 0);
    ScanStep(outs, 0);
    assert Scan(outs, 3) == [];
  }

  lemma ExampleBlock(lines: seq<string>, tx: Transaction)
    requires lines == ["15.03.24", [MinusSign] + "2 500 " + [Tenge], "Покупка\tМагазин"]
    requires tx == Transaction(-2500.0, "2024-03-15", "Покупка", "Магазин")
    ensures ReadBlock(lines, 0) == Committed(tx)
  {
    ExampleDate();
    ExampleAmount();
    ExampleInfo();
    BlockReads(lines[0], lines[1], lines[2]);
  }

  lemma ExampleDate()
    ensures Strip("15.03.24") == "15.03.24"
    ensures ParseShortDate(DatePrefix("15.03.24")) == Some(Date(2024, 3, 15))
    ensures IsoForm(Date(2024, 3, 15)) == "2024-03-15"
  {
    StripTrimmed("15.03.24");
    ExampleShortDate();
    ExampleIsoDate();
  }

  lemma ExampleShortDate()
    ensures ParseShortDate("15.03.24") == Some(Date(2024, 3, 15))
  {
    var s := "15.03.24";
    assert IsDateToken(s);
    assert TwoDigits(s, 0) == 15 && TwoDigits(s, 3) == 3 && TwoDigits(s, 6) == 24;
  }

  lemma ExampleIsoDate()
    ensures IsoForm(Date(2024, 3, 15)) == "2024-03-15"
  {
    assert Pad4(2024) == Pad2(20) + Pad2(24);
    assert Pad2(20) == "20" by {
      assert Pad2(20) == [Digit(2), Digit(0)];
    }
    assert Pad2(24) == "24" by {
      assert Pad2(24) == [Digit(2), Digit(4)];
    }
    assert Pad2(3) == "03" by {
      assert Pad2(3) == [Digit(0), Digit(3)];
    }
    assert Pad2(15) == "15" by {
      assert Pad2(15) == [Digit(1), Digit(5)];
    }
  }

  lemma ExampleAmount()
    ensures Strip([MinusSign] + "2 500 " + [Tenge]) == [MinusSign] + "2 500 " + [Tenge]
    ensures DecodeAmount([MinusSign] + "2 500 " + [Tenge]) == Some(-2500.0)
  {
    var line := [MinusSign] + "2 500 " + [Tenge];
    StripTrimmed(line);
    assert line == [MinusSign] + "2 500" + FractionText("") + " " + [Tenge];
    assert PrintedWhole("2 500") by {
      assert IsDigit("2 500"[0]);
    }
    AmountRoundTrip([MinusSign], "2 500", "");
    ExampleAmountValue();
  }

  lemma ExampleAmountValue()
    ensures Signed([MinusSign], Decimal(Num(RemoveSpaces("2 500")), Num(""), 0)) == -2500.0
  {
    assert RemoveSpaces("2 500") == "2500";
    assert Num("2500") == 2500 by {
      assert "2500"[..3] == "250" && "250"[..2] == "25" && "25"[..1] == "2" && "2"[..0] == "";
    }
    assert Decimal(2500, 0, 0) == 2500.0;
  }

  lemma ExampleInfo()
    ensures Strip("Покупка\tМагазин") == "Покупка\tМагазин"
    ensures InfoColumns("Покупка\tМагазин") == ("Покупка", "Магазин")
  {
    assert "Покупка\tМагазин" == "Покупка" + "\t" + "Магазин";
    InfoTwoColumns("Покупка", "Магазин", "\t");
    StripTrimmed("Покупка\tМагазин");
  }
}
