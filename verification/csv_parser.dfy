/** `app/lib/csv-parser.ts`: the date and artist parsers, the schema check
    and the row-to-show transformation of a CSV upload. The CSV text itself
    is tokenised by a library; the model starts from its rows, each a map
    from the (lower-cased, trimmed) header to the cell's text. */
module CsvParser {
  import opened Wrappers
  import opened Text
  import opened Calendar

  type CsvRow = map<string, string>

  /** A cell, or `None` for `undefined` when the row has no such column. */
  function Cell(row: CsvRow, key: string): Option<string> {
    if key in row then Some(row[key]) else None
  }

  // ---------------------------------------------------------------------
  // Dates
  // ---------------------------------------------------------------------

  /** The separators `/[-/]/` splits on, unified to '-'. */
  function Unslash(s: string): (r: string)
    ensures |r| == |s| && '/' !in r
    ensures forall i :: 0 <= i < |s| && s[i] != '/' ==> r[i] == s[i]
  {
    seq(|s|, i requires 0 <= i < |s| => if s[i] == '/' then '-' else s[i])
  }

  /** The trimmed text cut at every '-' and '/'. */
  function DateParts(s: string): (parts: seq<string>)
    ensures forall i :: 0 <= i < |parts| ==> '-' !in parts[i]
  {
    SplitParts(Unslash(Trim(s, JsSpace)), '-');
    Split(Unslash(Trim(s, JsSpace)), '-')
  }

  /** Month, day and year as `parseInt` reads the three parts, or `None` when
      there are not exactly three parts or one of them has no leading digit. */
  function DateFields(s: string): (r: Option<(int, int, int)>)
    ensures r.Some? ==> r.value.0 >= 0 && r.value.1 >= 0 && r.value.2 >= 0
    ensures r.Some? <==> |DateParts(s)| == 3 && ParseIntJs(DateParts(s)[0]).Some?
                         && ParseIntJs(DateParts(s)[1]).Some? && ParseIntJs(DateParts(s)[2]).Some?
  {
    var parts := DateParts(s);
    if |parts| != 3 then None
    else
      ParseIntNonNegative(parts[0]);
      ParseIntNonNegative(parts[1]);
      ParseIntNonNegative(parts[2]);
      var month := ParseIntJs(parts[0]);
      var day := ParseIntJs(parts[1]);
      var year := ParseIntJs(parts[2]);
      if month.None? || day.None? || year.None? then None
      else Some((month.value, day.value, year.value))
  }

  /** Two-digit years are in the 2000s. */
  function FullYear(year: int): (r: int)
    ensures year >= 0 ==> r >= 100
    ensures 0 <= year < 100 ==> r == 2000 + year
  {
    if year < 100 then 2000 + year else year
  }

  /** `parseDate`: the local `Date` for "M-D-Y" or "M/D/Y", kept only when its
      getters give back the year, month and day that were asked for. */
  function ParseDate(s: string): (r: Option<YMD>)
    ensures r.Some? ==> IsValidDate(r.value.year, r.value.month + 1, r.value.day)
    ensures r.Some? ==> DateFields(s).Some? && r.value.year == FullYear(DateFields(s).value.2)
  {
    match DateFields(s)
    case None => None
    case Some((month, day, year)) => DateOfFields(month, day, year)
  }

  /** The `Date` built from the three numbers, when the getter check keeps
      it: exactly when they form a real calendar date. */
  function DateOfFields(month: int, day: int, year: int): (r: Option<YMD>)
    requires month >= 0 && day >= 0 && year >= 0
    ensures r.Some? <==> IsValidDate(FullYear(year), month, day)
    ensures r.Some? ==> r.value == YMD(FullYear(year), month - 1, day)
  {
    var fullYear := FullYear(year);
    var date := NewDate(fullYear, month - 1, day);
    NewDateKeepsExactlyValid(fullYear, month, day);
    if date != YMD(fullYear, month - 1, day) then None else Some(date)
  }

  /** The getter check accepts exactly the real calendar dates: a text parses
      if and only if its three numbers form a valid Gregorian date, and then
      to that date. Overflowing days or months ("2-30-24", "13-1-24") are
      rejected, not rolled over. */
  lemma ParseDateExactlyValid(s: string)
    ensures ParseDate(s).Some? <==>
              DateFields(s).Some? &&
              IsValidDate(FullYear(DateFields(s).value.2), DateFields(s).value.0, DateFields(s).value.1)
    ensures ParseDate(s).Some? ==>
              var f := DateFields(s).value;
              ParseDate(s).value == YMD(FullYear(f.2), f.0 - 1, f.1)
  {
  }

  /** The text of a date as users write it: month, day and year numerals
      joined by '-' or '/'. */
  function DateText(month: nat, day: nat, year: nat, sep: char): string {
    NatToString(month) + [sep] + NatToString(day) + [sep] + NatToString(year)
  }

  /** Every valid date written "M-D-Y" or "M/D/Y" parses back to itself
      (two-digit years read as 20YY). */
  lemma ParseDateOfText(month: nat, day: nat, year: nat, sep: char)
    requires sep == '-' || sep == '/'
    requires IsValidDate(FullYear(year), month, day)
    ensures ParseDate(DateText(month, day, year, sep)) == Some(YMD(FullYear(year), month - 1, day))
  {
    var s := DateText(month, day, year, sep);
    DateTextParts(month, day, year, sep);
    ParseIntOfNumeral(month, []);
    ParseIntOfNumeral(day, []);
    ParseIntOfNumeral(year, []);
    assert NatToString(month) + [] == NatToString(month);
    assert NatToString(day) + [] == NatToString(day);
    assert NatToString(year) + [] == NatToString(year);
    assert DateFields(s) == Some((month as int, day as int, year as int));
    ParseDateExactlyValid(s);
  }

  /** The date text cuts into its three numerals. */
  lemma DateTextParts(month: nat, day: nat, year: nat, sep: char)
    requires sep == '-' || sep == '/'
    ensures DateParts(DateText(month, day, year, sep)) == [NatToString(month), NatToString(day), NatToString(year)]
  {
    var s := DateText(month, day, year, sep);
    DateTextTrimmed(month, day, year, sep);
    UnslashText(month, day, year, sep);
    ThreeParts(NatToString(month), NatToString(day), NatToString(year));
  }

  lemma DateTextTrimmed(month: nat, day: nat, year: nat, sep: char)
    ensures Trim(DateText(month, day, year, sep), JsSpace) == DateText(month, day, year, sep)
  {
    var m, y := NatToString(month), NatToString(year);
    var s := DateText(month, day, year, sep);
    assert s[0] == m[0] && s[|s| - 1] == y[|y| - 1];
    assert IsDigit(s[0]) && IsDigit(s[|s| - 1]);
    TrimUnchanged(s, JsSpace);
  }

  lemma ThreeParts(m: string, d: string, y: string)
    requires '-' !in m && '-' !in d && '-' !in y
    ensures Split(m + "-" + d + "-" + y, '-') == [m, d, y]
  {
    assert [m, d, y][1..] == [d, y] && [d, y][1..] == [y];
    assert Join([d, y], '-') == d + "-" + y;
    assert Join([m, d, y], '-') == m + "-" + (d + "-" + y);
    assert Join([m, d, y], '-') == m + "-" + d + "-" + y;
    SplitJoin([m, d, y], '-');
  }

  lemma UnslashText(month: nat, day: nat, year: nat, sep: char)
    requires sep == '-' || sep == '/'
    ensures Unslash(DateText(month, day, year, sep)) == DateText(month, day, year, '-')
  {
    var s := DateText(month, day, year, sep);
    var t := DateText(month, day, year, '-');
    var m, d := NatToString(month), NatToString(day);
    assert |s| == |t|;
    forall i | 0 <= i < |s| ensures Unslash(s)[i] == t[i] {
      if i == |m| || i == |m| + 1 + |d| {
        assert s[i] == sep && t[i] == '-';
      } else {
        assert s[i] == t[i] && IsDigit(s[i]);
      }
    }
  }

  // ---------------------------------------------------------------------
  // Artists
  // ---------------------------------------------------------------------

  /** The trimmed pieces, with the empty ones dropped. */
  function CleanNames(parts: seq<string>): (r: seq<string>)
    ensures |r| <= |parts|
    ensures forall i :: 0 <= i < |r| ==> r[i] != "" && Trim(r[i], JsSpace) == r[i]
  {
    if |parts| == 0 then []
    else
      var t := Trim(parts[0], JsSpace);
      TrimIdempotent(parts[0], JsSpace);
      (if t != "" then [t] else []) + CleanNames(parts[1..])
  }

  /** A piece without the character keeps it out after trimming. */
  lemma TrimKeepsOut(s: string, c: char)
    requires c !in s
    ensures c !in Trim(s, JsSpace)
  {
    var pre, post := TrimFrames(s, JsSpace);
    var t := Trim(s, JsSpace);
    forall i | 0 <= i < |t| ensures t[i] != c {
      assert t[i] == s[|pre| + i];
    }
  }

  lemma {:induction false} CleanNamesKeepOut(parts: seq<string>, c: char)
    requires forall i :: 0 <= i < |parts| ==> c !in parts[i]
    ensures forall i :: 0 <= i < |CleanNames(parts)| ==> c !in CleanNames(parts)[i]
  {
    if |parts| > 0 {
      TrimKeepsOut(parts[0], c);
      CleanNamesKeepOut(parts[1..], c);
    }
  }

  /** `parseArtists`: split on '+', trim, drop empty names. */
  function ParseArtists(s: string): (r: seq<string>)
    ensures |r| <= CountChar(s, '+') + 1
    ensures forall i :: 0 <= i < |r| ==> r[i] != "" && Trim(r[i], JsSpace) == r[i] && '+' !in r[i]
  {
    SplitParts(s, '+');
    CleanNamesKeepOut(Split(s, '+'), '+');
    CleanNames(Split(s, '+'))
  }

  lemma {:induction false} CleanNamesAppend(a: seq<string>, b: seq<string>)
    ensures CleanNames(a + b) == CleanNames(a) + CleanNames(b)
  {
    if |a| > 0 {
      assert (a + b)[1..] == a[1..] + b;
      CleanNamesAppend(a[1..], b);
    } else {
      assert a + b == b;
    }
  }

  lemma {:induction false} CleanNamesOfClean(names: seq<string>)
    requires forall i :: 0 <= i < |names| ==> names[i] != "" && Trim(names[i], JsSpace) == names[i]
    ensures CleanNames(names) == names
  {
    if |names| > 0 {
      CleanNamesOfClean(names[1..]);
    }
  }

  /** A cell without '+' names one artist, its trimmed text, or none when
      that text is blank. */
  lemma ParseArtistsSingle(s: string)
    requires '+' !in s
    ensures ParseArtists(s) == (if Trim(s, JsSpace) == "" then [] else [Trim(s, JsSpace)])
  {
    SplitNoSep(s, '+');
    assert [s][1..] == [];
  }

  /** "A + B" lists the artists of "A" followed by those of "B". */
  lemma ParseArtistsAppend(a: string, b: string)
    ensures ParseArtists(a + "+" + b) == ParseArtists(a) + ParseArtists(b)
  {
    assert a + "+" + b == a + ['+'] + b;
    SplitAround(a, b, '+');
    CleanNamesAppend(Split(a, '+'), Split(b, '+'));
  }

  /** Joining non-empty, trimmed, '+'-free names with '+' and parsing gives
      the names back. */
  lemma ParseArtistsJoin(artists: seq<string>)
    requires |artists| >= 1
    requires forall i :: 0 <= i < |artists| ==>
               artists[i] != "" && Trim(artists[i], JsSpace) == artists[i] && '+' !in artists[i]
    ensures ParseArtists(Join(artists, '+')) == artists
  {
    SplitJoin(artists, '+');
    CleanNamesOfClean(artists);
  }

  // ---------------------------------------------------------------------
  // Schema check
  // ---------------------------------------------------------------------

  /** The messages `validateCSVSchema` collects, one constructor per kind;
      `row` is the 1-based line number counting the header line. */
  datatype CsvError =
    | EmptyFile
    | MissingHeader(header: string)
    | MissingField(row: nat, field: string)
    | InvalidDate(row: nat, text: string)

  function Message(e: CsvError): string {
    match e
    case EmptyFile => "CSV file is empty"
    case MissingHeader(h) => "Missing required header: " + h
    case MissingField(n, f) => "Row " + NatToString(n) + ": Missing required field '" + f + "'"
    case InvalidDate(n, t) =>
      "Row " + NatToString(n) + ": Invalid date format '" + t + "'. Expected MM-DD-YY or MM/DD/YY"
  }

  datatype ValidationResult = ValidationResult(valid: bool, errors: seq<CsvError>)

  const RequiredHeaders: seq<string> := ["date", "artist", "venue", "city", "state", "country"]

  /** A cell that is present and not blank (`!v || v.trim() === ''` fails). */
  predicate Filled(v: Option<string>) {
    Truthy(v) && Trim(v.value, JsSpace) != ""
  }

  /** What the per-row check accepts: a filled date that parses, and a filled
      artist. */
  predicate RowOk(row: CsvRow) {
    Filled(Cell(row, "date")) && ParseDate(Cell(row, "date").value).Some? && Filled(Cell(row, "artist"))
  }

  /** The first row carries every required header. */
  predicate HasHeaders(first: CsvRow) {
    forall h :: h in RequiredHeaders ==> h in first
  }

  /** No required header is missing exactly when the first row has them all. */
  lemma MissingHeadersNone(first: CsvRow)
    ensures MissingHeaders(first, RequiredHeaders) == [] <==> HasHeaders(first)
  {
    if MissingHeaders(first, RequiredHeaders) == [] {
      forall h | h in RequiredHeaders ensures h in first {
        var i :| 0 <= i < |RequiredHeaders| && RequiredHeaders[i] == h;
      }
    }
  }

  /** The required headers missing from the first row, in the order listed. */
  function MissingHeaders(first: CsvRow, required: seq<string>): (r: seq<CsvError>)
    ensures |r| <= |required|
    ensures r == [] <==> forall i :: 0 <= i < |required| ==> required[i] in first
    ensures forall i :: 0 <= i < |r| ==> r[i].MissingHeader? && r[i].header in required && r[i].header !in first
  {
    if |required| == 0 then []
    else (if required[0] in first then [] else [MissingHeader(required[0])])
         + MissingHeaders(first, required[1..])
  }

  /** Every required header missing from the first row is reported. */
  lemma {:induction false} MissingHeadersReportAll(first: CsvRow, required: seq<string>)
    ensures forall i :: 0 <= i < |required| && required[i] !in first ==>
              MissingHeader(required[i]) in MissingHeaders(first, required)
  {
    if |required| > 0 {
      var rest := required[1..];
      MissingHeadersReportAll(first, rest);
      forall i | 0 < i < |required| && required[i] !in first
        ensures MissingHeader(required[i]) in MissingHeaders(first, required)
      {
        assert required[i] == rest[i - 1];
      }
    }
  }

  /** The errors of one row: at most one about the date, then at most one
      about the artist. */
  function RowErrors(row: CsvRow, n: nat): (r: seq<CsvError>)
    ensures r == [] <==> RowOk(row)
    ensures |r| <= 2
    ensures forall i :: 0 <= i < |r| ==> IsRowError(r[i]) && r[i].row == n
  {
    var date := Cell(row, "date");
    var dateErrors :=
      if !Filled(date) then [MissingField(n, "date")]
      else if ParseDate(date.value).None? then [InvalidDate(n, date.value)]
      else [];
    var artistErrors := if !Filled(Cell(row, "artist")) then [MissingField(n, "artist")] else [];
    dateErrors + artistErrors
  }

  /** Which errors a row gets: a missing date, else a date that does not
      parse, quoted as written; after that a missing artist. */
  lemma RowErrorsKinds(row: CsvRow, n: nat)
    ensures var r := RowErrors(row, n);
            (!Filled(Cell(row, "date")) ==> r[0] == MissingField(n, "date"))
            && (Filled(Cell(row, "date")) && ParseDate(Cell(row, "date").value).None? ==>
                  r[0] == InvalidDate(n, Cell(row, "date").value))
            && (Filled(Cell(row, "date")) && ParseDate(Cell(row, "date").value).Some? ==>
                  forall i :: 0 <= i < |r| ==> r[i] == MissingField(n, "artist"))
            && ((MissingField(n, "artist") in r) <==> !Filled(Cell(row, "artist")))
  {
  }

  /** A row error: one that carries the line number of its row. */
  predicate IsRowError(e: CsvError) {
    e.MissingField? || e.InvalidDate?
  }

  /** `errors` hold a row error on line `line`. */
  predicate ReportsLine(errors: seq<CsvError>, line: nat) {
    exists k :: 0 <= k < |errors| && IsRowError(errors[k]) && errors[k].row == line
  }

  /** `check` reports only row errors, each on the line it was given. */
  ghost predicate NumbersItsLine(check: (CsvRow, nat) -> seq<CsvError>) {
    forall x: CsvRow, n: nat, j :: 0 <= j < |check(x, n)| ==> IsRowError(check(x, n)[j]) && check(x, n)[j].row == n
  }

  /** The errors `check` finds in each of `rows` in turn, the first row being
      on line `first`. */
  function NumberedErrors(rows: seq<CsvRow>, first: nat, check: (CsvRow, nat) -> seq<CsvError>): (r: seq<CsvError>)
    requires NumbersItsLine(check)
    ensures forall k :: 0 <= k < |r| ==> IsRowError(r[k]) && first <= r[k].row < first + |rows|
  {
    if |rows| == 0 then []
    else check(rows[0], first) + NumberedErrors(rows[1..], first + 1, check)
  }

  /** Joined errors are empty exactly when every row's own errors are. */
  lemma {:induction false} NumberedErrorsEmpty(rows: seq<CsvRow>, first: nat, check: (CsvRow, nat) -> seq<CsvError>)
    requires NumbersItsLine(check)
    ensures NumberedErrors(rows, first, check) == [] <==> forall i :: 0 <= i < |rows| ==> check(rows[i], first + i) == []
  {
    if |rows| > 0 {
      var rest := rows[1..];
      NumberedErrorsEmpty(rest, first + 1, check);
      forall i | 0 < i < |rows| ensures check(rows[i], first + i) == check(rest[i - 1], first + 1 + (i - 1)) {
        assert rows[i] == rest[i - 1];
      }
    }
  }

  /** The row on line `line` is one of `rows` and fails `check`. */
  predicate FailsOnLine(rows: seq<CsvRow>, first: nat, check: (CsvRow, nat) -> seq<CsvError>, line: nat) {
    first <= line < first + |rows| && check(rows[line - first], line) != []
  }

  /** Every joined error comes from a row whose own check failed, on that row's line. */
  lemma {:induction false} NumberedErrorsFromFailingRows(rows: seq<CsvRow>, first: nat, check: (CsvRow, nat) -> seq<CsvError>)
    requires NumbersItsLine(check)
    ensures forall k :: 0 <= k < |NumberedErrors(rows, first, check)| ==>
              FailsOnLine(rows, first, check, NumberedErrors(rows, first, check)[k].row)
  {
    if |rows| > 0 {
      var rest := rows[1..];
      var h, t := check(rows[0], first), NumberedErrors(rest, first + 1, check);
      var e := NumberedErrors(rows, first, check);
      assert e == h + t;
      NumberedErrorsFromFailingRows(rest, first + 1, check);
      forall k | 0 <= k < |e| ensures FailsOnLine(rows, first, check, e[k].row) {
        if k < |h| {
          assert e[k] == h[k] && h[k].row == first;
        } else {
          var k' := k - |h|;
          assert e[k] == t[k'];
          assert FailsOnLine(rest, first + 1, check, t[k'].row);
          assert rows[e[k].row - first] == rest[t[k'].row - (first + 1)];
        }
      }
    }
  }

  /** Every row whose own check fails has a joined error on its line. */
  lemma {:induction false} NumberedErrorsReportFailingRows(rows: seq<CsvRow>, first: nat, check: (CsvRow, nat) -> seq<CsvError>)
    requires NumbersItsLine(check)
    ensures forall i :: 0 <= i < |rows| && check(rows[i], first + i) != [] ==>
              ReportsLine(NumberedErrors(rows, first, check), first + i)
  {
    if |rows| > 0 {
      var rest := rows[1..];
      var h, t := check(rows[0], first), NumberedErrors(rest, first + 1, check);
      var e := NumberedErrors(rows, first, check);
      assert e == h + t;
      NumberedErrorsReportFailingRows(rest, first + 1, check);
      forall i | 0 <= i < |rows| && check(rows[i], first + i) != []
        ensures ReportsLine(e, first + i)
      {
        if i == 0 {
          assert e[0] == h[0] && h[0].row == first;
        } else {
          assert rest[i - 1] == rows[i];
          assert ReportsLine(t, first + 1 + (i - 1));
          var k' :| 0 <= k' < |t| && IsRowError(t[k']) && t[k'].row == first + 1 + (i - 1);
          assert e[|h| + k'] == t[k'];
        }
      }
    }
  }

  /** Each joined error is one of the errors its own row's check gave. */
  lemma {:induction false} NumberedErrorsFromRowErrors(rows: seq<CsvRow>, first: nat, check: (CsvRow, nat) -> seq<CsvError>)
    requires NumbersItsLine(check)
    ensures forall k :: 0 <= k < |NumberedErrors(rows, first, check)| ==>
              NumberedErrors(rows, first, check)[k]
                in check(rows[NumberedErrors(rows, first, check)[k].row - first], NumberedErrors(rows, first, check)[k].row)
  {
    if |rows| > 0 {
      var rest := rows[1..];
      var h, t := check(rows[0], first), NumberedErrors(rest, first + 1, check);
      var e := NumberedErrors(rows, first, check);
      assert e == h + t;
      NumberedErrorsFromRowErrors(rest, first + 1, check);
      forall k | 0 <= k < |e| ensures e[k] in check(rows[e[k].row - first], e[k].row) {
        if k < |h| {
          assert e[k] == h[k] && h[k].row == first;
        } else {
          var k' := k - |h|;
          assert e[k] == t[k'];
          assert rows[e[k].row - first] == rest[t[k'].row - (first + 1)];
        }
      }
    }
  }

  /** Every error a row's check gives is among the joined errors. */
  lemma {:induction false} NumberedErrorsKeepRowErrors(rows: seq<CsvRow>, first: nat, check: (CsvRow, nat) -> seq<CsvError>)
    requires NumbersItsLine(check)
    ensures forall i, e :: 0 <= i < |rows| && e in check(rows[i], first + i) ==> e in NumberedErrors(rows, first, check)
  {
    if |rows| > 0 {
      var rest := rows[1..];
      var h, t := check(rows[0], first), NumberedErrors(rest, first + 1, check);
      assert NumberedErrors(rows, first, check) == h + t;
      NumberedErrorsKeepRowErrors(rest, first + 1, check);
      forall i, e | 0 < i < |rows| && e in check(rows[i], first + i) ensures e in t {
        assert rows[i] == rest[i - 1];
        assert first + i == first + 1 + (i - 1);
      }
    }
  }

  /** The errors of `rows`, the first of which is on line `first`. */
  function RowsErrors(rows: seq<CsvRow>, first: nat): (r: seq<CsvError>)
    ensures forall i :: 0 <= i < |r| ==> IsRowError(r[i]) && first <= r[i].row < first + |rows|
  {
    RowErrorsNumbered();
    NumberedErrors(rows, first, RowErrors)
  }

  /** The rows have no errors exactly when every row passes the row check. */
  lemma RowsErrorsEmpty(rows: seq<CsvRow>, first: nat)
    ensures RowsErrors(rows, first) == [] <==> forall i :: 0 <= i < |rows| ==> RowOk(rows[i])
  {
    RowErrorsNumbered();
    NumberedErrorsEmpty(rows, first, RowErrors);
  }

  /** The row check numbers its errors with the line it is given. */
  lemma RowErrorsNumbered()
    ensures NumbersItsLine(RowErrors)
  {
    forall x: CsvRow, n: nat, j | 0 <= j < |RowErrors(x, n)|
      ensures IsRowError(RowErrors(x, n)[j]) && RowErrors(x, n)[j].row == n
    {
    }
  }

  /** The row the `k`th row error names fails the row check. */
  lemma RowErrorNamesFailingRow(rows: seq<CsvRow>, first: nat, k: nat)
    requires k < |RowsErrors(rows, first)|
    ensures !RowOk(rows[RowsErrors(rows, first)[k].row - first])
  {
    var line := RowsErrors(rows, first)[k].row;
    assert FailsOnLine(rows, first, RowErrors, line) by {
      RowErrorsNumbered();
      NumberedErrorFails(rows, first, RowErrors, k);
    }
    RowFailsOnLine(rows, first, line);
  }

  /** The `k`th joined error comes from a failing row. */
  lemma NumberedErrorFails(rows: seq<CsvRow>, first: nat, check: (CsvRow, nat) -> seq<CsvError>, k: nat)
    requires NumbersItsLine(check)
    requires k < |NumberedErrors(rows, first, check)|
    ensures FailsOnLine(rows, first, check, NumberedErrors(rows, first, check)[k].row)
  {
    NumberedErrorsFromFailingRows(rows, first, check);
  }

  /** The row on a line where the row check fails does not pass it. */
  lemma RowFailsOnLine(rows: seq<CsvRow>, first: nat, line: nat)
    requires FailsOnLine(rows, first, RowErrors, line)
    ensures !RowOk(rows[line - first])
  {
    assert RowErrors(rows[line - first], line) != [];
  }

  /** Every row error names a row that fails the row check. */
  lemma RowsErrorsNameFailingRows(rows: seq<CsvRow>, first: nat)
    ensures forall k :: 0 <= k < |RowsErrors(rows, first)| ==> !RowOk(rows[RowsErrors(rows, first)[k].row - first])
  {
    forall k | 0 <= k < |RowsErrors(rows, first)| ensures !RowOk(rows[RowsErrors(rows, first)[k].row - first]) {
      RowErrorNamesFailingRow(rows, first, k);
    }
  }

  /** Every row that fails the row check is reported under its own number. */
  lemma RowsErrorsReportFailingRows(rows: seq<CsvRow>, first: nat)
    ensures forall i :: 0 <= i < |rows| && !RowOk(rows[i]) ==> ReportsLine(RowsErrors(rows, first), first + i)
  {
    RowErrorsNumbered();
    NumberedErrorsReportFailingRows(rows, first, RowErrors);
    forall i | 0 <= i < |rows| && !RowOk(rows[i]) ensures ReportsLine(RowsErrors(rows, first), first + i) {
      assert RowErrors(rows[i], first + i) != [];
    }
  }

  /** Every required header absent from the first row is reported. */
  lemma ValidateCsvSchemaHeaderErrors(rows: seq<CsvRow>)
    requires |rows| > 0
    ensures forall i :: 0 <= i < |RequiredHeaders| && RequiredHeaders[i] !in rows[0] ==>
              MissingHeader(RequiredHeaders[i]) in ValidateCsvSchema(rows).errors
  {
    MissingHeadersReportAll(rows[0], RequiredHeaders);
  }

  /** Each reported row error is one of the errors of the row it names. */
  lemma ValidateCsvSchemaErrorsFromRows(rows: seq<CsvRow>)
    ensures var r := ValidateCsvSchema(rows);
            forall k :: 0 <= k < |r.errors| && IsRowError(r.errors[k]) ==>
              r.errors[k] in RowErrors(rows[r.errors[k].row - 2], r.errors[k].row)
  {
    if |rows| > 0 && |MissingHeaders(rows[0], RequiredHeaders)| == 0 {
      RowErrorsNumbered();
      NumberedErrorsFromRowErrors(rows, 2, RowErrors);
    }
  }

  /** With all headers present, every error of every row is reported. */
  lemma ValidateCsvSchemaKeepsRowErrors(rows: seq<CsvRow>)
    requires |rows| > 0 && HasHeaders(rows[0])
    ensures forall i, e :: 0 <= i < |rows| && e in RowErrors(rows[i], 2 + i) ==> e in ValidateCsvSchema(rows).errors
  {
    MissingHeadersNone(rows[0]);
    RowErrorsNumbered();
    NumberedErrorsKeepRowErrors(rows, 2, RowErrors);
  }

  /** `validateCSVSchema`: an empty file, then missing headers (judged on the
      first row only), then the rows, numbered from 2 as in a spreadsheet. */
  function ValidateCsvSchema(rows: seq<CsvRow>): (r: ValidationResult)
    ensures r.valid <==> r.errors == []
    ensures |rows| == 0 ==> r.errors == [EmptyFile]
    ensures r.valid <==>
              |rows| > 0 && HasHeaders(rows[0])
              && forall i :: 0 <= i < |rows| ==> RowOk(rows[i])
    ensures |rows| > 0 && !HasHeaders(rows[0]) ==>
              forall i :: 0 <= i < |r.errors| ==> r.errors[i].MissingHeader?
    ensures forall i :: 0 <= i < |r.errors| && IsRowError(r.errors[i]) ==>
              2 <= r.errors[i].row <= |rows| + 1 && !RowOk(rows[r.errors[i].row - 2])
    ensures |rows| > 0 && HasHeaders(rows[0]) ==>
              forall i :: 0 <= i < |rows| && !RowOk(rows[i]) ==> ReportsLine(r.errors, i + 2)
  {
    if |rows| == 0 then ValidationResult(false, [EmptyFile])
    else
      var headerErrors := MissingHeaders(rows[0], RequiredHeaders);
      MissingHeadersNone(rows[0]);
      if |headerErrors| > 0 then ValidationResult(false, headerErrors)
      else RowsValidation(rows)
  }

  /** The verdict on the rows once the headers are all there: each error
      names a failing row, and each failing row is reported. */
  function RowsValidation(rows: seq<CsvRow>): (r: ValidationResult)
    ensures r.valid <==> r.errors == []
    ensures r.valid <==> forall i :: 0 <= i < |rows| ==> RowOk(rows[i])
    ensures forall i :: 0 <= i < |r.errors| ==>
              IsRowError(r.errors[i]) && 2 <= r.errors[i].row <= |rows| + 1 && !RowOk(rows[r.errors[i].row - 2])
    ensures forall i :: 0 <= i < |rows| && !RowOk(rows[i]) ==> ReportsLine(r.errors, i + 2)
  {
    var errors := RowsErrors(rows, 2);
    RowsErrorsEmpty(rows, 2);
    RowsErrorsNameFailingRows(rows, 2);
    RowsErrorsReportFailingRows(rows, 2);
    ValidationResult(|errors| == 0, errors)
  }

  // ---------------------------------------------------------------------
  // Rows to shows
  // ---------------------------------------------------------------------

  /** A show as the CSV upload prepares it. `date` is the calendar day the
      date string names, `None` for the empty string written when the date
      did not parse. */
  datatype ShowInsert = ShowInsert(
    userId: string,
    date: Option<YMD>,
    artists: seq<string>,
    venue: Option<string>,
    city: Option<string>,
    state: Option<string>,
    country: Option<string>)

  /** `row.x?.trim() || null`. */
  function TrimmedOrNull(v: Option<string>): (r: Option<string>)
    ensures r.Some? <==> Filled(v)
    ensures r.Some? ==> r.value == Trim(v.value, JsSpace)
  {
    if v.Some? && Trim(v.value, JsSpace) != "" then Some(Trim(v.value, JsSpace)) else None
  }

  /** Minutes east of UTC of the clock that builds the dates: every time
      zone lies within a day of UTC. */
  type ZoneOffset = m: int | -24 * 60 < m < 24 * 60

  /** Which day a show stores. As written, `toISOString` of local midnight:
      the UTC day, on a clock at the given offset. Corrected: the calendar
      day the file names. */
  datatype DateRoute = AsWritten(offsetMinutes: ZoneOffset) | Corrected

  /** The stored day of a parsed date (`''` when it did not parse, here
      `None`): the written day on the corrected route and at or west of
      UTC, the day before it east of UTC. */
  function StoredDay(d: Option<YMD>, route: DateRoute): (r: Option<YMD>)
    requires d.Some? ==> IsValidDate(d.value.year, d.value.month + 1, d.value.day)
    ensures r.Some? <==> d.Some?
    ensures r.Some? ==> IsValidDate(r.value.year, r.value.month + 1, r.value.day)
    ensures r.Some? && route.Corrected? ==> r == d
    ensures r.Some? && route.AsWritten? ==> (r == d <==> route.offsetMinutes <= 0)
    ensures r.Some? && route.AsWritten? && route.offsetMinutes > 0 ==> NextDay(r.value) == d.value
  {
    match d
    case None => None
    case Some(day) =>
      match route
      case Corrected => d
      case AsWritten(offset) =>
        if offset > 0 then
          IsoDayShiftsEastOfUtc(day, offset);
          Some(IsoDay(day, offset))
        else Some(IsoDay(day, offset))
  }

  /** One row, or `None` where the source throws: `parseDate` and
      `parseArtists` call string methods on the date and artist cells, which
      fail on a missing column. */
  function TransformRow(row: CsvRow, userId: string, route: DateRoute): (r: Option<ShowInsert>)
    ensures r.Some? <==> "date" in row && "artist" in row
    ensures r.Some? ==> ShowOfRow(r.value, row, userId, route)
  {
    if "date" !in row || "artist" !in row then None
    else
      Some(ShowInsert(userId, StoredDay(ParseDate(row["date"]), route), ParseArtists(row["artist"]),
                      TrimmedOrNull(Cell(row, "venue")), TrimmedOrNull(Cell(row, "city")),
                      TrimmedOrNull(Cell(row, "state")), TrimmedOrNull(Cell(row, "country"))))
  }

  /** What `transformCSVToShows` makes of one row that has both columns. */
  predicate ShowOfRow(show: ShowInsert, row: CsvRow, userId: string, route: DateRoute)
    requires "date" in row && "artist" in row
  {
    && show.userId == userId
    && show.date == StoredDay(ParseDate(row["date"]), route)
    && show.artists == ParseArtists(row["artist"])
    && show.venue == TrimmedOrNull(Cell(row, "venue"))
    && show.city == TrimmedOrNull(Cell(row, "city"))
    && show.state == TrimmedOrNull(Cell(row, "state"))
    && show.country == TrimmedOrNull(Cell(row, "country"))
  }

  /** `transformCSVToShows`: `rows.map` over the rows. */
  function TransformCsvToShows(rows: seq<CsvRow>, userId: string, route: DateRoute): (r: Option<seq<ShowInsert>>)
    ensures r.Some? <==> forall i :: 0 <= i < |rows| ==> "date" in rows[i] && "artist" in rows[i]
    ensures r.Some? ==> |r.value| == |rows|
    ensures r.Some? ==> forall i :: 0 <= i < |rows| ==> ShowOfRow(r.value[i], rows[i], userId, route)
  {
    if exists i :: 0 <= i < |rows| && TransformRow(rows[i], userId, route).None? then None
    else Some(seq(|rows|, i requires 0 <= i < |rows| => TransformRow(rows[i], userId, route).value))
  }

  /** At or west of UTC the as-written transform already stores the day the
      file names. */
  lemma RoutesAgreeAtOrWestOfUtc(rows: seq<CsvRow>, userId: string, offset: ZoneOffset)
    requires offset <= 0
    ensures TransformCsvToShows(rows, userId, AsWritten(offset)) == TransformCsvToShows(rows, userId, Corrected)
  {
    forall i | 0 <= i < |rows|
      ensures TransformRow(rows[i], userId, AsWritten(offset)) == TransformRow(rows[i], userId, Corrected)
    {
      if "date" in rows[i] && "artist" in rows[i] {
        var d := ParseDate(rows[i]["date"]);
        assert StoredDay(d, AsWritten(offset)) == StoredDay(d, Corrected);
      }
    }
    var asWritten := TransformCsvToShows(rows, userId, AsWritten(offset));
    var corrected := TransformCsvToShows(rows, userId, Corrected);
    assert asWritten.Some? <==> corrected.Some?;
    if asWritten.Some? {
      assert |asWritten.value| == |corrected.value| == |rows|;
      assert forall i :: 0 <= i < |rows| ==> asWritten.value[i] == corrected.value[i];
      assert asWritten.value == corrected.value;
    }
  }

  /** The date a one-row file stores is the stored day of its date cell. */
  lemma SingleRowDate(row: CsvRow, userId: string, route: DateRoute)
    requires "date" in row && "artist" in row
    ensures TransformCsvToShows([row], userId, route).Some?
    ensures TransformCsvToShows([row], userId, route).value[0].date == StoredDay(ParseDate(row["date"]), route)
  {
    assert ShowOfRow(TransformCsvToShows([row], userId, route).value[0], [row][0], userId, route);
  }

  /** A file that passes the schema check transforms without error, and every
      show has a date. */
  lemma ValidRowsTransform(rows: seq<CsvRow>, userId: string, route: DateRoute)
    requires ValidateCsvSchema(rows).valid
    ensures TransformCsvToShows(rows, userId, route).Some?
    ensures forall i :: 0 <= i < |rows| ==> TransformCsvToShows(rows, userId, route).value[i].date.Some?
  {
    assert forall i :: 0 <= i < |rows| ==> RowOk(rows[i]);
  }

  /** The schema check does not guarantee an artist: with any date that
      passes, an artist cell holding only a separator ("+") is filled, yet
      names nobody. */
  lemma ValidRowWithoutArtists(date: string)
    requires Filled(Some(date)) && ParseDate(date).Some?
    ensures RowOk(map["date" := date, "artist" := "+"]) && ParseArtists("+") == []
  {
    var row := map["date" := date, "artist" := "+"];
    assert "artist" != "date" by {
      assert "artist"[0] != "date"[0];
    }
    assert Cell(row, "date") == Some(date) && Cell(row, "artist") == Some("+");
    LiteralFilled("+");
    PlusNamesNobody();
  }

  lemma LiteralFilled(s: string)
    requires |s| > 0 && !IsSpace(s[0], JsSpace) && !IsSpace(s[|s| - 1], JsSpace)
    ensures Filled(Some(s))
  {
    TrimUnchanged(s, JsSpace);
  }

  lemma PlusNamesNobody()
    ensures ParseArtists("+") == []
  {
    assert Split("+", '+') == ["", ""] by {
      assert "+"[1..] == "";
    }
    assert CleanNames(["", ""]) == [] by {
      assert ["", ""][1..] == [""];
      TrimUnchanged("", JsSpace);
    }
  }

  lemma NewYearParses()
    ensures ParseDate("1-1-24") == Some(YMD(2024, 0, 1))
  {
    assert NatToString(1) == "1";
    assert NatToString(24) == NatToString(2) + [DigitChar(4)];
    assert DateText(1, 1, 24, '-') == "1-1-24";
    ParseDateOfText(1, 1, 24, '-');
  }

  /** `parseAndValidateCSV` after the file has been tokenised: the shows and
      the row count, or the messages joined with newlines. */
  datatype ParsedCsv = ParsedCsv(shows: seq<ShowInsert>, totalRows: nat)

  function ParseAndValidateCsv(rows: seq<CsvRow>, userId: string, route: DateRoute): (r: Result<ParsedCsv, string>)
    ensures r.Ok? <==> ValidateCsvSchema(rows).valid
    ensures r.Ok? ==> r.value.totalRows == |rows| && Some(r.value.shows) == TransformCsvToShows(rows, userId, route)
    ensures r.Err? ==> r.error == Join(seq(|ValidateCsvSchema(rows).errors|,
                                           i requires 0 <= i < |ValidateCsvSchema(rows).errors| =>
                                             Message(ValidateCsvSchema(rows).errors[i])), '\n')
  {
    var validation := ValidateCsvSchema(rows);
    if !validation.valid then
      Err(Join(seq(|validation.errors|, i requires 0 <= i < |validation.errors| => Message(validation.errors[i])), '\n'))
    else
      ValidRowsTransform(rows, userId, route);
      Ok(ParsedCsv(TransformCsvToShows(rows, userId, route).value, |rows|))
  }

  // ---------------------------------------------------------------------
  // The date string
  // ---------------------------------------------------------------------

  /** The day before a date. */
  function PreviousDay(d: YMD): YMD
    requires 0 <= d.month < 12
  {
    RollDays(d.year, d.month, d.day - 1)
  }

  /** The day after a date. */
  function NextDay(d: YMD): YMD
    requires 0 <= d.month < 12
  {
    RollDays(d.year, d.month, d.day + 1)
  }

  /** `date.toISOString().split('T')[0]` as written: the UTC calendar day of
      local midnight, for a clock `offsetMinutes` east of UTC. East of UTC,
      local midnight is still the previous day in UTC. */
  function IsoDay(d: YMD, offsetMinutes: int): (r: YMD)
    requires 0 <= d.month < 12 && 1 <= d.day <= DaysInMonth(d.year, d.month)
    requires -24 * 60 < offsetMinutes < 24 * 60
    ensures 0 <= r.month < 12 && 1 <= r.day <= DaysInMonth(r.year, r.month)
    ensures offsetMinutes <= 0 ==> r == d
  {
    if offsetMinutes > 0 then PreviousDay(d) else d
  }

  /** East of UTC the stored day is one day early: it is a different day, and
      the day after it is the one the user wrote. */
  lemma IsoDayShiftsEastOfUtc(d: YMD, offsetMinutes: int)
    requires 0 <= d.month < 12 && 1 <= d.day <= DaysInMonth(d.year, d.month)
    requires 0 < offsetMinutes < 24 * 60
    ensures IsoDay(d, offsetMinutes) != d
    ensures NextDay(IsoDay(d, offsetMinutes)) == d
  {
    var p := PreviousDay(d);
    if d.day == 1 {
      assert MonthNumber(p.year, p.month) < MonthNumber(d.year, d.month);
      var py := if d.month == 0 then d.year - 1 else d.year;
      var pm := if d.month == 0 then 11 else d.month - 1;
      assert p == YMD(py, pm, DaysInMonth(py, pm));
    }
  }

  /** A row dated `1-1-24`, uploaded from a clock one hour ahead of UTC, is
      stored as 2023-12-31 as written, and as 2024-01-01 when corrected. */
  lemma NewYearStoredAsNewYearsEve(row: CsvRow, userId: string)
    requires "date" in row && "artist" in row && row["date"] == "1-1-24"
    ensures TransformCsvToShows([row], userId, AsWritten(60)).value[0].date == Some(YMD(2023, 11, 31))
    ensures TransformCsvToShows([row], userId, Corrected).value[0].date == Some(YMD(2024, 0, 1))
  {
    var parsed := ParseDate(row["date"]);
    assert parsed == Some(YMD(2024, 0, 1)) by {
      NewYearParses();
    }
    assert StoredDay(parsed, AsWritten(60)) == Some(YMD(2023, 11, 31)) by {
      NewYearEveInUtc();
    }
    SingleRowDate(row, userId, AsWritten(60));
    SingleRowDate(row, userId, Corrected);
  }

  lemma NewYearEveInUtc()
    ensures IsoDay(YMD(2024, 0, 1), 60) == YMD(2023, 11, 31)
  {
    assert DaysInMonth(2023, 11) == 31;
  }
}
