/**
 * The CSV export of the table view (`exportJobsToCSV` in app/page.tsx): a header row and one
 * row per job, twelve columns, every cell quoted with its inner quotes doubled (the escaping
 * rule of section 2 of RFC 4180), rows separated by CRLF.
 *
 * Beside the writer sits a reader for the quoted-field form of RFC 4180 that the writer
 * produces; the main theorem is that reading an export gives back the header and the rows.
 */
module Csv {
  import opened Wrappers
  import opened Text
  import opened Domain

  const Headers: seq<string> := [
    "Company", "Role", "Status", "Priority", "DateApplied", "OADeadline",
    "InterviewDate", "Tags", "Notes", "CreatedAt", "LastUpdated", "URL"
  ]

  const Quote: char := '"'
  const CellSeparator: char := ','
  const RowSeparator: string := "\r\n"

  // ---------------------------------------------------------------- writer

  /** A deadline cell: the calendar date (first ten characters) of a deadline that is set, else empty. */
  function DeadlineCell(d: Option<DateText>): string {
    match d
    case Some(DateText(text, _)) => if text != [] then Prefix(text, 10) else []
    case None => []
  }

  /** The twelve cells of a job, in the order of `Headers`. */
  function JobRow(j: Job): (row: seq<string>)
    ensures |row| == |Headers|
  {
    [ j.company,
      j.role,
      StatusName(j.status),
      PriorityName(j.priority),
      Prefix(j.dateApplied.iso, 10),
      DeadlineCell(j.oaDeadline),
      DeadlineCell(j.interviewDate),
      Join(j.tags, "; "),
      j.notes.GetOr([]),
      Prefix(j.createdAt, 10),
      Prefix(j.lastUpdated, 10),
      j.url.GetOr([]) ]
  }

  function JobRows(jobs: seq<Job>): (rows: seq<seq<string>>)
    ensures |rows| == |jobs|
  {
    seq(|jobs|, i requires 0 <= i < |jobs| => JobRow(jobs[i]))
  }

  /**
   * `cell.replace(/"/g, '""')`: every quote doubled. `ReadEscaped` undoes it.
   */
  function Escape(cell: string): string {
    if cell == [] then []
    else (if cell[0] == Quote then [Quote, Quote] else [cell[0]]) + Escape(cell[1..])
  }

  /** A cell without quotes is left as it is. */
  lemma {:induction false} EscapeWithoutQuotes(cell: string)
    requires Quote !in cell
    ensures Escape(cell) == cell
  {
    if cell != [] {
      EscapeWithoutQuotes(cell[1..]);
      assert cell == [cell[0]] + cell[1..];
    }
  }

  /** Escaping lengthens a cell by its number of quotes. */
  lemma {:induction false} EscapeLength(cell: string)
    ensures |Escape(cell)| == |cell| + multiset(cell)[Quote]
  {
    if cell != [] {
      EscapeLength(cell[1..]);
      assert cell == [cell[0]] + cell[1..];
    }
  }

  /** A cell as written to the file: escaped and between quotes, so two characters longer than its escape. */
  function QuoteCell(cell: string): (r: string)
    ensures |r| == |Escape(cell)| + 2
    ensures r[0] == Quote && r[|r| - 1] == Quote
    ensures r[1..|r| - 1] == Escape(cell)
  {
    [Quote] + Escape(cell) + [Quote]
  }

  function QuoteCells(row: seq<string>): (r: seq<string>)
    ensures |r| == |row|
  {
    seq(|row|, i requires 0 <= i < |row| => QuoteCell(row[i]))
  }

  function FormatRow(row: seq<string>): string {
    Join(QuoteCells(row), [CellSeparator])
  }

  function FormatRows(rows: seq<seq<string>>): (r: seq<string>)
    ensures |r| == |rows|
  {
    seq(|rows|, i requires 0 <= i < |rows| => FormatRow(rows[i]))
  }

  /** The formatted rows, separated by CRLF; `ReadDocument` reads it back. */
  function Document(rows: seq<seq<string>>): string {
    Join(FormatRows(rows), RowSeparator)
  }

  /**
   * `exportJobsToCSV`: nothing for an empty list (the source alerts and returns before building
   * a file), otherwise the document of the header row followed by one row per job.
   */
  function ExportJobsToCsv(jobs: seq<Job>): (csv: Option<string>)
    ensures csv.None? <==> jobs == []
  {
    if jobs == [] then None else Some(Document([Headers] + JobRows(jobs)))
  }

  // ---------------------------------------------------------------- reader

  /**
   * Reads the inside of a quoted field, from just after its opening quote up to its closing
   * quote, turning each doubled quote back into one; gives the cell and what follows the
   * closing quote.
   */
  function ReadQuoted(s: string): (r: Option<(string, string)>)
    ensures r.Some? ==> |r.value.1| < |s|
  {
    if s == [] then None
    else if s[0] == Quote then
      if |s| > 1 && s[1] == Quote then
        match ReadQuoted(s[2..])
        case Some((cell, rest)) => Some(([Quote] + cell, rest))
        case None => None
      else Some(([], s[1..]))
    else
      match ReadQuoted(s[1..])
      case Some((cell, rest)) => Some(([s[0]] + cell, rest))
      case None => None
  }

  /** Reads one quoted field. */
  function ReadField(s: string): (r: Option<(string, string)>)
    ensures r.Some? ==> |r.value.1| < |s|
  {
    if s != [] && s[0] == Quote then ReadQuoted(s[1..]) else None
  }

  /** Reads the fields of one row, up to the first character after a field that is not a comma. */
  function ReadRow(s: string): (r: Option<(seq<string>, string)>)
    ensures r.Some? ==> |r.value.1| < |s|
    decreases |s|
  {
    match ReadField(s)
    case None => None
    case Some((cell, rest)) =>
      if rest != [] && rest[0] == CellSeparator then
        match ReadRow(rest[1..])
        case Some((cells, after)) => Some(([cell] + cells, after))
        case None => None
      else Some(([cell], rest))
  }

  /** Reads a whole document: rows separated by CRLF, nothing left over. */
  function ReadRows(s: string): (r: Option<seq<seq<string>>>)
    decreases |s|
  {
    match ReadRow(s)
    case None => None
    case Some((row, rest)) =>
      if rest == [] then Some([row])
      else if |rest| >= 2 && rest[..2] == RowSeparator then
        match ReadRows(rest[2..])
        case Some(rows) => Some([row] + rows)
        case None => None
      else None
  }

  // ---------------------------------------------------------------- round trip

  /** An escaped cell followed by its closing quote reads back as the cell. */
  lemma {:induction false} ReadEscaped(cell: string, rest: string)
    requires rest == [] || rest[0] != Quote
    ensures ReadQuoted(Escape(cell) + [Quote] + rest) == Some((cell, rest))
  {
    var s := Escape(cell) + [Quote] + rest;
    if cell == [] {
      assert s == [Quote] + rest;
      assert s[1..] == rest;
    } else {
      ReadEscaped(cell[1..], rest);
      var tail := Escape(cell[1..]) + [Quote] + rest;
      assert cell == [cell[0]] + cell[1..];
      if cell[0] == Quote {
        assert s == [Quote, Quote] + tail;
        assert s[2..] == tail;
      } else {
        assert s == [cell[0]] + tail;
        assert s[1..] == tail;
      }
    }
  }

  /** A quoted cell followed by anything but a quote reads back as the cell and what follows. */
  lemma ReadQuotedCell(cell: string, rest: string)
    requires rest == [] || rest[0] != Quote
    ensures ReadField(QuoteCell(cell) + rest) == Some((cell, rest))
  {
    ReadEscaped(cell, rest);
    assert (QuoteCell(cell) + rest)[1..] == Escape(cell) + [Quote] + rest;
  }

  /** Stripping the outer quotes of a quoted cell and halving its doubled quotes gives the cell back. */
  lemma CellRoundTrip(cell: string)
    ensures ReadField(QuoteCell(cell)) == Some((cell, []))
  {
    ReadQuotedCell(cell, []);
    assert QuoteCell(cell) + [] == QuoteCell(cell);
  }

  /** A formatted row, followed by anything that does not continue a row, reads back as its cells. */
  lemma {:induction false} ReadFormattedRow(row: seq<string>, rest: string)
    requires |row| >= 1
    requires rest == [] || (rest[0] != CellSeparator && rest[0] != Quote)
    ensures ReadRow(FormatRow(row) + rest) == Some((row, rest))
  {
    var quoted := QuoteCells(row);
    var first := QuoteCell(row[0]);
    if |row| == 1 {
      assert FormatRow(row) == first;
      ReadQuotedCell(row[0], rest);
      assert [row[0]] == row;
    } else {
      var tail := FormatRow(row[1..]) + rest;
      assert quoted[1..] == QuoteCells(row[1..]);
      assert FormatRow(row) + rest == first + ([CellSeparator] + tail);
      ReadQuotedCell(row[0], [CellSeparator] + tail);
      ReadFormattedRow(row[1..], rest);
      assert ([CellSeparator] + tail)[1..] == tail;
      assert [row[0]] + row[1..] == row;
    }
  }

  /** A document of non-empty rows reads back as exactly those rows. */
  lemma {:induction false} ReadDocument(rows: seq<seq<string>>)
    requires |rows| >= 1
    requires forall k :: 0 <= k < |rows| ==> |rows[k]| >= 1
    ensures ReadRows(Document(rows)) == Some(rows)
  {
    var lines := FormatRows(rows);
    if |rows| == 1 {
      assert Document(rows) == FormatRow(rows[0]) + [];
      ReadFormattedRow(rows[0], []);
      assert [rows[0]] == rows;
    } else {
      var after := Document(rows[1..]);
      assert lines[1..] == FormatRows(rows[1..]);
      assert Document(rows) == FormatRow(rows[0]) + (RowSeparator + after);
      ReadFormattedRow(rows[0], RowSeparator + after);
      assert (RowSeparator + after)[..2] == RowSeparator;
      assert (RowSeparator + after)[2..] == after;
      ReadDocument(rows[1..]);
      assert [rows[0]] + rows[1..] == rows;
    }
  }

  /**
   * The export of a non-empty list reads back as the header row followed by one twelve-cell
   * row per job, in list order.
   */
  lemma ExportRoundTrip(jobs: seq<Job>)
    requires jobs != []
    ensures ExportJobsToCsv(jobs).Some?
    ensures ReadRows(ExportJobsToCsv(jobs).value) == Some([Headers] + JobRows(jobs))
  {
    var rows := [Headers] + JobRows(jobs);
    assert forall k :: 0 <= k < |rows| ==> |rows[k]| == 12;
    ReadDocument(rows);
  }

  function Min(a: int, b: int): int {
    if a <= b then a else b
  }

  /** The cell holds the calendar date of the text: its first ten characters, or all of a shorter text. */
  predicate IsDateCell(cell: string, text: string) {
    |cell| == Min(|text|, 10) && cell == text[..|cell|]
  }

  /** The cell of an optional deadline: empty when there is none or its text is empty, else its date. */
  predicate IsDeadlineCell(cell: string, d: Option<DateText>) {
    if d.Some? && d.value.text != [] then IsDateCell(cell, d.value.text) else cell == []
  }

  /** The cell of an optional text: the text when present, else empty. */
  predicate IsOptionalCell(cell: string, t: Option<string>) {
    if t.Some? then cell == t.value else cell == []
  }

  /**
   * The cells of a job's row: text fields as they are, dates cut to their first ten characters,
   * absent optional fields as empty cells and the tags joined with "; ".
   */
  lemma JobRowCells(j: Job)
    ensures var cells := JobRow(j);
      && cells[0] == j.company && cells[1] == j.role
      && cells[2] == StatusName(j.status) && cells[3] == PriorityName(j.priority)
      && IsDateCell(cells[4], j.dateApplied.iso)
      && IsDeadlineCell(cells[5], j.oaDeadline)
      && IsDeadlineCell(cells[6], j.interviewDate)
      && cells[7] == Join(j.tags, "; ")
      && IsOptionalCell(cells[8], j.notes)
      && IsDateCell(cells[9], j.createdAt)
      && IsDateCell(cells[10], j.lastUpdated)
      && IsOptionalCell(cells[11], j.url)
  {
  }

  /**
   * What a reader finds in an export: `|jobs| + 1` rows, the header first, and in row `i + 1`
   * the twelve cells of job `i`.
   */
  lemma ExportedCells(jobs: seq<Job>, i: nat)
    requires i < |jobs|
    ensures ExportJobsToCsv(jobs).Some? && ReadRows(ExportJobsToCsv(jobs).value).Some?
    ensures var table := ReadRows(ExportJobsToCsv(jobs).value).value;
      && |table| == |jobs| + 1
      && table[0] == Headers
      && table[i + 1] == JobRow(jobs[i])
  {
    var rows := [Headers] + JobRows(jobs);
    ExportRoundTrip(jobs);
    var table := ReadRows(ExportJobsToCsv(jobs).value).value;
    assert table == rows;
    calc {
      table[i + 1];
    ==
      rows[i + 1];
    == { assert rows[1..] == JobRows(jobs); }
      JobRows(jobs)[i];
    ==
      JobRow(jobs[i]);
    }
  }
}
