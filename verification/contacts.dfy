/** Building contacts from an imported file: CSV text (`parseCSV`), a
    spreadsheet's cell grid, and the per-row normalisation
    (`validateAndFormatContact`). */
module Contacts {
  import opened Results
  import opened Text
  import opened Phone
  import opened Seqs

  /** A contact as the importer builds it and the send and status updates
      rewrite it. `phone` holds the raw number, tagged when invalid;
      `messageId` is absent until a send is accepted. */
  datatype Contact = Contact(
    email: string,
    name: string,
    phone: string,
    status: string,
    operator: string,
    messageId: Option<string>)

  const NotSent := "Not sent"
  const InvalidTag := "Invalid: "

  /** One imported row: normalised header to trimmed cell. */
  type Row = map<string, string>

  // ---------------------------------------------------------------------
  // validateAndFormatContact
  // ---------------------------------------------------------------------

  /** `row[key]`, with an absent key read as empty. */
  function Field(row: Row, key: string): string {
    if key in row then row[key] else ""
  }

  /** `row[primary] || row[fallback] || ''`: an empty value counts as
      missing, so the fallback column is used. */
  function FieldOr(row: Row, primary: string, fallback: string): (v: string)
    ensures v != "" ==> v == Field(row, primary) || v == Field(row, fallback)
    ensures Field(row, primary) != "" ==> v == Field(row, primary)
    ensures Field(row, primary) == "" ==> v == Field(row, fallback)
  {
    if Field(row, primary) != "" then Field(row, primary) else Field(row, fallback)
  }

  /** The raw phone number of a row. */
  function RawPhone(row: Row): string {
    FieldOr(row, "phone", "phone number")
  }

  /** `validateAndFormatContact`: a fresh, unsent contact whose operator is
      the validator's and whose phone is tagged when invalid. */
  function FormatContact(row: Row): (c: Contact)
    ensures c.status == NotSent && c.messageId == None
    ensures c.operator == Validate(RawPhone(row)).operator.Name()
    ensures c.phone == if Validate(RawPhone(row)).isValid then RawPhone(row)
                       else InvalidTag + RawPhone(row)
    ensures c.email == Lower(FieldOr(row, "email", "email address"))
    ensures c.name == FieldOr(row, "name", "first name")
  {
    var raw := RawPhone(row);
    var v := Validate(raw);
    Contact(
      Lower(FieldOr(row, "email", "email address")),
      FieldOr(row, "name", "first name"),
      if v.isValid then raw else InvalidTag + raw,
      NotSent,
      v.operator.Name(),
      None)
  }

  /** The invalid tag carries no digits. */
  lemma InvalidTagHasNoDigits()
    ensures DigitsOf(InvalidTag) == ""
  {
    assert forall i | 0 <= i < |InvalidTag| :: InvalidTag[i] in "Invalid: " by {
    }
    DigitsOfNoDigits(InvalidTag);
  }

  /** Validating the stored phone, tagged or not, gives back the stored
      operator: the tag adds no digits. */
  lemma FormattedContactConsistent(row: Row)
    ensures Validate(FormatContact(row).phone).operator.Name() == FormatContact(row).operator
  {
    var raw := RawPhone(row);
    assert DigitsOf(InvalidTag + raw) == DigitsOf(raw) by {
      DigitsOfAppend(InvalidTag, raw);
      InvalidTagHasNoDigits();
    }
  }

  /** The stored email has no upper-case letter. */
  lemma FormattedEmailLower(row: Row)
    ensures forall i | 0 <= i < |FormatContact(row).email| :: !IsUpperAscii(FormatContact(row).email[i])
  {
    LowerIdempotent(FieldOr(row, "email", "email address"));
  }

  /** The phone fallback column: `phone number` is used when `phone` is
      missing or empty, and then it decides the operator. */
  lemma FallbackColumns(row: Row, phone: string)
    requires "phone" !in row || row["phone"] == ""
    requires "phone number" in row && row["phone number"] == phone
    ensures RawPhone(row) == phone
    ensures FormatContact(row).operator == Validate(phone).operator.Name()
  {
  }

  // ---------------------------------------------------------------------
  // Rows from header names and cells
  // ---------------------------------------------------------------------

  /** `cells[i] || ''`: the cell under column `i`, empty past the end of
      the row. */
  function Cell(cells: seq<string>, i: nat): string {
    if i < |cells| then cells[i] else ""
  }

  /** The loop over the headers: each header is bound to its trimmed cell,
      a later duplicate header overwriting an earlier one. */
  function RowOf(keys: seq<string>, cells: seq<string>): (row: Row)
    ensures forall k :: k in row <==> k in keys
    decreases |keys|
  {
    if |keys| == 0 then map[]
    else
      var n := |keys| - 1;
      assert forall i | 0 <= i < n :: keys[..n][i] == keys[i];
      RowOf(keys[..n], cells)[keys[n] := Trim(Cell(cells, n))]
  }

  /** The header at `i` does not occur again later in the header row. */
  predicate LastOccurrence(keys: seq<string>, i: nat) {
    i < |keys| && forall j | i < j < |keys| :: keys[j] != keys[i]
  }

  /** The value of a header that does not occur again later in the header
      row is its own cell, trimmed. */
  lemma {:induction false} RowOfAt(keys: seq<string>, cells: seq<string>, i: nat)
    requires LastOccurrence(keys, i)
    ensures RowOf(keys, cells)[keys[i]] == Trim(Cell(cells, i))
    decreases |keys|, 1
  {
    if i < |keys| - 1 {
      RowOfAtEarlier(keys, cells, i);
    } else {
      RowOfLast(keys, cells);
    }
  }

  /** The inductive step of `RowOfAt`: a header before the last one. */
  lemma {:induction false} RowOfAtEarlier(keys: seq<string>, cells: seq<string>, i: nat)
    requires LastOccurrence(keys, i) && i < |keys| - 1
    ensures RowOf(keys, cells)[keys[i]] == Trim(Cell(cells, i))
    decreases |keys|, 0
  {
    var front := keys[..|keys| - 1];
    assert front[i] == keys[i];
    RowOfAt(front, cells, i);
    RowOfEarlier(keys, cells, i);
  }

  /** One step of the loop: the last header gets its own cell. */
  lemma RowOfLast(keys: seq<string>, cells: seq<string>)
    requires |keys| > 0
    ensures RowOf(keys, cells)[keys[|keys| - 1]] == Trim(Cell(cells, |keys| - 1))
  {
  }

  /** One step of the loop: a header other than the last keeps the value
      bound before the last one. */
  lemma RowOfEarlier(keys: seq<string>, cells: seq<string>, i: nat)
    requires i < |keys| - 1 && keys[i] != keys[|keys| - 1]
    ensures RowOf(keys, cells)[keys[i]] == RowOf(keys[..|keys| - 1], cells)[keys[i]]
  {
    assert keys[..|keys| - 1][i] == keys[i];
  }

  /** The row depends only on the cells under the headers. */
  lemma {:induction false} RowOfCells(keys: seq<string>, c1: seq<string>, c2: seq<string>)
    requires forall i | 0 <= i < |keys| :: Cell(c1, i) == Cell(c2, i)
    ensures RowOf(keys, c1) == RowOf(keys, c2)
    decreases |keys|
  {
    if |keys| > 0 {
      RowOfCells(keys[..|keys| - 1], c1, c2);
    }
  }

  /** Cells past the last header are ignored. */
  lemma ExtraCellsIgnored(keys: seq<string>, cells: seq<string>)
    requires |cells| >= |keys|
    ensures RowOf(keys, cells) == RowOf(keys, cells[..|keys|])
  {
    RowOfCells(keys, cells, cells[..|keys|]);
  }

  /** A header with no cell in the row gets the empty value. */
  lemma MissingCellIsEmpty(keys: seq<string>, cells: seq<string>, i: nat)
    requires LastOccurrence(keys, i) && i >= |cells|
    ensures RowOf(keys, cells)[keys[i]] == ""
  {
    RowOfAt(keys, cells, i);
  }

  /** The contact built from one data row: both import paths bind the
      headers to the row's cells and format the result. */
  function ContactOf(headers: seq<string>, cells: seq<string>): Contact {
    FormatContact(RowOf(headers, cells))
  }

  /** Each data row becomes one contact under the same headers, in order. */
  function RowsToContacts(headers: seq<string>, rows: seq<seq<string>>): (cs: seq<Contact>)
    ensures |cs| == |rows|
    ensures forall i | 0 <= i < |rows| :: cs[i] == ContactOf(headers, rows[i])
  {
    seq(|rows|, i requires 0 <= i < |rows| => ContactOf(headers, rows[i]))
  }

  /** `header.toLowerCase().trim()`. */
  function NormalizeHeader(h: string): string {
    Trim(Lower(h))
  }

  /** A normalised header has no surrounding white space and no upper-case
      letter. */
  lemma NormalizedHeaderIsNormal(h: string)
    ensures Trimmed(NormalizeHeader(h))
    ensures forall i | 0 <= i < |NormalizeHeader(h)| :: !IsUpperAscii(NormalizeHeader(h)[i])
  {
    LowerIdempotent(h);
    TrimKeepsNoUpper(Lower(h));
  }

  /** Normalising a header twice is normalising it once. */
  lemma NormalizeHeaderIdempotent(h: string)
    ensures NormalizeHeader(NormalizeHeader(h)) == NormalizeHeader(h)
  {
    var k := NormalizeHeader(h);
    NormalizedHeaderIsNormal(h);
    assert Lower(k) == k;
    TrimIdempotent(Lower(h));
  }

  function NormalizeHeaders(hs: seq<string>): (ks: seq<string>)
    ensures |ks| == |hs|
    ensures forall i | 0 <= i < |hs| :: ks[i] == NormalizeHeader(hs[i])
  {
    seq(|hs|, i requires 0 <= i < |hs| => NormalizeHeader(hs[i]))
  }

  /** Where the normalised headers have a single `phone` column with a
      non-empty cell, the contact's raw phone is that cell, trimmed. */
  lemma PhoneFromColumn(keys: seq<string>, cells: seq<string>, j: nat)
    requires LastOccurrence(keys, j) && keys[j] == "phone"
    requires Trim(Cell(cells, j)) != ""
    ensures RawPhone(RowOf(keys, cells)) == Trim(Cell(cells, j))
  {
    RowOfAt(keys, cells, j);
  }

  // ---------------------------------------------------------------------
  // CSV
  // ---------------------------------------------------------------------

  const CsvEmptyMessage := "The CSV file is empty or contains no valid data"

  predicate NonBlankLine(line: string) {
    Trim(line) != ""
  }

  /** The non-blank lines of a CSV text, in order. */
  function CsvLines(content: string): seq<string> {
    Filter(Split(content, '\n'), NonBlankLine)
  }

  /** The body of `parseCSV` once the lines are known: the first line
      names the columns and every further line becomes one contact, in
      order. Fewer than two lines is an error. */
  function ContactsOfLines(lines: seq<string>): (r: Result<seq<Contact>>)
    ensures r.Err? <==> |lines| < 2
    ensures r.Err? ==> r.message == CsvEmptyMessage
    ensures r.Ok? ==> |r.value| == |lines| - 1
  {
    if |lines| < 2 then Err(CsvEmptyMessage)
    else Ok(RowsToContacts(NormalizeHeaders(Split(lines[0], ',')), GridOf(lines[1..])))
  }

  /** `parseCSV`: the contacts of the non-blank lines of the text. */
  function ParseCsv(content: string): (r: Result<seq<Contact>>)
    ensures r.Err? <==> |CsvLines(content)| < 2
    ensures r.Ok? ==> |r.value| == |CsvLines(content)| - 1
  {
    ContactsOfLines(CsvLines(content))
  }

  /** Each non-blank line after the first becomes one contact, in order:
      its comma-separated cells bound to the normalised header cells. */
  lemma CsvContactPerLine(content: string, i: nat)
    requires i + 1 < |CsvLines(content)|
    ensures ParseCsv(content).Ok? && |ParseCsv(content).value| == |CsvLines(content)| - 1
    ensures ParseCsv(content).value[i] ==
              FormatContact(RowOf(NormalizeHeaders(Split(CsvLines(content)[0], ',')),
                                  Split(CsvLines(content)[i + 1], ',')))
  {
    var lines := CsvLines(content);
    assert lines[1..][i] == lines[i + 1];
  }

  /** A line break at the end of the text adds only a blank line. */
  lemma CsvLinesTrailingNewline(content: string)
    ensures CsvLines(content + "\n") == CsvLines(content)
  {
    SplitTrailingSeparator(content, '\n');
    var parts := Split(content, '\n');
    FilterAppend(parts, [""], NonBlankLine);
    assert Filter([""], NonBlankLine) == [] by {
      FilterDropsAll([""], NonBlankLine);
    }
  }

  /** A blank line at the end of the file changes nothing. */
  lemma CsvTrailingNewline(content: string)
    ensures ParseCsv(content + "\n") == ParseCsv(content)
  {
    CsvLinesTrailingNewline(content);
  }

  /** A text with no line break has at most one line, so it is rejected. */
  lemma CsvNeedsTwoLines(content: string)
    requires '\n' !in content
    ensures ParseCsv(content) == Err(CsvEmptyMessage)
  {
    SplitNoSeparator(content, '\n');
  }

  // ---------------------------------------------------------------------
  // Spreadsheet grids
  // ---------------------------------------------------------------------

  /** Every cell of the row is the empty string. */
  predicate BlankRow(cells: seq<string>) {
    forall k | 0 <= k < |cells| :: cells[k] == ""
  }

  predicate NonBlankRow(cells: seq<string>) {
    !BlankRow(cells)
  }

  /** The mapping of a spreadsheet's cell grid to contacts: the first row
      names the columns, blank rows are dropped, and every other row
      becomes one contact, in order. */
  function GridContacts(grid: seq<seq<string>>): (cs: seq<Contact>)
    ensures |grid| == 0 ==> cs == []
    ensures |grid| > 0 ==> |cs| == |Filter(grid[1..], NonBlankRow)|
  {
    if |grid| == 0 then []
    else RowsToContacts(NormalizeHeaders(grid[0]), Filter(grid[1..], NonBlankRow))
  }

  /** The k-th contact of a grid is the contact of its k-th non-blank row
      after the header row. */
  lemma GridContactPerRow(grid: seq<seq<string>>, k: nat)
    requires |grid| > 0 && k < |Filter(grid[1..], NonBlankRow)|
    ensures |GridContacts(grid)| == |Filter(grid[1..], NonBlankRow)|
    ensures GridContacts(grid)[k] == ContactOf(NormalizeHeaders(grid[0]), Filter(grid[1..], NonBlankRow)[k])
  {
  }

  /** The contacts of a grid are exactly the contacts of its non-blank rows
      after the header row; the header row itself never becomes one. */
  lemma GridContactsExact(grid: seq<seq<string>>, c: Contact)
    requires |grid| > 0
    ensures c in GridContacts(grid) <==>
              exists j | 1 <= j < |grid| :: NonBlankRow(grid[j]) && c == ContactOf(NormalizeHeaders(grid[0]), grid[j])
  {
    if c in GridContacts(grid) {
      GridContactFromRow(grid, c);
    }
    if exists j | 1 <= j < |grid| :: NonBlankRow(grid[j]) && c == ContactOf(NormalizeHeaders(grid[0]), grid[j]) {
      var j :| 1 <= j < |grid| && NonBlankRow(grid[j]) && c == ContactOf(NormalizeHeaders(grid[0]), grid[j]);
      GridRowGivesContact(grid, j);
    }
  }

  lemma GridContactFromRow(grid: seq<seq<string>>, c: Contact)
    requires |grid| > 0 && c in GridContacts(grid)
    ensures exists j | 1 <= j < |grid| :: NonBlankRow(grid[j]) && c == ContactOf(NormalizeHeaders(grid[0]), grid[j])
  {
    var headers := NormalizeHeaders(grid[0]);
    var rows := Filter(grid[1..], NonBlankRow);
    var cs := GridContacts(grid);
    assert cs == RowsToContacts(headers, rows);
    var k :| 0 <= k < |cs| && cs[k] == c;
    var row := rows[k];
    assert c == ContactOf(headers, row);
    RowFromGrid(grid, row);
  }

  /** A non-blank data row kept by the filter is some row of the grid
      after the header row. */
  lemma RowFromGrid(grid: seq<seq<string>>, row: seq<string>)
    requires |grid| > 0 && row in Filter(grid[1..], NonBlankRow)
    ensures exists j | 1 <= j < |grid| :: NonBlankRow(grid[j]) && grid[j] == row
  {
    FilterMembership(grid[1..], NonBlankRow, row);
    var m :| 0 <= m < |grid[1..]| && grid[1..][m] == row;
    assert grid[m + 1] == row;
  }

  lemma GridRowGivesContact(grid: seq<seq<string>>, j: nat)
    requires 1 <= j < |grid| && NonBlankRow(grid[j])
    ensures ContactOf(NormalizeHeaders(grid[0]), grid[j]) in GridContacts(grid)
  {
    var rows := Filter(grid[1..], NonBlankRow);
    assert grid[1..][j - 1] == grid[j];
    FilterMembership(grid[1..], NonBlankRow, grid[j]);
    var k :| 0 <= k < |rows| && rows[k] == grid[j];
    assert GridContacts(grid)[k] == ContactOf(NormalizeHeaders(grid[0]), grid[j]);
  }

  /** A blank row anywhere after the header row changes nothing. */
  lemma GridBlankRowIgnored(grid: seq<seq<string>>, blank: seq<string>, rest: seq<seq<string>>)
    requires |grid| > 0 && BlankRow(blank)
    ensures GridContacts(grid + [blank] + rest) == GridContacts(grid + rest)
  {
    var with := grid + [blank] + rest;
    var without := grid + rest;
    assert with[0] == grid[0] && without[0] == grid[0];
    assert with[1..] == grid[1..] + [blank] + rest;
    assert without[1..] == grid[1..] + rest;
    BlankRowDropped(grid[1..], blank, rest);
    assert Filter(with[1..], NonBlankRow) == Filter(without[1..], NonBlankRow);
  }

  /** Filtering out blank rows drops an inserted blank row. */
  lemma BlankRowDropped(front: seq<seq<string>>, blank: seq<string>, rest: seq<seq<string>>)
    requires BlankRow(blank)
    ensures Filter(front + [blank] + rest, NonBlankRow) == Filter(front + rest, NonBlankRow)
  {
    FilterAppend(front + [blank], rest, NonBlankRow);
    FilterAppend(front, [blank], NonBlankRow);
    FilterAppend(front, rest, NonBlankRow);
    FilterOne(blank, NonBlankRow);
  }

  /** The cell grid of some lines: each line split at commas. */
  function GridOf(lines: seq<string>): (grid: seq<seq<string>>)
    ensures |grid| == |lines|
    ensures forall i | 0 <= i < |grid| :: grid[i] == Split(lines[i], ',')
  {
    seq(|lines|, i requires 0 <= i < |lines| => Split(lines[i], ','))
  }

  /** The two import paths agree on the same lines: the CSV mapping gives
      the contacts the grid mapping gives for the comma-split lines, when
      no data line consists of empty cells only. */
  lemma LinesAgreeWithGrid(lines: seq<string>)
    requires |lines| >= 2
    requires forall i | 1 <= i < |lines| :: NonBlankRow(Split(lines[i], ','))
    ensures ContactsOfLines(lines) == Ok(GridContacts(GridOf(lines)))
  {
    var grid := GridOf(lines);
    assert grid[1..] == GridOf(lines[1..]);
    FilterKeepsAll(grid[1..], NonBlankRow);
  }

  /** The CSV path agrees with the spreadsheet path on a text's non-blank
      lines. */
  lemma CsvAgreesWithGrid(content: string)
    requires |CsvLines(content)| >= 2
    requires forall i | 1 <= i < |CsvLines(content)| :: NonBlankRow(Split(CsvLines(content)[i], ','))
    ensures ParseCsv(content) == Ok(GridContacts(GridOf(CsvLines(content))))
  {
    LinesAgreeWithGrid(CsvLines(content));
  }
}
