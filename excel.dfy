/**
 * The applicant workbook of `excel_handler.py`: the active sheet of one `.xlsx` file,
 * held as its sequence of rows (row 1 of the sheet at index 0, the header), and
 * whether the file exists at all. Loading and saving through openpyxl become reads
 * and writes of these two fields; a failing save is a parameter.
 */
module Excel {
  import opened Wrappers
  import opened Text
  import opened Calendar

  /** A cell value as openpyxl hands it back: `None`, a string, a date or a datetime. */
  datatype Cell = Blank | Str(text: string) | DateValue(date: CalendarDate) | DateTimeValue(moment: Moment)

  type Row = seq<Cell>

  const DefaultColumns: seq<string> :=
    ["Name", "Email", "Phone", "Skills", "Experience", "DateApplied", "ResumePath"]

  /** A row of string cells. */
  function TextRow(values: seq<string>): (row: Row)
    ensures |row| == |values|
    ensures forall j :: 0 <= j < |values| ==> row[j] == Str(values[j])
  {
    seq(|values|, j requires 0 <= j < |values| => Str(values[j]))
  }

  /** `columns` when it is given and non-empty, else the seven default column names. */
  function HeaderColumns(columns: seq<string>): seq<string> {
    if columns == [] then DefaultColumns else columns
  }

  /** `data.get(key, "")`. */
  function Field(data: map<string, string>, key: string): string {
    if key in data then data[key] else ""
  }

  /** The row `append_row` writes: five fields, today's ISO date, then the resume path. */
  function DataRow(data: map<string, string>, today: CalendarDate): Row {
    TextRow([Field(data, "Name"), Field(data, "Email"), Field(data, "Phone"), Field(data, "Skills"),
             Field(data, "Experience"), FormatIso(today), Field(data, "ResumePath")])
  }

  /** The data rows as the sheet stores them: every row after the header, in order. */
  function DataRows(rows: seq<Row>): (data: seq<Row>)
    ensures |rows| <= 1 ==> data == []
    ensures |rows| > 1 ==> |data| == |rows| - 1 && forall k :: 0 <= k < |data| ==> data[k] == rows[k + 1]
  {
    if |rows| <= 1 then [] else rows[1..]
  }

  /** `ws.max_column`: the width of the widest row, and at least 1. */
  function SheetWidth(rows: seq<Row>): (w: nat)
    ensures w >= 1 && forall k :: 0 <= k < |rows| ==> |rows[k]| <= w
  {
    if rows == [] then 1
    else
      var w := SheetWidth(rows[..|rows| - 1]);
      var last := |rows[|rows| - 1]|;
      assert forall k :: 0 <= k < |rows| - 1 ==> rows[k] == rows[..|rows| - 1][k];
      if last > w then last else w
  }

  /** `k` cells holding `None`. */
  function Blanks(k: nat): (cells: Row)
    ensures |cells| == k && forall j :: 0 <= j < k ==> cells[j] == Blank
  {
    if k == 0 then [] else Blanks(k - 1) + [Blank]
  }

  /** A row as openpyxl yields it from a sheet `w` columns wide: the cells it lacks are `None`. */
  function PadRow(r: Row, w: nat): (padded: Row)
    ensures |padded| == if |r| < w then w else |r|
    ensures padded[..|r|] == r
    ensures forall j :: |r| <= j < |padded| ==> padded[j] == Blank
  {
    if |r| < w then r + Blanks(w - |r|) else r
  }

  /**
   * What `iter_rows(min_row=2, values_only=True)` yields: every row after the header,
   * in order, each padded with `None` to the sheet's width.
   */
  function SheetDataRows(rows: seq<Row>): seq<Row> {
    seq(|DataRows(rows)|, k requires 0 <= k < |DataRows(rows)| => PadRow(DataRows(rows)[k], SheetWidth(rows)))
  }

  /**
   * Reading the data rows gives one row per stored data row, in order, each exactly as
   * wide as the sheet: the stored cells first, then `None`. Looking a cell up in the
   * padded row gives what it gives in the stored one.
   */
  lemma SheetDataRowsShape(rows: seq<Row>)
    ensures var read := SheetDataRows(rows);
      && |read| == |DataRows(rows)|
      && forall k :: 0 <= k < |read| ==>
           && |read[k]| == SheetWidth(rows)
           && (forall j :: 0 <= j < SheetWidth(rows) ==>
                 read[k][j] == (if j < |DataRows(rows)[k]| then DataRows(rows)[k][j] else Blank))
           && (forall j: nat :: CellAt(read[k], j) == CellAt(DataRows(rows)[k], j))
  {
    var read := SheetDataRows(rows);
    forall k | 0 <= k < |read|
      ensures |read[k]| == SheetWidth(rows)
      ensures forall j :: 0 <= j < SheetWidth(rows) ==>
                read[k][j] == (if j < |DataRows(rows)[k]| then DataRows(rows)[k][j] else Blank)
    {
      var r := DataRows(rows)[k];
      assert r == rows[k + 1];
      forall j | 0 <= j < |r|
        ensures read[k][j] == r[j]
      {
        assert read[k][..|r|][j] == r[j];
      }
    }
  }

  // ---------------------------------------------------------------------------
  // ensure_excel and append_row

  /** The sheet after `ensure_excel`: an existing file is left alone, a new one holds the header. */
  function EnsuredRows(present: bool, rows: seq<Row>, columns: seq<string>): seq<Row> {
    if present then rows else [TextRow(HeaderColumns(columns))]
  }

  /** `ws.max_row == 1 and ws.cell(1, 1).value is None`: the sheet has no header yet. */
  predicate HeaderMissing(rows: seq<Row>) {
    |rows| <= 1 && (rows == [] || rows[0] == [] || rows[0][0] == Blank)
  }

  /**
   * The sheet after `append_row` as its comment intends it: when the sheet has no
   * header, the header becomes row 1; then the data row is appended.
   */
  function AppendedRows(rows: seq<Row>, data: map<string, string>, columns: seq<string>,
                        today: CalendarDate): seq<Row>
  {
    (if HeaderMissing(rows) then [TextRow(HeaderColumns(columns))] else rows) + [DataRow(data, today)]
  }

  /** After `ws.cell(1, 1)`: openpyxl creates the cell A1 when it is missing, so row 1 exists. */
  function Probed(rows: seq<Row>): seq<Row> {
    if rows == [] || rows[0] == [] then [[Blank]] + (if rows == [] then [] else rows[1..]) else rows
  }

  /**
   * `append_row` as written: the header test probes A1 and so occupies row 1, and
   * `ws.append` then writes after it, putting the header in row 2.
   */
  function AppendedRowsAsWritten(rows: seq<Row>, data: map<string, string>, columns: seq<string>,
                                 today: CalendarDate): seq<Row>
  {
    (if HeaderMissing(rows) then Probed(rows) + [TextRow(HeaderColumns(columns))] else rows)
      + [DataRow(data, today)]
  }

  /** A new file holds exactly one row, the given columns or the defaults; an existing one is kept. */
  lemma EnsuredRowsShape(present: bool, rows: seq<Row>, columns: seq<string>)
    ensures present ==> EnsuredRows(present, rows, columns) == rows
    ensures !present ==> (|EnsuredRows(present, rows, columns)| == 1
      && EnsuredRows(present, rows, columns)[0] == TextRow(if columns == [] then DefaultColumns else columns))
    ensures !HeaderMissing(EnsuredRows(false, rows, columns))
  {
  }

  /**
   * `append_row` adds exactly one row at the end and leaves the earlier rows as they
   * were; on a sheet without a header the header comes first. On a sheet that has a
   * header, the corrected append and the append as written are the same.
   */
  lemma AppendedRowsShape(rows: seq<Row>, data: map<string, string>, columns: seq<string>,
                          today: CalendarDate)
    ensures var after := AppendedRows(rows, data, columns, today);
      && after[|after| - 1] == DataRow(data, today)
      && (!HeaderMissing(rows) ==> |after| == |rows| + 1 && after[..|rows|] == rows)
      && (HeaderMissing(rows) ==> after == [TextRow(HeaderColumns(columns)), DataRow(data, today)])
      && (!HeaderMissing(rows) ==> after == AppendedRowsAsWritten(rows, data, columns, today))
  {
  }

  /**
   * The data rows after an append are the earlier data rows followed by the new row;
   * as written, this holds whenever the sheet already has its header.
   */
  lemma AppendThenReadBack(rows: seq<Row>, data: map<string, string>, columns: seq<string>,
                           today: CalendarDate)
    ensures DataRows(AppendedRows(rows, data, columns, today)) == DataRows(rows) + [DataRow(data, today)]
    ensures !HeaderMissing(rows) ==>
      DataRows(AppendedRowsAsWritten(rows, data, columns, today)) == DataRows(rows) + [DataRow(data, today)]
  {
    var after := AppendedRows(rows, data, columns, today);
    if !HeaderMissing(rows) && |rows| > 1 {
      assert after[1..] == rows[1..] + [DataRow(data, today)];
    }
  }

  /** The fields of the data row, in column order, with "" for every missing key. */
  lemma DataRowFields(data: map<string, string>, today: CalendarDate)
    ensures var row := DataRow(data, today);
      && |row| == 7
      && row[1] == Str(if "Email" in data then data["Email"] else "")
      && row[5] == Str(FormatIso(today))
      && forall j :: 0 <= j < 7 && j != 5 ==>
           row[j] == Str(if DefaultColumns[j] in data then data[DefaultColumns[j]] else "")
  {
  }

  /** As written, appending to an empty sheet leaves row 1 blank and reads the header back as data. */
  lemma HeaderProbeShiftsHeader(data: map<string, string>, columns: seq<string>, today: CalendarDate)
    ensures AppendedRowsAsWritten([], data, columns, today)
         == [[Blank], TextRow(HeaderColumns(columns)), DataRow(data, today)]
    ensures DataRows(AppendedRowsAsWritten([], data, columns, today))
         == [TextRow(HeaderColumns(columns)), DataRow(data, today)]
  {
    var after := AppendedRowsAsWritten([], data, columns, today);
    assert after[1..] == [TextRow(HeaderColumns(columns)), DataRow(data, today)];
  }

  /** Corrected, the header is row 1 and only the new row reads back as data. */
  lemma HeaderFirstOnEmptySheet(data: map<string, string>, columns: seq<string>, today: CalendarDate)
    ensures AppendedRows([], data, columns, today) == [TextRow(HeaderColumns(columns)), DataRow(data, today)]
    ensures DataRows(AppendedRows([], data, columns, today)) == [DataRow(data, today)]
  {
    var after := AppendedRows([], data, columns, today);
    assert after[1..] == [DataRow(data, today)];
  }

  // ---------------------------------------------------------------------------
  // email_duplicate_within_days

  /** `str(v)` of a cell value. */
  function CellText(c: Cell): string {
    match c
    case Blank => "None"
    case Str(s) => s
    case DateValue(d) => FormatIso(d)
    case DateTimeValue(m) => DateTimeText(m)
  }

  /** Python truthiness of a cell value: `None` and "" are falsy. */
  predicate CellTruthy(c: Cell) {
    match c
    case Blank => false
    case Str(s) => s != ""
    case _ => true
  }

  /** `r[k] if len(r) > k else None`. */
  function CellAt(row: Row, k: nat): Cell {
    if |row| > k then row[k] else Blank
  }

  /** `str(email).strip().lower()`. */
  function NormalizeEmail(s: string): string {
    Lower(Strip(s))
  }

  /**
   * The naive datetime a date cell stands for: `fromisoformat` of a string, the
   * datetime itself, or a date at midnight; `None` when parsing raises.
   */
  function AppliedMoment(c: Cell): Option<Moment> {
    match c
    case Str(s) => (match ParseIso(s) case Some(d) => Some(Midnight(d)) case None => None)
    case DateValue(d) => Some(Midnight(d))
    case DateTimeValue(m) => Some(m)
    case Blank => None
  }

  /** The row's email cell is truthy and equals the normalised query after strip and lower. */
  predicate SameEmail(row: Row, norm: string) {
    CellTruthy(CellAt(row, 1)) && NormalizeEmail(CellText(CellAt(row, 1))) == norm
  }

  /** The row's date is missing, unparseable, or at most `days` whole days before `now`. */
  predicate WithinWindow(row: Row, days: int, now: Moment) {
    var applied := AppliedMoment(CellAt(row, 5));
    !CellTruthy(CellAt(row, 5)) || applied.None? || ElapsedDays(now, applied.value) <= days
  }

  /** One data row makes the query a duplicate. */
  predicate DuplicateRow(row: Row, norm: string, days: int, now: Moment) {
    SameEmail(row, norm) && WithinWindow(row, days, now)
  }

  /** What `email_duplicate_within_days` answers, over the whole sheet. */
  predicate RecentDuplicate(present: bool, rows: seq<Row>, email: string, days: int, now: Moment) {
    present && email != "" &&
    exists i :: 1 <= i < |rows| && DuplicateRow(rows[i], NormalizeEmail(email), days, now)
  }

  /** A missing file or an empty query is never a duplicate. */
  lemma NoDuplicateWithoutFileOrEmail(present: bool, rows: seq<Row>, email: string, days: int, now: Moment)
    requires !present || email == ""
    ensures !RecentDuplicate(present, rows, email, days, now)
  {
  }

  /** The check fails safe: a matching row whose date is blank or unparseable is a duplicate. */
  lemma MatchWithoutUsableDateIsDuplicate(rows: seq<Row>, i: nat, email: string, days: int, now: Moment)
    requires email != "" && 1 <= i < |rows| && SameEmail(rows[i], NormalizeEmail(email))
    requires !CellTruthy(CellAt(rows[i], 5)) || AppliedMoment(CellAt(rows[i], 5)).None?
    ensures RecentDuplicate(true, rows, email, days, now)
  {
    assert DuplicateRow(rows[i], NormalizeEmail(email), days, now);
  }

  /**
   * Saving a record and then checking its email, up to `days` days later, finds it:
   * the stored ISO date parses back to the saving day at midnight.
   */
  lemma SavedEmailIsRecentDuplicate(rows: seq<Row>, data: map<string, string>, columns: seq<string>,
                                    today: CalendarDate, now: Moment, days: int)
    requires "Email" in data && data["Email"] != ""
    requires 0 <= Ordinal(now.date) - Ordinal(today) <= days
    ensures RecentDuplicate(true, AppendedRows(rows, data, columns, today), data["Email"], days, now)
  {
    var after := AppendedRows(rows, data, columns, today);
    var i := |after| - 1;
    var row := DataRow(data, today);
    assert after[i] == row;
    DataRowFields(data, today);
    ParseFormatIso(today);
    ElapsedDaysSinceMidnight(now, today);
    assert AppliedMoment(CellAt(row, 5)) == Some(Midnight(today));
    assert DuplicateRow(after[i], NormalizeEmail(data["Email"]), days, now);
  }

  // ---------------------------------------------------------------------------
  // get_headers and update_headers

  /** Row 1 of the sheet; an empty sheet has no cells there. */
  function FirstRow(rows: seq<Row>): Row {
    if rows == [] then [] else rows[0]
  }

  /** A header cell as `get_headers` reports it: `None` becomes "". */
  function HeaderCell(c: Cell): Cell {
    if c == Blank then Str("") else c
  }

  /** `k` cells holding "". */
  function Padding(k: nat): (cells: Row)
    ensures |cells| == k && forall j :: 0 <= j < k ==> cells[j] == Str("")
  {
    if k == 0 then [] else Padding(k - 1) + [Str("")]
  }

  /** `r[:n] + [""] * max(0, n - len(r))`. */
  function FitRow(r: Row, n: nat): (fitted: Row)
    ensures |fitted| == n
    ensures forall j :: 0 <= j < n && j < |r| ==> fitted[j] == r[j]
    ensures forall j :: |r| <= j < n ==> fitted[j] == Str("")
  {
    if n <= |r| then r[..n] else r + Padding(n - |r|)
  }

  /** Every row fitted to width `n`, in order. */
  function FitAll(rs: seq<Row>, n: nat): (fitted: seq<Row>)
    ensures |fitted| == |rs| && forall k :: 0 <= k < |rs| ==> fitted[k] == FitRow(rs[k], n)
  {
    seq(|rs|, k requires 0 <= k < |rs| => FitRow(rs[k], n))
  }

  /**
   * The sheet `update_headers` writes: the new header, then each data row as
   * `iter_rows` yields it (padded with `None` to the sheet's width) fitted to the
   * header's width.
   */
  function RebuiltRows(rows: seq<Row>, newHeaders: seq<string>): seq<Row> {
    [TextRow(newHeaders)] + FitAll(SheetDataRows(rows), |newHeaders|)
  }

  /** Fitting a row that already has the width changes nothing. */
  lemma FitRowOfWidth(r: Row, n: nat)
    requires |r| == n
    ensures FitRow(r, n) == r
  {
    assert r[..n] == r;
  }

  /** Fitting a padded row back to its own width gives the row back, whatever the padding. */
  lemma FitPaddedOfWidth(r: Row, w: nat, n: nat)
    requires |r| == n
    ensures FitRow(PadRow(r, w), n) == r
  {
    var p := PadRow(r, w);
    assert p[..n] == r;
  }

  /**
   * After `update_headers` the header is the new one, the number of data rows is kept,
   * and every row has exactly the header's width. A data row keeps its leading values;
   * a cell it lacks within the old width reads `None`, and one beyond the old width is "".
   */
  lemma RebuiltRowsShape(rows: seq<Row>, newHeaders: seq<string>)
    ensures var after := RebuiltRows(rows, newHeaders);
      && after[0] == TextRow(newHeaders)
      && |DataRows(after)| == |DataRows(rows)|
      && (forall k :: 0 <= k < |after| ==> |after[k]| == |newHeaders|)
      && forall k, j :: 0 <= k < |DataRows(rows)| && 0 <= j < |newHeaders| ==>
           DataRows(after)[k][j] == (if j < |DataRows(rows)[k]| then DataRows(rows)[k][j]
                                     else if j < SheetWidth(rows) then Blank else Str(""))
  {
    var after := RebuiltRows(rows, newHeaders);
    var n := |newHeaders|;
    assert DataRows(after) == FitAll(SheetDataRows(rows), n) by {
      assert after[1..] == FitAll(SheetDataRows(rows), n);
    }
    forall k, j | 0 <= k < |DataRows(rows)| && 0 <= j < n
      ensures DataRows(after)[k][j] == (if j < |DataRows(rows)[k]| then DataRows(rows)[k][j]
                                        else if j < SheetWidth(rows) then Blank else Str(""))
    {
      FittedCell(rows, n, k, j);
    }
  }

  /** One cell of a data row read back and fitted to width `n`. */
  lemma FittedCell(rows: seq<Row>, n: nat, k: nat, j: nat)
    requires k < |DataRows(rows)| && j < n
    ensures FitRow(SheetDataRows(rows)[k], n)[j]
         == (if j < |DataRows(rows)[k]| then DataRows(rows)[k][j] else if j < SheetWidth(rows) then Blank else Str(""))
  {
    var r := DataRows(rows)[k];
    var p := PadRow(r, SheetWidth(rows));
    assert SheetDataRows(rows)[k] == p;
    if j < |r| {
      assert p[..|r|][j] == p[j];
    }
  }

  /** Replacing the header twice with the same names is the same as doing it once. */
  lemma RebuildIdempotent(rows: seq<Row>, newHeaders: seq<string>)
    ensures RebuiltRows(RebuiltRows(rows, newHeaders), newHeaders) == RebuiltRows(rows, newHeaders)
  {
    var once := RebuiltRows(rows, newHeaders);
    var n := |newHeaders|;
    RebuiltRowsShape(rows, newHeaders);
    var read := SheetDataRows(once);
    forall k | 0 <= k < |read|
      ensures FitRow(read[k], n) == DataRows(once)[k]
    {
      assert |DataRows(once)[k]| == n by {
        assert DataRows(once)[k] == once[k + 1];
      }
      FitPaddedOfWidth(DataRows(once)[k], SheetWidth(once), n);
    }
    assert FitAll(read, n) == DataRows(once);
    assert once == [TextRow(newHeaders)] + DataRows(once);
  }

  // ---------------------------------------------------------------------------
  // The file itself

  class ExcelFile {
    /** `os.path.exists(path)`. */
    var present: bool
    /** The active sheet's rows; row 1 is the header. */
    var rows: seq<Row>

    /** A missing file holds no rows. */
    predicate Valid()
      reads this
    {
      present || rows == []
    }

    constructor (present: bool, rows: seq<Row>)
      requires present || rows == []
      ensures Valid() && this.present == present && this.rows == rows
    {
      this.present := present;
      this.rows := rows;
    }

    /** `ensure_excel`: create the file with its header unless it already exists. */
    method EnsureExcel(columns: seq<string>)
      requires Valid()
      modifies this
      ensures Valid() && present
      ensures rows == EnsuredRows(old(present), old(rows), columns)
    {
      if present {
        return;
      }
      var header := HeaderColumns(columns);
      rows := [TextRow(header)];
      present := true;
    }

    /**
     * `append_row`, with the header written as row 1 of an empty sheet (the corrected
     * placement; on a sheet that has its header this is the append as written).
     * `saveOk` is whether `wb.save` succeeds; when it raises, the file is as it was and
     * the error reaches the caller as `false`.
     */
    method AppendRow(data: map<string, string>, columns: seq<string>, today: CalendarDate, saveOk: bool)
      returns (ok: bool)
      requires Valid()
      modifies this
      ensures Valid() && ok == saveOk
      ensures ok ==> present && rows == AppendedRows(old(rows), data, columns, today)
      ensures ok && !HeaderMissing(old(rows)) ==> rows == AppendedRowsAsWritten(old(rows), data, columns, today)
      ensures !ok ==> present == old(present) && rows == old(rows)
    {
      var sheet := if present then rows else [];
      if HeaderMissing(sheet) {
        sheet := [TextRow(HeaderColumns(columns))];
      }
      sheet := sheet + [DataRow(data, today)];
      AppendedRowsShape(if present then rows else [], data, columns, today);
      if !saveOk {
        return false;
      }
      present, rows := true, sheet;
      return true;
    }

    /** `save_to_excel`: the same as `append_row`. */
    method SaveToExcel(data: map<string, string>, columns: seq<string>, today: CalendarDate, saveOk: bool)
      returns (ok: bool)
      requires Valid()
      modifies this
      ensures Valid() && ok == saveOk
      ensures ok ==> present && rows == AppendedRows(old(rows), data, columns, today)
      ensures ok && !HeaderMissing(old(rows)) ==> rows == AppendedRowsAsWritten(old(rows), data, columns, today)
      ensures !ok ==> present == old(present) && rows == old(rows)
    {
      ok := AppendRow(data, columns, today, saveOk);
    }

    /**
     * `read_all_rows`: every row after the header, padded to the sheet's width, or
     * nothing for a missing file.
     */
    method ReadAllRows() returns (result: seq<Row>)
      requires Valid()
      ensures result == SheetDataRows(rows)
    {
      result := [];
      if !present || |rows| <= 1 {
        return;
      }
      var width := SheetWidth(rows);
      var i := 1;
      while i < |rows|
        invariant 1 <= i <= |rows|
        invariant |result| == i - 1
        invariant forall k :: 0 <= k < i - 1 ==> result[k] == PadRow(rows[k + 1], width)
      {
        result := result + [PadRow(rows[i], width)];
        i := i + 1;
      }
    }

    /**
     * `email_duplicate_within_days`: true at the first data row whose email matches
     * the query and whose date is missing, unparseable or within `days` of `now`.
     */
    method EmailDuplicateWithinDays(email: string, days: int, now: Moment) returns (dup: bool)
      requires Valid()
      ensures dup == RecentDuplicate(present, rows, email, days, now)
    {
      if !present || email == "" {
        return false;
      }
      var norm := NormalizeEmail(email);
      var i := 1;
      while i < |rows|
        invariant 1 <= i
        invariant forall k :: 1 <= k < i && k < |rows| ==> !DuplicateRow(rows[k], norm, days, now)
      {
        var hit := CheckRow(rows[i], norm, days, now);
        if hit {
          return true;
        }
        i := i + 1;
      }
      return false;
    }

    /** The body of the row loop: `continue` on another email, `return True` on a hit. */
    static method CheckRow(row: Row, norm: string, days: int, now: Moment) returns (hit: bool)
      ensures hit == DuplicateRow(row, norm, days, now)
    {
      var rowEmail := CellAt(row, 1);
      var rowDate := CellAt(row, 5);
      if !CellTruthy(rowEmail) || NormalizeEmail(CellText(rowEmail)) != norm {
        return false;
      }
      if !CellTruthy(rowDate) {
        return true;
      }
      var applied := AppliedMoment(rowDate);
      if applied.None? {
        return true;
      }
      return ElapsedDays(now, applied.value) <= days;
    }

    /**
     * `get_headers`: the cells of row 1 across the sheet's width (`ws[1]`), with `None`
     * shown as "", or nothing for a missing file.
     */
    method GetHeaders() returns (headers: seq<Cell>)
      requires Valid()
      ensures !present ==> headers == []
      ensures present ==> (|headers| == SheetWidth(rows)
        && forall j :: 0 <= j < |headers| ==> headers[j] == HeaderCell(CellAt(FirstRow(rows), j)))
    {
      if !present {
        return [];
      }
      var first := FirstRow(rows);
      var width := SheetWidth(rows);
      headers := [];
      var j := 0;
      while j < width
        invariant 0 <= j <= width
        invariant |headers| == j && forall m :: 0 <= m < j ==> headers[m] == HeaderCell(CellAt(first, m))
      {
        headers := headers + [HeaderCell(CellAt(first, j))];
        j := j + 1;
      }
    }

    /**
     * `update_headers`: raises `FileNotFoundError` for a missing file; otherwise
     * rewrites the sheet as the new header followed by every data row, as read,
     * padded with "" or truncated to the header's width. `saveOk` is whether
     * `new_wb.save` succeeds; when it raises, the file keeps its old contents.
     */
    method UpdateHeaders(newHeaders: seq<string>, saveOk: bool) returns (outcome: Outcome<string>)
      requires Valid()
      modifies this
      ensures Valid() && present == old(present)
      ensures !old(present) ==> outcome == Fail("FileNotFoundError") && rows == old(rows)
      ensures old(present) && !saveOk ==> outcome == Fail("save failed") && rows == old(rows)
      ensures old(present) && saveOk ==> outcome == Pass && rows == RebuiltRows(old(rows), newHeaders)
    {
      if !present {
        return Fail("FileNotFoundError");
      }
      var dataRows := SheetDataRows(rows);
      var n := |newHeaders|;
      var rebuilt := [TextRow(newHeaders)];
      var i := 0;
      while i < |dataRows|
        invariant 0 <= i <= |dataRows|
        invariant |rebuilt| == i + 1 && rebuilt[0] == TextRow(newHeaders)
        invariant forall k :: 0 <= k < i ==> rebuilt[k + 1] == FitRow(dataRows[k], n)
      {
        rebuilt := rebuilt + [FitRow(dataRows[i], n)];
        i := i + 1;
      }
      if !saveOk {
        return Fail("save failed");
      }
      assert rebuilt == [TextRow(newHeaders)] + FitAll(dataRows, n);
      rows := rebuilt;
      return Pass;
    }
  }
}
