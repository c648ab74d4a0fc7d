/**
  The spreadsheet reader's row handling: choosing a worksheet, and turning
  the rows of a worksheet (or of a cell range) into a list of rows or a list
  of records keyed by a header row.

  A worksheet is its grid of cell values, row by row; an empty cell holds
  `None`. Which rows a range such as `"A1:D20"` selects is the spreadsheet
  library's business: the readers take the rows they iterate over.
 */
module SheetReader {
  import opened Wrappers
  import opened Json

  type Row = seq<Value>

  /** A loaded workbook: its worksheets by name, and the active one. */
  datatype Workbook = Workbook(sheets: map<string, seq<Row>>, active: seq<Row>)

  // ---------------------------------------------------------------------
  // `_get_sheet` (spreadsheet_reader.py lines 7-15)
  // ---------------------------------------------------------------------

  /** The worksheet chosen, or the `ValueError` raised for an unknown name. */
  datatype SheetChoice = Sheet(rows: seq<Row>) | SheetNotFound(name: Value)

  /**
    A sheet name that is given (truthy) must be one of the workbook's sheet
    names and selects that sheet; no name selects the active sheet.
   */
  function GetSheet(workbook: Workbook, sheetName: Value): (r: SheetChoice)
    ensures !Truthy(sheetName) ==> r == Sheet(workbook.active)
    ensures Truthy(sheetName) && sheetName.Str? && sheetName.s in workbook.sheets ==>
      r == Sheet(workbook.sheets[sheetName.s])
    ensures r.SheetNotFound? <==>
      Truthy(sheetName) && !(sheetName.Str? && sheetName.s in workbook.sheets)
  {
    if Truthy(sheetName) then
      if sheetName.Str? && sheetName.s in workbook.sheets then Sheet(workbook.sheets[sheetName.s])
      else SheetNotFound(sheetName)
    else Sheet(workbook.active)
  }

  // ---------------------------------------------------------------------
  // `_read_as_list` (spreadsheet_reader.py lines 17-28)
  // ---------------------------------------------------------------------

  /** Some cell of the row holds a value. */
  predicate NonEmpty(row: Row) {
    exists i :: 0 <= i < |row| && row[i] != Null
  }

  /** The rows with at least one value, unchanged and in order. */
  function KeepNonEmpty(rows: seq<Row>): (r: seq<Row>)
    ensures |r| <= |rows|
  {
    if rows == [] then []
    else
      var last := rows[|rows| - 1];
      KeepNonEmpty(rows[..|rows| - 1]) + (if NonEmpty(last) then [last] else [])
  }

  /** Filtering keeps exactly the non-empty rows: no other row, and every such row. */
  lemma {:induction false} KeepNonEmptyMembers(rows: seq<Row>)
    ensures forall j :: 0 <= j < |KeepNonEmpty(rows)| ==> NonEmpty(KeepNonEmpty(rows)[j])
    ensures forall row :: row in KeepNonEmpty(rows) <==> row in rows && NonEmpty(row)
  {
    if rows != [] {
      var init := rows[..|rows| - 1];
      KeepNonEmptyMembers(init);
      assert rows == init + [rows[|rows| - 1]];
    }
  }

  /** Filtering works row by row, so it keeps the rows' order. */
  lemma {:induction false} KeepNonEmptyAppend(a: seq<Row>, b: seq<Row>)
    ensures KeepNonEmpty(a + b) == KeepNonEmpty(a) + KeepNonEmpty(b)
    decreases |b|
  {
    if b == [] {
      assert a + b == a;
    } else {
      var init := b[..|b| - 1];
      assert (a + b)[..|a + b| - 1] == a + init;
      KeepNonEmptyAppend(a, init);
    }
  }

  /** A grid without empty rows is returned as it is. */
  lemma {:induction false} KeepNonEmptyAll(rows: seq<Row>)
    requires forall k :: 0 <= k < |rows| ==> NonEmpty(rows[k])
    ensures KeepNonEmpty(rows) == rows
  {
    if rows != [] {
      KeepNonEmptyAll(rows[..|rows| - 1]);
    }
  }

  /** `_read_as_list(sheet, read_range)` over the rows it iterates. */
  method ReadAsList(rows: seq<Row>) returns (data: seq<Row>)
    ensures data == KeepNonEmpty(rows)
  {
    data := [];
    for k := 0 to |rows|
      invariant data == KeepNonEmpty(rows[..k])
    {
      var row := rows[k];
      assert rows[..k + 1][..k] == rows[..k];
      if NonEmpty(row) {
        data := data + [row];
      }
    }
    assert rows[..|rows|] == rows;
  }

  // ---------------------------------------------------------------------
  // `_read_as_dict` (spreadsheet_reader.py lines 30-59)
  // ---------------------------------------------------------------------

  /** The index of the first row with a value, or -1 when there is none. */
  function FirstNonEmpty(rows: seq<Row>): (r: int)
    ensures -1 <= r < |rows|
    ensures r == -1 <==> forall k :: 0 <= k < |rows| ==> !NonEmpty(rows[k])
    ensures 0 <= r ==> NonEmpty(rows[r]) && forall k :: 0 <= k < r ==> !NonEmpty(rows[k])
  {
    if rows == [] then -1
    else if NonEmpty(rows[0]) then 0
    else
      var k := FirstNonEmpty(rows[1..]);
      if k == -1 then -1 else k + 1
  }

  /** The header names: `str` of each cell of the header row (an empty cell gives "None"). */
  function HeaderText(row: Row, repr: Value -> string): (header: seq<string>)
    ensures |header| == |row|
    ensures forall i :: 0 <= i < |row| && row[i] == Null ==> header[i] == "None"
  {
    seq(|row|, i requires 0 <= i < |row| => PyStr(row[i], repr))
  }

  function Min(a: nat, b: nat): nat {
    if a < b then a else b
  }

  /**
    The dict built from the first `n` columns, entry by entry from left to
    right: its keys are exactly the first `n` header names.
   */
  function ZipColumns(header: seq<string>, row: Row, n: nat): (z: map<string, Value>)
    requires n <= |header| && n <= |row|
    ensures z.Keys == set i | 0 <= i < n :: header[i]
  {
    if n == 0 then map[]
    else ZipColumns(header, row, n - 1)[header[n - 1] := row[n - 1]]
  }

  /**
    A header name that does not occur again further right maps to the value
    in its own column: on a repeated name the column further right wins.
   */
  lemma {:induction false} ZipColumnsAt(header: seq<string>, row: Row, n: nat, i: nat)
    requires n <= |header| && n <= |row| && i < n
    requires forall j :: i < j < n ==> header[j] != header[i]
    ensures header[i] in ZipColumns(header, row, n) && ZipColumns(header, row, n)[header[i]] == row[i]
  {
    if i < n - 1 {
      ZipColumnsAt(header, row, n - 1, i);
    }
  }

  /**
    The record of a data row (spreadsheet_reader.py line 57): header names to the cells below
    them, over as many columns as both have; on a repeated header name the
    column further right wins.
   */
  function Zip(header: seq<string>, row: Row): (z: map<string, Value>)
    ensures z.Keys == set i | 0 <= i < |header| && i < |row| :: header[i]
  {
    ZipColumns(header, row, Min(|header|, |row|))
  }

  /** With distinct header names every column within both widths is kept under its own name. */
  lemma ZipDistinct(header: seq<string>, row: Row, i: nat)
    requires i < |header| && i < |row|
    requires forall j, k :: 0 <= j < k < |header| ==> header[j] != header[k]
    ensures header[i] in Zip(header, row) && Zip(header, row)[header[i]] == row[i]
  {
    ZipColumnsAt(header, row, Min(|header|, |row|), i);
  }

  /** The records of the non-empty rows among `rows`, in order. */
  function DictRows(header: seq<string>, rows: seq<Row>): (r: seq<map<string, Value>>)
    ensures |r| <= |rows|
  {
    if rows == [] then []
    else
      var last := rows[|rows| - 1];
      DictRows(header, rows[..|rows| - 1]) + (if NonEmpty(last) then [Zip(header, last)] else [])
  }

  /** Extending the rows by one extends the records by that row's record, if any. */
  lemma DictRowsStep(header: seq<string>, rows: seq<Row>, lo: nat, k: nat)
    requires lo <= k < |rows|
    ensures DictRows(header, rows[lo..k + 1]) ==
      DictRows(header, rows[lo..k]) + (if NonEmpty(rows[k]) then [Zip(header, rows[k])] else [])
  {
    assert rows[lo..k + 1][..k - lo] == rows[lo..k];
  }

  /**
    The records are the zipped rows that `_read_as_list` would return for
    the same rows: one record per non-empty row, in the same order.
   */
  lemma {:induction false} DictRowsAreZippedList(header: seq<string>, rows: seq<Row>)
    ensures |DictRows(header, rows)| == |KeepNonEmpty(rows)|
    ensures forall j :: 0 <= j < |KeepNonEmpty(rows)| ==>
      DictRows(header, rows)[j] == Zip(header, KeepNonEmpty(rows)[j])
  {
    if rows != [] {
      DictRowsAreZippedList(header, rows[..|rows| - 1]);
    }
  }

  /**
    What `_read_as_dict` returns: no records when no row has a value;
    otherwise the first such row is the header and every later non-empty
    row gives a record.
   */
  function Records(rows: seq<Row>, repr: Value -> string): (r: seq<map<string, Value>>)
    ensures (forall k :: 0 <= k < |rows| ==> !NonEmpty(rows[k])) ==> r == []
    ensures |r| < |rows| || r == []
  {
    var h := FirstNonEmpty(rows);
    if h == -1 then [] else DictRows(HeaderText(rows[h], repr), rows[h + 1..])
  }

  /**
    Below the header, the records are the header zipped with each row
    `_read_as_list` would return for the rows after it, in order; so there
    are never more records than rows after the header.
   */
  lemma RecordsAfterHeader(rows: seq<Row>, repr: Value -> string)
    requires FirstNonEmpty(rows) >= 0
    ensures var h := FirstNonEmpty(rows);
      var below := KeepNonEmpty(rows[h + 1..]);
      && |Records(rows, repr)| == |below| <= |rows| - h - 1
      && forall j :: 0 <= j < |below| ==>
           Records(rows, repr)[j] == Zip(HeaderText(rows[h], repr), below[j])
  {
    var h := FirstNonEmpty(rows);
    DictRowsAreZippedList(HeaderText(rows[h], repr), rows[h + 1..]);
  }

  /** `_read_as_dict(sheet, read_range)` over the rows it iterates. */
  method ReadAsDict(rows: seq<Row>, repr: Value -> string) returns (data: seq<map<string, Value>>)
    ensures data == Records(rows, repr)
  {
    data := [];
    var header: Option<seq<string>> := None;
    var next := 0;
    while header.None?
      invariant 0 <= next <= |rows|
      invariant header.None? ==> forall k :: 0 <= k < next ==> !NonEmpty(rows[k])
      invariant header.Some? ==>
        0 < next && FirstNonEmpty(rows) == next - 1 &&
        header.value == HeaderText(rows[next - 1], repr)
      decreases |rows| - next, header.None?
    {
      if next == |rows| {
        return [];
      }
      var firstRow := rows[next];
      next := next + 1;
      if NonEmpty(firstRow) {
        header := Some(HeaderText(firstRow, repr));
      }
    }
    for k := next to |rows|
      invariant data == DictRows(header.value, rows[next..k])
    {
      var row := rows[k];
      DictRowsStep(header.value, rows, next, k);
      if NonEmpty(row) {
        data := data + [Zip(header.value, row)];
      }
    }
    assert rows[next..|rows|] == rows[next..];
  }
}
