/** Formatting requests for the report sheet (google_apis/sheet_styling.py). */
module SheetStyling {
  import opened Wrappers
  import opened SheetsApi
  import PyDict
  import Columns

  /**
   * `grid_range`: the sheet and both start indices are always present; an
   * end index is present exactly when one is given.
   */
  function GridRangeOf(sheetId: int, startRow: int := 0, endRow: Option<int> := None,
                       startCol: int := 0, endCol: Option<int> := None): (r: GridRange)
    ensures "sheetId" in r && r["sheetId"] == sheetId
    ensures "startRowIndex" in r && r["startRowIndex"] == startRow
    ensures "startColumnIndex" in r && r["startColumnIndex"] == startCol
    ensures ("endRowIndex" in r <==> endRow.Some?) && (endRow.Some? ==> r["endRowIndex"] == endRow.value)
    ensures ("endColumnIndex" in r <==> endCol.Some?) && (endCol.Some? ==> r["endColumnIndex"] == endCol.value)
    ensures r.Keys <= {"sheetId", "startRowIndex", "startColumnIndex", "endRowIndex", "endColumnIndex"}
  {
    var base := map["sheetId" := sheetId, "startRowIndex" := startRow, "startColumnIndex" := startCol];
    var withRowEnd := if endRow.Some? then base["endRowIndex" := endRow.value] else base;
    if endCol.Some? then withRowEnd["endColumnIndex" := endCol.value] else withRowEnd
  }

  function RequestResize(range: DimensionRange, pixelSize: int): Request {
    UpdateDimensionProperties(range, pixelSize, "pixelSize")
  }

  function RequestResizeRows(sheetId: int, rowStart: int, rowEnd: int, height: int): Request {
    RequestResize(DimensionRange(sheetId, Rows, rowStart, rowEnd), height)
  }

  function RequestResizeColumns(sheetId: int, colIndex: int, width: int): Request {
    RequestResize(DimensionRange(sheetId, Columns, colIndex, colIndex + 1), width)
  }

  function RequestCellFormat(range: GridRange, format: CellFormat, fields: string): Request {
    RepeatCell(range, format, fields)
  }

  function RequestBold(sheetId: int, startRow: int := 0, endRow: Option<int> := None,
                       startCol: int := 0, endCol: Option<int> := None): Request {
    RequestCellFormat(GridRangeOf(sheetId, startRow, endRow, startCol, endCol), TextBold,
                      "userEnteredFormat.textFormat.bold")
  }

  function RequestWrapCells(sheetId: int, startRow: int := 0, endRow: Option<int> := None,
                            startCol: int := 0, endCol: Option<int> := None): Request {
    RequestCellFormat(GridRangeOf(sheetId, startRow, endRow, startCol, endCol), WrapStrategy("WRAP"),
                      "userEnteredFormat.wrapStrategy")
  }

  function RequestHorizontalCenter(sheetId: int, startRow: int := 0, endRow: Option<int> := None,
                                   startCol: int := 0, endCol: Option<int> := None): Request {
    RequestCellFormat(GridRangeOf(sheetId, startRow, endRow, startCol, endCol), HorizontalAlignment("CENTER"),
                      "userEnteredFormat.horizontalAlignment")
  }

  function RequestVerticalMiddle(sheetId: int, startRow: int := 0, endRow: Option<int> := None,
                                 startCol: int := 0, endCol: Option<int> := None): Request {
    RequestCellFormat(GridRangeOf(sheetId, startRow, endRow, startCol, endCol), VerticalAlignment("MIDDLE"),
                      "userEnteredFormat.verticalAlignment")
  }

  /** A thick black border on the left of column `beforeCol`, over rows [startRow, endRow). */
  function RequestVerticalBorder(sheetId: int, beforeCol: int, startRow: int := 0, endRow: Option<int> := None): Request {
    UpdateBorders(GridRangeOf(sheetId, startRow, endRow, beforeCol, Some(beforeCol + 1)),
                  Border("SOLID_THICK", Color(0, 0, 0)))
  }

  /** The five requests every styled sheet starts with. */
  function BaseRequests(sheetId: int, numRows: int, height: int): seq<Request> {
    [ RequestBold(sheetId, 0, Some(1)),
      RequestHorizontalCenter(sheetId),
      RequestVerticalMiddle(sheetId),
      RequestWrapCells(sheetId),
      RequestResizeRows(sheetId, 1, numRows, height) ]
  }

  function ColumnResizes(sheetId: int, indices: seq<nat>, width: int): (r: seq<Request>)
    ensures |r| == |indices|
  {
    seq(|indices|, k requires 0 <= k < |indices| => RequestResizeColumns(sheetId, indices[k], width))
  }

  predicate IndexedWidths(widths: PyDict.Dict<string, Option<int>>, indices: map<string, seq<nat>>) {
    forall i :: 0 <= i < |widths| ==> widths[i].0 in indices
  }

  /** The column resizes for the width table, in table order; a missing width is skipped. */
  function WidthRequests(sheetId: int, widths: PyDict.Dict<string, Option<int>>, indices: map<string, seq<nat>>): seq<Request>
    requires IndexedWidths(widths, indices)
    decreases |widths|
  {
    if widths == [] then []
    else
      var last := widths[|widths| - 1];
      WidthRequests(sheetId, widths[..|widths| - 1], indices)
        + (if last.1.None? then [] else ColumnResizes(sheetId, indices[last.0], last.1.value))
  }

  function BorderRequests(sheetId: int, matchIndices: seq<nat>): (r: seq<Request>)
    ensures |r| == |matchIndices|
  {
    seq(|matchIndices|, k requires 0 <= k < |matchIndices| => RequestVerticalBorder(sheetId, matchIndices[k]))
  }

  /** How many column resizes a width table asks for: one per position of every kind that has a width. */
  function ResizeCount(widths: PyDict.Dict<string, Option<int>>, indices: map<string, seq<nat>>): nat
    requires IndexedWidths(widths, indices)
    decreases |widths|
  {
    if widths == [] then 0
    else (if widths[0].1.Some? then |indices[widths[0].0]| else 0) + ResizeCount(widths[1..], indices)
  }

  lemma {:induction false} WidthRequestsCount(sheetId: int, widths: PyDict.Dict<string, Option<int>>, indices: map<string, seq<nat>>)
    requires IndexedWidths(widths, indices)
    ensures |WidthRequests(sheetId, widths, indices)| == ResizeCount(widths, indices)
    decreases |widths|
  {
    if widths != [] {
      var n := |widths| - 1;
      WidthRequestsCount(sheetId, widths[..n], indices);
      ResizeCountSplit(widths[..n], [widths[n]], indices);
      assert widths[..n] + [widths[n]] == widths;
    }
  }

  lemma {:induction false} ResizeCountSplit(a: PyDict.Dict<string, Option<int>>, b: PyDict.Dict<string, Option<int>>, indices: map<string, seq<nat>>)
    requires IndexedWidths(a, indices) && IndexedWidths(b, indices)
    ensures IndexedWidths(a + b, indices)
    ensures ResizeCount(a + b, indices) == ResizeCount(a, indices) + ResizeCount(b, indices)
    decreases |a|
  {
    if a != [] {
      ResizeCountSplit(a[1..], b, indices);
      assert (a + b)[1..] == a[1..] + b;
    } else {
      assert a + b == b;
    }
  }

  /**
   * Every width request is a one-column resize [c, c + 1) of a column `c`
   * listed for some kind that has a width, at that kind's width.
   */
  lemma {:induction false} WidthRequestsAreColumnResizes(sheetId: int, widths: PyDict.Dict<string, Option<int>>,
                                                         indices: map<string, seq<nat>>, k: nat)
    requires IndexedWidths(widths, indices)
    requires k < |WidthRequests(sheetId, widths, indices)|
    ensures exists i, c :: 0 <= i < |widths| && widths[i].1.Some? && c in indices[widths[i].0]
                           && WidthRequests(sheetId, widths, indices)[k] == RequestResizeColumns(sheetId, c, widths[i].1.value)
    decreases |widths|
  {
    var n := |widths| - 1;
    var front := WidthRequests(sheetId, widths[..n], indices);
    if k < |front| {
      WidthRequestsAreColumnResizes(sheetId, widths[..n], indices, k);
      var i, c :| 0 <= i < n && widths[..n][i].1.Some? && c in indices[widths[..n][i].0]
                  && front[k] == RequestResizeColumns(sheetId, c, widths[..n][i].1.value);
      assert widths[i] == widths[..n][i];
    } else {
      var c := indices[widths[n].0][k - |front|];
      assert WidthRequests(sheetId, widths, indices)[k] == RequestResizeColumns(sheetId, c, widths[n].1.value);
    }
  }

  /**
   * `style_sheet` without the service call: bold header row, centring,
   * middle alignment, wrapping and the row heights, then one column resize
   * per listed column of every kind with a width, then a border before
   * every "match" column.
   */
  method StyleSheet(sheetId: int, numRows: int, columns: seq<string>) returns (requests: seq<Request>)
    ensures var (indices, table) := Columns.MakeStyleInfo(columns);
            IndexedWidths(table.width, indices)
            && requests == BaseRequests(sheetId, numRows, table.height)
                           + WidthRequests(sheetId, table.width, indices)
                           + BorderRequests(sheetId, indices[Columns.MatchColumn])
  {
    var (indices, table) := Columns.MakeStyleInfo(columns);
    assert IndexedWidths(table.width, indices) by {
      forall i | 0 <= i < |table.width| ensures table.width[i].0 in indices {
        assert PyDict.Keys(table.width)[i] == table.width[i].0;
      }
    }
    requests := BaseRequests(sheetId, numRows, table.height);
    var resizes := AppendWidthRequests(sheetId, table.width, indices);
    requests := requests + resizes;
    var borders := AppendBorderRequests(sheetId, indices[Columns.MatchColumn]);
    requests := requests + borders;
  }

  /** The nested loop of `style_sheet` over the width table. */
  method AppendWidthRequests(sheetId: int, widths: PyDict.Dict<string, Option<int>>, indices: map<string, seq<nat>>)
    returns (requests: seq<Request>)
    requires IndexedWidths(widths, indices)
    ensures requests == WidthRequests(sheetId, widths, indices)
  {
    requests := [];
    for i := 0 to |widths|
      invariant requests == WidthRequests(sheetId, widths[..i], indices)
    {
      assert widths[..i + 1][..i] == widths[..i];
      var (columnType, width) := widths[i];
      if width.None? {
        continue;
      }
      var columnIndices := indices[columnType];
      ghost var before := requests;
      for j := 0 to |columnIndices|
        invariant requests == before + ColumnResizes(sheetId, columnIndices[..j], width.value)
      {
        requests := requests + [RequestResizeColumns(sheetId, columnIndices[j], width.value)];
        assert ColumnResizes(sheetId, columnIndices[..j + 1], width.value)
            == ColumnResizes(sheetId, columnIndices[..j], width.value) + [RequestResizeColumns(sheetId, columnIndices[j], width.value)];
      }
      assert columnIndices[..|columnIndices|] == columnIndices;
    }
    assert widths[..|widths|] == widths;
  }

  /** The loop of `style_sheet` adding a border before every match column. */
  method AppendBorderRequests(sheetId: int, matchIndices: seq<nat>) returns (requests: seq<Request>)
    ensures requests == BorderRequests(sheetId, matchIndices)
  {
    requests := [];
    for j := 0 to |matchIndices|
      invariant requests == BorderRequests(sheetId, matchIndices[..j])
    {
      requests := requests + [RequestVerticalBorder(sheetId, matchIndices[j])];
      assert BorderRequests(sheetId, matchIndices[..j + 1])
          == BorderRequests(sheetId, matchIndices[..j]) + [RequestVerticalBorder(sheetId, matchIndices[j])];
    }
    assert matchIndices[..|matchIndices|] == matchIndices;
  }

  /** The request count: five, plus the column resizes, plus the match borders. */
  lemma StyleSheetRequestCount(sheetId: int, numRows: int, columns: seq<string>)
    ensures var (indices, table) := Columns.MakeStyleInfo(columns);
            IndexedWidths(table.width, indices)
            && |BaseRequests(sheetId, numRows, table.height) + WidthRequests(sheetId, table.width, indices)
                + BorderRequests(sheetId, indices[Columns.MatchColumn])|
               == 5 + ResizeCount(table.width, indices) + |Columns.FindColumnIndices(columns, Columns.MatchColumn)|
  {
    var (indices, table) := Columns.MakeStyleInfo(columns);
    assert IndexedWidths(table.width, indices) by {
      forall i | 0 <= i < |table.width| ensures table.width[i].0 in indices {
        assert PyDict.Keys(table.width)[i] == table.width[i].0;
      }
    }
    WidthRequestsCount(sheetId, table.width, indices);
  }
}
