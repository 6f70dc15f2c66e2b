/** Row and column sizing requests for the simpler report sheet (google_apis/spreadsheet_resize.py). */
module SpreadsheetResize {
  import opened SheetsApi

  function RequestResizeSheetRows(sheetId: int, rowStart: int, rowEnd: int, height: int): Request {
    UpdateDimensionProperties(DimensionRange(sheetId, Rows, rowStart, rowEnd), height, "pixelSize")
  }

  function RequestResizeSheetColumns(sheetId: int, colIndex: int, width: int): Request {
    UpdateDimensionProperties(DimensionRange(sheetId, Columns, colIndex, colIndex + 1), width, "pixelSize")
  }

  /** Bold text on row 0 only; unlike `grid_range`, the range names no start column. */
  function RequestMakeFirstRowBold(sheetId: int): Request {
    RepeatCell(map["sheetId" := sheetId, "startRowIndex" := 0, "endRowIndex" := 1], TextBold,
               "userEnteredFormat.textFormat.bold")
  }

  /**
   * `resize_sheet` without the service call: the bold first row, the heights
   * of rows [1, numRows), then one resize [c, c + 1) per image column and
   * then per source column, in order and with repeats kept.
   */
  method ResizeSheet(sheetId: int, numRows: int, imageColumns: seq<int>, sourceColumns: seq<int>,
                     width: int, height: int) returns (requests: seq<Request>)
    ensures |requests| == 2 + |imageColumns| + |sourceColumns|
    ensures requests[0] == RequestMakeFirstRowBold(sheetId)
    ensures requests[1] == UpdateDimensionProperties(DimensionRange(sheetId, Rows, 1, numRows), height, "pixelSize")
    ensures forall k :: 0 <= k < |imageColumns| + |sourceColumns| ==>
              requests[2 + k] == UpdateDimensionProperties(
                DimensionRange(sheetId, Columns, (imageColumns + sourceColumns)[k], (imageColumns + sourceColumns)[k] + 1),
                width, "pixelSize")
  {
    requests := [RequestMakeFirstRowBold(sheetId), RequestResizeSheetRows(sheetId, 1, numRows, height)];
    var columns := imageColumns + sourceColumns;
    for i := 0 to |columns|
      invariant |requests| == 2 + i
      invariant requests[0] == RequestMakeFirstRowBold(sheetId)
      invariant requests[1] == RequestResizeSheetRows(sheetId, 1, numRows, height)
      invariant forall k :: 0 <= k < i ==> requests[2 + k] == RequestResizeSheetColumns(sheetId, columns[k], width)
    {
      requests := requests + [RequestResizeSheetColumns(sheetId, columns[i], width)];
    }
  }
}
