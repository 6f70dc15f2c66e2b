/**
 * The shapes of the Google Sheets `batchUpdate` requests that the styling
 * code builds as nested dicts. A grid range stays a dict, because which of
 * its end keys are present carries meaning (an absent end is unbounded).
 */
module SheetsApi {

  datatype Dimension = Rows | Columns

  /** A half-open range [startIndex, endIndex) of rows or of columns. */
  datatype DimensionRange = DimensionRange(sheetId: int, dimension: Dimension, startIndex: int, endIndex: int)

  type GridRange = map<string, int>

  datatype CellFormat =
    | TextBold
    | HorizontalAlignment(horizontal: string)
    | VerticalAlignment(vertical: string)
    | WrapStrategy(strategy: string)

  datatype Color = Color(red: int, green: int, blue: int)

  datatype Border = Border(style: string, color: Color)

  datatype Request =
    | RepeatCell(range: GridRange, cell: CellFormat, fields: string)
    | UpdateDimensionProperties(dimensionRange: DimensionRange, pixelSize: int, fields: string)
    | UpdateBorders(borderRange: GridRange, left: Border)
}
