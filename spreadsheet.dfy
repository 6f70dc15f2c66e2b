/** Turning a list of dicts into sheet rows, and two unescaped formulas (google_apis/spreadsheet.py). */
module Spreadsheet {
  import opened Wrappers
  import opened Text
  import opened PyDict
  import Columns
  import SheetFormulas

  /**
   * One data row: a cell per column, holding the dict's value for that key
   * (the first pair with it), or `""` where the dict has no such key.
   */
  function RowFor(d: Dict<string, string>, columns: seq<string>): (row: seq<string>)
    ensures |row| == |columns|
    ensures forall j :: 0 <= j < |columns| && columns[j] in Keys(d) ==> row[j] == d[IndexOf(d, columns[j])].1
    ensures forall j :: 0 <= j < |columns| && columns[j] !in Keys(d) ==> row[j] == ""
  {
    var row := seq(|columns|, j requires 0 <= j < |columns| => Get(d, columns[j], ""));
    forall j | 0 <= j < |columns| {
      GetIsFirst(d, columns[j], "");
    }
    row
  }

  /**
   * `convert_list_of_dicts`: a header row of the first dict's keys, then one
   * row per dict in order (keys the first dict lacks are dropped), and the
   * positions of the columns whose lower-cased name contains "image" and
   * "source".
   */
  method ConvertListOfDicts(dicts: seq<Dict<string, string>>)
    returns (rows: seq<seq<string>>, imageColumns: seq<nat>, sourceColumns: seq<nat>)
    ensures dicts == [] ==> rows == [] && imageColumns == [] && sourceColumns == []
    ensures dicts != [] ==>
      && |rows| == |dicts| + 1
      && rows[0] == Keys(dicts[0])
      && (forall i :: 0 <= i < |dicts| ==> rows[i + 1] == RowFor(dicts[i], Keys(dicts[0])))
      && imageColumns == Columns.FindColumnIndices(Keys(dicts[0]), "image")
      && sourceColumns == Columns.FindColumnIndices(Keys(dicts[0]), "source")
  {
    if dicts == [] {
      return [], [], [];
    }
    var columns := Keys(dicts[0]);
    rows := AppendRows([columns], dicts, columns);
    imageColumns := Columns.FindColumnIndices(columns, "image");
    sourceColumns := Columns.FindColumnIndices(columns, "source");
  }

  /** The loop of `convert_list_of_dicts`: one row per dict, appended in order. */
  method AppendRows(start: seq<seq<string>>, dicts: seq<Dict<string, string>>, columns: seq<string>)
    returns (rows: seq<seq<string>>)
    ensures |rows| == |start| + |dicts| && rows[..|start|] == start
    ensures forall i :: 0 <= i < |dicts| ==> rows[|start| + i] == RowFor(dicts[i], columns)
  {
    rows := start;
    for i := 0 to |dicts|
      invariant |rows| == |start| + i && rows[..|start|] == start
      invariant forall k :: 0 <= k < i ==> rows[|start| + k] == RowFor(dicts[k], columns)
    {
      rows := rows + [RowFor(dicts[i], columns)];
    }
  }

  /** `insert_image` */
  function InsertImage(imageUrl: Option<string>): (r: string)
    ensures r == "none found" <==> imageUrl.None?
  {
    if imageUrl.None? then "none found"
    else
      var r := "=IMAGE(\"" + imageUrl.value + "\")";
      assert r[0] == '=';
      r
  }

  /** `insert_hyperlink`: like `hyperlink`, but nothing is escaped. */
  function InsertHyperlink(url: Option<string>, text: Option<string>): (r: string)
    ensures r == "not provided" <==> url.None? || text.None?
  {
    if url.None? || text.None? then "not provided"
    else
      var r := "=HYPERLINK(\"" + url.value + "\", \"" + text.value + "\")";
      assert r[0] == '=';
      r
  }

  /** `insert_image` and `image_link` write the same cell. */
  lemma InsertImageIsImageLink(imageUrl: Option<string>)
    ensures InsertImage(imageUrl) == SheetFormulas.ImageLink(imageUrl)
  {
  }

  /** Without quotes in either part, the unescaped and the escaped hyperlink write the same cell. */
  lemma InsertHyperlinkAgreesWhenQuoteFree(url: Option<string>, text: Option<string>)
    requires url.Some? ==> SheetFormulas.QuoteFree(url.value)
    requires text.Some? ==> SheetFormulas.QuoteFree(text.value)
    ensures InsertHyperlink(url, text) == SheetFormulas.Hyperlink(url, text)
  {
    if url.Some? && text.Some? {
      SheetFormulas.EscapeQuoteFree(url.value);
      SheetFormulas.EscapeQuoteFree(text.value);
    }
  }
}
