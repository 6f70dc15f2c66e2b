/**
 * Reading the report sheet back (licensing/attribution.py): the URL inside
 * an `=IMAGE(...)` or `=HYPERLINK(...)` cell, the attributions of the data
 * rows, and the attribution of an image's best match.
 */
module Attributions {
  import opened Wrappers
  import opened Text
  import SheetFormulas
  import Spreadsheet
  import Licenses
  import Images
  import StableSort
  import SheetRows

  /** `["\']` */
  predicate IsQuote(c: char) {
    c == '"' || c == '\''
  }

  /** `s` starts with `head`, ignoring the case of ASCII letters (`re.IGNORECASE`). */
  predicate HeadMatches(s: string, head: string) {
    |s| >= |head| && Lower(s[..|head|]) == Lower(head)
  }

  /** No line break in `s[start..e]`, which is not empty: what `(.+?)` may cover. */
  predicate Coverable(s: string, start: nat, e: nat) {
    start < e <= |s| && forall m :: start <= m < e ==> s[m] != '\n'
  }

  /**
   * The lazy group `(.+?)` from `start`, widened one character at a time from
   * `s[start..i]`, until `close` matches right after it; `None` once a line
   * break or the end of `s` is reached first.
   */
  function LazyGroupEnd(s: string, start: nat, close: (string, nat) -> bool, i: nat): (r: Option<nat>)
    requires start < i <= |s|
    requires forall m :: start <= m < i ==> s[m] != '\n'
    ensures r.Some? ==> i <= r.value && Coverable(s, start, r.value) && close(s, r.value)
                        && forall m :: i <= m < r.value ==> !close(s, m)
    ensures r.None? ==> forall e :: i <= e && Coverable(s, start, e) ==> !close(s, e)
    decreases |s| - i
  {
    if close(s, i) then Some(i)
    else if i == |s| || s[i] == '\n' then None
    else LazyGroupEnd(s, start, close, i + 1)
  }

  /**
   * The end of the shortest non-empty group from `start`, without a line break,
   * that `close` follows; `None` when there is none.
   */
  function LazyGroup(s: string, start: nat, close: (string, nat) -> bool): (r: Option<nat>)
    ensures r.Some? ==> Coverable(s, start, r.value) && close(s, r.value)
                        && forall m :: start < m < r.value ==> !close(s, m)
    ensures r.None? ==> forall e :: Coverable(s, start, e) ==> !close(s, e)
  {
    if start >= |s| || s[start] == '\n' then None else LazyGroupEnd(s, start, close, start + 1)
  }

  /** `["\']\)` at position `i` */
  predicate ImageClose(s: string, i: nat) {
    i + 1 < |s| && IsQuote(s[i]) && s[i + 1] == ')'
  }

  /** The first position from `i` that is not white space (`\s*`). */
  function SkipSpaces(s: string, i: nat): (j: nat)
    requires i <= |s|
    ensures i <= j <= |s| && (j < |s| ==> !IsSpace(s[j]))
    ensures forall m :: i <= m < j ==> IsSpace(s[m])
    decreases |s| - i
  {
    if i < |s| && IsSpace(s[i]) then SkipSpaces(s, i + 1) else i
  }

  /** `["\']\s*,` at position `i` */
  predicate HyperlinkClose(s: string, i: nat) {
    i < |s| && IsQuote(s[i]) && SkipSpaces(s, i + 1) < |s| && s[SkipSpaces(s, i + 1)] == ','
  }

  const ImageHead := "=IMAGE("
  const HyperlinkHead := "=HYPERLINK("

  /**
   * `re.match(head + r'["\'](.+?)' + close, s, re.IGNORECASE).group(1)`:
   * the head, a quote, then the shortest group that `close` follows.
   */
  function FormulaArgument(s: string, head: string, close: (string, nat) -> bool): (r: Option<string>)
    ensures r.Some? ==> HeadMatches(s, head) && |s| > |head| && IsQuote(s[|head|])
    ensures r.Some? ==> |r.value| > 0 && '\n' !in r.value
  {
    if !HeadMatches(s, head) || |s| <= |head| || !IsQuote(s[|head|]) then None
    else
      match LazyGroup(s, |head| + 1, close)
      case None => None
      case Some(e) =>
        assert forall m :: |head| + 1 <= m < e ==> s[m] != '\n';
        Some(s[|head| + 1..e])
  }

  /** `extract_image_url`: the URL of an `=IMAGE("...")` cell, after `strip()`; `None` for anything else. */
  function ExtractImageUrl(cell: Option<string>): (r: Option<string>)
    ensures cell.None? ==> r.None?
    ensures r.Some? ==> HeadMatches(Strip(cell.value), ImageHead)
  {
    if cell.None? then None else FormulaArgument(Strip(cell.value), ImageHead, ImageClose)
  }

  /** `extract_hyperlink`: the URL of an `=HYPERLINK("...", ...)` cell, after `strip()`; `None` for anything else. */
  function ExtractHyperlink(cell: Option<string>): (r: Option<string>)
    ensures cell.None? ==> r.None?
    ensures r.Some? ==> HeadMatches(Strip(cell.value), HyperlinkHead)
  {
    if cell.None? then None else FormulaArgument(Strip(cell.value), HyperlinkHead, HyperlinkClose)
  }

  /** A URL the formulas carry unchanged and the patterns read back whole. */
  predicate PlainUrl(u: string) {
    |u| > 0 && forall i :: 0 <= i < |u| ==> !IsQuote(u[i]) && u[i] != '\n'
  }

  /** When nothing before `e` closes the group and `e` does, the lazy group ends at `e`. */
  lemma {:induction false} LazyGroupStopsAt(s: string, start: nat, close: (string, nat) -> bool, i: nat, e: nat)
    requires start < i <= e <= |s| && close(s, e)
    requires forall m :: start <= m < e ==> s[m] != '\n'
    requires forall m :: i <= m < e ==> !close(s, m)
    ensures LazyGroupEnd(s, start, close, i) == Some(e)
    decreases e - i
  {
    if i < e {
      LazyGroupStopsAt(s, start, close, i + 1, e);
    }
  }

  /** `head + '"' + u + tail`, with the group ending right after `u`, gives back `u`. */
  lemma ArgumentOfPlainUrl(head: string, u: string, tail: string, close: (string, nat) -> bool)
    requires PlainUrl(u)
    requires var s := head + "\"" + u + tail; close(s, |head| + 1 + |u|)
    requires forall m :: |head| + 1 < m < |head| + 1 + |u| ==> !close(head + "\"" + u + tail, m)
    ensures FormulaArgument(head + "\"" + u + tail, head, close) == Some(u)
  {
    var s := head + "\"" + u + tail;
    var start := |head| + 1;
    assert s[..|head|] == head;
    assert s[|head|] == '"';
    forall m | start <= m < start + |u| ensures s[m] != '\n' {
      assert s[m] == u[m - start];
    }
    LazyGroupStopsAt(s, start, close, start + 1, start + |u|);
    assert s[start..start + |u|] == u;
  }

  /** No position inside a plain URL closes a group: the URL has no quotes. */
  lemma NoCloseInside(head: string, u: string, tail: string)
    requires PlainUrl(u)
    ensures var s := head + "\"" + u + tail;
            forall m :: |head| + 1 <= m < |head| + 1 + |u| ==> !IsQuote(s[m])
  {
    var s := head + "\"" + u + tail;
    forall m | |head| + 1 <= m < |head| + 1 + |u| ensures !IsQuote(s[m]) {
      assert s[m] == u[m - |head| - 1];
    }
  }

  /** Reading back the cell `image_link` writes gives its URL; a missing URL gives `None`. */
  lemma ImageLinkRoundTrip(url: Option<string>)
    requires url.Some? ==> PlainUrl(url.value)
    ensures ExtractImageUrl(Some(SheetFormulas.ImageLink(url))) == url
  {
    var cell := SheetFormulas.ImageLink(url);
    if url.Some? {
      var u := url.value;
      var s := ImageHead + "\"" + u + "\")";
      assert cell == s;
      StripUnchanged(s);
      NoCloseInside(ImageHead, u, "\")");
      var e := |ImageHead| + 1 + |u|;
      assert s[e] == '"' && s[e + 1] == ')';
      ArgumentOfPlainUrl(ImageHead, u, "\")", ImageClose);
    } else {
      assert cell == "none found";
      StripUnchanged(cell);
      assert !HeadMatches(cell, ImageHead) by {
        assert Lower(cell[..7])[0] == 'n';
      }
    }
  }

  /** An empty URL is lost: `(.+?)` needs at least one character. */
  lemma EmptyImageUrlLost()
    ensures ExtractImageUrl(Some(SheetFormulas.ImageLink(Some("")))) == None
  {
    var s := SheetFormulas.ImageLink(Some(""));
    assert s == "=IMAGE(\"\")";
    StripUnchanged(s);
    assert s[..7] == ImageHead;
    assert !ImageClose(s, 9);
  }

  /** After `u` in a hyperlink formula comes `", "`: a quote, then a comma. */
  lemma HyperlinkClosesAfter(u: string, rest: string)
    ensures var s := HyperlinkHead + "\"" + u + "\", " + rest;
            HyperlinkClose(s, |HyperlinkHead| + 1 + |u|)
  {
    var s := HyperlinkHead + "\"" + u + "\", " + rest;
    var e := |HyperlinkHead| + 1 + |u|;
    assert s[e] == '"' && s[e + 1] == ',';
    assert SkipSpaces(s, e + 1) == e + 1;
  }

  /** Reading back the cell `hyperlink` writes gives its URL, whatever the link text. */
  lemma HyperlinkRoundTrip(u: string, text: string)
    requires PlainUrl(u)
    ensures ExtractHyperlink(Some(SheetFormulas.Hyperlink(Some(u), Some(text)))) == Some(u)
  {
    var rest := "\"" + SheetFormulas.Escape(text) + "\")";
    HyperlinkShape(u, text);
    StripUnchanged(HyperlinkHead + "\"" + u + "\", " + rest);
    HyperlinkRoundTripCell(u, rest);
  }

  /** A plain URL passes through `safe_hyperlink` unescaped. */
  lemma HyperlinkShape(u: string, text: string)
    requires PlainUrl(u)
    ensures SheetFormulas.Hyperlink(Some(u), Some(text))
            == HyperlinkHead + "\"" + u + "\", " + ("\"" + SheetFormulas.Escape(text) + "\")")
  {
    SheetFormulas.EscapeQuoteFree(u);
  }

  /** The same for `insert_hyperlink`, which does not escape the text. */
  lemma InsertHyperlinkRoundTrip(u: string, text: string)
    requires PlainUrl(u)
    ensures ExtractHyperlink(Some(Spreadsheet.InsertHyperlink(Some(u), Some(text)))) == Some(u)
  {
    var rest := "\"" + text + "\")";
    var cell := Spreadsheet.InsertHyperlink(Some(u), Some(text));
    var s := HyperlinkHead + "\"" + u + "\", " + rest;
    assert cell == s;
    StripUnchanged(s);
    HyperlinkRoundTripCell(u, rest);
  }

  lemma HyperlinkRoundTripCell(u: string, rest: string)
    requires PlainUrl(u)
    ensures FormulaArgument(HyperlinkHead + "\"" + u + "\", " + rest, HyperlinkHead, HyperlinkClose) == Some(u)
  {
    var tail := "\", " + rest;
    var s := HyperlinkHead + "\"" + u + tail;
    assert s == HyperlinkHead + "\"" + u + "\", " + rest;
    HyperlinkClosesAfter(u, rest);
    NoCloseInside(HyperlinkHead, u, tail);
    ArgumentOfPlainUrl(HyperlinkHead, u, tail, HyperlinkClose);
  }

  /** The placeholder `hyperlink` writes for a missing part holds no URL. */
  lemma PlaceholderHasNoLink()
    ensures ExtractHyperlink(Some("not provided")) == None
  {
    var s := "not provided";
    StripUnchanged(s);
    assert Lower(s[..11])[0] == 'n';
  }

  /** An attribution: the image, the page it was found on, and the licence URL. */
  datatype Attribution = Attribution(imageUrl: Option<string>, pageUrl: Option<string>, licenseUrl: Option<string>)

  const IndexError := "IndexError: list index out of range"

  /** The attribution of one data row: the image in column 0, the licence in column 5, the page in column 7. */
  function RowAttribution(row: seq<string>): Attribution
    requires |row| >= 8
  {
    Attribution(ExtractImageUrl(Some(row[0])), ExtractHyperlink(Some(row[7])), ExtractHyperlink(Some(row[5])))
  }

  /**
   * The loop over the data rows: a row whose first cell is empty is skipped;
   * an empty row, or one too short to have column 7, raises `IndexError`.
   */
  function RowsAttributions(rows: seq<seq<string>>): Result<seq<Attribution>> {
    if rows == [] then Ok([])
    else
      var row := rows[|rows| - 1];
      match RowsAttributions(rows[..|rows| - 1])
      case Raised(e) => Raised(e)
      case Ok(acc) =>
        if row == [] then Raised(IndexError)
        else if row[0] == "" then Ok(acc)
        else if |row| < 8 then Raised(IndexError)
        else Ok(acc + [RowAttribution(row)])
  }

  /** `rows[2:]`: the rows after the two header rows. */
  function DataRows(rows: seq<seq<string>>): (r: seq<seq<string>>)
    ensures |rows| >= 2 ==> r == rows[2..]
    ensures |rows| < 2 ==> r == []
  {
    if |rows| < 2 then [] else rows[2..]
  }

  /** The row loop of `get_attributions_from_sheet`, over rows already fetched. */
  method GetAttributionsFromRows(rows: seq<seq<string>>) returns (r: Result<seq<Attribution>>)
    ensures r == RowsAttributions(DataRows(rows))
  {
    var data := DataRows(rows);
    var attributions: seq<Attribution> := [];
    for i := 0 to |data|
      invariant RowsAttributions(data[..i]) == Ok(attributions)
    {
      var row := data[i];
      assert data[..i + 1][..i] == data[..i] && data[..i + 1][i] == row;
      if row == [] {
        r := Raised(IndexError);
        RaisedStays(data, i + 1);
        assert data[..|data|] == data;
        return;
      }
      if row[0] == "" {
        continue;
      }
      if |row| < 8 {
        r := Raised(IndexError);
        RaisedStays(data, i + 1);
        assert data[..|data|] == data;
        return;
      }
      var attribution := Attribution(ExtractImageUrl(Some(row[0])), ExtractHyperlink(Some(row[7])),
                                     ExtractHyperlink(Some(row[5])));
      attributions := attributions + [attribution];
    }
    assert data[..|data|] == data;
    r := Ok(attributions);
  }

  /** Once a row raises, the rows after it do not matter. */
  lemma {:induction false} RaisedStays(rows: seq<seq<string>>, i: nat)
    requires i <= |rows| && RowsAttributions(rows[..i]).Raised?
    ensures RowsAttributions(rows) == RowsAttributions(rows[..i])
    decreases |rows| - i
  {
    if i < |rows| {
      var next := rows[..i + 1];
      assert next[..i] == rows[..i];
      RaisedStays(rows, i + 1);
    } else {
      assert rows[..i] == rows;
    }
  }

  /** A row that is read: its first cell is not empty. */
  predicate Kept(row: seq<string>) {
    row != [] && row[0] != ""
  }

  /** A row the loop gets past: skipped, or long enough to read. */
  predicate Readable(row: seq<string>) {
    row != [] && (row[0] == "" || |row| >= 8)
  }

  /** `[x for x in rows if x[0]]` */
  function KeptRows(rows: seq<seq<string>>): (r: seq<seq<string>>)
    ensures forall k :: 0 <= k < |r| ==> Kept(r[k]) && r[k] in rows
  {
    if rows == [] then []
    else KeptRows(rows[..|rows| - 1]) + (if Kept(rows[|rows| - 1]) then [rows[|rows| - 1]] else [])
  }

  /** Every kept row of the input is in the filtered rows. */
  lemma {:induction false} KeptRowsComplete(rows: seq<seq<string>>)
    ensures forall k :: 0 <= k < |rows| && Kept(rows[k]) ==> rows[k] in KeptRows(rows)
    decreases |rows|
  {
    if rows != [] {
      var n := |rows| - 1;
      KeptRowsComplete(rows[..n]);
      forall k | 0 <= k < |rows| && Kept(rows[k])
        ensures rows[k] in KeptRows(rows)
      {
        if k < n {
          assert rows[..n][k] == rows[k];
        }
      }
    }
  }

  /** The filter keeps the rows' order: filtering a concatenation filters each part. */
  lemma {:induction false} KeptRowsConcat(a: seq<seq<string>>, b: seq<seq<string>>)
    ensures KeptRows(a + b) == KeptRows(a) + KeptRows(b)
    decreases |b|
  {
    if b == [] {
      assert a + b == a;
    } else {
      var n := |b| - 1;
      assert (a + b)[..|a + b| - 1] == a + b[..n];
      assert (a + b)[|a + b| - 1] == b[n];
      KeptRowsConcat(a, b[..n]);
      var last := if Kept(b[n]) then [b[n]] else [];
      AppendAssoc(KeptRows(a), KeptRows(b[..n]), last);
    }
  }

  /**
   * The loop succeeds exactly when every row is readable; it then gives one
   * attribution per kept row, in row order.
   */
  lemma {:induction false} RowsAttributionsMeaning(rows: seq<seq<string>>)
    ensures RowsAttributions(rows).Ok? <==> forall k :: 0 <= k < |rows| ==> Readable(rows[k])
    ensures RowsAttributions(rows).Ok? ==>
              var kept := KeptRows(rows);
              |RowsAttributions(rows).value| == |kept|
              && forall k :: 0 <= k < |kept| ==> |kept[k]| >= 8 && RowsAttributions(rows).value[k] == RowAttribution(kept[k])
    decreases |rows|
  {
    if rows != [] {
      var n := |rows| - 1;
      var prefix := rows[..n];
      RowsAttributionsMeaning(prefix);
      assert forall k :: 0 <= k < n ==> prefix[k] == rows[k];
      if RowsAttributions(prefix).Ok? && Readable(rows[n]) {
        var kept := KeptRows(prefix);
        forall k | 0 <= k < |kept| ensures |kept[k]| >= 8 {
          var j :| 0 <= j < |prefix| && prefix[j] == kept[k];
          assert Readable(prefix[j]);
        }
      }
    }
  }

  /** `Attribution.from_image` as written: it reads `image.image_url`, which `Image` does not have. */
  function FromImageAsWritten(image: Images.Image): (r: Result<Attribution>)
    reads image
    ensures r.Raised?
  {
    if |Images.SortedMatches(image.matches)| == 0 then Raised(IndexError)
    else Raised("AttributeError: 'Image' object has no attribute 'image_url'")
  }

  /** `from_image` fails for every image, even one with matches. */
  lemma FromImageAlwaysFails(image: Images.Image)
    requires |image.matches| > 0
    ensures FromImageAsWritten(image) == Raised("AttributeError: 'Image' object has no attribute 'image_url'")
  {
  }

  /**
   * `Attribution.from_image` as intended: the image's public URL, and the page
   * and licence URL of its best match (the first in sorted order).
   */
  function FromImage(image: Images.Image): (r: Result<Attribution>)
    reads image
    ensures r.Raised? <==> image.matches == []
    ensures r.Ok? ==> r.value.imageUrl == image.blob.publicUrl
    ensures r.Ok? ==> r.value.pageUrl == Images.SortedMatches(image.matches)[0].pageUrl
                      && r.value.licenseUrl == Images.SortedMatches(image.matches)[0].license.url
  {
    var sorted := Images.SortedMatches(image.matches);
    if |sorted| == 0 then Raised(IndexError)
    else Ok(Attribution(image.blob.publicUrl, sorted[0].pageUrl, sorted[0].license.url))
  }

  /**
   * The best match is one of the image's matches, with the smallest sort key:
   * a Creative Commons match if there is one, else one with a licence URL if
   * there is one.
   */
  lemma BestMatchIsBest(ms: seq<Images.ImageMatch>)
    requires ms != []
    ensures Images.SortedMatches(ms)[0] in ms
    ensures forall m :: m in ms ==> Images.SortKey(Images.SortedMatches(ms)[0]) <= Images.SortKey(m)
    ensures Images.AnyCreativeCommons(ms) ==> Licenses.IsCreativeCommonsLicense(Images.SortedMatches(ms)[0].license)
    ensures Images.AnyLicenseUrl(ms) && !Images.AnyCreativeCommons(ms) ==> Images.HasLicenseUrl(Images.SortedMatches(ms)[0])
  {
    var sorted := Images.SortedMatches(ms);
    Images.SortedMatchesStable(ms);
    assert sorted[0] in multiset(ms);
    forall m | m in ms ensures Images.SortKey(sorted[0]) <= Images.SortKey(m) {
      assert m in multiset(sorted);
      var j :| 0 <= j < |sorted| && sorted[j] == m;
      if j > 0 {
        assert StableSort.SortedBy(sorted, Images.SortKey);
      }
    }
    if Images.AnyCreativeCommons(ms) {
      var i :| 0 <= i < |ms| && Licenses.IsCreativeCommonsLicense(ms[i].license);
      assert Images.SortKey(sorted[0]) <= Images.SortKey(ms[i]);
    }
    if Images.AnyLicenseUrl(ms) && !Images.AnyCreativeCommons(ms) {
      var i :| 0 <= i < |ms| && Images.HasLicenseUrl(ms[i]);
      assert Images.SortKey(sorted[0]) <= Images.SortKey(ms[i]);
    }
  }
  /** `str(i)` */
  function IntToString(i: int): string {
    if i < 0 then "-" + NatToString(-i) else NatToString(i)
  }

  /** The text a cell reads back as when the sheet is fetched with its formulas. */
  function CellText(c: SheetRows.Cell): string {
    match c
    case IntCell(i) => IntToString(i)
    case StrCell(t) => t
  }

  function CellTexts(cells: seq<SheetRows.Cell>): (r: seq<string>)
    ensures |r| == |cells| && forall k :: 0 <= k < |cells| ==> r[k] == CellText(cells[k])
  {
    seq(|cells|, k requires 0 <= k < |cells| => CellText(cells[k]))
  }

  /**
   * The row the report writes for an image, read back, gives the image's
   * intended attribution: when its URLs survive the formulas, its best match
   * has a page title, and a licence cell without a URL is not itself a
   * hyperlink formula.
   */
  lemma ReportRowGivesAttribution(image: Images.Image, urlparse: string -> SheetFormulas.ParsedUrl, matchCount: int)
    requires matchCount >= 1 && image.matches != []
    requires image.blob.publicUrl.Some? ==> PlainUrl(image.blob.publicUrl.value)
    requires var best := Images.SortedMatches(image.matches)[0];
             best.pageUrl.Some? && PlainUrl(best.pageUrl.value) && best.title.Some?
             && (best.license.url.Some? ==> PlainUrl(best.license.url.value))
             && (best.license.url.None? ==> !HeadMatches(Strip(SheetRows.FromMatch(best, urlparse).license), HyperlinkHead))
    ensures var texts := CellTexts(SheetRows.Values(SheetRows.FromImage(image, urlparse), matchCount));
            |texts| >= 8 && Kept(texts) && FromImage(image).Ok? && RowAttribution(texts) == FromImage(image).value
  {
    var best := Images.SortedMatches(image.matches)[0];
    ReportRowCells(image, urlparse, matchCount);
    ImageLinkRoundTrip(image.blob.publicUrl);
    HyperlinkRoundTrip(best.pageUrl.value, best.title.value);
    LicenseCellRoundTrip(best, urlparse);
  }

  /** Columns 0, 5 and 7 of the report row: the image formula and the best match's licence and page cells. */
  lemma ReportRowCells(image: Images.Image, urlparse: string -> SheetFormulas.ParsedUrl, matchCount: int)
    requires matchCount >= 1 && image.matches != []
    ensures var texts := CellTexts(SheetRows.Values(SheetRows.FromImage(image, urlparse), matchCount));
            var best := Images.SortedMatches(image.matches)[0];
            && |texts| >= 8
            && texts[0] == SheetFormulas.ImageLink(image.blob.publicUrl) && texts[0] != ""
            && texts[5] == SheetRows.FromMatch(best, urlparse).license
            && texts[7] == SheetFormulas.Hyperlink(best.pageUrl, best.title)
  {
    var best := Images.SortedMatches(image.matches)[0];
    var row := SheetRows.FromImage(image, urlparse);
    var cells := SheetRows.Values(row, matchCount);
    var shown := SheetRows.FromMatch(best, urlparse);
    assert row.matches[0] == shown;
    assert SheetRows.SliceStop(|row.matches|, matchCount) >= 1;
    SheetRows.ValuesAt(row, matchCount, 0, 2);
    SheetRows.ValuesAt(row, matchCount, 0, 4);
    assert cells[..3] == SheetRows.SimpleValues(row);
    assert cells[0] == cells[..3][0];
  }

  /** The licence cell of a match, read back, gives the match's licence URL when it has a formula-safe one. */
  lemma LicenseCellRoundTrip(m: Images.ImageMatch, urlparse: string -> SheetFormulas.ParsedUrl)
    requires m.license.url.Some? ==> PlainUrl(m.license.url.value)
    requires m.license.url.None? ==> !HeadMatches(Strip(SheetRows.FromMatch(m, urlparse).license), HyperlinkHead)
    ensures ExtractHyperlink(Some(SheetRows.FromMatch(m, urlparse).license)) == m.license.url
  {
    if m.license.url.Some? {
      var u := m.license.url.value;
      assert SheetRows.FromMatch(m, urlparse).license == SheetFormulas.Hyperlink(Some(u), Some(u));
      HyperlinkRoundTrip(u, u);
    }
  }
}

