# image-licensing, modelled in Dafny

The image-licensing pipeline takes the images of a Cloud Storage bucket and searches the web for each one with
Google Vision's web detection. It keeps the pages each image was found on, looks up each page's licence, and writes
a report sheet. The sheet has one row per image, holding the image, its name, the number of matches, and six cells
per match. The matches appear best licence first: Creative Commons, then a licence URL, then licence text.

The pipeline then styles the sheet: frozen and merged headers, borders, and column widths per kind of column. It can
also read the sheet back into attributions (image URL, page URL, licence URL).

This project models that core, one Dafny module per source file:

- `Vision` (google_apis/vision.py): the GCS URI of a blob, batching into chunks of 16, the annotate requests
  (`max_results` 3), and the parsing of a web-detection response into match tuples.
- `Images` (licensing/image.py): the `Image` class, whose `AddMatch` deduplicates by page and numbers the matches;
  eligibility for more matches; the match limit; the stable sort by licence quality; publishing; and `ImageSet`.
- `Licenses` (licensing/license.py) and `LegacyLicense` (license.py): the licence lookup of a page, with its
  403/Selenium fallback and error messages, and the two verdict builders (`with_parsed_url`, `enrich_with_link`).
  Both feed on the signal gathering of `LicenseSignals`, which is the same code in both files: meta tags, `rel`
  links, JSON-LD, sentences of the visible text, and alt/title texts.
- `SheetRows` (licensing/sheet_row.py): the cells of a match and of an image, the two header rows and the field
  names, and the truncation to `match_count` matches.
- `ReportStyling` (licensing/style_sheet.py): the sequence of styling calls made on the report sheet.
- `SheetStyling` (google_apis/sheet_styling.py), `SpreadsheetResize` (google_apis/spreadsheet_resize.py),
  `SheetsApi`: the batch-update requests sent to the Sheets API.
- `Spreadsheet` (google_apis/spreadsheet.py): the list-of-dicts to rows conversion and two older formula builders.
- `SheetFormulas` (google_apis/sheet.py): the `=IMAGE`/`=HYPERLINK` formulas.
- `Columns` (column.py): column kinds, widths and the image height.
- `Attributions` (licensing/attribution.py): reading formulas and rows back into attributions.

Shared modules:

- `Wrappers`: `Option`, and `Result` for a raised exception.
- `Text`: Python's `in`, `lower`, `strip` and `replace` on strings.
- `PyDict`: an insertion-ordered Python `dict` as a sequence of pairs.
- `StableSort`: a stable sort by an integer key.

The network, the browser, the Vision client and `urlparse` become function parameters ("oracles"). A Sheets or
gspread call the code makes becomes a value in a list of requests or calls that the model returns.

## Model

| member | source | states |
|---|---|---|
| Vision.GcsUri | google_apis/storage.py:12-13 | the URI starts with `gs://` and has room for exactly the bucket name, a slash and the blob name |
| Vision.ChunkList | google_apis/vision.py:51-53 | a negative chunk size gives no chunk (`range` with a negative step is empty); a positive one gives no chunk exactly when the list is empty |
| Vision.ChunkCount | google_apis/vision.py:51-53 | with a positive size k, the chunk count c is the least with c*k >= the list length |
| Vision.ChunksConcatenate | google_apis/vision.py:51-53 | the chunks, concatenated in order, are the original list: nothing lost, duplicated or reordered |
| Vision.ChunkSizes | google_apis/vision.py:51-53 | every chunk but the last holds exactly k items; the last holds between 1 and k |
| Vision.ChunkAt | google_apis/vision.py:52-53 | chunk c is the slice `lst[c*k : c*k+k]`, clipped at the end of the list, as Python's slice clips |
| Vision.PageTuples | google_apis/vision.py:66-76 | at most one tuple per page; each tuple has a page URL and an image URL and is a full or partial match |
| Vision.PageTuplesConcat | google_apis/vision.py:66-76 | the pages are parsed one by one in order: the tuples of two page lists put together are the tuples of each list put together |
| Vision.PageTupleAt | google_apis/vision.py:66-76 | for every page at every position: its tuple, in its place between the tuples of the pages before and after it, uses its first full matching image if it has one ("full match"), else its first partial one ("partial match"); a page with neither adds nothing |
| Vision.SimilarTuples | google_apis/vision.py:63-64 | one tuple per visually similar image: its URL as page and image, "link to image" as title, "visually similar" as type |
| Vision.ParseVisionResponse | google_apis/vision.py:56-76 | a response without matching pages still yields something; with matching pages it yields at most one tuple per page |
| Vision.NothingFound | google_apis/vision.py:59-62 | no matching pages and no similar images yields exactly the single "none found" tuple |
| Vision.OnlySimilarImages | google_apis/vision.py:59-64 | without matching pages, the tuples are exactly those of the similar images |
| Vision.PagesWin | google_apis/vision.py:59-76 | with matching pages, similar images are ignored and the tuples are those of the pages |
| Vision.BatchAnnotateRequests | google_apis/vision.py:38-46 | one request per blob, in order, for the blob's GCS URI with `max_results` 3 |
| Vision.RequestsFor | google_apis/vision.py:38-46 | one request per blob |
| Vision.GoogleBatchVisionSearch | google_apis/vision.py:24-35 | the responses are those of the chunks of 16, concatenated in order; chunk c is announced as blobs 1+16c to 16c + its size |
| Vision.AnnotateChunks | google_apis/vision.py:29-35 | over chunks that are full except the last, responses concatenate per chunk and the running 1-based blob index gives each announced range |
| Images.PageUrls | licensing/image.py:21 | the page URLs of the matches, position for position |
| Images.CapsEndEligibility | licensing/image.py:43-47 | once the match count reaches all three caps, the image is no longer eligible, whatever was found |
| Images.EvidenceClosesDisjuncts | licensing/image.py:43-47 | text, URL and Creative Commons evidence together end eligibility; with none of them, eligibility is "below some cap" |
| Images.CreativeCommonsIsText | licensing/image.py:27-41 | a Creative Commons match also counts as having licence text |
| Images.IneligibleStays | licensing/image.py:20-47 | appending a match never makes an ineligible image eligible again |
| Images.MatchLimit | licensing/image.py:49-53 | the limit exceeds the current match count by exactly `result_increment` |
| Images.SortKey | licensing/image.py:94-100 | a single number below 8 encoding the key triple |
| Images.SortKeyOrder | licensing/image.py:94-100 | comparing the numbers is comparing Python's tuples `(not cc, not url, not text)` lexicographically, for both `<` and `==` |
| Images.SortedMatches | licensing/image.py:55-57 | the sorted list has as many matches as the image |
| Images.SortedMatchesStable | licensing/image.py:55-57 | `sorted` gives a permutation, ordered by key, in which equal-key matches keep their relative order |
| Images.SortedMatchesUnique | licensing/image.py:55-57 | any list sorted by key that keeps each key's matches in their original order is the sorted list |
| Images.WithKeyAscending | licensing/image.py:55-57 | keeping only one key's matches preserves ascending match numbers |
| Images.EqualKeysInInsertionOrder | licensing/image.py:55-57 | in the sorted list, two matches with the same key appear in the order they were added |
| Images.Image.constructor | licensing/image.py:7-10 | a new image holds its blob and settings, no matches and no lookups |
| Images.Image.Name | licensing/image.py:16-18 | the name is the blob's name |
| Images.Image.GcsUri | licensing/image.py:12-14 | the image's URI is a `gs://` URI over the blob's bucket and name |
| Images.Image.SheetCellRepresentation | licensing/image.py:63-65 | the cell reads "none found" exactly when the blob has no public URL |
| Images.Image.AddMatch | licensing/image.py:20-25 | a page already held is ignored and not looked up; a new page is appended with number = old count and the licence looked up for it; earlier matches are unchanged; pages stay distinct and numbering stays 0..n-1 |
| Images.Image.Publish | licensing/image.py:59-61 | the image goes to the callback exactly when it is not eligible for more matches; nothing is recorded on the image |
| Images.Publisher.constructor | licensing/image.py:59-61 | a callback that has received nothing |
| Images.Publisher.Accept | licensing/image.py:61 | the callback records the image handed to it |
| Images.PublishTwice | licensing/image.py:59-61 | with no published flag, publishing a finished image twice hands it over twice |
| Images.ImageSet.constructor | licensing/image.py:104-105 | the set holds the given images |
| Images.ImageSet.HasUnprocessedImagesAsWritten | licensing/image.py:112-113 | with no `return`, the method yields `None` for every image set |
| Images.ImageSet.UnprocessedImageIgnored | licensing/image.py:112-113 | an eligible image makes the intended answer true while the code does not answer `True` |
| Images.ImageSet.CappedImagesAreProcessed | licensing/image.py:112-113 | when every image has reached all its caps, no image is unprocessed |
| Licenses.FirstHttpValue | licensing/license.py:157-159 | the scan finds the first value starting with "http" when every earlier value is a string that does not; it reports the first non-string value reached (whose `startswith` raises); it finds none exactly when all values are strings without "http" |
| Licenses.FirstHttpAt | licensing/license.py:157-159 | if position i is the first http or non-string value, the scan's outcome is decided by that value |
| Licenses.Verdict | licensing/license.py:153-160 | empty signals give "no license found". For other signals, the verdict raises exactly when a non-string value comes before the first http string, with the `AttributeError` message naming that value's type. Otherwise it is Ok: the text is the cleaned `str` of the dict, the error is unset, and the URL is the first http value when there is one, else unset |
| Licenses.WithParsedUrl | licensing/license.py:153-160 | the loop over the dict's items returns the verdict |
| Licenses.ParseHtmlForMetadata | licensing/license.py:74-150 | parsing a page gives the verdict over the page's gathered signals |
| Licenses.ExtractPageLicenseMetadata | licensing/license.py:15-71 | the lookup returns the licence the fetch outcome determines |
| Licenses.NoPageUrl | licensing/license.py:21-22 | a match without a page URL gets the error "no page url" |
| Licenses.PageLicenseShape | licensing/license.py:15-71 | every licence has text exactly when it has no error, and a URL only with text |
| Licenses.ShapeOfVerdict | licensing/license.py:153-160 | a verdict with a URL always has text |
| Licenses.FailureMessages | licensing/license.py:36-71 | a render failure or a raise while parsing a rendered 403 page gives "Selenium failed: …"; other HTTP errors, other exceptions and raises while parsing a fetched page give "Could not fetch page: …" |
| Licenses.CreativeCommonsHasText | licensing/license.py:163-164 | a Creative Commons licence has text and no error |
| Licenses.SheetCellRepresentation | licensing/license.py:167-168 | a licence with a URL shows the `=HYPERLINK` formula whose target and label are both that URL; otherwise its text if it has some, else its error |
| Licenses.ErrorShown | licensing/license.py:167-168 | a failed lookup shows its error message in the sheet |
| LegacyLicense.Enriched | license.py:144-151 | empty signals give `(None, "no license found")`. For other signals, the verdict raises exactly when a non-string value comes before the first http string, with the `AttributeError` message naming that value's type. Otherwise a first http value gives a hyperlink formula over that URL and the info string, and no http value gives `(info string, None)` |
| LegacyLicense.EnrichWithLink | license.py:144-151 | the loop over the dict's items returns the enriched result |
| LegacyLicense.ParseHtmlForMetadata | license.py:65-141 | parsing a page gives the enriched result over the page's gathered signals |
| LegacyLicense.ExtractPageLicenseMetadata | license.py:7-62 | the lookup returns the result the fetch outcome determines, with the same error messages as the class version |
| LegacyLicense.AgreesWithLicense | license.py:7-62 | for a page URL, the legacy pair carries the same text and error as the class version's licence; a legacy formula is the hyperlink over that licence's URL and text |
| LegacyLicense.CaughtAgree | license.py:28-62 | the two fetch error handlers agree on text, error and URL for every parse outcome |
| LegacyLicense.VerdictsAgree | license.py:144-151 | the two verdict builders raise together with the same exception; a pair is the licence's text and error; a formula links the licence's URL and text |
| LicenseSignals.MetaTermsReduce | licensing/license.py:84 | the eight terms reduce to "license", "copyright" or "rights", since the others contain one of these |
| LicenseSignals.MetaAttrRecords | licensing/license.py:82-87 | a meta attribute naming a licence term, with non-empty content, stores that content under the lowered attribute value (a new key goes last, an old one keeps its place) and leaves other keys alone; otherwise nothing changes |
| LicenseSignals.RelTagsLastWins | licensing/license.py:95-110 | with no licence `rel`, the dict is unchanged; otherwise the last licence link's href is what is stored |
| LicenseSignals.RelTagsUntouched | licensing/license.py:95-110 | tags without a licence `rel` change nothing |
| LicenseSignals.RelTagLast | licensing/license.py:95-110 | the last tag with a licence `rel` decides the stored href |
| LicenseSignals.JsonLdOutcome | licensing/license.py:113-121 | the scan raises exactly when some script has no string (`json.loads(None)` raises a TypeError that is not caught); undecodable scripts and non-licence data change nothing |
| LicenseSignals.FirstDot | licensing/license.py:129 | the position of the first '.', or none when there is no '.' |
| LicenseSignals.DotSegments | licensing/license.py:129 | each segment ends with its only '.' |
| LicenseSignals.DotSegmentsTile | licensing/license.py:129 | the segments, joined in order, are the text up to its last '.': nothing is dropped or reordered, and no '.' is left after them |
| LicenseSignals.Sentences | licensing/license.py:129 | each sentence `re.findall` gives contains the keyword and ends with '.', and every segment that contains the keyword is among them |
| LicenseSignals.FilterContaining | licensing/license.py:129 | keeps at most the segments given, each containing the keyword, and keeps every segment that contains it |
| LicenseSignals.FilterContainingConcat | licensing/license.py:129 | the filter keeps the segments' order: filtering two lists put together is filtering each and putting the results together |
| LicenseSignals.SentenceStepsLast | licensing/license.py:130-131 | the last sentence, stripped, is what stays stored; with no sentence nothing changes |
| LicenseSignals.TextKeywordRecords | licensing/license.py:125-131 | a keyword found in the text with a sentence stores the last stripped sentence under `text:keyword`; otherwise nothing changes |
| LicenseSignals.AltOrTitle | licensing/license.py:136 | a non-empty alt wins; otherwise the title, or "" |
| LicenseSignals.PageSignalsDistinct | licensing/license.py:74-138 | the gathered signals never hold a key twice |
| LicenseSignals.MetaTagsDistinct | licensing/license.py:79-92 | the meta scan keeps keys distinct |
| LicenseSignals.MetaAttrsDistinct | licensing/license.py:82-87 | the attribute scan keeps keys distinct |
| LicenseSignals.MetaKeywordsDistinct | licensing/license.py:89-92 | the content-keyword scan keeps keys distinct |
| LicenseSignals.RelTagsDistinct | licensing/license.py:95-110 | the `rel` scans keep keys distinct |
| LicenseSignals.JsonLdDistinct | licensing/license.py:113-121 | the JSON-LD scan keeps keys distinct |
| LicenseSignals.TextKeywordsDistinct | licensing/license.py:124-131 | the text scan keeps keys distinct |
| LicenseSignals.OtherTagsDistinct | licensing/license.py:134-138 | the alt/title scan keeps keys distinct |
| LicenseSignals.ScanPage | licensing/license.py:74-138 | the whole scan yields the page's signals, or the exception it raises |
| LicenseSignals.ScanMetaTags | licensing/license.py:79-92 | the loop over meta tags computes the meta-tag signals |
| LicenseSignals.ScanMetaAttrs | licensing/license.py:82-87 | the loop over the four attribute names computes their signals |
| LicenseSignals.ScanMetaKeywords | licensing/license.py:89-92 | the loop over the five content keywords computes their signals |
| LicenseSignals.ScanRelTags | licensing/license.py:95-110 | the loop over link or anchor tags computes their signals |
| LicenseSignals.ScanJsonLd | licensing/license.py:113-121 | the loop over scripts computes their signals, stopping at the first raise |
| LicenseSignals.JsonLdRaisedStays | licensing/license.py:113-121 | once the JSON-LD scan has raised, later scripts do not change the outcome |
| LicenseSignals.ScanText | licensing/license.py:124-131 | the loop over the five keywords computes the text signals |
| LicenseSignals.StoreSentences | licensing/license.py:130-131 | storing the sentences one by one computes the sentence signals |
| LicenseSignals.ScanOtherTags | licensing/license.py:134-138 | the loop over img/figure/figcaption/span/div tags computes their signals |
| PyDict.Keys | licensing/license.py:157 | the keys of the dict, in insertion order |
| PyDict.Values | licensing/license.py:157 | the values of the dict, in insertion order |
| PyDict.IndexOf | licensing/license.py:87 | the position of a key: the first position holding it |
| PyDict.GetIsFirst | licensing/license.py:83 | `get` yields the value at the key's position, or the default when the key is absent |
| PyDict.SetInPlace | licensing/license.py:87 | assigning to an existing key replaces its value in place; a new key is appended |
| PyDict.SetExisting | licensing/license.py:87 | assigning to an existing key replaces the pair at its position |
| PyDict.SetAbsent | licensing/license.py:87 | assigning to a new key appends the pair |
| PyDict.SetKeys | licensing/license.py:87 | the keys are unchanged for an existing key, or gain the new key at the end |
| PyDict.SetGet | licensing/license.py:87 | after assignment, that key yields the new value and every other key its old one |
| PyDict.SetDistinct | licensing/license.py:87 | assignment keeps keys distinct |
| PyDict.SetSet | licensing/license.py:131 | assigning twice to a key is assigning the last value |
| SheetFormulas.ImageLink | google_apis/sheet.py:33-36 | "none found" exactly when there is no URL |
| SheetFormulas.Hyperlink | google_apis/sheet.py:39-42 | "not provided" exactly when the URL or the text is missing |
| SheetFormulas.RootHyperlink | google_apis/sheet.py:45-50 | "not provided" exactly when there is no URL |
| SheetFormulas.SafeHyperlink | google_apis/sheet.py:53-56 | the result is a `=HYPERLINK("` formula |
| SheetFormulas.ReadEscaped | google_apis/sheet.py:53-56 | an escaped string followed by a closing quote reads back as the string, whatever quotes it holds, as long as no quote follows the closing one |
| SheetFormulas.SafeHyperlinkReadsBack | google_apis/sheet.py:53-56 | for every URL and every text, quotes included, reading the formula as a sheet reads string literals (`""` is one quote, a lone `"` closes) gives back exactly that URL and that text, with nothing after the closing `)` |
| SheetFormulas.EscapeCons | google_apis/sheet.py:54-55 | escaping doubles a quote and keeps any other character |
| SheetFormulas.EscapeQuoteFree | google_apis/sheet.py:54-55 | text without a quote is left unchanged by escaping |
| SheetFormulas.UnescapeEscape | google_apis/sheet.py:54-55 | un-doubling quotes undoes escaping, so no text is lost |
| SheetRows.Times | licensing/sheet_row.py:42-46 | `list * n` has n times the length |
| SheetRows.TimesAt | licensing/sheet_row.py:42-46 | item j of copy k of `list * n` is item j of the list |
| SheetRows.MatchLabels | licensing/sheet_row.py:38 | one label per field per match |
| SheetRows.MatchLabelsAt | licensing/sheet_row.py:38 | every field column of match k is labelled "MATCH k+1" |
| SheetRows.HeaderLengths | licensing/sheet_row.py:36-58 | both header rows and the names have one entry per simple field plus one per field per match; `rows` is the two header rows |
| SheetRows.HeaderSimpleAt | licensing/sheet_row.py:36-46 | a simple field's column shows its name in the first header row and the names, and is blank in the second row |
| SheetRows.HeaderMatchAt | licensing/sheet_row.py:36-46 | field j of match k is under "MATCH k+1" in the first row, and under the field's name in the second row and the names |
| SheetRows.HeaderMatchLabel | licensing/sheet_row.py:38 | field j of match k is under "MATCH k+1" in the first row |
| SheetRows.HeaderMatchName | licensing/sheet_row.py:42-46 | field j of match k is under field j's name in the second row and the names |
| SheetRows.MatchValues | licensing/sheet_row.py:14-16 | one value per match field |
| SheetRows.FromMatch | licensing/sheet_row.py:18-27 | match number is index+1; the licence cell is the licence's representation or, when that is empty, the "skipped" text, never empty; site, page and image cells are the root hyperlink, hyperlink and image formulas |
| SheetRows.LicenseUrlShown | licensing/sheet_row.py:23 | a match whose licence has a URL shows a `=HYPERLINK` formula in its licence cell |
| SheetRows.Without | licensing/sheet_row.py:78 | the fields other than the one named, and no more |
| SheetRows.SimpleFields | licensing/sheet_row.py:76-78 | the row's simple fields are image, name and number of matches |
| SheetRows.SimpleValues | licensing/sheet_row.py:89-91 | one value per simple field |
| SheetRows.MatchCells | licensing/sheet_row.py:94-98 | six cells per match |
| SheetRows.MatchCellsAt | licensing/sheet_row.py:94-98 | cell j of match k is value j of that match |
| SheetRows.SliceStop | licensing/sheet_row.py:96 | where `[0:n]` stops: at most the length; a negative n counts from the end, as Python's slices do |
| SheetRows.Values | licensing/sheet_row.py:93-98 | the simple values come first, then six cells for each match kept by `[0:match_count]` |
| SheetRows.ValuesAt | licensing/sheet_row.py:93-98 | value j of match k sits at position 3 + 6k + j |
| SheetRows.RowMatches | licensing/sheet_row.py:73 | one row match per image match, position for position |
| SheetRows.FromImage | licensing/sheet_row.py:67-74 | the row shows the image cell and name, counts all matches, and lists the matches in sorted order |
| SheetRows.SortedIndicesDistinct | licensing/sheet_row.py:73 | sorting keeps the match numbers distinct and within range |
| SheetRows.RowNumbersDistinct | licensing/sheet_row.py:67-74 | the row's match numbers are distinct and lie between 1 and the match count |
| SheetRows.SanitizeField | licensing/sheet_row.py:104-105 | a sanitised field has no underscore |
| SheetRows.SanitizeFieldAt | licensing/sheet_row.py:104-105 | a name without `_url` keeps its length and every character, except that each `_` becomes a space |
| SheetRows.SanitizedSimpleNames | licensing/sheet_row.py:77-87 | the row's own fields become the headers "image", "name", "number of matches" |
| SheetRows.SanitizedMatchNames | licensing/sheet_row.py:80-87 | a match's fields become the headers "matching number", "matching type", "license", "site", "page", "image" |
| SheetRows.Sanitize | licensing/sheet_row.py:104-105 | each field is sanitised, position for position |
| SheetRows.HeaderSpecFor | licensing/sheet_row.py:80-87 | the simple fields are "image", "name", "number of matches" and the match fields "matching number", "matching type", "license", "site", "page", "image", for the given count |
| SheetRows.RowFitsHeader | licensing/sheet_row.py:80-98 | a row never has more values than the header has names, and has exactly as many when it holds at least `match_count` matches |
| ReportStyling.MatchRangesContiguous | licensing/style_sheet.py:24-26 | the first match range starts after the simple fields, and each range ends where the next begins |
| ReportStyling.MatchRangesDisjoint | licensing/style_sheet.py:24-26 | earlier match ranges end before later ones start |
| ReportStyling.MatchRangesEnd | licensing/style_sheet.py:24-26 | the last match range ends at the last header column |
| ReportStyling.ColumnInOneMatch | licensing/style_sheet.py:24-26 | every match column lies in exactly one match range |
| ReportStyling.MatchCalls | licensing/style_sheet.py:24-28 | two calls per match |
| ReportStyling.MatchCallsAt | licensing/style_sheet.py:24-28 | match i gets a vertical border at its start, then a row merge over its range |
| ReportStyling.ColumnCalls | licensing/style_sheet.py:35-36 | one resize per index, in order, at the given width |
| ReportStyling.ColumnIndices | licensing/style_sheet.py:9 | for every column kind, the header columns whose name contains it |
| ReportStyling.WidthCallsFromSetWidths | licensing/style_sheet.py:31-36 | every width resize comes from a kind whose width is set, at that width, on a column of that kind |
| ReportStyling.SetWidthsApplied | licensing/style_sheet.py:31-36 | every column of a kind whose width is set is resized to that width |
| ReportStyling.StyleSheet | licensing/style_sheet.py:5-38 | the method makes exactly the calls of the styling sequence |
| ReportStyling.AppendWidthResizes | licensing/style_sheet.py:31-36 | the width loop appends the width resizes |
| ReportStyling.AppendColumnResizes | licensing/style_sheet.py:35-36 | the inner loop appends one resize per column index |
| ReportStyling.StyleCallsShape | licensing/style_sheet.py:5-38 | freeze, bold header, the three formats, row resize and simple merge come first, then border and merge per match, the width resizes, and `execute` last |
| ReportStyling.AssembledShape | licensing/style_sheet.py:5-38 | the prelude and match calls sit at fixed positions before any list of resizes and the final execute |
| SheetStyling.GridRangeOf | google_apis/sheet_styling.py:143-153 | the range always has sheet, start row and start column; it has end row and end column exactly when they are given |
| SheetStyling.ColumnResizes | google_apis/sheet_styling.py:21-22 | one request per column index |
| SheetStyling.BorderRequests | google_apis/sheet_styling.py:24-25 | one border request per match column |
| SheetStyling.WidthRequestsCount | google_apis/sheet_styling.py:16-22 | one request per column of each kind whose width is set |
| SheetStyling.ResizeCountSplit | google_apis/sheet_styling.py:16-22 | the resize count of a dict splits over its parts |
| SheetStyling.WidthRequestsAreColumnResizes | google_apis/sheet_styling.py:16-22 | every width request resizes a column of some kind to that kind's set width |
| SheetStyling.StyleSheet | google_apis/sheet_styling.py:4-26 | the batch is bold, the three formats and the row resize, then the width requests, then one border per match column |
| SheetStyling.AppendWidthRequests | google_apis/sheet_styling.py:16-22 | the width loop builds the width requests |
| SheetStyling.AppendBorderRequests | google_apis/sheet_styling.py:24-25 | the border loop builds the border requests |
| SheetStyling.StyleSheetRequestCount | google_apis/sheet_styling.py:4-26 | the batch has 5 requests plus one per sized column plus one per match column |
| SpreadsheetResize.ResizeSheet | google_apis/spreadsheet_resize.py:3-73 | first-row bold, a row resize over rows 1 to num_rows, then one column resize per image column and per source column, in order |
| Spreadsheet.RowFor | google_apis/spreadsheet.py:41 | one cell per column: the dict's value for that column, or "" |
| Spreadsheet.ConvertListOfDicts | google_apis/spreadsheet.py:34-46 | no dicts gives three empty lists; otherwise the first dict's keys as header, one row per dict, and the image and source columns |
| Spreadsheet.AppendRows | google_apis/spreadsheet.py:40-42 | the loop appends one row per dict after the rows already there |
| Spreadsheet.InsertImage | google_apis/spreadsheet.py:49-52 | "none found" exactly when there is no URL |
| Spreadsheet.InsertHyperlink | google_apis/spreadsheet.py:54-57 | "not provided" exactly when the URL or the text is missing |
| Spreadsheet.InsertImageIsImageLink | google_apis/spreadsheet.py:49-52 | the older image formula is the current one |
| Spreadsheet.InsertHyperlinkAgreesWhenQuoteFree | google_apis/spreadsheet.py:54-57 | the unescaped hyperlink agrees with the escaping one when neither part has a quote |
| Columns.RoundSixteenth | column.py:12 | `round(n/16)` is the nearest integer, with ties to the even one |
| Columns.ImageHeightIs169 | column.py:11-12 | the image height is 169 pixels |
| Columns.FindColumnIndices | column.py:32-33 | exactly the columns whose lowered name contains the keyword, in ascending order |
| Columns.IndicesFrom | column.py:32-33 | from position i on, exactly the matching columns, ascending |
| Columns.KindIndices | column.py:16 | one entry per column kind, each holding that kind's columns |
| Columns.TableShape | column.py:17-28 | the width table has the seven kinds, in order, each with a width; the height is 169 |
| Columns.MakeStyleInfo | column.py:15-29 | the indices of every kind, and the width table and height |
| Columns.WidthsCoverColumnTypes | column.py:15-29 | the width table's keys are the column kinds, in order |
| Attributions.LazyGroupEnd | licensing/attribution.py:177 | `(.+?)` widened from i stops at the first closing position it can reach, and fails when none can be reached without a line break |
| Attributions.LazyGroup | licensing/attribution.py:177 | the lazy group is non-empty, covers no line break, and ends at the earliest position where the closing pattern matches |
| Attributions.SkipSpaces | licensing/attribution.py:177 | `\s*` skips exactly the whitespace that follows |
| Attributions.FormulaArgument | licensing/attribution.py:177 | a match needs the formula head, ignoring case, then a quote; the group is non-empty and has no line break |
| Attributions.ExtractImageUrl | licensing/attribution.py:156-167 | no cell gives no URL; a URL comes only from a cell whose stripped text starts with `=IMAGE(` in any case |
| Attributions.ExtractHyperlink | licensing/attribution.py:170-181 | no cell gives no URL; a URL comes only from a cell whose stripped text starts with `=HYPERLINK(` in any case |
| Attributions.LazyGroupStopsAt | licensing/attribution.py:177 | the group ends at the first closing position |
| Attributions.ArgumentOfPlainUrl | licensing/attribution.py:177 | a quoted URL without quotes or line breaks is read back whole |
| Attributions.NoCloseInside | licensing/attribution.py:163 | no quote occurs inside a plain URL |
| Attributions.ImageLinkRoundTrip | licensing/attribution.py:156-167 | reading back the image formula gives the URL written, and "none found" reads as no URL |
| Attributions.EmptyImageUrlLost | licensing/attribution.py:163 | an empty image URL is written but does not read back, since `(.+?)` needs a character |
| Attributions.HyperlinkClosesAfter | licensing/attribution.py:177 | the closing `", ` follows right after the URL in a hyperlink formula |
| Attributions.HyperlinkRoundTrip | licensing/attribution.py:170-181 | reading back the hyperlink formula gives the URL written |
| Attributions.InsertHyperlinkRoundTrip | licensing/attribution.py:170-181 | reading back the older hyperlink formula gives the URL written |
| Attributions.HyperlinkRoundTripCell | licensing/attribution.py:177 | the link argument of a hyperlink cell is its URL |
| Attributions.PlaceholderHasNoLink | licensing/attribution.py:170-181 | the "not provided" placeholder reads as no URL |
| Attributions.DataRows | licensing/attribution.py:143 | `rows[2:]`: the rows after the two headers, or none |
| Attributions.GetAttributionsFromRows | licensing/attribution.py:142-151 | the loop over the data rows gives the attributions of those rows, or the IndexError it raises |
| Attributions.RaisedStays | licensing/attribution.py:143-150 | once a row has raised, later rows do not change the outcome |
| Attributions.KeptRows | licensing/attribution.py:144-145 | only rows with a non-empty first cell are kept, all from the input |
| Attributions.KeptRowsComplete | licensing/attribution.py:144-145 | every input row with a non-empty first cell is kept |
| Attributions.KeptRowsConcat | licensing/attribution.py:144-145 | the filter keeps the rows' order: filtering two row lists put together is filtering each and putting the results together |
| Attributions.RowsAttributionsMeaning | licensing/attribution.py:143-150 | the loop succeeds exactly when every row is readable, and then gives one attribution per kept row, in order, from columns 0, 7 and 5 |
| Attributions.FromImageAsWritten | licensing/attribution.py:86-92 | `from_image` as written raises for every image |
| Attributions.FromImageAlwaysFails | licensing/attribution.py:89 | even with matches, it raises AttributeError on `image.image_url` |
| Attributions.FromImage | licensing/attribution.py:86-92 | the intended version fails exactly when there are no matches, and otherwise takes the image's public URL and the page URL and licence URL of the first match in best-first order |
| Attributions.BestMatchIsBest | licensing/attribution.py:87 | the best match is one of the matches with the smallest key: Creative Commons if any match has it, else a licence URL if any has one |
| Attributions.CellTexts | licensing/attribution.py:140 | the text each written cell reads back as, position for position |
| Attributions.ReportRowGivesAttribution | licensing/attribution.py:136-151 | a report row written for an image reads back as the intended attribution of that image |
| Attributions.ReportRowCells | licensing/sheet_row.py:93-98 | the written row has the image formula in column 0, the best match's licence cell in 5 and its page hyperlink in 7 |
| Attributions.LicenseCellRoundTrip | licensing/attribution.py:147 | a written licence cell reads back as the licence's URL |
| StableSort.WithKey | licensing/image.py:55-57 | the items with one key are no more than the list |
| StableSort.SortBy | licensing/image.py:55-57 | sorting keeps the length |
| StableSort.SortByStable | licensing/image.py:55-57 | the sort is a permutation, ordered by key, keeping each key's items in their order |
| StableSort.SortByPermutes | licensing/image.py:57 | the sort is a permutation |
| StableSort.SortBySorted | licensing/image.py:57 | the sort is ordered by key |
| StableSort.SortByFilters | licensing/image.py:57 | the sort keeps the order of the items with each key |
| StableSort.StableOrderUnique | licensing/image.py:57 | two key-ordered lists with the same items per key, in the same order, are equal |
| StableSort.PositionInFilter | licensing/image.py:57 | two items with one key keep their order among that key's items |
| Text.Lower | licensing/license.py:83 | lowering maps each character, keeping the length |
| Text.ContainsIffOccurs | column.py:33 | `in` holds exactly when the substring occurs at some position |
| Text.ReplaceRemoves | licensing/sheet_row.py:105 | replacing a character by text without it removes every occurrence |
| Text.StripUnchanged | licensing/attribution.py:163 | text that starts and ends without whitespace is unchanged by `strip` |

## Left out

- The network, the Selenium browser, the Vision client, `urlparse`, Cloud Storage and Drive: these are oracle
  parameters (`fetch`, `annotate`, `urlparse`) or are not part of this model.
- HTML parsing by BeautifulSoup: a page is given as its meta attributes, `rel` links, JSON-LD outcomes, visible text
  and alt/title attributes. `json.loads` is given as a decoded outcome per script.
- `str(dict)` (the licence text): an uninterpreted parameter `repr`; only its `\n`/`\t` removal is modelled.
- `Text`: `lower`, `strip`, `\s` and `re.IGNORECASE` act on ASCII only. There is no Unicode case folding or
  whitespace class.
- `str(cell_value)`: the sheet returns every cell as a string; integer cells read back as their decimal text.
- Vision.ChunkList: requires a non-zero chunk size, since Python raises for a zero step of `range`; the code always
  passes 16.
- Vision: `google_vision_search` is not part of this model. It annotates a single blob through a generator, and its
  parsing is `ParseVisionResponse`.
- GoogleSheet and GoogleSheetStyle (gspread): their calls are modelled as the list of calls made, not executed.
  Sheet creation, `append_row` and the batch execution are not part of this model.
- `Width.model_fields` in licensing/style_sheet.py is the parameter `kinds`; the config model's file is not part of
  this model.
- Images: `has_enough` is `has_creative_commons_license`, so it is the same predicate. The debug prints in
  `add_license`, `match_limit` and `parse_html_for_metadata` are left out.
- Images.ImageSet: `from_bucket` (storage listing) is not part of this model.
- Attributions: HTML generation, thumbnails and `get_domain` (tldextract) are left out.
- main.py is orchestration over the modelled parts and is not part of this model.
- Images.Image.AddMatch: `add_match` sets `matching_index` on the caller's own `ImageMatch` object and appends that
  object, so the caller and the image share it. The model builds a fresh match value from a `MatchTuple`, so this
  aliasing is not modelled.
- Attributions.HyperlinkRoundTrip: stated only for URLs without quotes or line breaks. The regex of
  `extract_hyperlink` does not undo the doubling of quotes by `safe_hyperlink`. For a URL with a quote it returns the
  escaped text or stops at an earlier quote, so there is no round trip to state.
  `SheetFormulas.SafeHyperlinkReadsBack` states the round trip for every URL as a sheet reads the formula.
- `publish` keeps no flag, so an image can be published twice (see `Images.PublishTwice`).
- `max_results` in the annotation request is the constant 3, not the match limit.
- A later licence signal overwrites an earlier one under the same key, and keeps that key's original position.
- license.py imports `insert_hyperlink` from google_apis/sheet.py, which does not define it. The model uses the
  one in google_apis/spreadsheet.py, so the import error on loading is not modelled.

## Findings

| source | as written | input that shows it | evidently intended | confidence | as-written member | corrected member |
|---|---|---|---|---|---|---|
| licensing/image.py:112-113 | `any(...)` is computed but not returned, so the method yields `None` | any image set with an image still eligible for more matches | return whether some image is still eligible | not executed | Images.ImageSet.HasUnprocessedImagesAsWritten, Images.ImageSet.UnprocessedImageIgnored | Images.ImageSet.HasUnprocessedImages |
| licensing/attribution.py:86-92 | reads `image.image_url`, which `Image` does not define, so it raises AttributeError; with no match, `[0]` raises IndexError first | any image with at least one match | the image's public URL with its best match's page and licence URL | not executed | Attributions.FromImageAsWritten, Attributions.FromImageAlwaysFails | Attributions.FromImage |
