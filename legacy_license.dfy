/**
 * The older, tuple-returning licence lookup (license.py). It shares the
 * page scan with licensing/license.py and differs in the verdict, which is
 * a `(text, error)` pair, or a bare hyperlink formula when a URL is found.
 */
module LegacyLicense {
  import opened Wrappers
  import opened Text
  import opened PyDict
  import opened LicenseSignals
  import Licenses
  import Spreadsheet

  /** What the older lookup returns: a `(text, error)` pair, or a single formula string. */
  datatype LegacyResult = Pair(text: Option<string>, error: Option<string>) | Formula(cell: string)

  /** The verdict of `enrich_with_link`. */
  function Enriched(info: Signals, repr: Signals -> string): (r: Result<LegacyResult>)
    ensures info == [] <==> r == Ok(Pair(None, Some("no license found")))
    ensures r.Ok? && r.value.Formula? <==> Licenses.FirstHttpValue(Values(info)).FoundUrl? && info != []
    ensures r.Ok? && r.value.Formula? ==>
              r.value.cell == Spreadsheet.InsertHyperlink(Some(Licenses.FirstHttpValue(Values(info)).url),
                                                          Some(Licenses.InfoString(info, repr)))
    ensures r.Ok? && info != [] && r.value.Pair? ==> r.value == Pair(Some(Licenses.InfoString(info, repr)), None)
    ensures info != [] ==> (r.Raised? <==> Licenses.FirstHttpValue(Values(info)).NotAString?)
    ensures r.Raised? ==> r.exception == Licenses.NoStartswithMessage(Licenses.FirstHttpValue(Values(info)).typeName)
    ensures info != [] && Licenses.FirstHttpValue(Values(info)).NoUrl? ==> r == Ok(Pair(Some(Licenses.InfoString(info, repr)), None))
  {
    if info == [] then Ok(Pair(None, Some("no license found")))
    else
      var text := Licenses.InfoString(info, repr);
      match Licenses.FirstHttpValue(Values(info))
      case FoundUrl(u) => Ok(Formula(Spreadsheet.InsertHyperlink(Some(u), Some(text))))
      case NoUrl => Ok(Pair(Some(text), None))
      case NotAString(t) => Raised(Licenses.NoStartswithMessage(t))
  }

  /** `enrich_with_link`: a loop over the dict's items that returns at the first URL. */
  method EnrichWithLink(info: Signals, repr: Signals -> string) returns (r: Result<LegacyResult>)
    ensures r == Enriched(info, repr)
  {
    if info == [] {
      return Ok(Pair(None, Some("no license found")));
    }
    var text := Licenses.InfoString(info, repr);
    var values := Values(info);
    for i := 0 to |info|
      invariant Licenses.NoUrlBefore(values, i)
    {
      match info[i].1
      case NonStr(t) =>
        assert values[i] == NonStr(t);
        Licenses.FirstHttpAt(values, i);
        return Raised(Licenses.NoStartswithMessage(t));
      case Str(s) =>
        if StartsWith(s, "http") {
          assert values[i] == Str(s);
          Licenses.FirstHttpAt(values, i);
          return Ok(Formula(Spreadsheet.InsertHyperlink(Some(s), Some(text))));
        }
    }
    return Ok(Pair(Some(text), None));
  }

  function LegacyVerdict(doc: Document, repr: Signals -> string): Result<LegacyResult> {
    match PageSignals(doc)
    case Raised(e) => Raised(e)
    case Ok(info) => Enriched(info, repr)
  }

  /** `parse_html_for_metadata` of the older lookup. */
  method ParseHtmlForMetadata(doc: Document, repr: Signals -> string) returns (r: Result<LegacyResult>)
    ensures r == LegacyVerdict(doc, repr)
  {
    var scanned := ScanPage(doc);
    if scanned.Raised? {
      return Raised(scanned.exception);
    }
    r := EnrichWithLink(scanned.value, repr);
  }

  function CaughtPair(r: Result<LegacyResult>, prefix: string): LegacyResult {
    match r
    case Ok(v) => v
    case Raised(e) => Pair(None, Some(prefix + e))
  }

  /** The case analysis of the older `extract_page_license_metadata`. */
  function LegacyPageLicense(pageUrl: Option<string>, fetch: string -> Licenses.FetchOutcome, repr: Signals -> string): LegacyResult {
    if pageUrl.None? then Pair(None, Some("no license found"))
    else
      match fetch(pageUrl.value)
      case Fetched(doc) => CaughtPair(LegacyVerdict(doc, repr), Licenses.FetchFailed)
      case Forbidden(fallback) =>
        (match fallback
         case Rendered(doc) => CaughtPair(LegacyVerdict(doc, repr), Licenses.FallbackFailed)
         case RenderFailed(m) => Pair(None, Some(Licenses.FallbackFailed + m)))
      case HttpFailure(m) => Pair(None, Some(Licenses.FetchFailed + m))
      case OtherFailure(m) => Pair(None, Some(Licenses.FetchFailed + m))
  }

  /** `extract_page_license_metadata` (license.py), with the fetch as `fetch`. */
  method ExtractPageLicenseMetadata(pageUrl: Option<string>, fetch: string -> Licenses.FetchOutcome, repr: Signals -> string)
    returns (r: LegacyResult)
    ensures r == LegacyPageLicense(pageUrl, fetch, repr)
  {
    if pageUrl.None? {
      return Pair(None, Some("no license found"));
    }
    match fetch(pageUrl.value)
    case Fetched(doc) =>
      var v := ParseHtmlForMetadata(doc, repr);
      r := CaughtPair(v, Licenses.FetchFailed);
    case Forbidden(fallback) =>
      match fallback {
        case Rendered(doc) =>
          var v := ParseHtmlForMetadata(doc, repr);
          r := CaughtPair(v, Licenses.FallbackFailed);
        case RenderFailed(m) =>
          r := Pair(None, Some(Licenses.FallbackFailed + m));
      }
    case HttpFailure(m) =>
      r := Pair(None, Some(Licenses.FetchFailed + m));
    case OtherFailure(m) =>
      r := Pair(None, Some(Licenses.FetchFailed + m));
  }

  /**
   * The two lookups agree wherever the older one returns a pair and finds
   * no URL: same text, same error. Where a URL is found the older one
   * returns only `=HYPERLINK("url", "text")` and the newer one keeps the URL
   * and the text apart.
   */
  lemma AgreesWithLicense(pageUrl: Option<string>, fetch: string -> Licenses.FetchOutcome, repr: Signals -> string)
    ensures var legacy := LegacyPageLicense(pageUrl, fetch, repr);
            var l := Licenses.PageLicense(pageUrl, fetch, repr);
            pageUrl.Some? && legacy.Pair? ==> legacy.text == l.text && legacy.error == l.error && l.url.None?
    ensures var legacy := LegacyPageLicense(pageUrl, fetch, repr);
            var l := Licenses.PageLicense(pageUrl, fetch, repr);
            legacy.Formula? ==> l.url.Some? && l.text.Some? && legacy.cell == Spreadsheet.InsertHyperlink(l.url, l.text)
  {
    if pageUrl.Some? {
      match fetch(pageUrl.value)
      case Fetched(doc) => CaughtAgree(doc, repr, Licenses.FetchFailed);
      case Forbidden(fallback) =>
        if fallback.Rendered? {
          CaughtAgree(fallback.doc, repr, Licenses.FallbackFailed);
        }
      case HttpFailure(_) =>
      case OtherFailure(_) =>
    }
  }

  /** The two page verdicts, with a raised exception caught under the same prefix, agree as above. */
  lemma CaughtAgree(doc: Document, repr: Signals -> string, prefix: string)
    ensures var legacy := CaughtPair(LegacyVerdict(doc, repr), prefix);
            var l := Licenses.Caught(Licenses.PageVerdict(doc, repr), prefix);
            (legacy.Pair? ==> legacy.text == l.text && legacy.error == l.error && l.url.None?)
            && (legacy.Formula? ==> l.url.Some? && l.text.Some? && legacy.cell == Spreadsheet.InsertHyperlink(l.url, l.text))
  {
    if PageSignals(doc).Ok? {
      VerdictsAgree(PageSignals(doc).value, repr);
    }
  }

  /**
   * On one dict the two verdicts raise together, with the same message; a
   * pair is the newer licence without its URL; a formula links the newer
   * licence's URL and text.
   */
  lemma VerdictsAgree(info: Signals, repr: Signals -> string)
    ensures Enriched(info, repr).Raised? <==> Licenses.Verdict(info, repr).Raised?
    ensures Enriched(info, repr).Raised? ==> Enriched(info, repr).exception == Licenses.Verdict(info, repr).exception
    ensures Enriched(info, repr).Ok? && Enriched(info, repr).value.Pair? ==>
              var l := Licenses.Verdict(info, repr).value;
              Enriched(info, repr).value == Pair(l.text, l.error) && l.url.None?
    ensures Enriched(info, repr).Ok? && Enriched(info, repr).value.Formula? ==>
              var l := Licenses.Verdict(info, repr).value;
              l.url.Some? && l.text.Some? && Enriched(info, repr).value.cell == Spreadsheet.InsertHyperlink(l.url, l.text)
  {
    if info != [] {
      match Licenses.FirstHttpValue(Values(info))
      case FoundUrl(u) =>
      case NoUrl =>
      case NotAString(t) =>
    }
  }
}
