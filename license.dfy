/** The licence verdict for one page and how a sheet cell shows it (licensing/license.py). */
module Licenses {
  import opened Wrappers
  import opened Text
  import opened PyDict
  import opened LicenseSignals
  import SheetFormulas

  /** `License(text, error, url)` */
  datatype License = License(text: Option<string>, error: Option<string>, url: Option<string>)

  /** What the headless-browser retry of a forbidden page gives: the rendered page, or the exception's message. */
  datatype Fallback = Rendered(doc: Document) | RenderFailed(message: string)

  /**
   * What fetching a page gives: the parsed page (a 2xx answer); a 403,
   * answered by the retry; another HTTP error status; or any other
   * exception. Each message is the exception's `str`.
   */
  datatype FetchOutcome = Fetched(doc: Document) | Forbidden(fallback: Fallback)
                        | HttpFailure(message: string) | OtherFailure(message: string)

  /** The first value that `value.startswith("http")` accepts, or where that call raises. */
  datatype UrlScan = FoundUrl(url: string) | NoUrl | NotAString(typeName: string)

  /** The message of the `AttributeError` that `startswith` on a non-string raises. */
  function NoStartswithMessage(typeName: string): string {
    "'" + typeName + "' object has no attribute 'startswith'"
  }

  /** No value before position `i` is a URL, and none raises. */
  predicate NoUrlBefore(values: seq<MetaValue>, i: int)
    requires 0 <= i <= |values|
  {
    forall j :: 0 <= j < i ==> values[j].Str? && !StartsWith(values[j].s, "http")
  }

  /** The values scanned in order: the first string starting with "http", unless a non-string comes earlier. */
  function FirstHttpValue(values: seq<MetaValue>): (r: UrlScan)
    ensures r.FoundUrl? ==> exists i :: 0 <= i < |values| && NoUrlBefore(values, i) && values[i] == Str(r.url) && StartsWith(r.url, "http")
    ensures (exists i :: 0 <= i < |values| && NoUrlBefore(values, i) && values[i].Str? && StartsWith(values[i].s, "http")) ==> r.FoundUrl?
    ensures r.NoUrl? <==> NoUrlBefore(values, |values|)
    ensures r.NotAString? ==> exists i :: 0 <= i < |values| && NoUrlBefore(values, i) && values[i] == NonStr(r.typeName)
    decreases |values|
  {
    if values == [] then NoUrl
    else
      var rest := FirstHttpValue(values[1..]);
      assert forall i :: 0 < i <= |values| ==> (NoUrlBefore(values, i) <==>
        (values[0].Str? && !StartsWith(values[0].s, "http") && NoUrlBefore(values[1..], i - 1)));
      match values[0]
      case NonStr(t) => NotAString(t)
      case Str(s) => if StartsWith(s, "http") then FoundUrl(s) else rest
  }

  /** A stopping value after only non-URL strings decides the scan. */
  lemma {:induction false} FirstHttpAt(values: seq<MetaValue>, i: nat)
    requires i < |values| && NoUrlBefore(values, i)
    requires values[i].NonStr? || StartsWith(values[i].s, "http")
    ensures FirstHttpValue(values) == if values[i].NonStr? then NotAString(values[i].typeName) else FoundUrl(values[i].s)
    decreases i
  {
    if i > 0 {
      assert values[0].Str? && !StartsWith(values[0].s, "http");
      assert values[1..][i - 1] == values[i];
      assert NoUrlBefore(values[1..], i - 1) by {
        forall j | 0 <= j < i - 1
          ensures values[1..][j].Str? && !StartsWith(values[1..][j].s, "http")
        {
          assert values[1..][j] == values[j + 1];
        }
      }
      FirstHttpAt(values[1..], i - 1);
    }
  }

  /** `str(info_dict)` with every `\n` and `\t` escape removed; the serialiser itself is `repr`. */
  function InfoString(info: Signals, repr: Signals -> string): string {
    Replace(Replace(repr(info), "\\n", ""), "\\t", "")
  }

  /**
   * The verdict of `with_parsed_url`: "no license found" for an empty dict;
   * otherwise the serialised dict as text and the first URL value, or the
   * error that scanning for it raises.
   */
  function Verdict(info: Signals, repr: Signals -> string): (r: Result<License>)
    ensures info == [] <==> r == Ok(License(None, Some("no license found"), None))
    ensures r.Ok? && info != [] ==> r.value.text == Some(InfoString(info, repr)) && r.value.error.None?
    ensures r.Ok? ==> (r.value.text.Some? <==> r.value.error.None?)
    ensures r.Ok? && r.value.url.Some? ==> FirstHttpValue(Values(info)) == FoundUrl(r.value.url.value)
    ensures info != [] ==> (r.Raised? <==> FirstHttpValue(Values(info)).NotAString?)
    ensures r.Raised? ==> r.exception == NoStartswithMessage(FirstHttpValue(Values(info)).typeName)
    ensures info != [] && FirstHttpValue(Values(info)).FoundUrl? ==> r.Ok? && r.value.url == Some(FirstHttpValue(Values(info)).url)
    ensures info != [] && FirstHttpValue(Values(info)).NoUrl? ==> r == Ok(License(Some(InfoString(info, repr)), None, None))
  {
    if info == [] then Ok(License(None, Some("no license found"), None))
    else
      var text := InfoString(info, repr);
      match FirstHttpValue(Values(info))
      case FoundUrl(u) => Ok(License(Some(text), None, Some(u)))
      case NoUrl => Ok(License(Some(text), None, None))
      case NotAString(t) => Raised(NoStartswithMessage(t))
  }

  /** `with_parsed_url`: a loop over the dict's items that returns at the first URL. */
  method WithParsedUrl(info: Signals, repr: Signals -> string) returns (r: Result<License>)
    ensures r == Verdict(info, repr)
  {
    if info == [] {
      return Ok(License(None, Some("no license found"), None));
    }
    var text := InfoString(info, repr);
    var values := Values(info);
    for i := 0 to |info|
      invariant NoUrlBefore(values, i)
    {
      match info[i].1
      case NonStr(t) =>
        assert values[i] == NonStr(t);
        FirstHttpAt(values, i);
        return Raised(NoStartswithMessage(t));
      case Str(s) =>
        if StartsWith(s, "http") {
          assert values[i] == Str(s);
          FirstHttpAt(values, i);
          return Ok(License(Some(text), None, Some(s)));
        }
    }
    return Ok(License(Some(text), None, None));
  }

  /** The scan and the verdict of `parse_html_for_metadata`. */
  function PageVerdict(doc: Document, repr: Signals -> string): Result<License> {
    match PageSignals(doc)
    case Raised(e) => Raised(e)
    case Ok(info) => Verdict(info, repr)
  }

  /** `parse_html_for_metadata` */
  method ParseHtmlForMetadata(doc: Document, repr: Signals -> string) returns (r: Result<License>)
    ensures r == PageVerdict(doc, repr)
  {
    var scanned := ScanPage(doc);
    if scanned.Raised? {
      return Raised(scanned.exception);
    }
    r := WithParsedUrl(scanned.value, repr);
  }

  /** A verdict, or the exception it raised turned into an error licence with the given prefix. */
  function Caught(r: Result<License>, prefix: string): License {
    match r
    case Ok(l) => l
    case Raised(e) => License(None, Some(prefix + e), None)
  }

  const FetchFailed := "Could not fetch page: "
  const FallbackFailed := "Selenium failed: "

  /** The case analysis of `extract_page_license_metadata`. */
  function PageLicense(pageUrl: Option<string>, fetch: string -> FetchOutcome, repr: Signals -> string): License {
    if pageUrl.None? then License(None, Some("no page url"), None)
    else
      match fetch(pageUrl.value)
      case Fetched(doc) => Caught(PageVerdict(doc, repr), FetchFailed)
      case Forbidden(fallback) =>
        (match fallback
         case Rendered(doc) => Caught(PageVerdict(doc, repr), FallbackFailed)
         case RenderFailed(m) => License(None, Some(FallbackFailed + m), None))
      case HttpFailure(m) => License(None, Some(FetchFailed + m), None)
      case OtherFailure(m) => License(None, Some(FetchFailed + m), None)
  }

  /**
   * `extract_page_license_metadata` with the page fetch (HTTP request, and
   * the browser retry after a 403) as `fetch` and `str(dict)` as `repr`.
   */
  method ExtractPageLicenseMetadata(pageUrl: Option<string>, fetch: string -> FetchOutcome, repr: Signals -> string)
    returns (license: License)
    ensures license == PageLicense(pageUrl, fetch, repr)
  {
    if pageUrl.None? {
      return License(None, Some("no page url"), None);
    }
    match fetch(pageUrl.value)
    case Fetched(doc) =>
      var r := ParseHtmlForMetadata(doc, repr);
      license := Caught(r, FetchFailed);
    case Forbidden(fallback) =>
      match fallback {
        case Rendered(doc) =>
          var r := ParseHtmlForMetadata(doc, repr);
          license := Caught(r, FallbackFailed);
        case RenderFailed(m) =>
          license := License(None, Some(FallbackFailed + m), None);
      }
    case HttpFailure(m) =>
      license := License(None, Some(FetchFailed + m), None);
    case OtherFailure(m) =>
      license := License(None, Some(FetchFailed + m), None);
  }

  /** No URL: the "no page url" error, whatever `fetch` would have said. */
  lemma NoPageUrl(fetch: string -> FetchOutcome, repr: Signals -> string)
    ensures PageLicense(None, fetch, repr) == License(None, Some("no page url"), None)
  {
  }

  /**
   * Every verdict has either text or an error, never both; a URL only comes
   * with text; and every failure leaves text and URL empty.
   */
  lemma PageLicenseShape(pageUrl: Option<string>, fetch: string -> FetchOutcome, repr: Signals -> string)
    ensures var l := PageLicense(pageUrl, fetch, repr);
            (l.text.Some? <==> l.error.None?) && (l.url.Some? ==> l.text.Some?)
  {
    if pageUrl.Some? {
      match fetch(pageUrl.value)
      case Fetched(doc) =>
        if PageSignals(doc).Ok? { ShapeOfVerdict(PageSignals(doc).value, repr); }
      case Forbidden(fallback) =>
        if fallback.Rendered? && PageSignals(fallback.doc).Ok? { ShapeOfVerdict(PageSignals(fallback.doc).value, repr); }
      case HttpFailure(_) =>
      case OtherFailure(_) =>
    }
  }

  lemma ShapeOfVerdict(info: Signals, repr: Signals -> string)
    ensures Verdict(info, repr).Ok? ==> (Verdict(info, repr).value.url.Some? ==> Verdict(info, repr).value.text.Some?)
  {
  }

  /**
   * A 403 is retried once in a browser: a failed retry, or a rendered page
   * whose scan raises, gives "Selenium failed: ..."; every other failure gives
   * "Could not fetch page: ...".
   */
  lemma FailureMessages(pageUrl: string, fetch: string -> FetchOutcome, repr: Signals -> string)
    ensures var l := PageLicense(Some(pageUrl), fetch, repr);
            match fetch(pageUrl)
            case Forbidden(RenderFailed(m)) => l == License(None, Some("Selenium failed: " + m), None)
            case Forbidden(Rendered(doc)) =>
              PageVerdict(doc, repr).Raised? ==> l == License(None, Some("Selenium failed: " + PageVerdict(doc, repr).exception), None)
            case Fetched(doc) =>
              PageVerdict(doc, repr).Raised? ==> l == License(None, Some("Could not fetch page: " + PageVerdict(doc, repr).exception), None)
            case HttpFailure(m) => l == License(None, Some("Could not fetch page: " + m), None)
            case OtherFailure(m) => l == License(None, Some("Could not fetch page: " + m), None)
  {
  }

  /** `is_creative_commons_license`: non-empty text naming a Creative Commons licence URL. */
  predicate IsCreativeCommonsLicense(l: License) {
    Truthy(l.text) && Contains(l.text.value, "creativecommons.org/licenses/")
  }

  /** A Creative Commons licence always has licence text, and so no error. */
  lemma CreativeCommonsHasText(pageUrl: Option<string>, fetch: string -> FetchOutcome, repr: Signals -> string)
    ensures IsCreativeCommonsLicense(PageLicense(pageUrl, fetch, repr)) ==>
              Truthy(PageLicense(pageUrl, fetch, repr).text) && PageLicense(pageUrl, fetch, repr).error.None?
  {
    PageLicenseShape(pageUrl, fetch, repr);
  }

  /** `sheet_cell_representation`: a link to the URL if there is one, else the text, else the error. */
  function SheetCellRepresentation(l: License): (r: Option<string>)
    ensures Truthy(l.url) ==> r.Some? && StartsWith(r.value, "=HYPERLINK(\"")
    ensures Truthy(l.url) ==> r == Some(SheetFormulas.Hyperlink(l.url, l.url))
    ensures !Truthy(l.url) && Truthy(l.text) ==> r == l.text
    ensures !Truthy(l.url) && !Truthy(l.text) ==> r == l.error
  {
    if Truthy(l.url) then Some(SheetFormulas.Hyperlink(l.url, l.url))
    else if Truthy(l.text) then l.text
    else l.error
  }

  /** A failed lookup shows its error message in the sheet. */
  lemma ErrorShown(pageUrl: Option<string>, fetch: string -> FetchOutcome, repr: Signals -> string)
    ensures var l := PageLicense(pageUrl, fetch, repr);
            l.error.Some? ==> SheetCellRepresentation(l) == l.error
  {
    PageLicenseShape(pageUrl, fetch, repr);
  }
}
