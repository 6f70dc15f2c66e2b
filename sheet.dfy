/** Cell formulas written into the report sheet (google_apis/sheet.py). */
module SheetFormulas {
  import opened Wrappers
  import opened Text

  /** `s.replace('"', '""')`: a quote inside a formula string is written twice. */
  function Escape(s: string): string {
    Replace(s, "\"", "\"\"")
  }

  /** `s.replace('""', '"')`: reading a doubled quote back as one. */
  function Unescape(s: string): string {
    Replace(s, "\"\"", "\"")
  }

  /** `image_link`: an `=IMAGE` formula, or a placeholder when there is no URL. */
  function ImageLink(url: Option<string>): (r: string)
    ensures r == "none found" <==> url.None?
  {
    if url.None? then "none found"
    else
      var r := "=IMAGE(\"" + url.value + "\")";
      assert r[0] == '=';
      r
  }

  /** `hyperlink`: a placeholder when either part is missing. */
  function Hyperlink(url: Option<string>, text: Option<string>): (r: string)
    ensures r == "not provided" <==> url.None? || text.None?
  {
    if url.None? || text.None? then "not provided" else SafeHyperlink(url.value, text.value)
  }

  /** The parts of a URL that `urlparse` yields and `root_hyperlink` uses. */
  datatype ParsedUrl = ParsedUrl(scheme: string, netloc: string)

  /** `root_hyperlink`: a link to the site root, labelled with the host. */
  function RootHyperlink(url: Option<string>, urlparse: string -> ParsedUrl): (r: string)
    ensures r == "not provided" <==> url.None?
  {
    if url.None? then "not provided"
    else
      var parsed := urlparse(url.value);
      SafeHyperlink(parsed.scheme + "://" + parsed.netloc, parsed.netloc)
  }

  /** `safe_hyperlink`: both arguments quoted, with their quotes doubled. */
  function SafeHyperlink(url: string, text: string): (r: string)
    ensures StartsWith(r, "=HYPERLINK(\"")
  {
    "=HYPERLINK(\"" + Escape(url) + "\", \"" + Escape(text) + "\")"
  }

  predicate QuoteFree(s: string) {
    forall i :: 0 <= i < |s| ==> s[i] != '"'
  }

  /** Escaping goes character by character: a quote doubles, anything else stays. */
  lemma EscapeCons(c: char, s: string)
    ensures Escape([c] + s) == (if c == '"' then "\"\"" else [c]) + Escape(s)
  {
    var t := [c] + s;
    assert t[..1] == [c];
    assert t[1..] == s;
  }

  /** A string without quotes is its own escape. */
  lemma {:induction false} EscapeQuoteFree(s: string)
    requires QuoteFree(s)
    ensures Escape(s) == s
    decreases |s|
  {
    if s != [] {
      EscapeCons(s[0], s[1..]);
      EscapeQuoteFree(s[1..]);
      assert [s[0]] + s[1..] == s;
    }
  }

  /** Replacing `""` by `"` in an escaped string gives the original back. */
  lemma {:induction false} UnescapeEscape(s: string)
    ensures Unescape(Escape(s)) == s
    decreases |s|
  {
    if s != [] {
      EscapeCons(s[0], s[1..]);
      UnescapeEscape(s[1..]);
      var e := Escape(s[1..]);
      if s[0] == '"' {
        var t := "\"\"" + e;
        assert t[..2] == "\"\"" && t[2..] == e;
      } else {
        var t := [s[0]] + e;
        if |t| >= 2 {
          assert t[..2][0] == s[0];
          assert t[1..] == e;
        } else {
          assert e == [];
        }
      }
      assert [s[0]] + s[1..] == s;
    }
  }

  /**
   * A formula string literal read from just after its opening quote: `""`
   * stands for one quote and a lone `"` closes the literal. Gives the text
   * and what follows the closing quote; `None` when the literal is never closed.
   */
  function ReadQuoted(s: string): (r: Option<(string, string)>)
    ensures r.Some? ==> |r.value.1| < |s|
    decreases |s|
  {
    if s == [] then None
    else if s[0] == '"' then
      if |s| >= 2 && s[1] == '"' then
        match ReadQuoted(s[2..])
        case None => None
        case Some(p) => Some(("\"" + p.0, p.1))
      else Some(([], s[1..]))
    else
      match ReadQuoted(s[1..])
      case None => None
      case Some(p) => Some(([s[0]] + p.0, p.1))
  }

  /** An escaped string followed by a closing quote reads back as the string itself. */
  lemma {:induction false} ReadEscaped(x: string, rest: string)
    requires rest == [] || rest[0] != '"'
    ensures ReadQuoted(Escape(x) + "\"" + rest) == Some((x, rest))
    decreases |x|
  {
    var s := Escape(x) + "\"" + rest;
    if x == [] {
      assert s == "\"" + rest;
      assert s[1..] == rest;
    } else {
      EscapeCons(x[0], x[1..]);
      assert [x[0]] + x[1..] == x;
      ReadEscaped(x[1..], rest);
      var tail := Escape(x[1..]) + "\"" + rest;
      if x[0] == '"' {
        assert s == "\"\"" + tail;
        assert s[2..] == tail;
      } else {
        assert s == [x[0]] + tail;
        assert s[1..] == tail;
      }
    }
  }

  /** `=HYPERLINK("<url>", "<text>")` read as a sheet would: both literals decoded, nothing after the `)`. */
  function ReadSafeHyperlink(f: string): Option<(string, string)> {
    if !StartsWith(f, "=HYPERLINK(\"") then None
    else
      match ReadQuoted(f[12..])
      case None => None
      case Some(p) =>
        if !StartsWith(p.1, ", \"") then None
        else
          match ReadQuoted(p.1[3..])
          case None => None
          case Some(q) => if q.1 == ")" then Some((p.0, q.0)) else None
  }

  /**
   * `safe_hyperlink` escapes so that any URL and any text, quotes included,
   * read back from the formula exactly as given.
   */
  lemma SafeHyperlinkReadsBack(url: string, text: string)
    ensures ReadSafeHyperlink(SafeHyperlink(url, text)) == Some((url, text))
  {
    var afterUrl := ", \"" + Escape(text) + "\")";
    assert SafeHyperlink(url, text) == "=HYPERLINK(\"" + Escape(url) + "\"" + afterUrl;
    UrlLiteralReadsBack(url, afterUrl);
    TextLiteralReadsBack(text, afterUrl);
  }

  /** The first literal of the formula reads back as the URL, leaving the rest of the formula. */
  lemma UrlLiteralReadsBack(url: string, afterUrl: string)
    requires afterUrl != [] && afterUrl[0] == ','
    ensures var f := "=HYPERLINK(\"" + Escape(url) + "\"" + afterUrl;
            StartsWith(f, "=HYPERLINK(\"") && ReadQuoted(f[12..]) == Some((url, afterUrl))
  {
    var f := "=HYPERLINK(\"" + Escape(url) + "\"" + afterUrl;
    assert f == "=HYPERLINK(\"" + (Escape(url) + "\"" + afterUrl);
    assert f[12..] == Escape(url) + "\"" + afterUrl;
    ReadEscaped(url, afterUrl);
  }

  /** What follows the first literal is `, ` and the second literal, which reads back as the text and then `)`. */
  lemma TextLiteralReadsBack(text: string, afterUrl: string)
    requires afterUrl == ", \"" + Escape(text) + "\")"
    ensures StartsWith(afterUrl, ", \"") && ReadQuoted(afterUrl[3..]) == Some((text, ")"))
  {
    assert afterUrl[3..] == Escape(text) + "\"" + ")";
    ReadEscaped(text, ")");
  }
}
