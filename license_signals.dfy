/**
 * `parse_html_for_metadata` (licensing/license.py and its older twin
 * license.py, identical in this part): licence evidence collected from a
 * parsed page into an insertion-ordered dict. The page is given as the tag
 * records the HTML parser would find.
 */
module LicenseSignals {
  import opened Wrappers
  import opened Text
  import opened PyDict

  /** A recorded value: a string, or (from JSON-LD only) some other JSON value, known by its Python type name. */
  datatype MetaValue = Str(s: string) | NonStr(typeName: string)

  type Signals = Dict<string, MetaValue>

  /** A `rel` attribute: the parser gives a list of words for `link` and `a`, a plain string otherwise. */
  datatype Rel = RelList(words: seq<string>) | RelStr(s: string)

  /** A `link` or `a` tag that has both `rel` and `href`. */
  datatype RelTag = RelTag(rel: Rel, href: string)

  /**
   * What `json.loads(script.string)` gives for one JSON-LD script: a script
   * with no single string child makes it raise `TypeError` (not caught
   * here); malformed JSON raises `JSONDecodeError` (caught, script skipped);
   * otherwise the value under "license" if the JSON is an object holding
   * that key, and `None` if it is not.
   */
  datatype JsonLd = NoScriptString | DecodeError | Decoded(license: Option<MetaValue>)

  /** An `img`, `figure`, `figcaption`, `span` or `div` tag with its `alt` and `title` attributes. */
  datatype OtherTag = OtherTag(name: string, alt: Option<string>, title: Option<string>)

  /** The parts of a page the scan reads. `visibleText` is `soup.get_text(separator=' ')`. */
  datatype Document = Document(metaTags: seq<map<string, string>>, linkTags: seq<RelTag>, aTags: seq<RelTag>,
                               jsonLd: seq<JsonLd>, visibleText: string, otherTags: seq<OtherTag>)

  const MetaKeys: seq<string> := ["name", "property", "itemprop", "rel"]
  const MetaTerms: seq<string> :=
    ["license", "copyright", "rights", "og:copyright", "og:license", "dc.rights", "dc.license", "cc:license"]
  const Keywords: seq<string> := ["license", "creativecommons", "cc-", "public domain", "usage rights"]
  const AltTerms: seq<string> := ["license", "cc", "copyright"]

  /** The message of the `TypeError` that `json.loads(None)` raises. */
  const NoStringMessage := "the JSON object must be str, bytes or bytearray, not NoneType"

  /** `attrs.get(key, default)` */
  function Attr(attrs: map<string, string>, key: string, default: string): string {
    if key in attrs then attrs[key] else default
  }

  /** `any(t in v for t in terms)` */
  predicate AnyIn(terms: seq<string>, v: string) {
    exists i :: 0 <= i < |terms| && Contains(v, terms[i])
  }

  /** The eight meta terms come down to three: every longer one contains "license", "copyright" or "rights". */
  lemma MetaTermsReduce(v: string)
    ensures AnyIn(MetaTerms, v) <==> Contains(v, "license") || Contains(v, "copyright") || Contains(v, "rights")
  {
    if AnyIn(MetaTerms, v) {
      var i :| 0 <= i < |MetaTerms| && Contains(v, MetaTerms[i]);
      if i == 3 {
        assert OccursAt(MetaTerms[3], "copyright", 3);
        ContainsOccurrence(MetaTerms[3], "copyright", 3);
        ContainsTransitive(v, MetaTerms[3], "copyright");
      } else if i == 4 {
        assert OccursAt(MetaTerms[4], "license", 3);
        ContainsOccurrence(MetaTerms[4], "license", 3);
        ContainsTransitive(v, MetaTerms[4], "license");
      } else if i == 5 {
        assert OccursAt(MetaTerms[5], "rights", 3);
        ContainsOccurrence(MetaTerms[5], "rights", 3);
        ContainsTransitive(v, MetaTerms[5], "rights");
      } else if i == 6 {
        assert OccursAt(MetaTerms[6], "license", 3);
        ContainsOccurrence(MetaTerms[6], "license", 3);
        ContainsTransitive(v, MetaTerms[6], "license");
      } else if i == 7 {
        assert OccursAt(MetaTerms[7], "license", 3);
        ContainsOccurrence(MetaTerms[7], "license", 3);
        ContainsTransitive(v, MetaTerms[7], "license");
      }
    }
    if Contains(v, "license") { assert Contains(v, MetaTerms[0]); }
    if Contains(v, "copyright") { assert Contains(v, MetaTerms[1]); }
    if Contains(v, "rights") { assert Contains(v, MetaTerms[2]); }
  }

  // ---- meta tags ----

  /** One attribute key of a meta tag: a licence term in its lower-cased value records the tag's content under that value. */
  function MetaAttrStep(d: Signals, attrs: map<string, string>, key: string): Signals {
    var v := Lower(Attr(attrs, key, ""));
    if AnyIn(MetaTerms, v) then
      var content := Attr(attrs, "content", Attr(attrs, "value", ""));
      if content != "" then Set(d, v, Str(content)) else d
    else d
  }

  function MetaAttrs(d: Signals, attrs: map<string, string>, keys: seq<string>): Signals
    decreases |keys|
  {
    if keys == [] then d
    else MetaAttrStep(MetaAttrs(d, attrs, keys[..|keys| - 1]), attrs, keys[|keys| - 1])
  }

  /** One keyword against a meta tag's lower-cased content, recorded under `meta:contains:<keyword>`. */
  function MetaKeywordStep(d: Signals, attrs: map<string, string>, keyword: string): Signals {
    var content := Lower(Attr(attrs, "content", ""));
    if Contains(content, keyword) then Set(d, "meta:contains:" + keyword, Str(content)) else d
  }

  function MetaKeywords(d: Signals, attrs: map<string, string>, keywords: seq<string>): Signals
    decreases |keywords|
  {
    if keywords == [] then d
    else MetaKeywordStep(MetaKeywords(d, attrs, keywords[..|keywords| - 1]), attrs, keywords[|keywords| - 1])
  }

  function MetaTag(d: Signals, attrs: map<string, string>): Signals {
    MetaKeywords(MetaAttrs(d, attrs, MetaKeys), attrs, Keywords)
  }

  function MetaTags(d: Signals, tags: seq<map<string, string>>): Signals
    decreases |tags|
  {
    if tags == [] then d else MetaTag(MetaTags(d, tags[..|tags| - 1]), tags[|tags| - 1])
  }

  /**
   * A meta attribute whose lower-cased value holds a licence term records
   * the tag's non-empty content (`content`, else `value`) under that value;
   * a key already there keeps its place and takes the new content.
   */
  lemma MetaAttrRecords(d: Signals, attrs: map<string, string>, key: string)
    ensures var v := Lower(Attr(attrs, key, ""));
            var content := Attr(attrs, "content", Attr(attrs, "value", ""));
            var r := MetaAttrStep(d, attrs, key);
            if AnyIn(MetaTerms, v) && content != "" then
              && Get(r, v, Str("")) == Str(content)
              && Keys(r) == (if v in Keys(d) then Keys(d) else Keys(d) + [v])
              && (forall k :: k != v ==> Get(r, k, Str("")) == Get(d, k, Str("")))
            else r == d
  {
    var v := Lower(Attr(attrs, key, ""));
    var content := Attr(attrs, "content", Attr(attrs, "value", ""));
    if AnyIn(MetaTerms, v) && content != "" {
      SetKeys(d, v, Str(content));
      forall k ensures Get(Set(d, v, Str(content)), k, Str("")) == if k == v then Str(content) else Get(d, k, Str("")) {
        SetGet(d, v, Str(content), k, Str(""));
      }
    }
  }

  // ---- link and a tags ----

  /** `" ".join(rel)` for a list, the string itself otherwise. */
  function RelText(rel: Rel): string {
    match rel
    case RelList(words) => Join(words, " ")
    case RelStr(s) => s
  }

  predicate RelNamesLicense(tag: RelTag) {
    Contains(Lower(RelText(tag.rel)), "license")
  }

  function RelTags(d: Signals, tags: seq<RelTag>, key: string): Signals
    decreases |tags|
  {
    if tags == [] then d
    else
      var rest := RelTags(d, tags[..|tags| - 1], key);
      var tag := tags[|tags| - 1];
      if RelNamesLicense(tag) then Set(rest, key, Str(tag.href)) else rest
  }

  /** Without a licence `rel` the tags leave the dict alone; with some, the last one's `href` is what remains. */
  lemma RelTagsLastWins(d: Signals, tags: seq<RelTag>, key: string)
    ensures (forall i :: 0 <= i < |tags| ==> !RelNamesLicense(tags[i])) ==> RelTags(d, tags, key) == d
    ensures forall i :: 0 <= i < |tags| && RelNamesLicense(tags[i])
                        && (forall j :: i < j < |tags| ==> !RelNamesLicense(tags[j])) ==>
              Get(RelTags(d, tags, key), key, Str("")) == Str(tags[i].href)
  {
    if forall i :: 0 <= i < |tags| ==> !RelNamesLicense(tags[i]) {
      RelTagsUntouched(d, tags, key);
    }
    forall i | 0 <= i < |tags| && RelNamesLicense(tags[i]) && (forall j :: i < j < |tags| ==> !RelNamesLicense(tags[j]))
      ensures Get(RelTags(d, tags, key), key, Str("")) == Str(tags[i].href)
    {
      RelTagLast(d, tags, key, i);
    }
  }

  lemma {:induction false} RelTagsUntouched(d: Signals, tags: seq<RelTag>, key: string)
    requires forall i :: 0 <= i < |tags| ==> !RelNamesLicense(tags[i])
    ensures RelTags(d, tags, key) == d
    decreases |tags|
  {
    if tags != [] {
      var n := |tags| - 1;
      assert forall i :: 0 <= i < n ==> tags[..n][i] == tags[i];
      RelTagsUntouched(d, tags[..n], key);
    }
  }

  lemma {:induction false} RelTagLast(d: Signals, tags: seq<RelTag>, key: string, i: nat)
    requires i < |tags| && RelNamesLicense(tags[i])
    requires forall j :: i < j < |tags| ==> !RelNamesLicense(tags[j])
    ensures Get(RelTags(d, tags, key), key, Str("")) == Str(tags[i].href)
    decreases |tags|
  {
    var n := |tags| - 1;
    var front := tags[..n];
    var rest := RelTags(d, front, key);
    if i == n {
      SetGet(rest, key, Str(tags[n].href), key, Str(""));
    } else {
      assert front[i] == tags[i];
      assert forall j :: i < j < |front| ==> front[j] == tags[j];
      RelTagLast(d, front, key, i);
    }
  }

  // ---- JSON-LD ----

  function JsonLdStep(d: Signals, script: JsonLd): Result<Signals> {
    match script
    case NoScriptString => Raised(NoStringMessage)
    case DecodeError => Ok(d)
    case Decoded(license) => if license.Some? then Ok(Set(d, "schema:license", license.value)) else Ok(d)
  }

  function JsonLdScripts(d: Signals, scripts: seq<JsonLd>): Result<Signals>
    decreases |scripts|
  {
    if scripts == [] then Ok(d)
    else
      match JsonLdScripts(d, scripts[..|scripts| - 1])
      case Raised(e) => Raised(e)
      case Ok(m) => JsonLdStep(m, scripts[|scripts| - 1])
  }

  /**
   * A script without a string raises out of the scan; otherwise only a
   * decoded object with a "license" key is recorded, so scripts that fail
   * to decode or hold no licence leave the dict alone.
   */
  lemma {:induction false} JsonLdOutcome(d: Signals, scripts: seq<JsonLd>)
    ensures JsonLdScripts(d, scripts).Raised? <==> exists i :: 0 <= i < |scripts| && scripts[i] == NoScriptString
    ensures JsonLdScripts(d, scripts).Raised? ==> JsonLdScripts(d, scripts).exception == NoStringMessage
    ensures (forall i :: 0 <= i < |scripts| ==> scripts[i] == DecodeError || scripts[i] == Decoded(None)) ==>
              JsonLdScripts(d, scripts) == Ok(d)
    decreases |scripts|
  {
    if scripts != [] {
      var n := |scripts| - 1;
      JsonLdOutcome(d, scripts[..n]);
      assert forall i :: 0 <= i < n ==> scripts[..n][i] == scripts[i];
    }
  }

  // ---- visible text ----

  /** Index of the first '.' in `t`, if any. */
  function FirstDot(t: string): (r: Option<nat>)
    ensures r.Some? ==> r.value < |t| && t[r.value] == '.' && forall j :: 0 <= j < r.value ==> t[j] != '.'
    ensures r.None? ==> forall j :: 0 <= j < |t| ==> t[j] != '.'
    decreases |t|
  {
    if t == [] then None
    else if t[0] == '.' then Some(0)
    else match FirstDot(t[1..])
      case None => None
      case Some(i) => Some(i + 1)
  }

  /** A non-empty piece whose last character is a '.'. */
  predicate EndsWithDot(s: string) {
    |s| > 0 && s[|s| - 1] == '.'
  }

  /** A piece ending with its only '.'. */
  predicate DotPiece(s: string) {
    EndsWithDot(s) && forall j :: 0 <= j < |s| - 1 ==> s[j] != '.'
  }

  /** The text cut into '.'-terminated pieces; a tail without a '.' is dropped. */
  function DotSegments(t: string): (r: seq<string>)
    ensures forall k :: 0 <= k < |r| ==> DotPiece(r[k])
    decreases |t|
  {
    match FirstDot(t)
    case None => []
    case Some(i) => [t[..i + 1]] + DotSegments(t[i + 1..])
  }

  /** The pieces written one after the other. */
  function Joined(pieces: seq<string>): string
    decreases |pieces|
  {
    if pieces == [] then [] else pieces[0] + Joined(pieces[1..])
  }

  /**
   * The pieces tile the text: joined, they are the text up to and including
   * its last '.', and what they leave out holds no '.'.
   */
  lemma {:induction false} DotSegmentsTile(t: string)
    ensures var j := Joined(DotSegments(t));
            |j| <= |t| && t[..|j|] == j && forall m :: |j| <= m < |t| ==> t[m] != '.'
    decreases |t|
  {
    match FirstDot(t)
    case None =>
      assert DotSegments(t) == [];
    case Some(i) =>
      var rest := t[i + 1..];
      DotSegmentsTile(rest);
      var segs := DotSegments(t);
      assert segs == [t[..i + 1]] + DotSegments(rest);
      assert segs[0] == t[..i + 1] && segs[1..] == DotSegments(rest);
      var jr := Joined(DotSegments(rest));
      assert Joined(segs) == t[..i + 1] + jr;
      TileAfterPiece(t, i + 1, jr);
  }

  /** A prefix of the text after its first `n` characters extends to a prefix of the text. */
  lemma TileAfterPiece(t: string, n: nat, jr: string)
    requires n <= |t| && |jr| <= |t| - n && t[n..][..|jr|] == jr
    requires forall m :: |jr| <= m < |t| - n ==> t[n..][m] != '.'
    ensures t[..n + |jr|] == t[..n] + jr
    ensures forall m :: n + |jr| <= m < |t| ==> t[m] != '.'
  {
    assert t[..n + |jr|] == t[..n] + t[n..][..|jr|];
    forall m | n + |jr| <= m < |t|
      ensures t[m] != '.'
    {
      assert t[m] == t[n..][m - n];
    }
  }

  /**
   * `re.findall(r"([^.]*?<kw>[^.]*\.)", text)` for a keyword without '.':
   * a match cannot cross a '.', and each attempt starting at a piece's first
   * character succeeds exactly when the piece holds the keyword, so the
   * matches are the '.'-terminated pieces that contain it.
   */
  function Sentences(t: string, keyword: string): (r: seq<string>)
    ensures forall k :: 0 <= k < |r| ==> Contains(r[k], keyword) && EndsWithDot(r[k])
    ensures forall k :: 0 <= k < |DotSegments(t)| && Contains(DotSegments(t)[k], keyword) ==> DotSegments(t)[k] in r
  {
    FilterContaining(DotSegments(t), keyword)
  }

  /** Every piece ends with a '.'. */
  predicate DotTerminated(pieces: seq<string>) {
    forall k :: 0 <= k < |pieces| ==> EndsWithDot(pieces[k])
  }

  function FilterContaining(pieces: seq<string>, keyword: string): (r: seq<string>)
    requires DotTerminated(pieces)
    ensures |r| <= |pieces|
    ensures forall k :: 0 <= k < |r| ==> Contains(r[k], keyword) && EndsWithDot(r[k])
    ensures forall k :: 0 <= k < |pieces| && Contains(pieces[k], keyword) ==> pieces[k] in r
    decreases |pieces|
  {
    if pieces == [] then []
    else
      var rest := FilterContaining(pieces[1..], keyword);
      assert forall k :: 1 <= k < |pieces| ==> pieces[k] == pieces[1..][k - 1];
      (if Contains(pieces[0], keyword) then [pieces[0]] else []) + rest
  }

  /** The filter keeps the pieces' order: filtering a concatenation filters each part. */
  lemma {:induction false} FilterContainingConcat(a: seq<string>, b: seq<string>, keyword: string)
    requires DotTerminated(a) && DotTerminated(b)
    ensures DotTerminated(a + b)
    ensures FilterContaining(a + b, keyword) == FilterContaining(a, keyword) + FilterContaining(b, keyword)
    decreases |a|
  {
    if a == [] {
      assert a + b == b;
    } else {
      var ab := a + b;
      assert ab[0] == a[0];
      assert ab[1..] == a[1..] + b;
      assert DotTerminated(a[1..]);
      FilterContainingConcat(a[1..], b, keyword);
      var head := if Contains(a[0], keyword) then [a[0]] else [];
      assert FilterContaining(ab, keyword) == head + FilterContaining(a[1..] + b, keyword);
      assert FilterContaining(a, keyword) == head + FilterContaining(a[1..], keyword);
      AppendAssoc(head, FilterContaining(a[1..], keyword), FilterContaining(b, keyword));
    }
  }

  function SentenceSteps(d: Signals, key: string, sentences: seq<string>): Signals
    decreases |sentences|
  {
    if sentences == [] then d
    else Set(SentenceSteps(d, key, sentences[..|sentences| - 1]), key, Str(Strip(sentences[|sentences| - 1])))
  }

  /** Storing every sentence under one key leaves the last one, stripped, in the place of the first store. */
  lemma {:induction false} SentenceStepsLast(d: Signals, key: string, sentences: seq<string>)
    ensures sentences == [] ==> SentenceSteps(d, key, sentences) == d
    ensures sentences != [] ==> SentenceSteps(d, key, sentences) == Set(d, key, Str(Strip(sentences[|sentences| - 1])))
    decreases |sentences|
  {
    if |sentences| > 1 {
      var n := |sentences| - 1;
      SentenceStepsLast(d, key, sentences[..n]);
      SetSet(d, key, Str(Strip(sentences[n - 1])), Str(Strip(sentences[n])));
    }
  }

  function TextKeywordStep(d: Signals, text: string, keyword: string): Signals {
    if Contains(text, keyword) then SentenceSteps(d, "text:" + keyword, Sentences(text, keyword)) else d
  }

  function TextKeywords(d: Signals, text: string, keywords: seq<string>): Signals
    decreases |keywords|
  {
    if keywords == [] then d
    else TextKeywordStep(TextKeywords(d, text, keywords[..|keywords| - 1]), text, keywords[|keywords| - 1])
  }

  /**
   * A keyword of the text records, under `text:<keyword>`, the last sentence
   * holding it, stripped; a keyword in no '.'-terminated sentence records nothing.
   */
  lemma TextKeywordRecords(d: Signals, text: string, keyword: string)
    ensures var ss := Sentences(text, keyword);
            var r := TextKeywordStep(d, text, keyword);
            if Contains(text, keyword) && ss != [] then
              && Get(r, "text:" + keyword, Str("")) == Str(Strip(ss[|ss| - 1]))
              && Keys(r) == (if "text:" + keyword in Keys(d) then Keys(d) else Keys(d) + ["text:" + keyword])
            else r == d
  {
    var ss := Sentences(text, keyword);
    SentenceStepsLast(d, "text:" + keyword, ss);
    if Contains(text, keyword) && ss != [] {
      SetGet(d, "text:" + keyword, Str(Strip(ss[|ss| - 1])), "text:" + keyword, Str(""));
      SetKeys(d, "text:" + keyword, Str(Strip(ss[|ss| - 1])));
    }
  }

  // ---- other tags ----

  /** `tag.get("alt", "") or tag.get("title", "")` */
  function AltOrTitle(tag: OtherTag): (r: string)
    ensures tag.alt.Some? && tag.alt.value != "" ==> r == tag.alt.value
    ensures (tag.alt.None? || tag.alt.value == "") ==> r == tag.title.GetOr("")
  {
    var alt := tag.alt.GetOr("");
    if alt != "" then alt else tag.title.GetOr("")
  }

  function OtherTagStep(d: Signals, tag: OtherTag): Signals {
    var alt := AltOrTitle(tag);
    if alt != "" && AnyIn(AltTerms, Lower(alt)) then Set(d, tag.name + ":alt_or_title", Str(alt)) else d
  }

  function OtherTags(d: Signals, tags: seq<OtherTag>): Signals
    decreases |tags|
  {
    if tags == [] then d else OtherTagStep(OtherTags(d, tags[..|tags| - 1]), tags[|tags| - 1])
  }

  // ---- the whole scan ----

  /** The signals of a page, stage by stage as the scan collects them, or the error that ends it. */
  function PageSignals(doc: Document): Result<Signals> {
    var tagged := RelTags(RelTags(MetaTags([], doc.metaTags), doc.linkTags, "link:license"), doc.aTags, "a:license");
    match JsonLdScripts(tagged, doc.jsonLd)
    case Raised(e) => Raised(e)
    case Ok(m) => Ok(OtherTags(TextKeywords(m, Lower(doc.visibleText), Keywords), doc.otherTags))
  }

  /** Every stage only assigns keys, so the result keeps distinct keys. */
  lemma PageSignalsDistinct(doc: Document)
    ensures PageSignals(doc).Ok? ==> DistinctKeys(PageSignals(doc).value)
  {
    var m0 := MetaTags([], doc.metaTags);
    MetaTagsDistinct([], doc.metaTags);
    RelTagsDistinct(m0, doc.linkTags, "link:license");
    var m1 := RelTags(m0, doc.linkTags, "link:license");
    RelTagsDistinct(m1, doc.aTags, "a:license");
    var m2 := RelTags(m1, doc.aTags, "a:license");
    JsonLdDistinct(m2, doc.jsonLd);
    if JsonLdScripts(m2, doc.jsonLd).Ok? {
      var m3 := JsonLdScripts(m2, doc.jsonLd).value;
      TextKeywordsDistinct(m3, Lower(doc.visibleText), Keywords);
      OtherTagsDistinct(TextKeywords(m3, Lower(doc.visibleText), Keywords), doc.otherTags);
    }
  }

  lemma {:induction false} MetaTagsDistinct(d: Signals, tags: seq<map<string, string>>)
    requires DistinctKeys(d)
    ensures DistinctKeys(MetaTags(d, tags))
    decreases |tags|
  {
    if tags != [] {
      var n := |tags| - 1;
      MetaTagsDistinct(d, tags[..n]);
      var m := MetaTags(d, tags[..n]);
      MetaAttrsDistinct(m, tags[n], MetaKeys);
      MetaKeywordsDistinct(MetaAttrs(m, tags[n], MetaKeys), tags[n], Keywords);
    }
  }

  lemma {:induction false} MetaAttrsDistinct(d: Signals, attrs: map<string, string>, keys: seq<string>)
    requires DistinctKeys(d)
    ensures DistinctKeys(MetaAttrs(d, attrs, keys))
    decreases |keys|
  {
    if keys != [] {
      var n := |keys| - 1;
      MetaAttrsDistinct(d, attrs, keys[..n]);
      var m := MetaAttrs(d, attrs, keys[..n]);
      var v := Lower(Attr(attrs, keys[n], ""));
      SetDistinct(m, v, Str(Attr(attrs, "content", Attr(attrs, "value", ""))));
    }
  }

  lemma {:induction false} MetaKeywordsDistinct(d: Signals, attrs: map<string, string>, keywords: seq<string>)
    requires DistinctKeys(d)
    ensures DistinctKeys(MetaKeywords(d, attrs, keywords))
    decreases |keywords|
  {
    if keywords != [] {
      var n := |keywords| - 1;
      MetaKeywordsDistinct(d, attrs, keywords[..n]);
      var m := MetaKeywords(d, attrs, keywords[..n]);
      SetDistinct(m, "meta:contains:" + keywords[n], Str(Lower(Attr(attrs, "content", ""))));
    }
  }

  lemma {:induction false} RelTagsDistinct(d: Signals, tags: seq<RelTag>, key: string)
    requires DistinctKeys(d)
    ensures DistinctKeys(RelTags(d, tags, key))
    decreases |tags|
  {
    if tags != [] {
      var n := |tags| - 1;
      RelTagsDistinct(d, tags[..n], key);
      SetDistinct(RelTags(d, tags[..n], key), key, Str(tags[n].href));
    }
  }

  lemma {:induction false} JsonLdDistinct(d: Signals, scripts: seq<JsonLd>)
    requires DistinctKeys(d)
    ensures JsonLdScripts(d, scripts).Ok? ==> DistinctKeys(JsonLdScripts(d, scripts).value)
    decreases |scripts|
  {
    if scripts != [] {
      var n := |scripts| - 1;
      JsonLdDistinct(d, scripts[..n]);
      var prev := JsonLdScripts(d, scripts[..n]);
      if prev.Ok? && scripts[n].Decoded? && scripts[n].license.Some? {
        SetDistinct(prev.value, "schema:license", scripts[n].license.value);
      }
    }
  }

  lemma {:induction false} TextKeywordsDistinct(d: Signals, text: string, keywords: seq<string>)
    requires DistinctKeys(d)
    ensures DistinctKeys(TextKeywords(d, text, keywords))
    decreases |keywords|
  {
    if keywords != [] {
      var n := |keywords| - 1;
      TextKeywordsDistinct(d, text, keywords[..n]);
      var m := TextKeywords(d, text, keywords[..n]);
      var ss := Sentences(text, keywords[n]);
      SentenceStepsLast(m, "text:" + keywords[n], ss);
      if ss != [] {
        SetDistinct(m, "text:" + keywords[n], Str(Strip(ss[|ss| - 1])));
      }
    }
  }

  lemma {:induction false} OtherTagsDistinct(d: Signals, tags: seq<OtherTag>)
    requires DistinctKeys(d)
    ensures DistinctKeys(OtherTags(d, tags))
    decreases |tags|
  {
    if tags != [] {
      var n := |tags| - 1;
      OtherTagsDistinct(d, tags[..n]);
      SetDistinct(OtherTags(d, tags[..n]), tags[n].name + ":alt_or_title", Str(AltOrTitle(tags[n])));
    }
  }

  /** The scan of `parse_html_for_metadata`, before the verdict: loops over the page's tags, filling the dict in place. */
  method ScanPage(doc: Document) returns (r: Result<Signals>)
    ensures r == PageSignals(doc)
  {
    var info := ScanMetaTags([], doc.metaTags);
    info := ScanRelTags(info, doc.linkTags, "link:license");
    info := ScanRelTags(info, doc.aTags, "a:license");
    var scripts := ScanJsonLd(info, doc.jsonLd);
    if scripts.Raised? {
      return Raised(scripts.exception);
    }
    info := ScanText(scripts.value, Lower(doc.visibleText));
    info := ScanOtherTags(info, doc.otherTags);
    return Ok(info);
  }

  method ScanMetaTags(start: Signals, tags: seq<map<string, string>>) returns (info: Signals)
    ensures info == MetaTags(start, tags)
  {
    info := start;
    for i := 0 to |tags|
      invariant info == MetaTags(start, tags[..i])
    {
      assert tags[..i + 1][..i] == tags[..i];
      var attrs := tags[i];
      info := ScanMetaAttrs(info, attrs);
      info := ScanMetaKeywords(info, attrs);
    }
    assert tags[..|tags|] == tags;
  }

  /** The loop over the meta attribute names, for one tag. */
  method ScanMetaAttrs(start: Signals, attrs: map<string, string>) returns (info: Signals)
    ensures info == MetaAttrs(start, attrs, MetaKeys)
  {
    info := start;
    for j := 0 to |MetaKeys|
      invariant info == MetaAttrs(start, attrs, MetaKeys[..j])
    {
      assert MetaKeys[..j + 1][..j] == MetaKeys[..j];
      var v := Lower(Attr(attrs, MetaKeys[j], ""));
      if AnyIn(MetaTerms, v) {
        var content := Attr(attrs, "content", Attr(attrs, "value", ""));
        if content != "" {
          info := Set(info, v, Str(content));
        }
      }
    }
    assert MetaKeys[..|MetaKeys|] == MetaKeys;
  }

  /** The loop over the keywords, for one tag. */
  method ScanMetaKeywords(start: Signals, attrs: map<string, string>) returns (info: Signals)
    ensures info == MetaKeywords(start, attrs, Keywords)
  {
    info := start;
    for j := 0 to |Keywords|
      invariant info == MetaKeywords(start, attrs, Keywords[..j])
    {
      assert Keywords[..j + 1][..j] == Keywords[..j];
      var content := Lower(Attr(attrs, "content", ""));
      if Contains(content, Keywords[j]) {
        info := Set(info, "meta:contains:" + Keywords[j], Str(content));
      }
    }
    assert Keywords[..|Keywords|] == Keywords;
  }

  method ScanRelTags(start: Signals, tags: seq<RelTag>, key: string) returns (info: Signals)
    ensures info == RelTags(start, tags, key)
  {
    info := start;
    for i := 0 to |tags|
      invariant info == RelTags(start, tags[..i], key)
    {
      assert tags[..i + 1][..i] == tags[..i];
      var rel := RelText(tags[i].rel);
      if Contains(Lower(rel), "license") {
        info := Set(info, key, Str(tags[i].href));
      }
    }
    assert tags[..|tags|] == tags;
  }

  method ScanJsonLd(start: Signals, scripts: seq<JsonLd>) returns (r: Result<Signals>)
    ensures r == JsonLdScripts(start, scripts)
  {
    var info := start;
    for i := 0 to |scripts|
      invariant JsonLdScripts(start, scripts[..i]) == Ok(info)
    {
      assert scripts[..i + 1][..i] == scripts[..i];
      match scripts[i]
      case NoScriptString =>
        JsonLdRaisedStays(start, scripts, i + 1);
        assert scripts[..|scripts|] == scripts;
        return Raised(NoStringMessage);
      case DecodeError =>
      case Decoded(license) =>
        if license.Some? {
          info := Set(info, "schema:license", license.value);
        }
    }
    assert scripts[..|scripts|] == scripts;
    return Ok(info);
  }

  /** Once a script has raised, later scripts cannot undo it. */
  lemma {:induction false} JsonLdRaisedStays(d: Signals, scripts: seq<JsonLd>, i: nat)
    requires 0 < i <= |scripts| && JsonLdScripts(d, scripts[..i]) == Raised(NoStringMessage)
    ensures JsonLdScripts(d, scripts) == Raised(NoStringMessage)
    decreases |scripts| - i
  {
    if i < |scripts| {
      assert scripts[..i + 1][..i] == scripts[..i];
      JsonLdRaisedStays(d, scripts, i + 1);
    } else {
      assert scripts[..i] == scripts;
    }
  }

  method ScanText(start: Signals, text: string) returns (info: Signals)
    ensures info == TextKeywords(start, text, Keywords)
  {
    info := start;
    for i := 0 to |Keywords|
      invariant info == TextKeywords(start, text, Keywords[..i])
    {
      assert Keywords[..i + 1][..i] == Keywords[..i];
      var keyword := Keywords[i];
      if Contains(text, keyword) {
        info := StoreSentences(info, "text:" + keyword, Sentences(text, keyword));
      }
    }
    assert Keywords[..|Keywords|] == Keywords;
  }

  /** The loop storing each sentence, stripped, under one key. */
  method StoreSentences(start: Signals, key: string, sentences: seq<string>) returns (info: Signals)
    ensures info == SentenceSteps(start, key, sentences)
  {
    info := start;
    for j := 0 to |sentences|
      invariant info == SentenceSteps(start, key, sentences[..j])
    {
      assert sentences[..j + 1][..j] == sentences[..j];
      info := Set(info, key, Str(Strip(sentences[j])));
    }
    assert sentences[..|sentences|] == sentences;
  }

  method ScanOtherTags(start: Signals, tags: seq<OtherTag>) returns (info: Signals)
    ensures info == OtherTags(start, tags)
  {
    info := start;
    for i := 0 to |tags|
      invariant info == OtherTags(start, tags[..i])
    {
      assert tags[..i + 1][..i] == tags[..i];
      var alt := AltOrTitle(tags[i]);
      if alt != "" && AnyIn(AltTerms, Lower(alt)) {
        info := Set(info, tags[i].name + ":alt_or_title", Str(alt));
      }
    }
    assert tags[..|tags|] == tags;
  }
}
