/** The per-image match list: deduplication, eligibility for more results, ordering, publishing (licensing/image.py). */
module Images {
  import opened Wrappers
  import opened Text
  import opened Vision
  import opened Licenses
  import LicenseSignals
  import SheetFormulas
  import StableSort

  /** The search settings an image consults. */
  datatype SearchConfig = SearchConfig(resultIncrement: int, maxResultsForText: int,
                                       maxResultsForUrl: int, maxResultsForCreativeCommons: int)

  /** A match once it is stored: the search tuple, its position in the list, and the page's licence. */
  datatype ImageMatch = ImageMatch(pageUrl: Option<string>, title: Option<string>, imageUrl: Option<string>,
                                   matchingType: string, matchingIndex: nat, license: License)

  /** `ImageMatch.has_license_text` */
  predicate HasLicenseText(m: ImageMatch) {
    Truthy(m.license.text)
  }

  /** `ImageMatch.has_license_url` */
  predicate HasLicenseUrl(m: ImageMatch) {
    Truthy(m.license.url)
  }

  function PageUrls(ms: seq<ImageMatch>): (r: seq<Option<string>>)
    ensures |r| == |ms| && forall i :: 0 <= i < |ms| ==> r[i] == ms[i].pageUrl
  {
    seq(|ms|, i requires 0 <= i < |ms| => ms[i].pageUrl)
  }

  /** `has_creative_commons_license` (and `has_enough`, which is the same) */
  predicate AnyCreativeCommons(ms: seq<ImageMatch>) {
    exists i :: 0 <= i < |ms| && IsCreativeCommonsLicense(ms[i].license)
  }

  /** `has_license_url` */
  predicate AnyLicenseUrl(ms: seq<ImageMatch>) {
    exists i :: 0 <= i < |ms| && HasLicenseUrl(ms[i])
  }

  /** `has_license_text` */
  predicate AnyLicenseText(ms: seq<ImageMatch>) {
    exists i :: 0 <= i < |ms| && HasLicenseText(ms[i])
  }

  /**
   * `is_eligible_to_get_more_matches`: some kind of evidence (text, URL,
   * Creative Commons) is still missing and the list is below that kind's cap.
   */
  predicate Eligible(ms: seq<ImageMatch>, config: SearchConfig) {
    || (!AnyLicenseText(ms) && |ms| < config.maxResultsForText)
    || (!AnyLicenseUrl(ms) && |ms| < config.maxResultsForUrl)
    || (!AnyCreativeCommons(ms) && |ms| < config.maxResultsForCreativeCommons)
  }

  /** Once every cap is reached, an image asks for nothing more, whatever it found. */
  lemma CapsEndEligibility(ms: seq<ImageMatch>, config: SearchConfig)
    requires |ms| >= config.maxResultsForText && |ms| >= config.maxResultsForUrl
    requires |ms| >= config.maxResultsForCreativeCommons
    ensures !Eligible(ms, config)
  {
  }

  /** Each kind of evidence, once found, closes its own disjunct. */
  lemma EvidenceClosesDisjuncts(ms: seq<ImageMatch>, config: SearchConfig)
    ensures AnyLicenseText(ms) && AnyLicenseUrl(ms) && AnyCreativeCommons(ms) ==> !Eligible(ms, config)
    ensures !AnyLicenseText(ms) && !AnyLicenseUrl(ms) && !AnyCreativeCommons(ms) ==>
              (Eligible(ms, config) <==> |ms| < config.maxResultsForText || |ms| < config.maxResultsForUrl
                                         || |ms| < config.maxResultsForCreativeCommons)
  {
  }

  /** A Creative Commons licence also counts as licence text. */
  lemma CreativeCommonsIsText(ms: seq<ImageMatch>)
    ensures AnyCreativeCommons(ms) ==> AnyLicenseText(ms)
  {
  }

  /** Appending a match never makes an ineligible image eligible again. */
  lemma IneligibleStays(ms: seq<ImageMatch>, m: ImageMatch, config: SearchConfig)
    requires !Eligible(ms, config)
    ensures !Eligible(ms + [m], config)
  {
    var ms' := ms + [m];
    if AnyLicenseText(ms) {
      var i :| 0 <= i < |ms| && HasLicenseText(ms[i]);
      assert ms'[i] == ms[i];
    }
    if AnyLicenseUrl(ms) {
      var i :| 0 <= i < |ms| && HasLicenseUrl(ms[i]);
      assert ms'[i] == ms[i];
    }
    if AnyCreativeCommons(ms) {
      var i :| 0 <= i < |ms| && IsCreativeCommonsLicense(ms[i].license);
      assert ms'[i] == ms[i];
    }
  }

  /** `match_limit`: the number of results to ask for next time, `result_increment` beyond those held. */
  function MatchLimit(ms: seq<ImageMatch>, config: SearchConfig): (r: int)
    ensures r >= |ms| <==> config.resultIncrement >= 0
    ensures r - |ms| == config.resultIncrement
  {
    |ms| + config.resultIncrement
  }

  /**
   * `sort_key`: the tuple `(not cc, not url, not text)` read as a number,
   * so that comparing keys compares the tuples (see `SortKeyOrder`).
   */
  function SortKey(m: ImageMatch): (k: nat)
    ensures k < 8
  {
    (if IsCreativeCommonsLicense(m.license) then 0 else 4)
    + (if HasLicenseUrl(m) then 0 else 2)
    + (if HasLicenseText(m) then 0 else 1)
  }

  /** Python's ordering of booleans (`False < True`) extended to triples, lexicographically. */
  predicate TripleLess(a: (bool, bool, bool), b: (bool, bool, bool)) {
    (!a.0 && b.0) || (a.0 == b.0 && ((!a.1 && b.1) || (a.1 == b.1 && !a.2 && b.2)))
  }

  function KeyTriple(m: ImageMatch): (bool, bool, bool) {
    (!IsCreativeCommonsLicense(m.license), !HasLicenseUrl(m), !HasLicenseText(m))
  }

  /** Comparing the numeric keys is comparing the tuples Python compares. */
  lemma SortKeyOrder(a: ImageMatch, b: ImageMatch)
    ensures SortKey(a) < SortKey(b) <==> TripleLess(KeyTriple(a), KeyTriple(b))
    ensures SortKey(a) == SortKey(b) <==> KeyTriple(a) == KeyTriple(b)
  {
  }

  /** `sorted(matches, key=sort_key)` */
  function SortedMatches(ms: seq<ImageMatch>): (r: seq<ImageMatch>)
    ensures |r| == |ms|
  {
    StableSort.SortBy(ms, SortKey)
  }

  /** The matches' positions count up from zero, as `add_match` numbers them. */
  predicate Numbered(ms: seq<ImageMatch>) {
    forall i :: 0 <= i < |ms| ==> ms[i].matchingIndex == i
  }

  predicate IndexAscending(s: seq<ImageMatch>) {
    forall i, j :: 0 <= i < j < |s| ==> s[i].matchingIndex < s[j].matchingIndex
  }

  /**
   * `sorted_matches` is Python's stable sort: a permutation of the matches,
   * in key order (Creative Commons first, then a licence URL, then licence
   * text), in which matches with equal keys keep their order.
   */
  lemma SortedMatchesStable(ms: seq<ImageMatch>)
    ensures multiset(SortedMatches(ms)) == multiset(ms)
    ensures StableSort.SortedBy(SortedMatches(ms), SortKey)
    ensures forall k :: StableSort.WithKey(SortedMatches(ms), SortKey, k) == StableSort.WithKey(ms, SortKey, k)
  {
    StableSort.SortByStable(ms, SortKey);
  }

  /** No other list is sorted by key and keeps each key's matches in their original order. */
  lemma SortedMatchesUnique(ms: seq<ImageMatch>, r: seq<ImageMatch>)
    requires StableSort.SortedBy(r, SortKey)
    requires forall k :: StableSort.WithKey(r, SortKey, k) == StableSort.WithKey(ms, SortKey, k)
    ensures r == SortedMatches(ms)
  {
    StableSort.SortByStable(ms, SortKey);
    StableSort.StableOrderUnique(r, SortedMatches(ms), SortKey);
  }

  lemma {:induction false} WithKeyAscending(s: seq<ImageMatch>, k: nat)
    requires IndexAscending(s)
    ensures IndexAscending(StableSort.WithKey(s, SortKey, k))
    decreases |s|
  {
    if s != [] {
      var n := |s| - 1;
      assert IndexAscending(s[..n]);
      WithKeyAscending(s[..n], k);
      StableSort.WithKeyFrom(s[..n], SortKey, k);
      var w := StableSort.WithKey(s[..n], SortKey, k);
      forall i | 0 <= i < |w| ensures w[i].matchingIndex < s[n].matchingIndex {
        var j :| 0 <= j < n && s[..n][j] == w[i];
      }
    }
  }

  /** Among numbered matches, the sorted list keeps equal-key matches in insertion order. */
  lemma EqualKeysInInsertionOrder(ms: seq<ImageMatch>, i: nat, j: nat)
    requires Numbered(ms)
    requires i < j < |ms| && SortKey(SortedMatches(ms)[i]) == SortKey(SortedMatches(ms)[j])
    ensures SortedMatches(ms)[i].matchingIndex < SortedMatches(ms)[j].matchingIndex
  {
    var r := SortedMatches(ms);
    var k := SortKey(r[i]);
    StableSort.SortByStable(ms, SortKey);
    assert IndexAscending(ms);
    WithKeyAscending(ms, k);
    StableSort.PositionInFilter(r, SortKey, i, j);
    var w := StableSort.WithKey(r, SortKey, k);
    var p, q :| 0 <= p < q < |w| && w[p] == r[i] && w[q] == r[j];
  }


  /** No two matches come from the same page (`None` counts as one page, as `in` does in Python). */
  predicate DistinctPages(ms: seq<ImageMatch>) {
    forall i, j :: 0 <= i < j < |ms| ==> ms[i].pageUrl != ms[j].pageUrl
  }

  /** One image of the bucket and the matches found for it so far. */
  class Image {
    const blob: Blob
    const searchConfig: SearchConfig
    var matches: seq<ImageMatch>
    /** The page URLs whose licence was looked up, in order. */
    ghost var lookups: seq<Option<string>>

    ghost predicate Valid()
      reads this
    {
      Numbered(matches) && DistinctPages(matches) && lookups == PageUrls(matches)
    }

    constructor (blob: Blob, searchConfig: SearchConfig)
      ensures Valid()
      ensures this.blob == blob && this.searchConfig == searchConfig
      ensures matches == [] && lookups == []
    {
      this.blob := blob;
      this.searchConfig := searchConfig;
      matches := [];
      lookups := [];
    }

    /** `name` */
    function Name(): (r: string)
      ensures r == blob.name
    {
      blob.name
    }

    /** `gcs_uri` */
    function GcsUri(): (r: string)
      ensures StartsWith(r, "gs://") && |r| == 6 + |blob.bucketName| + |blob.name|
    {
      Vision.GcsUri(blob)
    }

    /** `sheet_cell_representation`: an `=IMAGE(...)` formula over the blob's public URL. */
    function SheetCellRepresentation(): (r: string)
      ensures r == "none found" <==> blob.publicUrl.None?
    {
      SheetFormulas.ImageLink(blob.publicUrl)
    }

    /**
     * `add_match`: a page already among the matches is ignored, without a
     * licence lookup; a new page is appended, numbered by its position, with
     * the licence `fetch` gives for it, and nothing before it changes.
     */
    method AddMatch(m: MatchTuple, fetch: string -> FetchOutcome, repr: LicenseSignals.Signals -> string)
      requires Valid()
      modifies this
      ensures Valid()
      ensures m.pageUrl in PageUrls(old(matches)) ==> matches == old(matches) && lookups == old(lookups)
      ensures m.pageUrl !in PageUrls(old(matches)) ==>
                matches == old(matches) + [ImageMatch(m.pageUrl, m.title, m.imageUrl, m.matchingType,
                                                      |old(matches)|, PageLicense(m.pageUrl, fetch, repr))]
                && lookups == old(lookups) + [m.pageUrl]
    {
      if m.pageUrl in PageUrls(matches) {
        return;
      }
      var license := ExtractPageLicenseMetadata(m.pageUrl, fetch, repr);
      var added := ImageMatch(m.pageUrl, m.title, m.imageUrl, m.matchingType, |matches|, license);
      ghost var before := matches;
      matches := matches + [added];
      lookups := lookups + [m.pageUrl];
      assert PageUrls(matches) == PageUrls(before) + [m.pageUrl];
      forall i | 0 <= i < |before| ensures matches[i].pageUrl != added.pageUrl {
        assert PageUrls(before)[i] == before[i].pageUrl;
      }
    }

    /** `publish`: hands the image to `sink` exactly when it is no longer eligible; it keeps no flag. */
    method Publish(sink: Publisher)
      modifies sink
      ensures sink.published == if Eligible(matches, searchConfig) then old(sink.published)
                                else old(sink.published) + [this]
    {
      if !Eligible(matches, searchConfig) {
        sink.Accept(this);
      }
    }
  }

  /** The `publish_method` callback, recording every image handed to it. */
  class Publisher {
    var published: seq<Image>

    constructor ()
      ensures published == []
    {
      published := [];
    }

    method Accept(image: Image)
      modifies this
      ensures published == old(published) + [image]
    {
      published := published + [image];
    }
  }

  /** Publishing twice an image that is done publishes it twice. */
  method PublishTwice(image: Image, sink: Publisher)
    requires !Eligible(image.matches, image.searchConfig)
    modifies sink
    ensures sink.published == old(sink.published) + [image, image]
  {
    image.Publish(sink);
    image.Publish(sink);
  }

  /** The images of the bucket. */
  class ImageSet {
    const images: seq<Image>

    constructor (images: seq<Image>)
      ensures this.images == images
    {
      this.images := images;
    }

    /** `has_unprocessed_images` as written: the `any(...)` is computed and dropped, so the call yields `None`. */
    function HasUnprocessedImagesAsWritten(): (r: Option<bool>)
      ensures r == None
    {
      None
    }

    /** `has_unprocessed_images` as intended: some image is still eligible for more matches. */
    predicate HasUnprocessedImages()
      reads images
    {
      exists i :: 0 <= i < |images| && Eligible(images[i].matches, images[i].searchConfig)
    }

    /** An image still eligible makes the intended answer true, while the code answers `None`. */
    lemma UnprocessedImageIgnored(i: nat)
      requires i < |images| && Eligible(images[i].matches, images[i].searchConfig)
      ensures HasUnprocessedImages() && HasUnprocessedImagesAsWritten() != Some(true)
    {
    }

    /** Once every image holds as many matches as every cap, no image is unprocessed. */
    lemma CappedImagesAreProcessed()
      requires forall i :: 0 <= i < |images| ==>
                 |images[i].matches| >= images[i].searchConfig.maxResultsForText
                 && |images[i].matches| >= images[i].searchConfig.maxResultsForUrl
                 && |images[i].matches| >= images[i].searchConfig.maxResultsForCreativeCommons
      ensures !HasUnprocessedImages()
    {
      forall i | 0 <= i < |images| ensures !Eligible(images[i].matches, images[i].searchConfig) {
        CapsEndEligibility(images[i].matches, images[i].searchConfig);
      }
    }
  }
}
