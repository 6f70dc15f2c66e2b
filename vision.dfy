/** Reverse image search: batching and the mapping of results to match tuples (google_apis/vision.py). */
module Vision {
  import opened Wrappers
  import opened Text

  /** A stored image: its bucket, its object name and its public URL. */
  datatype Blob = Blob(bucketName: string, name: string, publicUrl: Option<string>)

  /** `get_gcs_uri`: `gs://<bucket>/<name>`. */
  function GcsUri(blob: Blob): (r: string)
    ensures StartsWith(r, "gs://") && |r| == 6 + |blob.bucketName| + |blob.name|
  {
    "gs://" + blob.bucketName + "/" + blob.name
  }

  /** An image found on the web. */
  datatype WebImage = WebImage(url: string)

  /** A page hosting a copy of the image, with its full and partial matches. */
  datatype WebPage = WebPage(url: string, pageTitle: string,
                             fullMatchingImages: seq<WebImage>, partialMatchingImages: seq<WebImage>)

  /** The web-detection part of one annotation response. */
  datatype WebDetection = WebDetection(pagesWithMatchingImages: seq<WebPage>, visuallySimilarImages: seq<WebImage>)

  datatype AnnotateResponse = AnnotateResponse(webDetection: WebDetection)

  /** `(page_url, title, image_url, matching_type)` as `parse_vision_response` yields it. */
  datatype MatchTuple = MatchTuple(pageUrl: Option<string>, title: Option<string>,
                                   imageUrl: Option<string>, matchingType: string)

  const NoneFound := MatchTuple(None, None, None, "none found")

  /** The number of results asked for per image; fixed in the request, not taken from the search settings. */
  const MaxResults := 3

  /** The chunk size of `google_batch_vision_search`. */
  const BatchSize := 16

  /** One image request: the image by its `gs://` URI, web detection, at most `MaxResults` results. */
  datatype AnnotateRequest = AnnotateRequest(imageUri: string, maxResults: int)

  /**
   * `chunk_list`: slices `lst[i:i+k]` for `i` in `range(0, len(lst), k)`.
   * A zero step makes `range` raise, so `k` may not be zero; a negative one
   * gives an empty range and hence no chunks.
   */
  function ChunkList<T>(lst: seq<T>, k: int): (chunks: seq<seq<T>>)
    requires k != 0
    ensures k < 0 ==> chunks == []
    ensures k > 0 ==> (lst == [] <==> chunks == [])
    decreases |lst|
  {
    if k < 0 || lst == [] then []
    else if |lst| <= k then [lst]
    else [lst[..k]] + ChunkList(lst[k..], k)
  }

  /** There are `ceil(|lst| / k)` chunks. */
  lemma {:induction false} ChunkCount<T>(lst: seq<T>, k: int)
    requires k > 0 && lst != []
    ensures (|ChunkList(lst, k)| - 1) * k < |lst| <= |ChunkList(lst, k)| * k
    decreases |lst|
  {
    if |lst| > k {
      var rest := ChunkList(lst[k..], k);
      ChunkCount(lst[k..], k);
      assert |ChunkList(lst, k)| == |rest| + 1;
      assert (|rest| + 1) * k == |rest| * k + k;
    }
  }

  function Flatten<T>(chunks: seq<seq<T>>): seq<T>
    decreases |chunks|
  {
    if chunks == [] then [] else chunks[0] + Flatten(chunks[1..])
  }

  /** Concatenating the chunks gives the list back. */
  lemma {:induction false} ChunksConcatenate<T>(lst: seq<T>, k: int)
    requires k > 0
    ensures Flatten(ChunkList(lst, k)) == lst
    decreases |lst|
  {
    if lst != [] && |lst| > k {
      var chunks := ChunkList(lst, k);
      ChunksConcatenate(lst[k..], k);
      assert chunks[1..] == ChunkList(lst[k..], k);
      assert lst[..k] + lst[k..] == lst;
    }
  }

  /** Every chunk but the last has exactly `k` elements; the last is non-empty and has at most `k`. */
  lemma {:induction false} ChunkSizes<T>(lst: seq<T>, k: int)
    requires k > 0
    ensures var chunks := ChunkList(lst, k);
            (forall i :: 0 <= i < |chunks| - 1 ==> |chunks[i]| == k)
            && (chunks != [] ==> 0 < |chunks[|chunks| - 1]| <= k)
    decreases |lst|
  {
    if lst != [] && |lst| > k {
      var chunks := ChunkList(lst, k);
      ChunkSizes(lst[k..], k);
      var rest := ChunkList(lst[k..], k);
      assert chunks[1..] == rest;
      forall i | 0 <= i < |chunks| - 1 ensures |chunks[i]| == k {
        if i > 0 {
          assert chunks[i] == rest[i - 1];
        }
      }
    }
  }

  /** Chunk `c` is the slice of `lst` starting at `c * k`. */
  lemma {:induction false} ChunkAt<T>(lst: seq<T>, k: int, c: nat)
    requires k > 0 && c < |ChunkList(lst, k)|
    ensures c * k < |lst|
    ensures ChunkList(lst, k)[c] == lst[c * k .. if c * k + k <= |lst| then c * k + k else |lst|]
    decreases c
  {
    if c > 0 {
      var rest := lst[k..];
      ChunkAt(rest, k, c - 1);
      var m := (c - 1) * k;
      assert c * k == m + k;
      var end := if m + k <= |rest| then m + k else |rest|;
      assert ChunkList(lst, k)[c] == rest[m..end];
      SliceOfSlice(lst, k, m, end);
    }
  }

  /** A slice of `lst[k..]` is a slice of `lst`, shifted by `k`. */
  lemma SliceOfSlice<T>(lst: seq<T>, k: nat, a: nat, b: nat)
    requires k <= |lst| && a <= b <= |lst| - k
    ensures lst[k..][a..b] == lst[k + a..k + b]
  {
  }

  /**
   * One match tuple per matching page, in order: its first full match, or
   * failing that its first partial match; a page with neither gives none.
   */
  function PageTuples(pages: seq<WebPage>): (r: seq<MatchTuple>)
    ensures |r| <= |pages|
    ensures forall k :: 0 <= k < |r| ==> r[k].pageUrl.Some? && r[k].imageUrl.Some?
    ensures forall k :: 0 <= k < |r| ==> r[k].matchingType == "full match" || r[k].matchingType == "partial match"
    decreases |pages|
  {
    if pages == [] then []
    else
      var p := pages[0];
      var rest := PageTuples(pages[1..]);
      if |p.fullMatchingImages| > 0 then
        [MatchTuple(Some(p.url), Some(p.pageTitle), Some(p.fullMatchingImages[0].url), "full match")] + rest
      else if |p.partialMatchingImages| > 0 then
        [MatchTuple(Some(p.url), Some(p.pageTitle), Some(p.partialMatchingImages[0].url), "partial match")] + rest
      else rest
  }

  /** A visually similar image links to itself, labelled "link to image". */
  function SimilarTuples(images: seq<WebImage>): (r: seq<MatchTuple>)
    ensures |r| == |images|
    ensures forall k :: 0 <= k < |images| ==>
              r[k] == MatchTuple(Some(images[k].url), Some("link to image"), Some(images[k].url), "visually similar")
  {
    seq(|images|, k requires 0 <= k < |images| =>
      MatchTuple(Some(images[k].url), Some("link to image"), Some(images[k].url), "visually similar"))
  }

  /**
   * `parse_vision_response`: without matching pages, the visually similar
   * images (or one "none found" tuple if there are none either); with
   * matching pages, one tuple per page that has a full or partial match.
   */
  function ParseVisionResponse(response: AnnotateResponse): (r: seq<MatchTuple>)
    ensures response.webDetection.pagesWithMatchingImages == [] ==> r != []
    ensures response.webDetection.pagesWithMatchingImages != [] ==>
              |r| <= |response.webDetection.pagesWithMatchingImages|
  {
    var detection := response.webDetection;
    var pages := detection.pagesWithMatchingImages;
    (if pages == [] then
       (if detection.visuallySimilarImages == [] then [NoneFound] else [])
       + SimilarTuples(detection.visuallySimilarImages)
     else [])
    + PageTuples(pages)
  }

  /** No page and no similar image: exactly one "none found" tuple. */
  lemma NothingFound(response: AnnotateResponse)
    requires response.webDetection.pagesWithMatchingImages == []
    requires response.webDetection.visuallySimilarImages == []
    ensures ParseVisionResponse(response) == [NoneFound]
  {
    assert SimilarTuples([]) == [];
  }

  /** No page but similar images: one self-link per image, in order. */
  lemma OnlySimilarImages(response: AnnotateResponse)
    requires response.webDetection.pagesWithMatchingImages == []
    requires response.webDetection.visuallySimilarImages != []
    ensures ParseVisionResponse(response) == SimilarTuples(response.webDetection.visuallySimilarImages)
  {
  }

  /** The tuples of consecutive runs of pages are the runs' tuples, one after the other. */
  lemma {:induction false} PageTuplesConcat(a: seq<WebPage>, b: seq<WebPage>)
    ensures PageTuples(a + b) == PageTuples(a) + PageTuples(b)
    decreases |a|
  {
    if a == [] {
      assert a + b == b;
    } else {
      assert (a + b)[0] == a[0];
      assert (a + b)[1..] == a[1..] + b;
      PageTuplesConcat(a[1..], b);
    }
  }

  /**
   * Every page contributes in place: its first full matching image if it has
   * one, else its first partial one, else nothing, between the tuples of the
   * pages before it and those of the pages after it.
   */
  lemma PageTupleAt(pages: seq<WebPage>, i: nat)
    requires i < |pages|
    ensures var p := pages[i];
            var before := PageTuples(pages[..i]);
            var after := PageTuples(pages[i + 1..]);
            && (|p.fullMatchingImages| > 0 ==>
                  PageTuples(pages) == before
                    + [MatchTuple(Some(p.url), Some(p.pageTitle), Some(p.fullMatchingImages[0].url), "full match")]
                    + after)
            && (|p.fullMatchingImages| == 0 && |p.partialMatchingImages| > 0 ==>
                  PageTuples(pages) == before
                    + [MatchTuple(Some(p.url), Some(p.pageTitle), Some(p.partialMatchingImages[0].url), "partial match")]
                    + after)
            && (|p.fullMatchingImages| == 0 && |p.partialMatchingImages| == 0 ==>
                  PageTuples(pages) == before + after)
  {
    assert pages == pages[..i] + ([pages[i]] + pages[i + 1..]);
    PageTuplesConcat(pages[..i], [pages[i]] + pages[i + 1..]);
    PageTuplesConcat([pages[i]], pages[i + 1..]);
    assert [pages[i]][1..] == [];
  }

  /** With matching pages the similar images are ignored: every tuple comes from a page. */
  lemma PagesWin(response: AnnotateResponse)
    requires response.webDetection.pagesWithMatchingImages != []
    ensures ParseVisionResponse(response) == PageTuples(response.webDetection.pagesWithMatchingImages)
  {
  }

  /** The request loop of `batch_annotate_gcs_images`: one request per blob, in order. */
  method BatchAnnotateRequests(blobs: seq<Blob>) returns (requests: seq<AnnotateRequest>)
    ensures |requests| == |blobs|
    ensures forall i :: 0 <= i < |blobs| ==> requests[i] == AnnotateRequest(GcsUri(blobs[i]), MaxResults)
  {
    requests := [];
    for i := 0 to |blobs|
      invariant |requests| == i
      invariant forall j :: 0 <= j < i ==> requests[j] == AnnotateRequest(GcsUri(blobs[j]), MaxResults)
    {
      requests := requests + [AnnotateRequest(GcsUri(blobs[i]), MaxResults)];
    }
  }

  /** The service's answers to one batch, chunk by chunk: its responses concatenated in chunk order. */
  function Annotated(chunks: seq<seq<Blob>>, annotate: seq<AnnotateRequest> -> seq<AnnotateResponse>): seq<AnnotateResponse>
    decreases |chunks|
  {
    if chunks == [] then []
    else
      var n := |chunks| - 1;
      Annotated(chunks[..n], annotate) + annotate(RequestsFor(chunks[n]))
  }

  function RequestsFor(blobs: seq<Blob>): (r: seq<AnnotateRequest>)
    ensures |r| == |blobs|
  {
    seq(|blobs|, i requires 0 <= i < |blobs| => AnnotateRequest(GcsUri(blobs[i]), MaxResults))
  }

  /**
   * `google_batch_vision_search` with the service call as `annotate`: the
   * blobs go out in chunks of 16, the responses are concatenated in chunk
   * order, and `announced` records the 1-based blob range announced before
   * each chunk.
   */
  method GoogleBatchVisionSearch(blobs: seq<Blob>, annotate: seq<AnnotateRequest> -> seq<AnnotateResponse>)
    returns (responses: seq<AnnotateResponse>, announced: seq<(int, int)>)
    ensures responses == Annotated(ChunkList(blobs, BatchSize), annotate)
    ensures |announced| == |ChunkList(blobs, BatchSize)|
    ensures forall c :: 0 <= c < |announced| ==>
              announced[c] == (1 + c * BatchSize, c * BatchSize + |ChunkList(blobs, BatchSize)[c]|)
  {
    var chunks := ChunkList(blobs, BatchSize);
    ChunkSizes(blobs, BatchSize);
    responses, announced := AnnotateChunks(chunks, annotate);
  }

  /** The loop of `google_batch_vision_search` over chunks all but the last of which are full. */
  method AnnotateChunks(chunks: seq<seq<Blob>>, annotate: seq<AnnotateRequest> -> seq<AnnotateResponse>)
    returns (responses: seq<AnnotateResponse>, announced: seq<(int, int)>)
    requires forall i :: 0 <= i < |chunks| - 1 ==> |chunks[i]| == BatchSize
    ensures responses == Annotated(chunks, annotate)
    ensures |announced| == |chunks|
    ensures forall c :: 0 <= c < |announced| ==> announced[c] == (1 + c * BatchSize, c * BatchSize + |chunks[c]|)
  {
    responses := [];
    announced := [];
    var blobIndex := 1;
    for c := 0 to |chunks|
      invariant |announced| == c
      invariant c < |chunks| ==> blobIndex == 1 + c * BatchSize
      invariant responses == Annotated(chunks[..c], annotate)
      invariant forall d :: 0 <= d < c ==> announced[d] == (1 + d * BatchSize, d * BatchSize + |chunks[d]|)
    {
      var batch := chunks[c];
      announced := announced + [(blobIndex, blobIndex + |batch| - 1)];
      var requests := BatchAnnotateRequests(batch);
      assert requests == RequestsFor(batch);
      assert chunks[..c + 1][..c] == chunks[..c];
      responses := responses + annotate(requests);
      if c < |chunks| - 1 {
        assert |batch| == BatchSize;
        assert (c + 1) * BatchSize == c * BatchSize + BatchSize;
      }
      blobIndex := blobIndex + |batch|;
    }
    assert chunks[..|chunks|] == chunks;
  }
}
