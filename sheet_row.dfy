/** The report sheet's header layout and the row written for each image (licensing/sheet_row.py). */
module SheetRows {
  import opened Wrappers
  import opened Text
  import SheetFormulas
  import Licenses
  import Images

  /** `s * n`: `n` copies of `s`, one after another. */
  function Times<T>(s: seq<T>, n: nat): (r: seq<T>)
    ensures |r| == n * |s|
  {
    if n == 0 then [] else Times(s, n - 1) + s
  }

  /** Copy `k` of `s` sits at offset `k * |s|`. */
  lemma {:induction false} TimesAt<T>(s: seq<T>, n: nat, k: nat, j: nat)
    requires k < n && j < |s|
    ensures k * |s| + j < |Times(s, n)| && Times(s, n)[k * |s| + j] == s[j]
    decreases n
  {
    var prev := Times(s, n - 1);
    assert Times(s, n) == prev + s;
    if k == n - 1 {
      assert |prev| == k * |s|;
    } else {
      TimesAt(s, n - 1, k, j);
      assert k * |s| + j < |prev|;
    }
  }

  /** `f"MATCH {number}"` */
  function Caption(number: nat): string {
    "MATCH " + NatToString(number)
  }

  /** `[f"MATCH {i + 1}" for i in range(n) for _ in range(width)]` */
  function MatchLabels(n: nat, width: nat): (r: seq<string>)
    ensures |r| == n * width
  {
    if n == 0 then []
    else
      var prev := MatchLabels(n - 1, width);
      assert |prev| + width == n * width;
      prev + Times([Caption(n)], width)
  }

  /** Column `j` of match `k`'s group is labelled with the match's 1-based number. */
  lemma {:induction false} MatchLabelsAt(n: nat, width: nat, k: nat, j: nat)
    requires k < n && j < width
    ensures k * width + j < |MatchLabels(n, width)|
    ensures MatchLabels(n, width)[k * width + j] == Caption(k + 1)
    decreases n
  {
    var prev := MatchLabels(n - 1, width);
    var caption := Caption(n);
    assert MatchLabels(n, width) == prev + Times([caption], width);
    if k == n - 1 {
      assert |prev| == k * width;
      TimesAt([caption], width, j, 0);
    } else {
      MatchLabelsAt(n - 1, width, k, j);
      assert k * width + j < |prev|;
    }
  }

  /** `HeaderSpec`: the plain columns, then `matchCount` groups of the match columns. */
  datatype HeaderSpec = HeaderSpec(simpleFields: seq<string>, matchFields: seq<string>, matchCount: int) {

    /** The number of match groups: `range(match_count)` and `* match_count` give none for a negative count. */
    function Count(): nat {
      if matchCount < 0 then 0 else matchCount
    }

    /** `num_simple_fields` */
    function NumSimpleFields(): nat {
      |simpleFields|
    }

    /** `num_match_fields` */
    function NumMatchFields(): nat {
      |matchFields|
    }

    /** `header1`: the plain names, then each group's columns labelled `MATCH k`. */
    function Header1(): seq<string> {
      simpleFields + MatchLabels(Count(), |matchFields|)
    }

    /** `header2`: blanks under the plain names, then the match field names of every group. */
    function Header2(): seq<string> {
      Times([""], |simpleFields|) + Times(matchFields, Count())
    }

    /** `names`: the name of every column. */
    function Names(): seq<string> {
      simpleFields + Times(matchFields, Count())
    }

    /** `rows`: the two header rows. */
    function Rows(): seq<seq<string>> {
      [Header1(), Header2()]
    }

    /** The column of field `j` in match group `k`. */
    function MatchColumn(k: nat, j: nat): nat {
      NumSimpleFields() + k * NumMatchFields() + j
    }
  }

  /** All header rows and the name list are as wide as the plain columns plus every match group. */
  lemma HeaderLengths(h: HeaderSpec)
    ensures |h.Header1()| == |h.Header2()| == |h.Names()| == h.NumSimpleFields() + h.Count() * h.NumMatchFields()
    ensures |h.Rows()| == 2 && h.Rows()[0] == h.Header1() && h.Rows()[1] == h.Header2()
  {
  }

  /** A plain column: its name in the first row and in `names`, a blank in the second row. */
  lemma HeaderSimpleAt(h: HeaderSpec, i: nat)
    requires i < h.NumSimpleFields()
    ensures h.Header1()[i] == h.Names()[i] == h.simpleFields[i]
    ensures h.Header2()[i] == ""
  {
    TimesAt([""], |h.simpleFields|, i, 0);
  }

  /** Field `j` of match group `k`: `MATCH k+1` above, the field's name below and in `names`. */
  lemma HeaderMatchAt(h: HeaderSpec, k: nat, j: nat)
    requires k < h.Count() && j < h.NumMatchFields()
    ensures h.MatchColumn(k, j) < |h.Names()|
    ensures h.Header1()[h.MatchColumn(k, j)] == Caption(k + 1)
    ensures h.Header2()[h.MatchColumn(k, j)] == h.Names()[h.MatchColumn(k, j)] == h.matchFields[j]
  {
    HeaderMatchLabel(h, k, j);
    HeaderMatchName(h, k, j);
  }

  /** The first header row labels field `j` of group `k` with `MATCH k+1`. */
  lemma HeaderMatchLabel(h: HeaderSpec, k: nat, j: nat)
    requires k < h.Count() && j < h.NumMatchFields()
    ensures h.MatchColumn(k, j) < |h.Header1()|
    ensures h.Header1()[h.MatchColumn(k, j)] == Caption(k + 1)
  {
    var labels := MatchLabels(h.Count(), |h.matchFields|);
    MatchLabelsAt(h.Count(), |h.matchFields|, k, j);
    ConcatAt(h.simpleFields, labels, k * |h.matchFields| + j);
  }

  /** The second header row and `names` both give field `j`'s name in group `k`. */
  lemma HeaderMatchName(h: HeaderSpec, k: nat, j: nat)
    requires k < h.Count() && j < h.NumMatchFields()
    ensures h.MatchColumn(k, j) < |h.Names()| && h.MatchColumn(k, j) < |h.Header2()|
    ensures h.Header2()[h.MatchColumn(k, j)] == h.Names()[h.MatchColumn(k, j)] == h.matchFields[j]
  {
    var fields := Times(h.matchFields, h.Count());
    var blanks := Times([""], |h.simpleFields|);
    TimesAt(h.matchFields, h.Count(), k, j);
    BlanksLength(|h.simpleFields|);
    ConcatAt(h.simpleFields, fields, k * |h.matchFields| + j);
    ConcatAt(blanks, fields, k * |h.matchFields| + j);
  }

  /** `[""] * n` has `n` elements. */
  lemma BlanksLength(n: nat)
    ensures |Times([""], n)| == n
  {
  }

  /** Position `c` of `b` is position `|a| + c` of `a + b`. */
  lemma ConcatAt<T>(a: seq<T>, b: seq<T>, c: nat)
    requires c < |b|
    ensures |a| + c < |a + b| && (a + b)[|a| + c] == b[c]
  {
  }

  /** A cell value: the sheet receives numbers and strings. */
  datatype Cell = IntCell(i: int) | StrCell(s: string)

  /** The fields of `SheetRowMatch`, in declaration order. */
  const MatchFieldNames: seq<string> := ["matching_number", "matching_type", "license", "site", "page", "image"]

  /** `SheetRowMatch`: the six cells written for one match. */
  datatype SheetRowMatch = SheetRowMatch(matchingNumber: int, matchingType: string, license: string,
                                         site: string, page: string, image: string)

  /** `SheetRowMatch.values`: the fields in declaration order. */
  function MatchValues(m: SheetRowMatch): (r: seq<Cell>)
    ensures |r| == |MatchFieldNames|
  {
    [IntCell(m.matchingNumber), StrCell(m.matchingType), StrCell(m.license),
     StrCell(m.site), StrCell(m.page), StrCell(m.image)]
  }

  const SkippedLicense := "skipped (found enough licenses)"

  /**
   * `SheetRowMatch.from_match`: the 1-based match number, and the licence's
   * cell, or the "skipped" note when that is `None` or empty.
   */
  function FromMatch(m: Images.ImageMatch, urlparse: string -> SheetFormulas.ParsedUrl): (r: SheetRowMatch)
    ensures r.matchingNumber == m.matchingIndex + 1 && r.matchingType == m.matchingType
    ensures Truthy(Licenses.SheetCellRepresentation(m.license)) ==>
              r.license == Licenses.SheetCellRepresentation(m.license).value
    ensures !Truthy(Licenses.SheetCellRepresentation(m.license)) ==> r.license == SkippedLicense
    ensures |r.license| > 0
    ensures r.site == SheetFormulas.RootHyperlink(m.pageUrl, urlparse)
    ensures r.page == SheetFormulas.Hyperlink(m.pageUrl, m.title)
    ensures r.image == SheetFormulas.ImageLink(m.imageUrl)
  {
    var shown := Licenses.SheetCellRepresentation(m.license);
    SheetRowMatch(m.matchingIndex + 1, m.matchingType,
                  if Truthy(shown) then shown.value else SkippedLicense,
                  SheetFormulas.RootHyperlink(m.pageUrl, urlparse),
                  SheetFormulas.Hyperlink(m.pageUrl, m.title),
                  SheetFormulas.ImageLink(m.imageUrl))
  }

  /** A licence with a URL shows a hyperlink in its cell, never the "skipped" note. */
  lemma LicenseUrlShown(m: Images.ImageMatch, urlparse: string -> SheetFormulas.ParsedUrl)
    requires Truthy(m.license.url)
    ensures StartsWith(FromMatch(m, urlparse).license, "=HYPERLINK(\"")
  {
  }

  /** The fields of `SheetRow`, in declaration order. */
  const RowFieldNames: seq<string> := ["image", "name", "number_of_matches", "matches"]

  /** `SheetRow`: the image's cells, then its matches. */
  datatype SheetRow = SheetRow(image: string, name: string, numberOfMatches: int, matches: seq<SheetRowMatch>)

  /** `[field for field in fields if field != name]` */
  function Without(fields: seq<string>, name: string): (r: seq<string>)
    ensures forall x :: x in r <==> x in fields && x != name
    ensures |r| <= |fields|
  {
    if fields == [] then []
    else (if fields[0] == name then [] else [fields[0]]) + Without(fields[1..], name)
  }

  /** `SheetRow.simple_fields`: every field but `matches`, in declaration order. */
  function SimpleFields(): (r: seq<string>)
    ensures r == ["image", "name", "number_of_matches"]
  {
    Without(RowFieldNames, "matches")
  }

  /** `simple_values`: the plain fields' values, in the order of `SimpleFields`. */
  function SimpleValues(row: SheetRow): (r: seq<Cell>)
    ensures |r| == |SimpleFields()|
  {
    [StrCell(row.image), StrCell(row.name), IntCell(row.numberOfMatches)]
  }

  /** The cells of a list of matches, six per match. */
  function MatchCells(ms: seq<SheetRowMatch>): (r: seq<Cell>)
    ensures |r| == 6 * |ms|
  {
    if ms == [] then [] else MatchCells(ms[..|ms| - 1]) + MatchValues(ms[|ms| - 1])
  }

  /** Field `j` of match `k` sits at offset `6 * k + j`. */
  lemma {:induction false} MatchCellsAt(ms: seq<SheetRowMatch>, k: nat, j: nat)
    requires k < |ms| && j < 6
    ensures 6 * k + j < |MatchCells(ms)| && MatchCells(ms)[6 * k + j] == MatchValues(ms[k])[j]
    decreases |ms|
  {
    var n := |ms| - 1;
    assert MatchCells(ms) == MatchCells(ms[..n]) + MatchValues(ms[n]);
    if k < n {
      MatchCellsAt(ms[..n], k, j);
      assert ms[..n][k] == ms[k];
    }
  }

  /** The stop of the slice `[0:n]` over a list of `len` elements, as Python computes it. */
  function SliceStop(len: nat, n: int): (r: nat)
    ensures r <= len
    ensures n >= 0 ==> r == (if n < len then n else len)
    ensures n < 0 ==> r == (if len + n < 0 then 0 else len + n)
  {
    if n < 0 then (if len + n < 0 then 0 else len + n) else if n < len then n else len
  }

  /** `values(match_count)`: the plain values, then six cells for each of the first matches. */
  function Values(row: SheetRow, matchCount: int): (r: seq<Cell>)
    ensures |r| == |SimpleFields()| + 6 * SliceStop(|row.matches|, matchCount)
    ensures r[..|SimpleFields()|] == SimpleValues(row)
  {
    SimpleValues(row) + MatchCells(row.matches[..SliceStop(|row.matches|, matchCount)])
  }

  /** Field `j` of the `k`-th match written follows the plain values and the `k` earlier matches. */
  lemma ValuesAt(row: SheetRow, matchCount: int, k: nat, j: nat)
    requires k < SliceStop(|row.matches|, matchCount) && j < 6
    ensures 3 + 6 * k + j < |Values(row, matchCount)|
    ensures Values(row, matchCount)[3 + 6 * k + j] == MatchValues(row.matches[k])[j]
  {
    var shown := row.matches[..SliceStop(|row.matches|, matchCount)];
    MatchCellsAt(shown, k, j);
    assert shown[k] == row.matches[k];
  }

  /** The matches of a sorted list, converted one by one. */
  function RowMatches(ms: seq<Images.ImageMatch>, urlparse: string -> SheetFormulas.ParsedUrl): (r: seq<SheetRowMatch>)
    ensures |r| == |ms| && forall i :: 0 <= i < |ms| ==> r[i] == FromMatch(ms[i], urlparse)
  {
    seq(|ms|, i requires 0 <= i < |ms| => FromMatch(ms[i], urlparse))
  }

  /** `SheetRow.from_image`: the image cell, its name, its match count, and its matches in sorted order. */
  function FromImage(image: Images.Image, urlparse: string -> SheetFormulas.ParsedUrl): (r: SheetRow)
    reads image
    ensures r.image == image.SheetCellRepresentation() && r.name == image.Name()
    ensures r.numberOfMatches == |image.matches| == |r.matches|
    ensures forall i :: 0 <= i < |r.matches| ==>
              r.matches[i] == FromMatch(Images.SortedMatches(image.matches)[i], urlparse)
  {
    SheetRow(image.SheetCellRepresentation(), image.Name(), |image.matches|,
             RowMatches(Images.SortedMatches(image.matches), urlparse))
  }

  /** In a list without repetitions an element occurs at most once. */
  lemma {:induction false} DistinctCount<T>(s: seq<T>, x: T)
    requires forall i, j :: 0 <= i < j < |s| ==> s[i] != s[j]
    ensures multiset(s)[x] <= 1
    decreases |s|
  {
    if s != [] {
      var n := |s| - 1;
      assert s == s[..n] + [s[n]];
      DistinctCount(s[..n], x);
      if x == s[n] {
        assert x !in s[..n];
      }
    }
  }

  /** An element at two positions occurs at least twice. */
  lemma TwoPositions<T>(s: seq<T>, i: nat, j: nat)
    requires i < j < |s| && s[i] == s[j]
    ensures multiset(s)[s[i]] >= 2
  {
    assert s == s[..j] + [s[j]] + s[j + 1..];
    assert s[i] in s[..j];
  }

  /** Sorting numbered matches keeps their numbers in range and distinct. */
  lemma SortedIndicesDistinct(ms: seq<Images.ImageMatch>)
    requires Images.Numbered(ms)
    ensures var sorted := Images.SortedMatches(ms);
            (forall i :: 0 <= i < |sorted| ==> sorted[i].matchingIndex < |ms|)
            && (forall i, j :: 0 <= i < j < |sorted| ==> sorted[i].matchingIndex != sorted[j].matchingIndex)
  {
    var sorted := Images.SortedMatches(ms);
    Images.SortedMatchesStable(ms);
    forall i | 0 <= i < |sorted| ensures sorted[i].matchingIndex < |ms| {
      assert sorted[i] in multiset(ms);
      var p :| 0 <= p < |ms| && ms[p] == sorted[i];
    }
    forall i, j | 0 <= i < j < |sorted| ensures sorted[i].matchingIndex != sorted[j].matchingIndex {
      if sorted[i].matchingIndex == sorted[j].matchingIndex {
        assert sorted[i] in multiset(ms) && sorted[j] in multiset(ms);
        var p :| 0 <= p < |ms| && ms[p] == sorted[i];
        var q :| 0 <= q < |ms| && ms[q] == sorted[j];
        TwoPositions(sorted, i, j);
        DistinctCount(ms, sorted[i]);
        assert false;
      }
    }
  }

  /**
   * The matches of a numbered image are written with the numbers 1 to n,
   * in sorted order, each number once.
   */
  lemma RowNumbersDistinct(ms: seq<Images.ImageMatch>, urlparse: string -> SheetFormulas.ParsedUrl)
    requires Images.Numbered(ms)
    ensures var r := RowMatches(Images.SortedMatches(ms), urlparse);
            (forall i :: 0 <= i < |r| ==> 1 <= r[i].matchingNumber <= |ms|)
            && (forall i, j :: 0 <= i < j < |r| ==> r[i].matchingNumber != r[j].matchingNumber)
  {
    SortedIndicesDistinct(ms);
  }

  /** `sanitize` on one name: drop `_url`, then turn `_` into a space. */
  function SanitizeField(field: string): (r: string)
    ensures '_' !in r
  {
    ReplaceRemoves(Replace(field, "_url", ""), '_', " ");
    Replace(Replace(field, "_url", ""), "_", " ")
  }

  /** A name without `_url` is kept character for character, each `_` turned into a space. */
  lemma SanitizeFieldAt(field: string)
    ensures !Contains(field, "_url") ==>
              var r := SanitizeField(field);
              |r| == |field| && forall i :: 0 <= i < |r| ==> r[i] == if field[i] == '_' then ' ' else field[i]
  {
    ReplaceAbsent(field, "_url", "");
    ReplaceCharAt(field, '_', ' ');
  }

  /** A name without underscores is its own header. */
  lemma SanitizeWord(w: string)
    requires '_' !in w
    ensures SanitizeField(w) == w
  {
    MissingCharAbsent(w, "_url", '_');
    ReplaceAbsent(w, "_url", "");
    MissingCharAbsent(w, "_", '_');
    ReplaceAbsent(w, "_", " ");
  }

  /** Sanitizing a two-word name without `_url`. */
  lemma SanitizeTwoWords(w: string, a: string, b: string)
    requires w == a + "_" + b && '_' !in a && '_' !in b && 'l' !in a && 'l' !in b
    ensures SanitizeField(w) == a + " " + b
  {
    assert 'l' !in w;
    MissingCharAbsent(w, "_url", 'l');
    ReplaceAbsent(w, "_url", "");
    MissingCharAbsent(b, "_", '_');
    ReplaceAbsent(b, "_", " ");
    ReplaceCharSplit(a, b, '_', ' ');
  }

  /** Sanitizing a three-word name without `_url`. */
  lemma SanitizeThreeWords(w: string, a: string, b: string, c: string)
    requires w == a + "_" + (b + "_" + c) && '_' !in a && '_' !in b && '_' !in c
    requires 'l' !in a && 'l' !in b && 'l' !in c
    ensures SanitizeField(w) == a + " " + (b + " " + c)
  {
    assert 'l' !in w;
    MissingCharAbsent(w, "_url", 'l');
    ReplaceAbsent(w, "_url", "");
    MissingCharAbsent(c, "_", '_');
    ReplaceAbsent(c, "_", " ");
    ReplaceCharSplit(b, c, '_', ' ');
    ReplaceCharSplit(a, b + "_" + c, '_', ' ');
  }

  /** `number_of_matches` becomes `number of matches`. */
  lemma SanitizeNumberOfMatches(w: string)
    requires w == "number_of_matches"
    ensures SanitizeField(w) == "number of matches"
  {
    assert w == "number" + "_" + ("of" + "_" + "matches");
    assert "number of matches" == "number" + " " + ("of" + " " + "matches");
    SanitizeThreeWords(w, "number", "of", "matches");
  }

  /** `matching_<b>` becomes `matching <b>`. */
  lemma SanitizeMatching(w: string, b: string, name: string)
    requires w == "matching" + "_" + b && name == "matching" + " " + b && '_' !in b && 'l' !in b
    ensures SanitizeField(w) == name
  {
    SanitizeTwoWords(w, "matching", b);
  }

  /** The header names `sanitize` gives for the row's own fields. */
  lemma SanitizedSimpleNames(simple: seq<string>)
    requires simple == ["image", "name", "number_of_matches"]
    ensures Sanitize(simple) == ["image", "name", "number of matches"]
  {
    assert '_' !in simple[0] && '_' !in simple[1];
    SanitizeWord(simple[0]);
    SanitizeWord(simple[1]);
    SanitizeNumberOfMatches(simple[2]);
    SanitizeThree(simple, "image", "name", "number of matches");
  }

  /** The header names `sanitize` gives for a match's fields. */
  lemma SanitizedMatchNames(matchFields: seq<string>)
    requires matchFields == MatchFieldNames
    ensures Sanitize(matchFields) == ["matching number", "matching type", "license", "site", "page", "image"]
  {
    assert '_' !in matchFields[2] && '_' !in matchFields[3] && '_' !in matchFields[4] && '_' !in matchFields[5];
    assert matchFields[0] == "matching" + "_" + "number" && "matching number" == "matching" + " " + "number";
    assert matchFields[1] == "matching" + "_" + "type" && "matching type" == "matching" + " " + "type";
    SanitizeMatching(matchFields[0], "number", "matching number");
    SanitizeMatching(matchFields[1], "type", "matching type");
    SanitizeWord(matchFields[2]);
    SanitizeWord(matchFields[3]);
    SanitizeWord(matchFields[4]);
    SanitizeWord(matchFields[5]);
    SanitizeSix(matchFields, "matching number", "matching type", "license", "site", "page", "image");
  }

  /** Three names, each sanitized to its header. */
  lemma SanitizeThree(fields: seq<string>, n0: string, n1: string, n2: string)
    requires |fields| == 3
    requires SanitizeField(fields[0]) == n0 && SanitizeField(fields[1]) == n1 && SanitizeField(fields[2]) == n2
    ensures Sanitize(fields) == [n0, n1, n2]
  {
  }

  /** Six names, each sanitized to its header. */
  lemma SanitizeSix(fields: seq<string>, n0: string, n1: string, n2: string, n3: string, n4: string, n5: string)
    requires |fields| == 6
    requires SanitizeField(fields[0]) == n0 && SanitizeField(fields[1]) == n1 && SanitizeField(fields[2]) == n2
    requires SanitizeField(fields[3]) == n3 && SanitizeField(fields[4]) == n4 && SanitizeField(fields[5]) == n5
    ensures Sanitize(fields) == [n0, n1, n2, n3, n4, n5]
  {
  }

  /** `sanitize`: every name sanitized, in order. */
  function Sanitize(fields: seq<string>): (r: seq<string>)
    ensures |r| == |fields| && forall i :: 0 <= i < |fields| ==> r[i] == SanitizeField(fields[i])
  {
    seq(|fields|, i requires 0 <= i < |fields| => SanitizeField(fields[i]))
  }

  /** `SheetRow.header_spec(match_count)` */
  function HeaderSpecFor(matchCount: int): (h: HeaderSpec)
    ensures h.NumSimpleFields() == |SimpleFields()| && h.NumMatchFields() == |MatchFieldNames|
    ensures h.matchCount == matchCount
    ensures forall i :: 0 <= i < |h.simpleFields| ==> '_' !in h.simpleFields[i]
    ensures forall i :: 0 <= i < |h.matchFields| ==> '_' !in h.matchFields[i]
    ensures h.simpleFields == ["image", "name", "number of matches"]
    ensures h.matchFields == ["matching number", "matching type", "license", "site", "page", "image"]
  {
    SanitizedSimpleNames(SimpleFields());
    SanitizedMatchNames(MatchFieldNames);
    HeaderSpec(Sanitize(SimpleFields()), Sanitize(MatchFieldNames), matchCount)
  }

  /**
   * A row written with `values(match_count)` is as wide as the header when the
   * image has at least `match_count` matches, and narrower otherwise.
   */
  lemma RowFitsHeader(row: SheetRow, matchCount: nat)
    ensures |Values(row, matchCount)| <= |HeaderSpecFor(matchCount).Names()|
    ensures |Values(row, matchCount)| == |HeaderSpecFor(matchCount).Names()| <==> matchCount <= |row.matches|
  {
    var h := HeaderSpecFor(matchCount);
    HeaderLengths(h);
    var stop := SliceStop(|row.matches|, matchCount);
    assert |Values(row, matchCount)| == 3 + 6 * stop;
    assert |h.Names()| == 3 + 6 * matchCount;
    assert stop <= matchCount;
    assert stop == matchCount <==> matchCount <= |row.matches|;
  }
}
