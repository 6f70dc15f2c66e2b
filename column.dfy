/** Column kinds of the report sheet and how each is sized (column.py). */
module Columns {
  import opened Wrappers
  import opened Text
  import PyDict

  const Number := "#"
  const ImageColumn := "image"
  const Webpage := "webpage"
  const Website := "website"
  const MatchColumn := "match"
  const LicenseColumn := "license"
  const Name := "name"

  /** `COLUMNS` */
  const ColumnTypes: seq<string> := [Number, ImageColumn, Webpage, Website, MatchColumn, LicenseColumn, Name]

  const ImageWidth: nat := 300
  /** `round(IMAGE_WIDTH * 9 / 16)`: a 16:9 thumbnail. */
  const ImageHeight: nat := RoundSixteenth(ImageWidth * 9)

  /** Python's `round(n / 16)`: the nearest integer, halves going to the even neighbour. */
  function RoundSixteenth(n: nat): (r: nat)
    ensures r * 16 <= n ==> 2 * (n - r * 16) <= 16
    ensures r * 16 >= n ==> 2 * (r * 16 - n) <= 16
    ensures 2 * (n - r * 16) == 16 || 2 * (r * 16 - n) == 16 ==> r % 2 == 0
  {
    var q, rem := n / 16, n % 16;
    if 2 * rem > 16 || (2 * rem == 16 && q % 2 == 1) then q + 1 else q
  }

  lemma ImageHeightIs169()
    ensures ImageHeight == 169
  {
    assert 2700 / 16 == 168 && 2700 % 16 == 12;
  }

  /** The style table of `make_style_info`: a width per column kind, and the row height. */
  datatype StyleTable = StyleTable(width: PyDict.Dict<string, Option<int>>, height: int)

  const Widths: PyDict.Dict<string, Option<int>> := [
    (Number, Some(50)), (ImageColumn, Some(ImageWidth as int)), (Webpage, Some(300)),
    (Website, Some(200)), (MatchColumn, Some(100)), (LicenseColumn, Some(250)), (Name, Some(400))
  ]

  /**
   * `find_column_indices`: in ascending order, the positions of the columns
   * whose lower-cased name contains `keyword` (the keyword is used as given).
   */
  function FindColumnIndices(columns: seq<string>, keyword: string): (r: seq<nat>)
    ensures forall k :: 0 <= k < |r| ==> r[k] < |columns| && Contains(Lower(columns[r[k]]), keyword)
    ensures forall i :: 0 <= i < |columns| && Contains(Lower(columns[i]), keyword) ==> i in r
    ensures forall k, l :: 0 <= k < l < |r| ==> r[k] < r[l]
  {
    IndicesFrom(columns, keyword, 0)
  }

  function IndicesFrom(columns: seq<string>, keyword: string, i: nat): (r: seq<nat>)
    requires i <= |columns|
    ensures forall k :: 0 <= k < |r| ==> i <= r[k] < |columns| && Contains(Lower(columns[r[k]]), keyword)
    ensures forall j :: i <= j < |columns| && Contains(Lower(columns[j]), keyword) ==> j in r
    ensures forall k, l :: 0 <= k < l < |r| ==> r[k] < r[l]
    decreases |columns| - i
  {
    if i == |columns| then []
    else
      var rest := IndicesFrom(columns, keyword, i + 1);
      if Contains(Lower(columns[i]), keyword) then [i] + rest else rest
  }

  /** The positions of every column kind's columns. */
  function KindIndices(columns: seq<string>): (r: map<string, seq<nat>>)
    ensures forall k :: k in r <==> k in ColumnTypes
    ensures forall k :: k in ColumnTypes ==> r[k] == FindColumnIndices(columns, k)
  {
    map k | k in ColumnTypes :: FindColumnIndices(columns, k)
  }

  /** The fixed width table and the thumbnail height. */
  const Table: StyleTable := StyleTable(Widths, ImageHeight)

  /** A width for every column kind, in the kinds' order, and the thumbnail's 16:9 height. */
  lemma TableShape()
    ensures PyDict.Keys(Table.width) == ColumnTypes
    ensures forall i :: 0 <= i < |Table.width| ==> Table.width[i].1.Some?
    ensures Table.height == 169
  {
    ImageHeightIs169();
    WidthsCoverColumnTypes();
  }

  /**
   * `make_style_info`: the column positions of every column kind, and the
   * fixed width table (a width for every kind) with the thumbnail height.
   */
  function MakeStyleInfo(columns: seq<string>): (r: (map<string, seq<nat>>, StyleTable))
    ensures forall k :: k in r.0 <==> k in ColumnTypes
    ensures forall k :: k in ColumnTypes ==> r.0[k] == FindColumnIndices(columns, k)
    ensures PyDict.Keys(r.1.width) == ColumnTypes
    ensures forall i :: 0 <= i < |r.1.width| ==> r.1.width[i].1.Some?
    ensures r.1.height == 169
  {
    TableShape();
    (KindIndices(columns), Table)
  }

  lemma WidthsCoverColumnTypes()
    ensures PyDict.Keys(Widths) == ColumnTypes
  {
    var ks := PyDict.Keys(Widths);
    assert |ks| == 7;
    forall i | 0 <= i < 7
      ensures ks[i] == ColumnTypes[i]
    {
    }
  }
}
