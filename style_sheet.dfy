/**
 * Styling the report sheet (licensing/style_sheet.py): header rows frozen
 * and bold, one merged header group per match, column widths by column kind.
 * The sheet and its style object are modelled by the calls made on them.
 */
module ReportStyling {
  import opened Wrappers
  import Columns
  import SheetRows
  import Text

  datatype MergeType = MergeColumns | MergeRows

  /** One call on the sheet or on its style object, with its arguments. */
  datatype StyleCall =
    | FreezeHeaderRows(count: nat)
    | Bold(startRow: int, endRow: int)
    | HorizontalCenter
    | VerticalMiddle
    | WrapCells
    | ResizeRows(height: int, rowStart: int)
    | MergeCells(startRow: int, endRow: int, startCol: int, endCol: int, mergeType: MergeType)
    | VerticalBorder(column: int)
    | ResizeColumns(width: int, column: int)
    | Execute

  /** The sheet style settings: the row height and, by column kind, a width or `None`. */
  datatype SheetStyle = SheetStyle(height: int, width: string -> Option<int>)

  /** The first column of match group `i`. */
  function MatchStart(h: SheetRows.HeaderSpec, i: nat): nat {
    h.NumSimpleFields() + i * h.NumMatchFields()
  }

  /** One past the last column of match group `i`. */
  function MatchEnd(h: SheetRows.HeaderSpec, i: nat): nat {
    MatchStart(h, i) + h.NumMatchFields()
  }

  /** Each group ends where the next begins; the first begins after the plain columns. */
  lemma MatchRangesContiguous(h: SheetRows.HeaderSpec, i: nat)
    ensures MatchStart(h, 0) == h.NumSimpleFields()
    ensures MatchEnd(h, i) == MatchStart(h, i + 1)
  {
  }

  /** Earlier groups lie wholly before later ones. */
  lemma MatchRangesDisjoint(h: SheetRows.HeaderSpec, i: nat, j: nat)
    requires i < j
    ensures MatchEnd(h, i) <= MatchStart(h, j)
  {
    MulMonotone(i + 1, j, h.NumMatchFields());
    MulStep(i, h.NumMatchFields());
  }

  /** `(a + 1) * w == a * w + w` */
  lemma MulStep(a: nat, w: nat)
    ensures (a + 1) * w == a * w + w
  {
  }

  /** Multiplication by a natural number keeps order. */
  lemma {:induction false} MulMonotone(a: nat, b: nat, w: nat)
    requires a <= b
    ensures a * w <= b * w
    decreases b - a
  {
    if a < b {
      MulMonotone(a + 1, b, w);
      MulStep(a, w);
    }
  }

  /** The last group ends after all `count` groups of match columns. */
  lemma MatchRangesEnd(h: SheetRows.HeaderSpec)
    requires h.Count() > 0
    ensures MatchEnd(h, h.Count() - 1) == h.NumSimpleFields() + h.Count() * h.NumMatchFields()
  {
  }

  /**
   * Every column past the plain ones and before the end of the last group
   * belongs to exactly one group.
   */
  lemma ColumnInOneMatch(h: SheetRows.HeaderSpec, c: nat)
    requires h.NumSimpleFields() <= c < h.NumSimpleFields() + h.Count() * h.NumMatchFields()
    ensures exists i :: 0 <= i < h.Count() && MatchStart(h, i) <= c < MatchEnd(h, i)
    ensures forall i, j :: 0 <= i < j && MatchStart(h, i) <= c < MatchEnd(h, i) ==> !(MatchStart(h, j) <= c < MatchEnd(h, j))
  {
    var ns, nm := h.NumSimpleFields(), h.NumMatchFields();
    var d := c - ns;
    assert nm > 0;
    var i := d / nm;
    assert i * nm <= d < i * nm + nm;
    assert i < h.Count();
    assert MatchStart(h, i) <= c < MatchEnd(h, i);
    forall i, j | 0 <= i < j && MatchStart(h, i) <= c < MatchEnd(h, i)
      ensures !(MatchStart(h, j) <= c < MatchEnd(h, j))
    {
      MatchRangesDisjoint(h, i, j);
    }
  }

  /** The calls before the match groups: freeze, bold, align, wrap, resize the rows, merge the plain headers. */
  function Prelude(numHeaderRows: nat, h: SheetRows.HeaderSpec, style: SheetStyle): seq<StyleCall> {
    [FreezeHeaderRows(numHeaderRows), Bold(0, numHeaderRows), HorizontalCenter, VerticalMiddle, WrapCells,
     ResizeRows(style.height, numHeaderRows), MergeCells(0, numHeaderRows, 0, h.NumSimpleFields(), MergeColumns)]
  }

  /** For each of the first `n` groups, a border before it and its first header row merged. */
  function MatchCalls(h: SheetRows.HeaderSpec, n: nat): (r: seq<StyleCall>)
    ensures |r| == 2 * n
  {
    if n == 0 then []
    else MatchCalls(h, n - 1)
         + [VerticalBorder(MatchStart(h, n - 1)), MergeCells(0, 1, MatchStart(h, n - 1), MatchEnd(h, n - 1), MergeRows)]
  }

  /** Group `i` gets its border at its first column and the merge of exactly its columns, in row 0. */
  lemma {:induction false} MatchCallsAt(h: SheetRows.HeaderSpec, n: nat, i: nat)
    requires i < n
    ensures MatchCalls(h, n)[2 * i] == VerticalBorder(MatchStart(h, i))
    ensures MatchCalls(h, n)[2 * i + 1] == MergeCells(0, 1, MatchStart(h, i), MatchEnd(h, i), MergeRows)
  {
    if i < n - 1 {
      MatchCallsAt(h, n - 1, i);
    }
  }

  /** A resize of each listed column to `width`. */
  function ColumnCalls(width: int, indices: seq<nat>): (r: seq<StyleCall>)
    ensures |r| == |indices|
    ensures forall k :: 0 <= k < |indices| ==> r[k] == ResizeColumns(width, indices[k])
  {
    if indices == [] then [] else ColumnCalls(width, indices[..|indices| - 1]) + [ResizeColumns(width, indices[|indices| - 1])]
  }

  /** `column_indices`: for each column kind, the columns whose lower-cased name contains it. */
  function ColumnIndices(names: seq<string>, kinds: seq<string>): (r: map<string, seq<nat>>)
    ensures forall k :: k in kinds <==> k in r
    ensures forall k :: k in kinds ==> r[k] == Columns.FindColumnIndices(names, k)
  {
    map k | k in kinds :: Columns.FindColumnIndices(names, k)
  }

  /** For each column kind with a width, the resizes of that kind's columns. */
  function WidthCalls(indices: map<string, seq<nat>>, kinds: seq<string>, width: string -> Option<int>): seq<StyleCall>
    requires forall k :: k in kinds ==> k in indices
  {
    if kinds == [] then []
    else
      var kind := kinds[|kinds| - 1];
      WidthCalls(indices, kinds[..|kinds| - 1], width) + KindCalls(indices, kind, width)
  }

  /** The resizes for one column kind: none when it has no width. */
  function KindCalls(indices: map<string, seq<nat>>, kind: string, width: string -> Option<int>): seq<StyleCall>
    requires kind in indices
  {
    if width(kind).None? then [] else ColumnCalls(width(kind).value, indices[kind])
  }

  /** `call` resizes, to its width, a column of a kind that has a width. */
  predicate FromSetWidth(call: StyleCall, indices: map<string, seq<nat>>, kinds: seq<string>, width: string -> Option<int>) {
    call.ResizeColumns? && exists kind :: kind in kinds && kind in indices && width(kind) == Some(call.width)
                                          && call.column in indices[kind]
  }

  /** Every width call resizes a column of some kind that has a width, to that width. */
  lemma {:induction false} WidthCallsFromSetWidths(indices: map<string, seq<nat>>, kinds: seq<string>,
                                                   width: string -> Option<int>)
    requires forall k :: k in kinds ==> k in indices
    ensures forall k :: 0 <= k < |WidthCalls(indices, kinds, width)| ==>
              FromSetWidth(WidthCalls(indices, kinds, width)[k], indices, kinds, width)
    decreases |kinds|
  {
    if kinds != [] {
      var n := |kinds| - 1;
      var kind := kinds[n];
      assert kind in kinds;
      var prev := WidthCalls(indices, kinds[..n], width);
      WidthCallsFromSetWidths(indices, kinds[..n], width);
      var here := KindCalls(indices, kind, width);
      assert WidthCalls(indices, kinds, width) == prev + here;
      forall k | 0 <= k < |prev| + |here|
        ensures FromSetWidth((prev + here)[k], indices, kinds, width)
      {
        if k < |prev| {
          var call := prev[k];
          assert FromSetWidth(call, indices, kinds[..n], width);
          var kd :| kd in kinds[..n] && kd in indices && width(kd) == Some(call.width) && call.column in indices[kd];
          assert kd in kinds;
        } else {
          assert here[k - |prev|] == ResizeColumns(width(kind).value, indices[kind][k - |prev|]);
        }
      }
    }
  }

  /** A kind with a width resizes each of its columns. */
  lemma {:induction false} SetWidthsApplied(indices: map<string, seq<nat>>, kinds: seq<string>, width: string -> Option<int>,
                                            kind: string, c: nat)
    requires forall k :: k in kinds ==> k in indices
    requires kind in kinds && width(kind).Some? && c in indices[kind]
    ensures ResizeColumns(width(kind).value, c) in WidthCalls(indices, kinds, width)
    decreases |kinds|
  {
    var n := |kinds| - 1;
    var call := ResizeColumns(width(kind).value, c);
    var prev := WidthCalls(indices, kinds[..n], width);
    var here := KindCalls(indices, kinds[n], width);
    assert WidthCalls(indices, kinds, width) == prev + here;
    if kinds[n] == kind {
      var p :| 0 <= p < |indices[kind]| && indices[kind][p] == c;
      assert here[p] == call;
      InRight(prev, here, p);
    } else {
      var q :| 0 <= q < |kinds| && kinds[q] == kind;
      assert kinds[..n][q] == kind;
      SetWidthsApplied(indices, kinds[..n], width, kind, c);
      InLeft(prev, here, call);
    }
  }

  /** An element of the right part is in the concatenation. */
  lemma InRight<T>(a: seq<T>, b: seq<T>, p: nat)
    requires p < |b|
    ensures b[p] in a + b
  {
    assert (a + b)[|a| + p] == b[p];
  }

  /** An element of the left part is in the concatenation. */
  lemma InLeft<T>(a: seq<T>, b: seq<T>, x: T)
    requires x in a
    ensures x in a + b
  {
    var p :| 0 <= p < |a| && a[p] == x;
    assert (a + b)[p] == x;
  }

  /** All the calls `style_sheet` makes, in order. */
  function StyleCalls(numHeaderRows: nat, h: SheetRows.HeaderSpec, style: SheetStyle, kinds: seq<string>): seq<StyleCall> {
    Prelude(numHeaderRows, h, style) + MatchCalls(h, h.Count())
    + WidthCalls(ColumnIndices(h.Names(), kinds), kinds, style.width) + [Execute]
  }

  /**
   * `style_sheet`: the calls made on the sheet and its style object, for
   * `numHeaderRows` header rows and the column kinds `kinds` of the width settings.
   */
  method StyleSheet(numHeaderRows: nat, h: SheetRows.HeaderSpec, style: SheetStyle, kinds: seq<string>)
    returns (calls: seq<StyleCall>)
    ensures calls == StyleCalls(numHeaderRows, h, style, kinds)
  {
    calls := [FreezeHeaderRows(numHeaderRows)];
    var columnIndices := ColumnIndices(h.Names(), kinds);
    calls := calls + [Bold(0, numHeaderRows), HorizontalCenter, VerticalMiddle, WrapCells,
                      ResizeRows(style.height, numHeaderRows),
                      MergeCells(0, numHeaderRows, 0, h.NumSimpleFields(), MergeColumns)];
    var i := 0;
    while i < h.Count()
      invariant 0 <= i <= h.Count()
      invariant calls == Prelude(numHeaderRows, h, style) + MatchCalls(h, i)
    {
      var start := h.NumSimpleFields() + i * h.NumMatchFields();
      var end := start + h.NumMatchFields();
      calls := calls + [VerticalBorder(start), MergeCells(0, 1, start, end, MergeRows)];
      i := i + 1;
    }
    calls := AppendWidthResizes(calls, columnIndices, kinds, style.width);
    calls := calls + [Execute];
  }

  /** The width loop: for each kind with a width, a resize of each of its columns. */
  method AppendWidthResizes(calls: seq<StyleCall>, indices: map<string, seq<nat>>,
                            kinds: seq<string>, width: string -> Option<int>)
    returns (r: seq<StyleCall>)
    requires forall k :: k in kinds ==> k in indices
    ensures r == calls + WidthCalls(indices, kinds, width)
  {
    r := calls;
    for t := 0 to |kinds|
      invariant forall k :: k in kinds[..t] ==> k in indices
      invariant r == calls + WidthCalls(indices, kinds[..t], width)
    {
      var kind := kinds[t];
      PrefixStep(indices, kinds, width, t);
      var w := width(kind);
      if w.Some? {
        var prev := WidthCalls(indices, kinds[..t], width);
        r := AppendColumnResizes(r, w.value, indices[kind]);
        Text.AppendAssoc(calls, prev, KindCalls(indices, kind, width));
      } else {
        assert KindCalls(indices, kind, width) == [];
        assert WidthCalls(indices, kinds[..t + 1], width) == WidthCalls(indices, kinds[..t], width);
      }
    }
    assert kinds[..|kinds|] == kinds;
  }

  /** Extending the kinds by one kind adds that kind's calls. */
  lemma PrefixStep(indices: map<string, seq<nat>>, kinds: seq<string>, width: string -> Option<int>, t: nat)
    requires forall k :: k in kinds ==> k in indices
    requires t < |kinds|
    ensures forall k :: k in kinds[..t + 1] ==> k in indices
    ensures WidthCalls(indices, kinds[..t + 1], width) == WidthCalls(indices, kinds[..t], width) + KindCalls(indices, kinds[t], width)
  {
    assert kinds[..t + 1][..t] == kinds[..t] && kinds[..t + 1][t] == kinds[t];
    forall k | k in kinds[..t + 1]
      ensures k in indices
    {
      var p :| 0 <= p < t + 1 && kinds[..t + 1][p] == k;
      assert kinds[p] == k;
    }
  }

  /** The inner loop of the width settings: one resize per column index. */
  method AppendColumnResizes(calls: seq<StyleCall>, width: int, indices: seq<nat>) returns (r: seq<StyleCall>)
    ensures r == calls + ColumnCalls(width, indices)
  {
    r := calls;
    for k := 0 to |indices|
      invariant r == calls + ColumnCalls(width, indices[..k])
    {
      assert indices[..k + 1][..k] == indices[..k];
      r := r + [ResizeColumns(width, indices[k])];
    }
    assert indices[..|indices|] == indices;
  }

  /** The frozen rows are the header rows, the borders and merges fall on match groups, and `execute` comes last. */
  lemma StyleCallsShape(numHeaderRows: nat, h: SheetRows.HeaderSpec, style: SheetStyle, kinds: seq<string>, i: nat)
    requires i < h.Count()
    ensures var calls := StyleCalls(numHeaderRows, h, style, kinds);
            && |calls| == 8 + 2 * h.Count() + |WidthCalls(ColumnIndices(h.Names(), kinds), kinds, style.width)|
            && calls[0] == FreezeHeaderRows(numHeaderRows)
            && calls[1] == Bold(0, numHeaderRows)
            && calls[5] == ResizeRows(style.height, numHeaderRows)
            && calls[6] == MergeCells(0, numHeaderRows, 0, h.NumSimpleFields(), MergeColumns)
            && calls[7 + 2 * i] == VerticalBorder(MatchStart(h, i))
            && calls[8 + 2 * i] == MergeCells(0, 1, MatchStart(h, i), MatchEnd(h, i), MergeRows)
            && calls[|calls| - 1] == Execute
  {
    var w := WidthCalls(ColumnIndices(h.Names(), kinds), kinds, style.width);
    AssembledShape(numHeaderRows, h, style, w, i);
  }

  /** The layout of the prelude, the match groups, any width calls `w` and `execute`. */
  lemma AssembledShape(numHeaderRows: nat, h: SheetRows.HeaderSpec, style: SheetStyle, w: seq<StyleCall>, i: nat)
    requires i < h.Count()
    ensures var calls := Prelude(numHeaderRows, h, style) + MatchCalls(h, h.Count()) + w + [Execute];
            && |calls| == 8 + 2 * h.Count() + |w|
            && calls[0] == FreezeHeaderRows(numHeaderRows)
            && calls[1] == Bold(0, numHeaderRows)
            && calls[5] == ResizeRows(style.height, numHeaderRows)
            && calls[6] == MergeCells(0, numHeaderRows, 0, h.NumSimpleFields(), MergeColumns)
            && calls[7 + 2 * i] == VerticalBorder(MatchStart(h, i))
            && calls[8 + 2 * i] == MergeCells(0, 1, MatchStart(h, i), MatchEnd(h, i), MergeRows)
            && calls[|calls| - 1] == Execute
  {
    MatchCallsAt(h, h.Count(), i);
    var p := Prelude(numHeaderRows, h, style);
    var m := MatchCalls(h, h.Count());
    assert |p| == 7;
    var pm := p + m;
    assert pm[7 + 2 * i] == m[2 * i];
    assert pm[8 + 2 * i] == m[2 * i + 1];
    assert (pm + w + [Execute])[7 + 2 * i] == pm[7 + 2 * i];
    assert (pm + w + [Execute])[8 + 2 * i] == pm[8 + 2 * i];
  }
}
