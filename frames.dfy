/**
 * The data frames the extractors build and the loader writes: a list of column
 * labels and a sequence of rows, each row holding one value per column.
 * Only the frame operations the pipeline relies on are modelled: row-wise
 * `pd.concat`, `DataFrame.empty`, `rename(columns=...)`, `insert(loc=0, ...)`
 * and the column truncation loop shared by the Woolworths extractors.
 */
module Frames {
  import opened Wrappers
  import opened Text

  /** A cell as it reaches the database once NaN has been replaced by None. */
  datatype Value = Null | Str(s: string) | Int(i: int) | Bool(b: bool)

  type Row = seq<Value>

  datatype Frame = Frame(columns: seq<string>, rows: seq<Row>)

  /** A frame carrying the `attrs['name']` the Woolworths extractor attaches. */
  datatype NamedFrame = NamedFrame(name: string, frame: Frame)

  /** `pd.DataFrame()` */
  const EmptyFrame: Frame := Frame([], [])

  /** `DataFrame.empty`: no rows or no columns. */
  predicate IsEmpty(f: Frame) {
    |f.rows| == 0 || |f.columns| == 0
  }

  /** Every row has one value per column. */
  predicate WellFormed(f: Frame) {
    forall i :: 0 <= i < |f.rows| ==> |f.rows[i]| == |f.columns|
  }

  predicate Distinct(cols: seq<string>) {
    forall i, j :: 0 <= i < j < |cols| ==> cols[i] != cols[j]
  }

  /** The position of the first column labelled `c`. */
  function IndexOf(cols: seq<string>, c: string): (r: nat)
    requires c in cols
    ensures r < |cols| && cols[r] == c
    ensures forall j :: 0 <= j < r ==> cols[j] != c
  {
    if cols[0] == c then 0 else 1 + IndexOf(cols[1..], c)
  }

  /** The column labels of a row-wise concatenation: those of `a`, then each label of
      `b` not seen before, in order of first appearance. */
  function UnionColumns(a: seq<string>, b: seq<string>): (r: seq<string>)
    ensures |a| <= |r| && r[..|a|] == a
    decreases |b|
  {
    if b == [] then a
    else
      var a' := if b[0] in a then a else a + [b[0]];
      assert a'[..|a|] == a;
      UnionColumns(a', b[1..])
  }

  /** The union holds exactly the labels of both frames, each once if `a` has no repeats. */
  lemma {:induction false} UnionColumnsContents(a: seq<string>, b: seq<string>)
    ensures forall c :: c in UnionColumns(a, b) <==> c in a || c in b
    ensures Distinct(a) ==> Distinct(UnionColumns(a, b))
    decreases |b|
  {
    if b != [] {
      var a' := if b[0] in a then a else a + [b[0]];
      assert UnionColumns(a, b) == UnionColumns(a', b[1..]);
      UnionColumnsContents(a', b[1..]);
      assert forall c :: c in b <==> c == b[0] || c in b[1..];
      if Distinct(a) && b[0] !in a {
        forall i, j | 0 <= i < j < |a'| ensures a'[i] != a'[j] {
          if j == |a| {
            assert a'[i] == a[i];
          }
        }
      }
    }
  }

  /** A row of a frame with columns `cols`, laid out over the columns `merged`:
      a column the row does not have holds Null. */
  function Realign(row: Row, cols: seq<string>, merged: seq<string>): (r: Row)
    ensures |r| == |merged|
  {
    seq(|merged|, k requires 0 <= k < |merged| =>
      if merged[k] in cols && IndexOf(cols, merged[k]) < |row| then row[IndexOf(cols, merged[k])] else Null)
  }

  /** `pd.concat((a, b), axis=0)`: the rows of `a` then the rows of `b`, over the union
      of their columns. */
  function Concat(a: Frame, b: Frame): (r: Frame)
    ensures WellFormed(r)
    ensures |r.rows| == |a.rows| + |b.rows|
    ensures r.columns == UnionColumns(a.columns, b.columns)
  {
    var merged := UnionColumns(a.columns, b.columns);
    Frame(merged,
      seq(|a.rows|, i requires 0 <= i < |a.rows| => Realign(a.rows[i], a.columns, merged)) +
      seq(|b.rows|, i requires 0 <= i < |b.rows| => Realign(b.rows[i], b.columns, merged)))
  }

  /** The value row `j` of `f` holds under the label `c`, read the way `pd.concat` lays a
      row out over merged columns: Null when the frame has no such column or no such row. */
  function Cell(f: Frame, j: nat, c: string): Value {
    if j < |f.rows| && c in f.columns && IndexOf(f.columns, c) < |f.rows[j]| then f.rows[j][IndexOf(f.columns, c)]
    else Null
  }

  /** Row `k` of `a` keeps its values under their labels in the concatenation. */
  lemma ConcatCellLeft(a: Frame, b: Frame, k: nat, c: string)
    requires k < |a.rows|
    ensures Cell(Concat(a, b), k, c) == Cell(a, k, c)
  {
    var r := Concat(a, b);
    UnionColumnsContents(a.columns, b.columns);
    if c in r.columns {
      assert r.rows[k] == Realign(a.rows[k], a.columns, r.columns);
      assert r.columns[IndexOf(r.columns, c)] == c;
    }
  }

  /** Row `k` of `b` becomes row `|a.rows| + k` of the concatenation, values kept. */
  lemma ConcatCellRight(a: Frame, b: Frame, k: nat, c: string)
    requires k < |b.rows|
    ensures Cell(Concat(a, b), |a.rows| + k, c) == Cell(b, k, c)
  {
    var r := Concat(a, b);
    UnionColumnsContents(a.columns, b.columns);
    if c in r.columns {
      assert r.rows[|a.rows| + k] == Realign(b.rows[k], b.columns, r.columns);
      assert r.columns[IndexOf(r.columns, c)] == c;
    }
  }

  /** `pd.concat` keeps every value under its label: row `k` of `a` becomes row `k` of
      the result and row `k` of `b` row `|a.rows| + k`, and a label the row's own frame
      lacks reads Null. */
  lemma ConcatCells(a: Frame, b: Frame)
    ensures var r := Concat(a, b);
      && (forall c :: c in r.columns <==> c in a.columns || c in b.columns)
      && (forall k, c :: 0 <= k < |a.rows| ==> Cell(r, k, c) == Cell(a, k, c))
      && (forall k, c :: 0 <= k < |b.rows| ==> Cell(r, |a.rows| + k, c) == Cell(b, k, c))
  {
    UnionColumnsContents(a.columns, b.columns);
    forall k, c | 0 <= k < |a.rows| ensures Cell(Concat(a, b), k, c) == Cell(a, k, c) {
      ConcatCellLeft(a, b, k, c);
    }
    forall k, c | 0 <= k < |b.rows| ensures Cell(Concat(a, b), |a.rows| + k, c) == Cell(b, k, c) {
      ConcatCellRight(a, b, k, c);
    }
  }

  /** Over its own (distinct) columns a row is laid out unchanged. */
  lemma RealignOwnColumns(row: Row, cols: seq<string>)
    requires Distinct(cols) && |row| == |cols|
    ensures Realign(row, cols, cols) == row
  {
    forall k | 0 <= k < |cols| ensures IndexOf(cols, cols[k]) == k {
      var j := IndexOf(cols, cols[k]);
      if j < k {
        assert cols[j] == cols[k];
      }
    }
  }

  /** Concatenating frames with the same distinct columns appends the rows. */
  lemma ConcatSameColumns(a: Frame, b: Frame)
    requires a.columns == b.columns && Distinct(a.columns)
    requires WellFormed(a) && WellFormed(b)
    ensures Concat(a, b) == Frame(a.columns, a.rows + b.rows)
  {
    UnionSame(a.columns);
    var r := Concat(a, b);
    forall i | 0 <= i < |a.rows| ensures r.rows[i] == a.rows[i] {
      RealignOwnColumns(a.rows[i], a.columns);
    }
    forall i | 0 <= i < |b.rows| ensures r.rows[|a.rows| + i] == b.rows[i] {
      RealignOwnColumns(b.rows[i], b.columns);
    }
    assert r.rows == a.rows + b.rows;
  }

  lemma {:induction false} UnionAbsorbed(a: seq<string>, b: seq<string>)
    requires forall c :: c in b ==> c in a
    ensures UnionColumns(a, b) == a
    decreases |b|
  {
    if b != [] {
      UnionAbsorbed(a, b[1..]);
    }
  }

  lemma UnionSame(a: seq<string>)
    ensures UnionColumns(a, a) == a
  {
    UnionAbsorbed(a, a);
  }

  /** Every row of a well-formed frame is laid out unchanged over its own columns. */
  lemma RealignRows(f: Frame)
    requires Distinct(f.columns) && WellFormed(f)
    ensures seq(|f.rows|, i requires 0 <= i < |f.rows| => Realign(f.rows[i], f.columns, f.columns)) == f.rows
  {
    forall i | 0 <= i < |f.rows| ensures Realign(f.rows[i], f.columns, f.columns) == f.rows[i] {
      RealignOwnColumns(f.rows[i], f.columns);
    }
  }

  /** Concatenating onto `pd.DataFrame()` gives the other frame back. */
  lemma ConcatOntoEmpty(b: Frame)
    requires Distinct(b.columns) && WellFormed(b)
    ensures Concat(EmptyFrame, b) == b
  {
    UnionOntoNothing(b.columns);
    RealignRows(b);
    var r := Concat(EmptyFrame, b);
    assert r.columns == b.columns;
    assert r.rows == [] + b.rows;
  }

  lemma UnionOntoNothing(b: seq<string>)
    requires Distinct(b)
    ensures UnionColumns([], b) == b
  {
    UnionFresh([], b);
  }

  lemma {:induction false} UnionFresh(a: seq<string>, b: seq<string>)
    requires Distinct(b) && forall c :: c in b ==> c !in a
    ensures UnionColumns(a, b) == a + b
    decreases |b|
  {
    if b != [] {
      var a', b' := a + [b[0]], b[1..];
      assert b[0] !in a;
      assert UnionColumns(a, b) == UnionColumns(a', b');
      FreshTail(a, b);
      UnionFresh(a', b');
      assert a' + b' == a + b;
    }
  }

  lemma FreshTail(a: seq<string>, b: seq<string>)
    requires b != [] && Distinct(b) && forall c :: c in b ==> c !in a
    ensures Distinct(b[1..]) && forall c :: c in b[1..] ==> c !in a + [b[0]]
  {
    var b' := b[1..];
    forall c | c in b' ensures c !in a + [b[0]] {
      var k :| 0 <= k < |b'| && b'[k] == c;
      assert b[k + 1] == c;
    }
    forall i, j | 0 <= i < j < |b'| ensures b'[i] != b'[j] {
      assert b'[i] == b[i + 1] && b'[j] == b[j + 1];
    }
  }

  /** The empty frame is its own concatenation with itself. */
  lemma ConcatEmptyEmpty()
    ensures Concat(EmptyFrame, EmptyFrame) == EmptyFrame
  {
  }

  /** Total number of rows across frames. */
  function TotalRows(fs: seq<Frame>): nat
  {
    if fs == [] then 0 else TotalRows(fs[..|fs| - 1]) + |fs[|fs| - 1].rows|
  }

  /** The rows of several frames, one after the other. */
  function AllRows(fs: seq<Frame>): seq<Row>
  {
    if fs == [] then [] else AllRows(fs[..|fs| - 1]) + fs[|fs| - 1].rows
  }

  /** Concatenates frames from left to right onto `pd.DataFrame()`, as the page loops do. */
  function ConcatAll(fs: seq<Frame>): (r: Frame)
    ensures WellFormed(r)
    ensures |r.rows| == TotalRows(fs)
  {
    if fs == [] then EmptyFrame else Concat(ConcatAll(fs[..|fs| - 1]), fs[|fs| - 1])
  }

  /** The concatenation of the pages has every page's columns. */
  lemma {:induction false} ConcatAllColumns(fs: seq<Frame>)
    ensures forall p, c :: 0 <= p < |fs| && c in fs[p].columns ==> c in ConcatAll(fs).columns
    decreases |fs|
  {
    if fs != [] {
      var n := |fs|;
      var init, last := fs[..n - 1], fs[n - 1];
      ConcatAllColumns(init);
      ConcatCells(ConcatAll(init), last);
      forall p, c | 0 <= p < n && c in fs[p].columns ensures c in ConcatAll(fs).columns {
        if p < n - 1 {
          assert fs[p] == init[p];
        }
      }
    }
  }

  /** The rows of page `p` start at row `TotalRows(fs[..p])` and lie within the result. */
  lemma {:induction false} ConcatAllOffset(fs: seq<Frame>, p: nat)
    requires p < |fs|
    ensures TotalRows(fs[..p]) + |fs[p].rows| <= TotalRows(fs)
    decreases |fs|
  {
    var n := |fs|;
    var init := fs[..n - 1];
    if p < n - 1 {
      assert fs[p] == init[p] && fs[..p] == init[..p];
      ConcatAllOffset(init, p);
    } else {
      assert fs[..p] == init;
    }
  }

  /** Rows of earlier pages keep their place and values when one more page is appended. */
  lemma ConcatAllEarlierPage(fs: seq<Frame>, p: nat, j: nat, c: string)
    requires p + 1 < |fs| && j < |fs[p].rows|
    ensures var init := fs[..|fs| - 1];
      Cell(ConcatAll(fs), TotalRows(fs[..p]) + j, c) == Cell(ConcatAll(init), TotalRows(init[..p]) + j, c)
  {
    var init, last := fs[..|fs| - 1], fs[|fs| - 1];
    var acc := ConcatAll(init);
    var k := TotalRows(init[..p]) + j;
    assert init[p] == fs[p];
    ConcatAllOffset(init, p);
    assert fs[..p] == init[..p];
    assert ConcatAll(fs) == Concat(acc, last);
    ConcatCellLeft(acc, last, k, c);
  }

  /** The rows of the last page follow the rows of all earlier pages. */
  lemma ConcatAllLastPage(fs: seq<Frame>, j: nat, c: string)
    requires 0 < |fs| && j < |fs[|fs| - 1].rows|
    ensures Cell(ConcatAll(fs), TotalRows(fs[..|fs| - 1]) + j, c) == Cell(fs[|fs| - 1], j, c)
  {
    var init, last := fs[..|fs| - 1], fs[|fs| - 1];
    assert ConcatAll(fs) == Concat(ConcatAll(init), last);
    ConcatCellRight(ConcatAll(init), last, j, c);
  }

  /** Row `j` of page `p` is row `TotalRows(fs[..p]) + j` of the concatenation, with
      every value under its label. */
  lemma {:induction false} ConcatAllCell(fs: seq<Frame>, p: nat, j: nat, c: string)
    requires p < |fs| && j < |fs[p].rows|
    ensures Cell(ConcatAll(fs), TotalRows(fs[..p]) + j, c) == Cell(fs[p], j, c)
    decreases |fs|
  {
    var init := fs[..|fs| - 1];
    if p + 1 < |fs| {
      ConcatAllEarlierPage(fs, p, j, c);
      assert init[p] == fs[p];
      ConcatAllCell(init, p, j, c);
    } else {
      ConcatAllLastPage(fs, j, c);
    }
  }

  /** The page loop keeps every page's values under their labels: the rows of page `p`
      start at row `TotalRows(fs[..p])` of the result and lie within it. */
  lemma ConcatAllCells(fs: seq<Frame>)
    ensures forall p :: 0 <= p < |fs| ==> TotalRows(fs[..p]) + |fs[p].rows| <= |ConcatAll(fs).rows|
    ensures forall p, j, c :: 0 <= p < |fs| && 0 <= j < |fs[p].rows| ==>
      Cell(ConcatAll(fs), TotalRows(fs[..p]) + j, c) == Cell(fs[p], j, c)
  {
    forall p | 0 <= p < |fs| ensures TotalRows(fs[..p]) + |fs[p].rows| <= |ConcatAll(fs).rows| {
      ConcatAllOffset(fs, p);
    }
    forall p, j, c | 0 <= p < |fs| && 0 <= j < |fs[p].rows|
      ensures Cell(ConcatAll(fs), TotalRows(fs[..p]) + j, c) == Cell(fs[p], j, c)
    {
      ConcatAllCell(fs, p, j, c);
    }
  }

  /** Pages that share one list of distinct columns concatenate to those columns over all
      their rows, in page order. */
  lemma {:induction false} ConcatAllSameColumns(fs: seq<Frame>, cols: seq<string>)
    requires fs != [] && Distinct(cols)
    requires forall k :: 0 <= k < |fs| ==> fs[k].columns == cols && WellFormed(fs[k])
    ensures ConcatAll(fs) == Frame(cols, AllRows(fs))
    decreases |fs|
  {
    var init := fs[..|fs| - 1];
    if init == [] {
      ConcatOntoEmpty(fs[0]);
    } else {
      ConcatAllSameColumns(init, cols);
      ConcatSameColumns(ConcatAll(init), fs[|fs| - 1]);
    }
  }

  /** Every page empty leaves the concatenation empty. */
  lemma {:induction false} ConcatAllOfEmpties(fs: seq<Frame>)
    requires forall k :: 0 <= k < |fs| ==> fs[k] == EmptyFrame
    ensures ConcatAll(fs) == EmptyFrame
    decreases |fs|
  {
    if fs != [] {
      ConcatAllOfEmpties(fs[..|fs| - 1]);
    }
  }

  // ---------------------------------------------------------------------------
  // Column labels

  /** `df.rename(columns=names)`: a label found in `names` is replaced, any other kept. */
  function RenameColumns(f: Frame, names: map<string, string>): Frame
  {
    f.(columns := seq(|f.columns|, k requires 0 <= k < |f.columns| =>
      if f.columns[k] in names then names[f.columns[k]] else f.columns[k]))
  }

  /** The frame with every column label abbreviated; the rows are untouched. */
  function Truncated(f: Frame): (r: Frame)
    ensures r.rows == f.rows && |r.columns| == |f.columns|
  {
    f.(columns := seq(|f.columns|, k requires 0 <= k < |f.columns| => Abbreviate(f.columns[k])))
  }

  /** Every truncated label is free of '.' and '_' and no longer than the label it replaces. */
  lemma TruncatedIsClean(f: Frame)
    ensures forall k :: 0 <= k < |f.columns| ==>
      var c := Truncated(f).columns[k];
      '.' !in c && '_' !in c && |c| <= |f.columns[k]|
  {
    forall k | 0 <= k < |f.columns| {
      AbbreviateIsClean(f.columns[k]);
    }
  }

  /** Labels that abbreviate to themselves are kept. */
  lemma TruncatedKeeps(f: Frame)
    requires forall k :: 0 <= k < |f.columns| ==> Abbreviate(f.columns[k]) == f.columns[k]
    ensures Truncated(f) == f
  {
    assert Truncated(f).columns == f.columns;
  }

  lemma RenameByAbbreviations(f: Frame, names: map<string, string>)
    requires forall k :: 0 <= k < |f.columns| ==> f.columns[k] in names
    requires forall c :: c in names ==> names[c] == Abbreviate(c)
    ensures RenameColumns(f, names) == Truncated(f)
  {
    var r := RenameColumns(f, names);
    var t := Truncated(f);
    assert |r.columns| == |t.columns|;
    forall k | 0 <= k < |f.columns| ensures r.columns[k] == t.columns[k] {
    }
  }

  /** The truncation block: builds `new_column_dict` column by column, then renames. */
  method TruncateColumnNames(f: Frame) returns (r: Frame)
    ensures r == Truncated(f)
  {
    var newNames: map<string, string> := map[];
    var i := 0;
    while i < |f.columns|
      invariant 0 <= i <= |f.columns|
      invariant forall k :: 0 <= k < i ==> f.columns[k] in newNames
      invariant forall c :: c in newNames ==> newNames[c] == Abbreviate(c)
    {
      newNames := newNames[f.columns[i] := Abbreviate(f.columns[i])];
      i := i + 1;
    }
    r := RenameColumns(f, newNames);
    RenameByAbbreviations(f, newNames);
    assert r.columns == Truncated(f).columns && r.rows == Truncated(f).rows;
  }

  /** `df.insert(loc=0, column=name, value=v)`; fails (pandas raises) when the label
      is already present. */
  function InsertColumn(f: Frame, name: string, v: Value): Option<Frame>
  {
    if name in f.columns then None
    else Some(Frame([name] + f.columns, seq(|f.rows|, i requires 0 <= i < |f.rows| => [v] + f.rows[i])))
  }

  /** Inserting a column into `pd.DataFrame()` gives a frame with that column and no rows. */
  lemma InsertIntoEmpty(name: string, v: Value)
    ensures InsertColumn(EmptyFrame, name, v) == Some(Frame([name], []))
  {
    var g := InsertColumn(EmptyFrame, name, v).value;
    assert g.columns == [name] + [];
    assert g.rows == [];
    assert g == Frame([name], []);
  }

  /** Abbreviating after an insert abbreviates the inserted label and the old labels alike. */
  lemma TruncatedInsertColumn(f: Frame, name: string, v: Value)
    requires name !in f.columns
    ensures var g := Truncated(InsertColumn(f, name, v).value);
      && g.columns[1..] == Truncated(f).columns
      && |g.rows| == |f.rows|
      && forall i :: 0 <= i < |g.rows| ==> g.rows[i] == [v] + f.rows[i]
  {
    var g := InsertColumn(f, name, v).value;
    forall k | 0 <= k < |f.columns| ensures Truncated(g).columns[k + 1] == Truncated(f).columns[k] {
      assert g.columns[k + 1] == f.columns[k];
    }
  }

  /** The frame without its first column. */
  function DropFirstColumn(f: Frame): Frame
    requires |f.columns| > 0
  {
    Frame(f.columns[1..], seq(|f.rows|, i requires 0 <= i < |f.rows| => if f.rows[i] == [] then [] else f.rows[i][1..]))
  }

  /** Inserting a column succeeds exactly when the label is new; the new column leads
      every row, and dropping it gives the original frame back. */
  lemma InsertColumnRoundTrip(f: Frame, name: string, v: Value)
    ensures InsertColumn(f, name, v).Some? <==> name !in f.columns
    ensures InsertColumn(f, name, v).Some? ==>
      var g := InsertColumn(f, name, v).value;
      && g.columns[0] == name
      && |g.rows| == |f.rows|
      && (forall i :: 0 <= i < |g.rows| ==> |g.rows[i]| > 0 && g.rows[i][0] == v)
      && DropFirstColumn(g) == f
      && (WellFormed(f) ==> WellFormed(g))
  {
    if name !in f.columns {
      var g := InsertColumn(f, name, v).value;
      assert DropFirstColumn(g).rows == f.rows;
    }
  }
}
