/**
 * The column-renaming variant of the Woolworths extractor. Its `run` reads a frame of
 * previously extracted products from a CSV file, abbreviates the column names, and
 * writes the new column names to a text file, one per line. The CSV file's frame is
 * the `df` argument and the text file's contents are a result.
 */
module WoolworthsExtract2 {
  import opened Text
  import opened Frames

  /** The text file written from the column list: every label followed by a newline. */
  function Lines(columns: seq<string>): (r: string)
    ensures |r| >= |columns|
  {
    if columns == [] then [] else columns[0] + "\n" + Lines(columns[1..])
  }

  /** Writing one more line appends it to the text. */
  lemma {:induction false} LinesAppend(columns: seq<string>, c: string)
    ensures Lines(columns + [c]) == Lines(columns) + c + "\n"
    decreases |columns|
  {
    if columns != [] {
      assert (columns + [c])[1..] == columns[1..] + [c];
      LinesAppend(columns[1..], c);
    } else {
      assert [c][1..] == [];
    }
  }

  /** The position of the first newline. */
  function FirstNewline(t: string): (i: nat)
    requires '\n' in t
    ensures i < |t| && t[i] == '\n' && '\n' !in t[..i]
  {
    if t[0] == '\n' then 0
    else
      var j := FirstNewline(t[1..]);
      assert t[..j + 1] == [t[0]] + t[1..][..j];
      j + 1
  }

  /** Reading a text file line by line: the text up to each newline, and a last line
      that lacks one when the text does not end with a newline. */
  function ReadLines(t: string): seq<string>
    decreases |t|
  {
    if t == [] then []
    else if '\n' !in t then [t]
    else
      var i := FirstNewline(t);
      [t[..i]] + ReadLines(t[i + 1..])
  }

  /** Reading back the column file gives the column list, provided no label contains a
      newline. */
  lemma {:induction false} ReadLinesRoundTrip(columns: seq<string>)
    requires forall k :: 0 <= k < |columns| ==> '\n' !in columns[k]
    ensures ReadLines(Lines(columns)) == columns
    decreases |columns|
  {
    if columns != [] {
      var c := columns[0];
      var t := Lines(columns);
      var rest := Lines(columns[1..]);
      assert t == c + ("\n" + rest);
      assert t[|c|] == '\n';
      var i := FirstNewline(t);
      assert forall j :: 0 <= j < |c| ==> t[j] == c[j];
      assert forall j :: 0 <= j < i ==> t[..i][j] == t[j];
      assert i == |c|;
      assert t[..i] == c;
      assert t[i + 1..] == rest;
      ReadLinesRoundTrip(columns[1..]);
      assert columns == [c] + columns[1..];
    }
  }

  /** The renaming block and the column-list block of `run`: abbreviates the column
      names, collects the new names in frame order and renders the column file. */
  method RenameAndListColumns(df: Frame) returns (renamed: Frame, columnList: seq<string>, columnFile: string)
    ensures renamed == Truncated(df)
    ensures columnList == renamed.columns
    ensures columnFile == Lines(columnList)
  {
    renamed := TruncateColumnNames(df);
    columnList := [];
    var i := 0;
    while i < |renamed.columns|
      invariant 0 <= i <= |renamed.columns|
      invariant columnList == renamed.columns[..i]
    {
      columnList := columnList + [renamed.columns[i]];
      i := i + 1;
    }
    assert renamed.columns[..i] == renamed.columns;
    columnFile := "";
    i := 0;
    while i < |columnList|
      invariant 0 <= i <= |columnList|
      invariant columnFile == Lines(columnList[..i])
    {
      LinesAppend(columnList[..i], columnList[i]);
      assert columnList[..i + 1] == columnList[..i] + [columnList[i]];
      columnFile := columnFile + columnList[i] + "\n";
      i := i + 1;
    }
    assert columnList[..i] == columnList;
  }

  /** The column file lists, one per line and in frame order, the abbreviated labels:
      each free of '.' and '_' and no longer than the label it replaces. */
  lemma ColumnFileLists(df: Frame)
    requires forall k :: 0 <= k < |df.columns| ==> '\n' !in df.columns[k]
    ensures var lines := ReadLines(Lines(Truncated(df).columns));
      && |lines| == |df.columns|
      && forall k :: 0 <= k < |lines| ==>
           lines[k] == Abbreviate(df.columns[k]) && '.' !in lines[k] && '_' !in lines[k] && |lines[k]| <= |df.columns[k]|
  {
    var cols := Truncated(df).columns;
    forall k | 0 <= k < |cols| ensures '\n' !in cols[k] {
      AbbreviateKeepsAbsent(df.columns[k], '\n');
    }
    ReadLinesRoundTrip(cols);
    TruncatedIsClean(df);
  }
}
