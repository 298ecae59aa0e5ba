/**
 * The loader: writes one data frame to `schema.table`, creating the schema first,
 * and in "overwrite" mode replaces the table chunk by chunk.
 */
module Loading {
  import opened Wrappers
  import opened Frames
  import opened Paging
  import opened Database

  const DefaultChunksize: int := 1000

  /** The only load method that writes anything. */
  const OverwriteMethod: string := "overwrite"

  /** The `[lower_bound, upper_bound)` slices the chunk loop visits from row `i` of `n`
      onwards, in steps of `c`; the last slice is cut at `n`. */
  /** The `upper_bound` of the slice starting at `i`. */
  function ChunkEnd(i: nat, n: nat, c: nat): nat {
    if i + c >= n then n else i + c
  }

  function ChunksFrom(i: nat, n: nat, c: nat): seq<(nat, nat)>
    requires c > 0
    decreases if i < n then n - i else 0
  {
    if i >= n then []
    else [(i, ChunkEnd(i, n, c))] + ChunksFrom(i + c, n, c)
  }

  /** The slices of a frame of `n` rows in chunks of `c`. */
  function Chunks(n: nat, c: nat): seq<(nat, nat)>
    requires c > 0
  {
    ChunksFrom(0, n, c)
  }

  /** The slices start at `i` and end at `n`, and there are none exactly when `i` is
      already past the last row. */
  lemma {:induction false} ChunksFromEnds(i: nat, n: nat, c: nat)
    requires c > 0
    ensures var ch := ChunksFrom(i, n, c);
      && (ch == [] <==> i >= n)
      && (ch != [] ==> ch[0].0 == i && ch[|ch| - 1].1 == n)
    decreases if i < n then n - i else 0
  {
    if i < n && i + c < n {
      ChunksFromEnds(i + c, n, c);
    }
  }

  /** Slice `k` lies within the rows, ends where slice `k + 1` begins and holds exactly `c` rows; the last
      slice holds at most `c`. */
  lemma {:induction false} ChunkSize(i: nat, n: nat, c: nat, k: nat)
    requires c > 0 && k < |ChunksFrom(i, n, c)|
    ensures var ch := ChunksFrom(i, n, c);
      && i <= ch[k].0 < ch[k].1 <= n
      && ch[k].1 - ch[k].0 <= c
      && (k + 1 < |ch| ==> ch[k].1 == ch[k + 1].0 && ch[k].1 - ch[k].0 == c)
    decreases k
  {
    var ch := ChunksFrom(i, n, c);
    var rest := ChunksFrom(i + c, n, c);
    assert ch == [ch[0]] + rest;
    if k > 0 {
      ChunkSize(i + c, n, c, k - 1);
      assert ch[k] == rest[k - 1];
      if k + 1 < |ch| {
        assert ch[k + 1] == rest[k];
      }
    } else if k + 1 < |ch| {
      ChunksFromEnds(i + c, n, c);
      assert ch[1] == rest[0];
    }
  }

  lemma ChunksFromSizes(i: nat, n: nat, c: nat)
    requires c > 0
    ensures var ch := ChunksFrom(i, n, c);
      && (forall k :: 0 <= k < |ch| ==> i <= ch[k].0 < ch[k].1 <= n && ch[k].1 - ch[k].0 <= c)
      && (forall k :: 0 <= k && k + 1 < |ch| ==> ch[k].1 == ch[k + 1].0 && ch[k].1 - ch[k].0 == c)
  {
    var ch := ChunksFrom(i, n, c);
    forall k | 0 <= k < |ch| ensures i <= ch[k].0 < ch[k].1 <= n && ch[k].1 - ch[k].0 <= c {
      ChunkSize(i, n, c, k);
    }
    forall k | 0 <= k && k + 1 < |ch| ensures ch[k].1 == ch[k + 1].0 && ch[k].1 - ch[k].0 == c {
      ChunkSize(i, n, c, k);
    }
  }

  /** There are ceil((n - i) / c) slices. */
  lemma {:induction false} ChunksFromCount(i: nat, n: nat, c: nat)
    requires c > 0
    ensures |ChunksFrom(i, n, c)| == if i >= n then 0 else CeilDiv(n - i, c)
    decreases if i < n then n - i else 0
  {
    if i < n {
      ChunksFromCount(i + c, n, c);
      if i + c < n {
        CeilDivStep(n - i, c);
      } else {
        CeilDivSmall(n - i, c);
      }
    }
  }

  /** The chunk slices of a frame, from its first row to its last. */
  lemma ChunksShape(n: nat, c: nat)
    requires c > 0
    ensures var ch := Chunks(n, c);
      && (ch == [] <==> n == 0)
      && (ch != [] ==> ch[0].0 == 0 && ch[|ch| - 1].1 == n)
      && (forall k :: 0 <= k < |ch| ==> ch[k].1 <= n && 1 <= ch[k].1 - ch[k].0 <= c)
      && (forall k :: 0 <= k && k + 1 < |ch| ==> ch[k].1 == ch[k + 1].0 && ch[k].1 - ch[k].0 == c)
      && |ch| == CeilDiv(n, c)
  {
    ChunksFromEnds(0, n, c);
    ChunksFromSizes(0, n, c);
    ChunksFromCount(0, n, c);
    CeilDivIsLeastCover(n, c);
  }

  /** Taking the slice at `i` moves it from the slices still to come to those written. */
  lemma ChunkTaken(written: seq<(nat, nat)>, i: nat, n: nat, c: nat)
    requires c > 0 && i < n && written + ChunksFrom(i, n, c) == Chunks(n, c)
    ensures written + [(i, ChunkEnd(i, n, c))] + ChunksFrom(i + c, n, c) == Chunks(n, c)
  {
    var head := [(i, ChunkEnd(i, n, c))];
    var rest := ChunksFrom(i + c, n, c);
    assert ChunksFrom(i, n, c) == head + rest;
    assert written + head + rest == written + (head + rest);
  }

  /** `rows.iloc[lo:hi]`: Python slicing, which clamps both bounds to the rows. */
  function ILoc(rows: seq<Row>, lo: nat, hi: nat): (r: seq<Row>)
    ensures lo <= hi <= |rows| ==> r == rows[lo..hi]
  {
    var a := if lo <= |rows| then lo else |rows|;
    var b := if hi <= |rows| then hi else |rows|;
    if a <= b then rows[a..b] else []
  }

  /** The rows of the given slices, one slice after the other. */
  function Gather(rows: seq<Row>, ch: seq<(nat, nat)>): seq<Row>
  {
    if ch == [] then [] else ILoc(rows, ch[0].0, ch[0].1) + Gather(rows, ch[1..])
  }

  lemma {:induction false} GatherChunksFrom(rows: seq<Row>, i: nat, c: nat)
    requires c > 0 && i <= |rows|
    ensures Gather(rows, ChunksFrom(i, |rows|, c)) == rows[i..]
    decreases |rows| - i
  {
    var n := |rows|;
    if i < n {
      var hi := ChunkEnd(i, n, c);
      var rest := ChunksFrom(i + c, n, c);
      assert ChunksFrom(i, n, c)[1..] == rest;
      if i + c >= n {
        assert rest == [];
      } else {
        GatherChunksFrom(rows, i + c, c);
      }
      assert rows[i..hi] + rows[hi..] == rows[i..];
    }
  }

  /** The chunks partition the rows: their slices, in order, are exactly the frame's rows. */
  lemma GatherChunks(rows: seq<Row>, c: nat)
    requires c > 0
    ensures Gather(rows, Chunks(|rows|, c)) == rows
  {
    GatherChunksFrom(rows, 0, c);
  }

  /** The data tables after a load: an overwrite of a non-empty frame, or of any frame
      when chunking is off, leaves the table equal to the frame; anything else writes
      nothing. */
  function AfterLoad(tables: map<TableId, Frame>, id: TableId, df: Frame, loadMethod: string, chunksize: int): (r: map<TableId, Frame>)
    ensures r.Keys <= tables.Keys + {id}
    ensures forall other :: other in tables && other != id ==> other in r && r[other] == tables[other]
  {
    if loadMethod != OverwriteMethod || (chunksize > 0 && |df.rows| == 0) then tables
    else tables[id := df]
  }

  /** Writing the slice `[lo, hi)` onto a table that holds the rows before `lo` (or
      replacing the table by the first slice) leaves the rows before `hi`. */
  lemma ChunkExtends(tables: map<TableId, Frame>, id: TableId, df: Frame, lo: nat, hi: nat, mode: IfExists)
    requires lo <= hi <= |df.rows|
    requires mode == Replace ==> lo == 0
    requires mode == Append ==> id in tables && tables[id] == Frame(df.columns, df.rows[..lo])
    ensures Written(tables, id, Frame(df.columns, df.rows[lo..hi]), mode) == Frame(df.columns, df.rows[..hi])
  {
    if mode == Append {
      assert df.rows[..lo] + df.rows[lo..hi] == df.rows[..hi];
    } else {
      assert df.rows[lo..hi] == df.rows[..hi];
    }
  }

  /** `_overwrite_to_database` as written: with chunking off it passes `to_sql` a `df`
      keyword that `to_sql` does not accept, so the call raises (None) before anything is
      written; with chunking on it writes the frame as `AfterLoad` says. */
  function OverwriteAsWritten(tables: map<TableId, Frame>, id: TableId, df: Frame, chunksize: int)
    : (r: Option<map<TableId, Frame>>)
    ensures r.None? <==> chunksize <= 0
    ensures r.Some? ==> r.value == AfterLoad(tables, id, df, OverwriteMethod, chunksize)
  {
    if chunksize <= 0 then None else Some(AfterLoad(tables, id, df, OverwriteMethod, chunksize))
  }

  /** With a chunk size of 0 the code as written raises, where the evident intent, which
      `Load.OverwriteToDatabase` follows, replaces the table by the whole frame. */
  lemma UnchunkedOverwriteRaises(tables: map<TableId, Frame>, id: TableId, df: Frame)
    ensures OverwriteAsWritten(tables, id, df, 0).None?
    ensures var after := AfterLoad(tables, id, df, OverwriteMethod, 0);
      id in after && after[id] == df
  {
  }

  class Load {
    const df: Frame
    const db: Db
    const schemaName: string
    const tableName: string
    const loadMethod: string
    const chunksize: int

    constructor(df: Frame, db: Db, schemaName: string, tableName: string, loadMethod: string,
                chunksize: int := DefaultChunksize)
      ensures this.df == df && this.db == db && this.schemaName == schemaName
      ensures this.tableName == tableName && this.loadMethod == loadMethod && this.chunksize == chunksize
    {
      this.df := df;
      this.db := db;
      this.schemaName := schemaName;
      this.tableName := tableName;
      this.loadMethod := loadMethod;
      this.chunksize := chunksize;
    }

    /** Creates the schema only when it is missing; otherwise nothing changes. */
    method CreateSchema(db: Db, schemaName: string)
      modifies db
      ensures db.schemas == old(db.schemas) + {schemaName}
      ensures db.tables == old(db.tables) && db.logs == old(db.logs)
    {
      if !db.HasSchema(schemaName) {
        db.CreateSchema(schemaName);
      }
    }

    /** Writes the frame slice by slice: the first slice replaces the table, every later
        one appends to it. Returns the bounds of the slices written, in order. */
    method InsertInChunks(df: Frame, db: Db, schemaName: string, tableName: string, chunksize: int)
      returns (written: seq<(nat, nat)>)
      requires chunksize > 0
      modifies db
      ensures written == Chunks(|df.rows|, chunksize)
      ensures |df.rows| > 0 ==> db.tables == old(db.tables)[TableId(schemaName, tableName) := df]
      ensures |df.rows| == 0 ==> db.tables == old(db.tables)
      ensures db.schemas == old(db.schemas) && db.logs == old(db.logs)
    {
      var id := TableId(schemaName, tableName);
      var maxLength := |df.rows|;
      written := [];
      var i: nat := 0;
      ghost var done: nat := 0;
      while i < maxLength
        invariant done <= maxLength && (i < maxLength ==> done == i) && (i >= maxLength ==> done == maxLength)
        invariant written + ChunksFrom(i, maxLength, chunksize) == Chunks(maxLength, chunksize)
        invariant i == 0 ==> db.tables == old(db.tables)
        invariant i > 0 ==> done > 0 && db.tables == old(db.tables)[id := Frame(df.columns, df.rows[..done])]
        invariant db.schemas == old(db.schemas) && db.logs == old(db.logs)
        decreases maxLength - i
      {
        var lowerBound: nat, upperBound: nat;
        if i + chunksize >= maxLength {
          lowerBound, upperBound := i, maxLength;
        } else {
          lowerBound, upperBound := i, i + chunksize;
        }
        var chunk := Frame(df.columns, df.rows[lowerBound..upperBound]);
        var mode := if i == 0 then Replace else Append;
        ChunkExtends(db.tables, id, df, lowerBound, upperBound, mode);
        db.ToSql(chunk, id, mode);
        ChunkTaken(written, i, maxLength, chunksize);
        written := written + [(lowerBound, upperBound)];
        i := i + chunksize;
        done := upperBound;
      }
      assert df.rows[..maxLength] == df.rows;
    }

    /** With a positive chunk size the frame goes in chunks; otherwise in one replace. */
    method OverwriteToDatabase(df: Frame, db: Db, schemaName: string, tableName: string, chunksize: int)
      modifies db
      ensures db.tables == AfterLoad(old(db.tables), TableId(schemaName, tableName), df, OverwriteMethod, chunksize)
      ensures db.schemas == old(db.schemas) && db.logs == old(db.logs)
    {
      if chunksize > 0 {
        var _ := InsertInChunks(df, db, schemaName, tableName, chunksize);
      } else {
        db.ToSql(df, TableId(schemaName, tableName), Replace);
      }
    }

    /** Ensures the schema, then writes the frame only for the "overwrite" method. */
    method Run()
      modifies db
      ensures db.schemas == old(db.schemas) + {schemaName}
      ensures db.tables == AfterLoad(old(db.tables), TableId(schemaName, tableName), df, loadMethod, chunksize)
      ensures db.logs == old(db.logs)
    {
      CreateSchema(db, schemaName);
      if loadMethod == OverwriteMethod {
        OverwriteToDatabase(df, db, schemaName, tableName, chunksize);
      }
    }
  }
}
