/**
 * One run of the Woolworths ingestion pipeline: number the run, log "Started", extract
 * the category frames, build one load node per frame, run the nodes one after the
 * other, and log "Completed"; any failure on the way is caught and logged as "Error"
 * under the same run id.
 *
 * Extraction and the graph library's ordering are inputs: `extracted` is None when the
 * extractor raises, `order` is the node order the sorter produced, and `failAt` is the
 * position in that order of a node whose run raises, if any.
 */
module Pipeline {
  import opened Wrappers
  import opened Frames
  import opened Database
  import opened Loading
  import opened MetadataLog

  /** The chunk size every load node is built with. */
  const LoadChunksize: int := 2500

  /** The table a category frame is loaded into. */
  function LoadTableName(name: string): string {
    "raw_" + name + "Products"
  }

  /** Different category names never share a table. */
  lemma LoadTableNameDistinct(a: string, b: string)
    requires a != b
    ensures LoadTableName(a) != LoadTableName(b)
  {
    if |a| == |b| {
      var t :| 0 <= t < |a| && a[t] != b[t];
      assert LoadTableName(a)[4 + t] == a[t];
      assert LoadTableName(b)[4 + t] == b[t];
    } else {
      assert |LoadTableName(a)| != |LoadTableName(b)|;
    }
  }

  function NodeTable(schema: string, f: NamedFrame): TableId {
    TableId(schema, LoadTableName(f.name))
  }

  /** `order` lists each of the `n` nodes exactly once. */
  predicate IsPermutation(order: seq<nat>, n: nat) {
    && |order| == n
    && (forall k :: 0 <= k < |order| ==> order[k] < n)
    && (forall j :: 0 <= j < n ==> j in order)
    && (forall j, k :: 0 <= j < k < |order| ==> order[j] != order[k])
  }

  predicate DistinctNames(frames: seq<NamedFrame>) {
    forall i, j :: 0 <= i < j < |frames| ==> frames[i].name != frames[j].name
  }

  /** The data tables once the nodes at positions `order[..k]` have run. */
  function LoadedUpTo(tables: map<TableId, Frame>, frames: seq<NamedFrame>, order: seq<nat>,
                      schema: string, loadMethod: string, k: nat): map<TableId, Frame>
    requires k <= |order| && forall m :: 0 <= m < |order| ==> order[m] < |frames|
  {
    if k == 0 then tables
    else
      var f := frames[order[k - 1]];
      AfterLoad(LoadedUpTo(tables, frames, order, schema, loadMethod, k - 1),
                NodeTable(schema, f), f.frame, loadMethod, LoadChunksize)
  }

  lemma {:induction false} LoadedUpToHolds(tables: map<TableId, Frame>, frames: seq<NamedFrame>, order: seq<nat>,
                                           schema: string, k: nat)
    requires IsPermutation(order, |frames|) && DistinctNames(frames) && k <= |order|
    ensures var loaded := LoadedUpTo(tables, frames, order, schema, OverwriteMethod, k);
      forall m :: 0 <= m < k && |frames[order[m]].frame.rows| > 0 ==>
        NodeTable(schema, frames[order[m]]) in loaded && loaded[NodeTable(schema, frames[order[m]])] == frames[order[m]].frame
    ensures var loaded := LoadedUpTo(tables, frames, order, schema, OverwriteMethod, k);
      forall id :: id in tables && (forall m :: 0 <= m < k ==> id != NodeTable(schema, frames[order[m]])) ==>
        id in loaded && loaded[id] == tables[id]
    decreases k
  {
    if k > 0 {
      LoadedUpToHolds(tables, frames, order, schema, k - 1);
      var f := frames[order[k - 1]];
      forall m | 0 <= m < k - 1 ensures NodeTable(schema, frames[order[m]]) != NodeTable(schema, f) {
        var i, j := order[m], order[k - 1];
        assert i != j;
        if i < j {
          assert frames[i].name != frames[j].name;
        } else {
          assert frames[j].name != frames[i].name;
        }
        LoadTableNameDistinct(frames[i].name, frames[j].name);
      }
    }
  }

  /** After every node has run with the "overwrite" method, each category's table holds
      that category's frame (when it has rows), and every table no node writes is as before. */
  lemma LoadedTablesHoldFrames(tables: map<TableId, Frame>, frames: seq<NamedFrame>, order: seq<nat>, schema: string)
    requires IsPermutation(order, |frames|) && DistinctNames(frames)
    ensures var loaded := LoadedUpTo(tables, frames, order, schema, OverwriteMethod, |order|);
      forall j :: 0 <= j < |frames| && |frames[j].frame.rows| > 0 ==>
        NodeTable(schema, frames[j]) in loaded && loaded[NodeTable(schema, frames[j])] == frames[j].frame
    ensures var loaded := LoadedUpTo(tables, frames, order, schema, OverwriteMethod, |order|);
      forall id :: id in tables && (forall j :: 0 <= j < |frames| ==> id != NodeTable(schema, frames[j])) ==>
        id in loaded && loaded[id] == tables[id]
  {
    LoadedUpToHolds(tables, frames, order, schema, |order|);
    var loaded := LoadedUpTo(tables, frames, order, schema, OverwriteMethod, |order|);
    forall j | 0 <= j < |frames| && |frames[j].frame.rows| > 0
      ensures NodeTable(schema, frames[j]) in loaded && loaded[NodeTable(schema, frames[j])] == frames[j].frame
    {
      assert j in order;
      var m :| 0 <= m < |order| && order[m] == j;
    }
    forall id | id in tables && (forall j :: 0 <= j < |frames| ==> id != NodeTable(schema, frames[j]))
      ensures id in loaded && loaded[id] == tables[id]
    {
      assert forall m :: 0 <= m < |order| ==> id != NodeTable(schema, frames[order[m]]);
    }
  }

  /** Any load method other than "overwrite" leaves every data table as it was. */
  lemma {:induction false} LoadedWithoutOverwrite(tables: map<TableId, Frame>, frames: seq<NamedFrame>, order: seq<nat>,
                                                  schema: string, loadMethod: string, k: nat)
    requires k <= |order| && (forall m :: 0 <= m < |order| ==> order[m] < |frames|) && loadMethod != OverwriteMethod
    ensures LoadedUpTo(tables, frames, order, schema, loadMethod, k) == tables
    decreases k
  {
    if k > 0 {
      LoadedWithoutOverwrite(tables, frames, order, schema, loadMethod, k - 1);
    }
  }

  /** How many nodes run: all of them unless one raises. */
  function Ran(order: seq<nat>, failAt: Option<nat>): (r: nat)
    ensures r <= |order|
  {
    if failAt.Some? && failAt.value < |order| then failAt.value else |order|
  }

  /** The status a run ends with. */
  function FinalStatus(extracted: Option<seq<NamedFrame>>, order: seq<nat>, failAt: Option<nat>): string {
    if extracted.Some? && Ran(order, failAt) == |order| then "Completed" else "Error"
  }

  /** A record logged after "Started" under the same run id, with another status, never
      clashes with a row of the log. */
  lemma FinishKeyFree(before: seq<RunRecord>, started: RunRecord, finish: RunRecord)
    requires started.runId == NextRunId(before) && finish.runId == started.runId
    requires finish.status != started.status
    ensures !KeyTaken(before + [started], finish)
  {
    NextRunIdIsFresh(before, finish);
    KeyTakenAfterAppend(before, started, finish);
  }

  /** Builds one load node per extracted frame, in the order of the frames. */
  method BuildLoadNodes(db: Db, frames: seq<NamedFrame>, schemaName: string, loadMethod: string)
    returns (nodes: seq<Load>)
    ensures |nodes| == |frames|
    ensures forall j :: 0 <= j < |frames| ==>
      && nodes[j].db == db && nodes[j].df == frames[j].frame
      && nodes[j].schemaName == schemaName && nodes[j].tableName == LoadTableName(frames[j].name)
      && nodes[j].loadMethod == loadMethod && nodes[j].chunksize == LoadChunksize
  {
    nodes := [];
    var i := 0;
    while i < |frames|
      invariant 0 <= i <= |frames| && |nodes| == i
      invariant forall j :: 0 <= j < i ==>
        && nodes[j].db == db && nodes[j].df == frames[j].frame
        && nodes[j].schemaName == schemaName && nodes[j].tableName == LoadTableName(frames[j].name)
        && nodes[j].loadMethod == loadMethod && nodes[j].chunksize == LoadChunksize
    {
      var node := new Load(frames[i].frame, db, schemaName, LoadTableName(frames[i].name), loadMethod, LoadChunksize);
      nodes := nodes + [node];
      i := i + 1;
    }
  }

  /** Runs the nodes in the sorted order until one raises; `ran` counts the nodes that
      finished, and the data tables are those of `LoadedUpTo` for that many. */
  method RunLoadNodes(db: Db, frames: seq<NamedFrame>, order: seq<nat>, failAt: Option<nat>,
                      schemaName: string, loadMethod: string)
    returns (ran: nat)
    requires IsPermutation(order, |frames|) && schemaName in db.schemas
    modifies db
    ensures ran == Ran(order, failAt)
    ensures db.tables == LoadedUpTo(old(db.tables), frames, order, schemaName, loadMethod, ran)
    ensures db.logs == old(db.logs) && db.schemas == old(db.schemas)
  {
    var nodes := BuildLoadNodes(db, frames, schemaName, loadMethod);
    ran := 0;
    while ran < |order|
      invariant 0 <= ran <= |order|
      invariant db.tables == LoadedUpTo(old(db.tables), frames, order, schemaName, loadMethod, ran)
      invariant db.logs == old(db.logs) && db.schemas == old(db.schemas)
      invariant failAt.None? || failAt.value >= ran
      decreases |order| - ran
    {
      if failAt == Some(ran) {
        return;
      }
      nodes[order[ran]].Run();
      ran := ran + 1;
    }
  }

  method RunPipeline(db: Db, config: Config, extracted: Option<seq<NamedFrame>>, order: seq<nat>,
                     failAt: Option<nat>, startedAt: string, finishedAt: string, runLog: string)
    returns (runId: int, status: string)
    requires extracted.Some? ==> IsPermutation(order, |extracted.value|)
    modifies db
    ensures var logId := TableId(config.schemaName, config.logTable);
      var before := RowsOf(old(db.logs), logId);
      && runId == NextRunId(before)
      && status == FinalStatus(extracted, order, failAt)
      && db.logs == WithTable(old(db.logs), logId)[logId := before + [
           RunRecord(startedAt, runId, "Started", config, ""),
           RunRecord(finishedAt, runId, status, config, runLog)]]
    ensures extracted.None? ==> db.tables == old(db.tables)
    ensures extracted.Some? ==> db.tables == LoadedUpTo(old(db.tables), extracted.value, order,
                                                        config.schemaName, config.loadMethod, Ran(order, failAt))
    ensures db.schemas == old(db.schemas) + {config.schemaName}
  {
    var metadataLogger := new MetadataLogging(db);
    var logId := TableId(config.schemaName, config.logTable);
    ghost var before := RowsOf(db.logs, logId);
    runId := metadataLogger.GetLatestRunId(config.schemaName, config.logTable);
    var started := RunRecord(startedAt, runId, "Started", config, "");
    NextRunIdIsFresh(before, started);

    var failed := false;
    var ok := metadataLogger.Log(startedAt, runId, config, config.schemaName, config.logTable, runStatus := "Started");
    ghost var logged := db.logs;
    assert logged == WithTable(old(db.logs), logId)[logId := before + [started]];
    if !ok || extracted.None? {
      failed := true;
    } else {
      var ran := RunLoadNodes(db, extracted.value, order, failAt, config.schemaName, config.loadMethod);
      failed := ran < |order|;
    }
    status := if failed then "Error" else "Completed";
    var finish := RunRecord(finishedAt, runId, status, config, runLog);
    FinishKeyFree(before, started, finish);
    ok := metadataLogger.Log(finishedAt, runId, config, config.schemaName, config.logTable,
                             runStatus := status, runLog := runLog);
    assert before + [started] + [finish] == before + [started, finish];
  }
}
