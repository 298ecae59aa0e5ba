/**
 * The run-metadata logger: an append-only table of (run_timestamp, run_id,
 * run_status, run_config, run_log) rows keyed by the first three columns, and the
 * rule that numbers the next run.
 */
module MetadataLog {
  import opened Database

  /** `max(run_id)` over a non-empty log. */
  function MaxRunId(rows: seq<RunRecord>): (m: int)
    requires rows != []
    ensures forall k :: 0 <= k < |rows| ==> rows[k].runId <= m
    ensures exists k :: 0 <= k < |rows| && rows[k].runId == m
    decreases |rows|
  {
    if |rows| == 1 then rows[0].runId
    else
      var rest := MaxRunId(rows[1..]);
      assert forall k :: 1 <= k < |rows| ==> rows[k] == rows[1..][k - 1];
      if rows[0].runId >= rest then rows[0].runId else rest
  }

  /** The id of the next run: 1 on an empty log, otherwise one more than the largest. */
  function NextRunId(rows: seq<RunRecord>): (r: int)
    ensures rows == [] ==> r == 1
    ensures forall k :: 0 <= k < |rows| ==> rows[k].runId < r
    ensures rows != [] ==> exists k :: 0 <= k < |rows| && rows[k].runId == r - 1
  {
    if rows == [] then 1 else MaxRunId(rows) + 1
  }

  /** No row of the log can clash with a record that carries the next run id. */
  lemma NextRunIdIsFresh(rows: seq<RunRecord>, r: RunRecord)
    requires r.runId == NextRunId(rows)
    ensures !KeyTaken(rows, r)
  {
    forall k | 0 <= k < |rows| ensures Key(rows[k]) != Key(r) {
      assert rows[k].runId < r.runId;
    }
  }

  /** After one row is appended, a key is taken exactly when it was taken before or
      is the key of the new row. */
  lemma KeyTakenAfterAppend(rows: seq<RunRecord>, s: RunRecord, r: RunRecord)
    ensures KeyTaken(rows + [s], r) <==> KeyTaken(rows, r) || Key(s) == Key(r)
  {
    var all := rows + [s];
    if KeyTaken(all, r) {
      var k :| 0 <= k < |all| && Key(all[k]) == Key(r);
      if k < |rows| {
        assert all[k] == rows[k];
      }
    }
    if KeyTaken(rows, r) {
      var k :| 0 <= k < |rows| && Key(rows[k]) == Key(r);
      assert all[k] == rows[k];
    }
    if Key(s) == Key(r) {
      assert all[|rows|] == s;
    }
  }

  /** The rows of a run-log table, or none when the table does not exist yet. */
  function RowsOf(logs: map<TableId, seq<RunRecord>>, id: TableId): seq<RunRecord> {
    if id in logs then logs[id] else []
  }

  /** The run-log tables once `id` has been created if it was missing. */
  function WithTable(logs: map<TableId, seq<RunRecord>>, id: TableId): (r: map<TableId, seq<RunRecord>>)
    ensures id in r && r[id] == RowsOf(logs, id)
    ensures forall other :: other != id ==> (other in r <==> other in logs)
    ensures forall other :: other != id && other in logs ==> r[other] == logs[other]
  {
    if id in logs then logs else logs[id := []]
  }

  class MetadataLogging {
    const db: Db

    constructor(db: Db)
      ensures this.db == db
    {
      this.db := db;
    }

    /** Creates the schema only when it is missing; otherwise nothing changes. */
    method CreateSchema(db: Db, schemaName: string)
      modifies db
      ensures db.schemas == old(db.schemas) + {schemaName}
      ensures db.tables == old(db.tables) && db.logs == old(db.logs)
    {
      if !db.HasSchema(schemaName) {
        db.CreateSchema(schemaName);
      }
    }

    /** Ensures the schema, then the run-log table; existing rows are left alone. */
    method CreateLoggingTable(schemaName: string, tableName: string) returns (id: TableId)
      modifies db
      ensures id == TableId(schemaName, tableName)
      ensures db.schemas == old(db.schemas) + {schemaName}
      ensures db.logs == WithTable(old(db.logs), id)
      ensures db.tables == old(db.tables)
    {
      CreateSchema(db, schemaName);
      id := TableId(schemaName, tableName);
      db.CreateLogTable(id);
    }

    /** The id for a new run. Only creates the schema and table when missing; it adds,
        changes and removes no row. */
    method GetLatestRunId(schemaName: string, tableName: string) returns (runId: int)
      modifies db
      ensures runId == NextRunId(RowsOf(old(db.logs), TableId(schemaName, tableName)))
      ensures db.schemas == old(db.schemas) + {schemaName}
      ensures db.logs == WithTable(old(db.logs), TableId(schemaName, tableName))
      ensures db.tables == old(db.tables)
    {
      var id := CreateLoggingTable(schemaName, tableName);
      var rows := db.logs[id];
      if rows == [] {
        runId := 1;
      } else {
        runId := MaxRunId(rows) + 1;
      }
    }

    /** Appends one row with the given fields. `ok` is false when the row's key is
        already present: the insert is then rejected and the table unchanged. */
    method Log(runTimestamp: string, runId: int, runConfig: Config, schemaName: string, tableName: string,
               runStatus: string := "started", runLog: string := "") returns (ok: bool)
      modifies db
      ensures var id := TableId(schemaName, tableName);
        var r := RunRecord(runTimestamp, runId, runStatus, runConfig, runLog);
        && (ok <==> !KeyTaken(RowsOf(old(db.logs), id), r))
        && db.logs == WithTable(old(db.logs), id)[id := RowsOf(old(db.logs), id) + (if ok then [r] else [])]
      ensures db.schemas == old(db.schemas) + {schemaName}
      ensures db.tables == old(db.tables)
    {
      var id := CreateLoggingTable(schemaName, tableName);
      var r := RunRecord(runTimestamp, runId, runStatus, runConfig, runLog);
      ghost var created := db.logs;
      ok := db.InsertRecord(id, r);
      if !ok {
        assert created[id] + [] == created[id];
        assert created[id := created[id]] == created;
      }
    }
  }
}
