/**
 * The target PostgreSQL database, reduced to what the loader and the run-metadata
 * logger observe: a set of schemas, the data tables written by `DataFrame.to_sql`,
 * and the run-log tables with their (run_timestamp, run_id, run_status) key.
 * Connections, engines, DDL text and column types are not modelled.
 */
module Database {
  import opened Frames

  datatype TableId = TableId(schema: string, table: string)

  /** The `if_exists` argument of `to_sql`. */
  datatype IfExists = Replace | Append

  /** The parsed `config.yaml`, stored as the JSON `run_config` of every log row. */
  datatype Config = Config(logTable: string, categoryUrl: string, productUrl: string,
                           schemaName: string, loadMethod: string)

  /** One row of a run-log table. */
  datatype RunRecord = RunRecord(timestamp: string, runId: int, status: string, config: Config, log: string)

  /** The primary key of a run-log row. */
  function Key(r: RunRecord): (string, int, string) {
    (r.timestamp, r.runId, r.status)
  }

  /** Whether some row of `rows` already has the key of `r`. */
  predicate KeyTaken(rows: seq<RunRecord>, r: RunRecord) {
    exists k :: 0 <= k < |rows| && Key(rows[k]) == Key(r)
  }

  /** What a data table holds after one `to_sql` call: "replace" drops the old table,
      "append" adds the rows after the existing ones, or creates the table. */
  function Written(tables: map<TableId, Frame>, id: TableId, f: Frame, mode: IfExists): (r: Frame)
    ensures mode == Replace ==> r == f
    ensures mode == Append && id in tables ==> r.columns == tables[id].columns && r.rows == tables[id].rows + f.rows
    ensures mode == Append && id !in tables ==> r == f
  {
    match mode
    case Replace => f
    case Append => if id in tables then Frame(tables[id].columns, tables[id].rows + f.rows) else f
  }

  class Db {
    var schemas: set<string>
    var tables: map<TableId, Frame>
    var logs: map<TableId, seq<RunRecord>>

    /** A database with the given schemas and tables and no run-log table. */
    constructor(schemas: set<string>, tables: map<TableId, Frame>)
      ensures this.schemas == schemas && this.tables == tables && this.logs == map[]
    {
      this.schemas := schemas;
      this.tables := tables;
      this.logs := map[];
    }

    /** `conn.dialect.has_schema(conn, name)` */
    predicate HasSchema(name: string)
      reads this
    {
      name in schemas
    }

    /** `CREATE SCHEMA name`, which the database rejects for an existing schema. */
    method CreateSchema(name: string)
      requires name !in schemas
      modifies this
      ensures schemas == old(schemas) + {name}
      ensures tables == old(tables) && logs == old(logs)
    {
      schemas := schemas + {name};
    }

    /** `DataFrame.to_sql(name, schema, if_exists=mode)` */
    method ToSql(f: Frame, id: TableId, mode: IfExists)
      modifies this
      ensures tables == old(tables)[id := Written(old(tables), id, f, mode)]
      ensures schemas == old(schemas) && logs == old(logs)
    {
      tables := tables[id := Written(tables, id, f, mode)];
    }

    /** `MetaData.create_all`: creates the run-log table when it is missing. */
    method CreateLogTable(id: TableId)
      modifies this
      ensures logs == if id in old(logs) then old(logs) else old(logs)[id := []]
      ensures schemas == old(schemas) && tables == old(tables)
    {
      if id !in logs {
        logs := logs[id := []];
      }
    }

    /** `INSERT` into a run-log table; a row whose key is already present violates
        the primary key, and then nothing is inserted. */
    method InsertRecord(id: TableId, r: RunRecord) returns (ok: bool)
      requires id in logs
      modifies this
      ensures ok <==> !KeyTaken(old(logs)[id], r)
      ensures logs == if ok then old(logs)[id := old(logs)[id] + [r]] else old(logs)
      ensures schemas == old(schemas) && tables == old(tables)
    {
      ok := !KeyTaken(logs[id], r);
      if ok {
        logs := logs[id := logs[id] + [r]];
      }
    }
  }
}
