/** run.py: the importer that sends all its rows in one INSERT.

    It differs from DataBasesParser/Connector.py in three ways: its table makes `time_taken` an
    Integer column, its pattern and table call the referer group `avb`, and its SQL branch
    collects every converted row in `values_list` and sends one INSERT after the loop, even when
    no line matched. A line whose conversion raises is reported and skipped. Connecting and
    (re)creating the table are as in Connector.py. */
module RunScript {
  import opened Wrappers
  import LogLine
  import Columns
  import Matching
  import Connection
  import Storage
  import Ingest

  /** The group names of a match in this file's pattern. */
  const GroupOrder := Columns.GroupOrder("avb")

  class DatabaseConnection {
    const dbType: string
    const dbName: string
    const server: Storage.Server
    var engine: Option<string>
    var tableDefined: bool
    var mongoDb: Option<string>
    var collectionSet: bool

    constructor (dbType: string, dbName: string, server: Storage.Server)
      ensures this.dbType == dbType && this.dbName == dbName && this.server == server
      ensures engine == None && !tableDefined && mongoDb == None && !collectionSet
    {
      this.dbType, this.dbName, this.server := dbType, dbName, server;
      engine, tableDefined, mongoDb, collectionSet := None, false, None, false;
    }

    /** `connect`, with Redis connecting without an engine (see ConnectTargetFixed).
        `create_engine` raises ArgumentError on a URL with no dialect name, before `self.engine`
        is set (see EnginesOpen: H2's URL is one); a new engine comes with new, empty metadata. */
    method Connect() returns (outcome: Storage.Outcome)
      modifies this
      ensures var t := Connection.ConnectTargetFixed(dbType, dbName);
        var opens := t.Engine? && Connection.DialectName(t.url).Some?;
        && outcome == (if t.KeyError? then Storage.Raised(Storage.KeyError(t.key))
                       else if t.Engine? && !opens then Storage.Raised(Storage.ArgumentError)
                       else Storage.Done)
        && engine == (if opens then Some(t.url) else old(engine))
        && tableDefined == (if opens then false else old(tableDefined))
        && mongoDb == (if t.Mongo? then Some(t.database) else old(mongoDb))
        && collectionSet == old(collectionSet)
    {
      match Connection.ConnectTargetFixed(dbType, dbName)
      case KeyError(key) =>
        outcome := Storage.Raised(Storage.KeyError(key));
      case Mongo(_, _, database) =>
        mongoDb := Some(database);
        outcome := Storage.Done;
      case NoEngine =>
        outcome := Storage.Done;
      case Engine(url) =>
        if Connection.DialectName(url).None? {
          return Storage.Raised(Storage.ArgumentError);
        }
        engine, tableDefined := Some(url), false;
        outcome := Storage.Done;
    }

    /** `create_import_table`: declare the table on the metadata, then create it if the server
        lacks it and delete its rows otherwise. Without an engine there is no metadata; a second
        declaration on the same metadata raises. */
    method CreateImportTable() returns (outcome: Storage.Outcome)
      modifies this, server
      ensures outcome == Connection.TableOutcome(old(engine), old(tableDefined))
      ensures outcome.Done? ==> tableDefined && server.tableExists && server.table == []
      ensures outcome.Raised? ==>
        tableDefined == old(tableDefined) && server.tableExists == old(server.tableExists)
        && server.table == old(server.table)
      ensures engine == old(engine) && mongoDb == old(mongoDb) && collectionSet == old(collectionSet)
      ensures server.inserts == old(server.inserts) && server.collection == old(server.collection)
      ensures server.hashes == old(server.hashes)
    {
      if engine.None? {
        return Storage.Raised(Storage.AttributeError("metadata"));
      }
      if tableDefined {
        return Storage.Raised(Storage.TableDefinedTwice);
      }
      tableDefined := true;
      if !server.tableExists {
        server.CreateTable();
      } else {
        server.DeleteRows();
      }
      return Storage.Done;
    }

    /** `import_log_data` on the lines of the file: the branch for the database type. */
    method ImportLogData(lines: seq<string>) returns (outcome: Storage.Outcome)
      modifies this, server
      ensures dbType == "mongodb" ==>
        && outcome == (if old(mongoDb).None? then Storage.Raised(Storage.AttributeError("db")) else Storage.Done)
        && server.collection == old(server.collection) + (if outcome.Done? then Matching.Dicts(Matching.Matched(lines), "avb") else [])
        && collectionSet == (old(collectionSet) || outcome.Done?)
        && server.tableExists == old(server.tableExists) && server.table == old(server.table)
        && server.inserts == old(server.inserts) && server.hashes == old(server.hashes)
      ensures dbType == "redis" ==>
        && outcome.Done?
        && server.hashes == Matching.HashAll(old(server.hashes), "import", Matching.Dicts(Matching.Matched(lines), "avb"))
        && server.collection == old(server.collection) && server.inserts == old(server.inserts)
        && server.table == old(server.table) && server.tableExists == old(server.tableExists)
      ensures dbType !in {"mongodb", "redis"} ==>
        var rows := Matching.Rows(lines, "avb", Columns.RunSchema);
        var table := Connection.TableOutcome(old(engine), old(tableDefined));
        && outcome == (if table.Raised? then table
                       else if server.accepts(rows) then Storage.Done
                       else Storage.Raised(Storage.InsertRefused))
        && (table.Done? ==>
              server.tableExists && server.table == (if server.accepts(rows) then rows else [])
              && server.inserts == old(server.inserts) + [Storage.Insert(rows, server.accepts(rows))])
        && (table.Raised? ==>
              server.tableExists == old(server.tableExists) && server.table == old(server.table)
              && server.inserts == old(server.inserts))
        && server.collection == old(server.collection) && server.hashes == old(server.hashes)
      ensures dbType !in {"mongodb", "redis"} ==> tableDefined == (old(tableDefined) || old(engine).Some?)
      ensures dbType in {"mongodb", "redis"} ==> tableDefined == old(tableDefined)
      ensures dbType != "mongodb" ==> collectionSet == old(collectionSet)
      ensures engine == old(engine) && mongoDb == old(mongoDb)
    {
      if dbType == "mongodb" {
        if mongoDb.None? {
          return Storage.Raised(Storage.AttributeError("db"));
        }
        collectionSet := true;
        Ingest.InsertMatched(server, lines, "avb");
        return Storage.Done;
      } else if dbType == "redis" {
        Ingest.HashMatched(server, lines, "avb");
        return Storage.Done;
      }
      outcome := CreateImportTable();
      if outcome.Raised? {
        return;
      }
      var valuesList := CollectValues(lines);
      var ok := server.InsertRows(valuesList);
      if !ok {
        return Storage.Raised(Storage.InsertRefused);
      }
    }

    /** The loop that fills `values_list`: the converted row of every matched line, in file
        order; a line whose conversion raises leaves the list as it was. */
    method CollectValues(lines: seq<string>) returns (valuesList: seq<Columns.Row>)
      ensures valuesList == Matching.Rows(lines, "avb", Columns.RunSchema)
    {
      valuesList := [];
      for i := 0 to |lines|
        invariant valuesList == Matching.Rows(lines[..i], "avb", Columns.RunSchema)
      {
        Matching.RowsNext(lines, i, "avb", Columns.RunSchema);
        match LogLine.Parse(lines[i])
        case None =>
        case Some(g) =>
          var values := Columns.Values(Columns.GroupDictOf(g, "avb"), GroupOrder, Columns.RunSchema);
          if values.Some? {
            valuesList := valuesList + [values.value];
          }
      }
      assert lines[..|lines|] == lines;
    }
  }

  /** After run.py's import the table holds the RunRows of the matched lines, in file order, when
      the server applies the single INSERT: one per matched line whose integer groups `int()`
      reads, so one per matched line when all of them do. */
  lemma TableAfterImport(lines: seq<string>)
    ensures Matching.Rows(lines, "avb", Columns.RunSchema) == Matching.RunRows(Matching.Matched(lines))
    ensures var gs := Matching.Matched(lines);
      (forall i :: 0 <= i < |gs| ==> Columns.RunFits(gs[i]))
        ==> |Matching.Rows(lines, "avb", Columns.RunSchema)| == |gs|
  {
    Matching.RunRowsOfLines(lines);
  }
}
