/** DataBasesParser/Connector.py: the importer that sends its rows in batches.

    The SQL branch of `import_log_data` (re)creates the `import` table empty, then collects the
    rows of the matched lines in a buffer and sends the buffer as one INSERT whenever it holds
    `BatchSize` rows; whatever is left at the end goes in one last INSERT. The in-loop INSERT sits
    inside the `try` that guards the conversion, so a refused batch is reported, stays in the
    buffer and goes out again, larger, with the next row; the last INSERT is not guarded, and a
    refusal there escapes the call. `Feed` and `RunImport` state this on the rows; the lemmas
    after them give its consequences. */
module Connector {
  import opened Wrappers
  import LogLine
  import Columns
  import Matching
  import Connection
  import Storage
  import Ingest

  const BatchSize: nat := 1000

  /** The buffer and the INSERT statements sent so far. */
  datatype Batching = Batching(buffer: seq<Columns.Row>, inserts: seq<Storage.Insert>)

  /** One converted row: appended to the buffer, which is sent when it is full; it is emptied
      only when the server applies it. */
  function Add(b: Batching, row: Columns.Row, accepts: seq<Columns.Row> -> bool): (r: Batching)
    ensures b.inserts <= r.inserts && |r.inserts| <= |b.inserts| + 1
    ensures |r.inserts| > |b.inserts| <==> |b.buffer| + 1 >= BatchSize
    ensures |r.inserts| > |b.inserts| ==> r.inserts[|b.inserts|].rows == b.buffer + [row]
  {
    var buffer := b.buffer + [row];
    if |buffer| >= BatchSize then
      if accepts(buffer) then Batching([], b.inserts + [Storage.Insert(buffer, true)])
      else Batching(buffer, b.inserts + [Storage.Insert(buffer, false)])
    else Batching(buffer, b.inserts)
  }

  /** The state after the loop has seen `rows`: every INSERT it sent carries at least
      `BatchSize` rows. */
  function Feed(rows: seq<Columns.Row>, accepts: seq<Columns.Row> -> bool): (r: Batching)
    ensures forall i :: 0 <= i < |r.inserts| ==> |r.inserts[i].rows| >= BatchSize
  {
    if rows == [] then Batching([], [])
    else Add(Feed(rows[..|rows| - 1], accepts), rows[|rows| - 1], accepts)
  }

  /** A whole import: every INSERT sent, and whether the last one escaped as an exception. */
  datatype Run = Run(inserts: seq<Storage.Insert>, raised: bool)

  /** The loop over `rows`, then the last INSERT when the buffer is not empty. */
  function RunImport(rows: seq<Columns.Row>, accepts: seq<Columns.Row> -> bool): (r: Run)
    ensures Feed(rows, accepts).inserts <= r.inserts && |r.inserts| <= |Feed(rows, accepts).inserts| + 1
    ensures r.raised ==> |r.inserts| > 0 && !r.inserts[|r.inserts| - 1].accepted
  {
    var b := Feed(rows, accepts);
    if b.buffer == [] then Run(b.inserts, false)
    else Run(b.inserts + [Storage.Insert(b.buffer, accepts(b.buffer))], !accepts(b.buffer))
  }

  /** The loop's state after one more line: one more `Add` if the line matches and converts. */
  lemma FeedStep(lines: seq<string>, i: nat, accepts: seq<Columns.Row> -> bool)
    requires i < |lines|
    ensures var before := Feed(Matching.Rows(lines[..i], "referer", Columns.ConnectorSchema), accepts);
      Feed(Matching.Rows(lines[..i + 1], "referer", Columns.ConnectorSchema), accepts)
        == match LogLine.Parse(lines[i])
           case None => before
           case Some(g) =>
             match Columns.Coerce(Columns.GroupDictOf(g, "referer"), Columns.ConnectorSchema)
             case None => before
             case Some(row) => Add(before, row, accepts)
  {
    Matching.RowsNext(lines, i, "referer", Columns.ConnectorSchema);
    var rows := Matching.Rows(lines[..i], "referer", Columns.ConnectorSchema);
    match LogLine.Parse(lines[i])
    case None =>
    case Some(g) =>
      match Columns.Coerce(Columns.GroupDictOf(g, "referer"), Columns.ConnectorSchema)
      case None =>
      case Some(row) =>
        assert (rows + [row])[..|rows|] == rows;
  }

  /** The last statement leaves `Stored` as it was when refused and extends it when applied. */
  lemma StoredSnoc(inserts: seq<Storage.Insert>, i: Storage.Insert)
    ensures Storage.Stored(inserts + [i]) == Storage.Stored(inserts) + (if i.accepted then i.rows else [])
  {
    assert (inserts + [i])[..|inserts|] == inserts;
  }

  /** Adding a row moves rows between the buffer and the store, and adds only that row. */
  lemma AddKeepsRows(b: Batching, row: Columns.Row, accepts: seq<Columns.Row> -> bool)
    ensures Storage.Stored(Add(b, row, accepts).inserts) + Add(b, row, accepts).buffer
      == Storage.Stored(b.inserts) + b.buffer + [row]
  {
    var buffer := b.buffer + [row];
    if |buffer| >= BatchSize {
      StoredSnoc(b.inserts, Storage.Insert(buffer, accepts(buffer)));
    }
  }

  /** No row is lost or repeated by the loop: what the server stored, followed by the buffer, is
      every row seen, in order. */
  lemma {:induction false} FeedKeepsRows(rows: seq<Columns.Row>, accepts: seq<Columns.Row> -> bool)
    ensures Storage.Stored(Feed(rows, accepts).inserts) + Feed(rows, accepts).buffer == rows
  {
    if rows != [] {
      var init, last := rows[..|rows| - 1], rows[|rows| - 1];
      FeedKeepsRows(init, accepts);
      AddKeepsRows(Feed(init, accepts), last, accepts);
      assert rows == init + [last];
    }
  }

  /** `b` holds `rows` cut into consecutive batches of exactly `BatchSize` rows, all applied,
      and the rest, fewer than `BatchSize`, in the buffer. */
  predicate CutInBatches(rows: seq<Columns.Row>, b: Batching) {
    |b.inserts| == |rows| / BatchSize
    && (forall i :: 0 <= i < |b.inserts| ==>
          b.inserts[i] == Storage.Insert(rows[i * BatchSize..(i + 1) * BatchSize], true))
    && b.buffer == rows[|b.inserts| * BatchSize..]
  }

  lemma AddCutsBatches(rows: seq<Columns.Row>, b: Batching, row: Columns.Row, accepts: seq<Columns.Row> -> bool)
    requires forall rs :: accepts(rs)
    requires CutInBatches(rows, b)
    ensures CutInBatches(rows + [row], Add(b, row, accepts))
  {
    var k, rows' := |b.inserts|, rows + [row];
    assert |b.buffer| == |rows| - k * BatchSize;
    assert b.buffer + [row] == rows'[k * BatchSize..];
    assert forall i :: 0 <= i < k ==> rows'[i * BatchSize..(i + 1) * BatchSize] == rows[i * BatchSize..(i + 1) * BatchSize];
  }

  /** When the server applies everything, the loop cuts the rows into consecutive batches of
      exactly `BatchSize` rows, and the buffer holds the rest, fewer than `BatchSize`. */
  lemma {:induction false} FeedCutsBatches(rows: seq<Columns.Row>, accepts: seq<Columns.Row> -> bool)
    requires forall rs :: accepts(rs)
    ensures CutInBatches(rows, Feed(rows, accepts))
  {
    if rows != [] {
      var init := rows[..|rows| - 1];
      FeedCutsBatches(init, accepts);
      AddCutsBatches(init, Feed(init, accepts), rows[|rows| - 1], accepts);
      assert init + [rows[|rows| - 1]] == rows;
    }
  }

  /** An import that does not raise stores exactly the rows, in order; one that raises (its
      last INSERT refused) stores a proper prefix of them. */
  lemma ImportStoresRows(rows: seq<Columns.Row>, accepts: seq<Columns.Row> -> bool)
    ensures var run := RunImport(rows, accepts);
      (!run.raised ==> Storage.Stored(run.inserts) == rows)
      && (run.raised ==> Storage.Stored(run.inserts) < rows)
  {
    var b := Feed(rows, accepts);
    FeedKeepsRows(rows, accepts);
    if b.buffer != [] {
      StoredSnoc(b.inserts, Storage.Insert(b.buffer, accepts(b.buffer)));
    }
  }

  /** When the server applies everything: every INSERT but the last has exactly `BatchSize` rows,
      a last one of 1 to `BatchSize - 1` rows is sent exactly when the count is not a multiple of
      `BatchSize`, and nothing is raised. */
  lemma ImportBatchSizes(rows: seq<Columns.Row>, accepts: seq<Columns.Row> -> bool)
    requires forall rs :: accepts(rs)
    ensures var run := RunImport(rows, accepts); var full := |rows| / BatchSize;
      !run.raised
      && |run.inserts| == full + (if |rows| % BatchSize == 0 then 0 else 1)
      && (forall i :: 0 <= i < full ==> |run.inserts[i].rows| == BatchSize)
      && (|rows| % BatchSize != 0 ==> run.inserts[full].rows == rows[full * BatchSize..])
  {
    FeedCutsBatches(rows, accepts);
    var b, full := Feed(rows, accepts), |rows| / BatchSize;
    assert |rows| == full * BatchSize + |rows| % BatchSize;
    assert |b.buffer| == |rows| % BatchSize;
    var run := RunImport(rows, accepts);
    assert run.inserts[..full] == b.inserts;
    forall i | 0 <= i < full ensures |run.inserts[i].rows| == BatchSize {
      assert run.inserts[i] == b.inserts[i];
    }
  }

  /** With `BatchSize + 1` rows there are two INSERTs: the first `BatchSize` rows, then the last. */
  lemma OneMoreThanABatch(rows: seq<Columns.Row>, accepts: seq<Columns.Row> -> bool)
    requires |rows| == BatchSize + 1
    requires forall rs :: accepts(rs)
    ensures RunImport(rows, accepts).inserts
      == [Storage.Insert(rows[..BatchSize], true), Storage.Insert(rows[BatchSize..], true)]
  {
    FeedCutsBatches(rows, accepts);
    var b := Feed(rows, accepts);
    assert b.inserts[0] == Storage.Insert(rows[..BatchSize], true);
  }

  /** A file with no matching line sends no INSERT at all. */
  lemma NoRowsNoInsert(accepts: seq<Columns.Row> -> bool)
    ensures RunImport([], accepts) == Run([], false)
  {
  }

  /** After an import that does not raise, the table holds exactly one ConnectorRow per
      matched line, in file order, whatever lines did not match; it does not raise when the
      server applies everything. */
  lemma TableAfterImport(lines: seq<string>, accepts: seq<Columns.Row> -> bool)
    ensures var run := RunImport(Matching.Rows(lines, "referer", Columns.ConnectorSchema), accepts);
      (!run.raised ==> Storage.Stored(run.inserts) == Matching.ConnectorRows(Matching.Matched(lines)))
      && ((forall rs :: accepts(rs)) ==> !run.raised)
  {
    var rows := Matching.Rows(lines, "referer", Columns.ConnectorSchema);
    Matching.ConnectorRowsOfLines(lines);
    ImportStoresRows(rows, accepts);
    if forall rs :: accepts(rs) {
      ImportBatchSizes(rows, accepts);
    }
  }

  /** The group names of a match in this file's pattern. */
  const GroupOrder := Columns.GroupOrder("referer")

  /** The attributes of `DatabaseConnection` that its methods set, with the server it talks to.
      `engine` is the URL of the engine (`self.engine`), present together with a fresh
      `self.metadata`; `tableDefined` says that metadata already holds the `import` table;
      `mongoDb` is the database `self.db` of a MongoDB client; `collectionSet` says that
      `self.collection` has been set. */
  class DatabaseConnection {
    const dbType: string
    const dbName: string
    const server: Storage.Server
    var engine: Option<string>
    var tableDefined: bool
    var mongoDb: Option<string>
    var collectionSet: bool

    constructor (dbType: string, dbName: string, server: Storage.Server)
      ensures this.dbType == dbType && this.dbName == dbName && this.server == server
      ensures engine == None && !tableDefined && mongoDb == None && !collectionSet
    {
      this.dbType, this.dbName, this.server := dbType, dbName, server;
      engine, tableDefined, mongoDb, collectionSet := None, false, None, false;
    }

    /** `connect`, with Redis connecting without an engine (see ConnectTargetFixed).
        `create_engine` raises ArgumentError on a URL with no dialect name, before `self.engine`
        is set (see EnginesOpen: H2's URL is one); a new engine comes with new, empty metadata. */
    method Connect() returns (outcome: Storage.Outcome)
      modifies this
      ensures var t := Connection.ConnectTargetFixed(dbType, dbName);
        var opens := t.Engine? && Connection.DialectName(t.url).Some?;
        && outcome == (if t.KeyError? then Storage.Raised(Storage.KeyError(t.key))
                       else if t.Engine? && !opens then Storage.Raised(Storage.ArgumentError)
                       else Storage.Done)
        && engine == (if opens then Some(t.url) else old(engine))
        && tableDefined == (if opens then false else old(tableDefined))
        && mongoDb == (if t.Mongo? then Some(t.database) else old(mongoDb))
        && collectionSet == old(collectionSet)
    {
      match Connection.ConnectTargetFixed(dbType, dbName)
      case KeyError(key) =>
        outcome := Storage.Raised(Storage.KeyError(key));
      case Mongo(_, _, database) =>
        mongoDb := Some(database);
        outcome := Storage.Done;
      case NoEngine =>
        outcome := Storage.Done;
      case Engine(url) =>
        if Connection.DialectName(url).None? {
          return Storage.Raised(Storage.ArgumentError);
        }
        engine, tableDefined := Some(url), false;
        outcome := Storage.Done;
    }

    /** `create_import_table`: declare the table on the metadata, then create it if the server
        lacks it and delete its rows otherwise. Without an engine there is no metadata; a second
        declaration on the same metadata raises. */
    method CreateImportTable() returns (outcome: Storage.Outcome)
      modifies this, server
      ensures outcome == Connection.TableOutcome(old(engine), old(tableDefined))
      ensures outcome.Done? ==> tableDefined && server.tableExists && server.table == []
      ensures outcome.Raised? ==>
        tableDefined == old(tableDefined) && server.tableExists == old(server.tableExists)
        && server.table == old(server.table)
      ensures engine == old(engine) && mongoDb == old(mongoDb) && collectionSet == old(collectionSet)
      ensures server.inserts == old(server.inserts) && server.collection == old(server.collection)
      ensures server.hashes == old(server.hashes)
    {
      if engine.None? {
        return Storage.Raised(Storage.AttributeError("metadata"));
      }
      if tableDefined {
        return Storage.Raised(Storage.TableDefinedTwice);
      }
      tableDefined := true;
      if !server.tableExists {
        server.CreateTable();
      } else {
        server.DeleteRows();
      }
      return Storage.Done;
    }

    /** `import_log_data` on the lines of the file: the branch for the database type. */
    method ImportLogData(lines: seq<string>) returns (outcome: Storage.Outcome)
      modifies this, server
      ensures dbType == "mongodb" ==>
        && outcome == (if old(mongoDb).None? then Storage.Raised(Storage.AttributeError("db")) else Storage.Done)
        && server.collection == old(server.collection) + (if outcome.Done? then Matching.Dicts(Matching.Matched(lines), "referer") else [])
        && collectionSet == (old(collectionSet) || outcome.Done?)
        && server.tableExists == old(server.tableExists) && server.table == old(server.table)
        && server.inserts == old(server.inserts) && server.hashes == old(server.hashes)
      ensures dbType == "redis" ==>
        && outcome.Done?
        && server.hashes == Matching.HashAll(old(server.hashes), "import", Matching.Dicts(Matching.Matched(lines), "referer"))
        && server.collection == old(server.collection) && server.inserts == old(server.inserts)
        && server.table == old(server.table) && server.tableExists == old(server.tableExists)
      ensures dbType !in {"mongodb", "redis"} ==>
        var run := RunImport(Matching.Rows(lines, "referer", Columns.ConnectorSchema), server.accepts);
        && outcome == SqlOutcome(Connection.TableOutcome(old(engine), old(tableDefined)), run)
        && (Connection.TableOutcome(old(engine), old(tableDefined)).Done? ==>
              server.tableExists && server.table == Storage.Stored(run.inserts)
              && server.inserts == old(server.inserts) + run.inserts)
        && (Connection.TableOutcome(old(engine), old(tableDefined)).Raised? ==>
              server.tableExists == old(server.tableExists) && server.table == old(server.table)
              && server.inserts == old(server.inserts))
        && server.collection == old(server.collection) && server.hashes == old(server.hashes)
      ensures dbType !in {"mongodb", "redis"} ==> tableDefined == (old(tableDefined) || old(engine).Some?)
      ensures dbType in {"mongodb", "redis"} ==> tableDefined == old(tableDefined)
      ensures dbType != "mongodb" ==> collectionSet == old(collectionSet)
      ensures engine == old(engine) && mongoDb == old(mongoDb)
    {
      if dbType == "mongodb" {
        if mongoDb.None? {
          return Storage.Raised(Storage.AttributeError("db"));
        }
        collectionSet := true;
        Ingest.InsertMatched(server, lines, "referer");
        return Storage.Done;
      } else if dbType == "redis" {
        Ingest.HashMatched(server, lines, "referer");
        return Storage.Done;
      }
      outcome := CreateImportTable();
      if outcome.Raised? {
        return;
      }
      var raised := SendBatches(lines);
      if raised {
        return Storage.Raised(Storage.InsertRefused);
      }
    }

    /** The batching loop over a table that exists, then the last INSERT; `raised` says that
        the server refused the last one. */
    method SendBatches(lines: seq<string>) returns (raised: bool)
      requires server.tableExists
      modifies server
      ensures var run := RunImport(Matching.Rows(lines, "referer", Columns.ConnectorSchema), server.accepts);
        && raised == run.raised
        && server.tableExists && server.table == old(server.table) + Storage.Stored(run.inserts)
        && server.inserts == old(server.inserts) + run.inserts
      ensures server.collection == old(server.collection) && server.hashes == old(server.hashes)
    {
      var buffer: seq<Columns.Row> := [];
      ghost var inserts: seq<Storage.Insert> := [];
      ghost var base := server.table;
      for i := 0 to |lines|
        invariant Batching(buffer, inserts) == Feed(Matching.Rows(lines[..i], "referer", Columns.ConnectorSchema), server.accepts)
        invariant server.tableExists && server.table == base + Storage.Stored(inserts)
        invariant server.inserts == old(server.inserts) + inserts
        invariant server.collection == old(server.collection) && server.hashes == old(server.hashes)
      {
        FeedStep(lines, i, server.accepts);
        match LogLine.Parse(lines[i])
        case None =>
        case Some(g) =>
          var values := Columns.Values(Columns.GroupDictOf(g, "referer"), GroupOrder, Columns.ConnectorSchema);
          if values.Some? {
            buffer := buffer + [values.value];
            if |buffer| >= BatchSize {
              raised := Flush(buffer, base, inserts);
              LogLine.AppendAssoc(old(server.inserts), inserts, [Storage.Insert(buffer, !raised)]);
              inserts := inserts + [Storage.Insert(buffer, !raised)];
              if !raised {
                buffer := [];
              }
            }
          }
      }
      assert lines[..|lines|] == lines;
      raised := false;
      if buffer != [] {
        raised := Flush(buffer, base, inserts);
        LogLine.AppendAssoc(old(server.inserts), inserts, [Storage.Insert(buffer, !raised)]);
      }
    }

    /** One INSERT of `buffer`; `refused` says the server refused it. */
    method Flush(buffer: seq<Columns.Row>, ghost base: seq<Columns.Row>, ghost inserts: seq<Storage.Insert>)
      returns (refused: bool)
      requires server.tableExists
      requires server.table == base + Storage.Stored(inserts)
      modifies server
      ensures refused == !server.accepts(buffer)
      ensures server.tableExists
      ensures server.table == base + Storage.Stored(inserts + [Storage.Insert(buffer, !refused)])
      ensures server.inserts == old(server.inserts) + [Storage.Insert(buffer, !refused)]
      ensures server.collection == old(server.collection) && server.hashes == old(server.hashes)
    {
      var ok := server.InsertRows(buffer);
      StoredSnoc(inserts, Storage.Insert(buffer, ok));
      refused := !ok;
    }
  }

  /** How the SQL branch ends: as the table step, or, past it, with the refusal of the last
      INSERT. */
  function SqlOutcome(table: Storage.Outcome, run: Run): Storage.Outcome {
    if table.Raised? then table
    else if run.raised then Storage.Raised(Storage.InsertRefused)
    else Storage.Done
  }
}
