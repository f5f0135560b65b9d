/** The database servers an importer talks to, as one abstract store.

    A relational server holds the `import` table (whether it exists, and its rows) and answers
    each INSERT statement by applying it whole or refusing it whole; which statements it refuses
    is its own business, given here as the function `accepts` on the rows of a statement. A
    MongoDB server holds the `import` collection of documents; a Redis server holds hashes by key.
    The store also keeps the log of INSERT statements it was sent, so that how the importers batch
    their rows can be stated. */
module Storage {
  import Columns

  /** The Python exceptions that can escape a call of the model. */
  datatype Error =
    | KeyError(key: string)         // a dictionary has no such key
    | AttributeError(name: string)  // the connection object has no such attribute (yet)
    | TableDefinedTwice             // SQLAlchemy: the `import` table is already on this MetaData
    | InsertRefused                 // the server refused an INSERT statement
    | TypeError                     // pymongo: `find` wants a filter document
    | NoSuchTable                   // the SQL server has no `import` table
    | NotExecutable                 // SQLAlchemy: a filter document is not a statement
    | ArgumentError                 // SQLAlchemy: `create_engine` cannot parse the URL

  /** How a call ends: normally, or with an exception. */
  datatype Outcome = Done | Raised(error: Error)

  /** One INSERT statement: the rows it carries, and whether the server applied it. */
  datatype Insert = Insert(rows: seq<Columns.Row>, accepted: bool)

  /** The rows the applied statements stored, in the order they were sent. */
  function Stored(inserts: seq<Insert>): (r: seq<Columns.Row>)
    ensures |r| <= Sent(inserts)
  {
    if inserts == [] then []
    else
      var last := inserts[|inserts| - 1];
      Stored(inserts[..|inserts| - 1]) + (if last.accepted then last.rows else [])
  }

  /** How many rows the statements carried. */
  function Sent(inserts: seq<Insert>): nat {
    if inserts == [] then 0 else Sent(inserts[..|inserts| - 1]) + |inserts[|inserts| - 1].rows|
  }

  /** `HSET key d`: the fields of `d` are written over those of the hash, which is created when
      absent. */
  function HashSet(hashes: map<string, Columns.GroupDict>, key: string, d: Columns.GroupDict): (r: map<string, Columns.GroupDict>)
    ensures key in r && r[key].Keys == d.Keys + (if key in hashes then hashes[key].Keys else {})
    ensures forall f :: f in d ==> r[key][f] == d[f]
    ensures key in hashes ==> forall f :: f in hashes[key] && f !in d ==> r[key][f] == hashes[key][f]
    ensures forall k :: k in hashes && k != key ==> k in r && r[k] == hashes[k]
  {
    hashes[key := (if key in hashes then hashes[key] else map[]) + d]
  }

  class Server {
    var tableExists: bool
    var table: seq<Columns.Row>
    var inserts: seq<Insert>
    var collection: seq<Columns.GroupDict>
    var hashes: map<string, Columns.GroupDict>
    const accepts: seq<Columns.Row> -> bool

    /** A server in any state: the importers find the store as earlier runs left it. */
    constructor (tableExists: bool, table: seq<Columns.Row>, collection: seq<Columns.GroupDict>,
                 hashes: map<string, Columns.GroupDict>, accepts: seq<Columns.Row> -> bool)
      ensures this.tableExists == tableExists && this.table == table && this.inserts == []
      ensures this.collection == collection && this.hashes == hashes && this.accepts == accepts
    {
      this.tableExists := tableExists;
      this.table := table;
      this.inserts := [];
      this.collection := collection;
      this.hashes := hashes;
      this.accepts := accepts;
    }

    /** CREATE TABLE import: the new table is empty. */
    method CreateTable()
      requires !tableExists
      modifies this
      ensures tableExists && table == []
      ensures inserts == old(inserts) && collection == old(collection) && hashes == old(hashes)
    {
      tableExists, table := true, [];
    }

    /** DELETE FROM import: every row goes, the table stays. */
    method DeleteRows()
      requires tableExists
      modifies this
      ensures tableExists && table == []
      ensures inserts == old(inserts) && collection == old(collection) && hashes == old(hashes)
    {
      table := [];
    }

    /** INSERT INTO import: all the rows are appended, or none if the server refuses them. */
    method InsertRows(rows: seq<Columns.Row>) returns (ok: bool)
      requires tableExists
      modifies this
      ensures ok == accepts(rows)
      ensures inserts == old(inserts) + [Insert(rows, ok)]
      ensures table == old(table) + (if ok then rows else [])
      ensures tableExists && collection == old(collection) && hashes == old(hashes)
    {
      ok := accepts(rows);
      inserts := inserts + [Insert(rows, ok)];
      if ok {
        table := table + rows;
      }
    }

    /** `insert_one` into the `import` collection. */
    method InsertOne(d: Columns.GroupDict)
      modifies this
      ensures collection == old(collection) + [d]
      ensures tableExists == old(tableExists) && table == old(table) && inserts == old(inserts)
      ensures hashes == old(hashes)
    {
      collection := collection + [d];
    }

    /** `hmset(key, d)`. */
    method HashSetFields(key: string, d: Columns.GroupDict)
      modifies this
      ensures hashes == HashSet(old(hashes), key, d)
      ensures tableExists == old(tableExists) && table == old(table) && inserts == old(inserts)
      ensures collection == old(collection)
    {
      hashes := HashSet(hashes, key, d);
    }
  }
}
