/** The MongoDB and Redis branches of `import_log_data`, the same in both importers up to the
    name of the referer group. Neither branch converts the groups: each match's group dictionary
    goes to the server as captured. */
module Ingest {
  import LogLine
  import Columns
  import Matching
  import Storage

  /** The MongoDB loop: `insert_one` of each match's raw group dictionary into the `import`
      collection. */
  method InsertMatched(server: Storage.Server, lines: seq<string>, refererName: string)
    modifies server
    ensures server.collection == old(server.collection) + Matching.Dicts(Matching.Matched(lines), refererName)
    ensures server.tableExists == old(server.tableExists) && server.table == old(server.table)
    ensures server.inserts == old(server.inserts) && server.hashes == old(server.hashes)
  {
    for i := 0 to |lines|
      invariant server.collection == old(server.collection) + Matching.Dicts(Matching.Matched(lines[..i]), refererName)
      invariant server.tableExists == old(server.tableExists) && server.table == old(server.table)
      invariant server.inserts == old(server.inserts) && server.hashes == old(server.hashes)
    {
      Matching.DictsStep(lines, i, refererName);
      ghost var ds := Matching.Dicts(Matching.Matched(lines[..i]), refererName);
      match LogLine.Parse(lines[i])
      case None =>
        assert ds + [] == ds;
      case Some(g) =>
        var d := Columns.GroupDictOf(g, refererName);
        server.InsertOne(d);
        LogLine.AppendAssoc(old(server.collection), ds, [d]);
    }
    assert lines[..|lines|] == lines;
  }

  /** The Redis loop: `hmset('import', groups)` for each match. */
  method HashMatched(server: Storage.Server, lines: seq<string>, refererName: string)
    modifies server
    ensures server.hashes == Matching.HashAll(old(server.hashes), "import", Matching.Dicts(Matching.Matched(lines), refererName))
    ensures server.collection == old(server.collection) && server.inserts == old(server.inserts)
    ensures server.table == old(server.table) && server.tableExists == old(server.tableExists)
  {
    for i := 0 to |lines|
      invariant server.hashes == Matching.HashAll(old(server.hashes), "import", Matching.Dicts(Matching.Matched(lines[..i]), refererName))
      invariant server.collection == old(server.collection) && server.inserts == old(server.inserts)
      invariant server.table == old(server.table) && server.tableExists == old(server.tableExists)
    {
      Matching.HashStep(old(server.hashes), lines, i, refererName);
      match LogLine.Parse(lines[i])
      case None =>
      case Some(g) =>
        server.HashSetFields("import", Columns.GroupDictOf(g, refererName));
    }
    assert lines[..|lines|] == lines;
  }
}
