/** What the importers make of a log file, the file being the sequence of its lines (each with
    its newline, as iteration over a text file yields them).

    Every importer keeps the lines the pattern matches and drops the others; the SQL importers
    then convert the groups of each kept line into a row. These definitions are the reference the
    import loops are proved against. */
module Matching {
  import opened Wrappers
  import LogLine
  import Columns
  import Storage

  /** The groups of the lines the pattern matches, in file order. */
  function Matched(lines: seq<string>): (r: seq<LogLine.Groups>)
    ensures |r| <= |lines|
    ensures forall i :: 0 <= i < |r| ==> LogLine.WellFormed(r[i])
  {
    if lines == [] then []
    else
      var prev := Matched(lines[..|lines| - 1]);
      match LogLine.Parse(lines[|lines| - 1])
      case None => prev
      case Some(g) =>
        LogLine.ParseWellFormed(lines[|lines| - 1]);
        prev + [g]
  }

  /** Matching is line by line: the matches of two files read one after the other are the
      matches of the first followed by those of the second. */
  lemma {:induction false} MatchedAppend(a: seq<string>, b: seq<string>)
    ensures Matched(a + b) == Matched(a) + Matched(b)
    decreases |b|
  {
    if b == [] {
      assert a + b == a;
    } else {
      var b' := b[..|b| - 1];
      assert (a + b)[..|a + b| - 1] == a + b';
      assert (a + b)[|a + b| - 1] == b[|b| - 1];
      MatchedAppend(a, b');
    }
  }

  /** One line contributes its groups if it matches, and nothing otherwise. */
  lemma MatchedLine(line: string)
    ensures Matched([line]) == match LogLine.Parse(line) case Some(g) => [g] case None => []
  {
    assert [line][..0] == [];
  }

  /** The group dictionaries of the matched lines, the referer group named `refererName`. */
  function Dicts(gs: seq<LogLine.Groups>, refererName: string): (r: seq<Columns.GroupDict>)
    ensures |r| == |gs|
  {
    if gs == [] then [] else Dicts(gs[..|gs| - 1], refererName) + [Columns.GroupDictOf(gs[|gs| - 1], refererName)]
  }

  /** The dictionary of the i-th match is the i-th dictionary. */
  lemma {:induction false} DictsAt(gs: seq<LogLine.Groups>, refererName: string, i: nat)
    requires i < |gs|
    ensures Dicts(gs, refererName)[i] == Columns.GroupDictOf(gs[i], refererName)
  {
    if i < |gs| - 1 {
      DictsAt(gs[..|gs| - 1], refererName, i);
    }
  }

  /** The rows the SQL importers build: one per matched line whose conversion to `schema` does
      not raise, in file order. */
  function Rows(lines: seq<string>, refererName: string, schema: Columns.Schema): seq<Columns.Row> {
    if lines == [] then []
    else
      var prev := Rows(lines[..|lines| - 1], refererName, schema);
      match LogLine.Parse(lines[|lines| - 1])
      case None => prev
      case Some(g) =>
        match Columns.Coerce(Columns.GroupDictOf(g, refererName), schema)
        case None => prev
        case Some(row) => prev + [row]
  }

  /** Taking one more line of the file adds that line's groups to the matches... */
  lemma MatchedStep(lines: seq<string>, i: nat)
    requires i < |lines|
    ensures Matched(lines[..i + 1]) == Matched(lines[..i]) + Matched([lines[i]])
  {
    assert lines[..i + 1][..i] == lines[..i];
    MatchedLine(lines[i]);
  }

  /** ...and the dictionaries of one more match follow those of the others... */
  lemma {:induction false} DictsAppend(gs: seq<LogLine.Groups>, hs: seq<LogLine.Groups>, refererName: string)
    ensures Dicts(gs + hs, refererName) == Dicts(gs, refererName) + Dicts(hs, refererName)
    decreases |hs|
  {
    if hs == [] {
      assert gs + hs == gs;
    } else {
      var hs' := hs[..|hs| - 1];
      assert (gs + hs)[..|gs + hs| - 1] == gs + hs';
      assert (gs + hs)[|gs + hs| - 1] == hs[|hs| - 1];
      DictsAppend(gs, hs', refererName);
    }
  }

  /** The dictionary one line contributes: its groups' if it matches, none otherwise. */
  function LineDicts(line: string, refererName: string): seq<Columns.GroupDict> {
    match LogLine.Parse(line)
    case Some(g) => [Columns.GroupDictOf(g, refererName)]
    case None => []
  }

  lemma DictsStep(lines: seq<string>, i: nat, refererName: string)
    requires i < |lines|
    ensures Dicts(Matched(lines[..i + 1]), refererName)
      == Dicts(Matched(lines[..i]), refererName) + LineDicts(lines[i], refererName)
  {
    MatchedStep(lines, i);
    MatchedLine(lines[i]);
    DictsAppend(Matched(lines[..i]), Matched([lines[i]]), refererName);
  }

  /** ...and its row, if it converts, follows the rows of the lines before it. */
  lemma RowsStep(lines: seq<string>, i: nat, refererName: string, schema: Columns.Schema)
    requires i < |lines|
    ensures Rows(lines[..i + 1], refererName, schema) == Rows(lines[..i], refererName, schema) + Rows([lines[i]], refererName, schema)
  {
    assert lines[..i + 1][..i] == lines[..i];
    assert [lines[i]][..0] == [];
  }

  /** The rows after one more line: its row appended if it matches and converts. */
  lemma RowsNext(lines: seq<string>, i: nat, refererName: string, schema: Columns.Schema)
    requires i < |lines|
    ensures var before := Rows(lines[..i], refererName, schema);
      Rows(lines[..i + 1], refererName, schema)
        == match LogLine.Parse(lines[i])
           case None => before
           case Some(g) =>
             match Columns.Coerce(Columns.GroupDictOf(g, refererName), schema)
             case None => before
             case Some(row) => before + [row]
  {
    RowsStep(lines, i, refererName, schema);
    var before := Rows(lines[..i], refererName, schema);
    assert [lines[i]][..0] == [];
    assert before + [] == before;
  }

  /** The rows Connector.py stores for a sequence of well-formed groups: the ConnectorRow of
      each group whose integers `int()` reads, in order. There is one per group when every
      group fits. */
  function ConnectorRows(gs: seq<LogLine.Groups>): (r: seq<Columns.Row>)
    requires forall i :: 0 <= i < |gs| ==> LogLine.WellFormed(gs[i])
    ensures |r| <= |gs|
    ensures (forall i :: 0 <= i < |gs| ==> Columns.ConnectorFits(gs[i])) ==> |r| == |gs|
  {
    if gs == [] then []
    else
      var g := gs[|gs| - 1];
      ConnectorRows(gs[..|gs| - 1]) + (if Columns.ConnectorFits(g) then [Columns.ConnectorRow(g)] else [])
  }

  /** The rows run.py stores for a sequence of well-formed groups, likewise. */
  function RunRows(gs: seq<LogLine.Groups>): (r: seq<Columns.Row>)
    requires forall i :: 0 <= i < |gs| ==> LogLine.WellFormed(gs[i])
    ensures |r| <= |gs|
    ensures (forall i :: 0 <= i < |gs| ==> Columns.RunFits(gs[i])) ==> |r| == |gs|
  {
    if gs == [] then []
    else
      var g := gs[|gs| - 1];
      RunRows(gs[..|gs| - 1]) + (if Columns.RunFits(g) then [Columns.RunRow(g)] else [])
  }

  /** Only `int()`'s digit limit drops a matched line in Connector.py's conversion: the rows are
      the ConnectorRows of the matched lines, in file order. */
  lemma {:induction false} ConnectorRowsOfLines(lines: seq<string>)
    ensures Rows(lines, "referer", Columns.ConnectorSchema) == ConnectorRows(Matched(lines))
  {
    if lines != [] {
      var init, last := lines[..|lines| - 1], lines[|lines| - 1];
      ConnectorRowsOfLines(init);
      match LogLine.Parse(last)
      case None =>
      case Some(g) =>
        LogLine.ParseWellFormed(last);
        RowsLast(lines, g, "referer", Columns.ConnectorSchema);
        ConnectorRowOf(g);
        MatchedLast(lines, g);
        ConnectorRowsSnoc(Matched(init), g);
    }
  }

  /** Likewise for run.py's conversion. */
  lemma {:induction false} RunRowsOfLines(lines: seq<string>)
    ensures Rows(lines, "avb", Columns.RunSchema) == RunRows(Matched(lines))
  {
    if lines != [] {
      var init, last := lines[..|lines| - 1], lines[|lines| - 1];
      RunRowsOfLines(init);
      match LogLine.Parse(last)
      case None =>
      case Some(g) =>
        LogLine.ParseWellFormed(last);
        RowsLast(lines, g, "avb", Columns.RunSchema);
        RunRowOf(g);
        MatchedLast(lines, g);
        RunRowsSnoc(Matched(init), g);
    }
  }

  /** A last line that matches adds its groups to the matches of the lines before it. */
  lemma MatchedLast(lines: seq<string>, g: LogLine.Groups)
    requires lines != [] && LogLine.Parse(lines[|lines| - 1]) == Some(g)
    ensures Matched(lines) == Matched(lines[..|lines| - 1]) + [g]
  {
  }

  /** A last line that matches adds its row, if its conversion does not raise. */
  lemma RowsLast(lines: seq<string>, g: LogLine.Groups, refererName: string, schema: Columns.Schema)
    requires lines != [] && LogLine.Parse(lines[|lines| - 1]) == Some(g)
    ensures Rows(lines, refererName, schema)
      == Rows(lines[..|lines| - 1], refererName, schema)
         + (match Columns.Coerce(Columns.GroupDictOf(g, refererName), schema)
            case None => []
            case Some(row) => [row])
  {
    var before := Rows(lines[..|lines| - 1], refererName, schema);
    assert before + [] == before;
  }

  /** The row a matched line adds in Connector.py: its ConnectorRow, if it fits. */
  lemma ConnectorRowOf(g: LogLine.Groups)
    requires LogLine.WellFormed(g)
    ensures (match Columns.Coerce(Columns.GroupDictOf(g, "referer"), Columns.ConnectorSchema)
             case None => []
             case Some(row) => [row])
      == if Columns.ConnectorFits(g) then [Columns.ConnectorRow(g)] else []
  {
    Columns.CoerceConnector(g);
  }

  /** Likewise in run.py. */
  lemma RunRowOf(g: LogLine.Groups)
    requires LogLine.WellFormed(g)
    ensures (match Columns.Coerce(Columns.GroupDictOf(g, "avb"), Columns.RunSchema)
             case None => []
             case Some(row) => [row])
      == if Columns.RunFits(g) then [Columns.RunRow(g)] else []
  {
    Columns.CoerceRun(g);
  }

  /** One more group adds its row, if it fits, to those of the groups before it. */
  lemma ConnectorRowsSnoc(gs: seq<LogLine.Groups>, g: LogLine.Groups)
    requires forall i :: 0 <= i < |gs| ==> LogLine.WellFormed(gs[i])
    requires LogLine.WellFormed(g)
    ensures ConnectorRows(gs + [g])
      == ConnectorRows(gs) + (if Columns.ConnectorFits(g) then [Columns.ConnectorRow(g)] else [])
  {
    assert (gs + [g])[..|gs|] == gs;
  }

  lemma RunRowsSnoc(gs: seq<LogLine.Groups>, g: LogLine.Groups)
    requires forall i :: 0 <= i < |gs| ==> LogLine.WellFormed(gs[i])
    requires LogLine.WellFormed(g)
    ensures RunRows(gs + [g]) == RunRows(gs) + (if Columns.RunFits(g) then [Columns.RunRow(g)] else [])
  {
    assert (gs + [g])[..|gs|] == gs;
  }

  /** The Redis hash `key` after `HSET key d` for each dictionary in turn: fields are written
      over, fields not written stay. A hash that does not exist and gets no field stays absent. */
  function HashAll(hashes: map<string, Columns.GroupDict>, key: string, ds: seq<Columns.GroupDict>): (r: map<string, Columns.GroupDict>)
    ensures r.Keys == if ds == [] then hashes.Keys else hashes.Keys + {key}
    ensures forall k :: k in hashes && k != key ==> k in r && r[k] == hashes[k]
  {
    if ds == [] then hashes
    else
      Storage.HashSet(HashAll(hashes, key, ds[..|ds| - 1]), key, ds[|ds| - 1])
  }

  /** One more HSET on top of the others. */
  lemma HashAllSnoc(hashes: map<string, Columns.GroupDict>, key: string, ds: seq<Columns.GroupDict>, d: Columns.GroupDict)
    ensures HashAll(hashes, key, ds + [d]) == Storage.HashSet(HashAll(hashes, key, ds), key, d)
  {
    assert (ds + [d])[..|ds|] == ds;
  }

  /** The hash after one more line: one more HSET if the line matches. */
  lemma HashStep(hashes: map<string, Columns.GroupDict>, lines: seq<string>, i: nat, refererName: string)
    requires i < |lines|
    ensures var before := HashAll(hashes, "import", Dicts(Matched(lines[..i]), refererName));
      HashAll(hashes, "import", Dicts(Matched(lines[..i + 1]), refererName))
        == match LogLine.Parse(lines[i])
           case None => before
           case Some(g) => Storage.HashSet(before, "import", Columns.GroupDictOf(g, refererName))
  {
    DictsStep(lines, i, refererName);
    var ds := Dicts(Matched(lines[..i]), refererName);
    match LogLine.Parse(lines[i])
    case None =>
      assert ds + [] == ds;
    case Some(g) =>
      HashAllSnoc(hashes, "import", ds, Columns.GroupDictOf(g, refererName));
  }

  /** Every dictionary of a match has the same ten groups, so after the import the hash is the
      last matched line's dictionary, as long as it held no field beyond those groups before. */
  lemma HashIsLastMatch(hashes: map<string, Columns.GroupDict>, lines: seq<string>, refererName: string)
    requires Matched(lines) != []
    requires "import" in hashes ==> hashes["import"].Keys <= Columns.GroupDictOf(Matched(lines)[0], refererName).Keys
    ensures var gs := Matched(lines);
      HashAll(hashes, "import", Dicts(gs, refererName))["import"]
        == Columns.GroupDictOf(gs[|gs| - 1], refererName)
  {
    var gs := Matched(lines);
    var ds := Dicts(gs, refererName);
    forall i | 0 <= i < |ds| ensures ds[i].Keys == ds[0].Keys {
      DictsAt(gs, refererName, i);
      DictsAt(gs, refererName, 0);
    }
    DictsAt(gs, refererName, 0);
    DictsAt(gs, refererName, |gs| - 1);
    HashLast(hashes, "import", ds);
  }

  /** After `HSET key d` for dictionaries of one key set, the hash is the last one, provided it
      held no other field before. */
  lemma {:induction false} HashLast(hashes: map<string, Columns.GroupDict>, key: string, ds: seq<Columns.GroupDict>)
    requires ds != []
    requires forall i :: 0 <= i < |ds| ==> ds[i].Keys == ds[0].Keys
    requires key in hashes ==> hashes[key].Keys <= ds[0].Keys
    ensures HashAll(hashes, key, ds)[key] == ds[|ds| - 1]
  {
    var prev := HashAll(hashes, key, ds[..|ds| - 1]);
    if |ds| > 1 {
      HashLast(hashes, key, ds[..|ds| - 1]);
      assert prev[key] == ds[|ds| - 2];
    }
    HashSetCovers(prev, key, ds[|ds| - 1]);
  }

  /** An HSET that writes every field the hash has leaves the hash equal to what it wrote. */
  lemma HashSetCovers(hashes: map<string, Columns.GroupDict>, key: string, d: Columns.GroupDict)
    requires key in hashes ==> hashes[key].Keys <= d.Keys
    ensures Storage.HashSet(hashes, key, d)[key] == d
  {
  }
}
