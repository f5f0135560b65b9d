/** DataBasesParser/DataAnalyzer.py: the query that counts the visitors.

    `get_ip_user_agent_statistics(n)` groups the rows of the `import` table by the four columns
    forwarded_for, user_agent, referer and balancer_worker_name, counts the rows of each group,
    orders the groups by count, highest first, and keeps the first `n`. The database does the
    work; here `TopCombos` does it on the rows (group in order of first appearance, count, sort
    stably by count), and `IsTopCombos` says what any correct answer is, ties in any order.
    `ExecuteQuery` is the dispatch of `execute_query` on the analyzer's database type. */
module DataAnalyzer {
  import opened Wrappers
  import Columns
  import Storage
  import Connector

  /** The four grouping columns of a row; a column the row lacks reads as NULL (None). */
  datatype Combo = Combo(forwardedFor: Option<Columns.Value>, userAgent: Option<Columns.Value>,
                         referer: Option<Columns.Value>, balancerWorkerName: Option<Columns.Value>)

  /** One result row: the four columns and `COUNT(*) AS count`. */
  datatype Stat = Stat(combo: Combo, count: nat)

  function Cell(row: Columns.Row, column: string): Option<Columns.Value> {
    if column in row then Some(row[column]) else None
  }

  function ComboOf(row: Columns.Row): Combo {
    Combo(Cell(row, "forwarded_for"), Cell(row, "user_agent"), Cell(row, "referer"),
          Cell(row, "balancer_worker_name"))
  }

  /** The combination of every row, in table order. */
  function Combos(rows: seq<Columns.Row>): (cs: seq<Combo>)
    ensures |cs| == |rows|
    ensures forall i :: 0 <= i < |rows| ==> cs[i] == ComboOf(rows[i])
  {
    if rows == [] then [] else Combos(rows[..|rows| - 1]) + [ComboOf(rows[|rows| - 1])]
  }

  /** How many entries of `cs` are `c`. */
  function Count(cs: seq<Combo>, c: Combo): (k: nat)
    ensures k <= |cs|
  {
    if cs == [] then 0
    else Count(cs[..|cs| - 1], c) + (if cs[|cs| - 1] == c then 1 else 0)
  }

  /** The entries of `cs`, each once, in order of first appearance. */
  function Distinct(cs: seq<Combo>): (ds: seq<Combo>)
    ensures forall i :: 0 <= i < |cs| ==> cs[i] in ds
    ensures forall c :: c in ds ==> Count(cs, c) > 0
    ensures forall i, j :: 0 <= i < j < |ds| ==> ds[i] != ds[j]
  {
    if cs == [] then []
    else
      var init, c := cs[..|cs| - 1], cs[|cs| - 1];
      var d := Distinct(init);
      assert forall i :: 0 <= i < |init| ==> cs[i] == init[i];
      if c in d then d else d + [c]
  }

  /** Each combination with its count. */
  function Tally(cs: seq<Combo>, all: seq<Combo>): (r: seq<Stat>)
    ensures |r| == |cs|
    ensures forall i :: 0 <= i < |cs| ==> r[i] == Stat(cs[i], Count(all, cs[i]))
  {
    if cs == [] then []
    else Tally(cs[..|cs| - 1], all) + [Stat(cs[|cs| - 1], Count(all, cs[|cs| - 1]))]
  }

  /** The sum of the counts. */
  function Total(ss: seq<Stat>): nat {
    if ss == [] then 0 else Total(ss[..|ss| - 1]) + ss[|ss| - 1].count
  }

  /** Counts are non-increasing along `ss`. */
  predicate Descending(ss: seq<Stat>) {
    forall i, j :: 0 <= i < j < |ss| ==> ss[i].count >= ss[j].count
  }

  /** No combination occurs twice in `ss`. */
  predicate Unique(ss: seq<Stat>) {
    forall i, j :: 0 <= i < j < |ss| ==> ss[i].combo != ss[j].combo
  }

  /** `s` placed after every element of `ss` whose count is above its own, and so before the
      elements whose count equals it. */
  function InsertByCount(s: Stat, ss: seq<Stat>): (r: seq<Stat>)
    ensures |r| == |ss| + 1
    ensures forall x :: x in r <==> x == s || x in ss
    ensures multiset(r) == multiset(ss) + multiset{s}
  {
    if ss == [] then [s]
    else if ss[0].count > s.count then
      var rest := InsertByCount(s, ss[1..]);
      assert ss == [ss[0]] + ss[1..];
      assert forall x :: x in ss <==> x == ss[0] || x in ss[1..];
      [ss[0]] + rest
    else [s] + ss
  }

  /** In a descending ranking the head counts at least as much as every later group. */
  lemma HeadAtLeast(ss: seq<Stat>)
    requires ss != [] && Descending(ss)
    ensures forall x :: x in ss[1..] ==> ss[0].count >= x.count
  {
    forall x | x in ss[1..] ensures ss[0].count >= x.count {
      var j :| 0 <= j < |ss[1..]| && ss[1..][j] == x;
      assert ss[j + 1] == x;
    }
  }

  /** In a ranking without repeats no later group has the head's tuple. */
  lemma HeadApart(ss: seq<Stat>)
    requires ss != [] && Unique(ss)
    ensures forall x :: x in ss[1..] ==> x.combo != ss[0].combo
  {
    forall x | x in ss[1..] ensures x.combo != ss[0].combo {
      var j :| 0 <= j < |ss[1..]| && ss[1..][j] == x;
      assert ss[j + 1] == x;
    }
  }

  lemma {:induction false} InsertDescending(s: Stat, ss: seq<Stat>)
    requires Descending(ss)
    ensures Descending(InsertByCount(s, ss))
  {
    if ss != [] && ss[0].count > s.count {
      var rest := InsertByCount(s, ss[1..]);
      InsertDescending(s, ss[1..]);
      HeadAtLeast(ss);
      assert forall x :: x in rest ==> ss[0].count >= x.count;
      var r := [ss[0]] + rest;
      forall i, j | 0 <= i < j < |r| ensures r[i].count >= r[j].count {
        if i > 0 {
          assert r[i] == rest[i - 1] && r[j] == rest[j - 1];
        } else {
          assert r[j] in rest;
        }
      }
    }
  }

  lemma {:induction false} InsertUnique(s: Stat, ss: seq<Stat>)
    requires Unique(ss)
    requires forall x :: x in ss ==> x.combo != s.combo
    ensures Unique(InsertByCount(s, ss))
  {
    if ss != [] && ss[0].count > s.count {
      var rest := InsertByCount(s, ss[1..]);
      assert forall x :: x in ss[1..] ==> x in ss;
      InsertUnique(s, ss[1..]);
      HeadApart(ss);
      assert forall x :: x in rest ==> x.combo != ss[0].combo;
      var r := [ss[0]] + rest;
      forall i, j | 0 <= i < j < |r| ensures r[i].combo != r[j].combo {
        if i > 0 {
          assert r[i] == rest[i - 1] && r[j] == rest[j - 1];
        } else {
          assert r[j] in rest;
        }
      }
    } else if ss != [] {
      var r := [s] + ss;
      forall i, j | 0 <= i < j < |r| ensures r[i].combo != r[j].combo {
        if i > 0 {
          assert r[i] == ss[i - 1] && r[j] == ss[j - 1];
        } else {
          assert r[j] in ss;
        }
      }
    }
  }

  /** Insertion sort by count, highest first; equal counts keep their order. */
  function SortByCount(ss: seq<Stat>): (r: seq<Stat>)
    ensures |r| == |ss|
    ensures forall x :: x in r <==> x in ss
    ensures multiset(r) == multiset(ss)
    ensures Descending(r)
  {
    if ss == [] then []
    else
      assert ss == [ss[0]] + ss[1..];
      assert forall x :: x in ss <==> x == ss[0] || x in ss[1..];
      var sorted := SortByCount(ss[1..]);
      InsertDescending(ss[0], sorted);
      InsertByCount(ss[0], sorted)
  }

  /** Two groups of equal count come out of the sort in their input order. */
  lemma TiesKeepOrder(a: Stat, b: Stat)
    requires a.count == b.count
    ensures SortByCount([a, b]) == [a, b]
  {
    assert [a, b][1..] == [b];
  }

  lemma {:induction false} SortUnique(ss: seq<Stat>)
    requires Unique(ss)
    ensures Unique(SortByCount(ss))
  {
    if ss != [] {
      var tail := ss[1..];
      assert Unique(tail) by {
        forall i, j | 0 <= i < j < |tail| ensures tail[i].combo != tail[j].combo {
          assert tail[i] == ss[i + 1] && tail[j] == ss[j + 1];
        }
      }
      SortUnique(tail);
      forall x | x in SortByCount(tail) ensures x.combo != ss[0].combo {
        var j :| 0 <= j < |tail| && tail[j] == x;
        assert ss[j + 1] == x;
      }
      InsertUnique(ss[0], SortByCount(tail));
    }
  }

  /** The groups of `cs` by count, highest first. */
  function Ranked(cs: seq<Combo>): seq<Stat> {
    SortByCount(Tally(Distinct(cs), cs))
  }

  /** The first `n` entries of `ss`, or all of them when there are fewer. */
  function Take(ss: seq<Stat>, n: nat): (r: seq<Stat>)
    ensures |r| == (if n < |ss| then n else |ss|)
    ensures forall i :: 0 <= i < |r| ==> r[i] == ss[i]
  {
    ss[..if n < |ss| then n else |ss|]
  }

  /** The answer the database gives: the first `n` groups by count. */
  function TopCombos(rows: seq<Columns.Row>, n: nat): (r: seq<Stat>)
    ensures |r| <= n
  {
    Take(Ranked(Combos(rows)), n)
  }

  /** What any correct answer to the query is, for the rows' combinations `cs`: at most `n`
      groups, each once, each with the number of rows that carry it, counts non-increasing, and
      a combination left out only when `n` groups were returned, none with a smaller count. */
  ghost predicate IsTop(cs: seq<Combo>, n: nat, r: seq<Stat>) {
    && |r| <= n
    && (forall i :: 0 <= i < |r| ==> r[i].count == Count(cs, r[i].combo) && r[i].count >= 1)
    && Unique(r)
    && Descending(r)
    && LeftOutBelow(cs, n, r)
  }

  ghost predicate LeftOutBelow(cs: seq<Combo>, n: nat, r: seq<Stat>) {
    forall c :: c in cs && (forall i :: 0 <= i < |r| ==> r[i].combo != c) ==>
      |r| == n && (n > 0 ==> Count(cs, c) <= r[n - 1].count)
  }

  ghost predicate IsTopCombos(rows: seq<Columns.Row>, n: nat, r: seq<Stat>) {
    IsTop(Combos(rows), n, r)
  }

  /** Every group of the ranking is an entry of `cs` with its count. */
  lemma RankedCounts(cs: seq<Combo>)
    ensures forall x :: x in Ranked(cs) ==> x.count == Count(cs, x.combo) && x.count >= 1
  {
    var ds := Distinct(cs);
    var tally := Tally(ds, cs);
    forall x | x in SortByCount(tally) ensures x.count == Count(cs, x.combo) && x.count >= 1 {
      var i :| 0 <= i < |tally| && tally[i] == x;
      assert ds[i] in ds;
    }
  }

  /** Every entry of `cs` has a group in the ranking. */
  lemma RankedCovers(cs: seq<Combo>, c: Combo) returns (j: nat)
    requires c in cs
    ensures j < |Ranked(cs)| && Ranked(cs)[j].combo == c
  {
    var ds := Distinct(cs);
    var tally := Tally(ds, cs);
    var q :| 0 <= q < |ds| && ds[q] == c;
    assert tally[q] in tally;
    var k :| 0 <= k < |Ranked(cs)| && Ranked(cs)[k] == tally[q];
    j := k;
  }

  lemma RankedUnique(cs: seq<Combo>)
    ensures Unique(Ranked(cs))
  {
    SortUnique(Tally(Distinct(cs), cs));
  }

  /** A prefix of a sequence keeps its order and its uniqueness. */
  lemma PrefixKeeps(ss: seq<Stat>, k: nat)
    requires k <= |ss| && Descending(ss) && Unique(ss)
    ensures Descending(ss[..k]) && Unique(ss[..k])
  {
  }

  /** A ranking: non-increasing counts, each the count of its combination in `cs`. */
  ghost predicate RanksCounts(cs: seq<Combo>, ranked: seq<Stat>) {
    && Descending(ranked)
    && forall x :: x in ranked ==> x.count == Count(cs, x.combo)
  }

  /** A combination at position `j` of a ranking, outside its first `n` groups: `n` groups were
      taken, and its count is no greater than the last of them. */
  lemma LeftOutOne(cs: seq<Combo>, ranked: seq<Stat>, n: nat, j: nat)
    requires RanksCounts(cs, ranked)
    requires j < |ranked| && j >= |Take(ranked, n)|
    ensures |Take(ranked, n)| == n
    ensures n > 0 ==> Count(cs, ranked[j].combo) <= Take(ranked, n)[n - 1].count
  {
    assert ranked[j] in ranked;
  }

  /** The first `n` groups of a ranking that covers `cs` leave out only groups with no greater
      count. */
  lemma PrefixLeavesOut(cs: seq<Combo>, ranked: seq<Stat>, n: nat)
    requires RanksCounts(cs, ranked)
    requires forall c :: c in cs ==> exists j :: 0 <= j < |ranked| && ranked[j].combo == c
    ensures LeftOutBelow(cs, n, Take(ranked, n))
  {
    var r := Take(ranked, n);
    forall c | c in cs
      ensures (forall i :: 0 <= i < |r| ==> r[i].combo != c) ==>
        |r| == n && (n > 0 ==> Count(cs, c) <= r[n - 1].count)
    {
      var j :| 0 <= j < |ranked| && ranked[j].combo == c;
      if j >= |r| {
        LeftOutOne(cs, ranked, n, j);
      } else {
        assert r[j].combo == c;
      }
    }
  }

  lemma PrefixCounts(cs: seq<Combo>, ranked: seq<Stat>, n: nat)
    requires forall x :: x in ranked ==> x.count == Count(cs, x.combo) && x.count >= 1
    ensures forall i :: 0 <= i < |Take(ranked, n)| ==>
      Take(ranked, n)[i].count == Count(cs, Take(ranked, n)[i].combo) && Take(ranked, n)[i].count >= 1
  {
    assert forall i :: 0 <= i < |Take(ranked, n)| ==> ranked[i] in ranked;
  }

  /** The first `n` groups of the ranking answer the query. */
  lemma TopCorrect(cs: seq<Combo>, n: nat)
    ensures IsTop(cs, n, Take(Ranked(cs), n))
  {
    var ranked := Ranked(cs);
    RankedUnique(cs);
    RankedCounts(cs);
    PrefixKeeps(ranked, |Take(ranked, n)|);
    assert Take(ranked, n) == ranked[..|Take(ranked, n)|];
    PrefixCounts(cs, ranked, n);
    forall c | c in cs ensures exists j :: 0 <= j < |ranked| && ranked[j].combo == c {
      var j := RankedCovers(cs, c);
    }
    PrefixLeavesOut(cs, ranked, n);
  }

  /** TopCombos answers the query. */
  lemma TopCombosCorrect(rows: seq<Columns.Row>, n: nat)
    ensures IsTopCombos(rows, n, TopCombos(rows, n))
  {
    TopCorrect(Combos(rows), n);
  }

  /** The counts of all groups add up to the number of entries. */
  lemma {:induction false} TallyTotal(cs: seq<Combo>)
    ensures Total(Tally(Distinct(cs), cs)) == |cs|
  {
    if cs != [] {
      var init, c := cs[..|cs| - 1], cs[|cs| - 1];
      assert init + [c] == cs;
      var d := Distinct(init);
      TallyTotal(init);
      TallyGrows(d, init, c);
      if c !in d {
        assert c !in init;
        CountAbsent(init, c);
        var d' := d + [c];
        assert d'[..|d'| - 1] == d;
        assert Total(Tally(d', cs)) == Total(Tally(d, cs)) + Count(cs, c);
      }
    }
  }

  lemma {:induction false} CountAbsent(cs: seq<Combo>, c: Combo)
    requires c !in cs
    ensures Count(cs, c) == 0
  {
    if cs != [] {
      CountAbsent(cs[..|cs| - 1], c);
    }
  }

  /** One more entry adds one to the total of the groups that include it. */
  lemma {:induction false} TallyGrows(ds: seq<Combo>, cs: seq<Combo>, x: Combo)
    requires forall i, j :: 0 <= i < j < |ds| ==> ds[i] != ds[j]
    ensures Total(Tally(ds, cs + [x])) == Total(Tally(ds, cs)) + (if x in ds then 1 else 0)
  {
    assert (cs + [x])[..|cs|] == cs;
    if ds != [] {
      var init := ds[..|ds| - 1];
      TallyGrows(init, cs, x);
      assert x in ds <==> x in init || x == ds[|ds| - 1];
    }
  }

  /** Sorting keeps the total. */
  lemma {:induction false} SortKeepsTotal(ss: seq<Stat>)
    ensures Total(SortByCount(ss)) == Total(ss)
  {
    if ss != [] {
      SortKeepsTotal(ss[1..]);
      InsertKeepsTotal(ss[0], SortByCount(ss[1..]));
      TotalAppend([ss[0]], ss[1..]);
      assert [ss[0]] + ss[1..] == ss;
    }
  }

  lemma {:induction false} InsertKeepsTotal(s: Stat, ss: seq<Stat>)
    ensures Total(InsertByCount(s, ss)) == s.count + Total(ss)
  {
    if ss == [] {
    } else if ss[0].count > s.count {
      InsertKeepsTotal(s, ss[1..]);
      TotalAppend([ss[0]], InsertByCount(s, ss[1..]));
      TotalAppend([ss[0]], ss[1..]);
      assert [ss[0]] + ss[1..] == ss;
    } else {
      TotalAppend([s], ss);
    }
  }

  lemma {:induction false} TotalAppend(a: seq<Stat>, b: seq<Stat>)
    ensures Total(a + b) == Total(a) + Total(b)
    decreases |b|
  {
    if b == [] {
      assert a + b == a;
    } else {
      TotalAppend(a, b[..|b| - 1]);
      assert (a + b)[..|a + b| - 1] == a + b[..|b| - 1];
    }
  }

  /** When `n` reaches the number of groups, every group is returned and the counts add up to
      the number of rows. */
  lemma AllGroupsReturned(rows: seq<Columns.Row>, n: nat)
    requires n >= |Distinct(Combos(rows))|
    ensures forall c :: c in Combos(rows) ==> exists x :: x in TopCombos(rows, n) && x.combo == c
    ensures Total(TopCombos(rows, n)) == |rows|
  {
    var cs := Combos(rows);
    assert TopCombos(rows, n) == Ranked(cs);
    forall c | c in cs ensures exists x :: x in Ranked(cs) && x.combo == c {
      var j := RankedCovers(cs, c);
      assert Ranked(cs)[j] in Ranked(cs);
    }
    SortKeepsTotal(Tally(Distinct(cs), cs));
    TallyTotal(cs);
  }

  // ---- execute_query ----

  /** The queries an analyzer is given: the statistics query of `get_ip_user_agent_statistics`,
      or a MongoDB filter document. */
  datatype Query = Statistics(n: nat) | Filter(filter: Columns.GroupDict)

  /** What `execute_query` returns: documents of a MongoDB cursor, the Redis hash as a
      dictionary, or the rows of a SQL result. */
  datatype Answer = Documents(docs: seq<Columns.GroupDict>) | Hash(fields: Columns.GroupDict) | Rows(stats: seq<Stat>)

  datatype Reply = Ok(answer: Answer) | Failed(error: Storage.Error)

  /** A document matches a filter when it has every field of the filter, with the same value. */
  predicate Matches(d: Columns.GroupDict, filter: Columns.GroupDict) {
    forall k :: k in filter ==> k in d && d[k] == filter[k]
  }

  /** `find(filter)`: the matching documents, in collection order. */
  function Find(docs: seq<Columns.GroupDict>, filter: Columns.GroupDict): (r: seq<Columns.GroupDict>)
    ensures |r| <= |docs|
    ensures forall d :: d in r <==> d in docs && Matches(d, filter)
    ensures forall d :: multiset(r)[d] == (if Matches(d, filter) then multiset(docs)[d] else 0)
  {
    if docs == [] then []
    else
      var prev := Find(docs[..|docs| - 1], filter);
      var last := docs[|docs| - 1];
      assert docs == docs[..|docs| - 1] + [last];
      assert forall d :: d in docs <==> d in docs[..|docs| - 1] || d == last;
      if Matches(last, filter) then prev + [last] else prev
  }

  /** `execute_query(query)` of an analyzer of type `dbType` on connection `c`. MongoDB: `find`
      on the collection the import set (a statistics query is not a filter); Redis: the whole
      `import` hash, empty when absent; otherwise the query's rows on the engine. */
  function ExecuteQuery(c: Connector.DatabaseConnection, dbType: string, q: Query): (r: Reply)
    reads c, c.server
    ensures dbType == "mongodb" && r.Ok? ==>
      r.answer.Documents? && q.Filter? &&
      (forall d :: d in r.answer.docs <==> d in c.server.collection && Matches(d, q.filter)) &&
      forall d :: multiset(r.answer.docs)[d] == (if Matches(d, q.filter) then multiset(c.server.collection)[d] else 0)
    ensures dbType == "mongodb" && c.collectionSet && q.Filter? ==> r.Ok?
    ensures dbType == "mongodb" && !c.collectionSet ==> r == Failed(Storage.AttributeError("collection"))
    ensures dbType == "redis" ==>
      r.Ok? && r.answer.Hash? &&
      r.answer.fields == (if "import" in c.server.hashes then c.server.hashes["import"] else map[])
    ensures dbType !in {"mongodb", "redis"} && c.engine.None? ==> r == Failed(Storage.AttributeError("engine"))
    ensures dbType !in {"mongodb", "redis"} && r.Ok? ==>
      r.answer.Rows? && q.Statistics? && IsTopCombos(c.server.table, q.n, r.answer.stats)
    ensures dbType !in {"mongodb", "redis"} && c.engine.Some? && c.server.tableExists && q.Statistics? ==> r.Ok?
  {
    if dbType == "mongodb" then
      if !c.collectionSet then Failed(Storage.AttributeError("collection"))
      else match q
        case Filter(f) => Ok(Documents(Find(c.server.collection, f)))
        case Statistics(_) => Failed(Storage.TypeError)
    else if dbType == "redis" then
      Ok(Hash(if "import" in c.server.hashes then c.server.hashes["import"] else map[]))
    else if c.engine.None? then Failed(Storage.AttributeError("engine"))
    else match q
      case Filter(_) => Failed(Storage.NotExecutable)
      case Statistics(n) =>
        if !c.server.tableExists then Failed(Storage.NoSuchTable)
        else
          TopCombosCorrect(c.server.table, n);
          Ok(Rows(TopCombos(c.server.table, n)))
  }

  /** `get_ip_user_agent_statistics(n)`: the `import` table must be on the connection's
      metadata, then the statistics query goes through `execute_query`. */
  function GetIpUserAgentStatistics(c: Connector.DatabaseConnection, dbType: string, n: nat): (r: Reply)
    reads c, c.server
    ensures c.engine.None? ==> r == Failed(Storage.AttributeError("metadata"))
    ensures c.engine.Some? && !c.tableDefined ==> r == Failed(Storage.KeyError("import"))
    ensures r.Ok? && dbType !in {"mongodb", "redis"} ==>
      r.answer.Rows? && |r.answer.stats| <= n && IsTopCombos(c.server.table, n, r.answer.stats)
    ensures dbType !in {"mongodb", "redis"} && c.engine.Some? && c.tableDefined && c.server.tableExists ==> r.Ok?
    ensures dbType == "redis" && c.engine.Some? && c.tableDefined ==> r.Ok? && r.answer.Hash?
  {
    if c.engine.None? then Failed(Storage.AttributeError("metadata"))
    else if !c.tableDefined then Failed(Storage.KeyError("import"))
    else ExecuteQuery(c, dbType, Statistics(n))
  }
}
