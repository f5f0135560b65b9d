/** The `import` table's columns and the conversion of one line's groups into a row.

    The converter walks the group dictionary: a key that names a column of the table is kept,
    converted with `int()` when the column is an Integer column and kept as the text otherwise.
    The two importers differ in two columns: run.py's table makes `time_taken` an Integer column
    and calls the referer group and column `avb`. */
module Columns {
  import opened Wrappers
  import Decimal
  import LogLine

  datatype ColumnType = Integer | Text

  /** A stored value: an integer or a text. */
  datatype Value = IntVal(n: int) | TextVal(s: string)

  /** A row of the table: column name to value; the `id` key is assigned by the database. */
  type Row = map<string, Value>

  type Schema = map<string, ColumnType>

  /** `match.groupdict()`: group name to captured text. */
  type GroupDict = map<string, string>

  /** The table declared by DataBasesParser/Connector.py. */
  const ConnectorSchema: Schema := map[
    "id" := Integer, "ip_address" := Text, "forwarded_for" := Text, "timestamp" := Text,
    "request" := Text, "status_code" := Integer, "response_size" := Integer, "time_taken" := Text,
    "referer" := Text, "user_agent" := Text, "balancer_worker_name" := Text]

  /** The table declared by run.py. */
  const RunSchema: Schema := map[
    "id" := Integer, "ip_address" := Text, "forwarded_for" := Text, "timestamp" := Text,
    "request" := Text, "status_code" := Integer, "response_size" := Integer, "time_taken" := Integer,
    "avb" := Text, "user_agent" := Text, "balancer_worker_name" := Text]

  /** The group dictionary of one match; `refererName` is the name of the group between the
      worker name and the user agent ("referer" in Connector.py, "avb" in run.py). */
  function GroupDictOf(g: LogLine.Groups, refererName: string): (d: GroupDict)
    ensures d.Keys == {"ip_address", "forwarded_for", "timestamp", "request", "status_code",
      "response_size", "time_taken", "balancer_worker_name", refererName, "user_agent"}
  {
    map["ip_address" := g.ipAddress, "forwarded_for" := g.forwardedFor, "timestamp" := g.timestamp,
        "request" := g.request, "status_code" := g.statusCode, "response_size" := g.responseSize,
        "time_taken" := g.timeTaken, "balancer_worker_name" := g.balancerWorkerName,
        refererName := g.referer, "user_agent" := g.userAgent]
  }

  /** The most digits CPython's `int()` converts from a decimal string under its default
      `sys.int_info.default_max_str_digits`; a longer string raises ValueError. Leading zeros
      count as digits. */
  const IntMaxStrDigits: nat := 4300

  /** `int(value)` for an Integer column, the text itself for a Text column; None where `int()`
      raises: on a string that is not digits, or on more digits than the limit. */
  function CoerceValue(t: ColumnType, s: string): (r: Option<Value>)
    ensures r.None? <==> t == Integer && !(Decimal.IsDecimal(s) && |s| <= IntMaxStrDigits)
    ensures t == Text ==> r == Some(TextVal(s))
    ensures t == Integer && r.Some? ==> r.value.IntVal? && r.value.n >= 0
  {
    match t
    case Integer =>
      if Decimal.IsDecimal(s) && |s| <= IntMaxStrDigits then Some(IntVal(Decimal.Value(s))) else None
    case Text => Some(TextVal(s))
  }

  /** Every group that names a column converts. */
  predicate Converts(data: GroupDict, schema: Schema) {
    forall k :: k in data && k in schema ==> CoerceValue(schema[k], data[k]).Some?
  }

  /** The row of one group dictionary, or None when a conversion raises: the loop over the
      groups stops at the first failure, so no row is appended then. */
  function Coerce(data: GroupDict, schema: Schema): (r: Option<Row>)
    ensures r.Some? <==> Converts(data, schema)
    ensures r.Some? ==> r.value.Keys == data.Keys * schema.Keys
    ensures r.Some? ==> forall k :: k in r.value ==> Some(r.value[k]) == CoerceValue(schema[k], data[k])
  {
    if Converts(data, schema) then
      Some(map k | k in data.Keys * schema.Keys :: CoerceValue(schema[k], data[k]).value)
    else None
  }

  /** An Integer column keeps the number a digit string denotes: written back in decimal it is
      the same text, unless the text had leading zeros. */
  lemma IntegerRenders(s: string)
    requires Decimal.IsDecimal(s) && (s[0] == '0' ==> |s| == 1) && |s| <= IntMaxStrDigits
    ensures CoerceValue(Integer, s).Some?
    ensures Decimal.ToString(CoerceValue(Integer, s).value.n as nat) == s
  {
    Decimal.ToStringOfValue(s);
  }

  /** The group names in the order `groupdict()` lists them, the order of the pattern: each
      key of a match's group dictionary, and nothing else. */
  function GroupOrder(refererName: string): (names: seq<string>)
    ensures forall g: LogLine.Groups, k :: k in GroupDictOf(g, refererName) <==> k in names
  {
    ["ip_address", "forwarded_for", "timestamp", "request", "status_code", "response_size",
     "time_taken", "balancer_worker_name", refererName, "user_agent"]
  }

  /** The loop over `data.items()` in `order`: every group that names a column is converted and
      stored under it; the first conversion that raises abandons the row. */
  method Values(data: GroupDict, order: seq<string>, schema: Schema) returns (r: Option<Row>)
    requires forall k :: k in data <==> k in order
    ensures r == Coerce(data, schema)
  {
    var values: Row := map[];
    for i := 0 to |order|
      invariant values.Keys == (set j | 0 <= j < i :: order[j]) * schema.Keys
      invariant forall k :: k in values ==> k in data && CoerceValue(schema[k], data[k]) == Some(values[k])
    {
      var column := order[i];
      if column in schema {
        var value := CoerceValue(schema[column], data[column]);
        if value.None? {
          assert !Converts(data, schema);
          return None;
        }
        values := values[column := value.value];
      }
    }
    assert values.Keys == data.Keys * schema.Keys by {
      forall k | k in data ensures k in set j | 0 <= j < |order| :: order[j] {
        var j :| 0 <= j < |order| && order[j] == k;
      }
    }
    CoerceIs(data, schema, values);
    return Some(values);
  }

  /** The Integer columns of Connector.py's table get texts `int()` converts: a parsed line's
      status code and response size have at most IntMaxStrDigits digits. */
  predicate ConnectorFits(g: LogLine.Groups) {
    |g.statusCode| <= IntMaxStrDigits && |g.responseSize| <= IntMaxStrDigits
  }

  /** run.py's table has time_taken as a third Integer column. */
  predicate RunFits(g: LogLine.Groups) {
    ConnectorFits(g) && |g.timeTaken| <= IntMaxStrDigits
  }

  /** The row Connector.py stores for well-formed groups: status_code and response_size as the
      numbers their digits denote, every other group as its text. */
  function ConnectorRow(g: LogLine.Groups): Row
    requires LogLine.WellFormed(g)
  {
    map["ip_address" := TextVal(g.ipAddress), "forwarded_for" := TextVal(g.forwardedFor),
        "timestamp" := TextVal(g.timestamp), "request" := TextVal(g.request),
        "status_code" := IntVal(Decimal.Value(g.statusCode)),
        "response_size" := IntVal(Decimal.Value(g.responseSize)),
        "time_taken" := TextVal(g.timeTaken), "balancer_worker_name" := TextVal(g.balancerWorkerName),
        "referer" := TextVal(g.referer), "user_agent" := TextVal(g.userAgent)]
  }

  /** The row run.py stores for well-formed groups: time_taken is a number as well, and the
      referer group is stored under `avb`. */
  function RunRow(g: LogLine.Groups): Row
    requires LogLine.WellFormed(g)
  {
    map["ip_address" := TextVal(g.ipAddress), "forwarded_for" := TextVal(g.forwardedFor),
        "timestamp" := TextVal(g.timestamp), "request" := TextVal(g.request),
        "status_code" := IntVal(Decimal.Value(g.statusCode)),
        "response_size" := IntVal(Decimal.Value(g.responseSize)),
        "time_taken" := IntVal(Decimal.Value(g.timeTaken)),
        "balancer_worker_name" := TextVal(g.balancerWorkerName),
        "avb" := TextVal(g.referer), "user_agent" := TextVal(g.userAgent)]
  }

  /** A row is the conversion of a group dictionary when it has the shared keys and each of
      its values is the conversion of that group. */
  lemma CoerceIs(data: GroupDict, schema: Schema, r: Row)
    requires r.Keys == data.Keys * schema.Keys
    requires forall k :: k in r ==> CoerceValue(schema[k], data[k]) == Some(r[k])
    ensures Coerce(data, schema) == Some(r)
  {
    assert Converts(data, schema) by {
      forall k | k in data && k in schema ensures CoerceValue(schema[k], data[k]).Some? {
        assert k in r;
      }
    }
    var c := Coerce(data, schema).value;
    assert c.Keys == r.Keys;
    assert forall k :: k in c ==> c[k] == r[k];
    assert c == r;
  }

  /** On a parsed line Connector.py's conversion raises exactly when status_code or
      response_size has more digits than `int()` reads; otherwise it gives ConnectorRow. */
  lemma CoerceConnector(g: LogLine.Groups)
    requires LogLine.WellFormed(g)
    ensures Coerce(GroupDictOf(g, "referer"), ConnectorSchema)
      == if ConnectorFits(g) then Some(ConnectorRow(g)) else None
  {
    var d := GroupDictOf(g, "referer");
    if ConnectorFits(g) {
      var r := ConnectorRow(g);
      assert r.Keys == d.Keys * ConnectorSchema.Keys;
      forall k | k in r
        ensures CoerceValue(ConnectorSchema[k], d[k]) == Some(r[k])
      {
      }
      CoerceIs(d, ConnectorSchema, r);
    } else {
      var k := if |g.statusCode| > IntMaxStrDigits then "status_code" else "response_size";
      assert k in d && k in ConnectorSchema && CoerceValue(ConnectorSchema[k], d[k]).None?;
    }
  }

  /** On a parsed line run.py's conversion raises exactly when one of its three integer groups
      is too long for `int()`; otherwise it gives RunRow. */
  lemma CoerceRun(g: LogLine.Groups)
    requires LogLine.WellFormed(g)
    ensures Coerce(GroupDictOf(g, "avb"), RunSchema)
      == if RunFits(g) then Some(RunRow(g)) else None
  {
    var d := GroupDictOf(g, "avb");
    if RunFits(g) {
      var r := RunRow(g);
      assert r.Keys == d.Keys * RunSchema.Keys;
      forall k | k in r
        ensures CoerceValue(RunSchema[k], d[k]) == Some(r[k])
      {
      }
      CoerceIs(d, RunSchema, r);
    } else {
      var k := if |g.statusCode| > IntMaxStrDigits then "status_code"
               else if |g.responseSize| > IntMaxStrDigits then "response_size" else "time_taken";
      assert k in d && k in RunSchema && CoerceValue(RunSchema[k], d[k]).None?;
    }
  }
}
