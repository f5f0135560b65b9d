/** The access-log line pattern shared by both importers:

      ip (forwarded) - - [timestamp] "request" status size time worker "referer" "agent"

    The pattern is held as data (`Pieces`): twelve pieces, one per capturing group except the
    request, which is its method, target and protocol, each piece with the literal text that
    follows it. It is anchored at the start of the line only, so whatever follows the closing
    quote of the user agent (the newline, say) is ignored (ParseIgnoresTail, ParseNewline). Every
    piece is followed by text its class cannot swallow (`Deterministic`), so the greedy match has
    a single outcome, and a left-to-right parser that takes the longest run at each step decides
    exactly what the pattern decides: ParseSound and ParseComplete. */
module LogLine {
  import opened Wrappers
  import Decimal

  // ---- Character classes (the ASCII reading of `\s`, `\w`, `\d`) ----

  /** `\s`: space, tab, newline, vertical tab, form feed, carriage return and the four ASCII
      separators 0x1C-0x1F, which Python also counts as whitespace. */
  predicate IsSpace(c: char) { c == ' ' || ('\t' <= c <= '\r') || ('\U{1C}' <= c <= '\U{1F}') }

  /** `\w`: letters, digits and the underscore. */
  predicate IsWordChar(c: char) { 'a' <= c <= 'z' || 'A' <= c <= 'Z' || Decimal.IsDigit(c) || c == '_' }

  datatype CharClass =
    | NonSpace   // \S
    | Digit      // \d
    | Upper      // [A-Z]
    | StampChar  // [\w:/]
    | NotQuote   // [^"]

  predicate In(k: CharClass, c: char) {
    match k
    case NonSpace => !IsSpace(c)
    case Digit => Decimal.IsDigit(c)
    case Upper => 'A' <= c <= 'Z'
    case StampChar => IsWordChar(c) || c == ':' || c == '/'
    case NotQuote => c != '"'
  }

  predicate AllIn(k: CharClass, s: string) { forall i :: 0 <= i < |s| ==> In(k, s[i]) }

  /** `\S+` */
  predicate IsToken(s: string) { |s| > 0 && AllIn(NonSpace, s) }

  /** `[\w:/]+\s[+\-]\d{4}` */
  predicate IsTimestamp(t: string) {
    |t| >= 7 && AllIn(StampChar, t[..|t| - 6]) && IsSpace(t[|t| - 6])
    && (t[|t| - 5] == '+' || t[|t| - 5] == '-') && Decimal.AllDigits(t[|t| - 4..])
  }

  /** `[A-Z]+ \S+ \S+`: a method, a space, a target token, a space, a protocol token. */
  ghost predicate IsRequest(q: string) {
    exists m, p, v :: q == m + " " + p + " " + v && |m| > 0 && AllIn(Upper, m) && IsToken(p) && IsToken(v)
  }

  // ---- The pattern ----

  /** The body of one piece of the pattern. */
  datatype SubPattern =
    | Plus(k: CharClass)      // k+
    | Star(k: CharClass)      // k*
    | TokenThen(close: char)  // \S+ where the pattern goes on with `close`
    | Timestamp               // [\w:/]+\s[+\-]\d{4}

  /** A piece of the pattern and the literal text that follows it. */
  datatype Item = Item(group: SubPattern, after: string)

  /** The pattern as twelve pieces: the groups ip_address, forwarded_for and timestamp; the
      request group's method, target and protocol; the groups status_code, response_size,
      time_taken, balancer_worker_name, referer (or avb) and user_agent. Nothing precedes the
      first piece: the pattern starts with `^`. */
  const PieceCount := 12

  /** Piece `j` of the pattern, for `j` below PieceCount. */
  function Piece(j: nat): Item {
    if j == 0 then Item(Plus(NonSpace), " (")
    else if j == 1 then Item(TokenThen(')'), ") - - [")
    else if j == 2 then Item(Timestamp, "] \"")
    else if j == 3 then Item(Plus(Upper), " ")
    else if j == 4 then Item(Plus(NonSpace), " ")
    else if j == 5 then Item(TokenThen('"'), "\" ")
    else if j == 6 then Item(Plus(Digit), " ")
    else if j == 7 then Item(Plus(Digit), " ")
    else if j == 8 then Item(Plus(Digit), " ")
    else if j == 9 then Item(Plus(Digit), " \"")
    else if j == 10 then Item(Star(NotQuote), "\" \"")
    else Item(Star(NotQuote), "\"")
  }

  /** What a captured string must look like. */
  predicate Accepts(p: SubPattern, f: string) {
    match p
    case Plus(k) => |f| > 0 && AllIn(k, f)
    case Star(k) => AllIn(k, f)
    case TokenThen(_) => IsToken(f)
    case Timestamp => IsTimestamp(f)
  }

  /** The text `r` that follows a piece cannot be taken into it by the greedy match. */
  predicate Stops(p: SubPattern, r: string) {
    match p
    case Plus(k) => |r| > 0 && !In(k, r[0])
    case Star(k) => |r| > 0 && !In(k, r[0])
    case TokenThen(c) => |r| > 1 && r[0] == c && !IsSpace(c) && IsSpace(r[1])
    case Timestamp => true
  }

  const Pieces: seq<Item> := [Piece(0), Piece(1), Piece(2), Piece(3), Piece(4), Piece(5), Piece(6),
    Piece(7), Piece(8), Piece(9), Piece(10), Piece(11)]

  /** Every piece of `items` is stopped by the literal that follows it. */
  predicate Deterministic(items: seq<Item>) {
    items != [] ==> Stops(items[0].group, items[0].after) && Deterministic(items[1..])
  }

  /** Each captured string obeys its piece's sub-pattern. */
  predicate Conforms(items: seq<Item>, fs: seq<string>) {
    |fs| == |items| && (items != [] ==> Accepts(items[0].group, fs[0]) && Conforms(items[1..], fs[1..]))
  }

  /** The captured strings put back, each followed by its literal. */
  function Render(items: seq<Item>, fs: seq<string>): string
    requires |fs| == |items|
  {
    if items == [] then [] else fs[0] + items[0].after + Render(items[1..], fs[1..])
  }

  // ---- The captured groups ----

  /** The ten named groups, in the order they appear on the line. The group between the worker
      name and the user agent is `referer` in one importer and `avb` in the other; the name is
      chosen when the groups become a dictionary (Columns.GroupDict). */
  datatype Groups = Groups(
    ipAddress: string,
    forwardedFor: string,
    timestamp: string,
    request: string,
    statusCode: string,
    responseSize: string,
    timeTaken: string,
    balancerWorkerName: string,
    referer: string,
    userAgent: string)

  /** The groups made of the twelve pieces: the request is its three pieces with a space between
      each. */
  function FromPieces(fs: seq<string>): Groups
    requires |fs| == PieceCount
  {
    Groups(fs[0], fs[1], fs[2], fs[3] + " " + fs[4] + " " + fs[5], fs[6], fs[7], fs[8], fs[9],
           fs[10], fs[11])
  }

  /** Every group obeys its sub-pattern. */
  ghost predicate WellFormed(g: Groups) {
    IsToken(g.ipAddress) && IsToken(g.forwardedFor) && IsTimestamp(g.timestamp)
    && IsRequest(g.request) && Decimal.IsDecimal(g.statusCode) && Decimal.IsDecimal(g.responseSize)
    && Decimal.IsDecimal(g.timeTaken) && Decimal.IsDecimal(g.balancerWorkerName)
    && AllIn(NotQuote, g.referer) && AllIn(NotQuote, g.userAgent)
  }

  /** The groups put back between the pattern's literal separators: each group followed by the
      literal after it, then the rest of the line. */
  function Unparse(g: Groups): string {
    g.ipAddress + " (" + (g.forwardedFor + ") - - [" + (g.timestamp + "] \"" + (g.request + "\" "
    + (g.statusCode + " " + (g.responseSize + " " + (g.timeTaken + " " + (g.balancerWorkerName + " \""
    + (g.referer + "\" \"" + (g.userAgent + "\"")))))))))
  }

  // ---- The parser: each step consumes a prefix and hands on the rest of the line ----

  datatype Cut = Cut(field: string, rest: string)

  datatype Captures = Captures(fields: seq<string>, rest: string)

  /** Length of the longest prefix of `s` in class `k`. */
  function Span(s: string, k: CharClass): (n: nat)
    ensures n <= |s|
    ensures forall i :: 0 <= i < n ==> In(k, s[i])
    ensures n < |s| ==> !In(k, s[n])
  {
    if s == [] || !In(k, s[0]) then 0 else 1 + Span(s[1..], k)
  }

  /** A literal. */
  function Lit(s: string, lit: string): (r: Option<string>)
    ensures r.Some? <==> lit <= s
    ensures r.Some? ==> s == lit + r.value
  {
    if lit <= s then Some(s[|lit|..]) else None
  }

  /** `k+`, greedy. */
  function PlusCut(s: string, k: CharClass): (r: Option<Cut>)
    ensures r.Some? ==> s == r.value.field + r.value.rest && |r.value.field| > 0 && AllIn(k, r.value.field)
  {
    var n := Span(s, k);
    if n == 0 then None else Some(Cut(s[..n], s[n..]))
  }

  /** `\S+` where the pattern goes on with the non-space `close` and then a space: the token is
      the whitespace-free run without its last character, which must be `close`. */
  function TokenCut(s: string, close: char): (r: Option<Cut>)
    ensures r.Some? ==> s == r.value.field + r.value.rest && IsToken(r.value.field)
  {
    var n := Span(s, NonSpace);
    if n >= 2 && s[n - 1] == close then Some(Cut(s[..n - 1], s[n - 1..])) else None
  }

  /** `[\w:/]+\s[+\-]\d{4}` */
  function StampCut(s: string): Option<Cut> {
    var n := Span(s, StampChar);
    if n > 0 && n + 6 <= |s| && IsSpace(s[n]) && (s[n + 1] == '+' || s[n + 1] == '-')
      && Decimal.AllDigits(s[n + 2..n + 6])
    then Some(Cut(s[..n + 6], s[n + 6..]))
    else None
  }

  /** One piece, greedy. */
  function MatchSub(p: SubPattern, s: string): Option<Cut> {
    match p
    case Plus(k) => PlusCut(s, k)
    case Star(k) =>
      var n := Span(s, k);
      Some(Cut(s[..n], s[n..]))
    case TokenThen(close) => TokenCut(s, close)
    case Timestamp => StampCut(s)
  }

  /** The pieces of `items`, each followed by its literal. */
  function MatchItems(items: seq<Item>, s: string): (r: Option<Captures>)
    ensures r.Some? ==> |r.value.fields| == |items|
  {
    if items == [] then Some(Captures([], s))
    else
      var c :- MatchSub(items[0].group, s);
      var s' :- Lit(c.rest, items[0].after);
      var m :- MatchItems(items[1..], s');
      Some(Captures([c.field] + m.fields, m.rest))
  }

  /** `re.match` of the access-log pattern: the groups of the matched prefix, or None. */
  function Parse(line: string): Option<Groups> {
    var m :- MatchItems(Pieces, line);
    Some(FromPieces(m.fields))
  }

  // ---- The parser decides exactly what the pattern decides ----

  /** The longest run is pinned down by where the class first fails. */
  lemma SpanIs(s: string, k: CharClass, n: nat)
    requires n <= |s| && (forall i :: 0 <= i < n ==> In(k, s[i])) && (n < |s| ==> !In(k, s[n]))
    ensures Span(s, k) == n
  {
  }

  lemma PlusCutComplete(f: string, r: string, k: CharClass)
    requires |f| > 0 && AllIn(k, f) && |r| > 0 && !In(k, r[0])
    ensures PlusCut(f + r, k) == Some(Cut(f, r))
  {
    var s := f + r;
    SpanIs(s, k, |f|);
    assert s[..|f|] == f && s[|f|..] == r;
  }

  lemma TokenCutComplete(f: string, r: string, close: char)
    requires IsToken(f) && Stops(TokenThen(close), r)
    ensures TokenCut(f + r, close) == Some(Cut(f, r))
  {
    var s := f + r;
    assert s[|f|] == close && s[|f| + 1] == r[1];
    SpanIs(s, NonSpace, |f| + 1);
    assert s[..|f|] == f && s[|f|..] == r;
  }

  lemma StampCutSound(s: string)
    requires StampCut(s).Some?
    ensures s == StampCut(s).value.field + StampCut(s).value.rest
    ensures IsTimestamp(StampCut(s).value.field)
  {
    var n := Span(s, StampChar);
    var t := s[..n + 6];
    assert t[..|t| - 6] == s[..n];
    assert t[|t| - 4..] == s[n + 2..n + 6];
  }

  lemma StampCutComplete(t: string, r: string)
    requires IsTimestamp(t)
    ensures StampCut(t + r) == Some(Cut(t, r))
  {
    var s := t + r;
    var n := |t| - 6;
    assert forall x :: 0 <= x < n ==> t[..n][x] == s[x];
    SpanIs(s, StampChar, n);
    assert s[n + 2..n + 6] == t[|t| - 4..];
    assert s[..|t|] == t && s[|t|..] == r;
  }

  lemma MatchSubSound(p: SubPattern, s: string)
    requires MatchSub(p, s).Some?
    ensures s == MatchSub(p, s).value.field + MatchSub(p, s).value.rest
    ensures Accepts(p, MatchSub(p, s).value.field)
  {
    match p
    case Plus(k) =>
    case Star(k) =>
    case TokenThen(close) =>
    case Timestamp => StampCutSound(s);
  }

  lemma MatchSubComplete(p: SubPattern, f: string, r: string)
    requires Accepts(p, f) && Stops(p, r)
    ensures MatchSub(p, f + r) == Some(Cut(f, r))
  {
    match p
    case Plus(k) => PlusCutComplete(f, r, k);
    case Star(k) =>
      var s := f + r;
      SpanIs(s, k, |f|);
      assert s[..|f|] == f && s[|f|..] == r;
    case TokenThen(close) => TokenCutComplete(f, r, close);
    case Timestamp => StampCutComplete(f, r);
  }

  lemma StopsExtend(p: SubPattern, r: string, more: string)
    requires Stops(p, r)
    ensures Stops(p, r + more)
  {
    if |r| > 0 { assert (r + more)[0] == r[0]; }
    if |r| > 1 { assert (r + more)[1] == r[1]; }
  }

  lemma Regroup(a: string, b: string, c: string, d: string)
    ensures a + (b + (c + d)) == (a + b + c) + d
  {
  }

  lemma {:induction false} MatchItemsSound(items: seq<Item>, s: string)
    requires MatchItems(items, s).Some?
    ensures var m := MatchItems(items, s).value;
      Conforms(items, m.fields) && s == Render(items, m.fields) + m.rest
  {
    if items != [] {
      var c := MatchSub(items[0].group, s).value;
      MatchSubSound(items[0].group, s);
      var s' := Lit(c.rest, items[0].after).value;
      MatchItemsSound(items[1..], s');
      var m := MatchItems(items[1..], s').value;
      var fs := [c.field] + m.fields;
      assert MatchItems(items, s) == Some(Captures(fs, m.rest));
      assert fs[0] == c.field && fs[1..] == m.fields;
      Regroup(c.field, items[0].after, Render(items[1..], m.fields), m.rest);
    }
  }

  /** One step of MatchItemsComplete: the first piece and its literal, then the rest. */
  lemma MatchItemsCons(items: seq<Item>, fs: seq<string>, t: string)
    requires items != [] && |fs| == |items|
    requires Accepts(items[0].group, fs[0]) && Stops(items[0].group, items[0].after)
    requires MatchItems(items[1..], Render(items[1..], fs[1..]) + t) == Some(Captures(fs[1..], t))
    ensures MatchItems(items, Render(items, fs) + t) == Some(Captures(fs, t))
  {
    var tail := Render(items[1..], fs[1..]) + t;
    var r := items[0].after + tail;
    Regroup(fs[0], items[0].after, Render(items[1..], fs[1..]), t);
    StopsExtend(items[0].group, items[0].after, tail);
    MatchSubComplete(items[0].group, fs[0], r);
    assert Lit(r, items[0].after) == Some(tail);
    assert [fs[0]] + fs[1..] == fs;
  }

  lemma {:induction false} MatchItemsComplete(items: seq<Item>, fs: seq<string>, t: string)
    requires Deterministic(items) && Conforms(items, fs)
    ensures MatchItems(items, Render(items, fs) + t) == Some(Captures(fs, t))
  {
    if items == [] {
      assert Render(items, fs) + t == t;
    } else {
      MatchItemsComplete(items[1..], fs[1..], t);
      MatchItemsCons(items, fs, t);
    }
  }

  lemma {:induction false} DeterministicByIndex(items: seq<Item>)
    requires forall j :: 0 <= j < |items| ==> Stops(items[j].group, items[j].after)
    ensures Deterministic(items)
  {
    if items != [] {
      assert Stops(items[0].group, items[0].after);
      DeterministicByIndex(items[1..]);
    }
  }

  /** Render, indexing from `j` instead of slicing. */
  function RenderIndexed(items: seq<Item>, fs: seq<string>, j: nat): string
    requires |fs| == |items| && j <= |items|
    decreases |items| - j
  {
    if j == |items| then [] else fs[j] + items[j].after + RenderIndexed(items, fs, j + 1)
  }

  lemma {:induction false} RenderIsIndexed(items: seq<Item>, fs: seq<string>, j: nat)
    requires |fs| == |items| && j <= |items|
    ensures Render(items[j..], fs[j..]) == RenderIndexed(items, fs, j)
    decreases |items| - j
  {
    if j < |items| {
      RenderIsIndexed(items, fs, j + 1);
      assert items[j..][1..] == items[j + 1..] && fs[j..][1..] == fs[j + 1..];
    }
  }

  /** The literal after each piece stops the greedy match of the piece: the pattern has no
      ambiguity. */
  lemma PieceStops(j: nat)
    requires j < PieceCount
    ensures Stops(Piece(j).group, Piece(j).after)
  {
  }

  /** The request's three pieces, each with the literal after it, regroup into the request
      group followed by its closing quote and the rest of the line. */
  lemma RegroupRequest(m: string, p: string, v: string, r: string)
    ensures m + " " + (p + " " + (v + "\" " + r)) == m + " " + p + " " + v + "\" " + r
  {
  }

  /** The access-log pattern has no ambiguity for the greedy match. */
  lemma PiecesAreDeterministic()
    ensures |Pieces| == PieceCount && Deterministic(Pieces)
  {
    forall j | 0 <= j < |Pieces| ensures Stops(Pieces[j].group, Pieces[j].after) {
      PieceStops(j);
    }
    DeterministicByIndex(Pieces);
  }

  /** Strings `r0`..`r12`, where `rj` renders the pieces from the j-th on, make the unparsed
      groups: `r0` is the whole rendered line. */
  lemma UnparseFromRendered(fs: seq<string>, r0: string, r1: string, r2: string, r3: string, r4: string, r5: string, r6: string, r7: string, r8: string, r9: string, r10: string, r11: string, r12: string)
    requires |fs| == PieceCount && r12 == []
    requires r0 == fs[0] + " (" + r1
    requires r1 == fs[1] + ") - - [" + r2
    requires r2 == fs[2] + "] \"" + r3
    requires r3 == fs[3] + " " + r4
    requires r4 == fs[4] + " " + r5
    requires r5 == fs[5] + "\" " + r6
    requires r6 == fs[6] + " " + r7
    requires r7 == fs[7] + " " + r8
    requires r8 == fs[8] + " " + r9
    requires r9 == fs[9] + " \"" + r10
    requires r10 == fs[10] + "\" \"" + r11
    requires r11 == fs[11] + "\"" + r12
    ensures r0 == Unparse(FromPieces(fs))
  {
    RegroupRequest(fs[3], fs[4], fs[5], r6);
  }

  /** One piece of the rendering: its field, then its literal `lit`. */
  lemma RenderStep(fs: seq<string>, j: nat, lit: string)
    requires |fs| == PieceCount && j < PieceCount && lit == Piece(j).after
    ensures RenderIndexed(Pieces, fs, j) == fs[j] + lit + RenderIndexed(Pieces, fs, j + 1)
  {
    assert Pieces[j] == Piece(j);
  }

  /** The twelve pieces rendered are the groups they make, unparsed. */
  lemma RenderPieces(fs: seq<string>)
    requires |fs| == PieceCount
    ensures Render(Pieces, fs) == Unparse(FromPieces(fs))
  {
    RenderIsIndexed(Pieces, fs, 0);
    assert Pieces[0..] == Pieces && fs[0..] == fs;
    RenderStep(fs, 0, " (");
    RenderStep(fs, 1, ") - - [");
    RenderStep(fs, 2, "] \"");
    RenderStep(fs, 3, " ");
    RenderStep(fs, 4, " ");
    RenderStep(fs, 5, "\" ");
    RenderStep(fs, 6, " ");
    RenderStep(fs, 7, " ");
    RenderStep(fs, 8, " ");
    RenderStep(fs, 9, " \"");
    RenderStep(fs, 10, "\" \"");
    RenderStep(fs, 11, "\"");
    UnparseFromRendered(fs, RenderIndexed(Pieces, fs, 0), RenderIndexed(Pieces, fs, 1), RenderIndexed(Pieces, fs, 2), RenderIndexed(Pieces, fs, 3), RenderIndexed(Pieces, fs, 4), RenderIndexed(Pieces, fs, 5), RenderIndexed(Pieces, fs, 6), RenderIndexed(Pieces, fs, 7), RenderIndexed(Pieces, fs, 8), RenderIndexed(Pieces, fs, 9), RenderIndexed(Pieces, fs, 10), RenderIndexed(Pieces, fs, 11), RenderIndexed(Pieces, fs, 12));
  }

  /** Conforms, indexing from `j` instead of slicing. */
  predicate ConformsIndexed(items: seq<Item>, fs: seq<string>, j: nat)
    requires |fs| == |items| && j <= |items|
    decreases |items| - j
  {
    j < |items| ==> Accepts(items[j].group, fs[j]) && ConformsIndexed(items, fs, j + 1)
  }

  lemma {:induction false} ConformsIsIndexed(items: seq<Item>, fs: seq<string>, j: nat)
    requires |fs| == |items| && j <= |items|
    ensures Conforms(items[j..], fs[j..]) <==> ConformsIndexed(items, fs, j)
    decreases |items| - j
  {
    if j < |items| {
      ConformsIsIndexed(items, fs, j + 1);
      assert items[j..][1..] == items[j + 1..] && fs[j..][1..] == fs[j + 1..];
    }
  }

  /** The shape each of twelve captures must have, piece by piece. */
  predicate PieceShapes(fs: seq<string>)
    requires |fs| == PieceCount
  {
    IsToken(fs[0]) && IsToken(fs[1]) && IsTimestamp(fs[2])
    && |fs[3]| > 0 && AllIn(Upper, fs[3]) && IsToken(fs[4]) && IsToken(fs[5])
    && Decimal.IsDecimal(fs[6]) && Decimal.IsDecimal(fs[7]) && Decimal.IsDecimal(fs[8])
    && Decimal.IsDecimal(fs[9]) && AllIn(NotQuote, fs[10]) && AllIn(NotQuote, fs[11])
  }

  /** Truth values `c0`..`c12`, where `cj` checks the pieces from the j-th on, decide
      PieceShapes: `c0` holds exactly when the captures have their pieces' shapes. */
  lemma ShapesFromChecked(fs: seq<string>, c0: bool, c1: bool, c2: bool, c3: bool, c4: bool, c5: bool, c6: bool, c7: bool, c8: bool, c9: bool, c10: bool, c11: bool, c12: bool)
    requires |fs| == PieceCount && c12
    requires c0 == (Accepts(Piece(0).group, fs[0]) && c1)
    requires c1 == (Accepts(Piece(1).group, fs[1]) && c2)
    requires c2 == (Accepts(Piece(2).group, fs[2]) && c3)
    requires c3 == (Accepts(Piece(3).group, fs[3]) && c4)
    requires c4 == (Accepts(Piece(4).group, fs[4]) && c5)
    requires c5 == (Accepts(Piece(5).group, fs[5]) && c6)
    requires c6 == (Accepts(Piece(6).group, fs[6]) && c7)
    requires c7 == (Accepts(Piece(7).group, fs[7]) && c8)
    requires c8 == (Accepts(Piece(8).group, fs[8]) && c9)
    requires c9 == (Accepts(Piece(9).group, fs[9]) && c10)
    requires c10 == (Accepts(Piece(10).group, fs[10]) && c11)
    requires c11 == (Accepts(Piece(11).group, fs[11]) && c12)
    ensures c0 <==> PieceShapes(fs)
  {
  }

  /** Twelve captures obey the pieces exactly when each has the shape of its piece. */
  lemma ConformsPieces(fs: seq<string>)
    requires |fs| == PieceCount
    ensures Conforms(Pieces, fs) <==> PieceShapes(fs)
  {
    ConformsIsIndexed(Pieces, fs, 0);
    assert Pieces[0..] == Pieces && fs[0..] == fs;
    assert ConformsIndexed(Pieces, fs, 0) == (Accepts(Piece(0).group, fs[0]) && ConformsIndexed(Pieces, fs, 1));
    assert ConformsIndexed(Pieces, fs, 1) == (Accepts(Piece(1).group, fs[1]) && ConformsIndexed(Pieces, fs, 2));
    assert ConformsIndexed(Pieces, fs, 2) == (Accepts(Piece(2).group, fs[2]) && ConformsIndexed(Pieces, fs, 3));
    assert ConformsIndexed(Pieces, fs, 3) == (Accepts(Piece(3).group, fs[3]) && ConformsIndexed(Pieces, fs, 4));
    assert ConformsIndexed(Pieces, fs, 4) == (Accepts(Piece(4).group, fs[4]) && ConformsIndexed(Pieces, fs, 5));
    assert ConformsIndexed(Pieces, fs, 5) == (Accepts(Piece(5).group, fs[5]) && ConformsIndexed(Pieces, fs, 6));
    assert ConformsIndexed(Pieces, fs, 6) == (Accepts(Piece(6).group, fs[6]) && ConformsIndexed(Pieces, fs, 7));
    assert ConformsIndexed(Pieces, fs, 7) == (Accepts(Piece(7).group, fs[7]) && ConformsIndexed(Pieces, fs, 8));
    assert ConformsIndexed(Pieces, fs, 8) == (Accepts(Piece(8).group, fs[8]) && ConformsIndexed(Pieces, fs, 9));
    assert ConformsIndexed(Pieces, fs, 9) == (Accepts(Piece(9).group, fs[9]) && ConformsIndexed(Pieces, fs, 10));
    assert ConformsIndexed(Pieces, fs, 10) == (Accepts(Piece(10).group, fs[10]) && ConformsIndexed(Pieces, fs, 11));
    assert ConformsIndexed(Pieces, fs, 11) == (Accepts(Piece(11).group, fs[11]) && ConformsIndexed(Pieces, fs, 12));
    ShapesFromChecked(fs, ConformsIndexed(Pieces, fs, 0), ConformsIndexed(Pieces, fs, 1), ConformsIndexed(Pieces, fs, 2), ConformsIndexed(Pieces, fs, 3), ConformsIndexed(Pieces, fs, 4), ConformsIndexed(Pieces, fs, 5), ConformsIndexed(Pieces, fs, 6), ConformsIndexed(Pieces, fs, 7), ConformsIndexed(Pieces, fs, 8), ConformsIndexed(Pieces, fs, 9), ConformsIndexed(Pieces, fs, 10), ConformsIndexed(Pieces, fs, 11), ConformsIndexed(Pieces, fs, 12));
  }

  /** The twelve pieces of well-formed groups, the request split into its three parts. */
  lemma PiecesOfWellFormed(g: Groups) returns (fs: seq<string>)
    requires WellFormed(g)
    ensures |fs| == PieceCount && FromPieces(fs) == g && Conforms(Pieces, fs)
    ensures Render(Pieces, fs) == Unparse(g)
  {
    var m, p, v :| g.request == m + " " + p + " " + v && |m| > 0 && AllIn(Upper, m)
      && IsToken(p) && IsToken(v);
    fs := [g.ipAddress, g.forwardedFor, g.timestamp, m, p, v, g.statusCode, g.responseSize,
           g.timeTaken, g.balancerWorkerName, g.referer, g.userAgent];
    assert FromPieces(fs) == g;
    assert PieceShapes(fs);
    ConformsPieces(fs);
    RenderPieces(fs);
  }

  /** A parsed line: every group obeys its sub-pattern, and the line is the groups put back
      between the separators, followed by `rest`. */
  lemma ParseSound(line: string) returns (rest: string)
    requires Parse(line).Some?
    ensures WellFormed(Parse(line).value)
    ensures line == Unparse(Parse(line).value) + rest
  {
    MatchItemsSound(Pieces, line);
    var m := MatchItems(Pieces, line).value;
    rest := m.rest;
    ConformsPieces(m.fields);
    assert PieceShapes(m.fields);
    RenderPieces(m.fields);
    RequestIntro(m.fields[3], m.fields[4], m.fields[5]);
  }

  /** Whenever the line starts with well-formed groups between the separators, Parse finds
      exactly those groups, whatever follows them. */
  lemma ParseComplete(g: Groups, t: string)
    requires WellFormed(g)
    ensures Parse(Unparse(g) + t) == Some(g)
  {
    var fs := PiecesOfWellFormed(g);
    PiecesAreDeterministic();
    MatchItemsComplete(Pieces, fs, t);
  }

  /** What the parser accepts has the shape the pattern gives each group. */
  lemma ParseWellFormed(line: string)
    requires Parse(line).Some?
    ensures WellFormed(Parse(line).value)
  {
    var _ := ParseSound(line);
  }

  /** The three parts of a request, joined by single spaces, make a request. */
  lemma RequestIntro(m: string, p: string, v: string)
    requires |m| > 0 && AllIn(Upper, m) && IsToken(p) && IsToken(v)
    ensures IsRequest(m + " " + p + " " + v)
  {
  }

  /** Well-formed groups survive being written out and parsed back. */
  lemma ParseUnparse(g: Groups)
    requires WellFormed(g)
    ensures Parse(Unparse(g)) == Some(g)
  {
    ParseComplete(g, []);
    assert Unparse(g) + [] == Unparse(g);
  }

  /** Parsed groups written out parse back to themselves. */
  lemma UnparseParse(line: string)
    requires Parse(line).Some?
    ensures Parse(Unparse(Parse(line).value)) == Parse(line)
  {
    var _ := ParseSound(line);
    ParseUnparse(Parse(line).value);
  }

  /** The pattern is anchored at the start only: text after a match changes nothing. */
  lemma ParseIgnoresTail(line: string, t: string)
    requires Parse(line).Some?
    ensures Parse(line + t) == Parse(line)
  {
    var g := Parse(line).value;
    var r := ParseSound(line);
    AppendAssoc(Unparse(g), r, t);
    ParseComplete(g, r + t);
  }

  /** Concatenation regroups; stated for any element type, so that no fact about rows or
      dictionaries enters a proof that uses it. */
  lemma AppendAssoc<T>(a: seq<T>, b: seq<T>, c: seq<T>)
    ensures (a + b) + c == a + (b + c)
  {
  }

  /** A string that does not end with a newline, cut from the front of `line + "\n"`, is cut
      from the front of `line`. */
  lemma DropNewline(u: string, r: string, line: string)
    requires line + "\n" == u + r && |u| > 0 && u[|u| - 1] != '\n'
    ensures |r| > 0 && line == u + r[..|r| - 1]
  {
    assert (u + r)[|u| - 1] == u[|u| - 1];
    assert (line + "\n")[|line|] == '\n';
    assert line == (line + "\n")[..|line|] == (u + r)[..|line|];
    assert (u + r)[..|line|] == u + r[..|r| - 1];
  }

  /** Unparsed groups end with the user agent's closing quote. */
  lemma UnparseEndsWithQuote(g: Groups)
    ensures |Unparse(g)| > 0 && Unparse(g)[|Unparse(g)| - 1] == '"'
  {
  }

  /** A line read from the file with its newline parses as the line without it. */
  lemma ParseNewline(line: string)
    ensures Parse(line + "\n") == Parse(line)
  {
    if Parse(line).Some? {
      ParseIgnoresTail(line, "\n");
    } else if Parse(line + "\n").Some? {
      var g := Parse(line + "\n").value;
      var r := ParseSound(line + "\n");
      UnparseEndsWithQuote(g);
      DropNewline(Unparse(g), r, line);
      ParseComplete(g, r[..|r| - 1]);
      assert false;
    }
  }
}
