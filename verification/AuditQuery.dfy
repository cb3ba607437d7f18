/** The audit log's query builder (internal/audit/logger.go): the text and arguments it builds,
    read back as a statement, select what the filter describes. */
module AuditQuery {
  import opened Common
  import opened Decimal

  /** Times are counted from Go's zero time, so that zero is the time that was not given. */
  datatype Filter = Filter(userID: string, action: string, resourceType: string, start: int, end: int, limit: int)

  /** A stored entry; the user is NULL when none was logged. */
  datatype Row = Row(userID: Option<string>, action: string, resourceType: string, timestamp: int)

  datatype Arg = Text(text: string) | Time(time: int) | Count(count: int)

  // ---------------------------------------------------------------- what the filter describes

  predicate Matches(filter: Filter, row: Row) {
    && (filter.userID != "" ==> row.userID == Some(filter.userID))
    && (filter.action != "" ==> row.action == filter.action)
    && (filter.resourceType != "" ==> row.resourceType == filter.resourceType)
    && (filter.start != 0 ==> filter.start <= row.timestamp)
    && (filter.end != 0 ==> row.timestamp <= filter.end)
  }

  ghost function Kept(table: seq<Row>, accept: Row -> bool): multiset<Row> {
    if table == [] then multiset{}
    else (if accept(table[0]) then multiset{table[0]} else multiset{}) + Kept(table[1..], accept)
  }

  /** The newest rows first, as many as the limit allows, in any order among equal times. */
  ghost predicate IsNewest(kept: multiset<Row>, limit: nat, out: seq<Row>) {
    && multiset(out) <= kept
    && |out| == (if |kept| < limit then |kept| else limit)
    && (forall i, j :: 0 <= i < j < |out| ==> out[i].timestamp >= out[j].timestamp)
    && (forall row, i :: row in kept - multiset(out) && 0 <= i < |out| ==> row.timestamp <= out[i].timestamp)
  }

  ghost predicate Wanted(filter: Filter, table: seq<Row>, out: seq<Row>) {
    IsNewest(Kept(table, row => Matches(filter, row)), if filter.limit > 0 then filter.limit else 200, out)
  }

  // ---------------------------------------------------------------- what a query text means

  datatype Clause = Clause(column: string, op: string, param: int)

  datatype Limit = Param(param: int) | Fixed(count: int)

  datatype Statement = Statement(clauses: seq<Clause>, limit: Limit)

  predicate SpaceFree(s: string) {
    ' ' !in s
  }

  function UpToSpace(s: string): (w: string)
    ensures |w| <= |s|
  {
    if s == "" || s[0] == ' ' then "" else [s[0]] + UpToSpace(s[1..])
  }

  /** The words of a text in which each word follows a space. */
  function Words(s: string): seq<string>
    decreases |s|
  {
    if s == "" then [] else var w := UpToSpace(s[1..]); [w] + Words(s[1 + |w|..])
  }

  function ReadLimit(word: string): Limit {
    if word != "" && word[0] == '$' then Param(Value(word[1..])) else Fixed(Value(word))
  }

  function ParseWords(words: seq<string>): Option<Statement> {
    if |words| >= 4 && words[0] == "AND" && words[3] != "" && words[3][0] == '$' then
      match ParseWords(words[4..])
      case None => None
      case Some(rest) => Some(rest.(clauses := [Clause(words[1], words[2], Value(words[3][1..]))] + rest.clauses))
    else if |words| == 6 && words[..5] == ["ORDER", "BY", "timestamp", "DESC", "LIMIT"] then
      Some(Statement([], ReadLimit(words[5])))
    else None
  }

  function Parse(head: string, text: string): Option<Statement> {
    if head <= text then ParseWords(Words(text[|head|..])) else None
  }

  /** A comparison with NULL, or between values of different types, holds of no row. */
  predicate Compares(column: string, op: string, arg: Arg, row: Row) {
    match arg
    case Text(t) =>
      || (column == "user_id" && op == "=" && row.userID == Some(t))
      || (column == "action" && op == "=" && row.action == t)
      || (column == "resource_type" && op == "=" && row.resourceType == t)
    case Time(t) =>
      || (column == "timestamp" && op == ">=" && row.timestamp >= t)
      || (column == "timestamp" && op == "<=" && row.timestamp <= t)
    case Count(_) => false
  }

  predicate Holds(clause: Clause, args: seq<Arg>, row: Row) {
    1 <= clause.param <= |args| && Compares(clause.column, clause.op, args[clause.param - 1], row)
  }

  predicate AllHold(clauses: seq<Clause>, args: seq<Arg>, row: Row) {
    forall i :: 0 <= i < |clauses| ==> Holds(clauses[i], args, row)
  }

  function LimitOf(limit: Limit, args: seq<Arg>): Option<int> {
    match limit
    case Fixed(n) => Some(n)
    case Param(k) => if 1 <= k <= |args| && args[k - 1].Count? then Some(args[k - 1].count) else None
  }

  /** Running the text with its arguments on the table may return these rows. */
  ghost predicate Returns(head: string, text: string, args: seq<Arg>, table: seq<Row>, out: seq<Row>) {
    match Parse(head, text)
    case None => false
    case Some(s) =>
      match LimitOf(s.limit, args)
      case None => false
      case Some(n) => n >= 0 && IsNewest(Kept(table, row => AllHold(s.clauses, args, row)), n, out)
  }

  // ---------------------------------------------------------------- writing and reading words

  function Spaced(words: seq<string>): string {
    if words == [] then "" else " " + words[0] + Spaced(words[1..])
  }

  lemma {:induction false} SpacedConcat(a: seq<string>, b: seq<string>)
    ensures Spaced(a + b) == Spaced(a) + Spaced(b)
  {
    if a == [] {
      assert a + b == b;
    } else {
      SpacedConcat(a[1..], b);
      assert (a + b)[1..] == a[1..] + b;
    }
  }

  lemma {:induction false} WordEnds(w: string, rest: string)
    requires SpaceFree(w) && (rest == "" || rest[0] == ' ')
    ensures UpToSpace(w + rest) == w
  {
    if w == "" {
      assert w + rest == rest;
    } else {
      WordEnds(w[1..], rest);
      assert (w + rest)[1..] == w[1..] + rest;
    }
  }

  lemma {:induction false} WordsOfSpaced(words: seq<string>)
    requires forall i :: 0 <= i < |words| ==> SpaceFree(words[i])
    ensures Words(Spaced(words)) == words
  {
    if words != [] {
      WordsOfSpaced(words[1..]);
      FirstWord(words[0], Spaced(words[1..]));
    }
  }

  lemma FirstWord(w: string, rest: string)
    requires SpaceFree(w) && (rest == "" || rest[0] == ' ')
    ensures Words(" " + w + rest) == [w] + Words(rest)
  {
    WordEnds(w, rest);
    hide SpaceFree, UpToSpace;
    CutWord(w, rest);
  }

  lemma CutWord(w: string, rest: string)
    ensures (" " + w + rest)[1..] == w + rest && (" " + w + rest)[1 + |w|..] == rest
  {}

  // ---------------------------------------------------------------- statements as text

  function Placeholder(n: nat): (s: string)
    ensures SpaceFree(s)
  {
    "$" + Digits(n)
  }

  function ClauseWords(clauses: seq<Clause>): seq<string>
    requires forall i :: 0 <= i < |clauses| ==> clauses[i].param >= 0
  {
    if clauses == [] then []
    else ["AND", clauses[0].column, clauses[0].op, Placeholder(clauses[0].param)] + ClauseWords(clauses[1..])
  }

  predicate WellFormed(s: Statement) {
    && (forall i :: 0 <= i < |s.clauses| ==>
          s.clauses[i].param >= 0 && SpaceFree(s.clauses[i].column) && SpaceFree(s.clauses[i].op))
    && if s.limit.Param? then s.limit.param >= 0 else s.limit.count >= 0
  }

  function LimitWord(limit: Limit): (w: string)
    requires if limit.Param? then limit.param >= 0 else limit.count >= 0
    ensures SpaceFree(w)
  {
    if limit.Param? then Placeholder(limit.param) else Digits(limit.count)
  }

  function StatementWords(s: Statement): seq<string>
    requires WellFormed(s)
  {
    ClauseWords(s.clauses) + ["ORDER", "BY", "timestamp", "DESC", "LIMIT", LimitWord(s.limit)]
  }

  function Render(head: string, s: Statement): string
    requires WellFormed(s)
  {
    head + Spaced(StatementWords(s))
  }

  lemma {:induction false} ClauseWordsSpaceFree(clauses: seq<Clause>)
    requires forall i :: 0 <= i < |clauses| ==>
               clauses[i].param >= 0 && SpaceFree(clauses[i].column) && SpaceFree(clauses[i].op)
    ensures forall i :: 0 <= i < |ClauseWords(clauses)| ==> SpaceFree(ClauseWords(clauses)[i])
  {
    if clauses != [] {
      ClauseWordsSpaceFree(clauses[1..]);
    }
  }

  lemma ReadsLimit(limit: Limit)
    requires if limit.Param? then limit.param >= 0 else limit.count >= 0
    ensures ReadLimit(LimitWord(limit)) == limit
  {
    var n := if limit.Param? then limit.param else limit.count;
    ValueOfDigits(n);
    if limit.Param? {
      assert Placeholder(n)[1..] == Digits(n);
    } else {
      assert IsDigit(Digits(n)[0]);
    }
  }

  lemma {:induction false} ParsesWords(s: Statement)
    requires WellFormed(s)
    ensures ParseWords(StatementWords(s)) == Some(s)
    decreases |s.clauses|
  {
    var words := StatementWords(s);
    if s.clauses == [] {
      ReadsLimit(s.limit);
      assert words[..5] == ["ORDER", "BY", "timestamp", "DESC", "LIMIT"];
    } else {
      var rest, c := s.(clauses := s.clauses[1..]), s.clauses[0];
      ParsesWords(rest);
      assert words == ["AND", c.column, c.op, Placeholder(c.param)] + StatementWords(rest);
      hide StatementWords, ParseWords;
      ParsesClause(c, StatementWords(rest), rest);
      assert [c] + rest.clauses == s.clauses;
    }
  }

  lemma ParsesClause(c: Clause, words: seq<string>, rest: Statement)
    requires c.param >= 0 && ParseWords(words) == Some(rest)
    ensures ParseWords(["AND", c.column, c.op, Placeholder(c.param)] + words)
         == Some(rest.(clauses := [c] + rest.clauses))
  {
    var all := ["AND", c.column, c.op, Placeholder(c.param)] + words;
    assert all[4..] == words;
    ValueOfDigits(c.param);
    assert Placeholder(c.param)[1..] == Digits(c.param);
    hide Digits;
  }

  /** Every statement is read back from its text. */
  lemma ParseOfRender(head: string, s: Statement)
    requires WellFormed(s)
    ensures Parse(head, Render(head, s)) == Some(s)
  {
    ClauseWordsSpaceFree(s.clauses);
    WordsOfSpaced(StatementWords(s));
    ParsesWords(s);
    assert Render(head, s)[|head|..] == Spaced(StatementWords(s));
  }

  lemma {:induction false} ClauseWordsAppend(clauses: seq<Clause>, c: Clause)
    requires c.param >= 0 && forall i :: 0 <= i < |clauses| ==> clauses[i].param >= 0
    ensures ClauseWords(clauses + [c]) == ClauseWords(clauses) + ["AND", c.column, c.op, Placeholder(c.param)]
  {
    if clauses != [] {
      ClauseWordsAppend(clauses[1..], c);
      assert (clauses + [c])[1..] == clauses[1..] + [c];
    }
  }

  // ---------------------------------------------------------------- the query of a filter

  datatype Field = ByUser | ByAction | ByResource | From | Until

  predicate Given(filter: Filter, field: Field) {
    match field
    case ByUser => filter.userID != ""
    case ByAction => filter.action != ""
    case ByResource => filter.resourceType != ""
    case From => filter.start != 0
    case Until => filter.end != 0
  }

  function Column(field: Field): (s: string)
    ensures SpaceFree(s)
  {
    match field
    case ByUser => "user_id"
    case ByAction => "action"
    case ByResource => "resource_type"
    case _ => "timestamp"
  }

  function Op(field: Field): (s: string)
    ensures SpaceFree(s)
  {
    match field
    case From => ">="
    case Until => "<="
    case _ => "="
  }

  function ArgOf(filter: Filter, field: Field): Arg {
    match field
    case ByUser => Text(filter.userID)
    case ByAction => Text(filter.action)
    case ByResource => Text(filter.resourceType)
    case From => Time(filter.start)
    case Until => Time(filter.end)
  }

  /** The clauses on these fields, their placeholders numbered from $1 in order. */
  function Numbered(fields: seq<Field>): (clauses: seq<Clause>)
    ensures |clauses| == |fields|
    ensures forall i :: 0 <= i < |fields| ==> clauses[i] == Clause(Column(fields[i]), Op(fields[i]), i + 1)
  {
    seq(|fields|, i requires 0 <= i < |fields| => Clause(Column(fields[i]), Op(fields[i]), i + 1))
  }

  /** The text for the given fields, ended by a numbered or the default limit.  No value of the
      filter is part of it. */
  function TextFor(head: string, fields: seq<Field>, limited: bool): string {
    Render(head, Statement(Numbered(fields), if limited then Param(|fields| + 1) else Fixed(200)))
  }

  ghost predicate ListsGiven(filter: Filter, fields: seq<Field>) {
    && (forall field :: field in fields <==> Given(filter, field))
    && forall i, j :: 0 <= i < j < |fields| ==> fields[i] != fields[j]
  }

  function Values(filter: Filter, fields: seq<Field>): (args: seq<Arg>)
    ensures |args| == |fields|
    ensures forall i :: 0 <= i < |fields| ==> args[i] == ArgOf(filter, fields[i])
  {
    seq(|fields|, i requires 0 <= i < |fields| => ArgOf(filter, fields[i]))
  }

  function ArgsFor(filter: Filter, fields: seq<Field>): seq<Arg> {
    Values(filter, fields) + if filter.limit > 0 then [Count(filter.limit)] else []
  }

  predicate FieldHolds(filter: Filter, field: Field, row: Row) {
    Compares(Column(field), Op(field), ArgOf(filter, field), row)
  }

  lemma FieldMeans(filter: Filter, field: Field, row: Row)
    ensures FieldHolds(filter, field, row) <==>
              match field
              case ByUser => row.userID == Some(filter.userID)
              case ByAction => row.action == filter.action
              case ByResource => row.resourceType == filter.resourceType
              case From => row.timestamp >= filter.start
              case Until => row.timestamp <= filter.end
  {
    assert ">="[0] != "<="[0];
  }

  lemma FieldsMatch(filter: Filter, row: Row)
    ensures Matches(filter, row) <==> forall field :: Given(filter, field) ==> FieldHolds(filter, field, row)
  {
    FieldMeans(filter, ByUser, row);
    FieldMeans(filter, ByAction, row);
    FieldMeans(filter, ByResource, row);
    FieldMeans(filter, From, row);
    FieldMeans(filter, Until, row);
    hide FieldHolds;
    assert Given(filter, ByUser) <==> filter.userID != "";
    assert Given(filter, ByAction) <==> filter.action != "";
    assert Given(filter, ByResource) <==> filter.resourceType != "";
    assert Given(filter, From) <==> filter.start != 0;
    assert Given(filter, Until) <==> filter.end != 0;
  }

  lemma ClausesMatch(filter: Filter, fields: seq<Field>, row: Row)
    requires ListsGiven(filter, fields)
    ensures AllHold(Numbered(fields), ArgsFor(filter, fields), row) <==> Matches(filter, row)
  {
    hide Compares, Column, Op, ArgOf, Given, Matches;
    FieldsMatch(filter, row);
    var clauses, args := Numbered(fields), ArgsFor(filter, fields);
    assert forall i :: 0 <= i < |fields| ==> (Holds(clauses[i], args, row) <==> FieldHolds(filter, fields[i], row));
    assert forall field :: Given(filter, field) <==> exists i :: 0 <= i < |fields| && fields[i] == field;
  }

  /** The given fields each once, numbered in order, with their values as the arguments. */
  ghost predicate IsQueryOf(head: string, filter: Filter, query: string, args: seq<Arg>) {
    exists fields ::
      ListsGiven(filter, fields) && query == TextFor(head, fields, filter.limit > 0) && args == ArgsFor(filter, fields)
  }

  lemma {:induction false} KeptAgree(table: seq<Row>, f: Row -> bool, g: Row -> bool)
    requires forall row :: f(row) == g(row)
    ensures Kept(table, f) == Kept(table, g)
  {
    if table != [] {
      KeptAgree(table[1..], f, g);
    }
  }

  /** The text and the arguments for a filter's fields return exactly the rows the filter
      describes, whatever the table. */
  lemma QueryMeansFilter(head: string, filter: Filter, query: string, args: seq<Arg>, table: seq<Row>, out: seq<Row>)
    requires IsQueryOf(head, filter, query, args)
    ensures Returns(head, query, args, table, out) <==> Wanted(filter, table, out)
  {
    var fields :| ListsGiven(filter, fields) && query == TextFor(head, fields, filter.limit > 0)
        && args == ArgsFor(filter, fields);
    var s := Statement(Numbered(fields), if filter.limit > 0 then Param(|fields| + 1) else Fixed(200));
    ParseOfRender(head, s);
    assert LimitOf(s.limit, args) == Some(if filter.limit > 0 then filter.limit else 200);
    hide Render, Parse, IsNewest, Matches, AllHold, Numbered, Values, ArgsFor, LimitOf, ListsGiven;
    KeepsMatching(filter, fields, table);
  }

  lemma KeepsMatching(filter: Filter, fields: seq<Field>, table: seq<Row>)
    requires ListsGiven(filter, fields)
    ensures var clauses, args := Numbered(fields), ArgsFor(filter, fields);
            Kept(table, row => AllHold(clauses, args, row)) == Kept(table, row => Matches(filter, row))
  {
    hide Matches, AllHold, Numbered, ArgsFor, ListsGiven;
    var clauses, args := Numbered(fields), ArgsFor(filter, fields);
    forall row
      ensures AllHold(clauses, args, row) == Matches(filter, row)
    {
      ClausesMatch(filter, fields, row);
    }
    KeptAgree(table, row => AllHold(clauses, args, row), row => Matches(filter, row));
  }

  // ---------------------------------------------------------------- building it

  method Itoa(n: int) returns (result: string)
    ensures n >= 0 ==> result == Digits(n)
    ensures n < 0 ==> result == ""
  {
    var digits := "0123456789";
    if n == 0 {
      return "0";
    }
    result := "";
    var m := n;
    while m > 0
      invariant n > 0 ==> m >= 0 && (m == 0 ==> result != "")
      invariant n > 0 ==> Digits(n) == if m == 0 then result else Digits(m) + result
      invariant n < 0 ==> m == n && result == ""
    {
      assert digits[m % 10] == Digit(m % 10);
      assert m >= 10 ==> Digits(m) + result == Digits(m / 10) + ([Digit(m % 10)] + result);
      result := [digits[m % 10]] + result;
      m := m / 10;
    }
  }

  lemma OneWord(a: string)
    ensures Spaced([a]) == " " + a
  {
    assert [a][1..] == [];
    assert " " + a + "" == " " + a;
  }

  lemma OneMoreWord(a: string, rest: seq<string>)
    ensures Spaced([a] + rest) == " " + a + Spaced(rest)
  {
    assert ([a] + rest)[1..] == rest;
  }

  lemma TwoWords(a: string, b: string)
    ensures Spaced([a, b]) == (" " + a) + (" " + b)
  {
    assert [a, b] == [a] + [b];
    OneMoreWord(a, [b]);
    OneWord(b);
  }

  lemma FourWords(a: string, b: string, c: string, d: string)
    ensures Spaced([a, b, c, d]) == ((" " + a) + (" " + b)) + (" " + c) + (" " + d)
  {
    assert [a, b, c, d] == [a, b] + [c, d];
    SpacedConcat([a, b], [c, d]);
    TwoWords(a, b);
    TwoWords(c, d);
    hide Spaced;
    Associative((" " + a) + (" " + b), " " + c, " " + d);
  }

  lemma Placed(n: nat)
    ensures " " + Placeholder(n) == " $" + Digits(n)
  {
    hide Digits;
    Associative(" ", "$", Digits(n));
    assert " " + "$" == " $";
  }

  /** The words of the clause on a field. */
  function Chunk(field: Field, n: nat): string {
    Spaced(["AND", Column(field), Op(field), Placeholder(n)])
  }

  // The source's literals spell the words of a clause.

  lemma ChunkText(field: Field, n: nat, literal: string)
    requires ((" " + "AND") + (" " + Column(field))) + (" " + Op(field)) + " $" == literal
    ensures Chunk(field, n) == literal + Digits(n)
  {
    FourWords("AND", Column(field), Op(field), Placeholder(n));
    Placed(n);
    hide Spaced, Digits, Column, Op;
    Associative(((" " + "AND") + (" " + Column(field))) + (" " + Op(field)), " $", Digits(n));
  }

  lemma UserChunk(n: nat)
    ensures Chunk(ByUser, n) == " AND user_id = $" + Digits(n)
  {
    hide Digits;
    ChunkText(ByUser, n, " AND user_id = $");
  }

  lemma ActionChunk(n: nat)
    ensures Chunk(ByAction, n) == " AND action = $" + Digits(n)
  {
    hide Digits;
    ChunkText(ByAction, n, " AND action = $");
  }

  lemma ResourceChunk(n: nat)
    ensures Chunk(ByResource, n) == " AND resource_type = $" + Digits(n)
  {
    hide Digits;
    ChunkText(ByResource, n, " AND resource_type = $");
  }

  lemma FromChunk(n: nat)
    ensures Chunk(From, n) == " AND timestamp >= $" + Digits(n)
  {
    hide Digits;
    ChunkText(From, n, " AND timestamp >= $");
  }

  lemma UntilChunk(n: nat)
    ensures Chunk(Until, n) == " AND timestamp <= $" + Digits(n)
  {
    hide Digits;
    ChunkText(Until, n, " AND timestamp <= $");
  }

  lemma OrderText()
    ensures Spaced(["ORDER", "BY", "timestamp", "DESC"]) == " ORDER BY timestamp DESC"
  {
    FourWords("ORDER", "BY", "timestamp", "DESC");
  }

  lemma LimitText(n: nat)
    ensures Spaced(["LIMIT", Placeholder(n)]) == " LIMIT $" + Digits(n)
    ensures Spaced(["LIMIT", Digits(200)]) == " LIMIT 200"
  {
    TwoWords("LIMIT", Placeholder(n));
    Placed(n);
    TwoWords("LIMIT", Digits(200));
    TwoHundred();
    hide Spaced, Digits;
    Associative(" " + "LIMIT", " $", Digits(n));
    assert (" " + "LIMIT") + " $" == " LIMIT $";
  }

  lemma TwoHundred()
    ensures Digits(200) == "200"
  {
    assert Digits(2) == "2";
    assert Digits(20) == Digits(2) + "0";
    assert Digits(200) == Digits(20) + "0";
  }

  // The fields are looked at in a fixed order.
  function Rank(field: Field): nat {
    match field
    case ByUser => 0
    case ByAction => 1
    case ByResource => 2
    case From => 3
    case Until => 4
  }

  function ClausesText(fields: seq<Field>): string {
    Spaced(ClauseWords(Numbered(fields)))
  }

  lemma AppendField(fields: seq<Field>, field: Field)
    ensures ClausesText(fields + [field]) == ClausesText(fields) + Chunk(field, |fields| + 1)
  {
    var c := Clause(Column(field), Op(field), |fields| + 1);
    assert Numbered(fields + [field]) == Numbered(fields) + [c];
    ClauseWordsAppend(Numbered(fields), c);
    SpacedConcat(ClauseWords(Numbered(fields)), ["AND", c.column, c.op, Placeholder(c.param)]);
  }

  /** The text and arguments built once the fields below this rank have been looked at. */
  ghost predicate Built(head: string, filter: Filter, fields: seq<Field>, rank: nat, query: string, args: seq<Arg>,
                        argN: int) {
    && (forall field :: field in fields <==> Given(filter, field) && Rank(field) < rank)
    && (forall i, j :: 0 <= i < j < |fields| ==> fields[i] != fields[j])
    && query == head + ClausesText(fields)
    && args == Values(filter, fields)
    && argN == |fields|
  }

  lemma BuiltNext(head: string, filter: Filter, fields: seq<Field>, field: Field, query: string, args: seq<Arg>,
                  argN: int)
    requires Built(head, filter, fields, Rank(field), query, args, argN)
    ensures argN >= 0
    ensures Given(filter, field) ==>
              Built(head, filter, fields + [field], Rank(field) + 1, query + Chunk(field, argN + 1),
                    args + [ArgOf(filter, field)], argN + 1)
    ensures !Given(filter, field) ==> Built(head, filter, fields, Rank(field) + 1, query, args, argN)
  {
    assert forall f: Field :: Rank(f) < Rank(field) + 1 <==> Rank(f) < Rank(field) || f == field;
    AppendField(fields, field);
    assert Values(filter, fields + [field]) == Values(filter, fields) + [ArgOf(filter, field)];
    hide ClausesText, Chunk, Values, Rank, Given, ArgOf;
    Associative(head, ClausesText(fields), Chunk(field, argN + 1));
  }

  lemma BuiltAll(head: string, filter: Filter, fields: seq<Field>, query: string, args: seq<Arg>, argN: int)
    requires Built(head, filter, fields, 5, query, args, argN)
    ensures argN >= 0
    ensures filter.limit > 0 ==>
              IsQueryOf(head, filter, query + " ORDER BY timestamp DESC" + (" LIMIT $" + Digits(argN + 1)),
                        args + [Count(filter.limit)])
    ensures filter.limit <= 0 ==>
              IsQueryOf(head, filter, query + " ORDER BY timestamp DESC" + " LIMIT 200", args)
  {
    assert ListsGiven(filter, fields);
    assert args + [] == args;
    hide ListsGiven, ClausesText, Values;
    if filter.limit > 0 {
      EndText(head, fields, query, Param(|fields| + 1));
      OrderText();
      LimitText(argN + 1);
      hide Spaced, Digits, Render;
      assert query + " ORDER BY timestamp DESC" + (" LIMIT $" + Digits(argN + 1)) == TextFor(head, fields, true);
    } else {
      EndText(head, fields, query, Fixed(200));
      OrderText();
      LimitText(1);
      hide Spaced, Digits, Render;
      assert query + " ORDER BY timestamp DESC" + " LIMIT 200" == TextFor(head, fields, false);
    }
  }

  lemma EndText(head: string, fields: seq<Field>, query: string, limit: Limit)
    requires query == head + ClausesText(fields)
    requires if limit.Param? then limit.param >= 0 else limit.count >= 0
    ensures Render(head, Statement(Numbered(fields), limit))
         == query + Spaced(["ORDER", "BY", "timestamp", "DESC"]) + Spaced(["LIMIT", LimitWord(limit)])
  {
    var order, last := ["ORDER", "BY", "timestamp", "DESC"], ["LIMIT", LimitWord(limit)];
    var words := ClauseWords(Numbered(fields));
    assert StatementWords(Statement(Numbered(fields), limit)) == words + (order + last);
    SpacedConcat(words, order + last);
    SpacedConcat(order, last);
    hide Spaced, ClauseWords, Numbered, Digits, LimitWord;
    Associative(head, Spaced(words), Spaced(order) + Spaced(last));
    Associative(query, Spaced(order), Spaced(last));
  }

  /** `head` is the text up to WHERE 1=1: the columns do not bear on which rows are returned. */
  method BuildQuery(head: string, filter: Filter) returns (query: string, args: seq<Arg>)
    ensures IsQueryOf(head, filter, query, args)
    ensures forall table, out :: Returns(head, query, args, table, out) <==> Wanted(filter, table, out)
  {
    query, args := head, [];
    var argN := 0;
    ghost var fields: seq<Field> := [];
    BuiltNone(head, filter);
    hide Digits, Built, Spaced, Parse, Returns, Wanted, Chunk, IsQueryOf;
    BuiltNext(head, filter, fields, ByUser, query, args, argN);
    if filter.userID != "" {
      argN := argN + 1;
      var n := Itoa(argN);
      query := query + (" AND user_id = $" + n);
      args := args + [Text(filter.userID)];
      fields := fields + [ByUser];
      UserChunk(argN);
    }
    BuiltNext(head, filter, fields, ByAction, query, args, argN);
    if filter.action != "" {
      argN := argN + 1;
      var n := Itoa(argN);
      query := query + (" AND action = $" + n);
      args := args + [Text(filter.action)];
      fields := fields + [ByAction];
      ActionChunk(argN);
    }
    BuiltNext(head, filter, fields, ByResource, query, args, argN);
    if filter.resourceType != "" {
      argN := argN + 1;
      var n := Itoa(argN);
      query := query + (" AND resource_type = $" + n);
      args := args + [Text(filter.resourceType)];
      fields := fields + [ByResource];
      ResourceChunk(argN);
    }
    BuiltNext(head, filter, fields, From, query, args, argN);
    if filter.start != 0 {
      argN := argN + 1;
      var n := Itoa(argN);
      query := query + (" AND timestamp >= $" + n);
      args := args + [Time(filter.start)];
      fields := fields + [From];
      FromChunk(argN);
    }
    BuiltNext(head, filter, fields, Until, query, args, argN);
    if filter.end != 0 {
      argN := argN + 1;
      var n := Itoa(argN);
      query := query + (" AND timestamp <= $" + n);
      args := args + [Time(filter.end)];
      fields := fields + [Until];
      UntilChunk(argN);
    }
    BuiltAll(head, filter, fields, query, args, argN);
    query := query + " ORDER BY timestamp DESC";
    if filter.limit > 0 {
      argN := argN + 1;
      var n := Itoa(argN);
      query := query + (" LIMIT $" + n);
      args := args + [Count(filter.limit)];
    } else {
      query := query + " LIMIT 200";
    }
    forall table, out
      ensures Returns(head, query, args, table, out) <==> Wanted(filter, table, out)
    {
      QueryMeansFilter(head, filter, query, args, table, out);
    }
  }

  lemma BuiltNone(head: string, filter: Filter)
    ensures Built(head, filter, [], 0, head, [], 0)
  {
    assert head + "" == head;
  }
}
