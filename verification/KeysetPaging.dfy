/** Keyset paging in the engine: the SQL built for a page with its numbered placeholders, what the page
  * holds, and what following the cursors visits. */
module KeysetPaging {
  import opened Wrappers
  import FilterDsl
  import Text

  const MAX_PAGE: nat := 1000

  // ----- SQL with placeholders

  datatype Token = Text(s: string) | Param(n: nat)

  datatype Bind = Str(s: string) | Num(n: nat)

  /** A statement as the server sees it, every placeholder replaced by its value. */
  datatype Piece = Sql(s: string) | Value(v: Bind)

  /** Every placeholder has a bind. */
  predicate InRange(sql: seq<Token>, binds: nat) {
    forall k :: 0 <= k < |sql| ==> sql[k].Param? ==> 1 <= sql[k].n <= binds
  }

  function ResolveOne(t: Token, binds: seq<Bind>): Piece
    requires InRange([t], |binds|)
  {
    assert [t][0] == t;
    if t.Text? then Sql(t.s) else Value(binds[t.n - 1])
  }

  function Resolve(sql: seq<Token>, binds: seq<Bind>): (r: seq<Piece>)
    requires InRange(sql, |binds|)
    ensures |r| == |sql|
  {
    if sql == [] then [] else [ResolveOne(sql[0], binds)] + Resolve(sql[1..], binds)
  }

  lemma InRangeJoin(a: seq<Token>, b: seq<Token>, binds: nat)
    ensures InRange(a + b, binds) <==> InRange(a, binds) && InRange(b, binds)
  {
    assert forall k :: 0 <= k < |a| ==> (a + b)[k] == a[k];
    assert forall k :: 0 <= k < |b| ==> (a + b)[|a| + k] == b[k];
  }

  lemma InRangeTail(a: seq<Token>, binds: nat)
    requires InRange(a, binds) && a != []
    ensures InRange([a[0]], binds) && InRange(a[1..], binds)
  {
  }

  lemma {:induction false} ResolveJoin(a: seq<Token>, b: seq<Token>, binds: seq<Bind>)
    requires InRange(a, |binds|) && InRange(b, |binds|)
    ensures InRange(a + b, |binds|)
    ensures Resolve(a + b, binds) == Resolve(a, binds) + Resolve(b, binds)
  {
    InRangeJoin(a, b, |binds|);
    if a == [] {
      assert a + b == b;
    } else {
      InRangeTail(a, |binds|);
      hide InRange, ResolveOne;
      ResolveJoin(a[1..], b, binds);
      assert (a + b)[1..] == a[1..] + b;
    }
  }

  /** More binds behind the ones a fragment uses change nothing for it. */
  lemma {:induction false} ResolveMore(sql: seq<Token>, binds: seq<Bind>, more: seq<Bind>)
    requires InRange(sql, |binds|)
    ensures InRange(sql, |binds + more|)
    ensures Resolve(sql, binds + more) == Resolve(sql, binds)
  {
    if sql != [] {
      ResolveMore(sql[1..], binds, more);
      assert InRange([sql[0]], |binds|);
    }
  }

  // ----- The facet filter

  predicate IsSafeIdent(s: string) {
    s != "" && Text.AllWord(s) && !('0' <= s[0] <= '9')
  }

  /** `column`, as text when `cast`, equals `value`. */
  datatype Condition = Condition(column: string, cast: bool, value: string)

  function ColumnText(c: Condition): string {
    c.column + (if c.cast then "::text" else "") + " = "
  }

  /** The text of a JSON number. */
  type NumberText = FilterDsl.Json -> string

  function BoolText(b: bool): string {
    if b then "true" else "false"
  }

  /** The condition a filter entry stands for; undeclared or unsafe names and compound values stand for
    * none. */
  function ConditionOf(text: NumberText, facets: seq<string>, key: string, v: FilterDsl.Json): Option<Condition> {
    if key !in facets || !IsSafeIdent(key) then None
    else
      match v
      case Str(s) => Some(Condition(key, false, s))
      case Bool(b) => Some(Condition(key, true, BoolText(b)))
      case Int(_) => Some(Condition(key, true, text(v)))
      case Float(_) => Some(Condition(key, true, text(v)))
      case Null => None
      case Arr(_) => None
      case Obj(_) => None
  }

  function EntryCondition(text: NumberText, facets: seq<string>, fields: map<string, FilterDsl.Json>, key: string):
    Option<Condition>
  {
    if key in fields then ConditionOf(text, facets, key, fields[key]) else None
  }

  function ConditionsOf(text: NumberText, facets: seq<string>, fields: map<string, FilterDsl.Json>, keys: seq<string>):
    seq<Condition>
  {
    if keys == [] then []
    else
      var c := EntryCondition(text, facets, fields, keys[0]);
      (if c.Some? then [c.value] else []) + ConditionsOf(text, facets, fields, keys[1..])
  }

  lemma ConditionsNext(text: NumberText, facets: seq<string>, fields: map<string, FilterDsl.Json>, keys: seq<string>,
                       conds: seq<Condition>, i: nat)
    requires i < |keys|
    ensures
      var c := EntryCondition(text, facets, fields, keys[i]);
      conds + ConditionsOf(text, facets, fields, keys[i..]) ==
      (if c.Some? then conds + [c.value] else conds) + ConditionsOf(text, facets, fields, keys[i + 1..])
  {
    hide EntryCondition;
    assert keys[i..][1..] == keys[i + 1..];
    var c := EntryCondition(text, facets, fields, keys[i]);
    if c.None? {
      assert [] + ConditionsOf(text, facets, fields, keys[i + 1..]) == ConditionsOf(text, facets, fields, keys[i + 1..]);
    }
  }

  function ClausePieces(c: Condition): seq<Piece> {
    [Sql(ColumnText(c)), Value(Str(c.value))]
  }

  /** The conditions joined with AND, their values in place. */
  function Where(conds: seq<Condition>): seq<Piece> {
    if conds == [] then []
    else if |conds| == 1 then ClausePieces(conds[0])
    else ClausePieces(conds[0]) + [Sql(" AND ")] + Where(conds[1..])
  }

  function Strs(binds: seq<string>): (r: seq<Bind>)
    ensures |r| == |binds|
  {
    seq(|binds|, (k: nat) requires k < |binds| => Str(binds[k]))
  }

  /** `clauses.join(" AND ")`. */
  function Joined(clauses: seq<seq<Token>>): seq<Token> {
    if clauses == [] then []
    else if |clauses| == 1 then clauses[0]
    else clauses[0] + [Text(" AND ")] + Joined(clauses[1..])
  }

  /** Clause by clause, placeholders resolve to the conditions. */
  ghost predicate Resolves(clauses: seq<seq<Token>>, binds: seq<Bind>, conds: seq<Condition>) {
    && |clauses| == |conds|
    && forall k :: 0 <= k < |clauses| ==>
         InRange(clauses[k], |binds|) && Resolve(clauses[k], binds) == ClausePieces(conds[k])
  }

  lemma {:induction false} JoinedResolves(clauses: seq<seq<Token>>, binds: seq<Bind>, conds: seq<Condition>)
    requires Resolves(clauses, binds, conds)
    ensures InRange(Joined(clauses), |binds|) && Resolve(Joined(clauses), binds) == Where(conds)
    decreases |clauses|
  {
    hide ClausePieces, InRange;
    if clauses == [] {
      assert InRange([], |binds|) by { NoTokens(binds); }
    } else if |clauses| > 1 {
      JoinedResolves(clauses[1..], binds, conds[1..]);
      PlainText(" AND ", binds);
      ResolveJoin(clauses[0], [Text(" AND ")], binds);
      ResolveJoin(clauses[0] + [Text(" AND ")], Joined(clauses[1..]), binds);
    }
  }

  lemma NoTokens(binds: seq<Bind>)
    ensures InRange([], |binds|)
  {
  }

  lemma PlainText(s: string, binds: seq<Bind>)
    ensures InRange([Text(s)], |binds|) && Resolve([Text(s)], binds) == [Sql(s)]
  {
  }

  lemma Placeholder(n: nat, binds: seq<Bind>)
    requires 1 <= n <= |binds|
    ensures InRange([Param(n)], |binds|) && Resolve([Param(n)], binds) == [Value(binds[n - 1])]
  {
  }

  /** A clause for the next bind, and the clauses before it. */
  lemma OneClause(clauses: seq<seq<Token>>, binds: seq<string>, conds: seq<Condition>, c: Condition)
    requires Resolves(clauses, Strs(binds), conds)
    ensures Resolves(clauses + [[Text(ColumnText(c)), Param(|binds| + 1)]], Strs(binds + [c.value]), conds + [c])
  {
    hide Resolve, InRange, ClausePieces;
    var more := Strs(binds + [c.value]);
    assert more == Strs(binds) + [Str(c.value)];
    forall k | 0 <= k < |clauses|
      ensures InRange(clauses[k], |more|) && Resolve(clauses[k], more) == ClausePieces(conds[k])
    {
      ResolveMore(clauses[k], Strs(binds), [Str(c.value)]);
    }
    ClauseResolves(c, more, |binds| + 1);
  }

  lemma ClauseResolves(c: Condition, binds: seq<Bind>, n: nat)
    requires 1 <= n <= |binds| && binds[n - 1] == Str(c.value)
    ensures InRange([Text(ColumnText(c)), Param(n)], |binds|)
    ensures Resolve([Text(ColumnText(c)), Param(n)], binds) == ClausePieces(c)
  {
    hide ColumnText;
    PlainText(ColumnText(c), binds);
    Placeholder(n, binds);
    ResolveJoin([Text(ColumnText(c))], [Param(n)], binds);
    assert [Text(ColumnText(c))] + [Param(n)] == [Text(ColumnText(c)), Param(n)];
  }

  /** `build_facet_where`: `keys` is the order in which the filter's entries are visited. */
  method BuildFacetWhere(text: NumberText, facets: seq<string>, filters: FilterDsl.Json, keys: seq<string>)
    returns (where: seq<Token>, binds: seq<string>)
    ensures InRange(where, |binds|)
    ensures Resolve(where, Strs(binds)) ==
            Where(if filters.Obj? then ConditionsOf(text, facets, filters.fields, keys) else [])
  {
    if !filters.Obj? {
      return [], [];
    }
    var clauses: seq<seq<Token>> := [];
    binds := [];
    ghost var conds: seq<Condition> := [];
    ghost var all := ConditionsOf(text, facets, filters.fields, keys);
    assert Resolves([], Strs([]), []);
    for i := 0 to |keys|
      invariant Resolves(clauses, Strs(binds), conds)
      invariant all == conds + ConditionsOf(text, facets, filters.fields, keys[i..])
    {
      hide Resolves, ColumnText, IsSafeIdent, BoolText, Where, Resolve, InRange, ClausePieces, Joined, Strs, ConditionsOf;
      ConditionsNext(text, facets, filters.fields, keys, conds, i);
      var key := keys[i];
      if key !in filters.fields || key !in facets {
        continue;
      }
      if !IsSafeIdent(key) {
        continue;
      }
      var bindIdx := |binds| + 1;
      var clause: Option<Condition> := None;
      match filters.fields[key] {
        case Str(s) => clause := Some(Condition(key, false, s));
        case Bool(b) => clause := Some(Condition(key, true, BoolText(b)));
        case Int(_) => clause := Some(Condition(key, true, text(filters.fields[key])));
        case Float(_) => clause := Some(Condition(key, true, text(filters.fields[key])));
        case Null =>
        case Arr(_) =>
        case Obj(_) =>
      }
      assert clause == EntryCondition(text, facets, filters.fields, key);
      if clause.Some? {
        OneClause(clauses, binds, conds, clause.value);
        binds := binds + [clause.value.value];
        clauses := clauses + [[Text(ColumnText(clause.value)), Param(bindIdx)]];
        conds := conds + [clause.value];
      }
    }
    assert all == conds;
    JoinedResolves(clauses, Strs(binds), conds);
    where := Joined(clauses);
  }

  // ----- One page

  function Head(table: string): string {
    "SELECT id::text AS id, title, body, created_at, metadata FROM " + table + " WHERE 1=1"
  }

  /** The statement a page means to run. */
  function Statement(table: string, where: seq<Piece>, cursor: Option<string>, n: nat): seq<Piece> {
    [Sql(Head(table))]
    + (if where == [] then [] else [Sql(" AND ")] + where)
    + (if cursor.None? then [] else [Sql(" AND id > "), Value(Str(cursor.value))])
    + [Sql(" ORDER BY id ASC LIMIT "), Value(Num(n))]
  }

  function PageSize(limit: nat): nat {
    if limit < MAX_PAGE then limit else MAX_PAGE
  }

  /** The query text and its binds. The cursor's placeholder comes first in the text and has the higher
    * number, because the limit is bound before it. */
  method BuildQuery(table: string, where: seq<Token>, binds: seq<string>, cursor: Option<string>, limit: nat)
    returns (sql: seq<Token>, bound: seq<Bind>)
    requires InRange(where, |binds|)
    ensures InRange(sql, |bound|)
    ensures Resolve(sql, bound) == Statement(table, Resolve(where, Strs(binds)), cursor, PageSize(limit))
  {
    hide InRange, Resolve, Head, PageSize;
    var n := PageSize(limit);
    bound := Strs(binds);
    bound := bound + [Num(n)];
    if cursor.Some? {
      bound := bound + [Str(cursor.value)];
    }
    ghost var extra := [Num(n)] + (if cursor.Some? then [Str(cursor.value)] else []);
    assert bound == Strs(binds) + extra;
    ResolveMore(where, Strs(binds), extra);
    sql := [Text(Head(table))];
    PlainText(Head(table), bound);
    if where != [] {
      PlainText(" AND ", bound);
      ResolveJoin(sql, [Text(" AND ")], bound);
      sql := sql + [Text(" AND ")];
      ResolveJoin(sql, where, bound);
      sql := sql + where;
    }
    ghost var soFar := Resolve(sql, bound);
    assert soFar == [Sql(Head(table))] +
                    (if Resolve(where, Strs(binds)) == [] then [] else [Sql(" AND ")] + Resolve(where, Strs(binds)));
    if cursor.Some? {
      PlainText(" AND id > ", bound);
      ResolveJoin(sql, [Text(" AND id > ")], bound);
      sql := sql + [Text(" AND id > ")];
      Placeholder(|binds| + 2, bound);
      ResolveJoin(sql, [Param(|binds| + 2)], bound);
      sql := sql + [Param(|binds| + 2)];
    }
    PlainText(" ORDER BY id ASC LIMIT ", bound);
    ResolveJoin(sql, [Text(" ORDER BY id ASC LIMIT ")], bound);
    sql := sql + [Text(" ORDER BY id ASC LIMIT ")];
    Placeholder(|binds| + 1, bound);
    ResolveJoin(sql, [Param(|binds| + 1)], bound);
    sql := sql + [Param(|binds| + 1)];
  }

  datatype Row = Row(id: string, columns: map<string, string>)

  /** The database: the rows it answers a statement with. */
  type Database = seq<Piece> -> seq<Row>

  datatype Page = Page(items: seq<Row>, next: Option<string>)

  datatype Fetched = Ok(page: Page) | InvalidArgument

  /** The page that starts behind `cursor`; only a full page has a cursor. */
  function PageOf(db: Database, table: string, where: seq<Piece>, cursor: Option<string>, limit: nat): Page {
    var rows := db(Statement(table, where, cursor, PageSize(limit)));
    Page(rows, if |rows| == PageSize(limit) && rows != [] then Some(rows[|rows| - 1].id) else None)
  }

  /** `fetch_many`. */
  method FetchMany(db: Database, table: string, where: seq<Token>, binds: seq<string>, cursor: Option<string>,
                   limit: nat) returns (r: Fetched)
    requires InRange(where, |binds|)
    ensures r == if IsSafeIdent(table) then Ok(PageOf(db, table, Resolve(where, Strs(binds)), cursor, limit))
                 else InvalidArgument
  {
    hide Statement, IsSafeIdent, InRange, Resolve, Strs;
    if !IsSafeIdent(table) {
      return InvalidArgument;
    }
    var sql, bound := BuildQuery(table, where, binds, cursor, limit);
    var rows := db(Resolve(sql, bound));
    var nextCursor := if rows == [] then None else Some(rows[|rows| - 1].id);
    return Ok(Page(rows, if |rows| == PageSize(limit) then nextCursor else None));
  }

  // ----- What the rows of a page are

  predicate RowMatches(row: Row, conds: seq<Condition>) {
    forall k :: 0 <= k < |conds| ==>
      conds[k].column in row.columns && row.columns[conds[k].column] == conds[k].value
  }

  /** The text a scalar filter value is compared as. */
  function ScalarText(text: NumberText, v: FilterDsl.Json): Option<string> {
    match v
    case Str(s) => Some(s)
    case Bool(b) => Some(BoolText(b))
    case Int(_) => Some(text(v))
    case Float(_) => Some(text(v))
    case _ => None
  }

  /** The filter's entry for this key, if it takes part, agrees with the row. */
  predicate EntryAgrees(text: NumberText, facets: seq<string>, key: string, v: FilterDsl.Json, row: Row) {
    key in facets && IsSafeIdent(key) && ScalarText(text, v).Some? ==>
      key in row.columns && row.columns[key] == ScalarText(text, v).value
  }

  lemma EntryMeans(text: NumberText, facets: seq<string>, fields: map<string, FilterDsl.Json>, key: string, row: Row)
    requires key in fields
    ensures
      var c := EntryCondition(text, facets, fields, key);
      RowMatches(row, if c.Some? then [c.value] else []) <==> EntryAgrees(text, facets, key, fields[key], row)
  {
    hide IsSafeIdent, BoolText;
    var c := EntryCondition(text, facets, fields, key);
    if c.Some? {
      assert [c.value][0] == c.value;
    }
  }

  /** The rows a filter selects are the ones that agree with every declared, safe, scalar entry of it. */
  lemma {:induction false} FilterMeans(text: NumberText, facets: seq<string>, fields: map<string, FilterDsl.Json>,
                                       keys: seq<string>, row: Row)
    requires forall key :: key in keys ==> key in fields
    ensures RowMatches(row, ConditionsOf(text, facets, fields, keys)) <==>
            forall key :: key in keys ==> EntryAgrees(text, facets, key, fields[key], row)
  {
    if keys != [] {
      hide EntryAgrees, EntryCondition, RowMatches;
      assert keys == [keys[0]] + keys[1..];
      FilterMeans(text, facets, fields, keys[1..], row);
      EntryMeans(text, facets, fields, keys[0], row);
      var c := EntryCondition(text, facets, fields, keys[0]);
      var rest := ConditionsOf(text, facets, fields, keys[1..]);
      if c.Some? {
        MatchesFirst(row, c.value, rest);
      } else {
        NothingAsked(row);
        assert [] + rest == rest;
      }
    } else {
      NothingAsked(row);
    }
  }

  lemma NothingAsked(row: Row)
    ensures RowMatches(row, [])
  {
  }

  lemma MatchesFirst(row: Row, c: Condition, rest: seq<Condition>)
    ensures RowMatches(row, [c] + rest) <==> RowMatches(row, [c]) && RowMatches(row, rest)
  {
    var all := [c] + rest;
    assert forall k :: 0 <= k < |rest| ==> all[k + 1] == rest[k];
    assert all[0] == c == [c][0];
  }

  /** A row condition of the caller's, such as a policy. */
  function Keep(rows: seq<Row>, p: Row -> bool): seq<Row> {
    if rows == [] then [] else KeepOne(rows[0], p) + Keep(rows[1..], p)
  }

  function KeepOne(row: Row, p: Row -> bool): seq<Row> {
    if p(row) then [row] else []
  }

  function Matching(rows: seq<Row>, conds: seq<Condition>): seq<Row> {
    Keep(rows, (r: Row) => RowMatches(r, conds))
  }

  /** How the database orders ids. */
  type Rank = string -> int

  /** Rows with distinct ids in order. */
  ghost predicate Ordered(rows: seq<Row>, rank: Rank) {
    forall i, j :: 0 <= i < j < |rows| ==> rank(rows[i].id) < rank(rows[j].id)
  }

  /** The rows behind the cursor, of ordered rows. */
  function After(rows: seq<Row>, rank: Rank, cursor: Option<string>): seq<Row> {
    if rows == [] || cursor.None? || rank(rows[0].id) > rank(cursor.value) then rows
    else After(rows[1..], rank, cursor)
  }

  function Take(rows: seq<Row>, n: nat): seq<Row> {
    if n < |rows| then rows[..n] else rows
  }

  /** The database holds the ordered table `rows` and runs the page statements on it. */
  ghost predicate Serves(db: Database, table: string, rows: seq<Row>, rank: Rank, conds: seq<Condition>) {
    && Ordered(rows, rank)
    && forall cursor: Option<string>, n: nat {:trigger Statement(table, Where(conds), cursor, n)} ::
         db(Statement(table, Where(conds), cursor, n)) == Take(After(Matching(rows, conds), rank, cursor), n)
  }

  // ----- Following the cursors

  datatype Visit = Visit(items: seq<Row>, fetches: nat, finished: bool)

  /** The items of the pages from `cursor` on, each page filtered by the policy, for at most `budget`
    * fetches. */
  function Follow(db: Database, table: string, where: seq<Piece>, limit: nat, allowed: Row -> bool,
                  cursor: Option<string>, budget: nat): Visit
    decreases budget
  {
    if budget == 0 then Visit([], 0, false)
    else
      var page := PageOf(db, table, where, cursor, limit);
      var items := Keep(page.items, allowed);
      if page.next.None? then Visit(items, 1, true)
      else
        var rest := Follow(db, table, where, limit, allowed, page.next, budget - 1);
        Visit(items + rest.items, rest.fetches + 1, rest.finished)
  }

  /** The policy's answer for each row. */
  function Mask(rows: seq<Row>, allowed: Row -> bool): (mask: seq<bool>)
    ensures |mask| == |rows| && forall k :: 0 <= k < |rows| ==> mask[k] == allowed(rows[k])
  {
    seq(|rows|, (k: nat) requires k < |rows| => allowed(rows[k]))
  }

  lemma KeepNext(items: seq<Row>, rows: seq<Row>, i: nat, p: Row -> bool)
    requires i < |rows|
    ensures items + Keep(rows[i..], p) == (if p(rows[i]) then items + [rows[i]] else items) + Keep(rows[i + 1..], p)
  {
    assert rows[i..][1..] == rows[i + 1..];
    if p(rows[i]) {
      assert Keep(rows[i..], p) == [rows[i]] + Keep(rows[i + 1..], p);
    } else {
      assert Keep(rows[i..], p) == [] + Keep(rows[i + 1..], p);
    }
  }

  /** `list` and `list_relation` behind the fetch: the policy's mask is applied to the page whose cursor
    * is already chosen. */
  method MaskPage(page: Page, allowed: Row -> bool) returns (visible: Page)
    ensures visible == Page(Keep(page.items, allowed), page.next)
  {
    var rows := page.items;
    var mask := Mask(rows, allowed);
    var items: seq<Row> := [];
    for i := 0 to |rows|
      invariant items + Keep(rows[i..], allowed) == Keep(rows, allowed)
    {
      hide Mask, Keep, KeepOne;
      KeepNext(items, rows, i, allowed);
      if mask[i] {
        items := items + [rows[i]];
      }
    }
    visible := Page(items, page.next);
  }

  lemma {:induction false} KeepJoin(a: seq<Row>, b: seq<Row>, p: Row -> bool)
    ensures Keep(a + b, p) == Keep(a, p) + Keep(b, p)
  {
    hide KeepOne;
    if a == [] {
      assert a + b == b;
    } else {
      KeepJoin(a[1..], b, p);
      assert (a + b)[1..] == a[1..] + b && (a + b)[0] == a[0];
      hide Keep;
      assert KeepOne(a[0], p) + (Keep(a[1..], p) + Keep(b, p)) == (KeepOne(a[0], p) + Keep(a[1..], p)) + Keep(b, p);
    }
  }

  lemma {:induction false} KeepMembers(rows: seq<Row>, p: Row -> bool)
    ensures forall r :: r in Keep(rows, p) ==> r in rows && p(r)
  {
    if rows != [] {
      KeepMembers(rows[1..], p);
    }
  }

  /** Row 0 ranks below whatever is kept of the rest. */
  lemma KeptAbove(rows: seq<Row>, rank: Rank, p: Row -> bool, r: Row)
    requires Ordered(rows, rank) && rows != [] && r in Keep(rows[1..], p)
    ensures rank(rows[0].id) < rank(r.id)
  {
    hide Keep;
    KeepMembers(rows[1..], p);
    var m :| 0 <= m < |rows[1..]| && rows[1..][m] == r;
    assert rows[m + 1] == r;
  }

  lemma {:induction false} KeepOrdered(rows: seq<Row>, rank: Rank, p: Row -> bool)
    requires Ordered(rows, rank)
    ensures Ordered(Keep(rows, p), rank)
  {
    if rows != [] {
      assert Ordered(rows[1..], rank);
      hide Ordered;
      KeepOrdered(rows[1..], rank, p);
      var rest := Keep(rows[1..], p);
      if p(rows[0]) {
        forall j | 0 <= j < |rest| ensures rank(rows[0].id) < rank(rest[j].id) {
          KeptAbove(rows, rank, p, rest[j]);
        }
        FirstBelow(rows[0], rest, rank);
      } else {
        assert [] + rest == rest;
      }
    }
  }

  lemma FirstBelow(r: Row, rest: seq<Row>, rank: Rank)
    requires Ordered(rest, rank)
    requires forall j :: 0 <= j < |rest| ==> rank(r.id) < rank(rest[j].id)
    ensures Ordered([r] + rest, rank)
  {
    var all := [r] + rest;
    forall i, j | 0 <= i < j < |all| ensures rank(all[i].id) < rank(all[j].id) {
      assert all[j] == rest[j - 1];
      if i > 0 {
        assert all[i] == rest[i - 1];
      }
    }
  }

  /** Behind row `k` come the rows after it. */
  lemma {:induction false} AfterRow(rows: seq<Row>, rank: Rank, k: nat)
    requires Ordered(rows, rank) && k < |rows|
    ensures After(rows, rank, Some(rows[k].id)) == rows[k + 1..]
    decreases |rows|
  {
    if k == 0 {
      AfterFirst(rows, rank);
    } else {
      assert rank(rows[0].id) < rank(rows[k].id);
      RowsBehind(rows, rank, k);
      AfterRow(rows[1..], rank, k - 1);
    }
  }

  lemma AfterFirst(rows: seq<Row>, rank: Rank)
    requires Ordered(rows, rank) && rows != []
    ensures After(rows, rank, Some(rows[0].id)) == rows[1..]
  {
    var rest := rows[1..];
    assert rest != [] ==> rank(rows[0].id) < rank(rest[0].id);
    assert After(rest, rank, Some(rows[0].id)) == rest;
  }

  lemma RowsBehind(rows: seq<Row>, rank: Rank, k: nat)
    requires Ordered(rows, rank) && 0 < k < |rows|
    ensures Ordered(rows[1..], rank) && rows[1..][k - 1] == rows[k] && rows[1..][k..] == rows[k + 1..]
  {
  }

  /** How many full pages `n` rows make. */
  function FullPages(n: nat, size: nat): (k: nat)
    requires size >= 1
    ensures k <= n
  {
    if n < size then 0 else 1 + FullPages(n - size, size)
  }

  lemma PageSizePositive(limit: nat)
    requires limit >= 1
    ensures PageSize(limit) >= 1
  {
  }

  lemma CountPage(left: nat, size: nat)
    requires size >= 1
    ensures FullPages(left, size) == if left < size then 0 else 1 + FullPages(left - size, size)
  {
  }

  lemma {:induction false} PagesFit(n: nat, size: nat)
    requires size >= 1
    ensures FullPages(n, size) * size <= n < (FullPages(n, size) + 1) * size
  {
    if n >= size {
      PagesFit(n - size, size);
    }
  }

  function RowsAt(db: Database, table: string, where: seq<Piece>, cursor: Option<string>, n: nat): seq<Row> {
    db(Statement(table, where, cursor, n))
  }

  lemma PageFrom(db: Database, table: string, where: seq<Piece>, cursor: Option<string>, limit: nat)
    ensures
      var items := RowsAt(db, table, where, cursor, PageSize(limit));
      PageOf(db, table, where, cursor, limit) ==
      Page(items, if |items| == PageSize(limit) && items != [] then Some(items[|items| - 1].id) else None)
  {
    hide Statement, PageSize;
  }

  lemma AfterPage(all: seq<Row>, rank: Rank, end: nat)
    requires Ordered(all, rank) && 1 <= end <= |all|
    ensures After(all, rank, Some(all[end - 1].id)) == all[end..]
  {
    hide Ordered, After;
    AfterRow(all, rank, end - 1);
    assert all[end - 1 + 1..] == all[end..];
  }

  lemma SliceEnds(all: seq<Row>, lo: nat, hi: nat)
    requires lo < hi <= |all|
    ensures |all[lo..hi]| == hi - lo && all[lo..hi][hi - lo - 1] == all[hi - 1]
  {
  }

  lemma ServedRows(db: Database, table: string, rows: seq<Row>, rank: Rank, conds: seq<Condition>,
                   cursor: Option<string>, n: nat)
    requires Serves(db, table, rows, rank, conds)
    ensures RowsAt(db, table, Where(conds), cursor, n) == Take(After(Matching(rows, conds), rank, cursor), n)
    ensures Ordered(rows, rank)
  {
    hide Matching, Where, Statement, Ordered, After;
  }

  lemma TakeFrom(all: seq<Row>, done: nat, n: nat)
    requires done <= |all|
    ensures done + n <= |all| ==> Take(all[done..], n) == all[done..done + n]
    ensures done + n > |all| ==> Take(all[done..], n) == all[done..]
  {
    if done + n <= |all| {
      assert all[done..][..n] == all[done..done + n];
    }
  }

  /** The page when `done` rows are behind the cursor. */
  lemma PageIs(db: Database, table: string, rows: seq<Row>, rank: Rank, conds: seq<Condition>, limit: nat,
               cursor: Option<string>, done: nat)
    requires Serves(db, table, rows, rank, conds) && limit >= 1
    requires done <= |Matching(rows, conds)|
    requires After(Matching(rows, conds), rank, cursor) == Matching(rows, conds)[done..]
    ensures
      var all := Matching(rows, conds);
      var page := PageOf(db, table, Where(conds), cursor, limit);
      var end := done + PageSize(limit);
      if end <= |all| then
        && page == Page(all[done..end], Some(all[end - 1].id))
        && After(all, rank, Some(all[end - 1].id)) == all[end..]
      else page == Page(all[done..], None)
  {
    hide Matching, Where, Ordered, After, Serves, PageOf, RowsAt, Take;
    var all := Matching(rows, conds);
    var end := done + PageSize(limit);
    ServedRows(db, table, rows, rank, conds, cursor, PageSize(limit));
    TakeFrom(all, done, PageSize(limit));
    PageFrom(db, table, Where(conds), cursor, limit);
    if end <= |all| {
      SliceEnds(all, done, end);
      MatchingOrdered(rows, rank, conds);
      AfterPage(all, rank, end);
    }
  }

  lemma FollowStep(db: Database, table: string, where: seq<Piece>, limit: nat, allowed: Row -> bool,
                   cursor: Option<string>, budget: nat)
    requires budget > 0
    ensures
      var page := PageOf(db, table, where, cursor, limit);
      var visit := Follow(db, table, where, limit, allowed, cursor, budget);
      if page.next.None? then visit == Visit(Keep(page.items, allowed), 1, true)
      else
        var rest := Follow(db, table, where, limit, allowed, page.next, budget - 1);
        visit == Visit(Keep(page.items, allowed) + rest.items, rest.fetches + 1, rest.finished)
  {
    hide PageOf, Keep;
  }

  lemma {:induction false} FollowRest(db: Database, table: string, rows: seq<Row>, rank: Rank, conds: seq<Condition>,
                                      limit: nat, allowed: Row -> bool, cursor: Option<string>, done: nat, budget: nat)
    requires Serves(db, table, rows, rank, conds) && limit >= 1
    requires done <= |Matching(rows, conds)|
    requires After(Matching(rows, conds), rank, cursor) == Matching(rows, conds)[done..]
    requires budget > FullPages(|Matching(rows, conds)| - done, PageSize(limit))
    ensures
      var visit := Follow(db, table, Where(conds), limit, allowed, cursor, budget);
      && visit.finished && visit.items == Keep(Matching(rows, conds)[done..], allowed)
      && visit.fetches == FullPages(|Matching(rows, conds)| - done, PageSize(limit)) + 1
    decreases budget
  {
    hide Matching, Where, Keep, Statement, Serves, After, PageOf, FullPages, PageSize, Follow;
    FollowStep(db, table, Where(conds), limit, allowed, cursor, budget);
    PageSizePositive(limit);
    CountPage(|Matching(rows, conds)| - done, PageSize(limit));
    var all := Matching(rows, conds);
    var end := done + PageSize(limit);
    PageIs(db, table, rows, rank, conds, limit, cursor, done);
    var page := PageOf(db, table, Where(conds), cursor, limit);
    if end <= |all| {
      FollowRest(db, table, rows, rank, conds, limit, allowed, page.next, end, budget - 1);
      assert all[done..] == all[done..end] + all[end..];
      KeepJoin(all[done..end], all[end..], allowed);
    }
  }

  lemma MatchingOrdered(rows: seq<Row>, rank: Rank, conds: seq<Condition>)
    requires Ordered(rows, rank)
    ensures Ordered(Matching(rows, conds), rank)
  {
    KeepOrdered(rows, rank, (r: Row) => RowMatches(r, conds));
  }

  /** Following the cursors from the start until there is none visits every row that matches the filter
    * and passes the policy exactly once, in id order, although the policy looks at each page only after
    * its cursor is chosen; and it takes one fetch for each full page and one more. */
  lemma FollowVisitsAll(db: Database, table: string, rows: seq<Row>, rank: Rank, conds: seq<Condition>, limit: nat,
                        allowed: Row -> bool, budget: nat)
    requires Serves(db, table, rows, rank, conds) && limit >= 1
    requires budget > |Matching(rows, conds)|
    ensures
      var visit := Follow(db, table, Where(conds), limit, allowed, None, budget);
      && visit.finished && visit.items == Keep(Matching(rows, conds), allowed)
      && (visit.fetches - 1) * PageSize(limit) <= |Matching(rows, conds)| < visit.fetches * PageSize(limit)
      && Ordered(visit.items, rank)
      && (forall r :: r in visit.items <==> r in rows && RowMatches(r, conds) && allowed(r))
  {
    hide Keep, Where, Statement, Follow, RowMatches;
    var all := Matching(rows, conds);
    assert all[0..] == all;
    PagesFit(|all|, PageSize(limit));
    FollowRest(db, table, rows, rank, conds, limit, allowed, None, 0, budget);
    MatchingOrdered(rows, rank, conds);
    KeepOrdered(all, rank, allowed);
    KeepExactly(rows, (r: Row) => RowMatches(r, conds));
    KeepExactly(all, allowed);
  }

  lemma {:induction false} KeepExactly(rows: seq<Row>, p: Row -> bool)
    ensures forall r :: r in Keep(rows, p) <==> r in rows && p(r)
  {
    if rows != [] {
      KeepExactly(rows[1..], p);
      assert rows == [rows[0]] + rows[1..];
    }
  }
}
