/** What the page statement says, read from its text: a reader for the statements the engine builds, the database
  * that runs them on a table, and that it is one of those the paging results are about. */
module KeysetSql {
  import opened Wrappers
  import opened KeysetPaging
  import FilterDsl
  import Text

  /** The columns compared for equality with the texts they must have, the id to start behind, the number of rows. */
  datatype Query = Query(equal: seq<(string, string)>, behind: Option<string>, limit: nat)

  /** The column of `column = ` or `column::text = `. */
  function ColumnOf(sql: string): Option<string> {
    if |sql| >= 9 && sql[|sql| - 9..] == "::text = " then Some(sql[..|sql| - 9])
    else if |sql| >= 3 && sql[|sql| - 3..] == " = " then Some(sql[..|sql| - 3])
    else None
  }

  /** The conditions one after the other, then order and limit. */
  function ReadWhere(ps: seq<Piece>, equal: seq<(string, string)>, behind: Option<string>): Option<Query> {
    if ps == [] || !ps[0].Sql? then None
    else if ps[0].s == " AND " then ReadWhere(ps[1..], equal, behind)
    else if |ps| < 2 || !ps[1].Value? then None
    else if ps[0].s == " ORDER BY id ASC LIMIT " then
      if |ps| == 2 && ps[1].v.Num? then Some(Query(equal, behind, ps[1].v.n)) else None
    else if !ps[1].v.Str? then None
    else if ps[0].s == " AND id > " then ReadWhere(ps[2..], equal, Some(ps[1].v.s))
    else
      match ColumnOf(ps[0].s)
      case Some(column) => ReadWhere(ps[2..], equal + [(column, ps[1].v.s)], behind)
      case None => None
  }

  function ReadStatement(table: string, ps: seq<Piece>): Option<Query> {
    if ps != [] && ps[0] == Sql("SELECT id::text AS id, title, body, created_at, metadata FROM " + table + " WHERE 1=1")
    then ReadWhere(ps[1..], [], None)
    else None
  }

  predicate HasAll(row: Row, equal: seq<(string, string)>) {
    forall c | c in equal :: c.0 in row.columns && row.columns[c.0] == c.1
  }

  function Select(rows: seq<Row>, rank: Rank, q: Query): seq<Row> {
    if rows == [] then []
    else
      (if HasAll(rows[0], q.equal) && (q.behind.Some? ==> rank(rows[0].id) > rank(q.behind.value)) then [rows[0]] else [])
      + Select(rows[1..], rank, q)
  }

  /** A database with one ordered table. */
  function SqlDatabase(table: string, rows: seq<Row>, rank: Rank): Database {
    (ps: seq<Piece>) =>
      match ReadStatement(table, ps)
      case Some(q) => Take(Select(rows, rank, q), q.limit)
      case None => []
  }

  // ----- The statements are read as they are meant

  function Pairs(conds: seq<Condition>): seq<(string, string)> {
    if conds == [] then [] else [(conds[0].column, conds[0].value)] + Pairs(conds[1..])
  }

  predicate SafeColumns(conds: seq<Condition>) {
    forall c | c in conds :: IsSafeIdent(c.column)
  }

  lemma ColumnRead(c: Condition)
    requires IsSafeIdent(c.column)
    ensures ColumnOf(ColumnText(c)) == Some(c.column)
    ensures ColumnText(c) != " AND " && ColumnText(c) != " AND id > " && ColumnText(c) != " ORDER BY id ASC LIMIT "
  {
    var t := ColumnText(c);
    var n := |c.column|;
    assert t[..n] == c.column && Text.IsWord(c.column[0]) && t[0] == c.column[0];
    if c.cast {
      assert t[|t| - 9..] == "::text = ";
    } else {
      assert t[|t| - 3..] == " = ";
      if n + 3 >= 9 {
        assert t[|t| - 9..][0] == t[n - 6] == c.column[n - 6];
        assert Text.IsWord(c.column[n - 6]);
      }
    }
  }

  lemma ClauseRead(c: Condition, rest: seq<Piece>, equal: seq<(string, string)>)
    requires IsSafeIdent(c.column)
    ensures ReadWhere(ClausePieces(c) + rest, equal, None) == ReadWhere(rest, equal + [(c.column, c.value)], None)
  {
    ColumnRead(c);
    hide ColumnText, ColumnOf, IsSafeIdent;
    var ps := ClausePieces(c) + rest;
    assert ps[2..] == rest;
  }

  lemma AndRead(ps: seq<Piece>, equal: seq<(string, string)>)
    ensures ReadWhere([Sql(" AND ")] + ps, equal, None) == ReadWhere(ps, equal, None)
  {
    assert ([Sql(" AND ")] + ps)[1..] == ps;
  }

  lemma {:induction false} WhereRead(conds: seq<Condition>, rest: seq<Piece>, equal: seq<(string, string)>)
    requires SafeColumns(conds)
    ensures ReadWhere(Where(conds) + rest, equal, None) == ReadWhere(rest, equal + Pairs(conds), None)
    decreases |conds|
  {
    hide ReadWhere, IsSafeIdent, ClausePieces;
    if conds == [] {
      assert Where(conds) + rest == rest && equal + Pairs(conds) == equal;
    } else {
      assert conds[0] in conds && forall c :: c in conds[1..] ==> c in conds;
      if |conds| == 1 {
        assert conds[1..] == [];
        assert Pairs(conds) == [(conds[0].column, conds[0].value)];
        ClauseRead(conds[0], rest, equal);
      } else {
        var more := Where(conds[1..]) + rest;
        var equal' := equal + [(conds[0].column, conds[0].value)];
        assert Where(conds) + rest == ClausePieces(conds[0]) + ([Sql(" AND ")] + more);
        ClauseRead(conds[0], [Sql(" AND ")] + more, equal);
        AndRead(more, equal');
        WhereRead(conds[1..], rest, equal');
        assert equal' + Pairs(conds[1..]) == equal + Pairs(conds);
      }
    }
  }

  lemma TailRead(equal: seq<(string, string)>, cursor: Option<string>, n: nat)
    ensures
      var tail := (if cursor.None? then [] else [Sql(" AND id > "), Value(Str(cursor.value))])
                  + [Sql(" ORDER BY id ASC LIMIT "), Value(Num(n))];
      ReadWhere(tail, equal, None) == Some(Query(equal, cursor, n))
  {
    var end := [Sql(" ORDER BY id ASC LIMIT "), Value(Num(n))];
    assert ReadWhere(end, equal, cursor) == Some(Query(equal, cursor, n));
    if cursor.Some? {
      var tail := [Sql(" AND id > "), Value(Str(cursor.value))] + end;
      assert tail[2..] == end;
    } else {
      assert [] + end == end;
    }
  }

  /** The statement of a page asks for the rows that have every facet value, behind the cursor, in order of id, and
    * for so many of them. */
  lemma StatementRead(table: string, conds: seq<Condition>, cursor: Option<string>, n: nat)
    requires SafeColumns(conds)
    ensures ReadStatement(table, Statement(table, Where(conds), cursor, n)) == Some(Query(Pairs(conds), cursor, n))
  {
    hide ReadWhere, SafeColumns, Where;
    var tail := (if cursor.None? then [] else [Sql(" AND id > "), Value(Str(cursor.value))])
                + [Sql(" ORDER BY id ASC LIMIT "), Value(Num(n))];
    var where := Where(conds);
    var ps := Statement(table, where, cursor, n);
    TailRead(Pairs(conds), cursor, n);
    WhereRead(conds, tail, []);
    assert [] + Pairs(conds) == Pairs(conds);
    if where == [] {
      assert ps[1..] == where + tail;
    } else {
      assert ps[1..] == [Sql(" AND ")] + (where + tail);
      AndRead(where + tail, []);
    }
    HeadRead(table, where, cursor, n);
  }

  lemma HeadRead(table: string, where: seq<Piece>, cursor: Option<string>, n: nat)
    ensures Statement(table, where, cursor, n)[0] ==
            Sql("SELECT id::text AS id, title, body, created_at, metadata FROM " + table + " WHERE 1=1")
  {
  }

  // ----- The rows

  lemma {:induction false} PairsMatch(row: Row, conds: seq<Condition>)
    ensures HasAll(row, Pairs(conds)) <==> RowMatches(row, conds)
  {
    if conds == [] {
      NothingAsked(row);
    } else {
      PairsMatch(row, conds[1..]);
      assert conds == [conds[0]] + conds[1..];
      MatchesFirst(row, conds[0], conds[1..]);
      hide RowMatches;
      var first := (conds[0].column, conds[0].value);
      assert forall c :: c in Pairs(conds) <==> c == first || c in Pairs(conds[1..]);
      OneMatches(row, conds[0]);
    }
  }

  lemma OneMatches(row: Row, c: Condition)
    ensures RowMatches(row, [c]) <==> c.column in row.columns && row.columns[c.column] == c.value
  {
    assert [c][0] == c;
  }

  lemma BehindNone(rows: seq<Row>, rank: Rank, cursor: Option<string>)
    requires Ordered(rows, rank) && rows != []
    requires cursor.None? || rank(rows[0].id) > rank(cursor.value)
    ensures forall r | r in rows :: cursor.Some? ==> rank(r.id) > rank(cursor.value)
  {
    forall r | r in rows ensures cursor.Some? ==> rank(r.id) > rank(cursor.value) {
      var k :| 0 <= k < |rows| && rows[k] == r;
    }
  }

  lemma {:induction false} SelectAll(rows: seq<Row>, rank: Rank, conds: seq<Condition>, cursor: Option<string>, n: nat)
    requires forall r | r in rows :: cursor.Some? ==> rank(r.id) > rank(cursor.value)
    ensures Select(rows, rank, Query(Pairs(conds), cursor, n)) == Matching(rows, conds)
  {
    hide HasAll, RowMatches;
    if rows != [] {
      assert rows[0] in rows && forall r :: r in rows[1..] ==> r in rows;
      PairsMatch(rows[0], conds);
      SelectAll(rows[1..], rank, conds, cursor, n);
    }
  }

  lemma MatchingFirst(rows: seq<Row>, conds: seq<Condition>)
    requires rows != []
    ensures Matching(rows, conds) ==
            (if RowMatches(rows[0], conds) then [rows[0]] else []) + Matching(rows[1..], conds)
  {
    hide RowMatches;
  }

  lemma OrderedTail(rows: seq<Row>, rank: Rank)
    requires Ordered(rows, rank) && rows != []
    ensures Ordered(rows[1..], rank)
  {
  }

  lemma AfterSkips(row: Row, rest: seq<Row>, rank: Rank, cursor: Option<string>)
    requires cursor.Some? && rank(row.id) <= rank(cursor.value)
    ensures After([row] + rest, rank, cursor) == After(rest, rank, cursor)
  {
    var all := [row] + rest;
    assert all[0] == row && all[1..] == rest;
    assert After(all, rank, cursor) == After(all[1..], rank, cursor);
  }

  /** Selecting behind the cursor is skipping to it among the rows that match. */
  lemma {:induction false} SelectIsAfter(rows: seq<Row>, rank: Rank, conds: seq<Condition>, cursor: Option<string>, n: nat)
    requires Ordered(rows, rank)
    ensures Select(rows, rank, Query(Pairs(conds), cursor, n)) == After(Matching(rows, conds), rank, cursor)
  {
    hide HasAll, RowMatches, Ordered, Matching, After;
    if rows == [] {
      NothingLeft(rank, conds, cursor);
    } else if cursor.None? || rank(rows[0].id) > rank(cursor.value) {
      BehindNone(rows, rank, cursor);
      SelectAll(rows, rank, conds, cursor, n);
      AfterAll(Matching(rows, conds), rank, cursor, rows, conds);
    } else {
      OrderedTail(rows, rank);
      SelectIsAfter(rows[1..], rank, conds, cursor, n);
      MatchingFirst(rows, conds);
      var rest := Matching(rows[1..], conds);
      AfterSkips(rows[0], rest, rank, cursor);
      assert [] + rest == rest;
    }
  }

  lemma NothingLeft(rank: Rank, conds: seq<Condition>, cursor: Option<string>)
    ensures After(Matching([], conds), rank, cursor) == []
  {
  }

  lemma AfterAll(found: seq<Row>, rank: Rank, cursor: Option<string>, rows: seq<Row>, conds: seq<Condition>)
    requires found == Matching(rows, conds)
    requires forall r | r in rows :: cursor.Some? ==> rank(r.id) > rank(cursor.value)
    ensures After(found, rank, cursor) == found
  {
    hide RowMatches;
    KeepExactly(rows, (r: Row) => RowMatches(r, conds));
    if found != [] {
      assert found[0] in found;
    }
  }

  /** The database that runs the statements by their text serves them: the paging results hold of it, for every ordered
    * table and every filter on declared, safe columns. */
  lemma DatabaseServes(table: string, rows: seq<Row>, rank: Rank, conds: seq<Condition>)
    requires Ordered(rows, rank) && SafeColumns(conds)
    ensures Serves(SqlDatabase(table, rows, rank), table, rows, rank, conds)
  {
    hide Statement, Where, ReadStatement, Select, After, Matching, SafeColumns, Take;
    forall cursor: Option<string>, n: nat
      ensures SqlDatabase(table, rows, rank)(Statement(table, Where(conds), cursor, n)) ==
              Take(After(Matching(rows, conds), rank, cursor), n)
    {
      StatementRead(table, conds, cursor, n);
      SelectIsAfter(rows, rank, conds, cursor, n);
    }
  }

  /** A page of that database: the next rows that match, at most `limit` and at most 1000 of them. */
  lemma PageHolds(table: string, rows: seq<Row>, rank: Rank, conds: seq<Condition>, cursor: Option<string>, limit: nat)
    requires Ordered(rows, rank) && SafeColumns(conds)
    ensures
      var page := PageOf(SqlDatabase(table, rows, rank), table, Where(conds), cursor, limit);
      var next := Select(rows, rank, Query(Pairs(conds), cursor, 0));
      page.items == if |next| <= limit && |next| <= 1000 then next else next[..if limit <= 1000 then limit else 1000]
  {
    hide Statement, Where, ReadStatement, Select, After, Matching, SafeColumns;
    StatementRead(table, conds, cursor, PageSize(limit));
    SelectIsAfter(rows, rank, conds, cursor, PageSize(limit));
    SelectIsAfter(rows, rank, conds, cursor, 0);
  }

  /** The conditions of a filter name safe columns. */
  lemma {:induction false} FilterIsSafe(text: NumberText, facets: seq<string>, fields: map<string, FilterDsl.Json>,
                                        keys: seq<string>)
    ensures SafeColumns(ConditionsOf(text, facets, fields, keys))
  {
    hide IsSafeIdent, BoolText;
    if keys != [] {
      FilterIsSafe(text, facets, fields, keys[1..]);
    }
  }
}
