/**
 * The `mysql` module on the definitions its unit tests use: a three-line SQL array with a
 * two-column `COL_MAP`, the request and global parameters, and the BIT type cast.
 */
module MysqlExamples {
  import opened Wrappers
  import opened JsString
  import opened Js
  import opened Mysql

  const Line1: string := "SELECT " + ColMapPlaceholder
  const Line2: string := "FROM TEST t"
  const Where: string := "WHERE t.ID = "
  const Line3: string := Where + ":id;"
  const SqlLines: Value := Arr([Str(Line1), Str(Line2), Str(Line3)])

  const ColMap: Value := Obj([Prop("DB_COL_1", Str("dbCol1")), Prop("DB_COL_2", Str("DB_COL_2"))])
  const Columns: string := ("DB_COL_1" + " as " + "dbCol1") + ", " + ("DB_COL_2" + " as " + "DB_COL_2")

  /** What follows the column list. */
  const Rest: string := " " + (Line2 + " " + Line3)
  const SqlStatement: string := "SELECT " + Columns + Rest

  /** The part of the statement before its only placeholder, `:id`. */
  const Head: string := "SELECT " + Columns + " " + Line2 + " " + Where

  /** A two-column map gives `k1 as v1, k2 as v2`. */
  lemma TwoColumns(k1: string, v1: string, k2: string, v2: string)
    requires k1 != k2
    ensures ColumnStatement(Obj([Prop(k1, Str(v1)), Prop(k2, Str(v2))]))
         == (k1 + " as " + v1) + ", " + (k2 + " as " + v2)
  {
    var props := [Prop(k1, Str(v1)), Prop(k2, Str(v2))];
    GetFirst(props, 0, k1);
    GetFirst(props, 1, k2);
    assert Keys(Obj(props)) == [k1, k2];
    var pairs := ColumnPairs(Obj(props));
    assert pairs[0] == k1 + " as " + v1;
    assert pairs[1] == k2 + " as " + v2;
    assert Join(pairs, ", ") == pairs[0] + ", " + Join(pairs[1..], ", ");
    assert pairs[1..] == [pairs[1]];
  }

  /** A placeholder right after a `:`-free head is the first occurrence. */
  lemma FirstAfterColonFree(head: string, p: string, rest: string)
    requires ':' !in head && |p| > 0 && p[0] == ':'
    ensures OccursAt(head + p + rest, p, |head|)
    ensures forall k :: 0 <= k < |head| ==> !OccursAt(head + p + rest, p, k)
  {
    var s := head + p + rest;
    assert s[|head|..|head| + |p|] == p;
    forall k | 0 <= k < |head| ensures !OccursAt(s, p, k) {
      assert s[k] == head[k];
      if k + |p| <= |s| {
        assert s[k..k + |p|][0] == s[k];
      }
    }
  }

  lemma JoinThree(a: string, b: string, c: string, sep: string)
    ensures Join([a, b, c], sep) == a + sep + (b + sep + c)
  {
    assert [a, b, c][1..] == [b, c] && [b, c][1..] == [c];
    assert Join([b, c], sep) == b + sep + c;
  }

  /** Three lines joined with single spaces. */
  lemma LinesJoined(a: string, b: string, c: string)
    ensures SqlText(Arr([Str(a), Str(b), Str(c)])) == Str(a + (" " + (b + " " + c)))
  {
    JoinStrings([Str(a), Str(b), Str(c)], [a, b, c], " ");
    JoinThree(a, b, c, " ");
  }

  /** `:COL_MAP` right after `SELECT ` takes the column list. */
  lemma ColumnsAfterSelect(rest: string, colMap: Value)
    requires colMap.Obj? && '$' !in ColumnStatement(colMap)
    ensures ColumnsReplaced(Str("SELECT " + ColMapPlaceholder + rest), colMap)
         == Ok(Str("SELECT " + ColumnStatement(colMap) + rest))
  {
    var sql := "SELECT " + ColMapPlaceholder + rest;
    FirstAfterColonFree("SELECT ", ColMapPlaceholder, rest);
    ColumnsReplacedAt(sql, colMap, 7);
    assert sql[..7] == "SELECT ";
    assert sql[7 + |ColMapPlaceholder|..] == rest;
  }

  lemma SqlLinesJoined()
    ensures SqlText(SqlLines) == Str("SELECT " + ColMapPlaceholder + Rest)
  {
    LinesJoined(Line1, Line2, Line3);
  }

  lemma ColMapStatement()
    ensures ColumnStatement(ColMap) == Columns
    ensures '$' !in Columns
  {
    TwoColumns("DB_COL_1", "dbCol1", "DB_COL_2", "DB_COL_2");
    NoDollarInColumns();
  }

  lemma NoDollarInColumns()
    ensures '$' !in Columns
  {
    var first := "DB_COL_1" + " as " + "dbCol1";
    var second := "DB_COL_2" + " as " + "DB_COL_2";
    NotInConcat('$', "DB_COL_1", " as ");
    NotInConcat('$', "DB_COL_1" + " as ", "dbCol1");
    NotInConcat('$', "DB_COL_2", " as ");
    NotInConcat('$', "DB_COL_2" + " as ", "DB_COL_2");
    NotInConcat('$', first, ", ");
    NotInConcat('$', first + ", ", second);
  }

  /** The test's SQL array with the test's column map becomes the expected statement. */
  lemma ColumnsExample()
    ensures ColumnsReplaced(SqlText(SqlLines), ColMap) == Ok(Str(SqlStatement))
  {
    SqlLinesJoined();
    ColMapStatement();
    ColumnsAfterSelect(Rest, ColMap);
  }

  const OperationProps: seq<Prop> :=
    [Prop("singleRecord", Bool(true)), Prop("SQL", SqlLines), Prop("COL_MAP", ColMap), Prop("NOTES", Str(""))]

  lemma OperationFields()
    ensures Get(Obj(OperationProps), "SQL") == SqlLines
    ensures Get(Obj(OperationProps), "COL_MAP") == ColMap
    ensures Get(Obj(OperationProps), "singleRecord") == Bool(true)
  {
    GetFirst(OperationProps, 0, "singleRecord");
    GetFirst(OperationProps, 1, "SQL");
    GetFirst(OperationProps, 2, "COL_MAP");
  }

  /** The tests' operation, defined at the top level, prepares the expected statement. */
  lemma GetAsyncFnExample(globals: Value)
    ensures GetAsyncFnAsWritten(Obj(OperationProps), Undefined, globals)
         == Ok(MysqlFn(Str(SqlStatement), Bool(true), globals))
  {
    OperationFields();
    ColumnsExample();
  }

  /** The request's params win; without them the global params are used. */
  lemma ParamsExample(sql: Value, id: Value, globalParams: Value)
    requires Truthy(globalParams)
    ensures Invoke(MysqlFn(sql, Bool(true), Obj([Prop("params", globalParams)])),
                   Obj([Prop("params", Obj([Prop("id", id)]))]))
         == Query(sql, Obj([Prop("id", id)]))
    ensures Invoke(MysqlFn(sql, Bool(true), Obj([Prop("params", globalParams)])), Undefined)
         == Query(sql, globalParams)
    ensures Invoke(MysqlFn(sql, Bool(true), EmptyObject), Undefined) == Query(sql, Undefined)
  {
    GetFirst([Prop("params", globalParams)], 0, "params");
    GetFirst([Prop("params", Obj([Prop("id", id)]))], 0, "params");
  }

  /** A query with one token between `:`-free text: the token alone is substituted. */
  lemma FormatOneToken(head: string, key: string, tail: string, values: Value, escape: Value -> string)
    requires ':' !in head && ':' !in tail
    requires |key| > 0 && forall k :: 0 <= k < |key| ==> IsWordChar(key[k])
    requires |tail| == 0 || !IsWordChar(tail[0])
    ensures FormatTokens(head + ":" + key + tail, values, escape)
         == head + (if HasOwn(values, key) then escape(Get(values, key)) else ":" + key) + tail
  {
    var token := ":" + key;
    var x := if HasOwn(values, key) then escape(Get(values, key)) else token;
    ConcatAssoc(head, ":", key);
    ConcatAssoc(head, token, tail);
    FormatColonFreeHead(head, token + tail, values, escape);
    FormatToken(key, tail, values, escape);
    FormatNoColon(tail, values, escape);
    ConcatAssoc(head, x, tail);
  }

  lemma Regroup(a: string, b: string, c: string)
    ensures a + (" " + (b + " " + (c + ":id;"))) == a + " " + b + " " + c + ":" + "id" + ";"
  {
  }

  lemma HeadColonFree()
    ensures ':' !in Head && SqlStatement == Head + ":" + "id" + ";"
  {
    Regroup("SELECT " + Columns, Line2, Where);
  }

  /** The `:id` token of a query takes the escaped `id` value. */
  lemma FormatId(head: string, id: Value, escape: Value -> string)
    requires ':' !in head
    ensures QueryFormat(head + ":" + "id" + ";", Obj([Prop("id", id)]), escape) == head + escape(id) + ";"
  {
    var values := Obj([Prop("id", id)]);
    GetFirst(values.props, 0, "id");
    FormatOneToken(head, "id", ";", values, escape);
  }

  /** `queryFormat` with `{id: 1}` and an escape that returns its argument; with `{}` and `undefined` the statement is kept. */
  lemma QueryFormatExample()
    ensures QueryFormat(SqlStatement, Obj([Prop("id", Num(1))]), v => ToStr(v)) == Head + "1" + ";"
    ensures QueryFormat(SqlStatement, EmptyObject, v => ToStr(v)) == SqlStatement
    ensures QueryFormat(SqlStatement, Undefined, v => ToStr(v)) == SqlStatement
  {
    var escape: Value -> string := v => ToStr(v);
    HeadColonFree();
    FormatId(Head, Num(1), escape);
    QueryFormatNoOwnKeys(SqlStatement, EmptyObject, escape);
  }

  /** One row is the record; none or several give `{}`; without `singleRecord` the rows pass through. */
  lemma SettleExample(sql: Value, row: Value, other: Value)
    ensures Settle(MysqlFn(sql, Bool(true), EmptyObject), Null, Null, Arr([row])) == Resolved(row)
    ensures Settle(MysqlFn(sql, Bool(true), EmptyObject), Null, Null, Arr([row, other])) == Resolved(EmptyObject)
    ensures Settle(MysqlFn(sql, Bool(false), EmptyObject), Null, Null, Arr([row, other])) == Resolved(Arr([row, other]))
    ensures Settle(MysqlFn(sql, Bool(true), EmptyObject), Null, Str("ER_PARSE_ERROR"), Arr([])) == Rejected(Str("ER_PARSE_ERROR"))
  {
  }

  /** The BIT(1) field whose byte is 1 reads as `true`; an empty array field defers to `next()`. */
  lemma TypeCastExample()
    ensures TypeCast(Field(Num(1), Str("BIT"), Some([1])), Bool(false)) == Ok(Bool(true))
    ensures TypeCast(Field(Num(0), Undefined, Some([])), Bool(false)) == Ok(Bool(false))
  {
  }
}
