/**
 * The SQL text shaping of the `mysql` async module: the pool's `queryFormat` named
 * placeholders and its `typeCast` of BIT columns, the `:COL_MAP` column list, the choice of
 * SQL text, column map and query parameters in `getAsyncFn`, and the single-record shaping
 * of a query's rows. The connection pool itself (connecting, running the query, releasing,
 * ending) is outside the model: its outcomes are parameters.
 */
module Mysql {
  import opened Wrappers
  import opened JsString
  import opened Js

  const ModuleName: string := "mysql"
  const ColMapPlaceholder: string := ":COL_MAP"

  // ----- queryFormat -----

  /**
   * `query.replace(/:(\w+)/g, …)`: scanning left to right, a `:` followed by one or more `\w`
   * characters is a token naming the longest such word; it becomes `escape(values[word])`
   * when `values` has that own property and stays as it is otherwise. `escape` is the
   * connection's escaping function, known here only as a function from values to text.
   */
  function FormatTokens(q: string, values: Value, escape: Value -> string): string
    decreases |q|
  {
    if |q| == 0 then ""
    else
      var n := LeadingWordChars(q[1..]);
      if q[0] == ':' && n > 0 then
        var key := q[1..n + 1];
        (if HasOwn(values, key) then escape(Get(values, key)) else q[..n + 1])
          + FormatTokens(q[n + 1..], values, escape)
      else [q[0]] + FormatTokens(q[1..], values, escape)
  }

  /** The pool's `queryFormat(query, values)`. */
  function QueryFormat(query: string, values: Value, escape: Value -> string): (r: string)
    ensures !Truthy(values) ==> r == query
    ensures Truthy(values) ==> r == FormatTokens(query, values, escape)
  {
    if !Truthy(values) then query else FormatTokens(query, values, escape)
  }

  /** Text without any `:` holds no token and is kept as it is. */
  lemma {:induction false} FormatNoColon(q: string, values: Value, escape: Value -> string)
    requires ':' !in q
    decreases |q|
    ensures FormatTokens(q, values, escape) == q
  {
    if |q| > 0 {
      FormatNoColon(q[1..], values, escape);
      assert q == [q[0]] + q[1..];
    }
  }

  /** A `:`-free head is copied and the scan goes on after it. */
  lemma {:induction false} FormatColonFreeHead(a: string, b: string, values: Value, escape: Value -> string)
    requires ':' !in a
    decreases |a|
    ensures FormatTokens(a + b, values, escape) == a + FormatTokens(b, values, escape)
  {
    if |a| > 0 {
      var q := a + b;
      assert q[0] == a[0] && a[0] in a;
      assert FormatTokens(q, values, escape) == [a[0]] + FormatTokens(q[1..], values, escape);
      assert q[1..] == a[1..] + b;
      FormatColonFreeHead(a[1..], b, values, escape);
      assert a == [a[0]] + a[1..];
    } else {
      assert a + b == b;
    }
  }

  /**
   * One token: `:key` followed by a non-word character (or the end) becomes the escaped
   * value when `values` has `key` as an own property, and is left as it is otherwise.
   */
  lemma FormatToken(key: string, rest: string, values: Value, escape: Value -> string)
    requires |key| > 0 && forall k :: 0 <= k < |key| ==> IsWordChar(key[k])
    requires |rest| == 0 || !IsWordChar(rest[0])
    ensures FormatTokens(":" + key + rest, values, escape)
         == (if HasOwn(values, key) then escape(Get(values, key)) else ":" + key)
            + FormatTokens(rest, values, escape)
  {
    var q := ":" + key + rest;
    assert q[1..] == key + rest;
    if |rest| == 0 {
      assert q[1..] == key;
    } else {
      LeadingWordCharsExact(q[1..], |key|);
    }
    assert q[1..|key| + 1] == key;
    assert q[..|key| + 1] == ":" + key;
    assert q[|key| + 1..] == rest;
  }

  /** Values without own properties (`{}`, an empty array) leave the query as it is. */
  lemma QueryFormatNoOwnKeys(query: string, values: Value, escape: Value -> string)
    requires Keys(values) == []
    ensures QueryFormat(query, values, escape) == query
  {
    FormatNoOwnKeys(query, values, escape);
  }

  /** With no own property in `values`, every token is left as it is. */
  lemma {:induction false} FormatNoOwnKeys(q: string, values: Value, escape: Value -> string)
    requires Keys(values) == []
    decreases |q|
    ensures FormatTokens(q, values, escape) == q
  {
    if |q| > 0 {
      var n := LeadingWordChars(q[1..]);
      if q[0] == ':' && n > 0 {
        FormatNoOwnKeys(q[n + 1..], values, escape);
        assert q == q[..n + 1] + q[n + 1..];
      } else {
        FormatNoOwnKeys(q[1..], values, escape);
        assert q == [q[0]] + q[1..];
      }
    }
  }

  // ----- typeCast -----

  /**
   * What `typeCast` reads from the driver's field description: its `length`, its `type`, and
   * the bytes `field.buffer()` returns (`None` when it returns `null`).
   */
  datatype Field = Field(length: Value, fieldType: Value, buffer: Option<seq<bv8>>)

  /** `buffer.readInt8(0)`: the first byte as a signed 8-bit integer. */
  function ReadInt8(b: seq<bv8>): (r: Result<int>)
    ensures r.Err? <==> |b| == 0
    ensures r.Ok? ==> -128 <= r.value < 128
    ensures r.Ok? ==> (r.value == 1 <==> b[0] == 1)
  {
    if |b| == 0 then Err("RangeError")
    else if b[0] < 128 then Ok(b[0] as int)
    else Ok(b[0] as int - 256)
  }

  /** A BIT(1) column, the database's stand-in for a boolean. */
  predicate IsBitFlag(field: Field)
  {
    field.length == Num(1) && field.fieldType == Str("BIT")
  }

  /**
   * The pool's `typeCast(field, next)`, where `next` is the value the driver's own conversion
   * `next()` gives.
   */
  function TypeCast(field: Field, next: Value): (r: Result<Value>)
    ensures !IsBitFlag(field) ==> r == Ok(next)
    ensures IsBitFlag(field) && field.buffer.None? ==> r == Ok(Null)
    ensures IsBitFlag(field) && field.buffer.Some? && |field.buffer.value| > 0
            ==> r == Ok(Bool(field.buffer.value[0] == 1))
    ensures r.Err? <==> IsBitFlag(field) && field.buffer == Some([])
  {
    if IsBitFlag(field) then
      match field.buffer
      case None => Ok(Null)
      case Some(b) =>
        match ReadInt8(b)
        case Err(e) => Err(e)
        case Ok(n) => Ok(Bool(n == 1))
    else Ok(next)
  }

  // ----- replaceSQLColumns -----

  /** `name + " as " + colMap[name]`. */
  function ColumnPair(colMap: Value, name: string): string
  {
    name + " as " + ToStr(Get(colMap, name))
  }

  /** The `name as alias` piece for each own key of the column map, in key order. */
  function ColumnPairs(colMap: Value): (r: seq<string>)
    ensures |r| == |Keys(colMap)|
    ensures forall i :: 0 <= i < |r| ==> r[i] == ColumnPair(colMap, Keys(colMap)[i])
  {
    var names := Keys(colMap);
    seq(|names|, i requires 0 <= i < |names| => ColumnPair(colMap, names[i]))
  }

  /** The column list that replaces `:COL_MAP`: the pieces separated by `", "`, with no separator after the last. */
  function ColumnStatement(colMap: Value): string
  {
    Join(ColumnPairs(colMap), ", ")
  }

  lemma JoinSnoc(parts: seq<string>, p: string, sep: string)
    decreases |parts|
    ensures Join(parts + [p], sep) == if |parts| == 0 then p else Join(parts, sep) + sep + p
  {
    if |parts| >= 1 {
      assert (parts + [p])[1..] == parts[1..] + [p];
      JoinSnoc(parts[1..], p, sep);
    }
  }

  /** One turn of the loop: the next piece, then the separator unless it was the last. */
  lemma StatementStep(parts: seq<string>, i: nat, sep: string)
    requires i < |parts|
    ensures Join(parts[..i], sep) + (if 0 < i then sep else "") + parts[i] == Join(parts[..i + 1], sep)
  {
    assert parts[..i + 1] == parts[..i] + [parts[i]];
    JoinSnoc(parts[..i], parts[i], sep);
  }

  /** The loop of `replaceSQLColumns` that accumulates the column list. */
  method BuildColumnStatement(colMap: Value) returns (s: string)
    ensures s == ColumnStatement(colMap)
  {
    var names := Keys(colMap);
    ghost var pairs := ColumnPairs(colMap);
    s := "";
    for i := 0 to |names|
      invariant s == Join(pairs[..i], ", ") + (if 0 < i < |names| then ", " else "")
    {
      StatementStep(pairs, i, ", ");
      s := s + ColumnPair(colMap, names[i]);
      s := s + (if i == |names| - 1 then "" else ", ");
    }
    assert pairs[..|names|] == pairs;
  }

  /**
   * What `replaceSQLColumns(sql, colMap)` gives: when `sql` is a string and `typeof colMap` is
   * `"object"`, the first `:COL_MAP` becomes the column list (`Object.keys(null)` throws);
   * otherwise `sql` comes back as it is.
   */
  function ColumnsReplaced(sql: Value, colMap: Value): (r: Result<Value>)
    ensures r.Err? <==> sql.Str? && colMap.Null?
    ensures !(sql.Str? && TypeofObject(colMap)) ==> r == Ok(sql)
    ensures r.Ok? ==> (r.value.Str? <==> sql.Str?)
  {
    if sql.Str? && TypeofObject(colMap) then
      if colMap.Null? then Err(TypeError)
      else Ok(Str(ReplaceFirst(sql.s, ColMapPlaceholder, ColumnStatement(colMap))))
    else Ok(sql)
  }

  /** `replaceSQLColumns`. */
  method ReplaceSqlColumns(sql: Value, colMap: Value) returns (r: Result<Value>)
    ensures r == ColumnsReplaced(sql, colMap)
  {
    if sql.Str? && TypeofObject(colMap) {
      if colMap.Null? {
        return Err(TypeError);
      }
      var colStatement := BuildColumnStatement(colMap);
      r := Ok(Str(ReplaceFirst(sql.s, ColMapPlaceholder, colStatement)));
    } else {
      r := Ok(sql);
    }
  }

  /**
   * The first `:COL_MAP` of a string is replaced by exactly the column list and nothing else
   * changes, when the column list holds no `$` (which `replace` would expand).
   */
  lemma ColumnsReplacedAt(sql: string, colMap: Value, i: nat)
    requires colMap.Obj? || colMap.Arr?
    requires '$' !in ColumnStatement(colMap)
    requires OccursAt(sql, ColMapPlaceholder, i)
    requires forall k :: 0 <= k < i ==> !OccursAt(sql, ColMapPlaceholder, k)
    ensures ColumnsReplaced(Str(sql), colMap)
         == Ok(Str(sql[..i] + ColumnStatement(colMap) + sql[i + |ColMapPlaceholder|..]))
  {
    ReplaceFirstLiteral(sql, ColMapPlaceholder, ColumnStatement(colMap), i);
  }

  /** SQL without `:COL_MAP` is kept as it is, whatever the column map (other than `null`). */
  lemma ColumnsReplacedAbsent(sql: string, colMap: Value)
    requires !colMap.Null?
    requires forall k :: !OccursAt(sql, ColMapPlaceholder, k)
    ensures ColumnsReplaced(Str(sql), colMap) == Ok(Str(sql))
  {
  }

  // ----- getAsyncFn -----

  /** `items.join(sep)`: `null` and `undefined` items become empty, the others their string form. */
  function JoinItems(items: seq<Value>, sep: string): string
  {
    Join(seq(|items|, i requires 0 <= i < |items| => if IsNullish(items[i]) then "" else ToStr(items[i])), sep)
  }

  /** An array of strings is joined with the separator between consecutive strings. */
  lemma JoinStrings(items: seq<Value>, lines: seq<string>, sep: string)
    requires |items| == |lines| && forall i :: 0 <= i < |items| ==> items[i] == Str(lines[i])
    ensures JoinItems(items, sep) == Join(lines, sep)
  {
    var texts := seq(|items|, i requires 0 <= i < |items| => if IsNullish(items[i]) then "" else ToStr(items[i]));
    assert texts == lines;
  }

  /** The SQL text before column substitution: an array of lines is joined with single spaces. */
  function SqlText(sql: Value): (r: Value)
    ensures !sql.Arr? ==> r == sql
    ensures sql.Arr? ==> r == Str(JoinItems(sql.items, " "))
  {
    if sql.Arr? then Str(JoinItems(sql.items, " ")) else sql
  }

  /** The function `getAsyncFn` returns: the SQL to run, the `singleRecord` flag and the globals. */
  datatype MysqlFn = MysqlFn(sql: Value, singleRecord: Value, globals: Value)

  /**
   * `getAsyncFn(operationDetails, parentOperationDetails, globals)` as written: the column map
   * is the node's own `COL_MAP`, else the parent's, read without a guard.
   */
  function GetAsyncFnAsWritten(od: Value, parentOd: Value, globals: Value): (r: Result<MysqlFn>)
    ensures IsNullish(od) ==> r.Err?
    ensures !IsNullish(od) && !Truthy(Get(od, "COL_MAP")) && IsNullish(parentOd) ==> r == Err(TypeError)
    ensures r.Ok? ==> r.value.singleRecord == Get(od, "singleRecord") && r.value.globals == globals
    ensures r.Ok? && Truthy(Get(od, "COL_MAP"))
            ==> ColumnsReplaced(SqlText(Get(od, "SQL")), Get(od, "COL_MAP")) == Ok(r.value.sql)
    ensures r.Ok? && !Truthy(Get(od, "COL_MAP"))
            ==> ColumnsReplaced(SqlText(Get(od, "SQL")), Get(parentOd, "COL_MAP")) == Ok(r.value.sql)
  {
    if IsNullish(od) then Err(TypeError)
    else if !Truthy(Get(od, "COL_MAP")) && IsNullish(parentOd) then Err(TypeError)
    else
      var colMap := Or(Get(od, "COL_MAP"), Get(parentOd, "COL_MAP"));
      match ColumnsReplaced(SqlText(Get(od, "SQL")), colMap)
      case Err(e) => Err(e)
      case Ok(sql) => Ok(MysqlFn(sql, Get(od, "singleRecord"), globals))
  }

  /**
   * `getAsyncFn` with the parent's column map read only when there is a parent
   * (`parentOperationDetails?.COL_MAP`).
   */
  function GetAsyncFn(od: Value, parentOd: Value, globals: Value): (r: Result<MysqlFn>)
    ensures IsNullish(od) ==> r.Err?
    ensures !IsNullish(od) && IsNullish(parentOd) ==> r.Ok?
    ensures r.Ok? ==> r.value.singleRecord == Get(od, "singleRecord") && r.value.globals == globals
  {
    if IsNullish(od) then Err(TypeError)
    else
      var colMap := Or(Get(od, "COL_MAP"), if IsNullish(parentOd) then Undefined else Get(parentOd, "COL_MAP"));
      match ColumnsReplaced(SqlText(Get(od, "SQL")), colMap)
      case Err(e) => Err(e)
      case Ok(sql) => Ok(MysqlFn(sql, Get(od, "singleRecord"), globals))
  }

  /** Wherever the written `getAsyncFn` succeeds, the guarded one builds the same function. */
  lemma GuardedAgrees(od: Value, parentOd: Value, globals: Value)
    requires GetAsyncFnAsWritten(od, parentOd, globals).Ok?
    ensures GetAsyncFn(od, parentOd, globals) == GetAsyncFnAsWritten(od, parentOd, globals)
  {
  }

  /** A top-level operation without its own column map: the written code throws, the guarded one keeps the SQL. */
  lemma TopLevelWithoutColumnMap(sql: string)
    ensures GetAsyncFnAsWritten(Obj([Prop("SQL", Str(sql))]), Undefined, EmptyObject) == Err(TypeError)
    ensures GetAsyncFn(Obj([Prop("SQL", Str(sql))]), Undefined, EmptyObject)
         == Ok(MysqlFn(Str(sql), Undefined, EmptyObject))
  {
    var od := Obj([Prop("SQL", Str(sql))]);
    GetFirst(od.props, 0, "SQL");
    assert Get(od, "COL_MAP") == Undefined;
  }

  // ----- the handler -----

  /** The query the handler asks the pool to run: the prepared SQL with the chosen parameters. */
  datatype Query = Query(sql: Value, params: Value)

  /** `requestObject && requestObject.params || globals && globals.params`. */
  function QueryParams(request: Value, globals: Value): (params: Value)
    ensures Truthy(request) && Truthy(Get(request, "params")) ==> params == Get(request, "params")
    ensures !(Truthy(request) && Truthy(Get(request, "params")))
            ==> params == And(globals, Get(globals, "params"))
  {
    Or(And(request, Get(request, "params")), And(globals, Get(globals, "params")))
  }

  /** Calling the handler with a request object. */
  function Invoke(f: MysqlFn, request: Value): (q: Query)
    ensures q.sql == f.sql
    ensures q.params == QueryParams(request, f.globals)
  {
    Query(f.sql, QueryParams(request, f.globals))
  }

  /** How the handler's promise settles; `Threw` is an exception inside the driver's callback. */
  datatype Settlement = Resolved(value: Value) | Rejected(reason: Value) | Threw(error: string)

  /** `result.length`, which throws for `null` and `undefined`. */
  function LengthOf(v: Value): Result<Value>
  {
    match v
    case Undefined => Err(TypeError)
    case Null => Err(TypeError)
    case Arr(items) => Ok(Num(|items|))
    case Str(s) => Ok(Num(|s|))
    case Obj(_) => Ok(Get(v, "length"))
    case _ => Ok(Undefined)
  }

  /** `(result.length && result.length === 1) ? result[0] : {}`. */
  function SingleRecord(result: Value): (r: Result<Value>)
    ensures r.Err? <==> IsNullish(result)
    ensures result.Arr? && |result.items| == 1 ==> r == Ok(result.items[0])
    ensures result.Arr? && |result.items| != 1 ==> r == Ok(EmptyObject)
  {
    match LengthOf(result)
    case Err(e) => Err(e)
    case Ok(length) =>
      if Truthy(length) && length == Num(1) then
        assert result.Arr? ==> IndexOfKey("0", |result.items|, 0) == Some(0);
        Ok(Get(result, "0"))
      else Ok(EmptyObject)
  }

  /**
   * The settlement of the handler's promise, given what the pool reports: the connection
   * error, then the query error, then the rows.
   */
  function Settle(f: MysqlFn, connectionError: Value, queryError: Value, result: Value): (s: Settlement)
    ensures Truthy(connectionError) ==> s == Rejected(connectionError)
    ensures !Truthy(connectionError) && Truthy(queryError) ==> s == Rejected(queryError)
    ensures !Truthy(connectionError) && !Truthy(queryError) && !Truthy(f.singleRecord) ==> s == Resolved(result)
    ensures !Truthy(connectionError) && !Truthy(queryError) && Truthy(f.singleRecord) && result.Arr?
            ==> s == Resolved(if |result.items| == 1 then result.items[0] else EmptyObject)
  {
    if Truthy(connectionError) then Rejected(connectionError)
    else if Truthy(queryError) then Rejected(queryError)
    else if Truthy(f.singleRecord) then
      match SingleRecord(result)
      case Err(e) => Threw(e)
      case Ok(row) => Resolved(row)
    else Resolved(result)
  }

  /** `closeConnections`: the promise rejects with the pool's error when there is one. */
  function CloseConnections(poolError: Value): (s: Settlement)
    ensures s.Rejected? <==> Truthy(poolError)
    ensures s.Rejected? ==> s.reason == poolError
    ensures s.Resolved? ==> s.value == Undefined
    ensures !s.Threw?
  {
    if Truthy(poolError) then Rejected(poolError) else Resolved(Undefined)
  }
}
