/**
 * `convertSwagger`: turns the `paths` of a Swagger document into a definition tree for the
 * builder. Operations are grouped under their first tag and keyed by their `operationId`;
 * each becomes an `http` operation whose url has its `{param}` segments written `:param`.
 */
module Swagger {
  import opened Wrappers
  import opened JsString
  import opened Js

  const PathsKey: string := "paths"
  const TagsKey: string := "tags"
  const OperationIdKey: string := "operationId"
  const HttpModule: string := "http"

  // ---------------------------------------------------------------------------------------
  // The url

  /** `urlPath.replace(/}/gi, '').replace(/{/gi, ':')`. */
  function RewriteUrl(urlPath: string): string
  {
    ReplaceAll(ReplaceAll(urlPath, "}", ""), "{", ":")
  }

  /**
   * The rewritten url has no braces left: every `}` is gone, every `{` became `:`, and every
   * other character of the path is still there and nothing else was added.
   */
  lemma RewriteUrlBraceFree(urlPath: string)
    ensures '{' !in RewriteUrl(urlPath) && '}' !in RewriteUrl(urlPath)
    ensures ':' in RewriteUrl(urlPath) <==> ':' in urlPath || '{' in urlPath
    ensures forall x :: x != '{' && x != '}' && x != ':' ==> (x in RewriteUrl(urlPath) <==> x in urlPath)
    ensures |RewriteUrl(urlPath)| <= |urlPath|
  {
    var closed := ReplaceAll(urlPath, "}", "");
    var r := RewriteUrl(urlPath);
    RemoveAllChar(urlPath, '}');
    ReplaceAllChar(closed, '{', ':');
    forall x ensures x in r <==> (x in closed && x != '{') || (x == ':' && '{' in closed) {
      if x in r {
        var k :| 0 <= k < |r| && r[k] == x;
        assert closed[k] == x || closed[k] == '{';
      }
      if x in closed && x != '{' {
        var k :| 0 <= k < |closed| && closed[k] == x;
        assert r[k] == x;
      }
      if x == ':' && '{' in closed {
        var k :| 0 <= k < |closed| && closed[k] == '{';
        assert r[k] == x;
      }
    }
  }

  /** The rewrite of a typical parameterised path. */
  lemma RewriteUrlExample()
    ensures RewriteUrl("/a/{id}") == "/a/:id"
  {
    CloseBraceRemoved();
    OpenBraceRewritten();
  }

  lemma CloseBraceRemoved()
    ensures ReplaceAll("/a/{id}", "}", "") == "/a/{id"
  {
    var s := "/a/{id";
    ReplaceAllFirst(s, '}', "", "");
    ReplaceAllAbsent("", '}', "");
    assert s + ['}'] + "" == "/a/{id}";
    assert s + "" + "" == s;
  }

  lemma OpenBraceRewritten()
    ensures ReplaceAll("/a/{id", "{", ":") == "/a/:id"
  {
    ReplaceAllFirst("/a/", '{', "id", ":");
    ReplaceAllAbsent("id", '{', ":");
    assert "/a/" + ['{'] + "id" == "/a/{id";
    assert "/a/" + ":" + "id" == "/a/:id";
  }

  // ---------------------------------------------------------------------------------------
  // One operation

  /** The entry written for an operation: an `http` operation with its verb and url. */
  function Entry(verb: string, url: string): Value
  {
    Obj([Prop("asyncModule", Str(HttpModule)),
         Prop("operationDetails", Obj([Prop("method", Str(verb)), Prop("url", Str(url))]))])
  }

  /** `tags.length` for the values a JSON document holds. */
  function LengthOf(v: Value): Value
  {
    match v
    case Arr(items) => Num(|items|)
    case Str(s) => Num(|s|)
    case Obj(_) => Get(v, "length")
    case _ => Undefined
  }

  /** `tags[0]` as a property key. */
  function TagOf(op: Value): string
  {
    ToStr(Get(Get(op, TagsKey), "0"))
  }

  /** `operationId` as a property key. */
  function IdOf(op: Value): string
  {
    ToStr(Get(op, OperationIdKey))
  }

  /**
   * The guard `tags.length && operationId`. Reading `.tags` of a missing operation throws;
   * as written (`strictTags`) so does reading `.length` of missing tags, while the
   * corrected guard skips such an operation, as the comment beside it says it should.
   */
  function Qualifies(op: Value, strictTags: bool): Result<bool>
  {
    if IsNullish(op) then Err(TypeError)
    else
      var tags := Get(op, TagsKey);
      if IsNullish(tags) then (if strictTags then Err(TypeError) else Ok(false))
      else Ok(Truthy(LengthOf(tags)) && Truthy(Get(op, OperationIdKey)))
  }

  /**
   * The body of the inner `forEach`: the tag's group is made if it is missing, then the
   * operation's entry is written into it, replacing one with the same `operationId`.
   */
  function AddOperation(arb: Value, urlPath: string, verb: string, op: Value, strictTags: bool): Result<Value>
  {
    match Qualifies(op, strictTags)
    case Err(e) => Err(e)
    case Ok(qualifies) =>
      if !qualifies then Ok(arb)
      else
        Ok(WithEntry(arb, TagOf(op), IdOf(op), Entry(verb, RewriteUrl(urlPath))))
  }

  /** `arbFormat[tag] = arbFormat[tag] || {}; arbFormat[tag][id] = e;` */
  function WithEntry(arb: Value, tag: string, id: string, e: Value): Value
  {
    var withGroup := SetProp(arb, tag, Or(Get(arb, tag), EmptyObject));
    SetProp(withGroup, tag, SetProp(Get(withGroup, tag), id, e))
  }

  // ---------------------------------------------------------------------------------------
  // The loops, as functions

  /** The inner `forEach` over a path's methods, from `arb` on; the first throw ends it. */
  function AddMethods(arb: Value, urlPath: string, pathItem: Value, methods: seq<string>, strictTags: bool): Result<Value>
    decreases |methods|
  {
    if |methods| == 0 then Ok(arb)
    else
      match AddOperation(arb, urlPath, methods[0], Get(pathItem, methods[0]), strictTags)
      case Err(e) => Err(e)
      case Ok(next) => AddMethods(next, urlPath, pathItem, methods[1..], strictTags)
  }

  /** One turn of the outer `forEach`: `Object.keys` of a missing path item throws. */
  function AddPath(arb: Value, paths: Value, urlPath: string, strictTags: bool): Result<Value>
  {
    var pathItem := Get(paths, urlPath);
    if IsNullish(pathItem) then Err(TypeError) else AddMethods(arb, urlPath, pathItem, Keys(pathItem), strictTags)
  }

  /** The outer `forEach` over the paths, from `arb` on; the first throw ends it. */
  function AddPaths(arb: Value, paths: Value, urlPaths: seq<string>, strictTags: bool): Result<Value>
    decreases |urlPaths|
  {
    if |urlPaths| == 0 then Ok(arb)
    else
      match AddPath(arb, paths, urlPaths[0], strictTags)
      case Err(e) => Err(e)
      case Ok(next) => AddPaths(next, paths, urlPaths[1..], strictTags)
  }

  /**
   * `convertSwagger` as a function: `{}` for a falsy document or one without paths,
   * otherwise every path's operations added in `Object.keys` order.
   */
  function Convert(swagger: Value, strictTags: bool): Result<Value>
  {
    if !Truthy(swagger) || !Truthy(Get(swagger, PathsKey)) then Ok(EmptyObject)
    else
      var paths := Get(swagger, PathsKey);
      AddPaths(EmptyObject, paths, Keys(paths), strictTags)
  }

  // ---------------------------------------------------------------------------------------
  // The loops, as they run

  /**
   * `convertSwagger` with the corrected guard: the outer loop over the paths, each path
   * handed to the inner loop, the converted tree returned or the first exception thrown.
   */
  method ConvertSwagger(swagger: Value) returns (r: Result<Value>)
    ensures r == Convert(swagger, false)
  {
    var arbFormat := EmptyObject;
    if !Truthy(swagger) || !Truthy(Get(swagger, PathsKey)) {
      return Ok(arbFormat);
    }
    var paths := Get(swagger, PathsKey);
    var urlPaths := Keys(paths);
    var i := 0;
    while i < |urlPaths|
      invariant i <= |urlPaths|
      invariant AddPaths(arbFormat, paths, urlPaths[i..], false) == Convert(swagger, false)
    {
      assert urlPaths[i..][0] == urlPaths[i] && urlPaths[i..][1..] == urlPaths[i + 1..];
      var pathItem := Get(paths, urlPaths[i]);
      if IsNullish(pathItem) {
        return Err(TypeError);
      }
      var added := ConvertMethods(arbFormat, urlPaths[i], pathItem);
      if added.Err? {
        return added;
      }
      arbFormat := added.value;
      i := i + 1;
    }
    return Ok(arbFormat);
  }

  /** The inner loop over one path's methods, with the corrected guard. */
  method ConvertMethods(arb: Value, urlPath: string, pathItem: Value) returns (r: Result<Value>)
    ensures r == AddMethods(arb, urlPath, pathItem, Keys(pathItem), false)
  {
    var methods := Keys(pathItem);
    var arbFormat := arb;
    var j := 0;
    while j < |methods|
      invariant j <= |methods|
      invariant AddMethods(arbFormat, urlPath, pathItem, methods[j..], false)
             == AddMethods(arb, urlPath, pathItem, methods, false)
    {
      AddMethodsStep(arbFormat, urlPath, pathItem, methods, j, false);
      var added := ConvertOperation(arbFormat, urlPath, methods[j], Get(pathItem, methods[j]));
      if added.Err? {
        return added;
      }
      arbFormat := added.value;
      j := j + 1;
    }
    return Ok(arbFormat);
  }

  /** The body of the inner loop, with the corrected guard. */
  method ConvertOperation(arb: Value, urlPath: string, m: string, op: Value) returns (r: Result<Value>)
    ensures r == AddOperation(arb, urlPath, m, op, false)
  {
    if IsNullish(op) {
      return Err(TypeError);
    }
    var arbFormat := arb;
    var tags := Get(op, TagsKey);
    var operationId := Get(op, OperationIdKey);
    if !IsNullish(tags) && Truthy(LengthOf(tags)) && Truthy(operationId) {
      var tag := ToStr(Get(tags, "0"));
      arbFormat := SetProp(arbFormat, tag, Or(Get(arbFormat, tag), EmptyObject));
      arbFormat := SetProp(arbFormat, tag, SetProp(Get(arbFormat, tag), ToStr(operationId), Entry(m, RewriteUrl(urlPath))));
    }
    return Ok(arbFormat);
  }

  /** One turn of the inner loop: the operation under `methods[j]` is added, then the rest follow. */
  lemma AddMethodsStep(arb: Value, urlPath: string, pathItem: Value, methods: seq<string>, j: nat, strictTags: bool)
    requires j < |methods|
    ensures AddMethods(arb, urlPath, pathItem, methods[j..], strictTags)
         == match AddOperation(arb, urlPath, methods[j], Get(pathItem, methods[j]), strictTags)
            case Err(e) => Err(e)
            case Ok(next) => AddMethods(next, urlPath, pathItem, methods[j + 1..], strictTags)
  {
    assert methods[j..][0] == methods[j] && methods[j..][1..] == methods[j + 1..];
  }

  // ---------------------------------------------------------------------------------------
  // What the converter builds

  /** An `http` entry whose url has no braces left. */
  ghost predicate IsEntry(e: Value)
  {
    exists verb, url :: e == Entry(verb, url) && '{' !in url && '}' !in url
  }

  /** Tag groups, each an object whose every property is an entry. */
  ghost predicate WellFormed(arb: Value)
  {
    && arb.Obj?
    && forall tag :: HasOwn(arb, tag) ==> GroupOk(Get(arb, tag))
  }

  ghost predicate GroupOk(group: Value)
  {
    group.Obj? && forall id :: HasOwn(group, id) ==> IsEntry(Get(group, id))
  }

  /** The converter starts from a well-formed tree. */
  lemma EmptyWellFormed()
    ensures WellFormed(EmptyObject)
  {
    assert forall tag :: !HasOwn(EmptyObject, tag);
  }

  /** Writing an entry into a group keeps it a group. */
  lemma GroupWithEntry(group: Value, id: string, e: Value)
    requires GroupOk(group) && IsEntry(e)
    ensures GroupOk(SetProp(group, id, e))
  {
    var g := SetProp(group, id, e);
    forall k | HasOwn(g, k) ensures IsEntry(Get(g, k)) {
      if k != id {
        assert k in Keys(group);
      }
    }
  }

  /**
   * The two assignments reach the entry through the tag's group: an existing group is
   * reused, with its other entries, and only the entry at `tag` and `id` is written.
   */
  lemma WithEntryGet(arb: Value, tag: string, id: string, e: Value)
    requires WellFormed(arb)
    ensures var a := WithEntry(arb, tag, id, e);
      && a.Obj? && Get(a, tag).Obj?
      && Get(Get(a, tag), id) == e
      && (forall k :: k != id ==> Get(Get(a, tag), k) == Get(Get(arb, tag), k))
      && (forall k :: HasOwn(Get(a, tag), k) <==> HasOwn(Get(arb, tag), k) || k == id)
      && (forall t :: t != tag ==> Get(a, t) == Get(arb, t))
      && (forall t :: HasOwn(a, t) <==> HasOwn(arb, t) || t == tag)
  {
    assert HasOwn(arb, tag) ==> GroupOk(Get(arb, tag));
    WithEntryGroup(arb, tag, id, e);
    WithEntryTags(arb, tag, id, e);
  }

  /** Inside the tag's group: the entry at `id` is written and the group's other entries are kept. */
  lemma WithEntryGroup(arb: Value, tag: string, id: string, e: Value)
    requires arb.Obj? && (HasOwn(arb, tag) ==> Get(arb, tag).Obj?)
    ensures var g := Get(WithEntry(arb, tag, id, e), tag);
      && g.Obj? && Get(g, id) == e
      && (forall k :: k != id ==> Get(g, k) == Get(Get(arb, tag), k))
      && (forall k :: HasOwn(g, k) <==> HasOwn(Get(arb, tag), k) || k == id)
  {
    var found := Get(arb, tag);
    var group := Or(found, EmptyObject);
    assert group.Obj? && forall k :: Get(group, k) == Get(found, k) && (HasOwn(group, k) <==> HasOwn(found, k)) by {
      if HasOwn(arb, tag) {
        assert group == found;
      } else {
        assert found == Undefined && group == EmptyObject;
      }
    }
    var withGroup := SetProp(arb, tag, group);
    assert Get(withGroup, tag) == group;
    SetPropOwn(group, id, e);
  }

  /** Outside the tag's group nothing changes, and the tag is a property afterwards. */
  lemma WithEntryTags(arb: Value, tag: string, id: string, e: Value)
    requires arb.Obj?
    ensures var a := WithEntry(arb, tag, id, e);
      && a.Obj?
      && (forall t :: t != tag ==> Get(a, t) == Get(arb, t))
      && (forall t :: HasOwn(a, t) <==> HasOwn(arb, t) || t == tag)
  {
    var withGroup := SetProp(arb, tag, Or(Get(arb, tag), EmptyObject));
    SetPropOwn(arb, tag, Or(Get(arb, tag), EmptyObject));
    SetPropOwn(withGroup, tag, SetProp(Get(withGroup, tag), id, e));
  }

  /** Writing an entry keeps the tree well formed. */
  lemma WithEntryWellFormed(arb: Value, tag: string, id: string, e: Value)
    requires WellFormed(arb) && IsEntry(e)
    ensures WellFormed(WithEntry(arb, tag, id, e))
  {
    var a := WithEntry(arb, tag, id, e);
    WithEntryGet(arb, tag, id, e);
    var group := Get(arb, tag);
    assert GroupOk(Get(a, tag)) by {
      forall k | HasOwn(Get(a, tag), k) ensures IsEntry(Get(Get(a, tag), k)) {
        if k != id {
          assert HasOwn(arb, tag);
        }
      }
    }
    forall t | HasOwn(a, t) ensures GroupOk(Get(a, t)) {
      if t != tag {
        assert HasOwn(arb, t);
      }
    }
  }

  /** A qualifying operation writes its entry at its tag and id, and changes no other entry. */
  lemma OperationAdded(arb: Value, urlPath: string, verb: string, op: Value, strictTags: bool)
    requires WellFormed(arb) && Qualifies(op, strictTags) == Ok(true)
    ensures AddOperation(arb, urlPath, verb, op, strictTags).Ok?
    ensures var a := AddOperation(arb, urlPath, verb, op, strictTags).value;
      && WellFormed(a)
      && HasOwn(a, TagOf(op)) && HasOwn(Get(a, TagOf(op)), IdOf(op))
      && Get(Get(a, TagOf(op)), IdOf(op)) == Entry(verb, RewriteUrl(urlPath))
      && (forall id :: id != IdOf(op) ==> Get(Get(a, TagOf(op)), id) == Get(Get(arb, TagOf(op)), id))
      && (forall tag :: tag != TagOf(op) ==> Get(a, tag) == Get(arb, tag))
      && (forall tag :: HasOwn(a, tag) <==> HasOwn(arb, tag) || tag == TagOf(op))
  {
    var e := Entry(verb, RewriteUrl(urlPath));
    RewriteUrlBraceFree(urlPath);
    assert IsEntry(e);
    WithEntryGet(arb, TagOf(op), IdOf(op), e);
    WithEntryWellFormed(arb, TagOf(op), IdOf(op), e);
  }

  /** An operation the guard rejects adds nothing. */
  lemma OperationOmitted(arb: Value, urlPath: string, verb: string, op: Value, strictTags: bool)
    requires !IsNullish(op) && !IsNullish(Get(op, TagsKey))
    requires !Truthy(LengthOf(Get(op, TagsKey))) || !Truthy(Get(op, OperationIdKey))
    ensures AddOperation(arb, urlPath, verb, op, strictTags) == Ok(arb)
  {
  }

  /** Each step keeps the tree well formed; its only exception is a `TypeError`. */
  lemma OperationWellFormed(arb: Value, urlPath: string, verb: string, op: Value, strictTags: bool)
    requires WellFormed(arb)
    ensures var r := AddOperation(arb, urlPath, verb, op, strictTags);
      (r.Ok? ==> WellFormed(r.value)) && (r.Err? ==> r.error == TypeError)
  {
    if Qualifies(op, strictTags) == Ok(true) {
      OperationAdded(arb, urlPath, verb, op, strictTags);
    }
  }

  lemma {:induction false} AddMethodsWellFormed(arb: Value, urlPath: string, pathItem: Value, methods: seq<string>, strictTags: bool)
    requires WellFormed(arb)
    decreases |methods|
    ensures var r := AddMethods(arb, urlPath, pathItem, methods, strictTags);
      (r.Ok? ==> WellFormed(r.value)) && (r.Err? ==> r.error == TypeError)
  {
    if |methods| > 0 {
      OperationWellFormed(arb, urlPath, methods[0], Get(pathItem, methods[0]), strictTags);
      var step := AddOperation(arb, urlPath, methods[0], Get(pathItem, methods[0]), strictTags);
      if step.Ok? {
        AddMethodsWellFormed(step.value, urlPath, pathItem, methods[1..], strictTags);
      }
    }
  }

  lemma {:induction false} AddPathsWellFormed(arb: Value, paths: Value, urlPaths: seq<string>, strictTags: bool)
    requires WellFormed(arb)
    decreases |urlPaths|
    ensures var r := AddPaths(arb, paths, urlPaths, strictTags);
      (r.Ok? ==> WellFormed(r.value)) && (r.Err? ==> r.error == TypeError)
  {
    if |urlPaths| > 0 {
      var pathItem := Get(paths, urlPaths[0]);
      if !IsNullish(pathItem) {
        AddMethodsWellFormed(arb, urlPaths[0], pathItem, Keys(pathItem), strictTags);
        var step := AddPath(arb, paths, urlPaths[0], strictTags);
        if step.Ok? {
          AddPathsWellFormed(step.value, paths, urlPaths[1..], strictTags);
        }
      }
    }
  }

  /** A falsy document converts to `{}`; whatever is built is well formed; the only exception is a `TypeError`. */
  lemma ConvertWellFormed(swagger: Value, strictTags: bool)
    ensures !Truthy(swagger) ==> Convert(swagger, strictTags) == Ok(EmptyObject)
    ensures Convert(swagger, strictTags).Ok? ==> WellFormed(Convert(swagger, strictTags).value)
    ensures Convert(swagger, strictTags).Err? ==> Convert(swagger, strictTags).error == TypeError
  {
    if Truthy(swagger) && Truthy(Get(swagger, PathsKey)) {
      var paths := Get(swagger, PathsKey);
      AddPathsWellFormed(EmptyObject, paths, Keys(paths), strictTags);
    }
  }

  // ---------------------------------------------------------------------------------------
  // Nothing is lost

  /** The tree lists an entry at `tag` and `id`. */
  predicate Lists(arb: Value, tag: string, id: string)
  {
    HasOwn(arb, tag) && HasOwn(Get(arb, tag), id)
  }

  /** A later step never removes an entry: at most it overwrites it. */
  lemma OperationKeeps(arb: Value, urlPath: string, verb: string, op: Value, strictTags: bool, tag: string, id: string)
    requires WellFormed(arb) && Lists(arb, tag, id)
    requires AddOperation(arb, urlPath, verb, op, strictTags).Ok?
    ensures Lists(AddOperation(arb, urlPath, verb, op, strictTags).value, tag, id)
  {
    if Qualifies(op, strictTags) == Ok(true) {
      OperationAdded(arb, urlPath, verb, op, strictTags);
      var a := AddOperation(arb, urlPath, verb, op, strictTags).value;
      if tag == TagOf(op) && id != IdOf(op) {
        assert IsEntry(Get(Get(arb, tag), id));
        assert Get(Get(a, tag), id) != Undefined;
      } else if tag != TagOf(op) {
        assert Get(a, tag) == Get(arb, tag);
      }
    }
  }

  lemma {:induction false} AddMethodsKeeps(arb: Value, urlPath: string, pathItem: Value, methods: seq<string>,
                                          strictTags: bool, tag: string, id: string)
    requires WellFormed(arb) && Lists(arb, tag, id)
    requires AddMethods(arb, urlPath, pathItem, methods, strictTags).Ok?
    decreases |methods|
    ensures Lists(AddMethods(arb, urlPath, pathItem, methods, strictTags).value, tag, id)
  {
    if |methods| > 0 {
      var op := Get(pathItem, methods[0]);
      OperationKeeps(arb, urlPath, methods[0], op, strictTags, tag, id);
      OperationWellFormed(arb, urlPath, methods[0], op, strictTags);
      var step := AddOperation(arb, urlPath, methods[0], op, strictTags);
      AddMethodsKeeps(step.value, urlPath, pathItem, methods[1..], strictTags, tag, id);
    }
  }

  lemma {:induction false} AddPathsKeeps(arb: Value, paths: Value, urlPaths: seq<string>, strictTags: bool,
                                        tag: string, id: string)
    requires WellFormed(arb) && Lists(arb, tag, id)
    requires AddPaths(arb, paths, urlPaths, strictTags).Ok?
    decreases |urlPaths|
    ensures Lists(AddPaths(arb, paths, urlPaths, strictTags).value, tag, id)
  {
    if |urlPaths| > 0 {
      var pathItem := Get(paths, urlPaths[0]);
      AddMethodsKeeps(arb, urlPaths[0], pathItem, Keys(pathItem), strictTags, tag, id);
      AddMethodsWellFormed(arb, urlPaths[0], pathItem, Keys(pathItem), strictTags);
      var step := AddPath(arb, paths, urlPaths[0], strictTags);
      AddPathsKeeps(step.value, paths, urlPaths[1..], strictTags, tag, id);
    }
  }

  /** A qualifying operation is listed right after it is added. */
  lemma OperationLists(arb: Value, urlPath: string, verb: string, op: Value, strictTags: bool)
    requires WellFormed(arb) && Qualifies(op, strictTags) == Ok(true)
    ensures AddOperation(arb, urlPath, verb, op, strictTags).Ok?
    ensures Lists(AddOperation(arb, urlPath, verb, op, strictTags).value, TagOf(op), IdOf(op))
  {
    OperationAdded(arb, urlPath, verb, op, strictTags);
  }

  /** The operation qualifies under the tag `tag` and the id `id`. */
  predicate Names(op: Value, strictTags: bool, tag: string, id: string)
  {
    Qualifies(op, strictTags) == Ok(true) && TagOf(op) == tag && IdOf(op) == id
  }

  /** The first method, when it qualifies, stays listed through the rest of the inner loop. */
  lemma AddMethodsListsFirst(arb: Value, urlPath: string, pathItem: Value, methods: seq<string>,
                             strictTags: bool, tag: string, id: string)
    requires WellFormed(arb) && |methods| > 0
    requires Names(Get(pathItem, methods[0]), strictTags, tag, id)
    requires AddMethods(arb, urlPath, pathItem, methods, strictTags).Ok?
    ensures Lists(AddMethods(arb, urlPath, pathItem, methods, strictTags).value, tag, id)
  {
    var op := Get(pathItem, methods[0]);
    AddMethodsUnfold(arb, urlPath, pathItem, methods, strictTags);
    OperationWellFormed(arb, urlPath, methods[0], op, strictTags);
    OperationLists(arb, urlPath, methods[0], op, strictTags);
    AddMethodsKeeps(AddOperation(arb, urlPath, methods[0], op, strictTags).value, urlPath, pathItem, methods[1..], strictTags, tag, id);
  }

  /** Every qualifying method of a path is listed once the inner loop is over. */
  lemma {:induction false} AddMethodsLists(arb: Value, urlPath: string, pathItem: Value, methods: seq<string>,
                                          strictTags: bool, j: nat, verb: string, tag: string, id: string)
    requires WellFormed(arb) && j < |methods| && methods[j] == verb
    requires Names(Get(pathItem, verb), strictTags, tag, id)
    requires AddMethods(arb, urlPath, pathItem, methods, strictTags).Ok?
    decreases |methods|
    ensures Lists(AddMethods(arb, urlPath, pathItem, methods, strictTags).value, tag, id)
  {
    if j == 0 {
      AddMethodsListsFirst(arb, urlPath, pathItem, methods, strictTags, tag, id);
    } else {
      var op := Get(pathItem, methods[0]);
      AddMethodsUnfold(arb, urlPath, pathItem, methods, strictTags);
      OperationWellFormed(arb, urlPath, methods[0], op, strictTags);
      TailIndex(methods, j);
      AddMethodsLists(AddOperation(arb, urlPath, methods[0], op, strictTags).value, urlPath, pathItem, methods[1..],
                      strictTags, j - 1, verb, tag, id);
    }
  }


  /** A run of the inner loop that ends well went through its first turn. */
  lemma AddMethodsUnfold(arb: Value, urlPath: string, pathItem: Value, methods: seq<string>, strictTags: bool)
    requires |methods| > 0 && AddMethods(arb, urlPath, pathItem, methods, strictTags).Ok?
    ensures AddOperation(arb, urlPath, methods[0], Get(pathItem, methods[0]), strictTags).Ok?
    ensures AddMethods(arb, urlPath, pathItem, methods, strictTags)
         == AddMethods(AddOperation(arb, urlPath, methods[0], Get(pathItem, methods[0]), strictTags).value,
                       urlPath, pathItem, methods[1..], strictTags)
  {
  }

  /** A run of the outer loop that ends well went through its first turn. */
  lemma AddPathsUnfold(arb: Value, paths: Value, urlPaths: seq<string>, strictTags: bool)
    requires |urlPaths| > 0 && AddPaths(arb, paths, urlPaths, strictTags).Ok?
    ensures AddPath(arb, paths, urlPaths[0], strictTags).Ok?
    ensures AddPaths(arb, paths, urlPaths, strictTags)
         == AddPaths(AddPath(arb, paths, urlPaths[0], strictTags).value, paths, urlPaths[1..], strictTags)
  {
  }

  /** Index `j` of a sequence is index `j - 1` of its tail. */
  lemma TailIndex(s: seq<string>, j: nat)
    requires 0 < j < |s|
    ensures j - 1 < |s[1..]| && s[1..][j - 1] == s[j]
  {
  }

  /** The `j`-th method of the path `urlPath` qualifies under `tag` and `id`. */
  predicate PathNames(paths: Value, urlPath: string, j: nat, strictTags: bool, tag: string, id: string)
  {
    && !IsNullish(Get(paths, urlPath)) && j < |Keys(Get(paths, urlPath))|
    && Names(Get(Get(paths, urlPath), Keys(Get(paths, urlPath))[j]), strictTags, tag, id)
  }

  /** One turn of the outer loop keeps the tree well formed. */
  lemma AddPathWellFormed(arb: Value, paths: Value, urlPath: string, strictTags: bool)
    requires WellFormed(arb) && AddPath(arb, paths, urlPath, strictTags).Ok?
    ensures WellFormed(AddPath(arb, paths, urlPath, strictTags).value)
  {
    var pathItem := Get(paths, urlPath);
    AddMethodsWellFormed(arb, urlPath, pathItem, Keys(pathItem), strictTags);
  }

  /** The turn for a path lists each of its qualifying methods. */
  lemma AddPathLists(arb: Value, paths: Value, urlPath: string, strictTags: bool, j: nat, tag: string, id: string)
    requires WellFormed(arb) && PathNames(paths, urlPath, j, strictTags, tag, id)
    requires AddPath(arb, paths, urlPath, strictTags).Ok?
    ensures Lists(AddPath(arb, paths, urlPath, strictTags).value, tag, id)
  {
    var pathItem := Get(paths, urlPath);
    var verb := Keys(pathItem)[j];
    AddMethodsLists(arb, urlPath, pathItem, Keys(pathItem), strictTags, j, verb, tag, id);
  }

  /** The first path's qualifying methods stay listed through the rest of the outer loop. */
  lemma AddPathsListsFirst(arb: Value, paths: Value, urlPaths: seq<string>, strictTags: bool,
                           j: nat, tag: string, id: string)
    requires WellFormed(arb) && |urlPaths| > 0
    requires PathNames(paths, urlPaths[0], j, strictTags, tag, id)
    requires AddPaths(arb, paths, urlPaths, strictTags).Ok?
    ensures Lists(AddPaths(arb, paths, urlPaths, strictTags).value, tag, id)
  {
    AddPathsUnfold(arb, paths, urlPaths, strictTags);
    AddPathWellFormed(arb, paths, urlPaths[0], strictTags);
    AddPathLists(arb, paths, urlPaths[0], strictTags, j, tag, id);
    AddPathsKeeps(AddPath(arb, paths, urlPaths[0], strictTags).value, paths, urlPaths[1..], strictTags, tag, id);
  }

  /** Every qualifying operation of every path is listed once the outer loop is over. */
  lemma {:induction false} AddPathsLists(arb: Value, paths: Value, urlPaths: seq<string>, strictTags: bool,
                                        i: nat, urlPath: string, j: nat, tag: string, id: string)
    requires WellFormed(arb) && i < |urlPaths| && urlPaths[i] == urlPath
    requires PathNames(paths, urlPath, j, strictTags, tag, id)
    requires AddPaths(arb, paths, urlPaths, strictTags).Ok?
    decreases |urlPaths|
    ensures Lists(AddPaths(arb, paths, urlPaths, strictTags).value, tag, id)
  {
    if i == 0 {
      AddPathsListsFirst(arb, paths, urlPaths, strictTags, j, tag, id);
    } else {
      AddPathsUnfold(arb, paths, urlPaths, strictTags);
      AddPathWellFormed(arb, paths, urlPaths[0], strictTags);
      TailIndex(urlPaths, i);
      AddPathsLists(AddPath(arb, paths, urlPaths[0], strictTags).value, paths, urlPaths[1..], strictTags, i - 1, urlPath, j, tag, id);
    }
  }

  /**
   * A converted document lists every operation that has tags and an `operationId`, under
   * its first tag and its id.
   */
  lemma EveryOperationListed(swagger: Value, strictTags: bool, urlPath: string, verb: string)
    requires Convert(swagger, strictTags).Ok? && Truthy(swagger) && Truthy(Get(swagger, PathsKey))
    requires urlPath in Keys(Get(swagger, PathsKey))
    requires !IsNullish(Get(Get(swagger, PathsKey), urlPath))
    requires verb in Keys(Get(Get(swagger, PathsKey), urlPath))
    requires Qualifies(Get(Get(Get(swagger, PathsKey), urlPath), verb), strictTags) == Ok(true)
    ensures var op := Get(Get(Get(swagger, PathsKey), urlPath), verb);
      Lists(Convert(swagger, strictTags).value, TagOf(op), IdOf(op))
  {
    var paths := Get(swagger, PathsKey);
    var op := Get(Get(paths, urlPath), verb);
    assert Convert(swagger, strictTags) == AddPaths(EmptyObject, paths, Keys(paths), strictTags);
    ListedIn(paths, strictTags, urlPath, verb, TagOf(op), IdOf(op));
  }

  lemma ListedIn(paths: Value, strictTags: bool, urlPath: string, verb: string, tag: string, id: string)
    requires AddPaths(EmptyObject, paths, Keys(paths), strictTags).Ok?
    requires urlPath in Keys(paths) && !IsNullish(Get(paths, urlPath)) && verb in Keys(Get(paths, urlPath))
    requires var op := Get(Get(paths, urlPath), verb);
      Qualifies(op, strictTags) == Ok(true) && TagOf(op) == tag && IdOf(op) == id
    ensures Lists(AddPaths(EmptyObject, paths, Keys(paths), strictTags).value, tag, id)
  {
    var urlPaths := Keys(paths);
    var methods := Keys(Get(paths, urlPath));
    var i := IndexIn(urlPaths, urlPath);
    var j := IndexIn(methods, verb);
    EmptyWellFormed();
    assert PathNames(paths, urlPath, j, strictTags, tag, id);
    AddPathsLists(EmptyObject, paths, urlPaths, strictTags, i, urlPath, j, tag, id);
  }

  // ---------------------------------------------------------------------------------------
  // Nothing is invented

  /** The operation `op` under `verb` of `urlPath` qualifies and writes `e` at `tag` and `id`. */
  predicate Writes(urlPath: string, verb: string, op: Value, strictTags: bool, tag: string, id: string, e: Value)
  {
    Names(op, strictTags, tag, id) && e == Entry(verb, RewriteUrl(urlPath))
  }

  /** Some method among `methods` of the path writes `e` at `tag` and `id`. */
  predicate FromMethods(urlPath: string, pathItem: Value, methods: seq<string>, strictTags: bool,
                        tag: string, id: string, e: Value)
    decreases |methods|
  {
    && |methods| > 0
    && (|| Writes(urlPath, methods[0], Get(pathItem, methods[0]), strictTags, tag, id, e)
        || FromMethods(urlPath, pathItem, methods[1..], strictTags, tag, id, e))
  }

  /** Some method of the path `urlPath` of `paths` writes `e` at `tag` and `id`. */
  predicate FromPath(paths: Value, urlPath: string, strictTags: bool, tag: string, id: string, e: Value)
  {
    !IsNullish(Get(paths, urlPath)) && FromMethods(urlPath, Get(paths, urlPath), Keys(Get(paths, urlPath)), strictTags, tag, id, e)
  }

  /** Some method of some path among `urlPaths` writes `e` at `tag` and `id`. */
  predicate FromPaths(paths: Value, urlPaths: seq<string>, strictTags: bool, tag: string, id: string, e: Value)
    decreases |urlPaths|
  {
    && |urlPaths| > 0
    && (FromPath(paths, urlPaths[0], strictTags, tag, id, e) || FromPaths(paths, urlPaths[1..], strictTags, tag, id, e))
  }

  /** The index of the method that writes. */
  lemma {:induction false} MethodWitness(urlPath: string, pathItem: Value, methods: seq<string>, strictTags: bool,
                                        tag: string, id: string, e: Value) returns (j: nat)
    requires FromMethods(urlPath, pathItem, methods, strictTags, tag, id, e)
    decreases |methods|
    ensures j < |methods| && Writes(urlPath, methods[j], Get(pathItem, methods[j]), strictTags, tag, id, e)
  {
    if FromMethods(urlPath, pathItem, methods[1..], strictTags, tag, id, e) {
      var k := MethodWitness(urlPath, pathItem, methods[1..], strictTags, tag, id, e);
      j := k + 1;
    } else {
      j := 0;
    }
  }

  /** The index of the path on which a method writes. */
  lemma {:induction false} PathWitness(paths: Value, urlPaths: seq<string>, strictTags: bool,
                                      tag: string, id: string, e: Value) returns (i: nat)
    requires FromPaths(paths, urlPaths, strictTags, tag, id, e)
    decreases |urlPaths|
    ensures i < |urlPaths| && FromPath(paths, urlPaths[i], strictTags, tag, id, e)
  {
    if FromPaths(paths, urlPaths[1..], strictTags, tag, id, e) {
      var k := PathWitness(paths, urlPaths[1..], strictTags, tag, id, e);
      i := k + 1;
    } else {
      i := 0;
    }
  }

  /** After one step an entry is the one from before, or the one this operation wrote. */
  lemma OperationTraced(arb: Value, urlPath: string, verb: string, op: Value, strictTags: bool, tag: string, id: string)
    requires WellFormed(arb)
    requires AddOperation(arb, urlPath, verb, op, strictTags).Ok?
    requires Lists(AddOperation(arb, urlPath, verb, op, strictTags).value, tag, id)
    ensures var a := AddOperation(arb, urlPath, verb, op, strictTags).value;
      || (Lists(arb, tag, id) && Get(Get(a, tag), id) == Get(Get(arb, tag), id))
      || Writes(urlPath, verb, op, strictTags, tag, id, Get(Get(a, tag), id))
  {
    if Qualifies(op, strictTags) == Ok(true) {
      var e := Entry(verb, RewriteUrl(urlPath));
      WithEntryGet(arb, TagOf(op), IdOf(op), e);
      var a := WithEntry(arb, TagOf(op), IdOf(op), e);
      if tag == TagOf(op) && id == IdOf(op) {
        assert Names(op, strictTags, tag, id) && Get(Get(a, tag), id) == e;
      } else if tag == TagOf(op) {
        assert HasOwn(Get(arb, tag), id) && Get(Get(a, tag), id) == Get(Get(arb, tag), id);
      } else {
        assert Get(a, tag) == Get(arb, tag);
      }
    }
  }

  lemma {:induction false} AddMethodsTraced(arb: Value, urlPath: string, pathItem: Value, methods: seq<string>,
                                           strictTags: bool, tag: string, id: string)
    requires WellFormed(arb)
    requires AddMethods(arb, urlPath, pathItem, methods, strictTags).Ok?
    requires Lists(AddMethods(arb, urlPath, pathItem, methods, strictTags).value, tag, id)
    decreases |methods|
    ensures var a := AddMethods(arb, urlPath, pathItem, methods, strictTags).value;
      || (Lists(arb, tag, id) && Get(Get(a, tag), id) == Get(Get(arb, tag), id))
      || FromMethods(urlPath, pathItem, methods, strictTags, tag, id, Get(Get(a, tag), id))
  {
    var a := AddMethods(arb, urlPath, pathItem, methods, strictTags).value;
    if |methods| > 0 {
      var op := Get(pathItem, methods[0]);
      var rest := methods[1..];
      OperationWellFormed(arb, urlPath, methods[0], op, strictTags);
      var next := AddOperation(arb, urlPath, methods[0], op, strictTags).value;
      assert a == AddMethods(next, urlPath, pathItem, rest, strictTags).value;
      AddMethodsTraced(next, urlPath, pathItem, rest, strictTags, tag, id);
      var e := Get(Get(a, tag), id);
      if !FromMethods(urlPath, pathItem, rest, strictTags, tag, id, e) {
        OperationTraced(arb, urlPath, methods[0], op, strictTags, tag, id);
      }
    }
  }

  lemma {:induction false} AddPathsTraced(arb: Value, paths: Value, urlPaths: seq<string>, strictTags: bool,
                                         tag: string, id: string)
    requires WellFormed(arb)
    requires AddPaths(arb, paths, urlPaths, strictTags).Ok?
    requires Lists(AddPaths(arb, paths, urlPaths, strictTags).value, tag, id)
    decreases |urlPaths|
    ensures var a := AddPaths(arb, paths, urlPaths, strictTags).value;
      || (Lists(arb, tag, id) && Get(Get(a, tag), id) == Get(Get(arb, tag), id))
      || FromPaths(paths, urlPaths, strictTags, tag, id, Get(Get(a, tag), id))
  {
    var a := AddPaths(arb, paths, urlPaths, strictTags).value;
    if |urlPaths| > 0 {
      var pathItem := Get(paths, urlPaths[0]);
      var rest := urlPaths[1..];
      assert !IsNullish(pathItem);
      AddMethodsWellFormed(arb, urlPaths[0], pathItem, Keys(pathItem), strictTags);
      var next := AddPath(arb, paths, urlPaths[0], strictTags).value;
      assert a == AddPaths(next, paths, rest, strictTags).value;
      AddPathsTraced(next, paths, rest, strictTags, tag, id);
      var e := Get(Get(a, tag), id);
      if !FromPaths(paths, rest, strictTags, tag, id, e) {
        AddMethodsTraced(arb, urlPaths[0], pathItem, Keys(pathItem), strictTags, tag, id);
      }
    }
  }

  /**
   * The converse of `EveryOperationListed`: whatever a converted document lists at `tag`
   * and `id` is the entry of an operation of the document that qualifies, has that first
   * tag and that id, and sits under some path and verb.
   */
  lemma EveryListedOperation(swagger: Value, strictTags: bool, tag: string, id: string)
    requires Convert(swagger, strictTags).Ok? && Lists(Convert(swagger, strictTags).value, tag, id)
    ensures Truthy(swagger) && Truthy(Get(swagger, PathsKey))
    ensures var paths := Get(swagger, PathsKey);
      exists urlPath, verb :: urlPath in Keys(paths) && verb in Keys(Get(paths, urlPath))
        && Writes(urlPath, verb, Get(Get(paths, urlPath), verb), strictTags, tag, id,
                  Get(Get(Convert(swagger, strictTags).value, tag), id))
  {
    assert !Lists(EmptyObject, tag, id);
    var paths := Get(swagger, PathsKey);
    EmptyWellFormed();
    AddPathsTraced(EmptyObject, paths, Keys(paths), strictTags, tag, id);
    FromPathsNamed(paths, strictTags, tag, id, Get(Get(Convert(swagger, strictTags).value, tag), id));
  }

  /** A writer on one of the document's paths is an operation under some path and verb of it. */
  lemma FromPathsNamed(paths: Value, strictTags: bool, tag: string, id: string, e: Value)
    requires FromPaths(paths, Keys(paths), strictTags, tag, id, e)
    ensures exists urlPath, verb ::
              && urlPath in Keys(paths) && verb in Keys(Get(paths, urlPath))
              && Writes(urlPath, verb, Get(Get(paths, urlPath), verb), strictTags, tag, id, e)
  {
    var i := PathWitness(paths, Keys(paths), strictTags, tag, id, e);
    var urlPath := Keys(paths)[i];
    var j := MethodWitness(urlPath, Get(paths, urlPath), Keys(Get(paths, urlPath)), strictTags, tag, id, e);
    var verb := Keys(Get(paths, urlPath))[j];
    assert urlPath in Keys(paths) && verb in Keys(Get(paths, urlPath));
  }

  /** A document with one tagged operation on a parameterised path. */
  const TaggedOp: Value := Obj([Prop(TagsKey, Arr([Str("a")])), Prop(OperationIdKey, Str("getA"))])
  const TaggedItem: Value := Obj([Prop("get", TaggedOp)])
  const TaggedPaths: Value := Obj([Prop("/a/{id}", TaggedItem)])
  const Tagged: Value := Obj([Prop(PathsKey, TaggedPaths)])

  /** The operation qualifies, under the tag `a` and the id `getA`. */
  lemma TaggedOpQualifies()
    ensures Qualifies(TaggedOp, true) == Ok(true) && TagOf(TaggedOp) == "a" && IdOf(TaggedOp) == "getA"
  {
    GetFirst(TaggedOp.props, 0, TagsKey);
    GetFirst(TaggedOp.props, 1, OperationIdKey);
    var tags := Get(TaggedOp, TagsKey);
    assert tags == Arr([Str("a")]) && LengthOf(tags) == Num(1);
    assert Get(tags, "0") == Str("a");
  }

  /** Into an empty tree, the entry goes into a new group. */
  lemma FirstEntry(tag: string, id: string, e: Value)
    ensures WithEntry(EmptyObject, tag, id, e) == Obj([Prop(tag, Obj([Prop(id, e)]))])
  {
    var group := Obj([Prop(id, e)]);
    var withGroup := SetProp(EmptyObject, tag, Or(Get(EmptyObject, tag), EmptyObject));
    assert withGroup == Obj([Prop(tag, EmptyObject)]);
    GetFirst([Prop(tag, EmptyObject)], 0, tag);
    assert SetProp(Get(withGroup, tag), id, e) == group;
    assert SetInProps([Prop(tag, EmptyObject)], tag, group) == [Prop(tag, group)];
  }

  lemma TaggedItemAdded()
    ensures AddPath(EmptyObject, TaggedPaths, "/a/{id}", true)
         == Ok(Obj([Prop("a", Obj([Prop("getA", Entry("get", "/a/:id"))]))]))
  {
    GetFirst(TaggedPaths.props, 0, "/a/{id}");
    GetFirst(TaggedItem.props, 0, "get");
    assert Keys(TaggedItem) == ["get"] && ["get"][1..] == [];
    TaggedOpQualifies();
    RewriteUrlExample();
    FirstEntry("a", "getA", Entry("get", "/a/:id"));
  }

  /** It becomes one group, `a`, holding one `http` operation, `getA`, on `/a/:id`. */
  lemma TaggedExample()
    ensures Convert(Tagged, true) == Ok(Obj([Prop("a", Obj([Prop("getA", Entry("get", "/a/:id"))]))]))
  {
    GetFirst(Tagged.props, 0, PathsKey);
    assert Keys(TaggedPaths) == ["/a/{id}"] && ["/a/{id}"][1..] == [];
    TaggedItemAdded();
  }

  // ---------------------------------------------------------------------------------------
  // Operations without tags

  /**
   * As written, an operation without `tags` makes the converter throw: a document with one
   * path whose one operation has only an `operationId`.
   */
  const Untagged: Value :=
    Obj([Prop(PathsKey, Obj([Prop("/a", Obj([Prop("get", Obj([Prop(OperationIdKey, Str("getA"))]))]))]))])

  lemma UntaggedThrowsAsWritten()
    ensures Convert(Untagged, true) == Err(TypeError)
    ensures Convert(Untagged, false) == Ok(EmptyObject)
  {
    var paths := Get(Untagged, PathsKey);
    var pathItem := Get(paths, "/a");
    var op := Get(pathItem, "get");
    GetFirst(Untagged.props, 0, PathsKey);
    GetFirst(paths.props, 0, "/a");
    GetFirst(pathItem.props, 0, "get");
    assert Keys(paths) == ["/a"] && Keys(pathItem) == ["get"];
    assert Get(op, TagsKey) == Undefined;
    assert AddOperation(EmptyObject, "/a", "get", op, false) == Ok(EmptyObject);
    assert AddMethods(EmptyObject, "/a", pathItem, ["get"], false) == Ok(EmptyObject) by {
      assert ["get"][1..] == [];
    }
    assert AddPaths(EmptyObject, paths, ["/a"], false) == Ok(EmptyObject) by {
      assert ["/a"][1..] == [];
    }
  }

  /**
   * With the corrected guard an operation object never makes the converter throw, and
   * one without tags is skipped; where tags are present the two guards agree.
   */
  lemma UntaggedSkipped(arb: Value, urlPath: string, verb: string, op: Value)
    requires !IsNullish(op)
    ensures AddOperation(arb, urlPath, verb, op, false).Ok?
    ensures IsNullish(Get(op, TagsKey)) ==> AddOperation(arb, urlPath, verb, op, false) == Ok(arb)
    ensures !IsNullish(Get(op, TagsKey)) ==>
      AddOperation(arb, urlPath, verb, op, false) == AddOperation(arb, urlPath, verb, op, true)
  {
  }
}
