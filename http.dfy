/**
 * The `http` async module. From an operation's details (`url`, `method`, `headers`,
 * `prefixType`) and the builder's globals (`prefixes`, `params`) it prepares a function
 * that turns a request object (`params`, `payload`, `uriOverride`, `headers`) into the
 * call cross-fetch makes, and a mock function that answers from a definition's
 * `superMockResponse`, `smartMockResponse` and `mockResponse`.
 */
module Http {
  import opened Wrappers
  import opened JsString
  import opened Js
  import opened UriCodec
  import opened FormCodec

  const ModuleName: string := "http"
  const ValidMethods: seq<string> := ["GET", "PUT", "POST", "DELETE"]
  const UrlEncodedContentType: string := "application/x-www-form-urlencoded;charset=utf-8"
  const JsonContentType: string := "application/json;charset=UTF-8"
  const FormDataContentType: string := "multipart/form-data"

  predicate IsValidMethod(m: Value)
  {
    m.Str? && m.s in ValidMethods
  }

  // ----- headers -----

  /** `headers || {}`. */
  function HeadersOrEmpty(headers: Value): Value
  {
    Or(headers, EmptyObject)
  }

  /** A PUT or POST whose headers give neither a `Content-Type` nor an `enctype`. */
  predicate NeedsJsonContentType(httpMethod: Value, h: Value)
  {
    && (httpMethod == Str("PUT") || httpMethod == Str("POST"))
    && !Truthy(Get(h, "Content-Type"))
    && !Truthy(Get(h, "enctype"))
  }

  /**
   * `setDefaultJSONContentType`: the headers to send, where a PUT or POST without a
   * content type gets the JSON one and every other header stays as it was.
   */
  function WithDefaultContentType(httpMethod: Value, inputHeaders: Value): (headers: Value)
    ensures var h := HeadersOrEmpty(inputHeaders);
      !(h.Obj? && NeedsJsonContentType(httpMethod, h)) ==> headers == h
    ensures var h := HeadersOrEmpty(inputHeaders);
      h.Obj? && NeedsJsonContentType(httpMethod, h) ==>
        && headers.Obj?
        && Get(headers, "Content-Type") == Str(JsonContentType)
        && (forall k :: k != "Content-Type" ==> Get(headers, k) == Get(h, k))
        && Keys(headers) == (if HasOwn(h, "Content-Type") then Keys(h) else Keys(h) + ["Content-Type"])
  {
    var h := HeadersOrEmpty(inputHeaders);
    if NeedsJsonContentType(httpMethod, h) then SetProp(h, "Content-Type", Str(JsonContentType)) else h
  }

  /** The content type the payload transformation dispatches on: `headers['Content-Type'] || headers.enctype`. */
  function ContentTypeOf(headersInput: Value): Value
  {
    var h := HeadersOrEmpty(headersInput);
    Or(Get(h, "Content-Type"), Get(h, "enctype"))
  }

  /**
   * Applying the default a second time changes nothing, so writing it into the
   * operation's own headers object (as the module does) leaves later calls unaffected.
   */
  lemma DefaultContentTypeIdempotent(httpMethod: Value, inputHeaders: Value)
    ensures WithDefaultContentType(httpMethod, WithDefaultContentType(httpMethod, inputHeaders))
         == WithDefaultContentType(httpMethod, inputHeaders)
  {
  }

  /** After the default, an object's headers for a PUT or POST always name a content type. */
  lemma DefaultContentTypeNamesOne(httpMethod: Value, inputHeaders: Value)
    requires httpMethod == Str("PUT") || httpMethod == Str("POST")
    requires HeadersOrEmpty(inputHeaders).Obj?
    ensures Truthy(ContentTypeOf(WithDefaultContentType(httpMethod, inputHeaders)))
    ensures !Truthy(ContentTypeOf(inputHeaders)) ==>
      ContentTypeOf(WithDefaultContentType(httpMethod, inputHeaders)) == Str(JsonContentType)
  {
  }

  // ----- path parameters -----

  /** The text a parameter value stands for: plain objects, `null` and `undefined` stand for nothing. */
  function ParamText(value: Value): (t: string)
    ensures value.Obj? || IsNullish(value) ==> t == ""
    ensures value.Str? ==> t == value.s
  {
    if value.Obj? || IsNullish(value) then "" else ToStr(value)
  }

  /**
   * `smartURIEncodeParam(data, name)`: the URI-encoded text of `data[name]`. Decoding it
   * gives the parameter's text back, and it holds no `$` (so `replace` inserts it
   * literally) and no `:` (so it never forms a new placeholder).
   */
  function SmartUriEncodeParam(data: Value, name: string): (r: string)
    ensures DecodeUtf8(PercentDecode(r)) == Some(ParamText(Get(data, name)))
    ensures '$' !in r && ':' !in r
  {
    var text := ParamText(Get(data, name));
    EncodeRoundTrip(text);
    EncodedHasNoSpecials(text);
    EncodeUriComponent(text)
  }

  /** One step of `replaceParams`: the first `:name` in `s` takes the encoded value of `params[name]`. */
  function SubstituteParam(s: string, params: Value, name: string): string
  {
    ReplaceFirst(s, ":" + name, SmartUriEncodeParam(params, name))
  }

  /** The parameters `names` substituted one after the other, in order. */
  function SubstituteParams(s: string, params: Value, names: seq<string>): string
    decreases |names|
  {
    if |names| == 0 then s
    else SubstituteParam(SubstituteParams(s, params, names[..|names| - 1]), params, names[|names| - 1])
  }

  /** What `replaceParams(s, params)` gives: every own key of a truthy `params`, in key order. */
  function ParamsReplaced(s: string, params: Value): string
  {
    if Truthy(params) then SubstituteParams(s, params, Keys(params)) else s
  }

  lemma SubstituteParamsSnoc(s: string, params: Value, names: seq<string>, i: nat)
    requires i < |names|
    ensures SubstituteParams(s, params, names[..i + 1])
         == SubstituteParam(SubstituteParams(s, params, names[..i]), params, names[i])
  {
    assert names[..i + 1][..i] == names[..i];
  }

  /** `replaceParams`: reassigns the string once per parameter name. */
  method ReplaceParams(s: string, params: Value) returns (r: string)
    ensures r == ParamsReplaced(s, params)
  {
    r := s;
    if Truthy(params) {
      var names := Keys(params);
      var i := 0;
      while i < |names|
        invariant 0 <= i <= |names|
        invariant r == SubstituteParams(s, params, names[..i])
      {
        SubstituteParamsSnoc(s, params, names, i);
        r := ReplaceFirst(r, ":" + names[i], SmartUriEncodeParam(params, names[i]));
        i := i + 1;
      }
      assert names[..|names|] == names;
    }
  }

  /** A placeholder is replaced at its first occurrence by exactly the encoded value; nothing else changes. */
  lemma SubstituteParamAt(s: string, params: Value, name: string, i: nat)
    requires OccursAt(s, ":" + name, i)
    requires forall k :: 0 <= k < i ==> !OccursAt(s, ":" + name, k)
    ensures SubstituteParam(s, params, name)
         == s[..i] + SmartUriEncodeParam(params, name) + s[i + |name| + 1..]
  {
    ReplaceFirstLiteral(s, ":" + name, SmartUriEncodeParam(params, name), i);
  }

  lemma NoColonNoOccurrence(s: string, name: string)
    requires ':' !in s
    ensures IndexOf(s, ":" + name) == None
  {
    forall k | 0 <= k && k + |name| + 1 <= |s| ensures !OccursAt(s, ":" + name, k) {
      assert s[k..k + |name| + 1][0] == s[k];
    }
  }

  lemma {:induction false} SubstituteParamsNoColon(s: string, params: Value, names: seq<string>)
    requires ':' !in s
    decreases |names|
    ensures SubstituteParams(s, params, names) == s
  {
    if |names| > 0 {
      SubstituteParamsNoColon(s, params, names[..|names| - 1]);
      NoColonNoOccurrence(s, names[|names| - 1]);
    }
  }

  /** A string without any `:` has no placeholders and is returned unchanged. */
  lemma ParamsReplacedNoColon(s: string, params: Value)
    requires ':' !in s
    ensures ParamsReplaced(s, params) == s
  {
    if Truthy(params) {
      SubstituteParamsNoColon(s, params, Keys(params));
    }
  }

  // ----- payload -----

  /** The request body: a value (text, `null` or the payload itself), or the entries of a FormData. */
  datatype Body = Plain(value: Value) | Multipart(entries: seq<(string, string)>)

  /** The name/value pairs of `application/x-www-form-urlencoded` data, one per own key. */
  function FormFields(data: Value): (fields: seq<(string, string)>)
    ensures |fields| == |Keys(data)|
    ensures forall i :: 0 <= i < |fields| ==> fields[i].0 == Keys(data)[i]
  {
    var keys := Keys(data);
    seq(|keys|, i requires 0 <= i < |keys| => (keys[i], ParamText(Get(data, keys[i]))))
  }

  /** The query text of `transformToQueryString`; a form parser reads the fields back from it. */
  function QueryString(data: Value): (q: string)
    ensures ParseForm(q) == Some(FormFields(data))
  {
    FormRoundTrip(FormFields(data));
    SerializeForm(FormFields(data))
  }

  lemma QueryPairAt(data: Value, i: nat)
    requires i < |Keys(data)|
    ensures var pairs := EncodedPairs(FormFields(data));
      pairs[..i + 1] == pairs[..i]
        + [EncodeUriComponent(Keys(data)[i]) + "=" + SmartUriEncodeParam(data, Keys(data)[i])]
  {
    var fields := FormFields(data);
    var key := Keys(data)[i];
    SmartEncodedIs(data, key);
    FormFieldAt(data, i);
    EncodedPairAt(fields, i);
    PrefixSnoc(EncodedPairs(fields), i);
  }

  lemma FormFieldAt(data: Value, i: nat)
    requires i < |Keys(data)|
    ensures FormFields(data)[i] == (Keys(data)[i], ParamText(Get(data, Keys(data)[i])))
  {
  }

  lemma SmartEncodedIs(data: Value, name: string)
    ensures SmartUriEncodeParam(data, name) == EncodeUriComponent(ParamText(Get(data, name)))
  {
  }

  /** `transformToQueryString`: encoded `name=value` pairs joined by `&`, with `%20` written `+`. */
  method TransformToQueryString(data: Value) returns (q: string)
    ensures q == QueryString(data)
    ensures ParseForm(q) == Some(FormFields(data))
  {
    var keys := Keys(data);
    ghost var pairs := EncodedPairs(FormFields(data));
    var params: seq<string> := [];
    var i := 0;
    while i < |keys|
      invariant 0 <= i <= |keys|
      invariant params == pairs[..i]
    {
      QueryPairAt(data, i);
      params := params + [EncodeUriComponent(keys[i]) + "=" + SmartUriEncodeParam(data, keys[i])];
      i := i + 1;
    }
    assert pairs[..|keys|] == pairs;
    q := ReplaceAll(Join(params, "&"), "%20", "+");
  }

  /** The entries `formData.append(key, data[key])` adds, values converted to strings as FormData does. */
  function FormDataEntries(data: Value): (entries: seq<(string, string)>)
    ensures |entries| == |Keys(data)|
    ensures forall i :: 0 <= i < |entries| ==> entries[i] == (Keys(data)[i], ToStr(Get(data, Keys(data)[i])))
  {
    var keys := Keys(data);
    seq(|keys|, i requires 0 <= i < |keys| => (keys[i], ToStr(Get(data, keys[i]))))
  }

  /** `transformToFormData`: one entry per own key, in key order. */
  method TransformToFormData(data: Value) returns (entries: seq<(string, string)>)
    ensures entries == FormDataEntries(data)
  {
    var keys := Keys(data);
    entries := [];
    var i := 0;
    while i < |keys|
      invariant 0 <= i <= |keys|
      invariant entries == FormDataEntries(data)[..i]
    {
      assert FormDataEntries(data)[..i + 1] == FormDataEntries(data)[..i] + [FormDataEntries(data)[i]];
      entries := entries + [(keys[i], ToStr(Get(data, keys[i])))];
      i := i + 1;
    }
  }

  /** The JSON text of a value, or the text `undefined` where JSON.stringify gives `undefined`. */
  function JsonOrUndefined(v: Value): string
  {
    match Stringify(v)
    case Some(t) => t
    case None => "undefined"
  }

  /**
   * `transformRequestPayload`: no payload gives a `null` body; otherwise the content type
   * chooses form-urlencoded text, JSON text, FormData entries, or the payload as it is.
   */
  function TransformRequestPayload(headersInput: Value, payload: Value): (body: Body)
    ensures IsNullish(payload) ==> body == Plain(Null)
    ensures !IsNullish(payload) && ContentTypeOf(headersInput) == Str(UrlEncodedContentType) ==>
      body.Plain? && body.value.Str? && ParseForm(body.value.s) == Some(FormFields(payload))
    ensures !IsNullish(payload) && ContentTypeOf(headersInput) == Str(JsonContentType) ==>
      body == Plain(match Stringify(payload) case Some(t) => Str(t) case None => Undefined)
    ensures !IsNullish(payload) && ContentTypeOf(headersInput) == Str(FormDataContentType) ==>
      body == Multipart(FormDataEntries(payload))
    ensures (&& !IsNullish(payload)
             && ContentTypeOf(headersInput) != Str(UrlEncodedContentType)
             && ContentTypeOf(headersInput) != Str(JsonContentType)
             && ContentTypeOf(headersInput) != Str(FormDataContentType)) ==> body == Plain(payload)
  {
    if IsNullish(payload) then Plain(Null)
    else
      var contentType := ContentTypeOf(headersInput);
      if contentType == Str(UrlEncodedContentType) then Plain(Str(QueryString(payload)))
      else if contentType == Str(JsonContentType) then
        Plain(match Stringify(payload) case Some(t) => Str(t) case None => Undefined)
      else if contentType == Str(FormDataContentType) then Multipart(FormDataEntries(payload))
      else Plain(payload)
  }

  // ----- urls -----

  /** `operationDetails && operationDetails.prefixType || "default"`. */
  function PrefixType(od: Value): Value
  {
    Or(And(od, Get(od, "prefixType")), Str("default"))
  }

  /**
   * `getUrlPrefix`: the global prefix registered under the operation's prefix type, or the
   * empty string when there is none (or it is falsy).
   */
  function UrlPrefix(od: Value, prefixes: Value): (prefix: Value)
    ensures Truthy(prefix) || prefix == Str("")
    ensures Truthy(prefix) <==> Truthy(prefixes) && Truthy(Get(prefixes, ToStr(PrefixType(od))))
    ensures Truthy(prefix) ==> prefix == Get(prefixes, ToStr(PrefixType(od)))
  {
    Or(And(prefixes, Get(prefixes, ToStr(PrefixType(od)))), Str(""))
  }

  /** Without a truthy `prefixType`, the prefix is the one registered as `default`. */
  lemma UrlPrefixDefault(od: Value, prefixes: Value)
    requires !Truthy(od) || !Truthy(Get(od, "prefixType"))
    ensures UrlPrefix(od, prefixes) == Or(And(prefixes, Get(prefixes, "default")), Str(""))
  {
  }

  /** A truthy string `prefixType` selects the prefix registered under that name. */
  lemma UrlPrefixNamed(od: Value, prefixes: Value, name: string)
    requires Truthy(od) && Get(od, "prefixType") == Str(name) && name != ""
    ensures UrlPrefix(od, prefixes) == Or(And(prefixes, Get(prefixes, name)), Str(""))
  {
  }

  /** `/^\w+:\/\//.test(url)`: one or more word characters at the start, then `://`. */
  predicate IsAbsoluteUrl(url: string)
  {
    var n := LeadingWordChars(url);
    n >= 1 && n + 3 <= |url| && url[n] == ':' && url[n + 1] == '/' && url[n + 2] == '/'
  }

  /** The pattern matched with a scheme of length `n`. */
  predicate SchemeMatch(url: string, n: int)
  {
    && 1 <= n && n + 3 <= |url|
    && (forall k :: 0 <= k < n ==> IsWordChar(url[k]))
    && url[n] == ':' && url[n + 1] == '/' && url[n + 2] == '/'
  }

  /** The greedy reading agrees with the regular expression read as "some scheme length fits". */
  lemma AbsoluteUrlMatches(url: string)
    ensures IsAbsoluteUrl(url) <==> exists n :: SchemeMatch(url, n)
  {
    var l := LeadingWordChars(url);
    if IsAbsoluteUrl(url) {
      assert SchemeMatch(url, l);
    }
    if exists n :: SchemeMatch(url, n) {
      var n :| SchemeMatch(url, n);
      assert n == l;
    }
  }

  /** The url with the prefix in front unless it is already absolute. */
  function WithPrefix(prefix: Value, url: string): string
  {
    if IsAbsoluteUrl(url) then url else ToStr(prefix) + url
  }

  lemma {:induction false} LeadingWordCharsAppend(a: string, b: string)
    requires LeadingWordChars(a) < |a|
    ensures LeadingWordChars(a + b) == LeadingWordChars(a)
  {
    if IsWordChar(a[0]) {
      assert (a + b)[1..] == a[1..] + b;
      LeadingWordCharsAppend(a[1..], b);
    }
  }

  /**
   * With an absolute prefix, prefixing gives an absolute url and is idempotent, so the
   * prefix that is added again after a `uriOverride` is never doubled.
   */
  lemma PrefixIdempotent(prefix: Value, url: string)
    requires IsAbsoluteUrl(ToStr(prefix))
    ensures IsAbsoluteUrl(WithPrefix(prefix, url))
    ensures WithPrefix(prefix, WithPrefix(prefix, url)) == WithPrefix(prefix, url)
  {
    var p := ToStr(prefix);
    if !IsAbsoluteUrl(url) {
      var n := LeadingWordChars(p);
      LeadingWordCharsAppend(p, url);
    }
  }

  /** `operationDetails && operationDetails.url`, or the empty string when that is not a string. */
  function UrlText(od: Value): string
  {
    var u := And(od, Get(od, "url"));
    if u.Str? then u.s else ""
  }

  /**
   * `getMethodURL`: the operation's url, prefixed unless absolute, with the global
   * parameters substituted.
   */
  function MethodUrl(od: Value, prefix: Value, params: Value): (url: string)
    ensures !Truthy(params) ==> url == WithPrefix(prefix, UrlText(od))
  {
    ParamsReplaced(WithPrefix(prefix, UrlText(od)), params)
  }

  // ----- the request -----

  datatype FinalRequest = FinalRequest(url: string, httpMethod: Value, headers: Value, body: Body)

  /** `requestObject && requestObject[name]`. */
  function Field(request: Value, name: string): Value
  {
    And(request, Get(request, name))
  }

  /** `Object.assign({}, headers, dynamicHeaders)`. */
  function MergeHeaders(headers: Value, dynamicHeaders: Value): Value
  {
    Assign(Assign(EmptyObject, headers), dynamicHeaders)
  }

  /** In the merged headers the dynamic ones win and every other header is the default one. */
  lemma MergeHeadersGet(headers: Value, dynamicHeaders: Value)
    ensures MergeHeaders(headers, dynamicHeaders).Obj?
    ensures forall k :: (Get(MergeHeaders(headers, dynamicHeaders), k)
      == if HasOwn(dynamicHeaders, k) then Get(dynamicHeaders, k) else Get(headers, k))
  {
    AssignGet(EmptyObject, headers, "");
    AssignGet(Assign(EmptyObject, headers), dynamicHeaders, "");
    forall k
      ensures Get(MergeHeaders(headers, dynamicHeaders), k)
        == if HasOwn(dynamicHeaders, k) then Get(dynamicHeaders, k) else Get(headers, k)
    {
      AssignGet(EmptyObject, headers, k);
      AssignGet(Assign(EmptyObject, headers), dynamicHeaders, k);
    }
  }

  /** The url of the request: the override (prefixed again unless absolute) or the method url, with parameters substituted. */
  function RequestUrl(url: string, prefix: Value, uriOverride: Value, params: Value): string
    requires !Truthy(uriOverride) || uriOverride.Str?
  {
    ParamsReplaced(if Truthy(uriOverride) then WithPrefix(prefix, uriOverride.s) else url, params)
  }

  /**
   * `createFinalRequestObject`. It throws a TypeError exactly when the override is truthy
   * but not a string (`uri.match` is then not a function).
   */
  function CreateFinalRequest(url: string, prefix: Value, httpMethod: Value, defaultHeaders: Value, request: Value)
    : (r: Result<FinalRequest>)
    ensures r.Err? <==> Truthy(Field(request, "uriOverride")) && !Field(request, "uriOverride").Str?
    ensures r.Ok? ==> r.value.httpMethod == httpMethod
    ensures r.Ok? ==> r.value.url == RequestUrl(url, prefix, Field(request, "uriOverride"), Field(request, "params"))
    ensures r.Ok? ==> r.value.headers.Obj?
    ensures r.Ok? ==> forall k :: (Get(r.value.headers, k) ==
      if HasOwn(Field(request, "headers"), k) then Get(Field(request, "headers"), k)
      else Get(WithDefaultContentType(httpMethod, defaultHeaders), k))
    ensures r.Ok? ==> (r.value.body
      == TransformRequestPayload(WithDefaultContentType(httpMethod, defaultHeaders), Field(request, "payload")))
  {
    var uriOverride := Field(request, "uriOverride");
    var dynamicHeaders := Field(request, "headers");
    var headers := WithDefaultContentType(httpMethod, defaultHeaders);
    if Truthy(uriOverride) && !uriOverride.Str? then Err(TypeError)
    else
      MergeHeadersGet(headers, dynamicHeaders);
      Ok(FinalRequest(
        RequestUrl(url, prefix, uriOverride, Field(request, "params")),
        httpMethod,
        MergeHeaders(headers, dynamicHeaders),
        TransformRequestPayload(headers, Field(request, "payload"))))
  }

  /** Without an override the method url is used as it is: the prefix is not added a second time. */
  lemma RequestUrlNoOverride(url: string, prefix: Value, params: Value)
    requires ':' !in url
    ensures RequestUrl(url, prefix, Undefined, params) == url
  {
    ParamsReplacedNoColon(url, params);
  }

  // ----- the async function -----

  /** The builder's globals the module reads. */
  datatype Globals = Globals(prefixes: Value, params: Value)

  /** The async function `getAsyncFn` returns, by what it does when called. */
  datatype AsyncFn =
    | RejectInvalidMethod(message: string)
    | SendRequest(url: string, prefix: Value, httpMethod: Value, headers: Value)

  /** What calling an async function does: settle at once, hand a request to fetch, or throw. */
  datatype Call =
    | Resolved(value: Value)
    | Rejected(reason: Value)
    | Fetch(request: FinalRequest)
    | Threw(error: string)

  /** The method after `getAsyncFn` writes its default: GET when there is a url but no method. */
  function DefaultedMethod(od: Value): (m: Value)
    ensures od.Obj? && !Truthy(Get(od, "method")) && Truthy(Get(od, "url")) ==> m == Str("GET")
    ensures !(od.Obj? && !Truthy(Get(od, "method")) && Truthy(Get(od, "url"))) ==> m == Get(od, "method")
  {
    var m := if !Truthy(Get(od, "method")) && Truthy(Get(od, "url")) then Str("GET") else Get(od, "method");
    Get(SetProp(od, "method", m), "method")
  }

  /**
   * `getAsyncFn`: throws on missing operation details; otherwise a function that rejects
   * with `Invalid XHR method …` for a method outside GET, PUT, POST and DELETE, or sends.
   */
  function GetAsyncFn(od: Value, globals: Globals): (r: Result<AsyncFn>)
    ensures r.Err? <==> IsNullish(od)
    ensures r.Err? ==> r.error == TypeError
    ensures r.Ok? ==> (r.value.SendRequest? <==> IsValidMethod(DefaultedMethod(od)))
    ensures r.Ok? && r.value.RejectInvalidMethod? ==>
      r.value.message == "Invalid XHR method " + ToStr(DefaultedMethod(od))
    ensures r.Ok? && r.value.SendRequest? ==>
      && r.value.prefix == UrlPrefix(od, globals.prefixes)
      && r.value.url == MethodUrl(od, r.value.prefix, globals.params)
      && r.value.httpMethod == DefaultedMethod(od)
      && r.value.headers == Get(od, "headers")
  {
    if IsNullish(od) then Err(TypeError)
    else
      var prefix := UrlPrefix(od, globals.prefixes);
      var httpMethod := DefaultedMethod(od);
      if !IsValidMethod(httpMethod) then Ok(RejectInvalidMethod("Invalid XHR method " + ToStr(httpMethod)))
      else Ok(SendRequest(MethodUrl(od, prefix, globals.params), prefix, httpMethod, Get(od, "headers")))
  }

  /** Calling the async function with a request object. */
  function Invoke(f: AsyncFn, request: Value): (c: Call)
    ensures f.RejectInvalidMethod? ==> c == Rejected(Str(f.message))
    ensures f.SendRequest? ==> (c.Fetch? || c.Threw?)
  {
    match f
    case RejectInvalidMethod(message) => Rejected(Str(message))
    case SendRequest(url, prefix, httpMethod, headers) =>
      match CreateFinalRequest(url, prefix, httpMethod, headers, request)
      case Err(e) => Threw(e)
      case Ok(final) => Fetch(final)
  }

  /** An operation with a url and no method is sent as a GET. */
  lemma GetIsTheDefault(od: Value, globals: Globals)
    requires od.Obj? && !Truthy(Get(od, "method")) && Truthy(Get(od, "url"))
    ensures GetAsyncFn(od, globals).Ok? && GetAsyncFn(od, globals).value.SendRequest?
    ensures GetAsyncFn(od, globals).value.httpMethod == Str("GET")
  {
  }

  /** An operation with neither method nor url is rejected as `Invalid XHR method undefined`. */
  lemma NoMethodNoUrlRejected(od: Value, globals: Globals, request: Value)
    requires od.Obj? && !HasOwn(od, "method") && !HasOwn(od, "url")
    ensures GetAsyncFn(od, globals).Ok?
    ensures Invoke(GetAsyncFn(od, globals).value, request) == Rejected(Str("Invalid XHR method undefined"))
  {
    assert DefaultedMethod(od) == Undefined;
    assert "Invalid XHR method " + ToStr(Undefined) == "Invalid XHR method undefined";
  }

  /** How fetch's answer settles: fulfilled with the parsed JSON (or the text) for a status in 200..399. */
  datatype Settlement = Fulfilled(value: Value) | RejectedWithResponse(status: int)

  /**
   * `sendHttpRequest` once fetch has answered with `status` and body `text`; `parsed` is
   * what JSON.parse makes of the text, `None` where it throws.
   */
  function Settle(status: int, text: string, parsed: Option<Value>): (s: Settlement)
    ensures s.Fulfilled? <==> 200 <= status < 400
    ensures s.Fulfilled? && parsed.None? ==> s.value == Str(text)
    ensures s.Fulfilled? && parsed.Some? ==> s.value == parsed.value
    ensures s.RejectedWithResponse? ==> s.status == status
  {
    if 200 <= status && status < 400 then
      Fulfilled(match parsed case Some(v) => v case None => Str(text))
    else RejectedWithResponse(status)
  }

  // ----- mocks -----

  /**
   * The cascade of mock responses: the super mock entry under `key`, else the smart mock
   * entry under `url`, else `mockResponse`, else `{}`, deep-copied through JSON; `undefined`
   * when the definition has none of the three.
   */
  function MockAnswer(def: Value, url: string, key: string): Result<Value>
  {
    var mock := Get(def, "mockResponse");
    var smart := Get(def, "smartMockResponse");
    var super := Get(def, "superMockResponse");
    if !(Truthy(mock) || Truthy(smart) || Truthy(super)) then Ok(Undefined)
    else
      var bySuper := if Truthy(super) then Get(super, key) else Undefined;
      var chosen := if !Truthy(bySuper) && Truthy(smart) then Get(smart, url) else bySuper;
      match Clone(Or(Or(chosen, mock), EmptyObject))
      case None => Err(SyntaxError)
      case Some(copy) => Ok(copy)
  }

  lemma CloneTruthyJson(v: Value)
    requires Truthy(v)
    requires v == Undefined || IsJson(v)
    ensures Clone(v) == Some(v)
  {
    CloneJson(v);
  }

  /** On a JSON definition the mocks take precedence super, smart, plain, then `{}`. */
  lemma MockAnswerPrecedence(def: Value, url: string, key: string)
    requires IsJson(def)
    ensures MockAnswer(def, url, key).Ok?
    ensures var mock := Get(def, "mockResponse");
      var smart := Get(def, "smartMockResponse");
      var super := Get(def, "superMockResponse");
      var bySuper := Get(super, key);
      var bySmart := Get(smart, url);
      && (!(Truthy(mock) || Truthy(smart) || Truthy(super)) ==> MockAnswer(def, url, key) == Ok(Undefined))
      && (Truthy(super) && Truthy(bySuper) ==> MockAnswer(def, url, key) == Ok(bySuper))
      && (!(Truthy(super) && Truthy(bySuper)) && Truthy(smart) && Truthy(bySmart) ==>
            MockAnswer(def, url, key) == Ok(bySmart))
      && (!(Truthy(super) && Truthy(bySuper)) && !(Truthy(smart) && Truthy(bySmart)) && Truthy(mock) ==>
            MockAnswer(def, url, key) == Ok(mock))
      && ((Truthy(smart) || Truthy(super)) && !(Truthy(super) && Truthy(bySuper))
          && !(Truthy(smart) && Truthy(bySmart)) && !Truthy(mock) ==>
            MockAnswer(def, url, key) == Ok(EmptyObject))
  {
    var mock := Get(def, "mockResponse");
    var smart := Get(def, "smartMockResponse");
    var super := Get(def, "superMockResponse");
    GetJson(def, "mockResponse");
    GetJson(def, "smartMockResponse");
    GetJson(def, "superMockResponse");
    if Truthy(super) {
      GetJson(super, key);
    }
    if Truthy(smart) {
      GetJson(smart, url);
    }
    var bySuper := if Truthy(super) then Get(super, key) else Undefined;
    var chosen := if !Truthy(bySuper) && Truthy(smart) then Get(smart, url) else bySuper;
    var picked := Or(Or(chosen, mock), EmptyObject);
    if Truthy(mock) || Truthy(smart) || Truthy(super) {
      CloneTruthyJson(picked);
    }
  }

  /** The super mock key: the JSON texts of the final url, body and headers. */
  function SuperKey(request: FinalRequest): string
  {
    var body := match request.body case Plain(v) => JsonOrUndefined(v) case Multipart(_) => "{}";
    "URI[" + JsonOrUndefined(Str(request.url)) + "]Payload[" + body + "]Headers[" + JsonOrUndefined(request.headers) + "]"
  }

  /** The mock function `getMockResponseFn` returns: the definition and what was prepared from it. */
  datatype MockFn = MockFn(def: Value, url: string, prefix: Value, httpMethod: Value, headers: Value)

  /** `getMockResponseFn`: never throws while preparing; missing details read as empty. */
  function GetMockResponseFn(def: Value, globals: Globals): (f: MockFn)
    ensures f.def == def
    ensures var od := And(def, Get(def, "operationDetails"));
      f.prefix == UrlPrefix(od, globals.prefixes) && f.url == MethodUrl(od, f.prefix, globals.params)
  {
    var od := And(def, Get(def, "operationDetails"));
    var prefix := UrlPrefix(od, globals.prefixes);
    MockFn(def, MethodUrl(od, prefix, globals.params), prefix,
      Or(And(od, Get(od, "method")), Str("")), Or(And(od, Get(od, "headers")), Str("")))
  }

  /** A mock call once the final request exists: the mocks answer, or reading them throws. */
  function MockCall(def: Value, final: FinalRequest): (c: Call)
    ensures c.Resolved? || c.Threw?
    ensures IsNullish(def) ==> c == Threw(TypeError)
  {
    if IsNullish(def) then Threw(TypeError)
    else
      match MockAnswer(def, final.url, SuperKey(final))
      case Err(e) => Threw(e)
      case Ok(v) => Resolved(v)
  }

  /** With a JSON definition the mock call always resolves. */
  lemma MockCallJson(def: Value, final: FinalRequest)
    requires IsJson(def) && !IsNullish(def)
    ensures MockCall(def, final).Resolved?
  {
    MockAnswerPrecedence(def, final.url, SuperKey(final));
  }

  /** Calling the mock function: the final request is built as for a real call, then the mocks answer. */
  function InvokeMock(f: MockFn, request: Value): (c: Call)
    ensures c.Resolved? || c.Threw?
    ensures CreateFinalRequest(f.url, f.prefix, f.httpMethod, f.headers, request).Err? ==> c.Threw?
  {
    match CreateFinalRequest(f.url, f.prefix, f.httpMethod, f.headers, request)
    case Err(e) => Threw(e)
    case Ok(final) => MockCall(f.def, final)
  }
}
