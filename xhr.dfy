/**
 * The `xhr` async module, the browser twin of `http`. Its header default, payload
 * dispatch, query string, form data and final request are the same code as in `http`, and
 * the model uses the `Http` definitions for them. It differs in four places, each stated
 * here against `http`: path parameters may skip encoding; the operation details are read
 * without a guard; there is no GET default, and a method outside GET, PUT, POST and DELETE
 * gives a function that only fills in the url; and the super mock key has no closing `]`.
 */
module Xhr {
  import opened Wrappers
  import opened JsString
  import opened Js
  import opened UriCodec
  import Http

  const ModuleName: string := "xhr"

  // ----- path parameters -----

  /** The value `smartURIEncodeParam` goes on with: plain objects, `null` and `undefined` read as "". */
  function ParamValue(data: Value, name: string): (v: Value)
    ensures ToStr(v) == Http.ParamText(Get(data, name))
  {
    var value := Get(data, name);
    if value.Obj? || IsNullish(value) then Str("") else value
  }

  /**
   * `smartURIEncodeParam(data, name, skipURIEncoding)`, as the text `replace` inserts for
   * it: the value's own text when encoding is skipped, otherwise exactly what the http
   * module inserts.
   */
  function SmartUriEncodeParam(data: Value, name: string, skipUriEncoding: bool): (r: string)
    ensures !skipUriEncoding ==> r == Http.SmartUriEncodeParam(data, name)
    ensures !skipUriEncoding ==> DecodeUtf8(PercentDecode(r)) == Some(Http.ParamText(Get(data, name)))
    ensures skipUriEncoding ==> r == Http.ParamText(Get(data, name))
  {
    var text := ToStr(ParamValue(data, name));
    if skipUriEncoding then text else EncodeUriComponent(text)
  }

  /** One step of `replaceParams`: the first `:name` takes the (possibly unencoded) value. */
  function SubstituteParam(s: string, params: Value, name: string, skipUriEncoding: bool): string
  {
    ReplaceFirst(s, ":" + name, SmartUriEncodeParam(params, name, skipUriEncoding))
  }

  /** The parameters `names` substituted one after the other, in order. */
  function SubstituteParams(s: string, params: Value, names: seq<string>, skipUriEncoding: bool): string
    decreases |names|
  {
    if |names| == 0 then s
    else
      SubstituteParam(SubstituteParams(s, params, names[..|names| - 1], skipUriEncoding),
        params, names[|names| - 1], skipUriEncoding)
  }

  /** What `replaceParams(s, params, skipURIEncoding)` gives. */
  function ParamsReplaced(s: string, params: Value, skipUriEncoding: bool): string
  {
    if Truthy(params) then SubstituteParams(s, params, Keys(params), skipUriEncoding) else s
  }

  /** With encoding on, the substitutions are the http module's, name by name. */
  lemma {:induction false} SubstituteParamsAsHttp(s: string, params: Value, names: seq<string>)
    decreases |names|
    ensures SubstituteParams(s, params, names, false) == Http.SubstituteParams(s, params, names)
  {
    if |names| > 0 {
      SubstituteParamsAsHttp(s, params, names[..|names| - 1]);
    }
  }

  /** Every caller passes `false`, and then `replaceParams` is the http module's. */
  lemma ParamsReplacedAsHttp(s: string, params: Value)
    ensures ParamsReplaced(s, params, false) == Http.ParamsReplaced(s, params)
  {
    if Truthy(params) {
      SubstituteParamsAsHttp(s, params, Keys(params));
    }
  }

  lemma SubstituteParamsSnoc(s: string, params: Value, names: seq<string>, i: nat, skipUriEncoding: bool)
    requires i < |names|
    ensures SubstituteParams(s, params, names[..i + 1], skipUriEncoding)
         == SubstituteParam(SubstituteParams(s, params, names[..i], skipUriEncoding), params, names[i], skipUriEncoding)
  {
    assert names[..i + 1][..i] == names[..i];
  }

  /** `replaceParams`: reassigns the string once per parameter name. */
  method ReplaceParams(s: string, params: Value, skipUriEncoding: bool) returns (r: string)
    ensures r == ParamsReplaced(s, params, skipUriEncoding)
    ensures !skipUriEncoding ==> r == Http.ParamsReplaced(s, params)
  {
    r := s;
    if Truthy(params) {
      var names := Keys(params);
      var i := 0;
      while i < |names|
        invariant 0 <= i <= |names|
        invariant r == SubstituteParams(s, params, names[..i], skipUriEncoding)
      {
        SubstituteParamsSnoc(s, params, names, i, skipUriEncoding);
        r := SubstituteParam(r, params, names[i], skipUriEncoding);
        i := i + 1;
      }
      assert names[..|names|] == names;
    }
    ParamsReplacedAsHttp(s, params);
  }

  /** With encoding skipped, a `$`-free value's text is put in at the first placeholder as it is. */
  lemma SkippedEncodingIsRaw(s: string, params: Value, name: string, i: nat)
    requires '$' !in Http.ParamText(Get(params, name))
    requires OccursAt(s, ":" + name, i) && forall k :: 0 <= k < i ==> !OccursAt(s, ":" + name, k)
    ensures SubstituteParam(s, params, name, true) == s[..i] + Http.ParamText(Get(params, name)) + s[i + |name| + 1..]
  {
    ReplaceFirstLiteral(s, ":" + name, Http.ParamText(Get(params, name)), i);
  }

  // ----- prefix and url -----

  /** `getUrlPrefix` reads `operationDetails.prefixType` without a guard: missing details throw. */
  function UrlPrefix(od: Value, prefixes: Value): (r: Result<Value>)
    ensures r.Err? <==> IsNullish(od)
    ensures r.Ok? ==> r.value == Http.UrlPrefix(od, prefixes)
  {
    if IsNullish(od) then Err(TypeError)
    else
      var prefixType := Or(Get(od, "prefixType"), Str("default"));
      assert prefixType == Http.PrefixType(od) by {
        if !Truthy(od) { assert Get(od, "prefixType") == Undefined; }
      }
      Ok(Or(And(prefixes, Get(prefixes, ToStr(prefixType))), Str("")))
  }

  /** `getMethodURL` reads `operationDetails.url` without a guard; otherwise the url is the http module's. */
  function MethodUrl(od: Value, prefix: Value, params: Value): (r: Result<string>)
    ensures r.Err? <==> IsNullish(od)
    ensures r.Ok? ==> r.value == Http.MethodUrl(od, prefix, params)
  {
    if IsNullish(od) then Err(TypeError)
    else
      var u := Get(od, "url");
      var text := if u.Str? then u.s else "";
      assert text == Http.UrlText(od) by {
        if !Truthy(od) { assert u == Undefined; }
      }
      ParamsReplacedAsHttp(Http.WithPrefix(prefix, text), params);
      Ok(ParamsReplaced(Http.WithPrefix(prefix, text), params, false))
  }

  /** Missing operation details: http falls back to the `default` prefix and an empty url, xhr throws. */
  lemma UnguardedDetails(od: Value, prefixes: Value, params: Value)
    requires IsNullish(od)
    ensures UrlPrefix(od, prefixes) == Err(TypeError) && MethodUrl(od, Str(""), params) == Err(TypeError)
    ensures Http.UrlPrefix(od, prefixes) == Or(And(prefixes, Get(prefixes, "default")), Str(""))
    ensures Http.MethodUrl(od, Str(""), params) == Http.ParamsReplaced("", params)
  {
    assert Http.WithPrefix(Str(""), "") == "";
  }

  // ----- the async function -----

  /** The function `getAsyncFn` returns, by what it does when called. */
  datatype AsyncFn =
    | PathReplace(url: string)
    | SendXhr(url: string, prefix: Value, httpMethod: Value, headers: Value)

  /** What calling it does: return a string at once, resolve, hand a request to XMLHttpRequest, or throw. */
  datatype Call =
    | Returned(text: string)
    | Resolved(value: Value)
    | Send(request: Http.FinalRequest)
    | Threw(error: string)

  /**
   * `getAsyncFn`: throws on missing operation details; a method outside GET, PUT, POST and
   * DELETE (a missing one included) gives the url-filling function, any other one sends.
   */
  function GetAsyncFn(od: Value, globals: Http.Globals): (r: Result<AsyncFn>)
    ensures r.Err? <==> IsNullish(od)
    ensures r.Ok? ==> (r.value.SendXhr? <==> Http.IsValidMethod(Get(od, "method")))
    ensures r.Ok? ==> r.value.url == Http.MethodUrl(od, Http.UrlPrefix(od, globals.prefixes), globals.params)
    ensures r.Ok? && r.value.SendXhr? ==>
      && r.value.prefix == Http.UrlPrefix(od, globals.prefixes)
      && r.value.httpMethod == Get(od, "method")
      && r.value.headers == Get(od, "headers")
  {
    match UrlPrefix(od, globals.prefixes)
    case Err(e) => Err(e)
    case Ok(prefix) =>
      match MethodUrl(od, prefix, globals.params)
      case Err(e) => Err(e)
      case Ok(url) =>
        if !Http.IsValidMethod(Get(od, "method")) then Ok(PathReplace(url))
        else Ok(SendXhr(url, prefix, Get(od, "method"), Get(od, "headers")))
  }

  /**
   * Calling the function. The url-filling one substitutes the keys of its argument itself
   * (not of `argument.params`) and returns the string; the sending one builds the final
   * request as `http` does.
   */
  function Invoke(f: AsyncFn, argument: Value): (c: Call)
    ensures f.PathReplace? ==> c == Returned(Http.ParamsReplaced(f.url, argument))
    ensures f.SendXhr? ==> (c.Send? || c.Threw?)
    ensures f.SendXhr? ==>
      (c.Send? <==> Http.CreateFinalRequest(f.url, f.prefix, f.httpMethod, f.headers, argument).Ok?)
  {
    match f
    case PathReplace(url) =>
      ParamsReplacedAsHttp(url, argument);
      Returned(ParamsReplaced(url, argument, false))
    case SendXhr(url, prefix, httpMethod, headers) =>
      match Http.CreateFinalRequest(url, prefix, httpMethod, headers, argument)
      case Err(e) => Threw(e)
      case Ok(final) => Send(final)
  }

  /** With a valid method both modules build the same request from the same call, or both throw. */
  lemma ValidMethodSameRequest(od: Value, globals: Http.Globals, request: Value)
    requires od.Obj? && Http.IsValidMethod(Get(od, "method"))
    ensures GetAsyncFn(od, globals).Ok? && Http.GetAsyncFn(od, globals).Ok?
    ensures var x := Invoke(GetAsyncFn(od, globals).value, request);
      var h := Http.Invoke(Http.GetAsyncFn(od, globals).value, request);
      && (x.Send? <==> h.Fetch?)
      && (x.Send? ==> x.request == h.request)
      && (x.Threw? <==> h.Threw?)
  {
    assert Http.DefaultedMethod(od) == Get(od, "method");
  }

  /** No method but a url: http sends a GET, while xhr only fills in the url and sends nothing. */
  lemma NoGetDefault(od: Value, globals: Http.Globals, argument: Value)
    requires od.Obj? && !Truthy(Get(od, "method")) && Truthy(Get(od, "url"))
    ensures Http.GetAsyncFn(od, globals).Ok? && Http.GetAsyncFn(od, globals).value.SendRequest?
    ensures Http.GetAsyncFn(od, globals).value.httpMethod == Str("GET")
    ensures GetAsyncFn(od, globals).Ok? && GetAsyncFn(od, globals).value.PathReplace?
    ensures Invoke(GetAsyncFn(od, globals).value, argument).Returned?
  {
    Http.GetIsTheDefault(od, globals);
    NoMethodFillsUrl(od, globals, argument);
  }

  /** Without a method, xhr's function only fills in the url. */
  lemma NoMethodFillsUrl(od: Value, globals: Http.Globals, argument: Value)
    requires od.Obj? && !Truthy(Get(od, "method"))
    ensures GetAsyncFn(od, globals).Ok? && GetAsyncFn(od, globals).value.PathReplace?
    ensures Invoke(GetAsyncFn(od, globals).value, argument).Returned?
  {
    assert !Http.IsValidMethod(Get(od, "method"));
  }

  /** A method outside the four: http rejects with `Invalid XHR method …`, xhr returns the filled-in url. */
  lemma InvalidMethodBranches(od: Value, globals: Http.Globals, argument: Value)
    requires od.Obj? && Truthy(Get(od, "method")) && !Http.IsValidMethod(Get(od, "method"))
    ensures Http.GetAsyncFn(od, globals).Ok?
    ensures Http.Invoke(Http.GetAsyncFn(od, globals).value, argument)
         == Http.Rejected(Str("Invalid XHR method " + ToStr(Get(od, "method"))))
    ensures GetAsyncFn(od, globals).Ok?
    ensures Invoke(GetAsyncFn(od, globals).value, argument)
         == Returned(Http.ParamsReplaced(Http.MethodUrl(od, Http.UrlPrefix(od, globals.prefixes), globals.params), argument))
  {
    assert Http.DefaultedMethod(od) == Get(od, "method");
  }

  // ----- settling -----

  /** How the XMLHttpRequest's completion settles the promise, or throws inside the event handler. */
  datatype Settlement = Fulfilled(value: Value) | RejectedWith(reason: Value) | HandlerThrew(error: string)

  /** The response: the parsed JSON, or the raw text where `JSON.parse` throws (`parsed` is `None`). */
  function Response(text: string, parsed: Option<Value>): Value
  {
    match parsed
    case Some(v) => v
    case None => Str(text)
  }

  /** The members of the object a failed request rejects with, in the order they are written. */
  function ReasonProps(status: int, statusText: string, responseUrl: string, response: Value): seq<Prop>
  {
    [ Prop("data", response),
      Prop("message", Or(Get(response, "message"), Str(statusText))),
      Prop("reason", Get(response, "reason")),
      Prop("response", response),
      Prop("status", Num(status)),
      Prop("statusText", Str(statusText)),
      Prop("responseURL", Str(responseUrl))]
  }

  lemma ReasonData(status: int, statusText: string, responseUrl: string, response: Value)
    ensures Get(Obj(ReasonProps(status, statusText, responseUrl, response)), "data") == response
  {
    GetFirst(ReasonProps(status, statusText, responseUrl, response), 0, "data");
  }

  lemma ReasonMessage(status: int, statusText: string, responseUrl: string, response: Value)
    ensures Get(Obj(ReasonProps(status, statusText, responseUrl, response)), "message") == Or(Get(response, "message"), Str(statusText))
  {
    GetFirst(ReasonProps(status, statusText, responseUrl, response), 1, "message");
  }

  lemma ReasonReason(status: int, statusText: string, responseUrl: string, response: Value)
    ensures Get(Obj(ReasonProps(status, statusText, responseUrl, response)), "reason") == Get(response, "reason")
  {
    GetFirst(ReasonProps(status, statusText, responseUrl, response), 2, "reason");
  }

  lemma ReasonResponse(status: int, statusText: string, responseUrl: string, response: Value)
    ensures Get(Obj(ReasonProps(status, statusText, responseUrl, response)), "response") == response
  {
    GetFirst(ReasonProps(status, statusText, responseUrl, response), 3, "response");
  }

  lemma ReasonStatus(status: int, statusText: string, responseUrl: string, response: Value)
    ensures Get(Obj(ReasonProps(status, statusText, responseUrl, response)), "status") == Num(status)
  {
    GetFirst(ReasonProps(status, statusText, responseUrl, response), 4, "status");
  }

  lemma ReasonStatusText(status: int, statusText: string, responseUrl: string, response: Value)
    ensures Get(Obj(ReasonProps(status, statusText, responseUrl, response)), "statusText") == Str(statusText)
  {
    GetFirst(ReasonProps(status, statusText, responseUrl, response), 5, "statusText");
  }

  lemma ReasonResponseUrl(status: int, statusText: string, responseUrl: string, response: Value)
    ensures Get(Obj(ReasonProps(status, statusText, responseUrl, response)), "responseURL") == Str(responseUrl)
  {
    GetFirst(ReasonProps(status, statusText, responseUrl, response), 6, "responseURL");
  }

  /** The object a failed request rejects with: the response, its message or the status text, and the status. */
  function RejectReason(status: int, statusText: string, responseUrl: string, response: Value): (reason: Value)
    ensures Get(reason, "data") == response && Get(reason, "response") == response
    ensures Get(reason, "message") == Or(Get(response, "message"), Str(statusText))
    ensures Get(reason, "reason") == Get(response, "reason")
    ensures Get(reason, "status") == Num(status)
    ensures Get(reason, "statusText") == Str(statusText) && Get(reason, "responseURL") == Str(responseUrl)
  {
    ReasonData(status, statusText, responseUrl, response);
    ReasonMessage(status, statusText, responseUrl, response);
    ReasonReason(status, statusText, responseUrl, response);
    ReasonResponse(status, statusText, responseUrl, response);
    ReasonStatus(status, statusText, responseUrl, response);
    ReasonStatusText(status, statusText, responseUrl, response);
    ReasonResponseUrl(status, statusText, responseUrl, response);
    Obj(ReasonProps(status, statusText, responseUrl, response))
  }

  /**
   * `onreadystatechange` once the request is done: resolve with the response for a status
   * in 200..399, otherwise reject with an object describing it. Reading `message` of a
   * `null` JSON response throws before the promise settles.
   */
  function Settle(status: int, statusText: string, responseUrl: string, text: string, parsed: Option<Value>)
    : (s: Settlement)
    ensures s.Fulfilled? <==> 200 <= status < 400
    ensures s.Fulfilled? ==> s.value == Response(text, parsed)
    ensures s.HandlerThrew? <==> !(200 <= status < 400) && IsNullish(Response(text, parsed))
    ensures s.RejectedWith? ==>
      && Get(s.reason, "status") == Num(status)
      && Get(s.reason, "data") == Response(text, parsed)
      && Get(s.reason, "response") == Response(text, parsed)
      && Get(s.reason, "statusText") == Str(statusText)
      && Get(s.reason, "responseURL") == Str(responseUrl)
      && (Truthy(Get(Response(text, parsed), "message")) ==> Get(s.reason, "message") == Get(Response(text, parsed), "message"))
      && (!Truthy(Get(Response(text, parsed), "message")) ==> Get(s.reason, "message") == Str(statusText))
  {
    var response := Response(text, parsed);
    if 200 <= status && status < 400 then Fulfilled(response)
    else if IsNullish(response) then HandlerThrew(TypeError)
    else RejectedWith(RejectReason(status, statusText, responseUrl, response))
  }

  /** A body that is not JSON is handed on as its text, and the two modules agree on what succeeds. */
  lemma SettleAsHttp(status: int, statusText: string, responseUrl: string, text: string, parsed: Option<Value>)
    ensures Settle(status, statusText, responseUrl, text, parsed).Fulfilled?
        <==> Http.Settle(status, text, parsed).Fulfilled?
    ensures Settle(status, statusText, responseUrl, text, parsed).Fulfilled? ==>
      Settle(status, statusText, responseUrl, text, parsed).value == Http.Settle(status, text, parsed).value
    ensures parsed.None? ==> !Settle(status, statusText, responseUrl, text, parsed).HandlerThrew?
  {
  }

  // ----- mocks -----

  /** The xhr super mock key: as in http, but without the closing `]` after the headers. */
  function SuperKey(request: Http.FinalRequest): (key: string)
    ensures Http.SuperKey(request) == key + "]"
  {
    var body := match request.body case Plain(v) => Http.JsonOrUndefined(v) case Multipart(_) => "{}";
    "URI[" + Http.JsonOrUndefined(Str(request.url)) + "]Payload[" + body + "]Headers[" + Http.JsonOrUndefined(request.headers)
  }

  /** The JSON text of an object ends with `}`. */
  lemma ObjectJsonEnds(v: Value)
    requires v.Obj?
    ensures var t := Http.JsonOrUndefined(v); |t| >= 2 && t[|t| - 1] == '}'
  {
  }

  /**
   * An xhr key never equals an http key: every final request has object headers, so the
   * xhr key ends with `}` and the http key with `]`. A super mock recorded under the http
   * module's keys is never found by the xhr module.
   */
  lemma SuperKeysNeverMeet(a: Http.FinalRequest, b: Http.FinalRequest)
    requires a.headers.Obj?
    ensures SuperKey(a) != Http.SuperKey(b)
  {
    ObjectJsonEnds(a.headers);
    var ka := SuperKey(a);
    var kb := Http.SuperKey(b);
    assert ka[|ka| - 1] == '}';
    assert kb[|kb| - 1] == ']';
  }

  /**
   * `getMockResponseFn`: reading `operationDetails` of a missing definition, or the prefix
   * type of missing details, throws; otherwise the mock function keeps the definition and
   * the prefixed url, and reads the method and headers as they are.
   */
  function GetMockResponseFn(def: Value, globals: Http.Globals): (r: Result<Http.MockFn>)
    ensures r.Err? <==> IsNullish(def) || IsNullish(Get(def, "operationDetails"))
    ensures r.Ok? ==> var od := Get(def, "operationDetails");
      && r.value.def == def
      && r.value.prefix == Http.UrlPrefix(od, globals.prefixes)
      && r.value.url == Http.MethodUrl(od, r.value.prefix, globals.params)
      && r.value.httpMethod == Get(od, "method")
      && r.value.headers == Get(od, "headers")
  {
    if IsNullish(def) then Err(TypeError)
    else
      var od := Get(def, "operationDetails");
      match UrlPrefix(od, globals.prefixes)
      case Err(e) => Err(e)
      case Ok(prefix) =>
        match MethodUrl(od, prefix, globals.params)
        case Err(e) => Err(e)
        case Ok(url) => Ok(Http.MockFn(def, url, prefix, Get(od, "method"), Get(od, "headers")))
  }

  /** Calling the mock function: the final request as for a real call, then the cascade under the xhr key. */
  function InvokeMock(f: Http.MockFn, request: Value): (c: Call)
    ensures c.Resolved? || c.Threw?
    ensures Http.CreateFinalRequest(f.url, f.prefix, f.httpMethod, f.headers, request).Err? ==> c.Threw?
  {
    match Http.CreateFinalRequest(f.url, f.prefix, f.httpMethod, f.headers, request)
    case Err(e) => Threw(e)
    case Ok(final) =>
      match Http.MockAnswer(f.def, final.url, SuperKey(final))
      case Err(e) => Threw(e)
      case Ok(v) => Resolved(v)
  }

  /** The final request's url does not depend on the method or the headers. */
  lemma FinalUrlIgnoresHeaders(url: string, prefix: Value, m1: Value, h1: Value, m2: Value, h2: Value, request: Value)
    ensures Http.CreateFinalRequest(url, prefix, m1, h1, request).Ok? <==> Http.CreateFinalRequest(url, prefix, m2, h2, request).Ok?
    ensures Http.CreateFinalRequest(url, prefix, m1, h1, request).Ok? ==>
      Http.CreateFinalRequest(url, prefix, m1, h1, request).value.url == Http.CreateFinalRequest(url, prefix, m2, h2, request).value.url
  {
  }

  /** Without a super mock the key plays no part in the cascade. */
  lemma MockAnswerWithoutSuper(def: Value, url: string, key1: string, key2: string)
    requires !Truthy(Get(def, "superMockResponse"))
    ensures Http.MockAnswer(def, url, key1) == Http.MockAnswer(def, url, key2)
  {
  }

  /** Both modules prepare the same url and prefix for a definition with operation details. */
  lemma MockFnsAgree(def: Value, globals: Http.Globals)
    requires def.Obj? && !IsNullish(Get(def, "operationDetails"))
    ensures GetMockResponseFn(def, globals).Ok?
    ensures var xf := GetMockResponseFn(def, globals).value;
      var hf := Http.GetMockResponseFn(def, globals);
      xf.def == hf.def && xf.url == hf.url && xf.prefix == hf.prefix
  {
  }

  /** Mock functions that agree on definition, url and prefix answer alike when there is no super mock. */
  lemma InvokeMocksAgree(xf: Http.MockFn, hf: Http.MockFn, request: Value)
    requires xf.def == hf.def && xf.url == hf.url && xf.prefix == hf.prefix
    requires !IsNullish(xf.def) && !Truthy(Get(xf.def, "superMockResponse"))
    ensures var x := InvokeMock(xf, request);
      var h := Http.InvokeMock(hf, request);
      && (x.Resolved? <==> h.Resolved?)
      && (x.Resolved? ==> x.value == h.value)
      && (x.Threw? ==> x.error == h.error)
  {
    FinalUrlIgnoresHeaders(xf.url, xf.prefix, xf.httpMethod, xf.headers, hf.httpMethod, hf.headers, request);
    var xr := Http.CreateFinalRequest(xf.url, xf.prefix, xf.httpMethod, xf.headers, request);
    var hr := Http.CreateFinalRequest(hf.url, hf.prefix, hf.httpMethod, hf.headers, request);
    if xr.Ok? {
      MockAnswerWithoutSuper(xf.def, xr.value.url, SuperKey(xr.value), Http.SuperKey(hr.value));
    }
  }

  /**
   * Without a super mock, the xhr mock and the http mock of the same definition answer
   * every call alike: they differ only in the super mock key.
   */
  lemma MockAsHttp(def: Value, globals: Http.Globals, request: Value)
    requires def.Obj? && !IsNullish(Get(def, "operationDetails"))
    requires !Truthy(Get(def, "superMockResponse"))
    ensures GetMockResponseFn(def, globals).Ok?
    ensures var x := InvokeMock(GetMockResponseFn(def, globals).value, request);
      var h := Http.InvokeMock(Http.GetMockResponseFn(def, globals), request);
      && (x.Resolved? <==> h.Resolved?)
      && (x.Resolved? ==> x.value == h.value)
      && (x.Threw? ==> x.error == h.error)
  {
    MockFnsAgree(def, globals);
    InvokeMocksAgree(GetMockResponseFn(def, globals).value, Http.GetMockResponseFn(def, globals), request);
  }
}
