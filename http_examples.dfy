/** Worked cases of the `http` module, taken from its behaviour on small definitions. */
module HttpExamples {
  import opened Wrappers
  import opened JsString
  import opened Js
  import opened UriCodec
  import opened FormCodec
  import opened Http

  lemma {:induction false} FormEncodeUnreserved(s: string)
    requires forall k :: 0 <= k < |s| ==> IsUnreserved(s[k])
    ensures FormEncode(s) == s
  {
    if |s| > 0 {
      FormEncodeUnreserved(s[1..]);
      assert s == [s[0]] + s[1..];
    }
  }

  lemma FormEncodeExample()
    ensures FormEncode("M A") == "M+A"
  {
    FormEncodeUnreserved("A");
    assert "M A"[1..] == " A";
    assert " A"[1..] == "A";
    assert FormEncode(" A") == "+A";
  }

  lemma FieldsExample()
    ensures FormFields(Obj([Prop("name", Str("M A"))])) == [("name", "M A")]
  {
    var data := Obj([Prop("name", Str("M A"))]);
    assert Keys(data) == ["name"];
    assert Get(data, "name") == Str("M A");
  }

  /** A single pair serializes to its form-encoded name and value around `=`. */
  lemma SerializeOne(name: string, value: string)
    ensures SerializeForm([(name, value)]) == FormEncode(name) + "=" + FormEncode(value)
  {
    PlusForSpaceJoin([(name, value)]);
    assert FormPairs([(name, value)]) == [FormEncode(name) + "=" + FormEncode(value)];
  }

  lemma SerializeExample()
    ensures SerializeForm([("name", "M A")]) == "name=M+A"
  {
    SerializeOne("name", "M A");
    FormEncodeUnreserved("name");
    FormEncodeExample();
    assert "name" + "=" + "M+A" == "name=M+A";
  }

  /** A urlencoded payload `{name: "M A"}` is sent as `name=M+A`. */
  lemma QueryStringExample()
    ensures QueryString(Obj([Prop("name", Str("M A"))])) == "name=M+A"
  {
    FieldsExample();
    SerializeExample();
  }

  /** The operation url of the parameter and mock cases: a port, then a `:id` placeholder. */
  const UrlStem: string := "sub.site.com:8080/path/"
  const Url: string := UrlStem + ":id"
  const Params: Value := Obj([Prop("id", Str("7"))])
  /** `Url` with its placeholder filled: `sub.site.com:8080/path/7`. */
  const Url7: string := UrlStem + "7"

  lemma PlaceholderAt()
    ensures OccursAt(Url, ":id", 23)
    ensures forall k :: 0 <= k < 23 ==> !OccursAt(Url, ":id", k)
  {
    assert Url[23..26] == ":id";
    forall k | 0 <= k < 23 ensures !OccursAt(Url, ":id", k) {
      assert Url[k..k + 3][0] == Url[k] && Url[k..k + 3][1] == Url[k + 1];
    }
  }

  lemma SmartExample()
    ensures SmartUriEncodeParam(Params, "id") == "7"
  {
    assert Get(Params, "id") == Str("7");
    EncodeUnreserved("7");
  }

  lemma OneParam()
    ensures ParamsReplaced(Url, Params) == SubstituteParam(Url, Params, "id")
  {
    assert Keys(Params) == ["id"];
    assert ["id"][..0] == [];
  }

  /** The path parameter `id` = "7" fills the `:id` placeholder, not the `:8080` port. */
  lemma ParamsExample()
    ensures ParamsReplaced(Url, Params) == Url7
  {
    OneParam();
    PlaceholderAt();
    SubstituteParamAt(Url, Params, "id", 23);
    SmartExample();
    assert Url[..23] == UrlStem && Url[26..] == [];
  }

  /** Merging one header with no dynamic headers gives that header back. */
  lemma MergeSingle(k: string, v: Value)
    ensures MergeHeaders(Obj([Prop(k, v)]), Undefined) == Obj([Prop(k, v)])
  {
    var h := Obj([Prop(k, v)]);
    assert Keys(h) == [k];
    assert Get(h, k) == v;
    assert SetProp(EmptyObject, k, v) == Obj([Prop(k, v)]);
    assert AssignKeys(EmptyObject, h, [k]) == AssignKeys(SetProp(EmptyObject, k, v), h, []);
  }

  const PostHeaders: Value := Obj([Prop("Content-Type", Str(UrlEncodedContentType))])
  const NoParams: Value := Obj([Prop("params", Obj([Prop("id", Str("1"))]))])

  lemma NotAbsolutePath()
    ensures !IsAbsoluteUrl("/path/")
  {
    assert !IsWordChar("/path/"[0]);
  }

  lemma AbsoluteByScheme(u: string, n: nat)
    requires 1 <= n && n + 3 <= |u| && !IsWordChar(u[n])
    requires forall k :: 0 <= k < n ==> IsWordChar(u[k])
    requires u[n] == ':' && u[n + 1] == '/' && u[n + 2] == '/'
    ensures IsAbsoluteUrl(u)
  {
    LeadingWordCharsExact(u, n);
  }

  lemma AbsoluteFull()
    ensures IsAbsoluteUrl("http://www.fullURL.com/path/")
  {
    var u := "http://www.fullURL.com/path/";
    AbsoluteByScheme(u, 4);
  }

  lemma PostStaysPost(od: Value)
    requires od.Obj? && Get(od, "method") == Str("POST")
    ensures DefaultedMethod(od) == Str("POST") && IsValidMethod(Str("POST"))
  {
  }

  /** A relative url, with no global parameters, is the prefix followed by the url. */
  lemma RelativeMethodUrl(od: Value, prefix: string)
    requires od.Obj? && Get(od, "url") == Str("/path/")
    ensures MethodUrl(od, Str(prefix), Undefined) == prefix + "/path/"
  {
    NotAbsolutePath();
  }

  lemma NoParamsFields()
    ensures Field(NoParams, "uriOverride") == Undefined
    ensures Field(NoParams, "headers") == Undefined
    ensures Field(NoParams, "payload") == Undefined
  {
  }

  lemma PostHeadersKept()
    ensures WithDefaultContentType(Str("POST"), PostHeaders) == PostHeaders
  {
    assert Get(PostHeaders, "Content-Type") == Str(UrlEncodedContentType);
  }

  /** A request with an unused path parameter is sent to the prefixed url as it is, with a `null` body. */
  lemma SendWithPrefix(url: string, prefix: Value)
    requires ':' !in url
    ensures Invoke(SendRequest(url, prefix, Str("POST"), PostHeaders), NoParams)
         == Fetch(FinalRequest(url, Str("POST"), PostHeaders, Plain(Null)))
  {
    NoParamsFields();
    RequestUrlNoOverride(url, prefix, Field(NoParams, "params"));
    PostHeadersKept();
    MergeSingle("Content-Type", Str(UrlEncodedContentType));
  }

  /** A POST operation whose prefix and method url are known is sent to that url. */
  lemma PostSendsTo(od: Value, prefixes: Value, prefix: string, url: string)
    requires od.Obj? && Get(od, "method") == Str("POST")
    requires UrlPrefix(od, prefixes) == Str(prefix)
    requires MethodUrl(od, Str(prefix), Undefined) == url
    ensures GetAsyncFn(od, Globals(prefixes, Undefined)) == Ok(SendRequest(url, Str(prefix), Str("POST"), Get(od, "headers")))
  {
    PostStaysPost(od);
  }

  lemma DefaultPrefixValue(od: Value, prefixes: Value, prefix: string)
    requires od.Obj? && !HasOwn(od, "prefixType")
    requires prefixes.Obj? && Get(prefixes, "default") == Str(prefix) && prefix != ""
    ensures UrlPrefix(od, prefixes) == Str(prefix)
  {
  }

  lemma NamedPrefixValue(od: Value, prefixes: Value, name: string, prefix: string)
    requires od.Obj? && Get(od, "prefixType") == Str(name) && name != ""
    requires prefixes.Obj? && Get(prefixes, name) == Str(prefix) && prefix != ""
    ensures UrlPrefix(od, prefixes) == Str(prefix)
  {
    UrlPrefixNamed(od, prefixes, name);
  }

  /** Without a `prefixType` the `default` prefix goes in front of a relative url. */
  lemma DefaultPrefixExample(od: Value, prefixes: Value)
    requires od.Obj? && Get(od, "url") == Str("/path/") && Get(od, "method") == Str("POST")
    requires !HasOwn(od, "prefixType")
    requires prefixes.Obj? && Get(prefixes, "default") == Str("www.test.com")
    ensures GetAsyncFn(od, Globals(prefixes, Undefined))
         == Ok(SendRequest("www.test.com" + "/path/", Str("www.test.com"), Str("POST"), Get(od, "headers")))
  {
    DefaultPrefixValue(od, prefixes, "www.test.com");
    RelativeMethodUrl(od, "www.test.com");
    PostSendsTo(od, prefixes, "www.test.com", "www.test.com" + "/path/");
  }

  /** A `prefixType` selects its own prefix. */
  lemma NamedPrefixExample(od: Value, prefixes: Value)
    requires od.Obj? && Get(od, "url") == Str("/path/") && Get(od, "method") == Str("POST")
    requires Get(od, "prefixType") == Str("special")
    requires prefixes.Obj? && Get(prefixes, "special") == Str("www.special.com")
    ensures GetAsyncFn(od, Globals(prefixes, Undefined))
         == Ok(SendRequest("www.special.com" + "/path/", Str("www.special.com"), Str("POST"), Get(od, "headers")))
  {
    NamedPrefixValue(od, prefixes, "special", "www.special.com");
    RelativeMethodUrl(od, "www.special.com");
    PostSendsTo(od, prefixes, "www.special.com", "www.special.com" + "/path/");
  }

  /** An absolute url gets no prefix. */
  lemma AbsoluteUrlExample(od: Value, prefixes: Value)
    requires od.Obj? && Get(od, "url") == Str("http://www.fullURL.com/path/") && Get(od, "method") == Str("POST")
    requires !HasOwn(od, "prefixType")
    requires prefixes.Obj? && Get(prefixes, "default") == Str("www.special.com")
    ensures GetAsyncFn(od, Globals(prefixes, Undefined))
         == Ok(SendRequest("http://www.fullURL.com/path/", Str("www.special.com"), Str("POST"), Get(od, "headers")))
  {
    DefaultPrefixValue(od, prefixes, "www.special.com");
    AbsoluteFull();
    assert MethodUrl(od, Str("www.special.com"), Undefined) == "http://www.fullURL.com/path/";
    PostSendsTo(od, prefixes, "www.special.com", "http://www.fullURL.com/path/");
  }

  // ----- mocks -----

  const MultipartHeaders: Value := Obj([Prop("Content-Type", Str(FormDataContentType))])
  const Request7: Value := Obj([Prop("params", Params)])

  /** The super mock key of the request below, written as its template builds it. */
  const SuperMockKey: string :=
    "URI[" + ("\"" + Url7 + "\"") + "]Payload[" + "null" + "]Headers["
    + ("{" + (("\"" + "Content-Type" + "\"") + ":" + ("\"" + FormDataContentType + "\"")) + "}") + "]"

  /** The operation of the mock cases: a POST of multipart data to `Url`, with no prefix type. */
  predicate MockOperation(od: Value)
  {
    && od.Obj?
    && Get(od, "url") == Str(Url)
    && Get(od, "method") == Str("POST")
    && Get(od, "headers") == MultipartHeaders
    && !HasOwn(od, "prefixType")
  }

  lemma NotAbsoluteByScheme(u: string, n: nat)
    requires n < |u| && !IsWordChar(u[n]) && u[n] != ':'
    requires forall k :: 0 <= k < n ==> IsWordChar(u[k])
    ensures !IsAbsoluteUrl(u)
  {
    LeadingWordCharsExact(u, n);
  }

  lemma UrlNotAbsolute()
    ensures !IsAbsoluteUrl(Url)
  {
    NotAbsoluteByScheme(Url, 3);
  }

  /** Without global prefixes or parameters, a relative operation url is used as it is. */
  lemma UnprefixedUrl(od: Value, url: string)
    requires od.Obj? && Get(od, "url") == Str(url) && !IsAbsoluteUrl(url)
    ensures UrlPrefix(od, Undefined) == Str("")
    ensures MethodUrl(od, Str(""), Undefined) == url
  {
    assert WithPrefix(Str(""), url) == "" + url;
  }

  /** The mock function of a definition without global prefixes or parameters. */
  lemma MockFnOf(def: Value, od: Value, url: string, m: Value, h: Value)
    requires def.Obj? && Get(def, "operationDetails") == od
    requires od.Obj? && Get(od, "url") == Str(url) && !IsAbsoluteUrl(url)
    requires Get(od, "method") == m && Truthy(m) && Get(od, "headers") == h && Truthy(h)
    ensures GetMockResponseFn(def, Globals(Undefined, Undefined)) == MockFn(def, url, Str(""), m, h)
  {
    UnprefixedUrl(od, url);
  }

  lemma MockFnExample(def: Value, od: Value)
    requires def.Obj? && Get(def, "operationDetails") == od && MockOperation(od)
    ensures GetMockResponseFn(def, Globals(Undefined, Undefined)) == MockFn(def, Url, Str(""), Str("POST"), MultipartHeaders)
  {
    UrlNotAbsolute();
    MockFnOf(def, od, Url, Str("POST"), MultipartHeaders);
  }

  lemma MultipartKept()
    ensures WithDefaultContentType(Str("POST"), MultipartHeaders) == MultipartHeaders
  {
    assert Get(MultipartHeaders, "Content-Type") == Str(FormDataContentType);
  }

  lemma Request7Fields()
    ensures Field(Request7, "uriOverride") == Undefined
    ensures Field(Request7, "headers") == Undefined
    ensures Field(Request7, "payload") == Undefined
    ensures Field(Request7, "params") == Params
  {
  }

  /** The final request of the mock cases: `:id` filled, headers as given, no body. */
  lemma FinalExample()
    ensures CreateFinalRequest(Url, Str(""), Str("POST"), MultipartHeaders, Request7)
         == Ok(FinalRequest(Url7, Str("POST"), MultipartHeaders, Plain(Null)))
  {
    Request7Fields();
    ParamsExample();
    assert RequestUrl(Url, Str(""), Undefined, Params) == Url7;
    MultipartKept();
    MergeSingle("Content-Type", Str(FormDataContentType));
  }

  lemma {:induction false} EscapePlain(s: string)
    requires forall k :: 0 <= k < |s| ==> s[k] != '"' && s[k] != '\\' && (s[k] as int) >= 0x20
    ensures EscapeChars(s) == s
  {
    if |s| > 0 {
      EscapePlain(s[1..]);
      assert s == [s[0]] + s[1..];
    }
  }

  lemma QuotePlain(s: string)
    requires forall k :: 0 <= k < |s| ==> s[k] != '"' && s[k] != '\\' && (s[k] as int) >= 0x20
    ensures Stringify(Str(s)) == Some("\"" + s + "\"")
  {
    EscapePlain(s);
  }

  /** A one-member object of plain strings stringifies to its quoted key and value. */
  lemma OneMemberJson(k: string, v: string)
    requires forall i :: 0 <= i < |k| ==> k[i] != '"' && k[i] != '\\' && (k[i] as int) >= 0x20
    requires forall i :: 0 <= i < |v| ==> v[i] != '"' && v[i] != '\\' && (v[i] as int) >= 0x20
    ensures JsonOrUndefined(Obj([Prop(k, Str(v))])) == "{" + (("\"" + k + "\"") + ":" + ("\"" + v + "\"")) + "}"
  {
    EscapePlain(k);
    EscapePlain(v);
    var o := Obj([Prop(k, Str(v))]);
    assert StringifyProps(o, 1) == "";
    assert Stringify(Str(v)) == Some("\"" + v + "\"");
    assert StringifyProps(o, 0) == ("\"" + k + "\"") + ":" + ("\"" + v + "\"");
  }

  lemma HeadersJson()
    ensures JsonOrUndefined(MultipartHeaders)
         == "{" + (("\"" + "Content-Type" + "\"") + ":" + ("\"" + FormDataContentType + "\"")) + "}"
  {
    OneMemberJson("Content-Type", FormDataContentType);
  }

  /** The super mock key of a body-less request with one plain header. */
  lemma KeyOf(url: string, m: Value, k: string, v: string)
    requires forall i :: 0 <= i < |url| ==> url[i] != '"' && url[i] != '\\' && (url[i] as int) >= 0x20
    requires forall i :: 0 <= i < |k| ==> k[i] != '"' && k[i] != '\\' && (k[i] as int) >= 0x20
    requires forall i :: 0 <= i < |v| ==> v[i] != '"' && v[i] != '\\' && (v[i] as int) >= 0x20
    ensures SuperKey(FinalRequest(url, m, Obj([Prop(k, Str(v))]), Plain(Null)))
         == "URI[" + ("\"" + url + "\"") + "]Payload[" + "null" + "]Headers["
            + ("{" + (("\"" + k + "\"") + ":" + ("\"" + v + "\"")) + "}") + "]"
  {
    EscapePlain(url);
    OneMemberJson(k, v);
  }

  /** The super mock key is the JSON of url, body and headers inside `URI[…]Payload[…]Headers[…]`. */
  lemma KeyExample()
    ensures SuperKey(FinalRequest(Url7, Str("POST"), MultipartHeaders, Plain(Null))) == SuperMockKey
  {
    KeyOf(Url7, Str("POST"), "Content-Type", FormDataContentType);
  }

  /** A truthy JSON entry of the super mock under the key answers. */
  lemma SuperAnswers(def: Value, url: string, key: string, answer: Value)
    requires def.Obj? && Get(def, "superMockResponse").Obj? && Get(Get(def, "superMockResponse"), key) == answer
    requires IsJson(answer) && Truthy(answer)
    ensures MockAnswer(def, url, key) == Ok(answer)
  {
    CloneJson(answer);
  }

  /** Without a super mock, a truthy JSON entry of the smart mock under the url answers. */
  lemma SmartAnswers(def: Value, url: string, key: string, answer: Value)
    requires def.Obj? && !HasOwn(def, "superMockResponse")
    requires Get(def, "smartMockResponse").Obj? && Get(Get(def, "smartMockResponse"), url) == answer
    requires IsJson(answer) && Truthy(answer)
    ensures MockAnswer(def, url, key) == Ok(answer)
  {
    CloneJson(answer);
  }

  /** With only a plain mock, it answers. */
  lemma PlainAnswers(def: Value, url: string, key: string, mock: Value)
    requires def.Obj? && !HasOwn(def, "superMockResponse") && !HasOwn(def, "smartMockResponse")
    requires Get(def, "mockResponse") == mock && IsJson(mock) && Truthy(mock)
    ensures MockAnswer(def, url, key) == Ok(mock)
  {
    CloneJson(mock);
  }

  /** A mock invocation whose final request is built answers as the mocks do for that request. */
  lemma InvokeMockVia(f: MockFn, request: Value, final: FinalRequest, answer: Value)
    requires CreateFinalRequest(f.url, f.prefix, f.httpMethod, f.headers, request) == Ok(final)
    requires !IsNullish(f.def) && MockAnswer(f.def, final.url, SuperKey(final)) == Ok(answer)
    ensures InvokeMock(f, request) == Resolved(answer)
  {
  }

  lemma SuperMockCall(def: Value, answer: Value)
    requires def.Obj? && Get(def, "superMockResponse").Obj? && Get(Get(def, "superMockResponse"), SuperMockKey) == answer
    requires IsJson(answer) && Truthy(answer)
    ensures InvokeMock(MockFn(def, Url, Str(""), Str("POST"), MultipartHeaders), Request7) == Resolved(answer)
  {
    var final := FinalRequest(Url7, Str("POST"), MultipartHeaders, Plain(Null));
    FinalExample();
    KeyExample();
    SuperAnswers(def, Url7, SuperMockKey, answer);
    InvokeMockVia(MockFn(def, Url, Str(""), Str("POST"), MultipartHeaders), Request7, final, answer);
  }

  /** The super mock entry under the request's key wins over the smart and plain mocks. */
  lemma SuperMockExample(def: Value, od: Value, answer: Value)
    requires def.Obj? && Get(def, "operationDetails") == od && MockOperation(od)
    requires Get(def, "superMockResponse").Obj? && Get(Get(def, "superMockResponse"), SuperMockKey) == answer
    requires IsJson(answer) && Truthy(answer)
    ensures InvokeMock(GetMockResponseFn(def, Globals(Undefined, Undefined)), Request7) == Resolved(answer)
  {
    MockFnExample(def, od);
    SuperMockCall(def, answer);
  }

  lemma SmartMockCall(def: Value, answer: Value)
    requires def.Obj? && !HasOwn(def, "superMockResponse")
    requires Get(def, "smartMockResponse").Obj? && Get(Get(def, "smartMockResponse"), Url7) == answer
    requires IsJson(answer) && Truthy(answer)
    ensures InvokeMock(MockFn(def, Url, Str(""), Str("POST"), MultipartHeaders), Request7) == Resolved(answer)
  {
    var final := FinalRequest(Url7, Str("POST"), MultipartHeaders, Plain(Null));
    FinalExample();
    SmartAnswers(def, Url7, SuperKey(final), answer);
    InvokeMockVia(MockFn(def, Url, Str(""), Str("POST"), MultipartHeaders), Request7, final, answer);
  }

  /** Without a super mock, the smart mock entry under the final url answers. */
  lemma SmartMockExample(def: Value, od: Value, answer: Value)
    requires def.Obj? && Get(def, "operationDetails") == od && MockOperation(od)
    requires !HasOwn(def, "superMockResponse")
    requires Get(def, "smartMockResponse").Obj? && Get(Get(def, "smartMockResponse"), Url7) == answer
    requires IsJson(answer) && Truthy(answer)
    ensures InvokeMock(GetMockResponseFn(def, Globals(Undefined, Undefined)), Request7) == Resolved(answer)
  {
    MockFnExample(def, od);
    SmartMockCall(def, answer);
  }

  lemma NoRequestFinal()
    ensures CreateFinalRequest(Url, Str(""), Str("POST"), MultipartHeaders, Undefined)
         == Ok(FinalRequest(Url, Str("POST"), MultipartHeaders, Plain(Null)))
  {
    MultipartKept();
    MergeSingle("Content-Type", Str(FormDataContentType));
  }

  lemma PlainMockCall(def: Value, mock: Value)
    requires def.Obj? && !HasOwn(def, "superMockResponse") && !HasOwn(def, "smartMockResponse")
    requires Get(def, "mockResponse") == mock && IsJson(mock) && Truthy(mock)
    ensures InvokeMock(MockFn(def, Url, Str(""), Str("POST"), MultipartHeaders), Undefined) == Resolved(mock)
  {
    var final := FinalRequest(Url, Str("POST"), MultipartHeaders, Plain(Null));
    NoRequestFinal();
    PlainAnswers(def, Url, SuperKey(final), mock);
    InvokeMockVia(MockFn(def, Url, Str(""), Str("POST"), MultipartHeaders), Undefined, final, mock);
  }

  /** With only a plain mock, a call without a request object answers with a copy of it. */
  lemma PlainMockExample(def: Value, od: Value, mock: Value)
    requires def.Obj? && Get(def, "operationDetails") == od && MockOperation(od)
    requires !HasOwn(def, "superMockResponse") && !HasOwn(def, "smartMockResponse")
    requires Get(def, "mockResponse") == mock && IsJson(mock) && Truthy(mock)
    ensures InvokeMock(GetMockResponseFn(def, Globals(Undefined, Undefined)), Undefined) == Resolved(mock)
  {
    MockFnExample(def, od);
    PlainMockCall(def, mock);
  }
}
