# async-request-builder, modelled in Dafny

`async-request-builder` turns a JSON definition of remote operations into a tree of
functions. It walks the definition. Every child that names an `asyncModule` together with
`operationDetails`, or that carries a mock response, becomes a function returning a
promise. `asyncModule` settings are copied down from parent to child, and every other
child object is walked in turn. The root also gets two control functions,
`waitForPendingRequests` and `closeAsyncModuleConnections`. Calls made through tracked
functions are recorded as pending until they settle.

The async modules turn one operation definition into such a function:

- `http` builds a request from a url, a prefix, parameters, headers and a payload, and
  sends it with `fetch`;
- `xhr` does the same with `XMLHttpRequest`;
- `mysql` prepares an SQL statement with a column map and runs it on a connection pool;
- `aggregator` calls several operations of the same tree, found by dotted ids, and merges
  their answers.

`convertSwagger` turns a Swagger document into such a definition, one `http` operation
per tagged operation.

The model is organised as follows:

- **JavaScript values and built-ins.** `Js` holds values, property access, assignment,
  `Object.assign`, `String(v)`, `JSON.stringify` and the `JSON.parse(JSON.stringify(v))`
  copy. `JsString` holds `indexOf`, `replace` with `$`-patterns, global replace, `split`,
  `join` and decimal text. `UriCodec` holds `encodeURIComponent` and its decoder.
  `FormCodec` holds the `application/x-www-form-urlencoded` serializer and the parser of
  section 5.1 of the WHATWG URL Standard.
- **The builder (`Builder`).** The definition walk is an imperative method over an
  object's keys. It is proved equal to a compile function over values. The module map and
  the pending-request map are classes whose methods update them in place. Each step of the
  walk states what it leaves in the module map: `http` is loaded exactly when some operation
  the walk reaches names it, directly or through a parent.
- **The modules.** `Http`, `Xhr`, `Mysql` and `Aggregator` each model one module. A
  module's `getAsyncFn` is a function that gives a defunctionalised description of the
  closure it returns. Calling that description gives a `Call`: resolved, rejected,
  thrown, or waiting on the network with the final request. The aggregator's handler is a
  class, because it caches the functions it found.
- **Swagger conversion (`Swagger`).** `convertSwagger` is two nested loops in a method,
  proved equal to a fold over the paths and methods.
- **Worked cases.** `HttpExamples`, `MysqlExamples` and `XhrExamples` restate the
  repository's own test cases as lemmas.

The `xhr` module's tests expect a GET default for an operation without a method. They
also expect the url-filling function of a method outside the four to read
`argument.params`, and they expect a super mock key that ends in `]`. The code does none
of these: `xhr` has no GET default, that function substitutes the keys of its argument
itself, and the key has no closing `]`. The model follows the code; see
`Xhr.NoGetDefault`, `XhrExamples.ReplaceTakesParamsDirectly` and `Xhr.SuperKey`.

## Model

| member | source | states |
|---|---|---|
| Js.SetProp | lib/async-request-builder.js:15 | an assignment to an object sets that key and no other; an existing key keeps its place, a new key goes last; a primitive is unchanged |
| Js.AssignGet | lib/async-modules/http.js:149 | after `Object.assign` onto an object, a key holds the source's value if the source has it, else the target's; own keys are the union |
| Js.CloneJson | lib/async-request-builder.js:115 | the `JSON.parse(JSON.stringify(v))` copy is the identity on JSON values |
| Js.JsonHasText | lib/async-request-builder.js:44 | every JSON value has JSON text, so only non-JSON values make the copy throw |
| Js.GetJson | lib/async-modules/http.js:192 | a property read from a JSON value is JSON or `undefined` |
| Js.IndexOfKey | lib/async-request-builder.js:12 | an array's own key is the decimal text of exactly one index below its length |
| JsString.IndexOf | lib/async-modules/http.js:52 | the first position where the pattern occurs, and none before it; none when it never occurs |
| JsString.ReplaceFirstLiteral | lib/async-modules/http.js:52 | `replace` with a `$`-free string replaces exactly the first occurrence and changes nothing else |
| JsString.SubstitutionLiteral | lib/async-modules/mysql.js:38 | a replacement without `$` is inserted literally |
| JsString.ReplaceAllChar | index.js:19 | replacing one character by another globally maps the string character by character |
| JsString.RemoveAllChar | index.js:19 | removing a character globally deletes exactly that character and keeps every other one |
| JsString.JoinSplit | lib/async-modules/aggregator.js:8 | splitting on a character and joining with it gives the string back |
| JsString.SplitJoin | lib/async-modules/aggregator.js:8 | joining separator-free parts and splitting again gives the parts back |
| JsString.NatToStringInjective | lib/async-request-builder.js:62 | the decimal text of a number determines it, so pending ids are distinct keys |
| JsString.LeadingWordChars | lib/async-modules/http.js:120 | the length of the longest `\w` prefix: all word characters before it, a non-word character at it |
| UriCodec.PercentByte | lib/async-modules/http.js:68 | a byte written as `%` and two upper-case hex digits that denote it |
| UriCodec.Utf8Bytes | lib/async-modules/http.js:68 | the UTF-8 bytes of a character: one byte exactly for ASCII, continuation-range bytes otherwise |
| UriCodec.EncodedHasNoSpecials | lib/async-modules/http.js:52 | `encodeURIComponent` never outputs `$` or `:`, so a substituted parameter is literal and forms no new placeholder |
| UriCodec.EncodeUnreserved | lib/async-modules/http.js:68 | unreserved text is its own encoding |
| UriCodec.EncodeAppend | lib/async-modules/http.js:68 | the encoding of a concatenation is the concatenation of the encodings |
| UriCodec.EncodeRoundTrip | lib/async-modules/http.js:68 | percent-decoding and UTF-8 decoding the encoding gives the text back |
| UriCodec.EncodeExampleSpace | lib/async-modules/__tests__/http.test.js:124-146 | `M A` encodes to `M%20A` |
| FormCodec.FormRoundTrip | lib/async-modules/http.js:90-96 | the form parser reads back exactly the pairs a query string was written from, in order |
| FormCodec.PlusForSpaceEncode | lib/async-modules/http.js:95 | turning `%20` into `+` in encoded text is the same as encoding spaces as `+` |
| Builder.ResolveModule | lib/async-request-builder.js:77-85 | `loadAsyncModule` resolves exactly the name `"http"`, to the http module |
| Builder.OnlyHttpHasHttpPath | lib/async-request-builder.js:78-81 | among primitive names only `"http"` maps to the http module's path |
| Builder.ModuleRegistry.constructor | lib/async-request-builder.js:112 | a build starts with an empty module map |
| Builder.ModuleRegistry.Find | lib/async-request-builder.js:84 | a lookup finds the http module exactly under its path once it was loaded |
| Builder.ModuleRegistry.Load | lib/async-request-builder.js:77-85 | loading keeps the registry valid, returns the resolved module and stores http at most once, only on its first load |
| Builder.ModuleRegistry.CloseConnections | lib/async-request-builder.js:95-101 | one close per loaded module that exports `closeConnections`, in map order |
| Builder.ClosingPaths | lib/async-request-builder.js:96-101 | a path is closed iff some loaded module at that path exports `closeConnections` |
| Builder.ClosingOnlyHttp | lib/async-request-builder.js:80-82 | only the http module can ever be closed, and only if it has `closeConnections` |
| Builder.ModuleOf | lib/async-request-builder.js:30-31 | a definition has a module iff its `asyncModule` is `"http"` |
| Builder.OperationFn | lib/async-request-builder.js:29-34 | with a mock field, the module's mock or the fallback mock; otherwise the tracked function of the module's `getAsyncFn` (its own and its parent's details), or one rejecting with `Failed to get asyncFn for module …` |
| Builder.DefaultMockCallAsWritten | lib/async-request-builder.js:40-47 | the fallback mock resolves with the copy of `mockResponse` or throws exactly when that copy throws |
| Builder.DefaultMockCall | lib/async-request-builder.js:40-47 | the fallback as intended: `{}` without `mockResponse`, otherwise as written |
| Builder.DefaultMockResolves | lib/async-request-builder.js:44 | on a JSON definition the fallback resolves with `mockResponse` when truthy, else `{}` |
| Builder.SmartMockOnlyThrows | lib/async-request-builder.js:16-44 | an `xhr` definition with a truthy `operationDetails` and only a smart mock is compiled to the fallback mock, which as written throws and as corrected resolves `{}` |
| Builder.InvokeOp | lib/async-request-builder.js:50-75 | a rejecting function rejects with its message, a fallback mock answers as `DefaultMockCall`, a tracked function calls the module's function |
| Builder.Members | lib/async-request-builder.js:12 | `Object.keys` of an object lists its properties; of an array, each index with its item |
| Builder.CompileMember | lib/async-request-builder.js:13-19 | a member that cannot be an operation is kept as it is |
| Builder.CompileGroup | lib/async-request-builder.js:18 | a walked child stays an object or an array, as it was |
| Builder.CompileRoot | lib/async-request-builder.js:115-120 | an object or array root is walked, with one entry per member after the controls were set; a primitive root is returned as it is |
| Builder.ParsedIsObject | lib/async-request-builder.js:16 | only objects can be parsed as operations, and the copied-down module keeps them parseable |
| Builder.ParseAsyncReqJSON | lib/async-request-builder.js:11-23 | the in-place walk over the keys gives exactly the compiled entries, and afterwards the module map holds `http` iff it did before or some operation the walk reached names `http` |
| Builder.VisitMember | lib/async-request-builder.js:13-19 | one turn of the walk replaces the `i`-th member by its node and keeps the rest; the module map gains `http` only from an operation under that member that names it |
| Builder.ParseStep | lib/async-request-builder.js:18 | one turn of the walk, stated on the entries |
| Builder.ParseMember | lib/async-request-builder.js:14-18 | a visited child inherits `asyncModule` and becomes its compiled node; the module map gains `http` iff the child, or an operation below it, names `http` |
| Builder.ParseGroup | lib/async-request-builder.js:18 | a child that is no operation is walked into its compiled group; the module map gains `http` iff an operation inside names it |
| Builder.CreateAsyncFn | lib/async-request-builder.js:29-34 | `createAsyncFn` gives the function `OperationFn` describes; the module map gains the `http` module iff the definition's `asyncModule` is `"http"` and the map was empty, and is otherwise unchanged |
| Builder.CompiledKept | lib/async-request-builder.js:14 | a member the walk does not visit is found under its key unchanged |
| Builder.GroupModuleEntry | lib/async-request-builder.js:15 | a walked child holds its own `asyncModule` when truthy, else its parent's |
| Builder.RootControls | lib/async-request-builder.js:117-118 | the compiled root holds both control functions, never walked |
| Builder.TrackedGetsParentOd | lib/async-request-builder.js:51 | a tracked operation gets its own details and, as the parent's, those of its container only |
| Builder.OperationOfMember | lib/async-request-builder.js:16-18 | a member becomes an operation iff it can be parsed; with module `"http"` it is tracked (no mock) or the module's mock (a mock field); otherwise it rejects with the module name |
| Builder.MockFieldsKept | lib/async-request-builder.js:15 | setting `asyncModule` neither adds nor removes a mock field |
| Builder.AscendingIds | lib/async-request-builder.js:88 | the pending ids in ascending order, each pending, all of them listed |
| Builder.PendingRegistry.constructor | lib/async-request-builder.js:8-9 | no id given out and nothing pending |
| Builder.PendingRegistry.Start | lib/async-request-builder.js:61-63 | a call is stored under a fresh id, one more than the last and above every pending one |
| Builder.PendingRegistry.Settle | lib/async-request-builder.js:66-69 | settling removes exactly that id |
| Builder.PendingRegistry.Waiting | lib/async-request-builder.js:87-91 | the promises waited on are the pending ones, in id order |
| Builder.PendingCount | lib/async-request-builder.js:59-72 | the number pending is the ids given out minus those settled, all within `1..lastId` |
| Builder.WaitingCoversPending | lib/async-request-builder.js:88-90 | waiting covers exactly the pending calls |
| Builder.CallOperation | lib/async-request-builder.js:59-72 | a call returns what the function gives; it is registered under the next id iff it is tracked and did not throw |
| Builder.CloseAsyncModuleConnections | lib/async-request-builder.js:93-106 | waits on the pending calls, then closes every closable loaded module, whatever the wait gave |
| Builder.BuildGlobals | lib/async-request-builder.js:109-113 | the globals are the config's `prefixes` and `params`; a `null` config throws |
| Builder.ParsedRoot | lib/async-request-builder.js:115 | the copied definition is the definition itself for JSON, `{}` for a falsy one; it throws where the copy throws |
| Builder.Build | lib/async-request-builder.js:108-121 | `null` config throws, an uncopyable definition throws, otherwise the compiled copy |
| Builder.CreateAsyncRequestBuilder | lib/async-request-builder.js:108-121 | the builder as it runs gives `Build`'s result; its module map, empty at the start, holds `http` exactly when some operation of the document names it (by itself or through a parent), so closing closes `http` only then |
| Builder.ParseRoot | lib/async-request-builder.js:117-119 | the root walked with the controls in place equals `CompileRoot`, and the module map gains `http` iff some operation of the root names it |
| Builder.LoadedAfterTwice | lib/async-request-builder.js:77-85 | loading twice is loading once: the map after two steps depends only on whether either step named `http` |
| Builder.LoadsHttpStep | lib/async-request-builder.js:12-20 | the walk over the first `i + 1` members loads `http` iff the walk over the first `i` did or member `i` does |
| Builder.HttpOperationLoads | lib/async-request-builder.js:29-31 | a document with one operation naming `http` loads the `http` module |
| Builder.MockOnlyLoadsNothing | lib/async-request-builder.js:16-31 | a document whose only operation is a mock with no `asyncModule` loads no module |
| Http.WithDefaultContentType | lib/async-modules/http.js:39-47 | a PUT or POST whose headers object has no content type gets the JSON one (array headers are listed under Left out); every other header and every other method is left as it was |
| Http.DefaultContentTypeIdempotent | lib/async-modules/http.js:39-47 | applying the default twice is applying it once |
| Http.DefaultContentTypeNamesOne | lib/async-modules/http.js:41-44 | after the default, a PUT or POST always names a content type |
| Http.ParamText | lib/async-modules/http.js:59-67 | objects, `null` and `undefined` stand for empty text; a string for itself |
| Http.SmartUriEncodeParam | lib/async-modules/http.js:58-69 | decoding the result gives the parameter's text back; it holds no `$` and no `:` |
| Http.ReplaceParams | lib/async-modules/http.js:49-56 | the loop reassigning the string gives the parameters substituted in key order |
| Http.SubstituteParamAt | lib/async-modules/http.js:52 | a placeholder's first occurrence is replaced by exactly the encoded value, nothing else changes |
| Http.ParamsReplacedNoColon | lib/async-modules/http.js:49-56 | a string without `:` is returned unchanged |
| Http.FormFields | lib/async-modules/http.js:92-93 | one field per own key, in key order |
| Http.QueryString | lib/async-modules/http.js:90-96 | the form parser reads the payload's fields back from the query text |
| Http.TransformToQueryString | lib/async-modules/http.js:90-96 | the loop gives the query text, and parsing it gives the fields |
| Http.FormDataEntries | lib/async-modules/http.js:98-105 | one entry per own key, with the value's string form |
| Http.TransformToFormData | lib/async-modules/http.js:98-105 | the loop gives those entries |
| Http.TransformRequestPayload | lib/async-modules/http.js:71-88 | no payload gives `null`; urlencoded gives text that parses back to the fields; JSON gives the JSON text; form data gives the entries; anything else the payload |
| Http.UrlPrefix | lib/async-modules/http.js:107-111 | the prefix registered under the prefix type when truthy, else the empty string |
| Http.UrlPrefixDefault | lib/async-modules/http.js:108 | without a truthy `prefixType` the `default` prefix is used |
| Http.UrlPrefixNamed | lib/async-modules/http.js:108-109 | a string `prefixType` selects the prefix registered under it |
| Http.AbsoluteUrlMatches | lib/async-modules/http.js:120 | the greedy scheme check agrees with the regular expression `^\w+:\/\/` |
| Http.PrefixIdempotent | lib/async-modules/http.js:144 | with an absolute prefix the result is absolute and prefixing again changes nothing |
| Http.MethodUrl | lib/async-modules/http.js:113-124 | without global parameters, the url prefixed unless absolute |
| Http.MergeHeadersGet | lib/async-modules/http.js:149 | dynamic headers win over the defaults and every other default is kept |
| Http.CreateFinalRequest | lib/async-modules/http.js:135-152 | throws iff a truthy override is no string; otherwise the method, the url, the merged headers and the payload transformed under the default headers |
| Http.RequestUrlNoOverride | lib/async-modules/http.js:140-147 | without an override a placeholder-free method url is used as it is, prefix not added twice |
| Http.DefaultedMethod | lib/async-modules/http.js:158 | GET when there is a url and no method, the method otherwise |
| Http.GetAsyncFn | lib/async-modules/http.js:154-167 | throws for missing details; rejects `Invalid XHR method …` for a method outside the four; otherwise sends with the prefix, url, method and headers |
| Http.Invoke | lib/async-modules/http.js:161-166 | a rejecting function rejects with its message; a sending one waits on the network or throws |
| Http.GetIsTheDefault | lib/async-modules/__tests__/http.test.js:14-33 | an operation with a url and no method is sent as GET |
| Http.NoMethodNoUrlRejected | lib/async-modules/http.js:158-162 | with neither method nor url the call rejects `Invalid XHR method undefined` |
| Http.Settle | lib/async-modules/http.js:19-31 | a status in 200..399 fulfils with the parsed JSON or the raw text; any other status rejects with the response |
| Http.MockAnswerPrecedence | lib/async-modules/http.js:180-192 | the super mock entry under the key, else the smart mock entry under the url, else `mockResponse`, else `{}`; `undefined` with no mock at all |
| Http.GetMockResponseFn | lib/async-modules/http.js:169-175 | the mock function keeps the definition and the prefix and url of its details, missing details read as empty |
| Http.MockCall | lib/async-modules/http.js:179-196 | a mock call resolves or throws, and throws for a missing definition |
| Http.MockCallJson | lib/async-modules/http.js:192 | with a JSON definition a mock call always resolves |
| Http.InvokeMock | lib/async-modules/http.js:176-198 | a mock call resolves or throws, and throws whenever building the final request throws |
| Xhr.ParamValue | lib/async-modules/xhr.js:66-74 | the value read as the http module's parameter text |
| Xhr.SmartUriEncodeParam | lib/async-modules/xhr.js:65-76 | unencoded, the parameter's own text; encoded, exactly the http module's text |
| Xhr.ParamsReplacedAsHttp | lib/async-modules/xhr.js:56-63 | with encoding on, `replaceParams` is the http module's |
| Xhr.ReplaceParams | lib/async-modules/xhr.js:56-63 | the loop gives the parameters substituted in key order, the http result when encoding is on |
| Xhr.SkippedEncodingIsRaw | lib/async-modules/xhr.js:75 | with encoding skipped, a `$`-free value is put in at the first placeholder as it is |
| Xhr.UrlPrefix | lib/async-modules/xhr.js:114-118 | throws exactly for missing details, otherwise the http prefix |
| Xhr.MethodUrl | lib/async-modules/xhr.js:120-131 | throws exactly for missing details, otherwise the http method url |
| Xhr.UnguardedDetails | lib/async-modules/xhr.js:115 | for missing details xhr throws where http falls back to the `default` prefix and an empty url |
| Xhr.GetAsyncFn | lib/async-modules/xhr.js:161-177 | throws for missing details; sends iff the method is one of the four; otherwise fills in the url |
| Xhr.Invoke | lib/async-modules/xhr.js:167-175 | the url-filling function returns the url with its argument's own keys substituted; the sending one sends iff the final request can be built |
| Xhr.ValidMethodSameRequest | lib/async-modules/xhr.js:142-159 | with a valid method xhr and http build the same request from the same call, or both throw |
| Xhr.NoGetDefault | lib/async-modules/__tests__/xhr.test.js:15-35 | without a method but with a url, http sends GET while xhr only fills in the url |
| Xhr.InvalidMethodBranches | lib/async-modules/xhr.js:166-169 | a method outside the four: http rejects `Invalid XHR method …`, xhr returns the filled-in url |
| Xhr.RejectReason | lib/async-modules/xhr.js:26-34 | the rejection holds the response as `data` and `response`, its message or the status text, its reason, the status, the status text and the url |
| Xhr.Settle | lib/async-modules/xhr.js:15-35 | fulfils iff the status is in 200..399; throws before settling iff the status fails and the response is nullish; otherwise rejects with the object above |
| Xhr.SettleAsHttp | lib/async-modules/xhr.js:17-24 | xhr and http agree on which answers succeed and on the value; non-JSON text never throws |
| Xhr.SuperKey | lib/async-modules/xhr.js:190 | the xhr super mock key is the http key without its closing `]` |
| Xhr.SuperKeysNeverMeet | lib/async-modules/xhr.js:190-191 | no xhr key ever equals an http key, so super mocks recorded for http are never found by xhr |
| Xhr.GetMockResponseFn | lib/async-modules/xhr.js:179-185 | throws for a missing definition or missing details; otherwise keeps the definition, the prefixed url, the method and the headers |
| Xhr.InvokeMock | lib/async-modules/xhr.js:183-203 | a mock call resolves or throws, and throws whenever building the final request throws |
| Xhr.MockAnswerWithoutSuper | lib/async-modules/xhr.js:187-199 | without a super mock the key plays no part |
| Xhr.MockAsHttp | lib/async-modules/xhr.js:179-204 | without a super mock, the xhr and http mocks of a definition answer every call alike |
| Mysql.QueryFormat | lib/async-modules/mysql.js:9-19 | without values the query is kept, otherwise every `:word` token is formatted |
| Mysql.FormatToken | lib/async-modules/mysql.js:13-17 | a `:key` token becomes the escaped value when `values` owns `key`, and stays as it is otherwise |
| Mysql.FormatNoColon | lib/async-modules/mysql.js:13 | text without `:` is kept |
| Mysql.QueryFormatNoOwnKeys | lib/async-modules/mysql.js:14 | values without own properties leave the query as it is |
| Mysql.ReadInt8 | lib/async-modules/mysql.js:24 | throws on an empty buffer; otherwise a signed byte that is 1 iff the byte is 1 |
| Mysql.TypeCast | lib/async-modules/mysql.js:21-27 | a BIT(1) field reads as `byte == 1`, `null` without a buffer, and throws on an empty one; any other field gives `next()` |
| Mysql.ColumnPairs | lib/async-modules/mysql.js:34-35 | one `name as alias` piece per own key of the map, in key order |
| Mysql.BuildColumnStatement | lib/async-modules/mysql.js:33-37 | the loop gives the pieces joined by `, ` with no separator after the last |
| Mysql.ColumnsReplaced | lib/async-modules/mysql.js:30-41 | throws iff the SQL is a string and the map is `null`; is the SQL unchanged unless the SQL is a string and the map an object; is a string iff the SQL is |
| Mysql.ReplaceSqlColumns | lib/async-modules/mysql.js:30-41 | the method gives `ColumnsReplaced` |
| Mysql.ColumnsReplacedAt | lib/async-modules/mysql.js:38 | the first `:COL_MAP` becomes exactly the column list, nothing else changes |
| Mysql.ColumnsReplacedAbsent | lib/async-modules/mysql.js:38 | SQL without `:COL_MAP` is kept |
| Mysql.JoinStrings | lib/async-modules/mysql.js:61 | an array of strings is joined with the separator |
| Mysql.SqlText | lib/async-modules/mysql.js:61 | an array of lines is joined with spaces, anything else kept |
| Mysql.GetAsyncFnAsWritten | lib/async-modules/mysql.js:59-65 | the own column map, else the parent's read without a guard, which throws for a top-level node |
| Mysql.GetAsyncFn | lib/async-modules/mysql.js:59-65 | the guarded lookup never throws for a top-level node |
| Mysql.GuardedAgrees | lib/async-modules/mysql.js:62 | wherever the written code succeeds, the guarded one builds the same function |
| Mysql.TopLevelWithoutColumnMap | lib/async-modules/mysql.js:62 | a top-level operation without `COL_MAP` throws as written and keeps its SQL when guarded |
| Mysql.QueryParams | lib/async-modules/mysql.js:68 | the request's params when truthy, else the global ones |
| Mysql.Invoke | lib/async-modules/mysql.js:67-76 | the query runs the prepared SQL with those params |
| Mysql.SingleRecord | lib/async-modules/mysql.js:88 | one row gives that row, none or several give `{}`; nullish results throw |
| Mysql.Settle | lib/async-modules/mysql.js:70-90 | a connection error rejects first, then a query error; otherwise the rows, or the single record |
| Mysql.CloseConnections | lib/async-modules/mysql.js:43-55 | rejects with the pool's error iff there is one, else resolves `undefined` |
| Aggregator.WalkConcat | lib/async-modules/aggregator.js:10-14 | walking a path in two parts is walking the first then the second |
| Aggregator.WalkMissing | lib/async-modules/aggregator.js:11-13 | once a step finds nothing the id resolves to `undefined` |
| Aggregator.FindByPath | lib/async-modules/aggregator.js:8-14 | an id joined from dot-free keys finds the node at the end of those keys |
| Aggregator.FindAll | lib/async-modules/aggregator.js:7-15 | succeeds iff every id is a string, finding each in order |
| Aggregator.FindMethods | lib/async-modules/aggregator.js:6-16 | throws for missing details or ids that are no array, otherwise finds each id |
| Aggregator.CallsMade | lib/async-modules/aggregator.js:22-24 | at most one call per found node |
| Aggregator.CallsMadeShape | lib/async-modules/aggregator.js:22-24 | every node is called in order with the same request until the first throw, which is the last call |
| Aggregator.RegisteredKeeps | lib/async-request-builder.js:62-63 | registering never touches an earlier id |
| Aggregator.RegisteredAt | lib/async-request-builder.js:62-63 | the `j`-th tracked call is under the `j`-th fresh id |
| Aggregator.CallAll | lib/async-modules/aggregator.js:22-24 | the map makes exactly those calls and registers each tracked one under the next id |
| Aggregator.CallOne | lib/async-modules/aggregator.js:23 | one call, registered iff tracked and not thrown |
| Aggregator.MergeAll | lib/async-modules/aggregator.js:30 | `Object.assign({}, …results)` is an object |
| Aggregator.MergeAllGet | lib/async-modules/aggregator.js:30 | a merged key holds the value of the last result that has it; a key no result has is absent |
| Aggregator.MergeRefuses | lib/async-modules/aggregator.js:27-30 | rejects `Unable to merge aggregate responses` iff no result is a plain object |
| Aggregator.LaterResultsWin | lib/async-modules/aggregator.js:30 | every key of a plain result is kept, and the last result having it wins |
| Aggregator.FirstRejection | lib/async-modules/aggregator.js:25 | the reason of the first rejected call, none iff no call rejected |
| Aggregator.FirstThrow | lib/async-modules/aggregator.js:22-24 | the error of the first call that threw, none iff none threw |
| Aggregator.Fetches | lib/async-modules/aggregator.js:25 | the requests still waiting, none iff no call waits |
| Aggregator.AllResolvedMerge | lib/async-modules/aggregator.js:25-31 | when every call resolved, the answer is the merge of the values in call order |
| Aggregator.ThrowWins | lib/async-modules/aggregator.js:22-24 | the first throw makes the handler throw its error |
| Aggregator.AggregatorFn.constructor | lib/async-modules/aggregator.js:3-4 | nothing is looked up when the handler is built |
| Aggregator.AggregatorFn.Handle | lib/async-modules/aggregator.js:18-31 | the lookup runs only while nothing is cached and a failing one caches nothing; then the calls are made, registered and settled |
| Swagger.RewriteUrlBraceFree | index.js:19 | the rewritten url has no braces, every `{` became `:`, every other character is kept and nothing is added |
| Swagger.RewriteUrlExample | index.js:19 | `/a/{id}` becomes `/a/:id` |
| Swagger.ConvertSwagger | index.js:3-27 | the nested loops give `Convert` with the corrected guard |
| Swagger.ConvertMethods | index.js:7-23 | the inner loop gives the fold over one path's methods |
| Swagger.ConvertOperation | index.js:9-22 | the body of the inner loop gives `AddOperation` with the corrected guard |
| Swagger.GroupWithEntry | index.js:15 | writing an entry into a group keeps it a group |
| Swagger.WithEntryGet | index.js:14-21 | an existing group is reused with its other entries; only the entry at tag and id is written; other tags are unchanged |
| Swagger.WithEntryWellFormed | index.js:14-21 | writing an entry keeps the tree well formed |
| Swagger.OperationAdded | index.js:11-21 | a qualifying operation writes `{asyncModule: "http", operationDetails: {method, url}}` at its first tag and id, and changes no other entry |
| Swagger.OperationOmitted | index.js:11 | an operation the guard rejects adds nothing |
| Swagger.OperationWellFormed | index.js:8-23 | each step keeps the tree well formed and throws only `TypeError` |
| Swagger.ConvertWellFormed | index.js:3-27 | a falsy document gives `{}`; a result is well formed; the only exception is `TypeError` |
| Swagger.OperationKeeps | index.js:14-15 | a later step never removes an entry |
| Swagger.AddMethodsListsFirst | index.js:8-23 | the first method, when it qualifies, is still listed after the inner loop |
| Swagger.AddMethodsLists | index.js:8-23 | every qualifying method of a path is listed after the inner loop |
| Swagger.AddPathWellFormed | index.js:6-24 | one turn of the outer loop keeps the tree well formed |
| Swagger.AddPathLists | index.js:6-24 | one turn of the outer loop lists each qualifying method of its path |
| Swagger.AddPathsListsFirst | index.js:6-24 | the first path's qualifying methods are still listed after the outer loop |
| Swagger.AddPathsLists | index.js:6-24 | every qualifying operation is listed after the outer loop |
| Swagger.EveryOperationListed | index.js:3-27 | a converted document lists every operation with tags and an `operationId`, under its first tag and its id |
| Swagger.OperationTraced | index.js:14-15 | after one step an entry is the one from before, or the entry this qualifying operation wrote at its first tag and id |
| Swagger.AddMethodsTraced | index.js:8-23 | after the inner loop an entry is the one from before, or the entry some qualifying method of the path wrote |
| Swagger.AddPathsTraced | index.js:6-24 | after the outer loop an entry is the one from before, or the entry some qualifying operation of some path wrote |
| Swagger.MethodWitness | index.js:8-23 | some method of a path writes an entry: the index of one that does |
| Swagger.PathWitness | index.js:6-24 | some path writes an entry: the index of one that does |
| Swagger.EveryListedOperation | index.js:3-27 | every entry of a converted document is the `http` entry of a qualifying operation of the document, at that operation's first tag and id; with `Swagger.EveryOperationListed` the listing is exact |
| Swagger.TaggedExample | index.js:3-27 | one tagged operation becomes one group holding one `http` operation on the rewritten url |
| Swagger.UntaggedThrowsAsWritten | index.js:11 | an operation without tags throws as written and is skipped when guarded |
| Swagger.UntaggedSkipped | index.js:11-12 | the guarded converter never throws on an operation object, skips one without tags, and agrees with the written one where tags exist |
| HttpExamples.QueryStringExample | lib/async-modules/__tests__/http.test.js:124-146 | the urlencoded payload `{name: "M A"}` is sent as `name=M+A` |
| HttpExamples.ParamsExample | lib/async-modules/__tests__/http.test.js:98-120 | the parameter `id` fills the `:id` placeholder and not the `:8080` port |
| HttpExamples.DefaultPrefixExample | lib/async-modules/__tests__/http.test.js:192-218 | without `prefixType` the `default` prefix goes in front of a relative url |
| HttpExamples.NamedPrefixExample | lib/async-modules/__tests__/http.test.js:219-247 | a `prefixType` selects its own prefix |
| HttpExamples.AbsoluteUrlExample | lib/async-modules/__tests__/http.test.js:248-272 | an absolute url gets no prefix |
| HttpExamples.SendWithPrefix | lib/async-modules/__tests__/http.test.js:274-298 | a POST without a payload is sent to its url with its headers and a `null` body |
| HttpExamples.KeyExample | lib/async-modules/__tests__/http.test.js:351-386 | the super mock key is the JSON of url, body and headers inside `URI[…]Payload[…]Headers[…]` |
| HttpExamples.SuperMockExample | lib/async-modules/__tests__/http.test.js:351-386 | the super mock entry under the request's key wins |
| HttpExamples.SmartMockExample | lib/async-modules/__tests__/http.test.js:320-350 | without a super mock, the smart mock entry under the final url answers |
| HttpExamples.PlainMockExample | lib/async-modules/__tests__/http.test.js:300-319 | with only a plain mock, a call answers with a copy of it |
| MysqlExamples.ColumnsExample | lib/__tests__/mysql.test.js:142-150 | the test's SQL lines and column map give the expected statement |
| MysqlExamples.GetAsyncFnExample | lib/__tests__/mysql.test.js:142-150 | the test's top-level operation prepares that statement and keeps `singleRecord` |
| MysqlExamples.ParamsExample | lib/__tests__/mysql.test.js:151-183 | the request's params win; without them the global params are used |
| MysqlExamples.QueryFormatExample | lib/__tests__/mysql.test.js:151-174 | `:id` takes the escaped `id`; with `{}` or no values the statement is kept |
| MysqlExamples.SettleExample | lib/__tests__/mysql.test.js:190-231 | one row is the record, several give `{}` under `singleRecord`, rows pass through otherwise, a query error rejects |
| MysqlExamples.TypeCastExample | lib/__tests__/mysql.test.js:110-125 | a BIT(1) field whose byte is 1 reads `true`; another field defers to `next()` |
| XhrExamples.ReplaceTakesParamsDirectly | lib/async-modules/__tests__/xhr.test.js:116-134 | handed a whole request object, the url-filling function leaves `:id` in place |
| XhrExamples.ReplaceWithParams | lib/async-modules/xhr.js:167-169 | handed the parameters themselves, it fills the placeholder |
| XhrExamples.NoMethodExample | lib/async-modules/__tests__/xhr.test.js:15-35 | an operation with a url and no method returns the url unfilled and sends nothing |

## Left out

- Promise timing is left out. The fail-fast behaviour of `Promise.all` in
  `waitForPendingRequests` is not modelled; the wait is stated as the list of pending
  calls. Calls are modelled by how they settle once their inputs are known. A fetch still
  on the network is `Fetch` with its final request, and the aggregator's `Promise.all` is
  stated over those outcomes.
- Network and database I/O (`fetch`, `XMLHttpRequest`, the mysql pool and connections)
  are left out. Their answers (status, body text, errors, rows) are parameters. The
  connection's `escape` is a function parameter of `Mysql.QueryFormat`.
- `sendHttpRequest`'s `.catch` on a network failure is not modelled. `Http.Settle` covers
  an answered request only.
- Console logging is left out.
- `FormData` is modelled as its list of entries.
- Numbers are integers. `Object.keys` is modelled as insertion order, so the ordering of
  integer-like keys ahead of other keys is not modelled. Only enumerable own properties
  are modelled: inherited properties (a tag named `toString`, say) and the `length` of
  arrays and functions are left out.
- Builder.CompileRoot: its precondition leaves out two kinds of definition. One is a
  definition whose visited children are `null`, for which the source throws. The other
  uses an object or array as `asyncModule`, for which the source may walk forever.
- Builder.ModuleRegistry.Load: only `http` can be loaded, as in the source. `require` of
  any other module is not modelled.
- Builder.ParseAsyncReqJSON: the assignment `globals.resourceFactory = …` is not modelled
  as state. The aggregator receives the resource factory as a parameter of
  `Aggregator.AggregatorFn.Handle`.
- Builder.RootControls: the two control functions are values. Calling them is
  `Builder.CloseAsyncModuleConnections` and `Builder.PendingRegistry.Waiting`. An
  aggregator that reaches them calls a `controls` parameter.
- The sloppy-mode assignment of the controls to a primitive root is modelled as having
  no effect.
- Closures are modelled by the values they capture (`Http.AsyncFn`, `Http.MockFn`,
  `Builder.OpFn`, `Mysql.MysqlFn`).
- Http.WithDefaultContentType: the source writes the default into the headers object it
  was given. The model returns the new headers as a value, and
  `Http.DefaultContentTypeIdempotent` shows that later calls see no difference.
- Http.WithDefaultContentType: arrays carry no named properties in the model, so
  array-valued `headers` on a PUT or POST are returned unchanged. In the source,
  `headers['Content-Type'] = …` puts a named property on the array. `Object.assign` then
  copies it into the merged headers, and the payload is sent as JSON text. In the model
  the merged headers have no `Content-Type` and the payload is sent as it is. This also
  affects the super-mock key built from such a request, and `Xhr`, which reuses these
  helpers.
- UriCodec.Utf8Bytes, Http.SmartUriEncodeParam, Xhr.SmartUriEncodeParam: strings are
  sequences of Unicode scalar values, not of UTF-16 code units. The model therefore has
  no `URIError` path for a lone surrogate, which `encodeURIComponent` throws on in
  `smartUriEncodeParam` and in the query-string builder. String `length`, and the index
  keys that `Object.keys` and `Object.assign` give a string, count characters where
  JavaScript counts code units; the two differ only outside the Basic Multilingual Plane.
- Http.GetAsyncFn: writing the GET default back into `operationDetails` is modelled as
  the value `Http.DefaultedMethod`, not as a mutation of the shared definition.
- Xhr: the helpers that equal the http module's (`setDefaultJSONContentType`,
  `transformRequestPayload`, `createFinalRequestObject` apart from its `uri` field name)
  reuse the `Http` definitions.
- The `gi` flags of the swagger rewrite are left out, since braces have no case.
- The `mongo` and `file` modules, the test mocks and the build configuration are not part
  of this model.

## Findings

| source | as written | input that shows it | evidently intended | confidence | as-written member | corrected member |
|---|---|---|---|---|---|---|
| lib/async-request-builder.js:44 | the fallback mock deep-copies `mockResponse` with `JSON.parse(JSON.stringify(…))` | a definition with a truthy `operationDetails`, a `smartMockResponse` and no `mockResponse`, whose module has no mock function: `JSON.stringify(undefined)` is `undefined`, and `JSON.parse` throws | resolve `{}`, as the fallback to `{}` beside it says | not executed | Builder.DefaultMockCallAsWritten (shown by Builder.SmartMockOnlyThrows) | Builder.DefaultMockCall (Builder.DefaultMockResolves) |
| lib/async-modules/mysql.js:62 | the own `COL_MAP`, or else `parentOperationDetails.COL_MAP` read without a guard | a top-level operation `{SQL: "…"}` without `COL_MAP`: its parent has no `operationDetails`, and reading `COL_MAP` of `undefined` throws | use no column map when there is no parent | not executed | Mysql.GetAsyncFnAsWritten (shown by Mysql.TopLevelWithoutColumnMap) | Mysql.GetAsyncFn (Mysql.GuardedAgrees) |
| index.js:11 | `if (tags.length && operationId)` | an operation without `tags`: reading `length` of `undefined` throws | skip the operation, as the comment "ignore if no tags specified" says | not executed | Swagger.Convert with `strictTags` (shown by Swagger.UntaggedThrowsAsWritten) | Swagger.ConvertSwagger (Swagger.UntaggedSkipped) |
