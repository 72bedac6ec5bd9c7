/**
 * The async request builder: a definition document is deep-copied, given two control
 * functions at its root, and compiled into a tree in which every operation-shaped node
 * has become a function. Modules are loaded (and memoised) per build; calls made through
 * a module's `getAsyncFn` are tracked in a process-wide registry of pending requests.
 */
module Builder {
  import opened Wrappers
  import opened JsString
  import opened Js
  import Http

  const AsyncModulesFolder: string := "./async-modules/"
  const OperationKey: string := "operationDetails"
  const AsyncModuleKey: string := "asyncModule"
  const DefaultMockResponse: string := "mockResponse"
  const MockResponseNames: seq<string> := [DefaultMockResponse, "smartMockResponse", "superMockResponse"]
  const HttpPath: string := AsyncModulesFolder + Http.ModuleName

  /** The two control functions the builder adds to the root of the compiled document. */
  const CloseKey: string := "closeAsyncModuleConnections"
  const WaitKey: string := "waitForPendingRequests"
  const CloseControl: Value := Func(CloseKey)
  const WaitControl: Value := Func(WaitKey)

  const FailedToGetPrefix: string := "Failed to get asyncFn for module "

  // ---------------------------------------------------------------------------------------
  // Modules

  /** Which of the optional entry points a loaded module exports. */
  datatype Exports = Exports(getAsyncFn: bool, getMockResponseFn: bool, closeConnections: bool)

  /** The `http` module as shipped: both factories and no `closeConnections`. */
  const HttpExports: Exports := Exports(true, true, false)

  /** What a build passes down: the `http` module's exports and the prefixes and params of the configuration. */
  datatype Context = Context(http: Exports, globals: Http.Globals)

  /** Neither an object (nor `null`, nor an array) nor a function. */
  predicate IsPrimitive(v: Value)
  {
    !TypeofObject(v) && !v.Func?
  }

  function ModulePath(name: Value): string
  {
    AsyncModulesFolder + ToStr(name)
  }

  lemma PrefixCancel(a: string, b: string, c: string)
    requires a + b == a + c
    ensures b == c
  {
    assert b == (a + b)[|a|..];
    assert c == (a + c)[|a|..];
  }

  /** Of all primitive module names, only the string `"http"` has the `http` module's path. */
  lemma OnlyHttpHasHttpPath(name: Value)
    requires IsPrimitive(name)
    ensures ModulePath(name) == HttpPath <==> name == Str(Http.ModuleName)
  {
    if ModulePath(name) == HttpPath {
      PrefixCancel(AsyncModulesFolder, ToStr(name), Http.ModuleName);
      assert ToStr(name)[0] == 'h';
    }
  }

  /** The module `loadAsyncModule` gives for a name, once `http` is available: only `"http"` resolves. */
  function ResolveModule(name: Value, http: Exports): (r: Option<Exports>)
    ensures r.Some? <==> name == Str(Http.ModuleName)
    ensures r.Some? ==> r.value == http
  {
    if name == Str(Http.ModuleName) then Some(http) else None
  }

  /**
   * The per-build `loadedAsyncModuleMap`: module paths and the modules loaded under them,
   * in insertion order.
   */
  class ModuleRegistry {
    /** The module `require` gives for the `http` path. */
    const http: Exports
    var loaded: seq<(string, Exports)>

    /** Only the `http` module is ever stored, under its path, and at most once. */
    ghost predicate Valid()
      reads this
    {
      && (forall i :: 0 <= i < |loaded| ==> loaded[i] == (HttpPath, http))
      && (forall i, j :: 0 <= i < j < |loaded| ==> loaded[i].0 != loaded[j].0)
    }

    constructor (http: Exports)
      ensures Valid() && this.http == http && loaded == []
    {
      this.http := http;
      loaded := [];
    }

    /** `loadedAsyncModuleMap[path]`. */
    function Find(path: string): (r: Option<Exports>)
      reads this
      requires Valid()
      ensures r.Some? <==> |loaded| > 0 && path == HttpPath
      ensures r.Some? ==> r.value == http
    {
      if |loaded| > 0 && loaded[0].0 == path then Some(loaded[0].1) else None
    }

    /** `loadAsyncModule(name, loadedAsyncModuleMap)` for a primitive name. */
    method Load(name: Value) returns (m: Option<Exports>)
      requires Valid() && IsPrimitive(name)
      modifies this
      ensures Valid()
      ensures m == ResolveModule(name, http)
      ensures loaded == if name == Str(Http.ModuleName) && old(loaded) == [] then [(HttpPath, http)] else old(loaded)
    {
      var path := ModulePath(name);
      OnlyHttpHasHttpPath(name);
      if name == Str(Http.ModuleName) {
        var current := Find(path);
        if current.None? {
          loaded := loaded + [(path, http)];
        }
      }
      m := Find(path);
    }

    /** The `closeConnections` loop of `closeAsyncModuleConnections`: one call per loaded module that has it. */
    method CloseConnections() returns (closed: seq<string>)
      ensures closed == ClosingPaths(loaded)
    {
      closed := [];
      for i := 0 to |loaded|
        invariant closed == ClosingPaths(loaded[..i])
      {
        assert loaded[..i + 1] == loaded[..i] + [loaded[i]];
        var (path, exports) := loaded[i];
        if exports.closeConnections {
          closed := closed + [path];
        }
      }
      assert loaded[..|loaded|] == loaded;
    }
  }

  /** The paths, in order, of the loaded modules that export `closeConnections`. */
  function ClosingPaths(loaded: seq<(string, Exports)>): (r: seq<string>)
    ensures |r| <= |loaded|
    ensures forall path :: path in r <==> exists i :: 0 <= i < |loaded| && loaded[i].0 == path && loaded[i].1.closeConnections
  {
    if |loaded| == 0 then []
    else
      var last := loaded[|loaded| - 1];
      ClosingPaths(loaded[..|loaded| - 1]) + (if last.1.closeConnections then [last.0] else [])
  }

  /** In a valid registry, only the `http` module can be closed, and only if it has `closeConnections`. */
  lemma ClosingOnlyHttp(registry: ModuleRegistry)
    requires registry.Valid()
    ensures ClosingPaths(registry.loaded) == if |registry.loaded| > 0 && registry.http.closeConnections then [HttpPath] else []
  {
    var loaded := registry.loaded;
    if |loaded| == 1 {
      assert loaded == [loaded[0]];
    }
  }

  // ---------------------------------------------------------------------------------------
  // Operation functions

  /**
   * What a compiled operation node does when called, as the values its closure captures:
   * the module's mock made from the definition and the globals, the builder's fallback mock,
   * a function that rejects with a message, or the module's async function for the
   * operation details and the globals, tracked, with the parent's details kept beside it.
   */
  datatype OpFn =
    | HttpMock(def: Value, globals: Http.Globals)
    | DefaultMock(def: Value)
    | FailedToGet(message: string)
    | Tracked(od: Value, parentOd: Value, globals: Http.Globals)

  /** Some own key of the definition is one of the three mock fields (present, whatever its value). */
  predicate ContainsMockResponse(def: Value)
  {
    exists i :: 0 <= i < |MockResponseNames| && HasOwn(def, MockResponseNames[i])
  }

  /** `asyncModule && asyncModule.name`, as the text the rejection message shows. */
  function ModuleNameText(name: Value, loadedModule: Option<Exports>): string
  {
    if !Truthy(name) then ToStr(name)
    else if loadedModule.Some? then Http.ModuleName
    else "undefined"
  }

  /** The module a definition names, loaded only when the name is truthy. */
  function ModuleOf(def: Value, http: Exports): (r: Option<Exports>)
    ensures r.Some? <==> Get(def, AsyncModuleKey) == Str(Http.ModuleName)
  {
    var name := Get(def, AsyncModuleKey);
    if Truthy(name) then ResolveModule(name, http) else None
  }

  /** A node is compiled into a function when `(asyncModule && operationDetails) || mockResponse` is truthy. */
  predicate CanParseAsyncFn(def: Value, moduleName: Value)
  {
    (Truthy(moduleName) && Truthy(Get(def, OperationKey))) || Truthy(Get(def, DefaultMockResponse))
  }

  /**
   * `createAsyncFn`: a node with a mock field gets a mock function, the module's own if it
   * has one; any other node gets the module's tracked function, or one that rejects.
   */
  function OperationFn(def: Value, parentOd: Value, ctx: Context): (f: OpFn)
    requires CanParseAsyncFn(def, Get(def, AsyncModuleKey))
    ensures ContainsMockResponse(def) <==> f.HttpMock? || f.DefaultMock?
    ensures f.HttpMock? <==> ContainsMockResponse(def) && ModuleOf(def, ctx.http).Some? && ctx.http.getMockResponseFn
    ensures f.HttpMock? ==> f.def == def && f.globals == ctx.globals
    ensures f.DefaultMock? ==> f.def == def
    ensures f.Tracked? <==> !ContainsMockResponse(def) && ModuleOf(def, ctx.http).Some? && ctx.http.getAsyncFn
    ensures f.Tracked? ==>
      && f.od == Get(def, OperationKey) && !IsNullish(f.od)
      && f.parentOd == parentOd && f.globals == ctx.globals
    ensures f.FailedToGet? ==> f.message == FailedToGetPrefix + ModuleNameText(Get(def, AsyncModuleKey), ModuleOf(def, ctx.http))
  {
    var loadedModule := ModuleOf(def, ctx.http);
    if ContainsMockResponse(def) then
      if loadedModule.Some? && loadedModule.value.getMockResponseFn then HttpMock(def, ctx.globals)
      else DefaultMock(def)
    else if loadedModule.Some? && loadedModule.value.getAsyncFn then
      assert !HasOwn(def, MockResponseNames[0]);
      var od := Get(def, OperationKey);
      Tracked(od, parentOd, ctx.globals)
    else
      FailedToGet(FailedToGetPrefix + ModuleNameText(Get(def, AsyncModuleKey), loadedModule))
  }

  /**
   * The builder's fallback mock as written: a deep copy of `mockResponse`, or `{}` when the
   * copy is falsy. With only a smart or super mock field there is no `mockResponse`, and
   * `JSON.parse(JSON.stringify(undefined))` throws.
   */
  function DefaultMockCallAsWritten(def: Value): (c: Http.Call)
    ensures c.Resolved? || c == Http.Threw(SyntaxError)
    ensures c.Threw? <==> Clone(Get(def, DefaultMockResponse)).None?
  {
    match Clone(Get(def, DefaultMockResponse))
    case None => Http.Threw(SyntaxError)
    case Some(copy) => Http.Resolved(Or(copy, EmptyObject))
  }

  /** The fallback mock as intended: `{}` when there is no `mockResponse`, otherwise as written. */
  function DefaultMockCall(def: Value): (c: Http.Call)
    ensures Get(def, DefaultMockResponse) == Undefined ==> c == Http.Resolved(EmptyObject)
    ensures Get(def, DefaultMockResponse) != Undefined ==> c == DefaultMockCallAsWritten(def)
  {
    if Get(def, DefaultMockResponse) == Undefined then Http.Resolved(EmptyObject)
    else DefaultMockCallAsWritten(def)
  }

  /** On a JSON definition the fallback mock always resolves, to a copy of `mockResponse` or to `{}`. */
  lemma DefaultMockResolves(def: Value)
    requires IsJson(def)
    ensures DefaultMockCall(def).Resolved?
    ensures var mock := Get(def, DefaultMockResponse);
      DefaultMockCall(def).value == if Truthy(mock) then mock else EmptyObject
  {
    var mock := Get(def, DefaultMockResponse);
    GetJson(def, DefaultMockResponse);
    if mock != Undefined {
      CloneJson(mock);
    }
  }

  /**
   * A definition with operation details, a smart mock and no `mockResponse`, naming a module
   * that is not loaded: it is compiled into the fallback mock, which as written throws.
   */
  lemma SmartMockOnlyThrows(od: Value, smart: Value, parentOd: Value, ctx: Context)
    requires Truthy(od)
    ensures var def := Obj([Prop(AsyncModuleKey, Str("xhr")), Prop(OperationKey, od), Prop("smartMockResponse", smart)]);
      && CanParseAsyncFn(def, Get(def, AsyncModuleKey))
      && OperationFn(def, parentOd, ctx) == DefaultMock(def)
      && DefaultMockCallAsWritten(def) == Http.Threw(SyntaxError)
      && DefaultMockCall(def) == Http.Resolved(EmptyObject)
  {
    var props := [Prop(AsyncModuleKey, Str("xhr")), Prop(OperationKey, od), Prop("smartMockResponse", smart)];
    var def := Obj(props);
    assert Keys(def) == [AsyncModuleKey, OperationKey, MockResponseNames[1]];
    assert HasOwn(def, MockResponseNames[1]);
    GetFirst(props, 0, AsyncModuleKey);
    assert AsyncModuleKey[0] != OperationKey[0];
    GetFirst(props, 1, OperationKey);
  }

  /**
   * Calling a compiled operation function with a request. The compiler makes tracked
   * functions only for details that are not nullish; for other details the call throws
   * what `getAsyncFn` itself would have thrown.
   */
  function InvokeOp(f: OpFn, request: Value): (c: Http.Call)
    ensures f.FailedToGet? ==> c == Http.Rejected(Str(f.message))
    ensures f.DefaultMock? ==> c == DefaultMockCall(f.def)
    ensures f.HttpMock? ==> c.Resolved? || c.Threw?
    ensures f.Tracked? && !IsNullish(f.od) ==> c == Http.Invoke(Http.GetAsyncFn(f.od, f.globals).value, request)
    ensures f.Tracked? && IsNullish(f.od) ==> c == Http.Threw(TypeError)
  {
    match f
    case HttpMock(def, globals) => Http.InvokeMock(Http.GetMockResponseFn(def, globals), request)
    case DefaultMock(def) => DefaultMockCall(def)
    case FailedToGet(message) => Http.Rejected(Str(message))
    case Tracked(od, _, globals) =>
      match Http.GetAsyncFn(od, globals)
      case Ok(fn) => Http.Invoke(fn, request)
      case Err(e) => Http.Threw(e)
  }

  // ---------------------------------------------------------------------------------------
  // The compiled tree

  /**
   * A node of the compiled document: a value left as it was, a container (object or array)
   * whose entries were visited, or an operation turned into a function.
   */
  datatype Node =
    | Data(value: Value)
    | Group(isArray: bool, entries: seq<Entry>)
    | Operation(fn: OpFn)

  datatype Entry = Entry(key: string, node: Node)

  /** The own enumerable properties of an object or array, as `Object.keys` lists them. */
  function Members(v: Value): (r: seq<Prop>)
    ensures v.Obj? ==> r == v.props
    ensures v.Arr? ==> |r| == |v.items| && forall i :: 0 <= i < |r| ==> r[i] == Prop(NatToString(i), v.items[i])
    ensures v.Arr? ==> forall p :: p in r ==> p.val in v.items
    ensures !v.Obj? && !v.Arr? ==> r == []
  {
    match v
    case Obj(props) => props
    case Arr(items) => seq(|items|, i requires 0 <= i < |items| => Prop(NatToString(i), items[i]))
    case _ => []
  }

  /** `isPotentialAsyncFn`: an object-typed value (`null` included) under a key that is no reserved field. */
  predicate IsPotentialAsyncFn(key: string, value: Value)
  {
    TypeofObject(value) && key != OperationKey && key !in MockResponseNames
  }

  /** Every member the compiler may visit is one of the container's own members. */
  ghost predicate Within(container: Value, members: seq<Prop>)
  {
    forall i :: 0 <= i < |members| && IsPotentialAsyncFn(members[i].key, members[i].val) ==>
      members[i] in Members(container)
  }

  /** The members a child container is walked with: its own, with `asyncModule` set to the module it ends up with. */
  function GroupMembers(v: Value, moduleName: Value): seq<Prop>
  {
    SetInProps(Members(v), AsyncModuleKey, moduleName)
  }

  lemma {:induction false} SetInPropsFrom(props: seq<Prop>, key: string, x: Value)
    ensures forall i :: 0 <= i < |SetInProps(props, key, x)| ==>
      SetInProps(props, key, x)[i] in props || SetInProps(props, key, x)[i] == Prop(key, x)
  {
    if |props| > 0 && props[0].key != key {
      SetInPropsFrom(props[1..], key, x);
      var r := SetInProps(props, key, x);
      forall i | 0 <= i < |r| ensures r[i] in props || r[i] == Prop(key, x) {
        if i > 0 {
          assert r[i] == SetInProps(props[1..], key, x)[i - 1];
        }
      }
    }
  }

  lemma GroupWithin(v: Value, moduleName: Value)
    requires IsPrimitive(moduleName)
    ensures Within(v, GroupMembers(v, moduleName))
  {
    SetInPropsFrom(Members(v), AsyncModuleKey, moduleName);
  }

  /** The `asyncModule` a visited child ends up with: its own if truthy, else its parent's. */
  function InheritedModule(child: Value, parentModule: Value): Value
  {
    Or(Get(child, AsyncModuleKey), parentModule)
  }

  /**
   * The documents the compiler handles: every visited child is not `null` and ends up with a
   * primitive `asyncModule`, and every child that is not an operation is walked in turn.
   */
  ghost predicate CompilableMembers(container: Value, members: seq<Prop>, moduleName: Value)
    requires Within(container, members)
    decreases container, 1
  {
    forall i :: 0 <= i < |members| && IsPotentialAsyncFn(members[i].key, members[i].val) ==>
      CompilableChild(container, members[i], moduleName)
  }

  ghost predicate CompilableChild(container: Value, p: Prop, moduleName: Value)
    requires p in Members(container)
    decreases container, 0
  {
    var m := InheritedModule(p.val, moduleName);
    && !p.val.Null?
    && IsPrimitive(m)
    && (CanParseAsyncFn(p.val, m) || (assert container.Obj? || container.Arr?; CompilableGroup(p.val, m)))
  }

  ghost predicate CompilableGroup(v: Value, moduleName: Value)
    requires IsPrimitive(moduleName)
    decreases v, 2
  {
    GroupWithin(v, moduleName);
    CompilableMembers(v, GroupMembers(v, moduleName), moduleName)
  }

  /** The first `n` compiled entries, one per member in order; each member is compiled as `CompileMember` says. */
  function CompilePrefix(container: Value, members: seq<Prop>, n: nat, moduleName: Value, od: Value, ctx: Context): (r: seq<Entry>)
    requires n <= |members| && Within(container, members) && CompilableMembers(container, members, moduleName)
    decreases container, 1, n
    ensures |r| == n
  {
    if n == 0 then []
    else
      CompilePrefix(container, members, n - 1, moduleName, od, ctx)
        + [Entry(members[n - 1].key, CompileMember(container, members[n - 1], moduleName, od, ctx))]
  }

  /** The compiled entries of all members. */
  function CompileMembers(container: Value, members: seq<Prop>, moduleName: Value, od: Value, ctx: Context): seq<Entry>
    requires Within(container, members) && CompilableMembers(container, members, moduleName)
    decreases container, 1, |members| + 1
  {
    CompilePrefix(container, members, |members|, moduleName, od, ctx)
  }

  /**
   * One member: kept if it is no potential operation; otherwise, with its `asyncModule`
   * inherited, turned into a function if it can be parsed as one, and walked if not.
   */
  function CompileMember(container: Value, p: Prop, moduleName: Value, od: Value, ctx: Context): (r: Node)
    requires IsPotentialAsyncFn(p.key, p.val) ==> p in Members(container) && CompilableChild(container, p, moduleName)
    decreases container, 0
    ensures !IsPotentialAsyncFn(p.key, p.val) ==> r == Data(p.val)
  {
    if !IsPotentialAsyncFn(p.key, p.val) then Data(p.val)
    else
      var m := InheritedModule(p.val, moduleName);
      if CanParseAsyncFn(p.val, m) then
        ParsedIsObject(p.val, m);
        Operation(OperationFn(SetProp(p.val, AsyncModuleKey, m), od, ctx))
      else
        assert container.Obj? || container.Arr?;
        CompileGroup(p.val, m, ctx)
  }

  /** A child container: its entries compiled with its inherited module and its own `operationDetails`. */
  function CompileGroup(v: Value, moduleName: Value, ctx: Context): (r: Node)
    requires IsPrimitive(moduleName) && CompilableGroup(v, moduleName)
    decreases v, 2
    ensures r.Group? && r.isArray == v.Arr?
  {
    GroupWithin(v, moduleName);
    Group(v.Arr?, CompileMembers(v, GroupMembers(v, moduleName), moduleName, Get(v, OperationKey), ctx))
  }

  /** An index key is all digits, so no array has `operationDetails` or `mockResponse`. */
  lemma NamedKeyOfArray(items: seq<Value>, key: string)
    requires |key| > 0 && !('0' <= key[0] <= '9')
    ensures Get(Arr(items), key) == Undefined
  {
  }

  /** Only objects can be parsed as operations; the copied-down module is then the definition's. */
  lemma ParsedIsObject(v: Value, m: Value)
    requires TypeofObject(v) && !v.Null? && CanParseAsyncFn(v, m)
    ensures v.Obj?
    ensures CanParseAsyncFn(SetProp(v, AsyncModuleKey, m), Get(SetProp(v, AsyncModuleKey, m), AsyncModuleKey))
  {
    if v.Arr? {
      NamedKeyOfArray(v.items, OperationKey);
      NamedKeyOfArray(v.items, DefaultMockResponse);
    }
  }

  /** The root's members after the two control functions were assigned to it. */
  function RootMembers(root: Value): seq<Prop>
  {
    SetInProps(SetInProps(Members(root), CloseKey, CloseControl), WaitKey, WaitControl)
  }

  lemma RootWithin(root: Value)
    ensures Within(root, RootMembers(root))
  {
    var withClose := SetInProps(Members(root), CloseKey, CloseControl);
    SetInPropsFrom(Members(root), CloseKey, CloseControl);
    SetInPropsFrom(withClose, WaitKey, WaitControl);
  }

  /** A root the compiler handles: an object or array whose visited children are compilable, or a primitive. */
  ghost predicate CompilableRoot(root: Value)
  {
    (root.Obj? || root.Arr?) ==>
      (RootWithin(root);
       CompilableMembers(root, RootMembers(root), Get(root, AsyncModuleKey)))
  }

  /**
   * The compiled document: an object or array root is walked with the controls in place and
   * its own `asyncModule` and `operationDetails`; any other root is returned as it is (the
   * assignments of the controls to a primitive have no effect).
   */
  function CompileRoot(root: Value, ctx: Context): (r: Node)
    requires CompilableRoot(root)
    ensures (root.Obj? || root.Arr?) <==> r.Group?
    ensures r.Group? ==> r.isArray == root.Arr? && |r.entries| == |RootMembers(root)|
  {
    if root.Obj? || root.Arr? then
      RootWithin(root);
      Group(root.Arr?, CompileMembers(root, RootMembers(root), Get(root, AsyncModuleKey), Get(root, OperationKey), ctx))
    else Data(root)
  }

  // ---------------------------------------------------------------------------------------
  // The modules a build loads

  /**
   * The module map after a step that loads `http` or not: `http` is stored under its path
   * when the map was still empty, and the map is otherwise unchanged.
   */
  function LoadedAfter(before: seq<(string, Exports)>, http: Exports, loadsHttp: bool): seq<(string, Exports)>
  {
    if loadsHttp && before == [] then [(HttpPath, http)] else before
  }

  /** Two steps in a row load `http` exactly when one of them does. */
  lemma LoadedAfterTwice(before: seq<(string, Exports)>, http: Exports, first: bool, second: bool)
    ensures LoadedAfter(LoadedAfter(before, http, first), http, second) == LoadedAfter(before, http, first || second)
  {
  }

  /**
   * Some visited member among the first `n` loads `http`: an operation whose inherited
   * `asyncModule` is `"http"`, or a walked child with such an operation inside.
   */
  ghost predicate LoadsHttpPrefix(container: Value, members: seq<Prop>, n: nat, moduleName: Value)
    requires n <= |members| && Within(container, members)
    decreases container, 2, n
  {
    n > 0 && (LoadsHttpPrefix(container, members, n - 1, moduleName) || MemberLoadsHttp(container, members, n - 1, moduleName))
  }

  /** The `i`-th member is visited and loads `http`. */
  ghost predicate MemberLoadsHttp(container: Value, members: seq<Prop>, i: nat, moduleName: Value)
    requires i < |members| && Within(container, members)
    decreases container, 1
  {
    IsPotentialAsyncFn(members[i].key, members[i].val) && ChildLoadsHttp(container, members[i], moduleName)
  }

  /** One visited child loads `http`: as an operation naming it, or through its own members. */
  ghost predicate ChildLoadsHttp(container: Value, p: Prop, moduleName: Value)
    requires p in Members(container)
    decreases container, 0
  {
    var m := InheritedModule(p.val, moduleName);
    && !p.val.Null?
    && IsPrimitive(m)
    && (if CanParseAsyncFn(p.val, m) then m == Str(Http.ModuleName)
        else (assert container.Obj? || container.Arr?; GroupLoadsHttp(p.val, m)))
  }

  /** A walked child loads `http` through one of its members. */
  ghost predicate GroupLoadsHttp(v: Value, moduleName: Value)
    requires IsPrimitive(moduleName)
    decreases v, 3
  {
    GroupWithin(v, moduleName);
    var members := GroupMembers(v, moduleName);
    LoadsHttpPrefix(v, members, |members|, moduleName)
  }

  /** The root loads `http`: it is walked and one of its members loads it. */
  ghost predicate RootLoadsHttp(root: Value)
  {
    (root.Obj? || root.Arr?) &&
      (RootWithin(root);
       LoadsHttpPrefix(root, RootMembers(root), |RootMembers(root)|, Get(root, AsyncModuleKey)))
  }

  /** A document with one `http` operation loads `http`. */
  lemma HttpOperationLoads(od: Value)
    requires Truthy(od)
    ensures RootLoadsHttp(Obj([Prop("get", Obj([Prop(AsyncModuleKey, Str(Http.ModuleName)), Prop(OperationKey, od)]))]))
  {
    var opProps := [Prop(AsyncModuleKey, Str(Http.ModuleName)), Prop(OperationKey, od)];
    var op := Obj(opProps);
    GetFirst(opProps, 0, AsyncModuleKey);
    assert AsyncModuleKey[0] != OperationKey[0];
    GetFirst(opProps, 1, OperationKey);
    var root := Obj([Prop("get", op)]);
    var members := ThreeRootMembers(op);
    assert MemberLoadsHttp(root, members, 0, Undefined);
    LoadsHttpStep(root, members, 0, Undefined);
    LoadsHttpStep(root, members, 1, Undefined);
    LoadsHttpStep(root, members, 2, Undefined);
  }

  /** A document whose only operation is a plain mock without a module loads nothing. */
  lemma MockOnlyLoadsNothing(mock: Value)
    requires Truthy(mock)
    ensures !RootLoadsHttp(Obj([Prop("get", Obj([Prop(DefaultMockResponse, mock)]))]))
  {
    var mockProps := [Prop(DefaultMockResponse, mock)];
    var mockOp := Obj(mockProps);
    GetFirst(mockProps, 0, DefaultMockResponse);
    assert Keys(mockOp) == [DefaultMockResponse] && AsyncModuleKey[0] != DefaultMockResponse[0];
    assert Get(mockOp, AsyncModuleKey) == Undefined;
    var mockRoot := Obj([Prop("get", mockOp)]);
    var mockMembers := ThreeRootMembers(mockOp);
    assert !MemberLoadsHttp(mockRoot, mockMembers, 0, Undefined);
    assert !MemberLoadsHttp(mockRoot, mockMembers, 1, Undefined);
    assert !MemberLoadsHttp(mockRoot, mockMembers, 2, Undefined);
    LoadsHttpStep(mockRoot, mockMembers, 0, Undefined);
    LoadsHttpStep(mockRoot, mockMembers, 1, Undefined);
    LoadsHttpStep(mockRoot, mockMembers, 2, Undefined);
  }

  /** A root with a single member `get` has that member and the two controls after it. */
  lemma ThreeRootMembers(op: Value) returns (members: seq<Prop>)
    ensures var root := Obj([Prop("get", op)]);
      && Within(root, RootMembers(root)) && Get(root, AsyncModuleKey) == Undefined
      && members == RootMembers(root)
      && members == [Prop("get", op), Prop(CloseKey, CloseControl), Prop(WaitKey, WaitControl)]
  {
    var root := Obj([Prop("get", op)]);
    RootWithin(root);
    assert "get"[0] != CloseKey[0] && "get"[0] != WaitKey[0] && CloseKey[0] != WaitKey[0];
    assert "get"[0] != AsyncModuleKey[0];
    assert "get" != CloseKey && "get" != WaitKey && CloseKey != WaitKey;
    assert [Prop("get", op)][1..] == [];
    var withClose := SetInProps([Prop("get", op)], CloseKey, CloseControl);
    assert withClose == [Prop("get", op)] + SetInProps([], CloseKey, CloseControl);
    assert withClose[1..] == [Prop(CloseKey, CloseControl)];
    assert SetInProps(withClose, WaitKey, WaitControl) == [withClose[0]] + SetInProps(withClose[1..], WaitKey, WaitControl);
    assert SetInProps(withClose[1..], WaitKey, WaitControl) == [Prop(CloseKey, CloseControl)] + SetInProps([], WaitKey, WaitControl);
    members := RootMembers(root);
  }

  /** The first `i + 1` members load `http` when the first `i` do or the `i`-th does. */
  lemma LoadsHttpStep(container: Value, members: seq<Prop>, i: nat, moduleName: Value)
    requires i < |members| && Within(container, members)
    ensures LoadsHttpPrefix(container, members, i + 1, moduleName)
        <==> LoadsHttpPrefix(container, members, i, moduleName) || MemberLoadsHttp(container, members, i, moduleName)
  {
  }

  // ---------------------------------------------------------------------------------------
  // The compiler, as the program runs it

  /**
   * `parseAsyncReqJSON` on a container's members: the entries start as the members' raw
   * values and each visited child is replaced in place by its function or its walked copy.
   */
  method ParseAsyncReqJSON(container: Value, members: seq<Prop>, moduleName: Value, od: Value, ctx: Context, modules: ModuleRegistry)
    returns (entries: seq<Entry>)
    requires Within(container, members) && CompilableMembers(container, members, moduleName)
    requires modules.Valid() && modules.http == ctx.http
    modifies modules
    decreases container, 2
    ensures modules.Valid()
    ensures entries == CompileMembers(container, members, moduleName, od, ctx)
    ensures modules.loaded
         == LoadedAfter(old(modules.loaded), modules.http, LoadsHttpPrefix(container, members, |members|, moduleName))
  {
    entries := Unvisited(members, 0);
    for i := 0 to |members|
      invariant modules.Valid()
      invariant entries == CompilePrefix(container, members, i, moduleName, od, ctx) + Unvisited(members, i)
      invariant modules.loaded
             == LoadedAfter(old(modules.loaded), modules.http, LoadsHttpPrefix(container, members, i, moduleName))
    {
      entries := VisitMember(container, members, i, moduleName, od, ctx, modules, entries);
      LoadsHttpStep(container, members, i, moduleName);
      LoadedAfterTwice(old(modules.loaded), modules.http, LoadsHttpPrefix(container, members, i, moduleName),
                       MemberLoadsHttp(container, members, i, moduleName));
    }
    ParsedAll(container, members, moduleName, od, ctx, entries);
  }

  /** The body of the walk: the `i`-th member, if it may be an operation, is replaced by its node. */
  method VisitMember(container: Value, members: seq<Prop>, i: nat, moduleName: Value, od: Value, ctx: Context,
                     modules: ModuleRegistry, before: seq<Entry>)
    returns (entries: seq<Entry>)
    requires i < |members| && Within(container, members) && CompilableMembers(container, members, moduleName)
    requires modules.Valid() && modules.http == ctx.http
    requires before == CompilePrefix(container, members, i, moduleName, od, ctx) + Unvisited(members, i)
    modifies modules
    decreases container, 1
    ensures modules.Valid()
    ensures entries == CompilePrefix(container, members, i + 1, moduleName, od, ctx) + Unvisited(members, i + 1)
    ensures modules.loaded == LoadedAfter(old(modules.loaded), modules.http, MemberLoadsHttp(container, members, i, moduleName))
  {
    var p := members[i];
    ChildOf(container, members, i, moduleName);
    entries := before;
    if IsPotentialAsyncFn(p.key, p.val) {
      var node := ParseMember(container, p, moduleName, od, ctx, modules);
      entries := entries[i := Entry(p.key, node)];
    }
    ParseStep(container, members, i, moduleName, od, ctx, before, entries);
  }

  /** A member the walk visits is one the compiler may visit. */
  lemma ChildOf(container: Value, members: seq<Prop>, i: nat, moduleName: Value)
    requires i < |members| && Within(container, members) && CompilableMembers(container, members, moduleName)
    ensures IsPotentialAsyncFn(members[i].key, members[i].val) ==>
      members[i] in Members(container) && CompilableChild(container, members[i], moduleName)
  {
  }

  /** One turn of the walk: the `i`-th member is replaced by its compiled node, or kept as it is. */
  lemma ParseStep(container: Value, members: seq<Prop>, i: nat, moduleName: Value, od: Value, ctx: Context,
                  before: seq<Entry>, after: seq<Entry>)
    requires i < |members| && Within(container, members) && CompilableMembers(container, members, moduleName)
    requires before == CompilePrefix(container, members, i, moduleName, od, ctx) + Unvisited(members, i)
    requires IsPotentialAsyncFn(members[i].key, members[i].val) ==>
      members[i] in Members(container) && CompilableChild(container, members[i], moduleName)
    requires IsPotentialAsyncFn(members[i].key, members[i].val) ==>
      after == before[i := Entry(members[i].key, CompileMember(container, members[i], moduleName, od, ctx))]
    requires !IsPotentialAsyncFn(members[i].key, members[i].val) ==> after == before
    ensures after == CompilePrefix(container, members, i + 1, moduleName, od, ctx) + Unvisited(members, i + 1)
  {
    var e := Entry(members[i].key, CompileMember(container, members[i], moduleName, od, ctx));
    CompilePrefixStep(container, members, i, moduleName, od, ctx);
    ReplaceUnvisited(CompilePrefix(container, members, i, moduleName, od, ctx), members, i, e);
    if !IsPotentialAsyncFn(members[i].key, members[i].val) {
      assert before[i] == e;
    }
  }

  /** After the last member, every entry has been visited. */
  lemma ParsedAll(container: Value, members: seq<Prop>, moduleName: Value, od: Value, ctx: Context, entries: seq<Entry>)
    requires Within(container, members) && CompilableMembers(container, members, moduleName)
    requires entries == CompilePrefix(container, members, |members|, moduleName, od, ctx) + Unvisited(members, |members|)
    ensures entries == CompileMembers(container, members, moduleName, od, ctx)
  {
    assert Unvisited(members, |members|) == [];
  }

  /** The members from `from` on, not yet visited: each entry still holds the member's value. */
  function Unvisited(members: seq<Prop>, from: nat): (r: seq<Entry>)
    requires from <= |members|
    decreases |members| - from
  {
    if from == |members| then [] else [Entry(members[from].key, Data(members[from].val))] + Unvisited(members, from + 1)
  }

  lemma ReplaceUnvisited(done: seq<Entry>, members: seq<Prop>, i: nat, e: Entry)
    requires i < |members| && |done| == i
    ensures (done + Unvisited(members, i))[i := e] == (done + [e]) + Unvisited(members, i + 1)
  {
    assert Unvisited(members, i) == [Entry(members[i].key, Data(members[i].val))] + Unvisited(members, i + 1);
  }

  /** One step of the walk: the next member's entry, and what the compiler may assume about it. */
  lemma CompilePrefixStep(container: Value, members: seq<Prop>, i: nat, moduleName: Value, od: Value, ctx: Context)
    requires i < |members| && Within(container, members) && CompilableMembers(container, members, moduleName)
    ensures IsPotentialAsyncFn(members[i].key, members[i].val) ==>
      members[i] in Members(container) && CompilableChild(container, members[i], moduleName)
    ensures CompilePrefix(container, members, i + 1, moduleName, od, ctx)
         == CompilePrefix(container, members, i, moduleName, od, ctx) + [Entry(members[i].key, CompileMember(container, members[i], moduleName, od, ctx))]
  {
  }

  /** One visited child: its `asyncModule` filled in from the parent, then made a function or walked. */
  method ParseMember(container: Value, p: Prop, moduleName: Value, od: Value, ctx: Context, modules: ModuleRegistry)
    returns (node: Node)
    requires IsPotentialAsyncFn(p.key, p.val) && p in Members(container) && CompilableChild(container, p, moduleName)
    requires modules.Valid() && modules.http == ctx.http
    modifies modules
    decreases container, 0
    ensures modules.Valid()
    ensures node == CompileMember(container, p, moduleName, od, ctx)
    ensures modules.loaded == LoadedAfter(old(modules.loaded), modules.http, ChildLoadsHttp(container, p, moduleName))
  {
    var m := InheritedModule(p.val, moduleName);
    if CanParseAsyncFn(p.val, m) {
      ParsedIsObject(p.val, m);
      var fn := CreateAsyncFn(SetProp(p.val, AsyncModuleKey, m), od, ctx, modules);
      node := Operation(fn);
    } else {
      assert container.Obj? || container.Arr?;
      node := ParseGroup(p.val, m, ctx, modules);
    }
  }

  /** A visited child that is not an operation: walked with its own members and `asyncModule` set. */
  method ParseGroup(v: Value, moduleName: Value, ctx: Context, modules: ModuleRegistry) returns (node: Node)
    requires IsPrimitive(moduleName) && CompilableGroup(v, moduleName)
    requires modules.Valid() && modules.http == ctx.http
    modifies modules
    decreases v, 3
    ensures modules.Valid()
    ensures node == CompileGroup(v, moduleName, ctx)
    ensures modules.loaded == LoadedAfter(old(modules.loaded), modules.http, GroupLoadsHttp(v, moduleName))
  {
    GroupWithin(v, moduleName);
    var entries := ParseAsyncReqJSON(v, GroupMembers(v, moduleName), moduleName, Get(v, OperationKey), ctx, modules);
    node := Group(v.Arr?, entries);
  }

  /**
   * `createAsyncFn`, loading the named module when the name is truthy: the map gains `http`
   * exactly when the definition names it and it was not loaded yet.
   */
  method CreateAsyncFn(def: Value, parentOd: Value, ctx: Context, modules: ModuleRegistry) returns (fn: OpFn)
    requires CanParseAsyncFn(def, Get(def, AsyncModuleKey)) && IsPrimitive(Get(def, AsyncModuleKey))
    requires modules.Valid() && modules.http == ctx.http
    modifies modules
    ensures modules.Valid()
    ensures fn == OperationFn(def, parentOd, ctx)
    ensures modules.loaded
         == LoadedAfter(old(modules.loaded), modules.http, Get(def, AsyncModuleKey) == Str(Http.ModuleName))
  {
    var name := Get(def, AsyncModuleKey);
    var loadedModule: Option<Exports> := None;
    if Truthy(name) {
      loadedModule := modules.Load(name);
    }
    if ContainsMockResponse(def) {
      if loadedModule.Some? && loadedModule.value.getMockResponseFn {
        fn := HttpMock(def, ctx.globals);
      } else {
        fn := DefaultMock(def);
      }
    } else if loadedModule.Some? && loadedModule.value.getAsyncFn {
      assert !HasOwn(def, MockResponseNames[0]);
      var od := Get(def, OperationKey);
      fn := Tracked(od, parentOd, ctx.globals);
    } else {
      fn := FailedToGet(FailedToGetPrefix + ModuleNameText(name, loadedModule));
    }
  }

  // ---------------------------------------------------------------------------------------
  // What the compiled tree holds

  /** `node[key]` on a compiled container: the node of its first entry with that key. */
  function EntryLookup(entries: seq<Entry>, key: string): Option<Node>
  {
    if |entries| == 0 then None
    else if entries[0].key == key then Some(entries[0].node)
    else EntryLookup(entries[1..], key)
  }

  lemma {:induction false} EntryLookupFirst(entries: seq<Entry>, i: nat, key: string)
    requires i < |entries| && entries[i].key == key
    requires forall j :: 0 <= j < i ==> entries[j].key != key
    ensures EntryLookup(entries, key) == Some(entries[i].node)
  {
    if i > 0 {
      EntryLookupFirst(entries[1..], i - 1, key);
    }
  }

  /** A key found among properties is found at its first occurrence. */
  lemma {:induction false} LookupIndex(props: seq<Prop>, key: string) returns (i: nat)
    requires Lookup(props, key).Some?
    ensures i < |props| && props[i] == Prop(key, Lookup(props, key).value)
    ensures forall j :: 0 <= j < i ==> props[j].key != key
  {
    if props[0].key == key {
      i := 0;
    } else {
      var k := LookupIndex(props[1..], key);
      i := k + 1;
    }
  }

  /** The `i`-th compiled entry is the `i`-th member, compiled. */
  lemma {:induction false} CompiledAt(container: Value, members: seq<Prop>, n: nat, moduleName: Value, od: Value, ctx: Context, i: nat)
    requires i < n <= |members| && Within(container, members) && CompilableMembers(container, members, moduleName)
    ensures IsPotentialAsyncFn(members[i].key, members[i].val) ==>
      members[i] in Members(container) && CompilableChild(container, members[i], moduleName)
    ensures CompilePrefix(container, members, n, moduleName, od, ctx)[i]
         == Entry(members[i].key, CompileMember(container, members[i], moduleName, od, ctx))
  {
    CompilePrefixStep(container, members, n - 1, moduleName, od, ctx);
    var before := CompilePrefix(container, members, n - 1, moduleName, od, ctx);
    var last := Entry(members[n - 1].key, CompileMember(container, members[n - 1], moduleName, od, ctx));
    SnocAt(before, last, i);
    if i < n - 1 {
      CompiledAt(container, members, n - 1, moduleName, od, ctx, i);
    }
  }

  /** A member that is not visited is found under its key, unchanged. */
  lemma CompiledKept(container: Value, members: seq<Prop>, moduleName: Value, od: Value, ctx: Context, key: string)
    requires Within(container, members) && CompilableMembers(container, members, moduleName)
    requires Lookup(members, key).Some? && !IsPotentialAsyncFn(key, Lookup(members, key).value)
    ensures EntryLookup(CompileMembers(container, members, moduleName, od, ctx), key) == Some(Data(Lookup(members, key).value))
  {
    var i := LookupIndex(members, key);
    var r := CompileMembers(container, members, moduleName, od, ctx);
    forall j | 0 <= j <= i
      ensures r[j].key == members[j].key
    {
      CompiledAt(container, members, |members|, moduleName, od, ctx, j);
    }
    CompiledAt(container, members, |members|, moduleName, od, ctx, i);
    EntryLookupFirst(r, i, key);
  }

  /**
   * A walked child holds, under `asyncModule`, the module it inherited: its own when that
   * is truthy, its parent's otherwise.
   */
  lemma GroupModuleEntry(v: Value, parentModule: Value, ctx: Context)
    requires IsPrimitive(InheritedModule(v, parentModule)) && CompilableGroup(v, InheritedModule(v, parentModule))
    ensures var m := InheritedModule(v, parentModule);
      EntryLookup(CompileGroup(v, m, ctx).entries, AsyncModuleKey) == Some(Data(m))
    ensures Truthy(Get(v, AsyncModuleKey)) ==> InheritedModule(v, parentModule) == Get(v, AsyncModuleKey)
    ensures !Truthy(Get(v, AsyncModuleKey)) ==> InheritedModule(v, parentModule) == parentModule
  {
    var m := InheritedModule(v, parentModule);
    GroupWithin(v, m);
    SetInPropsLookup(Members(v), AsyncModuleKey, m, AsyncModuleKey);
    CompiledKept(v, GroupMembers(v, m), m, Get(v, OperationKey), ctx, AsyncModuleKey);
  }

  /** The compiled root of an object or array holds both control functions, never walked. */
  lemma RootControls(root: Value, ctx: Context)
    requires (root.Obj? || root.Arr?) && CompilableRoot(root)
    ensures EntryLookup(CompileRoot(root, ctx).entries, CloseKey) == Some(Data(CloseControl))
    ensures EntryLookup(CompileRoot(root, ctx).entries, WaitKey) == Some(Data(WaitControl))
  {
    RootWithin(root);
    ControlsSet(Members(root));
    var od := Get(root, OperationKey);
    CompiledKept(root, RootMembers(root), Get(root, AsyncModuleKey), od, ctx, CloseKey);
    CompiledKept(root, RootMembers(root), Get(root, AsyncModuleKey), od, ctx, WaitKey);
  }

  lemma ControlsSet(members: seq<Prop>)
    ensures var all := SetInProps(SetInProps(members, CloseKey, CloseControl), WaitKey, WaitControl);
      Lookup(all, CloseKey) == Some(CloseControl) && Lookup(all, WaitKey) == Some(WaitControl)
  {
    var withClose := SetInProps(members, CloseKey, CloseControl);
    SetInPropsLookup(withClose, WaitKey, WaitControl, WaitKey);
    SetInPropsLookup(withClose, WaitKey, WaitControl, CloseKey);
    SetInPropsLookup(members, CloseKey, CloseControl, CloseKey);
  }

  /**
   * A tracked operation of a walked container is given its own `operationDetails` and, as
   * the parent's, those of that container: one level up, never further.
   */
  lemma TrackedGetsParentOd(container: Value, members: seq<Prop>, moduleName: Value, od: Value, ctx: Context, i: nat)
    requires i < |members| && Within(container, members) && CompilableMembers(container, members, moduleName)
    requires CompileMembers(container, members, moduleName, od, ctx)[i].node.Operation?
    ensures var f := CompileMembers(container, members, moduleName, od, ctx)[i].node.fn;
      f.Tracked? ==> f.od == Get(members[i].val, OperationKey) && f.parentOd == od
  {
    CompiledAt(container, members, |members|, moduleName, od, ctx, i);
    var p := members[i];
    var m := InheritedModule(p.val, moduleName);
    if IsPotentialAsyncFn(p.key, p.val) && CanParseAsyncFn(p.val, m) {
      ParsedIsObject(p.val, m);
    }
  }

  /**
   * Which function an operation node becomes: with the inherited module `"http"` a tracked
   * call (no mock field) or the module's mock (a mock field); otherwise a rejecting function
   * or the builder's fallback mock.
   */
  lemma OperationOfMember(container: Value, p: Prop, moduleName: Value, od: Value, ctx: Context)
    requires IsPotentialAsyncFn(p.key, p.val) && p in Members(container) && CompilableChild(container, p, moduleName)
    ensures var r := CompileMember(container, p, moduleName, od, ctx);
      var m := InheritedModule(p.val, moduleName);
      && (r.Operation? <==> CanParseAsyncFn(p.val, m))
      && (r.Operation? ==>
            && (r.fn.Tracked? <==> !ContainsMockResponse(p.val) && m == Str(Http.ModuleName) && ctx.http.getAsyncFn)
            && (r.fn.HttpMock? <==> ContainsMockResponse(p.val) && m == Str(Http.ModuleName) && ctx.http.getMockResponseFn)
            && (r.fn.FailedToGet? ==> r.fn.message == FailedToGetPrefix + ModuleNameText(m, if m == Str(Http.ModuleName) then Some(ctx.http) else None)))
  {
    var m := InheritedModule(p.val, moduleName);
    if CanParseAsyncFn(p.val, m) {
      ParsedIsObject(p.val, m);
      var def := SetProp(p.val, AsyncModuleKey, m);
      MockFieldsKept(p.val, m);
    }
  }

  /** Setting `asyncModule` neither adds nor removes a mock field. */
  lemma MockFieldsKept(v: Value, m: Value)
    requires v.Obj?
    ensures ContainsMockResponse(SetProp(v, AsyncModuleKey, m)) <==> ContainsMockResponse(v)
  {
    OtherKeyKept(v, AsyncModuleKey, m, MockResponseNames[0]);
    OtherKeyKept(v, AsyncModuleKey, m, MockResponseNames[1]);
    OtherKeyKept(v, AsyncModuleKey, m, MockResponseNames[2]);
  }

  lemma OtherKeyKept(v: Value, key: string, x: Value, k: string)
    requires v.Obj? && k != key
    ensures HasOwn(SetProp(v, key, x), k) <==> HasOwn(v, k)
  {
  }

  // ---------------------------------------------------------------------------------------
  // Pending requests

  /** The ids given out so far, `1..n`. */
  function IdsUpTo(n: nat): set<nat>
  {
    if n == 0 then {} else IdsUpTo(n - 1) + {n}
  }

  lemma {:induction false} IdsIn(n: nat, id: nat)
    ensures id in IdsUpTo(n) <==> 1 <= id <= n
  {
    if n > 0 {
      IdsIn(n - 1, id);
    }
  }

  lemma {:induction false} IdsUpToSize(n: nat)
    ensures |IdsUpTo(n)| == n
  {
    if n > 0 {
      IdsUpToSize(n - 1);
      IdsIn(n - 1, n);
      AddNew(IdsUpTo(n - 1), n);
    }
  }

  /** The pending ids among `1..n`, in ascending order, as `Object.keys` lists integer keys. */
  function AscendingIds(pending: map<nat, Http.Call>, n: nat): (r: seq<nat>)
    ensures forall i :: 0 <= i < |r| ==> 1 <= r[i] <= n && r[i] in pending
    ensures forall i, j :: 0 <= i < j < |r| ==> r[i] < r[j]
    ensures forall id :: 1 <= id <= n && id in pending ==> id in r
  {
    if n == 0 then []
    else AscendingIds(pending, n - 1) + (if n in pending then [n] else [])
  }

  /**
   * The process-wide registry of pending requests: the last id given out, and the calls
   * started and not yet settled, by id. The ids of settled calls are ghost bookkeeping.
   */
  class PendingRegistry {
    var lastId: nat
    var pending: map<nat, Http.Call>
    ghost var settled: set<nat>

    /** Every id given out is either still pending or settled, never both. */
    ghost predicate Valid()
      reads this
    {
      pending.Keys !! settled && pending.Keys + settled == IdsUpTo(lastId)
    }

    constructor ()
      ensures Valid() && lastId == 0 && pending == map[] && settled == {}
    {
      lastId := 0;
      pending := map[];
      settled := {};
    }

    /** A call's promise is stored under a fresh id, greater than every earlier one. */
    method Start(call: Http.Call) returns (id: nat)
      requires Valid()
      modifies this
      ensures Valid()
      ensures id == old(lastId) + 1 && lastId == id
      ensures forall k :: k in old(pending) ==> k < id
      ensures pending == old(pending)[id := call] && settled == old(settled)
    {
      PendingIds(this);
      lastId := lastId + 1;
      id := lastId;
      pending := pending[id := call];
      IdsIn(lastId - 1, id);
      assert IdsUpTo(lastId) == IdsUpTo(lastId - 1) + {id};
    }

    /** A promise settled, either way: exactly its entry is removed. */
    method Settle(id: nat)
      requires Valid() && id in pending
      modifies this
      ensures Valid()
      ensures pending == old(pending) - {id} && settled == old(settled) + {id} && lastId == old(lastId)
    {
      pending := pending - {id};
      settled := settled + {id};
    }

    /** The promises `waitForPendingRequests` waits on: those pending when it is called, in id order. */
    function Waiting(): (calls: seq<Http.Call>)
      reads this
      ensures var ids := AscendingIds(pending, lastId);
        |calls| == |ids| && forall i :: 0 <= i < |ids| ==> calls[i] == pending[ids[i]]
    {
      var ids := AscendingIds(pending, lastId);
      var calls := pending;
      seq(|ids|, i requires 0 <= i < |ids| => calls[ids[i]])
    }
  }

  /** The registry holds exactly the calls started and not yet settled. */
  lemma PendingCount(registry: PendingRegistry)
    requires registry.Valid()
    ensures |registry.pending.Keys| == registry.lastId - |registry.settled|
    ensures forall id :: id in registry.pending ==> 1 <= id <= registry.lastId
  {
    IdsUpToSize(registry.lastId);
    PendingIds(registry);
    assert |registry.pending.Keys + registry.settled| == |registry.pending.Keys| + |registry.settled|;
  }

  lemma PendingIds(registry: PendingRegistry)
    requires registry.Valid()
    ensures forall id :: id in registry.pending ==> 1 <= id <= registry.lastId
  {
    forall id | id in registry.pending
      ensures 1 <= id <= registry.lastId
    {
      IdsIn(registry.lastId, id);
    }
  }

  /** `waitForPendingRequests` waits on every pending call, once each, in the order they started. */
  lemma WaitingCoversPending(registry: PendingRegistry)
    requires registry.Valid()
    ensures var ids := AscendingIds(registry.pending, registry.lastId);
      (forall id :: id in ids <==> id in registry.pending)
  {
    PendingIds(registry);
  }

  /**
   * Calling a compiled operation function. Only the functions made from a module's
   * `getAsyncFn` are tracked, and only once the call has given its promise.
   */
  method CallOperation(f: OpFn, request: Value, registry: PendingRegistry) returns (c: Http.Call, id: Option<nat>)
    requires registry.Valid()
    modifies registry
    ensures registry.Valid()
    ensures c == InvokeOp(f, request)
    ensures id.Some? <==> f.Tracked? && !c.Threw?
    ensures id.Some? ==>
      && id.value == old(registry.lastId) + 1 && registry.lastId == id.value
      && registry.pending == old(registry.pending)[id.value := c]
    ensures id.None? ==> registry.pending == old(registry.pending) && registry.lastId == old(registry.lastId)
  {
    c := InvokeOp(f, request);
    id := None;
    if f.Tracked? && !c.Threw? {
      var started := registry.Start(c);
      id := Some(started);
    }
  }

  /**
   * `closeAsyncModuleConnections`: wait on the pending calls, then close every loaded
   * module that can be closed. The close is both handlers of the wait, so it runs the same
   * way whether the wait resolves or rejects, and nothing here depends on that outcome.
   */
  method CloseAsyncModuleConnections(registry: PendingRegistry, modules: ModuleRegistry)
    returns (waited: seq<Http.Call>, closed: seq<string>)
    ensures waited == registry.Waiting()
    ensures closed == ClosingPaths(modules.loaded)
  {
    waited := registry.Waiting();
    closed := modules.CloseConnections();
  }

  // ---------------------------------------------------------------------------------------
  // Building

  /** The globals of a build: `config.prefixes` and `config.params`; reading them from `null` throws. */
  function BuildGlobals(config: Value): (r: Result<Http.Globals>)
    ensures r.Err? <==> config.Null?
    ensures r.Ok? ==> r.value == Http.Globals(Get(config, "prefixes"), Get(config, "params"))
  {
    if config.Null? then Err(TypeError) else Ok(Http.Globals(Get(config, "prefixes"), Get(config, "params")))
  }

  lemma JsonCopied(v: Value)
    ensures IsJson(v) ==> Clone(v) == Some(v)
  {
    if IsJson(v) {
      CloneJson(v);
    }
  }

  /** `JSON.parse(JSON.stringify(requestJSON)) || {}`. */
  function ParsedRoot(requestJSON: Value): (r: Result<Value>)
    ensures r.Err? <==> Clone(requestJSON).None?
    ensures IsJson(requestJSON) ==> r == Ok(Or(requestJSON, EmptyObject))
  {
    JsonCopied(requestJSON);
    match Clone(requestJSON)
    case None => Err(SyntaxError)
    case Some(copy) => Ok(Or(copy, EmptyObject))
  }

  /** The definitions the builder can compile once copied. */
  ghost predicate Buildable(requestJSON: Value)
  {
    ParsedRoot(requestJSON).Ok? ==> CompilableRoot(ParsedRoot(requestJSON).value)
  }

  /** `createAsyncRequestBuilder(requestJSON, config)` with the given `http` module. */
  function Build(requestJSON: Value, config: Value, http: Exports): (r: Result<Node>)
    requires Buildable(requestJSON)
    ensures config.Null? ==> r == Err(TypeError)
    ensures !config.Null? && Clone(requestJSON).None? ==> r == Err(SyntaxError)
    ensures !config.Null? && IsJson(requestJSON) ==>
      r == Ok(CompileRoot(Or(requestJSON, EmptyObject), Context(http, BuildGlobals(config).value)))
  {
    match BuildGlobals(config)
    case Err(e) => Err(e)
    case Ok(globals) =>
      match ParsedRoot(requestJSON)
      case Err(e) => Err(e)
      case Ok(root) => Ok(CompileRoot(root, Context(http, globals)))
  }

  /** The builder, as it runs: a fresh module map per build, the controls added, the root walked. */
  method CreateAsyncRequestBuilder(requestJSON: Value, config: Value, http: Exports)
    returns (r: Result<Node>, modules: ModuleRegistry)
    requires Buildable(requestJSON)
    ensures fresh(modules) && modules.Valid() && modules.http == http
    ensures r == Build(requestJSON, config, http)
    ensures r.Ok? ==> modules.loaded == if RootLoadsHttp(ParsedRoot(requestJSON).value) then [(HttpPath, http)] else []
    ensures r.Err? ==> modules.loaded == []
    ensures ClosingPaths(modules.loaded)
         == if r.Ok? && RootLoadsHttp(ParsedRoot(requestJSON).value) && http.closeConnections then [HttpPath] else []
  {
    modules := new ModuleRegistry(http);
    var globals := BuildGlobals(config);
    if globals.Err? {
      return Err(globals.error), modules;
    }
    var parsed := ParsedRoot(requestJSON);
    if parsed.Err? {
      return Err(parsed.error), modules;
    }
    var node := ParseRoot(parsed.value, Context(http, globals.value), modules);
    r := Ok(node);
    ClosingOnlyHttp(modules);
  }

  /** The root walked with the controls in place, or a primitive root returned as it is. */
  method ParseRoot(root: Value, ctx: Context, modules: ModuleRegistry) returns (node: Node)
    requires CompilableRoot(root)
    requires modules.Valid() && modules.http == ctx.http
    modifies modules
    ensures modules.Valid()
    ensures node == CompileRoot(root, ctx)
    ensures modules.loaded == LoadedAfter(old(modules.loaded), modules.http, RootLoadsHttp(root))
  {
    if root.Obj? || root.Arr? {
      RootWithin(root);
      var entries := ParseAsyncReqJSON(root, RootMembers(root), Get(root, AsyncModuleKey), Get(root, OperationKey), ctx, modules);
      node := Group(root.Arr?, entries);
    } else {
      node := Data(root);
    }
  }
}
