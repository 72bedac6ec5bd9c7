/**
 * The `aggregator` module: one async function that looks up several operations of the
 * compiled tree by dotted ids, calls them all with the same request, and merges the
 * plain objects they resolve with into one, later results overriding earlier ones.
 */
module Aggregator {
  import opened Wrappers
  import opened JsString
  import opened Js
  import Http
  import opened Builder

  const ModuleName: string := "aggregator"
  const OperationIdsKey: string := "operationIds"
  const UnableToMerge: string := "Unable to merge aggregate responses"

  // ---------------------------------------------------------------------------------------
  // Finding the operations

  /**
   * One step of the `reduce` over an id's segments: through an own property of what was
   * reached so far, if that is truthy; `undefined` otherwise. A compiled container's own
   * properties are its entries; a compiled function is given none.
   */
  function Step(n: Node, segment: string): Node
  {
    match n
    case Group(_, entries) =>
      (match EntryLookup(entries, segment) case Some(child) => child case None => Data(Undefined))
    case Operation(_) => Data(Undefined)
    case Data(v) => if Truthy(v) && HasOwn(v, segment) then Data(Get(v, segment)) else Data(Undefined)
  }

  /** The `reduce` itself: the segments taken one after the other from the resource factory. */
  function Walk(n: Node, path: seq<string>): Node
    decreases |path|
  {
    if |path| == 0 then n else Walk(Step(n, path[0]), path[1..])
  }

  /** Walking a path in two parts is walking the first part, then the second from where it ended. */
  lemma {:induction false} WalkConcat(n: Node, a: seq<string>, b: seq<string>)
    decreases |a|
    ensures Walk(n, a + b) == Walk(Walk(n, a), b)
  {
    if |a| == 0 {
      assert a + b == b;
    } else {
      assert (a + b)[0] == a[0] && (a + b)[1..] == a[1..] + b;
      WalkConcat(Step(n, a[0]), a[1..], b);
    }
  }

  /** Once a step finds nothing, the id resolves to `undefined`, however many segments follow. */
  lemma {:induction false} WalkMissing(path: seq<string>)
    decreases |path|
    ensures Walk(Data(Undefined), path) == Data(Undefined)
  {
    if |path| > 0 {
      WalkMissing(path[1..]);
    }
  }

  /** The node a dotted operation id names: the id split on `.`, walked from the resource factory. */
  function FindMethod(root: Node, operationId: string): Node
  {
    Walk(root, Split(operationId, '.'))
  }

  /** An id made by joining dot-free keys with `.` finds the node at the end of those keys. */
  lemma FindByPath(root: Node, path: seq<string>)
    requires |path| >= 1 && forall i :: 0 <= i < |path| ==> '.' !in path[i]
    ensures FindMethod(root, Join(path, ".")) == Walk(root, path)
  {
    SplitJoin(path, '.');
  }

  /** `operationIds.map(...)`: every id must be a string, and the nodes come in the ids' order. */
  function FindAll(ids: seq<Value>, root: Node): (r: Result<seq<Node>>)
    ensures r.Ok? <==> forall i :: 0 <= i < |ids| ==> ids[i].Str?
    ensures r.Err? ==> r.error == TypeError
    ensures r.Ok? ==> |r.value| == |ids| && forall i :: 0 <= i < |ids| ==> r.value[i] == FindMethod(root, ids[i].s)
  {
    if |ids| == 0 then Ok([])
    else if !ids[0].Str? then Err(TypeError)
    else
      match FindAll(ids[1..], root)
      case Err(e) => Err(e)
      case Ok(rest) => Ok([FindMethod(root, ids[0].s)] + rest)
  }

  /**
   * `getASyncMethods`: reading `operationIds` of missing details, mapping over something
   * other than an array, or splitting something other than a string throws a `TypeError`.
   */
  function FindMethods(od: Value, root: Node): (r: Result<seq<Node>>)
    ensures IsNullish(od) ==> r == Err(TypeError)
    ensures !IsNullish(od) && !Get(od, OperationIdsKey).Arr? ==> r == Err(TypeError)
    ensures !IsNullish(od) && Get(od, OperationIdsKey).Arr? ==> r == FindAll(Get(od, OperationIdsKey).items, root)
  {
    if IsNullish(od) then Err(TypeError)
    else
      var ids := Get(od, OperationIdsKey);
      if !ids.Arr? then Err(TypeError) else FindAll(ids.items, root)
  }

  // ---------------------------------------------------------------------------------------
  // Calling them

  /**
   * `asyncFn(requestObject)` for one found node: a compiled function is called; the root's
   * two control functions answer as `controls` says; anything else is not a function.
   */
  function CallTarget(n: Node, request: Value, controls: string -> Http.Call): Http.Call
  {
    match n
    case Operation(f) => InvokeOp(f, request)
    case Data(v) => if v.Func? then controls(v.source) else Http.Threw(TypeError)
    case Group(_, _) => Http.Threw(TypeError)
  }

  /** The calls `asyncMethods.map` makes: each node in order, with the same request, until one throws. */
  function CallsMade(targets: seq<Node>, request: Value, controls: string -> Http.Call): (calls: seq<Http.Call>)
    ensures |calls| <= |targets|
  {
    if |targets| == 0 then []
    else
      var c := CallTarget(targets[0], request, controls);
      if c.Threw? then [c] else [c] + CallsMade(targets[1..], request, controls)
  }

  /** Every target is called in order until the first call that throws, which is the last one made. */
  lemma {:induction false} CallsMadeShape(targets: seq<Node>, request: Value, controls: string -> Http.Call)
    ensures var calls := CallsMade(targets, request, controls);
      && (forall i :: 0 <= i < |calls| ==> calls[i] == CallTarget(targets[i], request, controls))
      && (forall i :: 0 <= i < |calls| - 1 ==> !calls[i].Threw?)
      && (|calls| < |targets| ==> |calls| > 0 && calls[|calls| - 1].Threw?)
  {
    if |targets| > 0 {
      var c := CallTarget(targets[0], request, controls);
      if !c.Threw? {
        var rest := CallsMade(targets[1..], request, controls);
        CallsMadeShape(targets[1..], request, controls);
        assert forall i :: 0 < i <= |rest| ==> ([c] + rest)[i] == rest[i - 1] && targets[i] == targets[1..][i - 1];
      }
    }
  }

  lemma CallsMadeFrom(targets: seq<Node>, i: nat, request: Value, controls: string -> Http.Call)
    requires i < |targets|
    ensures var c := CallTarget(targets[i], request, controls);
      CallsMade(targets[i..], request, controls)
        == [c] + (if c.Threw? then [] else CallsMade(targets[i + 1..], request, controls))
  {
    assert targets[i..][0] == targets[i] && targets[i..][1..] == targets[i + 1..];
  }

  /** A call the builder tracks: a tracked compiled function that did not throw. */
  predicate Registers(n: Node, c: Http.Call)
  {
    n.Operation? && n.fn.Tracked? && !c.Threw?
  }

  /** The calls that were registered as pending, in the order they were made. */
  function TrackedOf(targets: seq<Node>, calls: seq<Http.Call>): seq<Http.Call>
    requires |calls| <= |targets|
  {
    if |calls| == 0 then []
    else
      var n := |calls| - 1;
      TrackedOf(targets, calls[..n]) + (if Registers(targets[n], calls[n]) then [calls[n]] else [])
  }

  /** The pending map after `tracked` were registered, one fresh id each, counting up from `last`. */
  function Registered(pending: map<nat, Http.Call>, last: nat, tracked: seq<Http.Call>): map<nat, Http.Call>
  {
    if |tracked| == 0 then pending
    else
      var n := |tracked| - 1;
      Registered(pending, last, tracked[..n])[last + |tracked| := tracked[n]]
  }

  /** The registrations never touch an id given out before. */
  lemma {:induction false} RegisteredKeeps(pending: map<nat, Http.Call>, last: nat, tracked: seq<Http.Call>, id: nat)
    requires id in pending && id <= last
    ensures id in Registered(pending, last, tracked) && Registered(pending, last, tracked)[id] == pending[id]
  {
    if |tracked| > 0 {
      RegisteredKeeps(pending, last, tracked[..|tracked| - 1], id);
    }
  }

  /** The `j`-th registered call is found under the `j`-th fresh id. */
  lemma {:induction false} RegisteredAt(pending: map<nat, Http.Call>, last: nat, tracked: seq<Http.Call>, j: nat)
    requires j < |tracked|
    ensures last + j + 1 in Registered(pending, last, tracked)
    ensures Registered(pending, last, tracked)[last + j + 1] == tracked[j]
  {
    var n := |tracked| - 1;
    if j < n {
      RegisteredAt(pending, last, tracked[..n], j);
    }
  }

  /**
   * The map over the found nodes, as it runs: each call is made with the same request,
   * the first that throws ends the map, and every tracked call is registered in turn.
   */
  method CallAll(targets: seq<Node>, request: Value, controls: string -> Http.Call, registry: PendingRegistry)
    returns (calls: seq<Http.Call>)
    requires registry.Valid()
    modifies registry
    ensures registry.Valid()
    ensures calls == CallsMade(targets, request, controls)
    ensures registry.lastId == old(registry.lastId) + |TrackedOf(targets, calls)|
    ensures registry.pending == Registered(old(registry.pending), old(registry.lastId), TrackedOf(targets, calls))
  {
    calls := [];
    var i := 0;
    while i < |targets|
      invariant i == |calls| <= |targets|
      invariant registry.Valid()
      invariant calls + CallsMade(targets[i..], request, controls) == CallsMade(targets, request, controls)
      invariant registry.lastId == old(registry.lastId) + |TrackedOf(targets, calls)|
      invariant registry.pending == Registered(old(registry.pending), old(registry.lastId), TrackedOf(targets, calls))
    {
      ghost var lastBefore, pendingBefore := registry.lastId, registry.pending;
      var c := CallOne(targets[i], request, controls, registry);
      CallsStep(targets, i, request, controls, calls, c);
      RegistryStep(old(registry.pending), old(registry.lastId), targets, calls, c,
                   lastBefore, pendingBefore, registry.lastId, registry.pending);
      calls := calls + [c];
      if c.Threw? {
        return;
      }
      i := i + 1;
    }
    assert targets[i..] == [];
  }

  /** One turn of the map: the call made joins the calls before it. */
  lemma CallsStep(targets: seq<Node>, i: nat, request: Value, controls: string -> Http.Call,
                  calls: seq<Http.Call>, c: Http.Call)
    requires i < |targets|
    requires calls + CallsMade(targets[i..], request, controls) == CallsMade(targets, request, controls)
    requires c == CallTarget(targets[i], request, controls)
    ensures c.Threw? ==> calls + [c] == CallsMade(targets, request, controls)
    ensures !c.Threw? ==> (calls + [c]) + CallsMade(targets[i + 1..], request, controls) == CallsMade(targets, request, controls)
  {
    CallsMadeFrom(targets, i, request, controls);
    if !c.Threw? {
      ConcatAssoc(calls, [c], CallsMade(targets[i + 1..], request, controls));
    } else {
      assert [c] + [] == [c];
    }
  }

  /** One turn of the map, for the registry: a tracked call takes the next id, nothing else changes it. */
  lemma RegistryStep(pending0: map<nat, Http.Call>, last0: nat, targets: seq<Node>, calls: seq<Http.Call>, c: Http.Call,
                     lastBefore: nat, pendingBefore: map<nat, Http.Call>, lastAfter: nat, pendingAfter: map<nat, Http.Call>)
    requires |calls| < |targets|
    requires lastBefore == last0 + |TrackedOf(targets, calls)|
    requires pendingBefore == Registered(pending0, last0, TrackedOf(targets, calls))
    requires Registers(targets[|calls|], c) ==> lastAfter == lastBefore + 1 && pendingAfter == pendingBefore[lastAfter := c]
    requires !Registers(targets[|calls|], c) ==> lastAfter == lastBefore && pendingAfter == pendingBefore
    ensures lastAfter == last0 + |TrackedOf(targets, calls + [c])|
    ensures pendingAfter == Registered(pending0, last0, TrackedOf(targets, calls + [c]))
  {
    var tracked := TrackedOf(targets, calls);
    TrackedStep(targets, calls, c);
    if Registers(targets[|calls|], c) {
      RegisteredStep(pending0, last0, tracked, c);
    } else {
      assert tracked + [] == tracked;
    }
  }

  /** One call of the map: a compiled function is called (and tracked, if it is tracked). */
  method CallOne(n: Node, request: Value, controls: string -> Http.Call, registry: PendingRegistry) returns (c: Http.Call)
    requires registry.Valid()
    modifies registry
    ensures registry.Valid()
    ensures c == CallTarget(n, request, controls)
    ensures Registers(n, c) ==>
      registry.lastId == old(registry.lastId) + 1 && registry.pending == old(registry.pending)[registry.lastId := c]
    ensures !Registers(n, c) ==> registry.lastId == old(registry.lastId) && registry.pending == old(registry.pending)
  {
    if n.Operation? {
      var id;
      c, id := CallOperation(n.fn, request, registry);
    } else if n.Data? && n.value.Func? {
      c := controls(n.value.source);
    } else {
      c := Http.Threw(TypeError);
    }
  }

  lemma RegisteredStep(pending: map<nat, Http.Call>, last: nat, tracked: seq<Http.Call>, c: Http.Call)
    ensures Registered(pending, last, tracked + [c]) == Registered(pending, last, tracked)[last + |tracked| + 1 := c]
  {
    DropLast(tracked, c);
  }

  lemma TrackedStep(targets: seq<Node>, calls: seq<Http.Call>, c: Http.Call)
    requires |calls| < |targets|
    ensures TrackedOf(targets, calls + [c])
         == TrackedOf(targets, calls) + (if Registers(targets[|calls|], c) then [c] else [])
  {
    DropLast(calls, c);
  }

  // ---------------------------------------------------------------------------------------
  // Merging what they answer

  /** What the handler gives: a throw, the merged object, a rejection, or requests still at the network. */
  datatype Aggregated =
    | Thrown(error: string)
    | Merged(value: Value)
    | Refused(reason: Value)
    | AwaitingNetwork(requests: seq<Http.FinalRequest>)

  /** `Object.assign({}, ...results)`: the results copied onto a fresh object, left to right. */
  function MergeAll(results: seq<Value>): (r: Value)
    ensures r.Obj?
  {
    if |results| == 0 then EmptyObject
    else
      var n := |results| - 1;
      AssignGet(MergeAll(results[..n]), results[n], "");
      Assign(MergeAll(results[..n]), results[n])
  }

  /** The last result that has `key` as an own property. */
  function LastOwner(results: seq<Value>, key: string): (r: Option<nat>)
    ensures r.Some? ==> r.value < |results|
  {
    LastWhere(results, v => HasOwn(v, key))
  }

  /** A merged key holds the value of the last result that has it; a key no result has is absent. */
  lemma {:induction false} MergeAllGet(results: seq<Value>, key: string)
    ensures HasOwn(MergeAll(results), key) <==> LastOwner(results, key).Some?
    ensures Get(MergeAll(results), key)
         == match LastOwner(results, key) case Some(i) => Get(results[i], key) case None => Undefined
  {
    if |results| > 0 {
      var n := |results| - 1;
      MergeAllGet(results[..n], key);
      AssignGet(MergeAll(results[..n]), results[n], key);
    }
  }

  /** The handler's `then`: merge when some result is a plain object, reject otherwise. */
  function Merge(results: seq<Value>): Aggregated
  {
    if exists i :: 0 <= i < |results| && IsPlainObject(results[i]) then Merged(MergeAll(results))
    else Refused(Str(UnableToMerge))
  }

  /** The handler rejects exactly when no result is a plain object, and then with the fixed message. */
  lemma MergeRefuses(results: seq<Value>)
    ensures Merge(results).Refused? <==> forall i :: 0 <= i < |results| ==> !IsPlainObject(results[i])
    ensures Merge(results).Refused? ==> Merge(results).reason == Str(UnableToMerge)
    ensures Merge(results).Merged? || Merge(results).Refused?
  {
  }

  /** Merging keeps every key of every result, and a key several results have takes the last one's value. */
  lemma LaterResultsWin(results: seq<Value>, key: string, i: nat)
    requires i < |results| && HasOwn(results[i], key) && IsPlainObject(results[i])
    requires forall j :: i < j < |results| ==> !HasOwn(results[j], key)
    ensures Merge(results).Merged?
    ensures HasOwn(Merge(results).value, key) && Get(Merge(results).value, key) == Get(results[i], key)
  {
    LastWhereAt(results, v => HasOwn(v, key), i);
    MergeAllGet(results, key);
  }

  /** The reason of the first call, in order, that has already rejected. */
  function FirstRejection(calls: seq<Http.Call>): (r: Option<Value>)
    ensures r.None? <==> forall i :: 0 <= i < |calls| ==> !calls[i].Rejected?
    ensures r.Some? ==>
      exists i :: 0 <= i < |calls| && calls[i] == Http.Rejected(r.value) && (forall j :: 0 <= j < i ==> !calls[j].Rejected?)
  {
    if |calls| == 0 then None
    else if calls[0].Rejected? then Some(calls[0].reason)
    else
      var r := FirstRejection(calls[1..]);
      assert forall i :: 0 < i < |calls| ==> calls[i] == calls[1..][i - 1];
      r
  }

  /** The error of the first call, in order, that threw. */
  function FirstThrow(calls: seq<Http.Call>): (r: Option<string>)
    ensures r.None? <==> forall i :: 0 <= i < |calls| ==> !calls[i].Threw?
    ensures r.Some? ==>
      exists i :: 0 <= i < |calls| && calls[i] == Http.Threw(r.value) && (forall j :: 0 <= j < i ==> !calls[j].Threw?)
  {
    if |calls| == 0 then None
    else if calls[0].Threw? then Some(calls[0].error)
    else
      var r := FirstThrow(calls[1..]);
      assert forall i :: 0 < i < |calls| ==> calls[i] == calls[1..][i - 1];
      r
  }

  /** The requests of the calls still waiting for the network, in order. */
  function Fetches(calls: seq<Http.Call>): (r: seq<Http.FinalRequest>)
    ensures |r| == 0 <==> forall i :: 0 <= i < |calls| ==> !calls[i].Fetch?
  {
    if |calls| == 0 then []
    else (if calls[0].Fetch? then [calls[0].request] else []) + Fetches(calls[1..])
  }

  /**
   * `Promise.all(promises).then(merge)` over the calls made: a throw ends the handler
   * before any promise; otherwise the first call already rejected decides; otherwise the
   * merge waits for the network, or runs at once when every call has resolved.
   */
  function Settle(calls: seq<Http.Call>): Aggregated
  {
    match FirstThrow(calls)
    case Some(error) => Thrown(error)
    case None =>
      match FirstRejection(calls)
      case Some(reason) => Refused(reason)
      case None =>
        if |Fetches(calls)| > 0 then AwaitingNetwork(Fetches(calls))
        else Merge(seq(|calls|, i requires 0 <= i < |calls| => calls[i].value))
  }

  /** When every call has resolved, the handler's answer is the merge of their values, in call order. */
  lemma AllResolvedMerge(calls: seq<Http.Call>, values: seq<Value>)
    requires |calls| == |values| && forall i :: 0 <= i < |calls| ==> calls[i] == Http.Resolved(values[i])
    ensures Settle(calls) == Merge(values)
  {
    assert seq(|calls|, i requires 0 <= i < |calls| => calls[i].value) == values;
  }

  /** The first call that throws makes the handler throw its error, whatever the other calls did. */
  lemma ThrowWins(calls: seq<Http.Call>, i: nat)
    requires i < |calls| && calls[i].Threw? && forall j :: 0 <= j < i ==> !calls[j].Threw?
    ensures Settle(calls) == Thrown(calls[i].error)
  {
    var k :| 0 <= k < |calls| && calls[k] == Http.Threw(FirstThrow(calls).value)
      && (forall j :: 0 <= j < k ==> !calls[j].Threw?);
    assert k == i;
  }

  // ---------------------------------------------------------------------------------------
  // The handler

  /**
   * `aggregatorAsyncRequestHandler` with the closure variable it keeps: the found nodes,
   * looked up on the first call that gets that far and reused by every later call.
   */
  class AggregatorFn {
    const od: Value
    var asyncMethods: Option<seq<Node>>

    /** `getAsyncFn` only builds the handler; nothing is looked up yet. */
    constructor (od: Value)
      ensures this.od == od && asyncMethods == None
    {
      this.od := od;
      asyncMethods := None;
    }

    /**
     * One call of the handler with the resource factory as it is at that moment: the lookup
     * runs only while nothing is cached, and a lookup that throws caches nothing.
     */
    method Handle(request: Value, resourceFactory: Node, controls: string -> Http.Call, registry: PendingRegistry)
      returns (r: Aggregated)
      requires registry.Valid()
      modifies this, registry
      ensures registry.Valid()
      ensures old(asyncMethods).Some? ==> asyncMethods == old(asyncMethods)
      ensures old(asyncMethods).None? && FindMethods(od, resourceFactory).Ok? ==>
        asyncMethods == Some(FindMethods(od, resourceFactory).value)
      ensures old(asyncMethods).None? && FindMethods(od, resourceFactory).Err? ==>
        asyncMethods == None && r == Thrown(FindMethods(od, resourceFactory).error)
      ensures asyncMethods.None? ==> registry.pending == old(registry.pending) && registry.lastId == old(registry.lastId)
      ensures asyncMethods.Some? ==>
        var calls := CallsMade(asyncMethods.value, request, controls);
        && r == Settle(calls)
        && registry.lastId == old(registry.lastId) + |TrackedOf(asyncMethods.value, calls)|
        && registry.pending == Registered(old(registry.pending), old(registry.lastId), TrackedOf(asyncMethods.value, calls))
    {
      if asyncMethods.None? {
        var found := FindMethods(od, resourceFactory);
        if found.Err? {
          return Thrown(found.error);
        }
        asyncMethods := Some(found.value);
      }
      var calls := CallAll(asyncMethods.value, request, controls, registry);
      r := Settle(calls);
    }
  }
}
