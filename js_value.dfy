/**
 * JavaScript values as the modelled code sees them: the JSON values of a definition
 * document, `undefined`, and host functions (known only by their source text).
 * Objects keep their own enumerable properties in `Object.keys` order.
 */
module Js {
  import opened Wrappers
  import opened JsString

  datatype Value =
    | Undefined
    | Null
    | Bool(b: bool)
    | Num(n: int)
    | Str(s: string)
    | Arr(items: seq<Value>)
    | Obj(props: seq<Prop>)
    | Func(source: string)

  datatype Prop = Prop(key: string, val: Value)

  const EmptyObject: Value := Obj([])

  /** The messages of the two exceptions the modelled code can throw. */
  const TypeError: string := "TypeError"
  const SyntaxError: string := "SyntaxError"

  /** JavaScript truthiness. */
  predicate Truthy(v: Value)
  {
    match v
    case Undefined => false
    case Null => false
    case Bool(b) => b
    case Num(n) => n != 0
    case Str(s) => s != ""
    case _ => true
  }

  /** `a || b`. */
  function Or(a: Value, b: Value): Value
  {
    if Truthy(a) then a else b
  }

  /** `a && b`. */
  function And(a: Value, b: Value): Value
  {
    if Truthy(a) then b else a
  }

  predicate IsNullish(v: Value)
  {
    v.Undefined? || v.Null?
  }

  /** `typeof v === "object"`, which holds for `null` and arrays too. */
  predicate TypeofObject(v: Value)
  {
    v.Null? || v.Arr? || v.Obj?
  }

  /** `Object.prototype.toString.call(v) === "[object Object]"`. */
  predicate IsPlainObject(v: Value)
  {
    v.Obj?
  }

  function IndexKeys(n: nat): (r: seq<string>)
    ensures |r| == n
    ensures forall i :: 0 <= i < n ==> r[i] == NatToString(i)
  {
    seq(n, i requires 0 <= i < n => NatToString(i))
  }

  /** The position `i < n` whose decimal text is `key`, if any. */
  function IndexOfKey(key: string, n: nat, from: nat): (r: Option<nat>)
    decreases n - from
    ensures r.Some? ==> from <= r.value < n && NatToString(r.value) == key
    ensures r.None? ==> forall i :: from <= i < n ==> NatToString(i) != key
  {
    if from >= n then None
    else if NatToString(from) == key then Some(from)
    else IndexOfKey(key, n, from + 1)
  }

  function PropKeys(props: seq<Prop>): (r: seq<string>)
    ensures |r| == |props|
    ensures forall i :: 0 <= i < |props| ==> r[i] == props[i].key
  {
    seq(|props|, i requires 0 <= i < |props| => props[i].key)
  }

  /** `Object.keys(v)` for a value that is not `null` or `undefined`. */
  function Keys(v: Value): seq<string>
  {
    match v
    case Obj(props) => PropKeys(props)
    case Arr(items) => IndexKeys(|items|)
    case Str(s) => IndexKeys(|s|)
    case _ => []
  }

  /** `v.hasOwnProperty(key)` for the enumerable own properties. */
  predicate HasOwn(v: Value, key: string)
  {
    key in Keys(v)
  }

  /** The value of the first property named `key`. */
  function Lookup(props: seq<Prop>, key: string): (r: Option<Value>)
    ensures r.Some? <==> key in PropKeys(props)
  {
    if |props| == 0 then None
    else if props[0].key == key then Some(props[0].val)
    else Lookup(props[1..], key)
  }

  /** `v[key]` for a value that is not `null` or `undefined`; a missing property is `undefined`. */
  function Get(v: Value, key: string): (r: Value)
    ensures !HasOwn(v, key) ==> r == Undefined
  {
    match v
    case Obj(props) => (match Lookup(props, key) case Some(x) => x case None => Undefined)
    case Arr(items) =>
      (match IndexOfKey(key, |items|, 0) case Some(i) => items[i] case None => Undefined)
    case Str(s) =>
      (match IndexOfKey(key, |s|, 0) case Some(i) => Str([s[i]]) case None => Undefined)
    case _ => Undefined
  }

  function SetInProps(props: seq<Prop>, key: string, x: Value): seq<Prop>
  {
    if |props| == 0 then [Prop(key, x)]
    else if props[0].key == key then [Prop(key, x)] + props[1..]
    else [props[0]] + SetInProps(props[1..], key, x)
  }

  lemma PropKeysCons(props: seq<Prop>)
    requires |props| > 0
    ensures PropKeys(props) == [props[0].key] + PropKeys(props[1..])
  {
  }

  lemma LookupCons(p: Prop, ps: seq<Prop>, k: string)
    ensures Lookup([p] + ps, k) == if p.key == k then Some(p.val) else Lookup(ps, k)
  {
    assert ([p] + ps)[1..] == ps;
  }

  /** The value found for a key is the one of its first property. */
  lemma {:induction false} LookupFirst(props: seq<Prop>, i: nat, key: string)
    requires i < |props| && props[i].key == key
    requires forall j :: 0 <= j < i ==> props[j].key != key
    ensures Lookup(props, key) == Some(props[i].val)
  {
    if i > 0 {
      LookupFirst(props[1..], i - 1, key);
    }
  }

  /** Reading a key of an object gives the value of its first property with that key. */
  lemma GetFirst(props: seq<Prop>, i: nat, key: string)
    requires i < |props| && props[i].key == key
    requires forall j :: 0 <= j < i ==> props[j].key != key
    ensures Get(Obj(props), key) == props[i].val
  {
    LookupFirst(props, i, key);
  }

  lemma {:induction false} SetInPropsKeys(props: seq<Prop>, key: string, x: Value)
    ensures PropKeys(SetInProps(props, key, x))
         == if key in PropKeys(props) then PropKeys(props) else PropKeys(props) + [key]
  {
    if |props| > 0 {
      PropKeysCons(props);
      var r := SetInProps(props, key, x);
      if props[0].key == key {
        assert r[1..] == props[1..];
        PropKeysCons(r);
      } else {
        SetInPropsKeys(props[1..], key, x);
        assert r[1..] == SetInProps(props[1..], key, x);
        PropKeysCons(r);
      }
    }
  }

  lemma {:induction false} SetInPropsLookup(props: seq<Prop>, key: string, x: Value, k: string)
    ensures Lookup(SetInProps(props, key, x), k) == if k == key then Some(x) else Lookup(props, k)
  {
    if |props| == 0 {
      LookupCons(Prop(key, x), [], k);
    } else {
      assert props == [props[0]] + props[1..];
      LookupCons(props[0], props[1..], k);
      if props[0].key == key {
        LookupCons(Prop(key, x), props[1..], k);
      } else {
        SetInPropsLookup(props[1..], key, x, k);
        LookupCons(props[0], SetInProps(props[1..], key, x), k);
      }
    }
  }

  /**
   * `v[key] = x`: an existing property keeps its place, a new one goes last. An assignment
   * to a property of a primitive has no effect (sloppy mode).
   */
  function SetProp(v: Value, key: string, x: Value): (r: Value)
    ensures v.Obj? ==> r.Obj? && Get(r, key) == x
    ensures v.Obj? ==> forall k :: k != key ==> Get(r, k) == Get(v, k)
    ensures v.Obj? ==> Keys(r) == if HasOwn(v, key) then Keys(v) else Keys(v) + [key]
    ensures !v.Obj? ==> r == v
  {
    if v.Obj? then
      SetInPropsKeys(v.props, key, x);
      forall k ensures Lookup(SetInProps(v.props, key, x), k) == if k == key then Some(x) else Lookup(v.props, k) {
        SetInPropsLookup(v.props, key, x, k);
      }
      Obj(SetInProps(v.props, key, x))
    else v
  }

  /** After an assignment to an object, its own properties are the old ones and the assigned key. */
  lemma SetPropOwn(v: Value, key: string, x: Value)
    requires v.Obj?
    ensures forall k :: HasOwn(SetProp(v, key, x), k) <==> HasOwn(v, k) || k == key
  {
  }

  /** Copies the properties `keys` of `src` onto `target`, in order. */
  function AssignKeys(target: Value, src: Value, keys: seq<string>): Value
    decreases |keys|
  {
    if |keys| == 0 then target
    else AssignKeys(SetProp(target, keys[0], Get(src, keys[0])), src, keys[1..])
  }

  /** `Object.assign(target, src)`: `null` and `undefined` sources are skipped. */
  function Assign(target: Value, src: Value): Value
  {
    if IsNullish(src) then target else AssignKeys(target, src, Keys(src))
  }

  /** After copying keys onto an object, a copied key holds the source's value, any other key is untouched. */
  lemma {:induction false} AssignKeysGet(target: Value, src: Value, keys: seq<string>, k: string)
    requires target.Obj?
    decreases |keys|
    ensures AssignKeys(target, src, keys).Obj?
    ensures Get(AssignKeys(target, src, keys), k) == if k in keys then Get(src, k) else Get(target, k)
    ensures HasOwn(AssignKeys(target, src, keys), k) <==> HasOwn(target, k) || k in keys
  {
    if |keys| > 0 {
      var t' := SetProp(target, keys[0], Get(src, keys[0]));
      AssignKeysGet(t', src, keys[1..], k);
      assert k in keys <==> k == keys[0] || k in keys[1..];
    }
  }

  /** `Object.assign` onto an object: the source's own properties win, the others are kept. */
  lemma AssignGet(target: Value, src: Value, k: string)
    requires target.Obj?
    ensures Assign(target, src).Obj?
    ensures Get(Assign(target, src), k) == if HasOwn(src, k) then Get(src, k) else Get(target, k)
    ensures HasOwn(Assign(target, src), k) <==> HasOwn(target, k) || HasOwn(src, k)
  {
    if !IsNullish(src) {
      AssignKeysGet(target, src, Keys(src), k);
    }
  }

  /** `String(v)`, the conversion used by `+` with a string and by `encodeURIComponent`. */
  function ToStr(v: Value): string
    decreases v, 1
  {
    match v
    case Undefined => "undefined"
    case Null => "null"
    case Bool(b) => if b then "true" else "false"
    case Num(n) => IntToString(n)
    case Str(s) => s
    case Arr(items) => ItemsToStr(v, 0)
    case Obj(_) => "[object Object]"
    case Func(src) => src
  }

  /** `items.slice(from).join(",")`, where `null` and `undefined` items become empty. */
  function ItemsToStr(v: Value, from: nat): string
    requires v.Arr?
    decreases v, 0, |v.items| - from
  {
    if from >= |v.items| then ""
    else
      var item := v.items[from];
      assert item < v;
      var text := if IsNullish(item) then "" else ToStr(item);
      if from == |v.items| - 1 then text else text + "," + ItemsToStr(v, from + 1)
  }

  /** The hexadecimal digit for `d < 16`, lower case as JSON.stringify writes `\u` escapes. */
  function LowerHexDigit(d: nat): char
    requires d < 16
  {
    "0123456789abcdef"[d]
  }

  /** One character of a string literal as JSON.stringify writes it. */
  function EscapeChar(c: char): string
  {
    if c == '"' then "\\\""
    else if c == '\\' then "\\\\"
    else if c as int == 8 then "\\b"
    else if c as int == 12 then "\\f"
    else if c == '\n' then "\\n"
    else if c == '\r' then "\\r"
    else if c == '\t' then "\\t"
    else if (c as int) < 0x20 then "\\u00" + [LowerHexDigit((c as int) / 16), LowerHexDigit((c as int) % 16)]
    else [c]
  }

  function EscapeChars(s: string): string
  {
    if |s| == 0 then "" else EscapeChar(s[0]) + EscapeChars(s[1..])
  }

  /** JSON.stringify of a string. */
  function Quote(s: string): string
  {
    "\"" + EscapeChars(s) + "\""
  }

  /** `JSON.stringify(v)`; `None` where it returns `undefined` (for `undefined` and functions). */
  function Stringify(v: Value): Option<string>
    decreases v, 1
  {
    match v
    case Undefined => None
    case Func(_) => None
    case Null => Some("null")
    case Bool(b) => Some(if b then "true" else "false")
    case Num(n) => Some(IntToString(n))
    case Str(s) => Some(Quote(s))
    case Arr(items) => Some("[" + StringifyItems(v, 0) + "]")
    case Obj(props) => Some("{" + StringifyProps(v, 0) + "}")
  }

  /** Array elements from `from` on; an element that has no JSON text is written `null`. */
  function StringifyItems(v: Value, from: nat): string
    requires v.Arr?
    decreases v, 0, |v.items| - from
  {
    if from >= |v.items| then ""
    else
      var item := v.items[from];
      assert item < v;
      var text := match Stringify(item) case Some(t) => t case None => "null";
      if from == |v.items| - 1 then text else text + "," + StringifyItems(v, from + 1)
  }

  /** Object members from `from` on; a member whose value has no JSON text is left out. */
  function StringifyProps(v: Value, from: nat): string
    requires v.Obj?
    decreases v, 0, |v.props| - from
  {
    if from >= |v.props| then ""
    else
      var p := v.props[from];
      assert p.val < v;
      var rest := StringifyProps(v, from + 1);
      match Stringify(p.val)
      case None => rest
      case Some(t) =>
        var member := Quote(p.key) + ":" + t;
        if rest == "" then member else member + "," + rest
  }

  /** A JSON value: no `undefined` or functions anywhere, and no repeated keys. */
  predicate IsJson(v: Value)
    decreases v
  {
    match v
    case Undefined => false
    case Func(_) => false
    case Arr(items) => forall i :: 0 <= i < |items| ==> IsJson(items[i])
    case Obj(props) =>
      && (forall i, j :: 0 <= i < j < |props| ==> props[i].key != props[j].key)
      && (forall i :: 0 <= i < |props| ==> IsJson(props[i].val))
    case _ => true
  }

  /** What `JSON.parse(JSON.stringify(v))` builds from a value whose JSON text exists. */
  function Reparsed(v: Value): Value
    decreases v, 1
  {
    match v
    case Arr(items) =>
      Arr(seq(|items|, i requires 0 <= i < |items| =>
        assert items[i] < v; if Stringify(items[i]).None? then Null else Reparsed(items[i])))
    case Obj(props) => Obj(ReparsedProps(v, 0))
    case _ => v
  }

  function ReparsedProps(v: Value, from: nat): seq<Prop>
    requires v.Obj?
    decreases v, 0, |v.props| - from
  {
    if from >= |v.props| then []
    else
      var p := v.props[from];
      assert p.val < v;
      if Stringify(p.val).None? then ReparsedProps(v, from + 1)
      else [Prop(p.key, Reparsed(p.val))] + ReparsedProps(v, from + 1)
  }

  /**
   * `JSON.parse(JSON.stringify(v))`, the deep copy the modelled code uses; `None` where
   * JSON.stringify gives `undefined`, on which JSON.parse throws.
   */
  function Clone(v: Value): Option<Value>
  {
    if Stringify(v).None? then None else Some(Reparsed(v))
  }

  /** Every JSON value has JSON text. */
  lemma JsonHasText(v: Value)
    requires IsJson(v)
    ensures Stringify(v).Some?
  {
  }

  /** On JSON values the deep copy is the identity. */
  lemma {:induction false} CloneJson(v: Value)
    requires IsJson(v)
    ensures Clone(v) == Some(v)
  {
    ReparsedJson(v);
  }

  lemma {:induction false} ReparsedJson(v: Value)
    requires IsJson(v)
    decreases v, 1
    ensures Reparsed(v) == v
  {
    match v
    case Arr(items) =>
      forall i | 0 <= i < |items|
        ensures (if Stringify(items[i]).None? then Null else Reparsed(items[i])) == items[i]
      {
        assert items[i] < v;
        ReparsedJson(items[i]);
      }
    case Obj(props) =>
      ReparsedPropsJson(v, 0);
    case _ =>
  }

  lemma {:induction false} ReparsedPropsJson(v: Value, from: nat)
    requires v.Obj? && IsJson(v) && from <= |v.props|
    decreases v, 0, |v.props| - from
    ensures ReparsedProps(v, from) == v.props[from..]
  {
    if from < |v.props| {
      var p := v.props[from];
      assert p.val < v;
      ReparsedJson(p.val);
      ReparsedPropsJson(v, from + 1);
      assert v.props[from..] == [p] + v.props[from + 1..];
    }
  }

  lemma {:induction false} LookupJson(props: seq<Prop>, key: string)
    requires forall i :: 0 <= i < |props| ==> IsJson(props[i].val)
    ensures Lookup(props, key).Some? ==> IsJson(Lookup(props, key).value)
  {
    if |props| > 0 && props[0].key != key {
      LookupJson(props[1..], key);
    }
  }

  /** A property read from a JSON value is a JSON value or `undefined`. */
  lemma GetJson(v: Value, key: string)
    requires IsJson(v)
    ensures Get(v, key) == Undefined || IsJson(Get(v, key))
  {
    if v.Obj? {
      LookupJson(v.props, key);
    }
  }
}
