/** Worked cases of the `xhr` module on the operation url of the `http` cases. */
module XhrExamples {
  import opened Wrappers
  import opened JsString
  import opened Js
  import Http
  import opened HttpExamples
  import opened Xhr

  /** The request object the tests hand to an operation: `{params: {id: "1"}}`. */
  const Request1: Value := Obj([Prop("params", Obj([Prop("id", Str("1"))]))])

  lemma NoParamsPlaceholder()
    ensures forall k :: !OccursAt(Url, ":params", k)
  {
    forall k | 0 <= k < 20 ensures !OccursAt(Url, ":params", k) {
      assert Url[k..k + 7][0] == Url[k] && Url[k..k + 7][1] == Url[k + 1];
    }
  }

  /**
   * The url-filling function substitutes the keys of its argument itself: handed a whole
   * request object, it looks for `:params` and leaves the `:id` placeholder in place.
   */
  lemma ReplaceTakesParamsDirectly()
    ensures Invoke(PathReplace(Url), Request1) == Returned(Url)
  {
    assert Keys(Request1) == ["params"];
    assert ["params"][..0] == [];
    NoParamsPlaceholder();
    assert ":" + "params" == ":params";
    assert IndexOf(Url, ":params").None?;
  }

  /** Handed the parameters themselves, it fills the placeholder. */
  lemma ReplaceWithParams()
    ensures Invoke(PathReplace(Url), Params) == Returned(Url7)
  {
    ParamsExample();
  }

  /**
   * An operation with a url and no method: xhr gives the url-filling function, so the call
   * the tests make returns the url unfilled and sends nothing.
   */
  lemma NoMethodExample(od: Value)
    requires od.Obj? && Get(od, "url") == Str(Url) && !HasOwn(od, "method") && !HasOwn(od, "prefixType")
    ensures GetAsyncFn(od, Http.Globals(Undefined, Undefined)) == Ok(PathReplace(Url))
    ensures Invoke(GetAsyncFn(od, Http.Globals(Undefined, Undefined)).value, Request1) == Returned(Url)
  {
    UrlNotAbsolute();
    UnprefixedUrl(od, Url);
    ReplaceTakesParamsDirectly();
  }
}
