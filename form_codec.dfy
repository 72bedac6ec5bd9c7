/**
 * The `application/x-www-form-urlencoded` format: how a query string is written from
 * `encodeURIComponent`-encoded `name=value` pairs with every `%20` turned into `+`, and the
 * parser of section 5.1 of the WHATWG URL Standard that reads it back.
 */
module FormCodec {
  import opened Wrappers
  import opened JsString
  import opened UriCodec

  /** `text.replace(/%20/g, "+")`. */
  function PlusForSpace(text: string): string
  {
    ReplaceAll(text, "%20", "+")
  }

  /** One character in the form encoding: a space is `+`, everything else as `encodeURIComponent` writes it. */
  function FormEncodeChar(c: char): string
  {
    if c == ' ' then "+" else EncodeChar(c)
  }

  function FormEncode(s: string): string
  {
    if |s| == 0 then "" else FormEncodeChar(s[0]) + FormEncode(s[1..])
  }

  /** The query-string text of name/value pairs: `encodeURIComponent(name) + "=" + encodeURIComponent(value)`. */
  function EncodedPairs(pairs: seq<(string, string)>): (r: seq<string>)
    ensures |r| == |pairs|
  {
    seq(|pairs|, i requires 0 <= i < |pairs| => EncodeUriComponent(pairs[i].0) + "=" + EncodeUriComponent(pairs[i].1))
  }

  lemma EncodedPairAt(pairs: seq<(string, string)>, i: nat)
    requires i < |pairs|
    ensures EncodedPairs(pairs)[i] == EncodeUriComponent(pairs[i].0) + "=" + EncodeUriComponent(pairs[i].1)
  {
  }

  /** The pairs joined with `&`, every `%20` then replaced by `+`. */
  function SerializeForm(pairs: seq<(string, string)>): string
  {
    PlusForSpace(Join(EncodedPairs(pairs), "&"))
  }

  // ---------------------------------------------------------------------------------------
  // The parser (section 5.1 of the WHATWG URL Standard)

  /** Every `+` becomes a space. */
  function PlusToSpace(s: string): (r: string)
    ensures |r| == |s|
  {
    if |s| == 0 then "" else [if s[0] == '+' then ' ' else s[0]] + PlusToSpace(s[1..])
  }

  /**
   * A name or value: `+` to space, percent-decode, UTF-8 decode. `None` where the bytes are
   * not UTF-8 (the Standard substitutes U+FFFD there).
   */
  function DecodeComponent(s: string): Option<string>
  {
    DecodeUtf8(PercentDecode(PlusToSpace(s)))
  }

  /** One non-empty `&`-separated sequence: the name runs to the first `=`, the value is the rest (or empty). */
  function ParsePair(part: string): Option<(string, string)>
  {
    var (name, value) := match IndexOf(part, "=")
      case None => (part, "")
      case Some(i) => (part[..i], part[i + 1..]);
    match DecodeComponent(name)
    case None => None
    case Some(n) =>
      match DecodeComponent(value)
      case None => None
      case Some(v) => Some((n, v))
  }

  function ParseParts(parts: seq<string>): Option<seq<(string, string)>>
  {
    if |parts| == 0 then Some([])
    else if parts[0] == "" then ParseParts(parts[1..])
    else
      match ParsePair(parts[0])
      case None => None
      case Some(p) =>
        match ParseParts(parts[1..])
        case None => None
        case Some(rest) => Some([p] + rest)
  }

  /** The `application/x-www-form-urlencoded` parser: split on `&`, skip empty sequences, decode each pair. */
  function ParseForm(input: string): Option<seq<(string, string)>>
  {
    ParseParts(Split(input, '&'))
  }

  // ---------------------------------------------------------------------------------------
  // `%20` -> `+` on encoded text is the form encoding

  lemma PlusForSpacePlain(x: char, r: string)
    requires x != '%'
    ensures PlusForSpace([x] + r) == [x] + PlusForSpace(r)
  {
    var s := [x] + r;
    if |s| >= 3 {
      assert s[..3][0] == x;
      assert s[1..] == r;
    }
  }

  lemma PlusForSpaceByte(b: nat, r: string)
    requires b < 256 && b != 32
    ensures PlusForSpace(PercentByte(b) + r) == PercentByte(b) + PlusForSpace(r)
  {
    var t := PercentByte(b);
    var s := t + r;
    assert s[..3] == t;
    assert s[1..] == [t[1]] + ([t[2]] + r);
    PlusForSpacePlain(t[2], r);
    PlusForSpacePlain(t[1], [t[2]] + r);
  }

  lemma {:induction false} PlusForSpaceBytes(bytes: seq<nat>, r: string)
    requires forall k :: 0 <= k < |bytes| ==> bytes[k] < 256 && bytes[k] != 32
    ensures PlusForSpace(PercentBytes(bytes) + r) == PercentBytes(bytes) + PlusForSpace(r)
  {
    if |bytes| > 0 {
      var tail := PercentBytes(bytes[1..]) + r;
      assert PercentBytes(bytes) + r == PercentByte(bytes[0]) + tail;
      PlusForSpaceByte(bytes[0], tail);
      PlusForSpaceBytes(bytes[1..], r);
    } else {
      assert PercentBytes(bytes) + r == r;
    }
  }

  lemma PlusForSpaceEncodeChar(c: char, r: string)
    ensures PlusForSpace(EncodeChar(c) + r) == FormEncodeChar(c) + PlusForSpace(r)
  {
    if IsUnreserved(c) {
      PlusForSpacePlain(c, r);
    } else if c == ' ' {
      assert Utf8Bytes(' ') == [32];
      assert PercentByte(32) == "%20";
      var s := "%20" + r;
      assert s[..3] == "%20" && s[3..] == r;
    } else {
      PlusForSpaceBytes(Utf8Bytes(c), r);
    }
  }

  /** Replacing `%20` in encoded text followed by anything never reaches across the encoded part. */
  lemma {:induction false} PlusForSpaceEncode(s: string, r: string)
    ensures PlusForSpace(EncodeUriComponent(s) + r) == FormEncode(s) + PlusForSpace(r)
  {
    if |s| > 0 {
      var tail := EncodeUriComponent(s[1..]) + r;
      assert EncodeUriComponent(s) + r == EncodeChar(s[0]) + tail;
      PlusForSpaceEncodeChar(s[0], tail);
      PlusForSpaceEncode(s[1..], r);
    } else {
      assert EncodeUriComponent(s) + r == r;
    }
  }

  /** The pairs after `%20` -> `+`, joined with `&`. */
  function FormPairs(pairs: seq<(string, string)>): (r: seq<string>)
    ensures |r| == |pairs|
  {
    seq(|pairs|, i requires 0 <= i < |pairs| => FormEncode(pairs[i].0) + "=" + FormEncode(pairs[i].1))
  }

  lemma Assoc(a: string, b: string, c: string)
    ensures a + b + c == a + (b + c)
  {
  }

  lemma ConcatShape(a: string, b: string, c: string, r: string)
    ensures a + b + c + r == a + (b + (c + r))
  {
  }

  lemma PlusForSpacePair(k: string, v: string, r: string)
    ensures PlusForSpace(EncodeUriComponent(k) + "=" + EncodeUriComponent(v) + r)
         == FormEncode(k) + "=" + FormEncode(v) + PlusForSpace(r)
  {
    var ek, ev := EncodeUriComponent(k), EncodeUriComponent(v);
    var t1 := ev + r;
    var t2 := ['='] + t1;
    ConcatShape(ek, "=", ev, r);
    PlusForSpaceEncode(k, t2);
    PlusForSpacePlain('=', t1);
    PlusForSpaceEncode(v, r);
    ConcatShape(FormEncode(k), "=", FormEncode(v), PlusForSpace(r));
  }

  lemma EncodedPairsCons(pairs: seq<(string, string)>)
    requires |pairs| > 0
    ensures EncodedPairs(pairs) == [EncodeUriComponent(pairs[0].0) + "=" + EncodeUriComponent(pairs[0].1)] + EncodedPairs(pairs[1..])
  {
  }

  lemma FormPairsCons(pairs: seq<(string, string)>)
    requires |pairs| > 0
    ensures FormPairs(pairs) == [FormEncode(pairs[0].0) + "=" + FormEncode(pairs[0].1)] + FormPairs(pairs[1..])
  {
  }

  lemma {:induction false} PlusForSpaceJoin(pairs: seq<(string, string)>)
    ensures PlusForSpace(Join(EncodedPairs(pairs), "&")) == Join(FormPairs(pairs), "&")
  {
    if |pairs| > 0 {
      var k, v := pairs[0].0, pairs[0].1;
      EncodedPairsCons(pairs);
      FormPairsCons(pairs);
      var e0 := EncodeUriComponent(k) + "=" + EncodeUriComponent(v);
      var f0 := FormEncode(k) + "=" + FormEncode(v);
      if |pairs| == 1 {
        PlusForSpacePair(k, v, "");
        assert e0 + "" == e0;
        assert f0 + PlusForSpace("") == f0;
      } else {
        var rest := Join(EncodedPairs(pairs[1..]), "&");
        var frest := Join(FormPairs(pairs[1..]), "&");
        JoinCons(e0, EncodedPairs(pairs[1..]), "&");
        JoinCons(f0, FormPairs(pairs[1..]), "&");
        Assoc(e0, "&", rest);
        PlusForSpacePair(k, v, "&" + rest);
        PlusForSpacePlain('&', rest);
        PlusForSpaceJoin(pairs[1..]);
        Assoc(f0, "&", frest);
      }
    }
  }

  // ---------------------------------------------------------------------------------------
  // Decoding the form encoding

  lemma {:induction false} FormEncodeAlphabet(s: string)
    ensures forall k :: 0 <= k < |FormEncode(s)| ==> IsEncodedChar(FormEncode(s)[k]) || FormEncode(s)[k] == '+'
  {
    if |s| > 0 {
      EncodeCharAlphabet(s[0]);
      FormEncodeAlphabet(s[1..]);
    }
  }

  lemma {:induction false} PlusToSpaceAppend(a: string, b: string)
    ensures PlusToSpace(a + b) == PlusToSpace(a) + PlusToSpace(b)
  {
    if |a| > 0 {
      assert (a + b)[0] == a[0];
      assert (a + b)[1..] == a[1..] + b;
      PlusToSpaceAppend(a[1..], b);
    } else {
      assert a + b == b;
    }
  }

  lemma {:induction false} PlusToSpaceNoPlus(s: string)
    requires '+' !in s
    ensures PlusToSpace(s) == s
  {
    if |s| > 0 {
      assert s[0] != '+';
      assert s == [s[0]] + s[1..];
      PlusToSpaceNoPlus(s[1..]);
    }
  }

  /** `+` to space, then percent-decoding, recovers the UTF-8 bytes of a form-encoded string. */
  lemma {:induction false} PercentDecodeFormEncode(s: string)
    ensures PercentDecode(PlusToSpace(FormEncode(s))) == Utf8Encode(s)
  {
    if |s| > 0 {
      var c := s[0];
      var tail := PlusToSpace(FormEncode(s[1..]));
      PlusToSpaceAppend(FormEncodeChar(c), FormEncode(s[1..]));
      if c == ' ' {
        assert PlusToSpace("+") == " ";
        PercentDecodePlain(' ', tail);
      } else {
        EncodeCharAlphabet(c);
        assert '+' !in EncodeChar(c);
        PlusToSpaceNoPlus(EncodeChar(c));
        PercentDecodeEncodeChar(c, tail);
      }
      PercentDecodeFormEncode(s[1..]);
    }
  }

  lemma DecodeFormEncode(s: string)
    ensures DecodeComponent(FormEncode(s)) == Some(s)
  {
    PercentDecodeFormEncode(s);
    DecodeUtf8Encode(s);
  }

  lemma ParsePairForm(k: string, v: string)
    ensures ParsePair(FormEncode(k) + "=" + FormEncode(v)) == Some((k, v))
  {
    var a, b := FormEncode(k), FormEncode(v);
    var part := a + "=" + b;
    FormEncodeAlphabet(k);
    assert forall i :: 0 <= i < |a| ==> part[i] == a[i];
    IndexOfChar(part, '=', |a|);
    assert part[..|a|] == a;
    assert part[|a| + 1..] == b;
    DecodeFormEncode(k);
    DecodeFormEncode(v);
  }

  lemma ParsePartsCons(p: string, ps: seq<string>, x: (string, string), xs: seq<(string, string)>)
    requires p != "" && ParsePair(p) == Some(x) && ParseParts(ps) == Some(xs)
    ensures ParseParts([p] + ps) == Some([x] + xs)
  {
    assert ([p] + ps)[1..] == ps;
  }

  lemma {:induction false} ParsePartsForm(pairs: seq<(string, string)>)
    ensures ParseParts(FormPairs(pairs)) == Some(pairs)
  {
    if |pairs| > 0 {
      var k, v := pairs[0].0, pairs[0].1;
      var p0 := FormEncode(k) + "=" + FormEncode(v);
      assert |p0| > 0;
      FormPairsCons(pairs);
      ParsePairForm(k, v);
      ParsePartsForm(pairs[1..]);
      ParsePartsCons(p0, FormPairs(pairs[1..]), pairs[0], pairs[1..]);
      assert pairs == [pairs[0]] + pairs[1..];
    }
  }

  lemma NoAmpersand(k: string, v: string)
    ensures '&' !in FormEncode(k) + "=" + FormEncode(v)
  {
    FormEncodeAlphabet(k);
    FormEncodeAlphabet(v);
  }

  /** The form parser reads back exactly the pairs a query string was written from, in order. */
  lemma FormRoundTrip(pairs: seq<(string, string)>)
    ensures ParseForm(SerializeForm(pairs)) == Some(pairs)
  {
    var parts := FormPairs(pairs);
    PlusForSpaceJoin(pairs);
    if |pairs| == 0 {
      assert Split("", '&') == [""];
      assert ParseParts([""]) == Some([]);
    } else {
      forall i | 0 <= i < |parts| ensures '&' !in parts[i] {
        NoAmpersand(pairs[i].0, pairs[i].1);
      }
      SplitJoin(parts, '&');
      ParsePartsForm(pairs);
    }
  }
}
