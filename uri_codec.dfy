/**
 * `encodeURIComponent` (percent-encoding of the UTF-8 bytes of every character outside
 * `A-Z a-z 0-9 - _ . ! ~ * ' ( )`, upper-case hexadecimal, as RFC 3986 section 2.1 writes
 * percent-encoded octets), and, as its partner, percent-decoding and UTF-8 decoding as
 * section 5.1 of the WHATWG URL Standard uses them to parse
 * `application/x-www-form-urlencoded` text.
 */
module UriCodec {
  import opened Wrappers
  import opened JsString

  /** The characters `encodeURIComponent` leaves as they are. */
  predicate IsUnreserved(c: char)
  {
    ('a' <= c <= 'z') || ('A' <= c <= 'Z') || ('0' <= c <= '9')
    || c == '-' || c == '_' || c == '.' || c == '!' || c == '~' || c == '*' || c == '\'' || c == '(' || c == ')'
  }

  predicate IsUpperHex(c: char)
  {
    ('0' <= c <= '9') || ('A' <= c <= 'F')
  }

  predicate IsHexDigit(c: char)
  {
    ('0' <= c <= '9') || ('A' <= c <= 'F') || ('a' <= c <= 'f')
  }

  function HexValue(c: char): (d: nat)
    requires IsHexDigit(c)
    ensures d < 16
  {
    if '0' <= c <= '9' then (c as int) - ('0' as int)
    else if 'A' <= c <= 'F' then (c as int) - ('A' as int) + 10
    else (c as int) - ('a' as int) + 10
  }

  function UpperHexDigit(d: nat): (c: char)
    requires d < 16
    ensures IsUpperHex(c) && HexValue(c) == d
  {
    "0123456789ABCDEF"[d]
  }

  /** A byte written as `%` and two upper-case hexadecimal digits. */
  function PercentByte(b: nat): (r: string)
    requires b < 256
    ensures |r| == 3 && r[0] == '%' && IsUpperHex(r[1]) && IsUpperHex(r[2])
    ensures HexValue(r[1]) * 16 + HexValue(r[2]) == b
  {
    ['%', UpperHexDigit(b / 16), UpperHexDigit(b % 16)]
  }

  /** The UTF-8 bytes of one Unicode scalar value. */
  function Utf8Bytes(c: char): (r: seq<nat>)
    ensures 1 <= |r| <= 4
    ensures forall k :: 0 <= k < |r| ==> r[k] < 256
    ensures |r| == 1 <==> (c as int) < 0x80
    ensures |r| == 1 ==> r[0] == c as int
    ensures |r| > 1 ==> forall k :: 0 <= k < |r| ==> r[k] >= 0x80
  {
    var cp := c as int;
    if cp < 0x80 then [cp]
    else if cp < 0x800 then [0xC0 + cp / 64, 0x80 + cp % 64]
    else if cp < 0x10000 then [0xE0 + cp / 4096, 0x80 + (cp / 64) % 64, 0x80 + cp % 64]
    else [0xF0 + cp / 262144, 0x80 + (cp / 4096) % 64, 0x80 + (cp / 64) % 64, 0x80 + cp % 64]
  }

  function Utf8Encode(s: string): seq<nat>
  {
    if |s| == 0 then [] else Utf8Bytes(s[0]) + Utf8Encode(s[1..])
  }

  function PercentBytes(bytes: seq<nat>): string
    requires forall k :: 0 <= k < |bytes| ==> bytes[k] < 256
  {
    if |bytes| == 0 then "" else PercentByte(bytes[0]) + PercentBytes(bytes[1..])
  }

  /** One character as `encodeURIComponent` writes it. */
  function EncodeChar(c: char): string
  {
    if IsUnreserved(c) then [c] else PercentBytes(Utf8Bytes(c))
  }

  /** `encodeURIComponent(s)`. */
  function EncodeUriComponent(s: string): string
  {
    if |s| == 0 then "" else EncodeChar(s[0]) + EncodeUriComponent(s[1..])
  }

  /** The characters that can appear in `encodeURIComponent`'s output. */
  predicate IsEncodedChar(c: char)
  {
    IsUnreserved(c) || c == '%' || IsUpperHex(c)
  }

  lemma {:induction false} PercentBytesAlphabet(bytes: seq<nat>)
    requires forall k :: 0 <= k < |bytes| ==> bytes[k] < 256
    ensures forall k :: 0 <= k < |PercentBytes(bytes)| ==> IsEncodedChar(PercentBytes(bytes)[k])
  {
    if |bytes| > 0 {
      PercentBytesAlphabet(bytes[1..]);
    }
  }

  /** One encoded character is unreserved, `%` or upper-case hexadecimal throughout. */
  lemma EncodeCharAlphabet(c: char)
    ensures forall k :: 0 <= k < |EncodeChar(c)| ==> IsEncodedChar(EncodeChar(c)[k])
  {
    if !IsUnreserved(c) {
      PercentBytesAlphabet(Utf8Bytes(c));
    }
  }

  /** Every character of the output is unreserved, `%` or an upper-case hexadecimal digit. */
  lemma {:induction false} EncodedAlphabet(s: string)
    ensures forall k :: 0 <= k < |EncodeUriComponent(s)| ==> IsEncodedChar(EncodeUriComponent(s)[k])
  {
    if |s| > 0 {
      EncodeCharAlphabet(s[0]);
      EncodedAlphabet(s[1..]);
    }
  }

  /**
   * In particular the output never holds `$`, so `String.prototype.replace` inserts it
   * literally, nor `:`, so it cannot form a new `:name` placeholder.
   */
  lemma EncodedHasNoSpecials(s: string)
    ensures '$' !in EncodeUriComponent(s) && ':' !in EncodeUriComponent(s)
  {
    var e := EncodeUriComponent(s);
    EncodedAlphabet(s);
    NotInAlphabet(e, '$');
    NotInAlphabet(e, ':');
  }

  lemma NotInAlphabet(e: string, c: char)
    requires forall k :: 0 <= k < |e| ==> IsEncodedChar(e[k])
    requires !IsEncodedChar(c)
    ensures c !in e
  {
  }

  /** A string of unreserved characters is its own encoding. */
  lemma {:induction false} EncodeUnreserved(s: string)
    requires forall k :: 0 <= k < |s| ==> IsUnreserved(s[k])
    ensures EncodeUriComponent(s) == s
  {
    if |s| > 0 {
      EncodeUnreserved(s[1..]);
      assert s == [s[0]] + s[1..];
    }
  }

  /** The encoding of a concatenation is the concatenation of the encodings. */
  lemma {:induction false} EncodeAppend(a: string, b: string)
    ensures EncodeUriComponent(a + b) == EncodeUriComponent(a) + EncodeUriComponent(b)
  {
    if |a| > 0 {
      assert (a + b)[0] == a[0];
      assert (a + b)[1..] == a[1..] + b;
      EncodeAppend(a[1..], b);
    } else {
      assert a + b == b;
    }
  }

  // ---------------------------------------------------------------------------------------
  // Decoding (section 5.1 of the WHATWG URL Standard: percent-decode, then UTF-8 decode)

  /**
   * Percent-decoding: `%` and two hexadecimal digits give that byte; every other character
   * gives its UTF-8 bytes.
   */
  function PercentDecode(s: string): seq<nat>
  {
    if |s| == 0 then []
    else if s[0] == '%' && |s| >= 3 && IsHexDigit(s[1]) && IsHexDigit(s[2]) then
      [HexValue(s[1]) * 16 + HexValue(s[2])] + PercentDecode(s[3..])
    else Utf8Bytes(s[0]) + PercentDecode(s[1..])
  }

  predicate IsContinuation(b: int)
  {
    0x80 <= b < 0xC0
  }

  /** Decodes the first character of a UTF-8 byte sequence and says how many bytes it used. */
  function DecodeOne(b: seq<nat>): (r: Option<(char, nat)>)
    requires |b| >= 1
    ensures r.Some? ==> 1 <= r.value.1 <= |b|
  {
    var b0 := b[0];
    if b0 < 0x80 then Some((b0 as char, 1))
    else if 0xC2 <= b0 <= 0xDF && |b| >= 2 && IsContinuation(b[1]) then
      var cp := (b0 - 0xC0) * 64 + (b[1] - 0x80);
      Some((cp as char, 2))
    else if 0xE0 <= b0 <= 0xEF && |b| >= 3 && IsContinuation(b[1]) && IsContinuation(b[2]) then
      var cp := (b0 - 0xE0) * 4096 + (b[1] - 0x80) * 64 + (b[2] - 0x80);
      if 0x800 <= cp && !(0xD800 <= cp <= 0xDFFF) then Some((cp as char, 3)) else None
    else if 0xF0 <= b0 <= 0xF4 && |b| >= 4 && IsContinuation(b[1]) && IsContinuation(b[2]) && IsContinuation(b[3]) then
      var cp := (b0 - 0xF0) * 262144 + (b[1] - 0x80) * 4096 + (b[2] - 0x80) * 64 + (b[3] - 0x80);
      if 0x10000 <= cp <= 0x10FFFF then Some((cp as char, 4)) else None
    else None
  }

  /** UTF-8 decoding; `None` on a malformed sequence. */
  function DecodeUtf8(b: seq<nat>): Option<string>
    decreases |b|
  {
    if |b| == 0 then Some("")
    else match DecodeOne(b)
      case None => None
      case Some((c, n)) =>
        match DecodeUtf8(b[n..])
        case None => None
        case Some(rest) => Some([c] + rest)
  }

  lemma DecodeTwo(cp: int, rest: seq<nat>)
    requires 0x80 <= cp < 0x800
    ensures DecodeOne([0xC0 + cp / 64, 0x80 + cp % 64] + rest) == Some((cp as char, 2))
  {
    assert cp == (cp / 64) * 64 + cp % 64;
  }

  lemma DecodeThree(cp: int, rest: seq<nat>)
    requires 0x800 <= cp < 0x10000 && !(0xD800 <= cp < 0xE000)
    ensures DecodeOne([0xE0 + cp / 4096, 0x80 + (cp / 64) % 64, 0x80 + cp % 64] + rest) == Some((cp as char, 3))
  {
    assert cp / 64 == (cp / 4096) * 64 + (cp / 64) % 64;
    assert cp == (cp / 64) * 64 + cp % 64;
  }

  lemma DecodeFour(cp: int, rest: seq<nat>)
    requires 0x10000 <= cp < 0x110000
    ensures DecodeOne([0xF0 + cp / 262144, 0x80 + (cp / 4096) % 64, 0x80 + (cp / 64) % 64, 0x80 + cp % 64] + rest)
         == Some((cp as char, 4))
  {
    assert cp / 4096 == (cp / 262144) * 64 + (cp / 4096) % 64;
    assert cp / 64 == (cp / 4096) * 64 + (cp / 64) % 64;
    assert cp == (cp / 64) * 64 + cp % 64;
  }

  /** Decoding the UTF-8 bytes of a character gives the character back and uses exactly those bytes. */
  lemma DecodeOneUtf8(c: char, rest: seq<nat>)
    ensures DecodeOne(Utf8Bytes(c) + rest) == Some((c, |Utf8Bytes(c)|))
  {
    var cp := c as int;
    if cp < 0x80 {
    } else if cp < 0x800 {
      DecodeTwo(cp, rest);
    } else if cp < 0x10000 {
      DecodeThree(cp, rest);
    } else {
      DecodeFour(cp, rest);
    }
  }

  /** UTF-8 decoding undoes UTF-8 encoding. */
  lemma {:induction false} DecodeUtf8Encode(s: string)
    ensures DecodeUtf8(Utf8Encode(s)) == Some(s)
  {
    if |s| > 0 {
      var bytes := Utf8Bytes(s[0]);
      DecodeOneUtf8(s[0], Utf8Encode(s[1..]));
      assert (bytes + Utf8Encode(s[1..]))[|bytes|..] == Utf8Encode(s[1..]);
      DecodeUtf8Encode(s[1..]);
      assert s == [s[0]] + s[1..];
    }
  }

  /** A character other than `%` contributes its own UTF-8 bytes. */
  lemma PercentDecodePlain(c: char, rest: string)
    requires c != '%'
    ensures PercentDecode([c] + rest) == Utf8Bytes(c) + PercentDecode(rest)
  {
    assert ([c] + rest)[1..] == rest;
  }

  lemma PercentDecodeByte(b: nat, rest: string)
    requires b < 256
    ensures PercentDecode(PercentByte(b) + rest) == [b] + PercentDecode(rest)
  {
    var t := PercentByte(b);
    var s := t + rest;
    assert s[0] == '%' && s[1] == t[1] && s[2] == t[2];
    assert s[3..] == rest;
  }

  lemma {:induction false} PercentDecodeBytes(bytes: seq<nat>, rest: string)
    requires forall k :: 0 <= k < |bytes| ==> bytes[k] < 256
    ensures PercentDecode(PercentBytes(bytes) + rest) == bytes + PercentDecode(rest)
  {
    if |bytes| > 0 {
      var tail := PercentBytes(bytes[1..]) + rest;
      assert PercentBytes(bytes) + rest == PercentByte(bytes[0]) + tail;
      PercentDecodeByte(bytes[0], tail);
      PercentDecodeBytes(bytes[1..], rest);
      assert bytes == [bytes[0]] + bytes[1..];
    } else {
      assert PercentBytes(bytes) + rest == rest;
    }
  }

  /** Percent-decoding the encoding of one character gives its UTF-8 bytes. */
  lemma PercentDecodeEncodeChar(c: char, rest: string)
    ensures PercentDecode(EncodeChar(c) + rest) == Utf8Bytes(c) + PercentDecode(rest)
  {
    if IsUnreserved(c) {
      PercentDecodePlain(c, rest);
    } else {
      PercentDecodeBytes(Utf8Bytes(c), rest);
    }
  }

  /** Percent-decoding undoes `encodeURIComponent` down to the UTF-8 bytes. */
  lemma {:induction false} PercentDecodeEncode(s: string)
    ensures PercentDecode(EncodeUriComponent(s)) == Utf8Encode(s)
  {
    if |s| > 0 {
      PercentDecodeEncodeChar(s[0], EncodeUriComponent(s[1..]));
      PercentDecodeEncode(s[1..]);
    }
  }

  /** `decodeURIComponent(encodeURIComponent(s)) == s`: the encoding loses nothing. */
  lemma EncodeRoundTrip(s: string)
    ensures DecodeUtf8(PercentDecode(EncodeUriComponent(s))) == Some(s)
  {
    PercentDecodeEncode(s);
    DecodeUtf8Encode(s);
  }

  lemma EncodeSpace()
    ensures EncodeUriComponent(" ") == "%20"
  {
    assert Utf8Bytes(' ') == [32];
    assert PercentByte(32) == "%20";
  }

  lemma EncodePercent()
    ensures EncodeUriComponent("%") == "%25"
  {
    assert Utf8Bytes('%') == [37];
    assert PercentByte(37) == "%25";
  }

  /** Worked cases: `%` is escaped as `%25`, a space as `%20`. */
  lemma EncodeExamplePercent()
    ensures EncodeUriComponent("123%") == "123%25"
  {
    EncodeUnreserved("123");
    EncodeAppend("123", "%");
    EncodePercent();
    assert "123" + "%" == "123%";
    assert "123" + "%25" == "123%25";
  }

  lemma EncodeExampleSpace()
    ensures EncodeUriComponent("M A") == "M%20A"
  {
    EncodeUnreserved("M");
    EncodeUnreserved("A");
    EncodeSpace();
    EncodeAppend(" ", "A");
    EncodeAppend("M", " A");
    assert "M" + " A" == "M A";
    assert " " + "A" == " A";
    assert "M" + ("%20" + "A") == "M%20A";
  }
}
