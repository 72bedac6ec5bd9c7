/**
 * The pieces of JavaScript's string library that the modelled code relies on:
 * `String.prototype.indexOf`, `replace` with a string pattern (first occurrence, with
 * `$`-pattern expansion of the replacement), `replace` with a global regular expression
 * that matches a literal, `Array.prototype.join`, `split` on one character, decimal
 * conversion of integers and the `\w` character class.
 */
module JsString {
  import opened Wrappers

  /** `p` occurs in `s` at position `k`. */
  predicate OccursAt(s: string, p: string, k: int)
  {
    0 <= k && k + |p| <= |s| && s[k..k + |p|] == p
  }

  /** The first position at or after `from` where `p` occurs in `s`. */
  function IndexOfFrom(s: string, p: string, from: nat): (r: Option<nat>)
    decreases |s| - from
    ensures r.Some? ==> from <= r.value && OccursAt(s, p, r.value)
    ensures r.Some? ==> forall k :: from <= k < r.value ==> !OccursAt(s, p, k)
    ensures r.None? ==> forall k :: from <= k ==> !OccursAt(s, p, k)
  {
    if from + |p| > |s| then None
    else if s[from..from + |p|] == p then Some(from)
    else IndexOfFrom(s, p, from + 1)
  }

  /** `s.indexOf(p)`, with `None` standing for -1. */
  function IndexOf(s: string, p: string): (r: Option<nat>)
    ensures r.Some? ==> OccursAt(s, p, r.value) && forall k :: 0 <= k < r.value ==> !OccursAt(s, p, k)
    ensures r.None? ==> forall k :: !OccursAt(s, p, k)
  {
    IndexOfFrom(s, p, 0)
  }

  /**
   * The text that replaces a match, after expanding the special patterns of a replacement
   * string when the pattern has no capture groups: `$$` is `$`, `$&` is the match, `` $` `` the
   * text before it and `$'` the text after it; any other `$` stands for itself.
   */
  function Substitution(repl: string, matched: string, before: string, after: string): string
  {
    if |repl| == 0 then ""
    else if repl[0] == '$' && |repl| >= 2 && repl[1] == '$' then "$" + Substitution(repl[2..], matched, before, after)
    else if repl[0] == '$' && |repl| >= 2 && repl[1] == '&' then matched + Substitution(repl[2..], matched, before, after)
    else if repl[0] == '$' && |repl| >= 2 && repl[1] == '`' then before + Substitution(repl[2..], matched, before, after)
    else if repl[0] == '$' && |repl| >= 2 && repl[1] == '\'' then after + Substitution(repl[2..], matched, before, after)
    else [repl[0]] + Substitution(repl[1..], matched, before, after)
  }

  /** A replacement string without `$` is inserted literally. */
  lemma {:induction false} SubstitutionLiteral(repl: string, matched: string, before: string, after: string)
    requires '$' !in repl
    ensures Substitution(repl, matched, before, after) == repl
  {
    if |repl| > 0 {
      assert repl == [repl[0]] + repl[1..];
      SubstitutionLiteral(repl[1..], matched, before, after);
    }
  }

  /** `s.replace(p, repl)` for a string pattern `p`: only the first occurrence is replaced. */
  function ReplaceFirst(s: string, p: string, repl: string): (r: string)
    ensures IndexOf(s, p).None? ==> r == s
  {
    match IndexOf(s, p)
    case None => s
    case Some(i) => s[..i] + Substitution(repl, p, s[..i], s[i + |p|..]) + s[i + |p|..]
  }

  /** With a `$`-free replacement, the first occurrence of `p` is replaced by `repl` and nothing else changes. */
  lemma ReplaceFirstLiteral(s: string, p: string, repl: string, i: nat)
    requires '$' !in repl
    requires OccursAt(s, p, i) && forall k :: 0 <= k < i ==> !OccursAt(s, p, k)
    ensures ReplaceFirst(s, p, repl) == s[..i] + repl + s[i + |p|..]
  {
    SubstitutionLiteral(repl, p, s[..i], s[i + |p|..]);
  }

  /** `s.replace(/p/g, repl)` for a literal, non-empty pattern and a `$`-free replacement. */
  function ReplaceAll(s: string, p: string, repl: string): string
    requires |p| > 0
    decreases |s|
  {
    if |s| < |p| then s
    else if s[..|p|] == p then repl + ReplaceAll(s[|p|..], p, repl)
    else [s[0]] + ReplaceAll(s[1..], p, repl)
  }

  /** Replacing every occurrence of one character with a one-character string maps the string character-wise. */
  lemma {:induction false} ReplaceAllChar(s: string, c: char, d: char)
    ensures |ReplaceAll(s, [c], [d])| == |s|
    ensures forall k :: 0 <= k < |s| ==> ReplaceAll(s, [c], [d])[k] == (if s[k] == c then d else s[k])
  {
    if |s| > 0 {
      ReplaceAllChar(s[1..], c, d);
    }
  }

  /** Replacing every occurrence of one character with the empty string deletes exactly those characters. */
  lemma {:induction false} RemoveAllChar(s: string, c: char)
    ensures c !in ReplaceAll(s, [c], "")
    ensures forall x :: x != c ==> (x in ReplaceAll(s, [c], "") <==> x in s)
    ensures |ReplaceAll(s, [c], "")| <= |s|
  {
    if |s| > 0 {
      RemoveAllChar(s[1..], c);
      assert s == [s[0]] + s[1..];
    }
  }

  /** A character that does not occur is not replaced. */
  lemma {:induction false} ReplaceAllAbsent(s: string, c: char, repl: string)
    requires c !in s
    ensures ReplaceAll(s, [c], repl) == s
  {
    if |s| > 0 {
      ReplaceAllAbsent(s[1..], c, repl);
      assert s == [s[0]] + s[1..];
    }
  }

  /** The first occurrence of a character is replaced, and the replacing goes on after it. */
  lemma {:induction false} ReplaceAllFirst(a: string, c: char, b: string, repl: string)
    requires c !in a
    ensures ReplaceAll(a + [c] + b, [c], repl) == a + repl + ReplaceAll(b, [c], repl)
  {
    var s := a + [c] + b;
    if |a| == 0 {
      assert s[..1] == [c] && s[1..] == b;
    } else {
      assert s[..1] == [a[0]] && s[1..] == a[1..] + [c] + b;
      ReplaceAllFirst(a[1..], c, b, repl);
      assert a == [a[0]] + a[1..];
    }
  }

  /** `parts.join(sep)`. */
  function Join(parts: seq<string>, sep: string): string
  {
    if |parts| == 0 then ""
    else if |parts| == 1 then parts[0]
    else parts[0] + sep + Join(parts[1..], sep)
  }

  /** `sep` occurs at `k` exactly when the character there is `sep`. */
  lemma OccursAtChar(s: string, sep: char, k: int)
    ensures OccursAt(s, [sep], k) <==> 0 <= k < |s| && s[k] == sep
  {
    if 0 <= k < |s| {
      assert s[k..k + 1] == [s[k]];
    }
  }

  /** `s.split(sep)` for a one-character separator. */
  function Split(s: string, sep: char): (r: seq<string>)
    decreases |s|
    ensures |r| >= 1
    ensures forall k :: 0 <= k < |r| ==> sep !in r[k]
  {
    match IndexOf(s, [sep])
    case None =>
      assert forall k :: 0 <= k < |s| ==> s[k] != sep by {
        forall k | 0 <= k < |s| { OccursAtChar(s, sep, k); }
      }
      [s]
    case Some(i) =>
      OccursAtChar(s, sep, i);
      assert forall k :: 0 <= k < i ==> s[k] != sep by {
        forall k | 0 <= k < i { OccursAtChar(s, sep, k); }
      }
      [s[..i]] + Split(s[i + 1..], sep)
  }

  lemma JoinCons(p: string, ps: seq<string>, sep: string)
    requires |ps| >= 1
    ensures Join([p] + ps, sep) == p + sep + Join(ps, sep)
  {
    assert ([p] + ps)[1..] == ps;
  }

  lemma SplitAt(s: string, sep: char, i: nat)
    requires IndexOf(s, [sep]) == Some(i)
    ensures i < |s| && Split(s, sep) == [s[..i]] + Split(s[i + 1..], sep)
  {
  }

  /** Splitting and re-joining with the same separator gives the original string back. */
  lemma {:induction false} JoinSplit(s: string, sep: char)
    decreases |s|
    ensures Join(Split(s, sep), [sep]) == s
  {
    match IndexOf(s, [sep])
    case None =>
    case Some(i) =>
      SplitAt(s, sep, i);
      var rest := s[i + 1..];
      JoinSplit(rest, sep);
      JoinCons(s[..i], Split(rest, sep), [sep]);
      OccursAtChar(s, sep, i);
      assert s == s[..i] + [sep] + rest;
  }

  /** The first occurrence of a one-character pattern is the first position holding that character. */
  lemma IndexOfChar(s: string, c: char, i: nat)
    requires i < |s| && s[i] == c
    requires forall j :: 0 <= j < i ==> s[j] != c
    ensures IndexOf(s, [c]) == Some(i)
  {
    OccursAtChar(s, c, i);
    forall j | 0 <= j < i ensures !OccursAt(s, [c], j) {
      OccursAtChar(s, c, j);
    }
  }

  /** Joining parts that do not contain the separator and splitting again gives the parts back. */
  lemma {:induction false} SplitJoin(parts: seq<string>, sep: char)
    requires |parts| >= 1
    requires forall i :: 0 <= i < |parts| ==> sep !in parts[i]
    ensures Split(Join(parts, [sep]), sep) == parts
  {
    var s := Join(parts, [sep]);
    if |parts| == 1 {
      forall k | OccursAt(s, [sep], k) ensures false {
        OccursAtChar(s, sep, k);
      }
    } else {
      var p0 := parts[0];
      var rest := Join(parts[1..], [sep]);
      JoinCons(p0, parts[1..], [sep]);
      assert parts == [p0] + parts[1..];
      IndexOfChar(s, sep, |p0|);
      assert s[..|p0|] == p0;
      assert s[|p0| + 1..] == rest;
      SplitJoin(parts[1..], sep);
    }
  }

  function DigitChar(d: nat): char
    requires d < 10
  {
    "0123456789"[d]
  }

  /** The decimal text of a natural number, as `String(n)` gives it. */
  function NatToString(n: nat): (r: string)
    ensures |r| >= 1
    ensures forall k :: 0 <= k < |r| ==> '0' <= r[k] <= '9'
    ensures n < 10 <==> |r| == 1
  {
    if n < 10 then [DigitChar(n)] else NatToString(n / 10) + [DigitChar(n % 10)]
  }

  function IntToString(n: int): string
  {
    if n < 0 then "-" + NatToString(-n) else NatToString(n)
  }

  lemma DigitCharInjective(a: nat, b: nat)
    requires a < 10 && b < 10 && DigitChar(a) == DigitChar(b)
    ensures a == b
  {
  }

  lemma NatToStringSplit(n: nat)
    requires n >= 10
    ensures NatToString(n) == NatToString(n / 10) + [DigitChar(n % 10)]
  {
  }

  /** Decimal text determines the number. */
  lemma {:induction false} NatToStringInjective(a: nat, b: nat)
    requires NatToString(a) == NatToString(b)
    ensures a == b
  {
    if a >= 10 && b >= 10 {
      var sa := NatToString(a);
      NatToStringSplit(a);
      NatToStringSplit(b);
      assert sa[..|sa| - 1] == NatToString(a / 10) == NatToString(b / 10);
      assert DigitChar(a % 10) == sa[|sa| - 1] == DigitChar(b % 10);
      DigitCharInjective(a % 10, b % 10);
      NatToStringInjective(a / 10, b / 10);
    } else {
      assert a < 10 && b < 10;
      DigitCharInjective(a, b);
    }
  }

  /** The regular-expression class `\w`: ASCII letters, digits and underscore. */
  predicate IsWordChar(c: char)
  {
    ('a' <= c <= 'z') || ('A' <= c <= 'Z') || ('0' <= c <= '9') || c == '_'
  }

  /** The length of the longest prefix of `s` made of `\w` characters. */
  function LeadingWordChars(s: string): (n: nat)
    ensures n <= |s|
    ensures forall k :: 0 <= k < n ==> IsWordChar(s[k])
    ensures n < |s| ==> !IsWordChar(s[n])
  {
    if |s| == 0 || !IsWordChar(s[0]) then 0 else 1 + LeadingWordChars(s[1..])
  }

  /** The word-character prefix is exactly `n` long when `n` word characters are followed by another character. */
  lemma {:induction false} LeadingWordCharsExact(s: string, n: nat)
    requires n < |s| && !IsWordChar(s[n])
    requires forall k :: 0 <= k < n ==> IsWordChar(s[k])
    ensures LeadingWordChars(s) == n
  {
    if n > 0 {
      LeadingWordCharsExact(s[1..], n - 1);
    }
  }
}
