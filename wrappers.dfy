/** Failure-carrying wrappers used across the model. */
module Wrappers {

  datatype Option<+T> = None | Some(value: T)

  /** A computation that either yields a value or throws (in the JavaScript sense) with a message. */
  datatype Result<+T> = Ok(value: T) | Err(error: string)

  /** A prefix grows by one element at a time. */
  lemma PrefixSnoc<T>(s: seq<T>, i: nat)
    requires i < |s|
    ensures s[..i + 1] == s[..i] + [s[i]]
  {
  }

  /** Appending one element leaves the earlier ones where they were. */
  lemma SnocAt<T>(s: seq<T>, x: T, i: nat)
    requires i <= |s|
    ensures (s + [x])[i] == if i < |s| then s[i] else x
  {
  }

  /** Concatenation regroups freely. */
  lemma ConcatAssoc<T>(a: seq<T>, b: seq<T>, c: seq<T>)
    ensures a + (b + c) == a + b + c
  {
  }

  /** A member of a sequence is found at some index. */
  lemma IndexIn<T>(s: seq<T>, x: T) returns (i: nat)
    requires x in s
    ensures i < |s| && s[i] == x
  {
    i :| 0 <= i < |s| && s[i] == x;
  }

  /** An element in neither part is not in their concatenation. */
  lemma NotInConcat<T>(x: T, a: seq<T>, b: seq<T>)
    requires x !in a && x !in b
    ensures x !in a + b
  {
  }

  /** Adding an element not yet present grows a set by one. */
  lemma AddNew<T>(s: set<T>, x: T)
    requires x !in s
    ensures |s + {x}| == |s| + 1
  {
  }

  /** Taking back an appended element gives the sequence it was appended to. */
  lemma DropLast<T>(s: seq<T>, x: T)
    ensures (s + [x])[..|s|] == s
  {
  }

  /** The index of the last element that satisfies `p`. */
  function LastWhere<T>(s: seq<T>, p: T -> bool): (r: Option<nat>)
    ensures r.Some? ==> r.value < |s|
  {
    if |s| == 0 then None
    else if p(s[|s| - 1]) then Some(|s| - 1)
    else LastWhere(s[..|s| - 1], p)
  }

  /** `LastWhere` finds an element after which none satisfies `p`, and misses only when none does. */
  lemma {:induction false} LastWhereIs<T>(s: seq<T>, p: T -> bool)
    ensures LastWhere(s, p).Some? ==> p(s[LastWhere(s, p).value])
    ensures LastWhere(s, p).Some? ==> forall j :: LastWhere(s, p).value < j < |s| ==> !p(s[j])
    ensures LastWhere(s, p).None? ==> forall j :: 0 <= j < |s| ==> !p(s[j])
  {
    if |s| > 0 && !p(s[|s| - 1]) {
      var n := |s| - 1;
      LastWhereIs(s[..n], p);
      assert forall j :: 0 <= j < n ==> s[..n][j] == s[j];
    }
  }

  /** The last element satisfying `p` is the one after which none does. */
  lemma LastWhereAt<T>(s: seq<T>, p: T -> bool, i: nat)
    requires i < |s| && p(s[i]) && forall j :: i < j < |s| ==> !p(s[j])
    ensures LastWhere(s, p) == Some(i)
  {
    LastWhereIs(s, p);
  }
}
