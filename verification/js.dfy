/** The few JavaScript value notions the finance tracker relies on:
    optional values, the truthiness of a parsed JSON field,
    `String.prototype.trim`, and `Array.prototype.join` / splitting on one character. */
module Js {

  datatype Option<+T> = None | Some(value: T)

  /** A property read off a parsed JSON value, as `x.field` sees it.
      `Present` holds an array; every JS array, the empty one included, is truthy. */
  datatype Field<+T> = Missing | Falsy | Present(value: T) {
    predicate Truthy() { Present? }

    /** `x.field || fallback` */
    function Or(fallback: T): (r: T)
      ensures Truthy() ==> r == value
      ensures !Truthy() ==> r == fallback
    {
      if Present? then value else fallback
    }
  }

  /** A JS string is truthy exactly when it is non-empty. */
  predicate StrTruthy(s: string) { s != "" }

  /** An optional string property is truthy when present and non-empty. */
  predicate OptTruthy(o: Option<string>) { o.Some? && StrTruthy(o.value) }

  /** ECMAScript WhiteSpace and LineTerminator code points: what `trim` removes. */
  predicate IsWhiteSpace(c: char) {
    var n := c as int;
    n == 0x09 || n == 0x0A || n == 0x0B || n == 0x0C || n == 0x0D || n == 0x20 ||
    n == 0xA0 || n == 0x1680 || (0x2000 <= n <= 0x200A) || n == 0x2028 || n == 0x2029 ||
    n == 0x202F || n == 0x205F || n == 0x3000 || n == 0xFEFF
  }

  predicate AllWhiteSpace(s: string) {
    forall i :: 0 <= i < |s| ==> IsWhiteSpace(s[i])
  }

  /** The index of the first non-white-space character at or after `from`, or `|s|`. */
  function SkipStart(s: string, from: nat): (i: nat)
    requires from <= |s|
    ensures from <= i <= |s|
    ensures forall k :: from <= k < i ==> IsWhiteSpace(s[k])
    ensures i < |s| ==> !IsWhiteSpace(s[i])
    decreases |s| - from
  {
    if from == |s| || !IsWhiteSpace(s[from]) then from else SkipStart(s, from + 1)
  }

  /** The end of `s` once trailing white space is dropped, not going below `lo`. */
  function SkipEnd(s: string, lo: nat, hi: nat): (j: nat)
    requires lo <= hi <= |s|
    ensures lo <= j <= hi
    ensures forall k :: j <= k < hi ==> IsWhiteSpace(s[k])
    ensures j > lo ==> !IsWhiteSpace(s[j - 1])
    decreases hi
  {
    if hi == lo || !IsWhiteSpace(s[hi - 1]) then hi else SkipEnd(s, lo, hi - 1)
  }

  /** `String.prototype.trim`: the infix left once white space is removed from both ends. */
  function Trim(s: string): (r: string)
    ensures |r| <= |s|
    ensures exists i :: 0 <= i <= |s| - |r| && r == s[i..i + |r|]
                        && AllWhiteSpace(s[..i]) && AllWhiteSpace(s[i + |r|..])
    ensures r != "" ==> !IsWhiteSpace(r[0]) && !IsWhiteSpace(r[|r| - 1])
    ensures r == "" <==> AllWhiteSpace(s)
  {
    var i := SkipStart(s, 0);
    var j := SkipEnd(s, i, |s|);
    TrimEnds(s, i, j);
    s[i..j]
  }

  /** What the two scans leave around and at the ends of `s[i..j]`. */
  lemma TrimEnds(s: string, i: nat, j: nat)
    requires i == SkipStart(s, 0) && j == SkipEnd(s, i, |s|)
    ensures AllWhiteSpace(s[..i]) && AllWhiteSpace(s[j..])
    ensures i < j ==> !IsWhiteSpace(s[i..j][0]) && !IsWhiteSpace(s[i..j][j - i - 1])
    ensures i == j <==> AllWhiteSpace(s)
  {
    assert forall k :: 0 <= k < i ==> s[..i][k] == s[k];
    assert forall k :: 0 <= k < |s| - j ==> s[j..][k] == s[j + k];
    if i < j {
      assert s[i..j][0] == s[i] && s[i..j][j - i - 1] == s[j - 1];
      assert !IsWhiteSpace(s[i]);
    } else {
      assert forall k :: 0 <= k < |s| ==> IsWhiteSpace(s[k]);
    }
  }

  lemma {:induction false} TrimIdempotent(s: string)
    ensures Trim(Trim(s)) == Trim(s)
  {
    var r := Trim(s);
    if r != "" {
      // r has no white space at either end, so nothing more is removed
      assert SkipStart(r, 0) == 0;
      assert SkipEnd(r, 0, |r|) == |r|;
      assert r[0..|r|] == r;
    }
  }

  /** `parts.join(sep)` for a one-character separator. */
  function Join(parts: seq<string>, sep: char): (r: string)
    ensures |parts| == 1 ==> r == parts[0]
    ensures parts == [] ==> r == ""
    decreases |parts|
  {
    if |parts| == 0 then ""
    else if |parts| == 1 then parts[0]
    else parts[0] + [sep] + Join(parts[1..], sep)
  }

  /** Splitting at every occurrence of `sep` (`s.split(sep)`): the reference reading of a join. */
  function Split(s: string, sep: char): (r: seq<string>)
    ensures |r| >= 1
    ensures forall k :: 0 <= k < |r| ==> sep !in r[k]
    decreases |s|
  {
    var j := FirstIndex(s, sep);
    if j == |s| then [s] else [s[..j]] + Split(s[j + 1..], sep)
  }

  /** The index of the first `sep` in `s`, or `|s|` when there is none. */
  function FirstIndex(s: string, sep: char): (j: nat)
    ensures j <= |s|
    ensures sep !in s[..j]
    ensures j < |s| ==> s[j] == sep
  {
    if s == [] || s[0] == sep then 0
    else
      var j := 1 + FirstIndex(s[1..], sep);
      assert s[..j] == [s[0]] + s[1..][..j - 1];
      j
  }

  predicate NoneContains(parts: seq<string>, sep: char) {
    forall k :: 0 <= k < |parts| ==> sep !in parts[k]
  }

  /** A join holds no character other than the separator that its parts do not hold. */
  lemma {:induction false} JoinAvoids(parts: seq<string>, sep: char, c: char)
    requires c != sep && NoneContains(parts, c)
    ensures c !in Join(parts, sep)
    decreases |parts|
  {
    if |parts| > 1 {
      JoinAvoids(parts[1..], sep, c);
    }
  }

  lemma {:induction false} FirstIndexOf(a: string, sep: char, b: string)
    requires sep !in a
    ensures FirstIndex(a + b, sep) == |a| + FirstIndex(b, sep)
    decreases |a|
  {
    if a != [] {
      assert (a + b)[0] == a[0] && a[0] in a;
      assert (a + b)[1..] == a[1..] + b;
      FirstIndexOf(a[1..], sep, b);
    } else {
      assert a + b == b;
    }
  }

  /** The first piece of a split join is the first part, when that part holds no separator. */
  lemma SplitFirst(parts: seq<string>, sep: char)
    requires |parts| >= 1 && sep !in parts[0]
    ensures Split(Join(parts, sep), sep)[0] == parts[0]
  {
    if |parts| == 1 {
      FirstIndexOf(parts[0], sep, []);
      assert parts[0] + [] == parts[0];
    } else {
      var rest := Join(parts[1..], sep);
      var s := parts[0] + ([sep] + rest);
      assert Join(parts, sep) == s;
      FirstIndexOf(parts[0], sep, [sep] + rest);
      assert s[..|parts[0]|] == parts[0];
    }
  }

  /** Splitting a join gives the parts back exactly when no part contains the separator. */
  lemma {:induction false} SplitJoin(parts: seq<string>, sep: char)
    requires |parts| >= 1
    ensures Split(Join(parts, sep), sep) == parts <==> NoneContains(parts, sep)
    decreases |parts|
  {
    if NoneContains(parts, sep) {
      SplitJoinInverse(parts, sep);
    } else {
      var k :| 0 <= k < |parts| && sep in parts[k];
      var r := Split(Join(parts, sep), sep);
      assert !(|r| == |parts| && r[k] == parts[k]);
    }
  }

  lemma {:induction false} SplitJoinInverse(parts: seq<string>, sep: char)
    requires |parts| >= 1
    requires NoneContains(parts, sep)
    ensures Split(Join(parts, sep), sep) == parts
    decreases |parts|
  {
    if |parts| == 1 {
      FirstIndexOf(parts[0], sep, []);
      assert parts[0] + [] == parts[0];
    } else {
      SplitStep(parts[0], sep, Join(parts[1..], sep));
      SplitJoinInverse(parts[1..], sep);
      assert parts == [parts[0]] + parts[1..];
    }
  }

  /** A separator-free piece followed by the separator splits off as the first piece. */
  lemma SplitStep(a: string, sep: char, rest: string)
    requires sep !in a
    ensures Split(a + [sep] + rest, sep) == [a] + Split(rest, sep)
  {
    var s := a + [sep] + rest;
    assert s == a + ([sep] + rest);
    FirstIndexOf(a, sep, [sep] + rest);
    assert s[..|a|] == a;
    assert s[|a| + 1..] == rest;
  }
}
