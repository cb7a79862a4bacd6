/**
 * Value types and sequence helpers shared by the server and the client
 * models: optional values, results of operations that may throw, the
 * JavaScript string and array operations the catalog code relies on
 * (`startsWith`, `filter`, `Number.prototype.toString`).
 */
module Common {

  datatype Option<T> = None | Some(value: T)

  /** The outcome of an operation that the source lets throw. */
  datatype Result<T> = Ok(value: T) | Err(message: string)

  /** `s.startsWith(prefix)` on strings. */
  predicate StartsWith(s: string, prefix: string) {
    |prefix| <= |s| && s[..|prefix|] == prefix
  }

  // ---------------------------------------------------------------------
  // Array.prototype.filter

  /** The elements of `s` that pass `keep`, in their original order. */
  function Filter<T(==,!new)>(s: seq<T>, keep: T -> bool): (r: seq<T>)
    ensures |r| <= |s|
    ensures forall x :: x in r <==> x in s && keep(x)
  {
    if s == [] then []
    else
      assert s == [s[0]] + s[1..];
      (if keep(s[0]) then [s[0]] else []) + Filter(s[1..], keep)
  }

  /** Filtering keeps every occurrence of a kept value and drops every occurrence of the others. */
  lemma {:induction false} FilterCounts<T(!new)>(s: seq<T>, keep: T -> bool, x: T)
    ensures multiset(Filter(s, keep))[x] == if keep(x) then multiset(s)[x] else 0
  {
    if s != [] {
      assert s == [s[0]] + s[1..];
      FilterCounts(s[1..], keep, x);
    }
  }

  /** `a` is what remains of `b` after deleting some of its elements. */
  predicate IsSubsequence<T(==)>(a: seq<T>, b: seq<T>)
    decreases |b|
  {
    a == [] ||
    (b != [] &&
     ((a[0] == b[0] && IsSubsequence(a[1..], b[1..])) || IsSubsequence(a, b[1..])))
  }

  lemma {:induction false} SubsequenceLength<T>(a: seq<T>, b: seq<T>)
    requires IsSubsequence(a, b)
    ensures |a| <= |b|
    decreases |b|
  {
    if a != [] {
      if a[0] == b[0] && IsSubsequence(a[1..], b[1..]) {
        SubsequenceLength(a[1..], b[1..]);
      } else {
        SubsequenceLength(a, b[1..]);
      }
    }
  }

  lemma {:induction false} SubsequenceReflexive<T>(s: seq<T>)
    ensures IsSubsequence(s, s)
    decreases |s|
  {
    if s != [] {
      SubsequenceReflexive(s[1..]);
    }
  }

  /** Filtering keeps the relative order of what it keeps. */
  lemma {:induction false} FilterIsSubsequence<T(!new)>(s: seq<T>, keep: T -> bool)
    ensures IsSubsequence(Filter(s, keep), s)
  {
    if s != [] {
      FilterIsSubsequence(s[1..], keep);
      var rest := Filter(s[1..], keep);
      if keep(s[0]) {
        assert Filter(s, keep) == [s[0]] + rest;
        assert Filter(s, keep)[1..] == rest;
      } else {
        assert Filter(s, keep) == rest;
      }
    }
  }

  /** A filter that every element passes returns its input. */
  lemma {:induction false} FilterKeepsAll<T(!new)>(s: seq<T>, keep: T -> bool)
    requires forall x :: x in s ==> keep(x)
    ensures Filter(s, keep) == s
  {
    if s != [] {
      FilterKeepsAll(s[1..], keep);
      assert s == [s[0]] + s[1..];
    }
  }

  // ---------------------------------------------------------------------
  // Number.prototype.toString for the millisecond clock

  function DigitChar(d: nat): (c: char)
    requires d < 10
    ensures '0' <= c <= '9'
  {
    (48 + d) as char
  }

  /** `n.toString()` for a non-negative integer: its decimal digits. */
  function DecimalString(n: nat): (r: string)
    ensures |r| >= 1
    ensures forall i :: 0 <= i < |r| ==> '0' <= r[i] <= '9'
    decreases n
  {
    (if n < 10 then "" else DecimalString(n / 10)) + [DigitChar(n % 10)]
  }

  /** The value of a string of decimal digits (`parseInt(s, 10)` on such strings). */
  function DecimalValue(s: string): nat
    requires forall i :: 0 <= i < |s| ==> '0' <= s[i] <= '9'
  {
    if s == [] then 0
    else DecimalValue(s[..|s| - 1]) * 10 + (s[|s| - 1] as int - 48)
  }

  /** Reading back the digits of a clock value gives that value. */
  lemma {:induction false} DecimalRoundTrip(n: nat)
    ensures DecimalValue(DecimalString(n)) == n
    decreases n
  {
    var s := DecimalString(n);
    var pre := if n < 10 then "" else DecimalString(n / 10);
    assert s == pre + [DigitChar(n % 10)];
    assert s[..|s| - 1] == pre;
    if n >= 10 {
      DecimalRoundTrip(n / 10);
    }
  }

  /** Distinct clock values give distinct decimal strings. */
  lemma DecimalStringInjective(a: nat, b: nat)
    requires DecimalString(a) == DecimalString(b)
    ensures a == b
  {
    DecimalRoundTrip(a);
    DecimalRoundTrip(b);
  }

  /** A string of the form `digits + "_" + rest` determines its digits:
      they are everything before its first `_`. */
  lemma DigitPrefixDetermined(s: string, d1: string, r1: string, d2: string, r2: string)
    requires forall i :: 0 <= i < |d1| ==> '0' <= d1[i] <= '9'
    requires forall i :: 0 <= i < |d2| ==> '0' <= d2[i] <= '9'
    requires s == d1 + "_" + r1
    requires s == d2 + "_" + r2
    ensures d1 == d2
  {
    assert s[|d1|] == '_';
    assert s[|d2|] == '_';
    assert |d1| == |d2|;
    assert d1 == s[..|d1|];
  }

  /** A clock value followed by `_` and anything is read back unambiguously. */
  lemma DecimalPrefixInjective(a: nat, b: nat, r1: string, r2: string)
    requires DecimalString(a) + "_" + r1 == DecimalString(b) + "_" + r2
    ensures a == b
  {
    var da, db := DecimalString(a), DecimalString(b);
    DigitPrefixDetermined(da + "_" + r1, da, r1, db, r2);
    DecimalStringInjective(a, b);
  }
}
