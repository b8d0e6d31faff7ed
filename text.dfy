/**
 * The string operations of the .NET base library that the lock file code
 * relies on: `string.IsNullOrEmpty` and ordinal comparison that ignores case
 * (`StringComparison.OrdinalIgnoreCase`).
 */
module Text {
  import opened Wrappers

  /** A C# `string` that may be null. */
  type NullableString = Option<string>

  /** `string.IsNullOrEmpty`. */
  predicate IsNullOrEmpty(s: NullableString)
  {
    s.None? || s.value == ""
  }

  /**
   * The invariant upper-case mapping of one character. Only the ASCII letters
   * are mapped; every other character maps to itself.
   */
  function UpperInvariant(c: char): (u: char)
    ensures 'a' <= c <= 'z' ==> 'A' <= u <= 'Z'
    ensures !('a' <= c <= 'z') ==> u == c
  {
    if 'a' <= c <= 'z' then (c as int - 'a' as int + 'A' as int) as char else c
  }

  /** The string with every character mapped to upper case. */
  function ToUpperInvariant(s: string): (r: string)
    ensures |r| == |s|
    ensures forall i :: 0 <= i < |s| ==> r[i] == UpperInvariant(s[i])
  {
    seq(|s|, i requires 0 <= i < |s| => UpperInvariant(s[i]))
  }

  /** `string.Equals(a, b, StringComparison.OrdinalIgnoreCase)` on two non-null strings. */
  predicate EqualsIgnoreCase(a: string, b: string)
  {
    ToUpperInvariant(a) == ToUpperInvariant(b)
  }

  /**
   * `string.Equals(a, b, StringComparison.OrdinalIgnoreCase)` where either
   * side may be null: two nulls are equal, a null equals no string.
   */
  predicate NullableEqualsIgnoreCase(a: NullableString, b: NullableString)
  {
    (a.None? && b.None?) || (a.Some? && b.Some? && EqualsIgnoreCase(a.value, b.value))
  }

  /** Ignoring case never makes strings of different lengths equal, so "" matches only "". */
  lemma EqualsIgnoreCaseLength(a: string, b: string)
    requires EqualsIgnoreCase(a, b)
    ensures |a| == |b|
    ensures a == "" <==> b == ""
  {
    assert |ToUpperInvariant(a)| == |a|;
  }

  /** Comparing while ignoring case is an equivalence relation. */
  lemma EqualsIgnoreCaseEquivalence(a: string, b: string, c: string)
    ensures EqualsIgnoreCase(a, a)
    ensures EqualsIgnoreCase(a, b) ==> EqualsIgnoreCase(b, a)
    ensures EqualsIgnoreCase(a, b) && EqualsIgnoreCase(b, c) ==> EqualsIgnoreCase(a, c)
  {
  }

  /** The index of the first occurrence of `c` in `s`, if any. */
  function IndexOf(s: string, c: char): (r: Option<nat>)
    ensures r.None? <==> c !in s
    ensures r.Some? ==> r.value < |s| && s[r.value] == c && c !in s[..r.value]
  {
    if s == [] then None
    else if s[0] == c then Some(0)
    else
      match IndexOf(s[1..], c)
      case None => None
      case Some(k) =>
        assert s[..k + 1] == [s[0]] + s[1..][..k];
        Some(k + 1)
  }

  /** A character that does not occur before the first `c` is found exactly where it was placed. */
  lemma IndexOfAfterPrefix(a: string, c: char, b: string)
    requires c !in a
    ensures IndexOf(a + [c] + b, c) == Some(|a|)
  {
    var s := a + [c] + b;
    assert s[|a|] == c;
    assert s[..|a|] == a;
  }
}
