/**
 * `Enumerable.FirstOrDefault(source, predicate)` over a list of references:
 * the first element that satisfies the predicate, or null when none does.
 */
module Linq {
  import opened Wrappers

  /** `i` is the position of the first element of `s` satisfying `p`. */
  ghost predicate IsFirstMatch<T>(s: seq<T>, p: T -> bool, i: int)
  {
    0 <= i < |s| && p(s[i]) && forall j :: 0 <= j < i ==> !p(s[j])
  }

  function FirstOrDefault<T>(s: seq<T>, p: T -> bool): (r: Option<T>)
    ensures r.None? <==> forall j :: 0 <= j < |s| ==> !p(s[j])
    ensures r.Some? ==> exists i :: IsFirstMatch(s, p, i) && s[i] == r.value
    ensures r.Some? ==> r.value in s
  {
    if s == [] then None
    else if p(s[0]) then
      assert IsFirstMatch(s, p, 0);
      Some(s[0])
    else
      var r := FirstOrDefault(s[1..], p);
      assert r.Some? ==> exists i :: IsFirstMatch(s, p, i) && s[i] == r.value by {
        if r.Some? {
          var i :| IsFirstMatch(s[1..], p, i) && s[1..][i] == r.value;
          assert IsFirstMatch(s, p, i + 1);
        }
      }
      r
  }

  /** The element found is determined by its position: it is the element at the first match. */
  lemma FirstOrDefaultAt<T>(s: seq<T>, p: T -> bool, i: int)
    requires IsFirstMatch(s, p, i)
    ensures FirstOrDefault(s, p) == Some(s[i])
  {
    var r := FirstOrDefault(s, p);
    var k :| IsFirstMatch(s, p, k) && s[k] == r.value;
    assert !(k < i) && !(i < k);
  }

  /** Two predicates that agree on every element of `s` select the same element. */
  lemma {:induction false} FirstOrDefaultCongruence<T>(s: seq<T>, p: T -> bool, q: T -> bool)
    requires forall j :: 0 <= j < |s| ==> p(s[j]) == q(s[j])
    ensures FirstOrDefault(s, p) == FirstOrDefault(s, q)
  {
    if s != [] {
      FirstOrDefaultCongruence(s[1..], p, q);
    }
  }
}
