/** Generic list helpers shared by the analyzer: Python's list comprehension
    `[x for x in s if keep(x)]` and the notion of an order-preserving sublist. */
module Sequences {

  datatype Option<T> = None | Some(value: T) {
    /** Python's `d.get(key, default)` on a key that may be missing. */
    function GetOr(default: T): T {
      match this
      case Some(v) => v
      case None => default
    }
  }

  function Min(a: int, b: int): (m: int)
    ensures m <= a && m <= b
    ensures m == a || m == b
  {
    if a <= b then a else b
  }

  /** `r` can be obtained from `s` by deleting elements, keeping the order of the rest. */
  predicate IsSubsequence<T(==)>(r: seq<T>, s: seq<T>)
    decreases |s|
  {
    r == [] ||
    (s != [] && ((r[0] == s[0] && IsSubsequence(r[1..], s[1..])) || IsSubsequence(r, s[1..])))
  }

  /** The list comprehension `[x for x in s if keep(x)]`. */
  function Filter<T(==,!new)>(s: seq<T>, keep: T -> bool): (r: seq<T>)
    ensures IsSubsequence(r, s)
    ensures forall x :: x in r ==> keep(x)
    ensures forall x :: keep(x) ==> multiset(r)[x] == multiset(s)[x]
  {
    if s == [] then []
    else
      var rest := Filter(s[1..], keep);
      assert s == [s[0]] + s[1..];
      if keep(s[0]) then
        assert ([s[0]] + rest)[1..] == rest;
        [s[0]] + rest
      else
        rest
  }

  /** Deleting elements can only lower multiplicities. */
  lemma {:induction false} SubsequenceMultiset<T>(r: seq<T>, s: seq<T>)
    requires IsSubsequence(r, s)
    ensures multiset(r) <= multiset(s)
    decreases |s|
  {
    if r == [] {
    } else if r[0] == s[0] && IsSubsequence(r[1..], s[1..]) {
      SubsequenceMultiset(r[1..], s[1..]);
      assert r == [r[0]] + r[1..];
      assert s == [s[0]] + s[1..];
    } else {
      SubsequenceMultiset(r, s[1..]);
      assert s == [s[0]] + s[1..];
    }
  }

  /** The three properties stated by Filter's contract determine its result:
      any order-preserving sublist of `s` holding only kept elements, each kept
      element as often as `s` holds it, is exactly `Filter(s, keep)`. */
  lemma {:induction false} FilterUnique<T(!new)>(r: seq<T>, s: seq<T>, keep: T -> bool)
    requires IsSubsequence(r, s)
    requires forall x :: x in r ==> keep(x)
    requires forall x :: keep(x) ==> multiset(r)[x] == multiset(s)[x]
    ensures r == Filter(s, keep)
    decreases |s|
  {
    if s == [] {
    } else {
      var h := s[0];
      assert s == [h] + s[1..];
      if keep(h) {
        assert multiset(r)[h] == multiset(s)[h] >= 1;
        assert r != [];
        if !(r[0] == h && IsSubsequence(r[1..], s[1..])) {
          assert IsSubsequence(r, s[1..]);
          SubsequenceMultiset(r, s[1..]);
          assert false;
        }
        assert r == [h] + r[1..];
        forall x | keep(x)
          ensures multiset(r[1..])[x] == multiset(s[1..])[x]
        {
          assert multiset(r)[x] == multiset([h])[x] + multiset(r[1..])[x];
          assert multiset(s)[x] == multiset([h])[x] + multiset(s[1..])[x];
        }
        FilterUnique(r[1..], s[1..], keep);
      } else {
        assert IsSubsequence(r, s[1..]);
        forall x | keep(x)
          ensures multiset(r)[x] == multiset(s[1..])[x]
        {
          assert multiset(s)[x] == multiset([h])[x] + multiset(s[1..])[x];
        }
        FilterUnique(r, s[1..], keep);
      }
    }
  }
}
