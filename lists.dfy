/**
 * The two java.util.List removals the game relies on, as functions on
 * sequences: `remove(Object)` (the first equal element) and
 * `removeAll(Collection)` (every element the collection contains).
 */
module Lists {
  /** No element occurs twice: the rosters hold each object once. */
  predicate Distinct<T(==)>(s: seq<T>)
  {
    forall i, j :: 0 <= i < j < |s| ==> s[i] != s[j]
  }

  /** List.remove(Object): drops the first occurrence of x, if any. */
  function RemoveFirst<T(==)>(s: seq<T>, x: T): seq<T>
  {
    if s == [] then []
    else if s[0] == x then s[1..]
    else [s[0]] + RemoveFirst(s[1..], x)
  }

  /** The first position holding x. */
  function FirstIndex<T(==)>(s: seq<T>, x: T): (i: nat)
    requires x in s
    ensures i < |s| && s[i] == x && x !in s[..i]
  {
    if s[0] == x then 0 else 1 + FirstIndex(s[1..], x)
  }

  /**
   * RemoveFirst leaves the list alone when x is absent, and otherwise cuts out
   * exactly the first position holding x.
   */
  lemma {:induction false} RemoveFirstCutsFirstOccurrence<T>(s: seq<T>, x: T)
    ensures x !in s ==> RemoveFirst(s, x) == s
    ensures x in s ==> RemoveFirst(s, x) == s[..FirstIndex(s, x)] + s[FirstIndex(s, x) + 1..]
  {
    if s != [] {
      RemoveFirstCutsFirstOccurrence(s[1..], x);
      assert s == [s[0]] + s[1..];
      if s[0] != x {
        assert RemoveFirst(s, x) == [s[0]] + RemoveFirst(s[1..], x);
        if x in s {
          assert x in s[1..];
          var i := FirstIndex(s[1..], x);
          assert FirstIndex(s, x) == i + 1;
          assert s[..i + 1] == [s[0]] + s[1..][..i];
          assert s[i + 2..] == s[1..][i + 1..];
        }
      }
    }
  }

  /** RemoveFirst takes one copy of x out of the multiset of elements, and nothing else. */
  lemma {:induction false} RemoveFirstMultiset<T>(s: seq<T>, x: T)
    ensures multiset(RemoveFirst(s, x)) == multiset(s) - multiset{x}
  {
    if s != [] {
      RemoveFirstMultiset(s[1..], x);
      assert s == [s[0]] + s[1..];
      assert multiset(s) == multiset{s[0]} + multiset(s[1..]);
      if s[0] != x {
        assert RemoveFirst(s, x) == [s[0]] + RemoveFirst(s[1..], x);
        assert multiset(RemoveFirst(s, x)) == multiset{s[0]} + multiset(RemoveFirst(s[1..], x));
      }
    }
  }

  /** List.removeAll: keeps, in order, the elements that `gone` does not contain. */
  function RemoveAll<T(==)>(s: seq<T>, gone: seq<T>): seq<T>
  {
    if s == [] then []
    else (if s[0] in gone then [] else [s[0]]) + RemoveAll(s[1..], gone)
  }

  /** What RemoveAll keeps is exactly the elements of s outside `gone`. */
  lemma {:induction false} RemoveAllMembers<T>(s: seq<T>, gone: seq<T>)
    ensures forall y :: y in RemoveAll(s, gone) <==> y in s && y !in gone
  {
    if s != [] {
      RemoveAllMembers(s[1..], gone);
      assert s == [s[0]] + s[1..];
    }
  }

  /** t is s with some elements left out and the rest in their original order. */
  predicate SubsequenceOf<T(==)>(t: seq<T>, s: seq<T>)
    decreases |s|
  {
    if t == [] then true
    else if s == [] then false
    else (t[0] == s[0] && SubsequenceOf(t[1..], s[1..])) || SubsequenceOf(t, s[1..])
  }

  /** RemoveAll keeps the order of what it keeps. */
  lemma {:induction false} RemoveAllKeepsOrder<T>(s: seq<T>, gone: seq<T>)
    ensures SubsequenceOf(RemoveAll(s, gone), s)
  {
    if s != [] {
      RemoveAllKeepsOrder(s[1..], gone);
      var rest := RemoveAll(s[1..], gone);
      var t := RemoveAll(s, gone);
      if s[0] !in gone {
        assert t == [s[0]] + rest;
        assert t[0] == s[0] && t[1..] == rest;
      } else {
        assert t == rest;
      }
    }
  }

  /** RemoveAll of a list without repeats has no repeats. */
  lemma {:induction false} RemoveAllKeepsDistinct<T>(s: seq<T>, gone: seq<T>)
    requires Distinct(s)
    ensures Distinct(RemoveAll(s, gone))
  {
    if s != [] {
      RemoveAllKeepsDistinct(s[1..], gone);
      RemoveAllMembers(s[1..], gone);
      var rest := RemoveAll(s[1..], gone);
      assert s[0] !in s[1..];
      assert s[0] !in rest;
      if s[0] !in gone {
        var t := [s[0]] + rest;
        assert forall i, j :: 0 <= i < j < |t| ==> t[i] != t[j] by {
          forall i, j | 0 <= i < j < |t| ensures t[i] != t[j] {
            if i == 0 { assert t[j] in rest; }
            else { assert t[i] == rest[i - 1] && t[j] == rest[j - 1]; }
          }
        }
      }
    }
  }
}
