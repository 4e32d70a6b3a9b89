/** Sequences of times in order. */
module Ordered {
  import opened Common

  predicate Sorted(s: seq<int>) {
    forall i, j :: 0 <= i < j < |s| ==> s[i] <= s[j]
  }

  predicate UpTo(s: seq<int>, t: int) {
    forall x :: x in s ==> x <= t
  }

  /** Nothing in a is later than anything in b. */
  predicate Precedes(a: seq<int>, b: seq<int>) {
    forall x, y :: x in a && y in b ==> x <= y
  }

  lemma SortedSnoc(s: seq<int>, t: int)
    requires Sorted(s) && UpTo(s, t)
    ensures Sorted(s + [t]) && UpTo(s + [t], t)
  {
    assert forall i :: 0 <= i < |s| ==> s[i] in s;
  }

  lemma PrecedesSnoc(a: seq<int>, b: seq<int>, t: int)
    requires Precedes(a, b) && UpTo(a, t)
    ensures Precedes(a, b + [t])
  {
  }

  lemma SortedConcat(a: seq<int>, b: seq<int>, t: int)
    requires Sorted(a) && Sorted(b) && UpTo(a, t) && UpTo(b, t) && Precedes(a, b)
    ensures Sorted(a + b) && UpTo(a + b, t)
  {
    forall i, j | 0 <= i < j < |a + b|
      ensures (a + b)[i] <= (a + b)[j]
    {
      if i < |a| <= j {
        assert a[i] in a && b[j - |a|] in b;
      }
    }
  }

  lemma LastIsLargest(s: seq<int>)
    requires Sorted(s) && s != []
    ensures Sorted(Front(s)) && UpTo(s, Last(s))
    ensures multiset(s) == multiset(Front(s)) + multiset{Last(s)}
  {
    assert s == Front(s) + [Last(s)];
  }

  lemma SameLargest(a: seq<int>, b: seq<int>)
    requires a != [] && b != [] && UpTo(a, Last(a)) && UpTo(b, Last(b)) && multiset(a) == multiset(b)
    ensures Last(a) == Last(b)
  {
    assert Last(a) in multiset(a) && Last(b) in multiset(b);
    assert Last(a) in b && Last(b) in a;
  }

  lemma SameWithoutLast(a: seq<int>, b: seq<int>)
    requires Sorted(a) && Sorted(b) && a != [] && b != [] && multiset(a) == multiset(b)
    ensures Last(a) == Last(b) && multiset(Front(a)) == multiset(Front(b))
    ensures Sorted(Front(a)) && Sorted(Front(b))
  {
    LastIsLargest(a);
    LastIsLargest(b);
    SameLargest(a, b);
    var x := multiset{Last(a)};
    assert multiset(Front(a)) == multiset(a) - x;
    assert multiset(Front(b)) == multiset(b) - x;
  }

  lemma NoneLeft(a: seq<int>, b: seq<int>)
    requires multiset(a) == multiset(b)
    ensures a == [] <==> b == []
  {
    assert a != [] ==> a[0] in multiset(a);
    assert b != [] ==> b[0] in multiset(b);
  }

  /** There is only one order to put times in. */
  lemma {:induction false} SortedUnique(a: seq<int>, b: seq<int>)
    requires Sorted(a) && Sorted(b) && multiset(a) == multiset(b)
    ensures a == b
  {
    NoneLeft(a, b);
    if a == [] {
    } else {
      SameWithoutLast(a, b);
      SortedUnique(Front(a), Front(b));
      Rejoined(a);
      Rejoined(b);
    }
  }

  lemma Rejoined(a: seq<int>)
    requires a != []
    ensures a == Front(a) + [Last(a)]
  {
  }
}
