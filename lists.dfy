// Lists: the List<T> operations the models share, on sequences compared
// by element equality.
module Lists {
  /** List.Remove: drops the first occurrence, if any. */
  function RemoveFirst<T(==)>(s: seq<T>, x: T): (r: seq<T>)
    ensures x !in s ==> r == s
    ensures x in s ==> |r| == |s| - 1
  {
    if s == [] then []
    else if s[0] == x then s[1..]
    else [s[0]] + RemoveFirst(s[1..], x)
  }

  /** Removing takes away exactly one occurrence. */
  lemma {:induction false} RemoveFirstCount<T>(s: seq<T>, x: T)
    ensures multiset(RemoveFirst(s, x)) == multiset(s) - multiset{x}
  {
    if s != [] {
      assert s == [s[0]] + s[1..];
      if s[0] != x {
        RemoveFirstCount(s[1..], x);
      }
    }
  }

  lemma {:induction false} RemoveFirstIn<T>(s: seq<T>, x: T)
    ensures forall y :: y in RemoveFirst(s, x) ==> y in s
  {
    if s != [] && s[0] != x {
      RemoveFirstIn(s[1..], x);
    }
  }

  predicate Unique<T(==)>(s: seq<T>)
  {
    forall a, b :: 0 <= a < b < |s| ==> s[a] != s[b]
  }

  /** In a list without repeats, removing `x` removes it entirely and keeps the rest. */
  lemma RemoveUnique<T>(s: seq<T>, x: T)
    requires Unique(s)
    ensures Unique(RemoveFirst(s, x))
    ensures forall y :: y in RemoveFirst(s, x) <==> y in s && y != x
  {
    var r := RemoveFirst(s, x);
    RemoveFirstCount(s, x);
    RemoveFirstIn(s, x);
    forall y
      ensures y in r <==> y in s && y != x
    {
      assert y in r <==> multiset(r)[y] > 0;
      assert y in s <==> multiset(s)[y] > 0;
      if x in s && y == x {
        assert multiset(s)[x] == 1 by {
          var k :| 0 <= k < |s| && s[k] == x;
          UniqueCount(s, k);
        }
      }
    }
    forall a, b | 0 <= a < b < |r|
      ensures r[a] != r[b]
    {
      assert r[a] in r;
      var k :| 0 <= k < |s| && s[k] == r[a];
      UniqueCount(s, k);
      if r[a] == r[b] {
        DoubleCount(r, a, b);
      }
    }
  }

  lemma {:induction false} UniqueCount<T>(s: seq<T>, k: nat)
    requires Unique(s) && k < |s|
    ensures multiset(s)[s[k]] == 1
  {
    if |s| > 0 {
      assert s == [s[0]] + s[1..];
      if k == 0 {
        assert s[0] !in s[1..];
      } else {
        UniqueCount(s[1..], k - 1);
      }
    }
  }

  lemma {:induction false} DoubleCount<T>(s: seq<T>, a: nat, b: nat)
    requires a < b < |s| && s[a] == s[b]
    ensures multiset(s)[s[a]] >= 2
  {
    assert s == s[..a] + [s[a]] + s[a + 1..b] + [s[b]] + s[b + 1..];
  }

  lemma {:induction false} RemoveLast<T>(s: seq<T>, x: T)
    requires x !in s
    ensures RemoveFirst(s + [x], x) == s
  {
    if s != [] {
      assert (s + [x])[1..] == s[1..] + [x];
      RemoveLast(s[1..], x);
    }
  }
}
