/** Python's `sorted(..., key=...)`: sorted by key, and stable. */
module StableSorting {

  ghost predicate Sorted<T>(key: T -> int, s: seq<T>) {
    forall i, j :: 0 <= i < j < |s| ==> key(s[i]) <= key(s[j])
  }

  /** The elements of `s` whose key is exactly `k`, in order. */
  function WithKey<T>(key: T -> int, k: int, s: seq<T>): seq<T> {
    if s == [] then []
    else if key(s[0]) == k then [s[0]] + WithKey(key, k, s[1..])
    else WithKey(key, k, s[1..])
  }

  /** `r` rearranges `s` stably: elements with equal keys keep their relative order. */
  ghost predicate StablyRearranges<T(!new)>(key: T -> int, r: seq<T>, s: seq<T>) {
    forall k :: WithKey(key, k, r) == WithKey(key, k, s)
  }

  /** Inserts `x` behind every element whose key is not larger. */
  function Insert<T>(key: T -> int, s: seq<T>, x: T): seq<T> {
    if s == [] || key(s[|s| - 1]) <= key(x) then s + [x]
    else Insert(key, s[..|s| - 1], x) + [s[|s| - 1]]
  }

  function StableSort<T>(key: T -> int, s: seq<T>): seq<T> {
    if s == [] then [] else Insert(key, StableSort(key, s[..|s| - 1]), s[|s| - 1])
  }

  lemma {:induction false} WithKeyConcat<T>(key: T -> int, k: int, a: seq<T>, b: seq<T>)
    ensures WithKey(key, k, a + b) == WithKey(key, k, a) + WithKey(key, k, b)
  {
    if a == [] {
      assert a + b == b;
    } else {
      assert (a + b)[1..] == a[1..] + b;
      WithKeyConcat(key, k, a[1..], b);
    }
  }

  lemma {:induction false} InsertContents<T>(key: T -> int, s: seq<T>, x: T)
    ensures multiset(Insert(key, s, x)) == multiset(s) + multiset{x}
    ensures |Insert(key, s, x)| == |s| + 1
  {
    if s == [] || key(s[|s| - 1]) <= key(x) {
    } else {
      assert s == s[..|s| - 1] + [s[|s| - 1]];
      InsertContents(key, s[..|s| - 1], x);
    }
  }

  lemma InsertMember<T>(key: T -> int, s: seq<T>, x: T, y: T)
    requires y in Insert(key, s, x)
    ensures y == x || y in s
  {
    InsertContents(key, s, x);
    assert y in multiset(Insert(key, s, x));
  }

  lemma {:induction false} InsertSorted<T>(key: T -> int, s: seq<T>, x: T)
    requires Sorted(key, s)
    ensures Sorted(key, Insert(key, s, x))
  {
    if s == [] || key(s[|s| - 1]) <= key(x) {
    } else {
      var init, last := s[..|s| - 1], s[|s| - 1];
      InsertSorted(key, init, x);
      var r := Insert(key, init, x);
      forall i | 0 <= i < |r|
        ensures key(r[i]) <= key(last)
      {
        InsertMember(key, init, x, r[i]);
      }
    }
  }

  lemma {:induction false} InsertStable<T>(key: T -> int, k: int, s: seq<T>, x: T)
    ensures Sorted(key, s) ==> WithKey(key, k, Insert(key, s, x)) == WithKey(key, k, s + [x])
  {
    if s == [] || key(s[|s| - 1]) <= key(x) {
    } else {
      var init, last := s[..|s| - 1], s[|s| - 1];
      InsertStable(key, k, init, x);
      assert s == init + [last];
      WithKeyConcat(key, k, Insert(key, init, x), [last]);
      WithKeyConcat(key, k, init, [x]);
      WithKeyConcat(key, k, init, [last]);
      WithKeyConcat(key, k, s, [x]);
    }
  }

  lemma {:induction false} StableSortSpec<T(!new)>(key: T -> int, s: seq<T>)
    ensures Sorted(key, StableSort(key, s))
    ensures multiset(StableSort(key, s)) == multiset(s)
    ensures StablyRearranges(key, StableSort(key, s), s)
    ensures |StableSort(key, s)| == |s|
  {
    if s == [] {
    } else {
      var init, last := s[..|s| - 1], s[|s| - 1];
      assert s == init + [last];
      StableSortSpec(key, init);
      InsertContents(key, StableSort(key, init), last);
      InsertSorted(key, StableSort(key, init), last);
      forall k
        ensures WithKey(key, k, StableSort(key, s)) == WithKey(key, k, s)
      {
        InsertStable(key, k, StableSort(key, init), last);
        WithKeyConcat(key, k, StableSort(key, init), [last]);
        WithKeyConcat(key, k, init, [last]);
      }
    }
  }

  lemma {:induction false} WithKeyMembers<T>(key: T -> int, k: int, s: seq<T>, x: T)
    ensures x in WithKey(key, k, s) <==> x in s && key(x) == k
  {
    if s == [] {
    } else {
      WithKeyMembers(key, k, s[1..], x);
      assert s == [s[0]] + s[1..];
    }
  }

  lemma SmallestFirst<T(!new)>(key: T -> int, a: seq<T>, b: seq<T>)
    requires a != [] && b != []
    requires Sorted(key, a) && StablyRearranges(key, b, a)
    ensures key(a[0]) <= key(b[0])
  {
    WithKeyMembers(key, key(b[0]), b, b[0]);
    WithKeyMembers(key, key(b[0]), a, b[0]);
    var j :| 0 <= j < |a| && a[j] == b[0];
    assert j == 0 || key(a[0]) <= key(a[j]);
  }

  /** There is only one sorted, stable rearrangement, so the choice of sorting algorithm is immaterial. */
  lemma {:induction false} StableSortUnique<T(!new)>(key: T -> int, a: seq<T>, b: seq<T>)
    requires Sorted(key, a) && Sorted(key, b) && StablyRearranges(key, a, b)
    ensures a == b
  {
    if a == [] || b == [] {
      if a != [] {
        WithKeyMembers(key, key(a[0]), a, a[0]);
        WithKeyMembers(key, key(a[0]), b, a[0]);
      }
      if b != [] {
        WithKeyMembers(key, key(b[0]), b, b[0]);
        WithKeyMembers(key, key(b[0]), a, b[0]);
      }
    } else {
      SmallestFirst(key, a, b);
      SmallestFirst(key, b, a);
      var k0 := key(a[0]);
      assert WithKey(key, k0, a)[0] == a[0] && WithKey(key, k0, b)[0] == b[0];
      forall k
        ensures WithKey(key, k, a[1..]) == WithKey(key, k, b[1..])
      {
        assert WithKey(key, k, a) == WithKey(key, k, b);
        assert WithKey(key, k, a)[if k == k0 then 1 else 0..] == WithKey(key, k, a[1..]);
        assert WithKey(key, k, b)[if k == k0 then 1 else 0..] == WithKey(key, k, b[1..]);
      }
      StableSortUnique(key, a[1..], b[1..]);
      assert a == [a[0]] + a[1..] && b == [b[0]] + b[1..];
    }
  }

  /** Sorting a sequence that is already sorted changes nothing. */
  lemma SortedIsFixpoint<T(!new)>(key: T -> int, s: seq<T>)
    requires Sorted(key, s)
    ensures StableSort(key, s) == s
  {
    StableSortSpec(key, s);
    StableSortUnique(key, StableSort(key, s), s);
  }
}
