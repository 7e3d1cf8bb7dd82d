/** Facts about sequences that every stage of the pipeline needs. */
module Collections {

  ghost predicate Distinct<T>(s: seq<T>) {
    forall i, j :: 0 <= i < j < |s| ==> s[i] != s[j]
  }

  ghost function Elements<T>(s: seq<T>): set<T> {
    set x | x in s
  }

  lemma ConcatAssoc<T>(a: seq<T>, b: seq<T>, c: seq<T>)
    ensures a + (b + c) == (a + b) + c
  {
  }

  lemma PrefixSnoc<T>(s: seq<T>, n: nat)
    requires n < |s|
    ensures s[..n + 1] == s[..n] + [s[n]]
  {
  }

  lemma SliceSnoc<T>(s: seq<T>, lo: nat, hi: nat)
    requires lo <= hi < |s|
    ensures s[lo..hi + 1] == s[lo..hi] + [s[hi]]
  {
  }

  function Flatten<T>(ss: seq<seq<T>>): seq<T> {
    if ss == [] then [] else ss[0] + Flatten(ss[1..])
  }

  lemma {:induction false} FlattenConcat<T>(ss: seq<seq<T>>, tt: seq<seq<T>>)
    ensures Flatten(ss + tt) == Flatten(ss) + Flatten(tt)
  {
    if ss == [] {
      assert ss + tt == tt;
    } else {
      assert (ss + tt)[1..] == ss[1..] + tt;
      FlattenConcat(ss[1..], tt);
    }
  }

  lemma FlattenSnoc<T>(ss: seq<seq<T>>, s: seq<T>)
    ensures Flatten(ss + [s]) == Flatten(ss) + s
  {
    FlattenConcat(ss, [s]);
    assert [s][1..] == [];
    assert Flatten([s]) == s;
  }

  /** The piece at index i occupies a contiguous stretch of the flattened sequence. */
  lemma {:induction false} FlattenAt<T>(ss: seq<seq<T>>, i: nat)
    requires i < |ss|
    ensures Flatten(ss) == Flatten(ss[..i]) + ss[i] + Flatten(ss[i + 1..])
  {
    FlattenConcat(ss[..i], ss[i..]);
    assert ss == ss[..i] + ss[i..];
    assert ss[i..][1..] == ss[i + 1..];
  }

  lemma {:induction false} FlattenMembers<T>(ss: seq<seq<T>>, x: T)
    ensures x in Flatten(ss) <==> exists i :: 0 <= i < |ss| && x in ss[i]
  {
    if ss == [] {
    } else {
      FlattenMembers(ss[1..], x);
      if x in ss[0] {
      } else if x in Flatten(ss[1..]) {
        var i :| 0 <= i < |ss[1..]| && x in ss[1..][i];
        assert x in ss[i + 1];
      } else {
        forall i | 0 <= i < |ss|
          ensures x !in ss[i]
        {
          assert i > 0 ==> ss[i] == ss[1..][i - 1];
        }
      }
    }
  }

  lemma DistinctParts<T>(a: seq<T>, b: seq<T>)
    requires Distinct(a + b)
    ensures Distinct(a) && Distinct(b)
    ensures forall x :: x in a ==> x !in b
  {
    forall i, j | 0 <= i < j < |a|
      ensures a[i] != a[j]
    {
      assert (a + b)[i] == a[i] && (a + b)[j] == a[j];
    }
    forall i, j | 0 <= i < j < |b|
      ensures b[i] != b[j]
    {
      assert (a + b)[|a| + i] == b[i] && (a + b)[|a| + j] == b[j];
    }
    forall i, j | 0 <= i < |a| && 0 <= j < |b|
      ensures a[i] != b[j]
    {
      assert (a + b)[i] == a[i] && (a + b)[|a| + j] == b[j];
    }
  }

  lemma DistinctConcat<T>(a: seq<T>, b: seq<T>)
    requires Distinct(a) && Distinct(b) && forall x :: x in a ==> x !in b
    ensures Distinct(a + b)
  {
    forall i, j | 0 <= i < j < |a + b|
      ensures (a + b)[i] != (a + b)[j]
    {
      if i < |a| <= j {
        assert a[i] in a && b[j - |a|] in b;
      }
    }
  }

  lemma DistinctSnoc<T>(s: seq<T>, x: T)
    requires Distinct(s) && x !in s
    ensures Distinct(s + [x])
  {
    DistinctConcat(s, [x]);
  }

  /** A sequence without repetition has as many elements as positions. */
  lemma {:induction false} DistinctCardinality<T>(s: seq<T>)
    requires Distinct(s)
    ensures |Elements(s)| == |s|
  {
    if s == [] {
    } else {
      var last := s[|s| - 1];
      DistinctCardinality(s[..|s| - 1]);
      assert Elements(s) == Elements(s[..|s| - 1]) + {last};
    }
  }

  lemma {:induction false} SubsetCardinality<T>(a: set<T>, b: set<T>)
    requires a <= b
    ensures |a| <= |b|
    ensures |a| == |b| ==> a == b
  {
    assert b == a + (b - a);
    assert |b| == |a| + |b - a|;
    if |a| == |b| {
      assert b - a == {};
    }
  }

  /** A repetition-free sequence drawn from a set is no longer than the set. */
  lemma PigeonHole<T>(s: seq<T>, pool: set<T>)
    requires Distinct(s)
    requires forall x :: x in s ==> x in pool
    ensures |s| <= |pool|
  {
    DistinctCardinality(s);
    SubsetCardinality(Elements(s), pool);
  }

  /** The naturals below n, as a set. */
  function Below(n: nat): (r: set<nat>)
    ensures |r| == n
    ensures forall i :: i in r <==> 0 <= i < n
  {
    if n == 0 then {} else Below(n - 1) + {n - 1}
  }

  lemma MultisetMembers<T>(a: seq<T>, b: seq<T>)
    requires multiset(a) == multiset(b)
    ensures forall x :: x in a <==> x in b
  {
    forall x
      ensures x in a <==> x in b
    {
      assert x in a <==> x in multiset(a);
      assert x in b <==> x in multiset(b);
    }
  }

  lemma {:induction false} DistinctByCount<T>(s: seq<T>)
    ensures Distinct(s) <==> forall x :: multiset(s)[x] <= 1
  {
    if s == [] {
    } else {
      var last, init := s[|s| - 1], s[..|s| - 1];
      assert s == init + [last];
      assert multiset(s) == multiset(init) + multiset{last};
      DistinctByCount(init);
      if Distinct(s) {
        assert last !in init;
        assert last !in multiset(init);
      }
      if forall x :: multiset(s)[x] <= 1 {
        forall x
          ensures multiset(init)[x] <= 1
        {
          assert multiset(s)[x] <= 1;
        }
        assert multiset(s)[last] <= 1;
        assert last !in multiset(init);
      }
    }
  }

  lemma DistinctPermutation<T>(a: seq<T>, b: seq<T>)
    requires multiset(a) == multiset(b) && Distinct(a)
    ensures Distinct(b)
  {
    DistinctByCount(a);
    DistinctByCount(b);
  }
}
