/** What it means to go through a sequence and keep what some of its elements yield. */
module Selections {
  import opened Options
  import opened Collections
  import opened StableSorting

  ghost predicate Increasing(at: seq<nat>) {
    forall i, j :: 0 <= i < j < |at| ==> at[i] < at[j]
  }

  /** Position `at[k]` of `src` yields `out[k]`, and no other position yields anything. */
  ghost predicate YieldsAt<T, U>(f: T -> Option<U>, src: seq<T>, out: seq<U>, at: seq<nat>) {
    |at| == |out|
    && (forall k :: 0 <= k < |at| ==> at[k] < |src| && f(src[at[k]]) == Some(out[k]))
    && forall i: nat :: i < |src| && f(src[i]).Some? ==> i in at
  }

  /** `out` is what the elements of `src` yield, each once and in order. */
  ghost predicate Yields<T, U>(f: T -> Option<U>, src: seq<T>, out: seq<U>, at: seq<nat>) {
    YieldsAt(f, src, out, at) && Increasing(at)
  }

  /** The same in order of a key; where keys are equal, in order of `src`. */
  ghost predicate YieldsByKey<T, U>(key: U -> int, f: T -> Option<U>, src: seq<T>, out: seq<U>, at: seq<nat>) {
    YieldsAt(f, src, out, at)
    && forall i, j :: 0 <= i < j < |out| ==>
      key(out[i]) < key(out[j]) || (key(out[i]) == key(out[j]) && at[i] < at[j])
  }

  lemma YieldsSnoc<T, U>(f: T -> Option<U>, src: seq<T>, out: seq<U>, at: seq<nat>, x: T)
    requires Yields(f, src, out, at)
    ensures f(x) == None ==> Yields(f, src + [x], out, at)
    ensures f(x).Some? ==> Yields(f, src + [x], out + [f(x).value], at + [|src|])
  {
    var more, at' := src + [x], if f(x).Some? then at + [|src|] else at;
    forall i: nat | i < |more| && f(more[i]).Some?
      ensures i in at'
    {
      if i < |src| {
        assert i in at;
      } else {
        assert at'[|at|] == i;
      }
    }
  }

  /** What the last element adds. */
  lemma YieldsLast<T, U>(f: T -> Option<U>, src: seq<T>, out: seq<U>, at: seq<nat>) returns (more: seq<nat>)
    requires src != [] && Yields(f, src[..|src| - 1], out, at)
    ensures var y := f(src[|src| - 1]); Yields(f, src, out + (if y.Some? then [y.value] else []), more)
  {
    var init, last := src[..|src| - 1], src[|src| - 1];
    YieldsSnoc(f, init, out, at, last);
    more := if f(last).Some? then at + [|init|] else at;
    assert init + [last] == src;
    assert f(last) == None ==> out + [] == out;
  }

  // ---- Sorting what was kept ----

  /** `p` says where in `src` the elements of `sorted` stand: by key, and in order of `src` where keys are equal. */
  ghost predicate SortedAt<T>(key: T -> int, src: seq<T>, sorted: seq<T>, p: seq<nat>) {
    |p| == |sorted|
    && (forall k :: 0 <= k < |p| ==> p[k] < |src| && src[p[k]] == sorted[k])
    && forall i, j :: 0 <= i < j < |p| ==> Before(key, sorted[i], p[i], sorted[j], p[j])
  }

  ghost predicate Before<T>(key: T -> int, x: T, i: nat, y: T, j: nat) {
    key(x) < key(y) || (key(x) == key(y) && i < j)
  }

  lemma AppendPosition<T>(key: T -> int, src: seq<T>, s: seq<T>, p: seq<nat>, n: nat)
    requires SortedAt(key, src, s, p) && n < |src| && forall k :: 0 <= k < |p| ==> Before(key, s[k], p[k], src[n], n)
    ensures SortedAt(key, src, s + [src[n]], p + [n])
    ensures Elements(p + [n]) == Elements(p) + {n}
  {
  }

  lemma WithoutLast<T>(key: T -> int, src: seq<T>, s: seq<T>, p: seq<nat>)
    requires SortedAt(key, src, s, p) && s != []
    ensures SortedAt(key, src, s[..|s| - 1], p[..|p| - 1])
    ensures Elements(p) == Elements(p[..|p| - 1]) + {p[|p| - 1]}
  {
    assert p == p[..|p| - 1] + [p[|p| - 1]];
  }

  lemma {:induction false} InsertPosition<T>(key: T -> int, src: seq<T>, s: seq<T>, p: seq<nat>, n: nat)
    returns (q: seq<nat>)
    requires SortedAt(key, src, s, p) && n < |src| && forall k :: 0 <= k < |p| ==> p[k] < n
    ensures SortedAt(key, src, Insert(key, s, src[n]), q)
    ensures Elements(q) == Elements(p) + {n}
    decreases |s|
  {
    var x := src[n];
    if s == [] || key(s[|s| - 1]) <= key(x) {
      q := p + [n];
      forall k | 0 <= k < |p|
        ensures Before(key, s[k], p[k], x, n)
      {
        assert k == |p| - 1 || Before(key, s[k], p[k], s[|s| - 1], p[|p| - 1]);
      }
      AppendPosition(key, src, s, p, n);
    } else {
      var init, m := s[..|s| - 1], p[|p| - 1];
      WithoutLast(key, src, s, p);
      var r := InsertPosition(key, src, init, p[..|p| - 1], n);
      LastStaysLast(key, src, s, p, n, Insert(key, init, x), r);
      AppendPosition(key, src, Insert(key, init, x), r, m);
      q := r + [m];
    }
  }

  /** What was inserted ahead of the last element stands before it. */
  lemma LastStaysLast<T>(key: T -> int, src: seq<T>, s: seq<T>, p: seq<nat>, n: nat, t: seq<T>, r: seq<nat>)
    requires SortedAt(key, src, s, p) && s != [] && n < |src| && key(src[n]) < key(s[|s| - 1])
    requires SortedAt(key, src, t, r) && Elements(r) == Elements(p[..|p| - 1]) + {n}
    ensures forall k :: 0 <= k < |r| ==> Before(key, t[k], r[k], src[p[|p| - 1]], p[|p| - 1])
  {
    forall k | 0 <= k < |r|
      ensures Before(key, t[k], r[k], src[p[|p| - 1]], p[|p| - 1])
    {
      assert r[k] in Elements(r);
      if r[k] != n {
        var l :| 0 <= l < |p| - 1 && p[l] == r[k];
        assert Before(key, s[l], p[l], s[|s| - 1], p[|p| - 1]);
      }
    }
  }

  lemma {:induction false} SortPositionsUpTo<T>(key: T -> int, src: seq<T>, n: nat) returns (p: seq<nat>)
    requires n <= |src|
    ensures SortedAt(key, src, StableSort(key, src[..n]), p)
    ensures forall i :: i in p <==> 0 <= i < n
  {
    if n == 0 {
      p := [];
    } else {
      assert src[..n][..n - 1] == src[..n - 1];
      var q := SortPositionsUpTo(key, src, n - 1);
      forall k | 0 <= k < |q|
        ensures q[k] < n - 1
      {
        assert q[k] in q;
      }
      p := InsertPosition(key, src, StableSort(key, src[..n - 1]), q, n - 1);
      assert forall i :: i in p <==> i in Elements(p);
      assert forall i :: i in q <==> i in Elements(q);
    }
  }

  lemma SortPositions<T>(key: T -> int, src: seq<T>) returns (p: seq<nat>)
    ensures SortedAt(key, src, StableSort(key, src), p)
    ensures forall i :: i in p <==> 0 <= i < |src|
  {
    p := SortPositionsUpTo(key, src, |src|);
    assert src[..|src|] == src;
  }

  /** Keeping in order and then sorting stably is keeping in order of the key. */
  lemma SortedYields<T, U>(key: U -> int, f: T -> Option<U>, src: seq<T>, out: seq<U>, at: seq<nat>)
    returns (bt: seq<nat>)
    requires Yields(f, src, out, at)
    ensures YieldsByKey(key, f, src, StableSort(key, out), bt)
  {
    var sorted := StableSort(key, out);
    var p := SortPositions(key, out);
    bt := seq(|p|, k requires 0 <= k < |p| => at[p[k]]);
    forall k | 0 <= k < |bt|
      ensures bt[k] < |src| && f(src[bt[k]]) == Some(sorted[k])
    {
      assert out[p[k]] == sorted[k];
    }
    forall i: nat | i < |src| && f(src[i]).Some?
      ensures i in bt
    {
      var l :| 0 <= l < |at| && at[l] == i;
      assert l in p;
      var k :| 0 <= k < |p| && p[k] == l;
      assert bt[k] == i;
    }
  }

  // ---- Going through pieces ----

  /** A place in a list of pieces. */
  datatype Place = Place(piece: nat, index: nat)

  ghost predicate Earlier(p: Place, q: Place) {
    p.piece < q.piece || (p.piece == q.piece && p.index < q.index)
  }

  /** `places` lists every element of every piece once, piece by piece and in order. */
  ghost predicate GoesThrough<T>(pieces: seq<seq<T>>, all: seq<T>, places: seq<Place>) {
    |places| == |all|
    && (forall k :: 0 <= k < |all| ==> IsPlaceOf(pieces, places[k], all[k]))
    && (forall p: Place :: p.piece < |pieces| && p.index < |pieces[p.piece]| ==> p in places)
    && forall i, j :: 0 <= i < j < |places| ==> Earlier(places[i], places[j])
  }

  ghost predicate IsPlaceOf<T>(pieces: seq<seq<T>>, p: Place, x: T) {
    p.piece < |pieces| && p.index < |pieces[p.piece]| && pieces[p.piece][p.index] == x
  }

  lemma OnePieceMore<T>(pieces: seq<seq<T>>, all: seq<T>, places: seq<Place>, more: seq<T>)
    requires GoesThrough(pieces, all, places)
    ensures GoesThrough(pieces + [more], all + more,
                        places + seq(|more|, i requires 0 <= i < |more| => Place(|pieces|, i)))
  {
    var added := seq(|more|, i requires 0 <= i < |more| => Place(|pieces|, i));
    var pieces', places' := pieces + [more], places + added;
    forall k | 0 <= k < |all + more|
      ensures IsPlaceOf(pieces', places'[k], (all + more)[k])
    {
      assert k < |all| ==> IsPlaceOf(pieces, places[k], all[k]);
    }
    forall p: Place | p.piece < |pieces'| && p.index < |pieces'[p.piece]|
      ensures p in places'
    {
      if p.piece < |pieces| {
        assert p in places;
      } else {
        assert added[p.index] == p;
      }
    }
    forall i, j | 0 <= i < j < |places'|
      ensures Earlier(places'[i], places'[j])
    {
      assert i < |all| ==> IsPlaceOf(pieces, places[i], all[i]);
    }
  }

  /** Flattening goes through the pieces. */
  lemma {:induction false} FlattenGoesThrough<T>(pieces: seq<seq<T>>) returns (places: seq<Place>)
    ensures GoesThrough(pieces, Flatten(pieces), places)
    decreases |pieces|
  {
    if pieces == [] {
      places := [];
    } else {
      var init, last := pieces[..|pieces| - 1], pieces[|pieces| - 1];
      places := FlattenGoesThrough(init);
      OnePieceMore(init, Flatten(init), places, last);
      FlattenSnoc(init, last);
      assert init + [last] == pieces;
      places := places + seq(|last|, i requires 0 <= i < |last| => Place(|init|, i));
    }
  }
}
