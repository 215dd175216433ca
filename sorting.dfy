/** `Array.prototype.sort` with a comparator, as a stable insertion sort
    that moves an element left only past elements comparing above it. An
    engine's sort agrees with it when the comparator is consistent in sign
    (`cmp(a, b) < 0` exactly when `cmp(b, a) > 0`) as well as a total
    preorder. Version comparison is; the package.json-first comparator is only
    while at most one file is a package.json. */
module Sorting {

  /** The comparator behaves: `a` before `b` (`cmp(a, b) <= 0`) is total and
      transitive. */
  ghost predicate TotalPreorder<T(!new)>(cmp: (T, T) -> int) {
    && (forall a, b :: cmp(a, b) <= 0 || cmp(b, a) <= 0)
    && (forall a, b, c :: cmp(a, b) <= 0 && cmp(b, c) <= 0 ==> cmp(a, c) <= 0)
  }

  ghost predicate SortedBy<T>(s: seq<T>, cmp: (T, T) -> int) {
    forall i, j :: 0 <= i < j < |s| ==> cmp(s[i], s[j]) <= 0
  }

  /** Places `x` after the last element that does not compare above it. */
  function Insert<T>(sorted: seq<T>, x: T, cmp: (T, T) -> int): (r: seq<T>)
    ensures multiset(r) == multiset(sorted) + multiset{x}
    ensures |r| == |sorted| + 1
  {
    if sorted == [] then [x]
    else
      var last := sorted[|sorted| - 1];
      var front := sorted[..|sorted| - 1];
      assert sorted == front + [last];
      if cmp(last, x) <= 0 then sorted + [x]
      else Insert(front, x, cmp) + [last]
  }

  function Sort<T>(s: seq<T>, cmp: (T, T) -> int): (r: seq<T>)
    ensures multiset(r) == multiset(s)
    ensures |r| == |s|
  {
    if s == [] then []
    else
      var front := s[..|s| - 1];
      assert s == front + [s[|s| - 1]];
      assert multiset(s) == multiset(front) + multiset{s[|s| - 1]};
      Insert(Sort(front, cmp), s[|s| - 1], cmp)
  }

  lemma {:induction false} InsertSorted<T(!new)>(sorted: seq<T>, x: T, cmp: (T, T) -> int)
    requires TotalPreorder(cmp)
    requires SortedBy(sorted, cmp)
    ensures SortedBy(Insert(sorted, x, cmp), cmp)
  {
    if sorted != [] {
      var last := sorted[|sorted| - 1];
      var front := sorted[..|sorted| - 1];
      if cmp(last, x) <= 0 {
        AppendAboveLast(sorted, x, cmp);
      } else {
        InsertSorted(front, x, cmp);
        InsertBelowLast(sorted, x, cmp);
      }
    }
  }

  /** Appending an element that does not compare below the last one. */
  lemma AppendAboveLast<T(!new)>(sorted: seq<T>, x: T, cmp: (T, T) -> int)
    requires TotalPreorder(cmp)
    requires SortedBy(sorted, cmp)
    requires sorted != [] && cmp(sorted[|sorted| - 1], x) <= 0
    ensures SortedBy(sorted + [x], cmp)
  {
    var r := sorted + [x];
    forall i, j | 0 <= i < j < |r| ensures cmp(r[i], r[j]) <= 0 {
      if j == |sorted| && i < |sorted| - 1 {
        assert cmp(sorted[i], sorted[|sorted| - 1]) <= 0;
      }
    }
  }

  /** Inserting into the front keeps the last element last. */
  lemma InsertBelowLast<T(!new)>(sorted: seq<T>, x: T, cmp: (T, T) -> int)
    requires TotalPreorder(cmp)
    requires SortedBy(sorted, cmp)
    requires sorted != [] && !(cmp(sorted[|sorted| - 1], x) <= 0)
    requires SortedBy(Insert(sorted[..|sorted| - 1], x, cmp), cmp)
    ensures SortedBy(Insert(sorted[..|sorted| - 1], x, cmp) + [sorted[|sorted| - 1]], cmp)
  {
    var last := sorted[|sorted| - 1];
    var front := sorted[..|sorted| - 1];
    var ins := Insert(front, x, cmp);
    var r := ins + [last];
    assert cmp(x, last) <= 0;
    forall y | y in multiset(ins) ensures cmp(y, last) <= 0 {
      assert y in multiset(front) + multiset{x};
      if y != x {
        assert y in front;
        var i :| 0 <= i < |front| && front[i] == y;
        assert sorted[i] == y;
      }
    }
    forall i, j | 0 <= i < j < |r| ensures cmp(r[i], r[j]) <= 0 {
      if j == |ins| {
        assert r[i] in multiset(ins);
      }
    }
  }

  lemma {:induction false} SortSorted<T(!new)>(s: seq<T>, cmp: (T, T) -> int)
    requires TotalPreorder(cmp)
    ensures SortedBy(Sort(s, cmp), cmp)
  {
    if s != [] {
      SortSorted(s[..|s| - 1], cmp);
      InsertSorted(Sort(s[..|s| - 1], cmp), s[|s| - 1], cmp);
    }
  }

  /** A comparator that only puts the elements satisfying `p` first. */
  ghost predicate PutsFirst<T(!new)>(cmp: (T, T) -> int, p: T -> bool) {
    forall a, b :: cmp(a, b) == (if p(a) then -1 else if p(b) then 1 else 0)
  }

  /** The elements satisfying `p`, in order. */
  function Filter<T>(s: seq<T>, p: T -> bool): (r: seq<T>)
    ensures forall i :: 0 <= i < |r| ==> p(r[i])
  {
    if s == [] then []
    else
      var front := Filter(s[..|s| - 1], p);
      if p(s[|s| - 1]) then front + [s[|s| - 1]] else front
  }

  /** The elements not satisfying `p`, in order. */
  function FilterOut<T>(s: seq<T>, p: T -> bool): (r: seq<T>)
    ensures forall i :: 0 <= i < |r| ==> !p(r[i])
  {
    if s == [] then []
    else
      var front := FilterOut(s[..|s| - 1], p);
      if p(s[|s| - 1]) then front else front + [s[|s| - 1]]
  }

  lemma InsertIntoPartition<T(!new)>(pos: seq<T>, neg: seq<T>, x: T, cmp: (T, T) -> int, p: T -> bool)
    requires PutsFirst(cmp, p)
    requires forall i :: 0 <= i < |pos| ==> p(pos[i])
    requires forall i :: 0 <= i < |neg| ==> !p(neg[i])
    ensures Insert(pos + neg, x, cmp) == if p(x) then pos + [x] + neg else pos + neg + [x]
  {
    if p(x) {
      InsertBeforeNegatives(pos, neg, x, cmp, p);
    } else {
      InsertNegativeLast(pos + neg, x, cmp, p);
    }
  }

  /** An element failing `p` never moves past anything: it goes last. */
  lemma InsertNegativeLast<T(!new)>(s: seq<T>, x: T, cmp: (T, T) -> int, p: T -> bool)
    requires PutsFirst(cmp, p) && !p(x)
    ensures Insert(s, x, cmp) == s + [x]
  {
    if s != [] {
      assert cmp(s[|s| - 1], x) <= 0;
    }
  }

  /** An element satisfying `p` moves past every element failing it and
      stops after the last one satisfying it. */
  lemma {:induction false} InsertBeforeNegatives<T(!new)>(pos: seq<T>, neg: seq<T>, x: T, cmp: (T, T) -> int, p: T -> bool)
    requires PutsFirst(cmp, p) && p(x)
    requires forall i :: 0 <= i < |pos| ==> p(pos[i])
    requires forall i :: 0 <= i < |neg| ==> !p(neg[i])
    ensures Insert(pos + neg, x, cmp) == pos + [x] + neg
    decreases |neg|
  {
    var s := pos + neg;
    if neg == [] {
      assert s == pos;
      assert pos + [x] + neg == s + [x];
      if s != [] {
        assert p(s[|s| - 1]);
      }
    } else {
      var last := neg[|neg| - 1];
      var front := neg[..|neg| - 1];
      assert Insert(s, x, cmp) == Insert(pos + front, x, cmp) + [last] by {
        assert s[|s| - 1] == last && !p(last);
        assert s[..|s| - 1] == pos + front;
        assert cmp(last, x) == 1;
      }
      assert forall i :: 0 <= i < |front| ==> !p(front[i]) by {
        forall i | 0 <= i < |front|
          ensures !p(front[i])
        {
          assert front[i] == neg[i];
        }
      }
      InsertBeforeNegatives(pos, front, x, cmp, p);
      assert pos + [x] + front + [last] == pos + [x] + neg;
    }
  }

  /** With such a comparator the sort is a stable partition. */
  lemma {:induction false} SortIsStablePartition<T(!new)>(s: seq<T>, cmp: (T, T) -> int, p: T -> bool)
    requires PutsFirst(cmp, p)
    ensures Sort(s, cmp) == Filter(s, p) + FilterOut(s, p)
  {
    if s != [] {
      var front := s[..|s| - 1];
      var x := s[|s| - 1];
      SortIsStablePartition(front, cmp, p);
      assert Sort(s, cmp) == Insert(Filter(front, p) + FilterOut(front, p), x, cmp);
      InsertIntoPartition(Filter(front, p), FilterOut(front, p), x, cmp, p);
    }
  }

  /** Filtering distributes over concatenation. */
  lemma {:induction false} FilterConcat<T>(a: seq<T>, b: seq<T>, p: T -> bool)
    ensures Filter(a + b, p) == Filter(a, p) + Filter(b, p)
    decreases |b|
  {
    if b == [] {
      assert a + b == a;
    } else {
      assert (a + b)[..|a + b| - 1] == a + b[..|b| - 1];
      FilterConcat(a, b[..|b| - 1], p);
    }
  }

  /** An element survives the filter exactly when it occurs and satisfies `p`. */
  lemma {:induction false} FilterMembers<T>(s: seq<T>, p: T -> bool, x: T)
    ensures x in Filter(s, p) <==> x in s && p(x)
  {
    if s != [] {
      var front, last := s[..|s| - 1], s[|s| - 1];
      FilterMembers(front, p, x);
      assert s == front + [last];
      assert x in s <==> x in front || x == last;
    }
  }

  lemma {:induction false} FilterNone<T>(s: seq<T>, p: T -> bool)
    requires forall i :: 0 <= i < |s| ==> !p(s[i])
    ensures Filter(s, p) == [] && FilterOut(s, p) == s
  {
    if s != [] {
      FilterNone(s[..|s| - 1], p);
      assert s == s[..|s| - 1] + [s[|s| - 1]];
    }
  }

  lemma {:induction false} FilterOne<T>(s: seq<T>, p: T -> bool, k: nat)
    requires k < |s| && p(s[k])
    requires forall i :: 0 <= i < |s| && i != k ==> !p(s[i])
    ensures Filter(s, p) == [s[k]]
    ensures FilterOut(s, p) == s[..k] + s[k + 1..]
  {
    var n := |s| - 1;
    var front := s[..n];
    if k == n {
      FilterNone(front, p);
      assert front + [] == front;
    } else {
      FilterOne(front, p, k);
      assert front[..k] == s[..k];
      assert front[k + 1..] == s[k + 1..n];
      assert s[k + 1..] == s[k + 1..n] + [s[n]];
    }
  }
}
