/**
  * The array operations the modelled code relies on: Array.prototype.filter,
  * Array.prototype.sort with a comparator (stable since ES2019; modelled as a
  * stable insertion sort), Array.prototype.slice and Array.prototype.splice
  * (insertion form).
  */
module Collections {

  /** `s.filter(p)`: the elements satisfying p, in their original order. */
  function Filter<T>(s: seq<T>, p: T -> bool): (r: seq<T>)
    ensures |r| <= |s|
    ensures forall i :: 0 <= i < |r| ==> r[i] in s && p(r[i])
    ensures forall i :: 0 <= i < |s| && p(s[i]) ==> s[i] in r
    ensures multiset(r) <= multiset(s)
  {
    if s == [] then []
    else
      assert s == [s[0]] + s[1..];
      (if p(s[0]) then [s[0]] else []) + Filter(s[1..], p)
  }

  /** Filtering keeps the length exactly when every element passes. */
  lemma FilterKeepsAllIff<T>(s: seq<T>, p: T -> bool)
    ensures |Filter(s, p)| == |s| <==> forall i :: 0 <= i < |s| ==> p(s[i])
    ensures (forall i :: 0 <= i < |s| ==> p(s[i])) ==> Filter(s, p) == s
  {
    if forall i :: 0 <= i < |s| ==> p(s[i]) {
      FilterAllPass(s, p);
    } else {
      var i :| 0 <= i < |s| && !p(s[i]);
      FilterDropsFailing(s, p, i);
    }
  }

  /** When every element passes, the filter returns the sequence itself. */
  lemma {:induction false} FilterAllPass<T>(s: seq<T>, p: T -> bool)
    requires forall i :: 0 <= i < |s| ==> p(s[i])
    ensures Filter(s, p) == s
  {
    if s != [] {
      var rest := s[1..];
      assert forall i :: 0 <= i < |rest| ==> p(rest[i]) by {
        forall i | 0 <= i < |rest|
          ensures p(rest[i])
        {
          assert rest[i] == s[i + 1];
        }
      }
      FilterAllPass(rest, p);
      assert s == [s[0]] + rest;
    }
  }

  /** An element that fails makes the filtered sequence strictly shorter. */
  lemma {:induction false} FilterDropsFailing<T>(s: seq<T>, p: T -> bool, i: nat)
    requires i < |s| && !p(s[i])
    ensures |Filter(s, p)| < |s|
  {
    if i > 0 {
      assert s[1..][i - 1] == s[i];
      FilterDropsFailing(s[1..], p, i - 1);
    }
  }

  /** An element is kept exactly when it is present and passes. */
  lemma FilterMembership<T>(s: seq<T>, p: T -> bool, x: T)
    ensures x in Filter(s, p) <==> x in s && p(x)
  {
    if x in s && p(x) {
      var k :| 0 <= k < |s| && s[k] == x;
    }
  }

  /** One step of the filter. */
  lemma FilterCons<T>(s: seq<T>, p: T -> bool)
    requires s != []
    ensures Filter(s, p) == (if p(s[0]) then [s[0]] else []) + Filter(s[1..], p)
  {
  }

  /** Filtering distributes over concatenation. */
  lemma {:induction false} FilterAppend<T>(a: seq<T>, b: seq<T>, p: T -> bool)
    ensures Filter(a + b, p) == Filter(a, p) + Filter(b, p)
  {
    if a == [] {
      assert a + b == b;
    } else {
      assert (a + b)[0] == a[0];
      assert (a + b)[1..] == a[1..] + b;
      FilterAppend(a[1..], b, p);
    }
  }

  /** A comparator that JavaScript's sort can rely on: cmp(b, a) is -cmp(a, b) and "<= 0" is transitive. */
  ghost predicate ConsistentComparator<T(!new)>(cmp: (T, T) -> int) {
    && (forall a, b :: cmp(b, a) == -cmp(a, b))
    && (forall a, b, c :: cmp(a, b) <= 0 && cmp(b, c) <= 0 ==> cmp(a, c) <= 0)
  }

  /** s is in the order the comparator asks for. */
  ghost predicate SortedBy<T>(s: seq<T>, cmp: (T, T) -> int) {
    forall i, j :: 0 <= i < j < |s| ==> cmp(s[i], s[j]) <= 0
  }

  /** Insert x after every element that does not compare greater than it. */
  function Insert<T>(x: T, s: seq<T>, cmp: (T, T) -> int): (r: seq<T>)
    ensures multiset(r) == multiset(s) + multiset{x}
    ensures |r| == |s| + 1
    ensures forall k :: 0 <= k < |r| ==> r[k] == x || r[k] in s
  {
    if s == [] then [x]
    else if cmp(x, s[0]) < 0 then [x] + s
    else
      assert s == [s[0]] + s[1..];
      [s[0]] + Insert(x, s[1..], cmp)
  }

  /** `s.sort(cmp)` on a copy: a stable sort, each element inserted after its equals. */
  function Sort<T>(s: seq<T>, cmp: (T, T) -> int): (r: seq<T>)
    ensures multiset(r) == multiset(s)
    ensures |r| == |s|
  {
    if s == [] then []
    else
      assert s == s[..|s| - 1] + [s[|s| - 1]];
      Insert(s[|s| - 1], Sort(s[..|s| - 1], cmp), cmp)
  }

  lemma {:induction false} InsertSorted<T(!new)>(x: T, s: seq<T>, cmp: (T, T) -> int)
    requires ConsistentComparator(cmp)
    requires SortedBy(s, cmp)
    ensures SortedBy(Insert(x, s, cmp), cmp)
  {
    if s == [] {
    } else if cmp(x, s[0]) >= 0 {
      InsertSorted(x, s[1..], cmp);
      var r := Insert(x, s[1..], cmp);
      forall k | 0 <= k < |r|
        ensures cmp(s[0], r[k]) <= 0
      {
        if r[k] != x {
          var j :| 0 <= j < |s[1..]| && s[1..][j] == r[k];
          assert s[j + 1] == r[k];
        }
      }
      ConsSorted(s[0], r, cmp);
    } else {
      forall k | 0 <= k < |s|
        ensures cmp(x, s[k]) <= 0
      {
        if k > 0 {
          assert cmp(s[0], s[k]) <= 0;
        }
      }
      ConsSorted(x, s, cmp);
    }
  }

  /** An element that precedes everything in a sorted sequence can go in front of it. */
  lemma ConsSorted<T>(h: T, r: seq<T>, cmp: (T, T) -> int)
    requires SortedBy(r, cmp)
    requires forall k :: 0 <= k < |r| ==> cmp(h, r[k]) <= 0
    ensures SortedBy([h] + r, cmp)
  {
    var out := [h] + r;
    forall i, j | 0 <= i < j < |out|
      ensures cmp(out[i], out[j]) <= 0
    {
      assert out[j] == r[j - 1];
      if i > 0 {
        assert out[i] == r[i - 1];
      }
    }
  }

  /** The sort returns the elements in comparator order, as a permutation of its input. */
  lemma {:induction false} SortSorted<T(!new)>(s: seq<T>, cmp: (T, T) -> int)
    requires ConsistentComparator(cmp)
    ensures SortedBy(Sort(s, cmp), cmp)
  {
    if s != [] {
      SortSorted(s[..|s| - 1], cmp);
      InsertSorted(s[|s| - 1], Sort(s[..|s| - 1], cmp), cmp);
    }
  }

  /** With a comparator that calls everything equal, the stable sort keeps the order. */
  lemma {:induction false} SortAllEqualKeepsOrder<T>(s: seq<T>, cmp: (T, T) -> int)
    requires forall a, b :: cmp(a, b) == 0
    ensures Sort(s, cmp) == s
  {
    if s != [] {
      SortAllEqualKeepsOrder(s[..|s| - 1], cmp);
      InsertAllEqualAppends(s[|s| - 1], s[..|s| - 1], cmp);
      assert s[..|s| - 1] + [s[|s| - 1]] == s;
    }
  }

  lemma {:induction false} InsertAllEqualAppends<T>(x: T, s: seq<T>, cmp: (T, T) -> int)
    requires forall a, b :: cmp(a, b) == 0
    ensures Insert(x, s, cmp) == s + [x]
  {
    if s != [] {
      InsertAllEqualAppends(x, s[1..], cmp);
      assert s == [s[0]] + s[1..];
    }
  }

  /**
    * `s.slice(start, end)`: negative bounds count from the end, bounds are
    * clamped to [0, |s|], and an empty range gives [].
    */
  function Slice<T>(s: seq<T>, start: int, end: int): (r: seq<T>)
    ensures |r| <= |s|
    ensures forall k :: 0 <= k < |r| ==> r[k] in s
    ensures 0 <= start <= end ==>
      r == s[Clamp(start, |s|)..Clamp(end, |s|)] && |r| <= end - start
  {
    var from, to := SliceIndex(start, |s|), SliceIndex(end, |s|);
    if from < to then s[from..to] else []
  }

  /** A slice of a sorted sequence is sorted. */
  lemma SliceSorted<T>(s: seq<T>, start: int, end: int, cmp: (T, T) -> int)
    requires SortedBy(s, cmp)
    ensures SortedBy(Slice(s, start, end), cmp)
  {
    var from, to := SliceIndex(start, |s|), SliceIndex(end, |s|);
    if from < to {
      assert forall a :: 0 <= a < to - from ==> s[from..to][a] == s[from + a];
    }
  }

  /** How slice reads one bound for a sequence of length len. */
  function SliceIndex(k: int, len: nat): (r: nat)
    ensures r <= len
  {
    if k < 0 then (if len + k < 0 then 0 else len + k) else Clamp(k, len)
  }

  function Clamp(k: nat, len: nat): (r: nat)
    ensures r <= len && r <= k
  {
    if k < len then k else len
  }

  /**
    * `s.splice(start, 0, x)`: x inserted at start, a negative start counted
    * from the end, the position clamped to [0, |s|].
    */
  function SpliceInsert<T>(s: seq<T>, start: int, x: T): (r: seq<T>)
    ensures |r| == |s| + 1
    ensures var k := SliceIndex(start, |s|);
      r[k] == x && r[..k] == s[..k] && r[k + 1..] == s[k..]
  {
    var k := SliceIndex(start, |s|);
    s[..k] + [x] + s[k..]
  }

  /** The 'asc' | 'desc' direction of a sort. */
  datatype SortDirection = Asc | Desc

  /** `Math.ceil(n / d)` for a count n and a positive divisor d. */
  function CeilDiv(n: nat, d: nat): (q: nat)
    requires d >= 1
    ensures q * d >= n
    ensures q == 0 || (q - 1) * d < n
    ensures q == 0 <==> n == 0
  {
    var q := (n + d - 1) / d;
    var rem := (n + d - 1) % d;
    assert n + d - 1 == q * d + rem;
    q
  }

  /** Elements of s at distinct positions are distinct. */
  predicate Distinct<T(==)>(s: seq<T>) {
    forall i, j :: 0 <= i < j < |s| ==> s[i] != s[j]
  }

  /** Multiplying by the same factor keeps the order. */
  lemma MulMonotone(a: nat, b: nat, c: nat)
    requires a <= b
    ensures a * c <= b * c
  {
  }
}
