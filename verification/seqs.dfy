/** The Kotlin collection operations the repository queries are built from
    (`filter`, `firstOrNull`, `maxByOrNull`, `minByOrNull`, `sortedBy`,
    `distinct`), as functions over sequences, each with a contract that
    characterises its result independently of how it is computed. */
module Seqs {
  import opened Wrappers

  /** Kotlin `filter`: the elements satisfying `p`, in their original order. */
  function Filter<T>(xs: seq<T>, p: T -> bool): (r: seq<T>)
    ensures |r| <= |xs|
    ensures forall i :: 0 <= i < |r| ==> r[i] in xs && p(r[i])
    ensures forall i :: 0 <= i < |xs| && p(xs[i]) ==> xs[i] in r
  {
    if |xs| == 0 then [] else (if p(xs[0]) then [xs[0]] else []) + Filter(xs[1..], p)
  }

  /** Filtering distributes over concatenation; with the singleton case this
      pins down both the contents and the order of a filtered sequence. */
  lemma {:induction false} FilterAppend<T>(a: seq<T>, b: seq<T>, p: T -> bool)
    ensures Filter(a + b, p) == Filter(a, p) + Filter(b, p)
  {
    if |a| == 0 {
      assert a + b == b;
    } else {
      assert (a + b)[0] == a[0];
      assert (a + b)[1..] == a[1..] + b;
      FilterAppend(a[1..], b, p);
    }
  }

  /** Two successive filters are one filter by the conjunction. */
  lemma {:induction false} FilterFilter<T>(xs: seq<T>, p: T -> bool, q: T -> bool, pq: T -> bool)
    requires forall x :: pq(x) == (p(x) && q(x))
    ensures Filter(Filter(xs, p), q) == Filter(xs, pq)
  {
    if |xs| > 0 {
      var head := if p(xs[0]) then [xs[0]] else [];
      FilterAppend(head, Filter(xs[1..], p), q);
      FilterFilter(xs[1..], p, q, pq);
    }
  }

  /** The index of the first element satisfying `p`, or `|xs|` if none does. */
  function FirstIndex<T>(xs: seq<T>, p: T -> bool): (k: nat)
    ensures k <= |xs|
    ensures k < |xs| ==> p(xs[k])
    ensures forall j :: 0 <= j < k ==> !p(xs[j])
  {
    if |xs| == 0 then 0
    else if p(xs[0]) then 0
    else 1 + FirstIndex(xs[1..], p)
  }

  /** Kotlin `firstOrNull(p)`. */
  function FirstOrNone<T>(xs: seq<T>, p: T -> bool): (r: Option<T>)
    ensures r.None? <==> forall j :: 0 <= j < |xs| ==> !p(xs[j])
    ensures r.Some? ==> r.value in xs && p(r.value)
  {
    var k := FirstIndex(xs, p);
    if k < |xs| then Some(xs[k]) else None
  }

  /** `i` is the first index at which `xs` holds an element satisfying `p`. */
  ghost predicate IsFirstAt<T>(xs: seq<T>, p: T -> bool, i: int) {
    && 0 <= i < |xs|
    && p(xs[i])
    && forall j :: 0 <= j < i ==> !p(xs[j])
  }

  /** `i` holds the first of the elements satisfying `p` whose key is maximal among them. */
  ghost predicate IsFirstMaxAt<T>(xs: seq<T>, p: T -> bool, key: T -> int, i: int) {
    && 0 <= i < |xs|
    && p(xs[i])
    && (forall j :: 0 <= j < |xs| && p(xs[j]) ==> key(xs[j]) <= key(xs[i]))
    && (forall j :: 0 <= j < i && p(xs[j]) ==> key(xs[j]) < key(xs[i]))
  }

  /** `i` holds the first of the elements satisfying `p` whose key is minimal among them. */
  ghost predicate IsFirstMinAt<T>(xs: seq<T>, p: T -> bool, key: T -> int, i: int) {
    && 0 <= i < |xs|
    && p(xs[i])
    && (forall j :: 0 <= j < |xs| && p(xs[j]) ==> key(xs[i]) <= key(xs[j]))
    && (forall j :: 0 <= j < i && p(xs[j]) ==> key(xs[i]) < key(xs[j]))
  }

  /** Filtering and then taking the first match is taking the first element
      that satisfies both conditions. */
  lemma {:induction false} FirstOfFilter<T>(xs: seq<T>, p: T -> bool, q: T -> bool, pq: T -> bool)
    returns (i: int)
    requires forall x :: pq(x) == (p(x) && q(x))
    ensures FirstOrNone(Filter(xs, p), q).None? <==> forall j :: 0 <= j < |xs| ==> !pq(xs[j])
    ensures FirstOrNone(Filter(xs, p), q).Some? ==>
              IsFirstAt(xs, pq, i) && xs[i] == FirstOrNone(Filter(xs, p), q).value
  {
    if |xs| == 0 {
      i := 0;
    } else {
      var rest := Filter(xs[1..], p);
      var i' := FirstOfFilter(xs[1..], p, q, pq);
      if pq(xs[0]) {
        assert Filter(xs, p) == [xs[0]] + rest;
        assert FirstIndex(Filter(xs, p), q) == 0;
        i := 0;
      } else {
        i := i' + 1;
        if p(xs[0]) {
          assert Filter(xs, p) == [xs[0]] + rest;
          assert ([xs[0]] + rest)[1..] == rest;
          assert !q(xs[0]);
        } else {
          assert Filter(xs, p) == [] + rest == rest;
        }
        assert FirstOrNone(Filter(xs, p), q) == FirstOrNone(rest, q);
        if FirstOrNone(rest, q).Some? {
          forall j | 0 <= j < i ensures !pq(xs[j]) {
            if j > 0 {
              assert xs[j] == xs[1..][j - 1];
            }
          }
        } else {
          forall j | 0 <= j < |xs| ensures !pq(xs[j]) {
            if j > 0 {
              assert xs[j] == xs[1..][j - 1];
            }
          }
        }
      }
    }
  }

  /** The index of the first element with the largest key, the element
      Kotlin's `maxByOrNull` keeps (it replaces its candidate only on a
      strictly larger key). */
  function MaxIndex<T>(xs: seq<T>, key: T -> int): (k: nat)
    requires |xs| > 0
    ensures k < |xs|
    ensures forall j :: 0 <= j < |xs| ==> key(xs[j]) <= key(xs[k])
    ensures forall j :: 0 <= j < k ==> key(xs[j]) < key(xs[k])
  {
    if |xs| == 1 then 0
    else
      var k' := 1 + MaxIndex(xs[1..], key);
      if key(xs[0]) < key(xs[k']) then k' else 0
  }

  /** The index of the first element with the smallest key, the element
      Kotlin's `minByOrNull` keeps. */
  function MinIndex<T>(xs: seq<T>, key: T -> int): (k: nat)
    requires |xs| > 0
    ensures k < |xs|
    ensures forall j :: 0 <= j < |xs| ==> key(xs[k]) <= key(xs[j])
    ensures forall j :: 0 <= j < k ==> key(xs[k]) < key(xs[j])
  {
    if |xs| == 1 then 0
    else
      var k' := 1 + MinIndex(xs[1..], key);
      if key(xs[k']) < key(xs[0]) then k' else 0
  }

  /** Kotlin `maxByOrNull(key)`. */
  function MaxByOrNone<T>(xs: seq<T>, key: T -> int): (r: Option<T>)
    ensures r.None? <==> |xs| == 0
    ensures r.Some? ==> r.value in xs && forall j :: 0 <= j < |xs| ==> key(xs[j]) <= key(r.value)
  {
    if |xs| == 0 then None else Some(xs[MaxIndex(xs, key)])
  }

  /** Kotlin `minByOrNull(key)`. */
  function MinByOrNone<T>(xs: seq<T>, key: T -> int): (r: Option<T>)
    ensures r.None? <==> |xs| == 0
    ensures r.Some? ==> r.value in xs && forall j :: 0 <= j < |xs| ==> key(r.value) <= key(xs[j])
  {
    if |xs| == 0 then None else Some(xs[MinIndex(xs, key)])
  }

  /** Filtering and then taking the first maximum picks, in the unfiltered
      sequence, the first maximum among the elements that pass the filter. */
  lemma {:induction false} MaxOfFilter<T>(xs: seq<T>, p: T -> bool, key: T -> int)
    returns (i: int)
    ensures MaxByOrNone(Filter(xs, p), key).None? <==> forall j :: 0 <= j < |xs| ==> !p(xs[j])
    ensures MaxByOrNone(Filter(xs, p), key).Some? ==>
              IsFirstMaxAt(xs, p, key, i) && xs[i] == MaxByOrNone(Filter(xs, p), key).value
  {
    if |xs| == 0 {
      i := 0;
      return;
    }
    var rest := Filter(xs[1..], p);
    var i' := MaxOfFilter(xs[1..], p, key);
    if !p(xs[0]) {
      assert Filter(xs, p) == [] + rest == rest;
      i := i' + 1;
      if |rest| > 0 {
        ShiftFirstMax(xs, p, key, i');
      } else {
        forall j | 0 < j < |xs| ensures !p(xs[j]) {
          assert xs[j] == xs[1..][j - 1];
        }
      }
    } else if |rest| == 0 {
      i := 0;
      assert Filter(xs, p) == [xs[0]];
      forall j | 0 < j < |xs| ensures !p(xs[j]) {
        assert xs[j] == xs[1..][j - 1];
      }
    } else {
      i := MaxOfFilterCons(xs, p, key, i');
    }
  }

  /** Moving a first-maximum index of `xs[1..]` to `xs`, when `xs[0]` does not pass the filter. */
  lemma ShiftFirstMax<T>(xs: seq<T>, p: T -> bool, key: T -> int, i': int)
    requires |xs| > 0 && !p(xs[0])
    requires IsFirstMaxAt(xs[1..], p, key, i')
    ensures IsFirstMaxAt(xs, p, key, i' + 1)
  {
    forall j | 0 < j < |xs| ensures xs[j] == xs[1..][j - 1] { }
  }

  /** The step of `MaxOfFilter` where the head passes the filter and so does something after it. */
  lemma MaxOfFilterCons<T>(xs: seq<T>, p: T -> bool, key: T -> int, i': int) returns (i: int)
    requires |xs| > 0 && p(xs[0]) && |Filter(xs[1..], p)| > 0
    requires IsFirstMaxAt(xs[1..], p, key, i')
    requires xs[1..][i'] == MaxByOrNone(Filter(xs[1..], p), key).value
    ensures IsFirstMaxAt(xs, p, key, i) && xs[i] == MaxByOrNone(Filter(xs, p), key).value
  {
    var rest := Filter(xs[1..], p);
    var f := Filter(xs, p);
    assert f == [xs[0]] + rest;
    assert f[1..] == rest;
    var m := xs[i' + 1];
    assert m == rest[MaxIndex(rest, key)];
    forall j | 0 < j < |xs| ensures xs[j] == xs[1..][j - 1] { }
    if key(xs[0]) < key(m) {
      assert MaxIndex(f, key) == 1 + MaxIndex(rest, key);
      i := i' + 1;
    } else {
      assert MaxIndex(f, key) == 0;
      i := 0;
    }
  }

  /** The minimum counterpart of `MaxOfFilter`. */
  lemma {:induction false} MinOfFilter<T>(xs: seq<T>, p: T -> bool, key: T -> int)
    returns (i: int)
    ensures MinByOrNone(Filter(xs, p), key).None? <==> forall j :: 0 <= j < |xs| ==> !p(xs[j])
    ensures MinByOrNone(Filter(xs, p), key).Some? ==>
              IsFirstMinAt(xs, p, key, i) && xs[i] == MinByOrNone(Filter(xs, p), key).value
  {
    if |xs| == 0 {
      i := 0;
      return;
    }
    var rest := Filter(xs[1..], p);
    var i' := MinOfFilter(xs[1..], p, key);
    if !p(xs[0]) {
      assert Filter(xs, p) == [] + rest == rest;
      i := i' + 1;
      if |rest| > 0 {
        ShiftFirstMin(xs, p, key, i');
      } else {
        forall j | 0 < j < |xs| ensures !p(xs[j]) {
          assert xs[j] == xs[1..][j - 1];
        }
      }
    } else if |rest| == 0 {
      i := 0;
      assert Filter(xs, p) == [xs[0]];
      forall j | 0 < j < |xs| ensures !p(xs[j]) {
        assert xs[j] == xs[1..][j - 1];
      }
    } else {
      i := MinOfFilterCons(xs, p, key, i');
    }
  }

  /** Moving a first-minimum index of `xs[1..]` to `xs`, when `xs[0]` does not pass the filter. */
  lemma ShiftFirstMin<T>(xs: seq<T>, p: T -> bool, key: T -> int, i': int)
    requires |xs| > 0 && !p(xs[0])
    requires IsFirstMinAt(xs[1..], p, key, i')
    ensures IsFirstMinAt(xs, p, key, i' + 1)
  {
    forall j | 0 < j < |xs| ensures xs[j] == xs[1..][j - 1] { }
  }

  /** The step of `MinOfFilter` where the head passes the filter and so does something after it. */
  lemma MinOfFilterCons<T>(xs: seq<T>, p: T -> bool, key: T -> int, i': int) returns (i: int)
    requires |xs| > 0 && p(xs[0]) && |Filter(xs[1..], p)| > 0
    requires IsFirstMinAt(xs[1..], p, key, i')
    requires xs[1..][i'] == MinByOrNone(Filter(xs[1..], p), key).value
    ensures IsFirstMinAt(xs, p, key, i) && xs[i] == MinByOrNone(Filter(xs, p), key).value
  {
    var rest := Filter(xs[1..], p);
    var f := Filter(xs, p);
    assert f == [xs[0]] + rest;
    assert f[1..] == rest;
    var m := xs[i' + 1];
    assert m == rest[MinIndex(rest, key)];
    forall j | 0 < j < |xs| ensures xs[j] == xs[1..][j - 1] { }
    if key(m) < key(xs[0]) {
      assert MinIndex(f, key) == 1 + MinIndex(rest, key);
      i := i' + 1;
    } else {
      assert MinIndex(f, key) == 0;
      i := 0;
    }
  }

  /** Non-decreasing by `key`. */
  ghost predicate SortedBy<T>(xs: seq<T>, key: T -> int) {
    forall i, j :: 0 <= i < j < |xs| ==> key(xs[i]) <= key(xs[j])
  }

  /** Strictly increasing by `key`. */
  ghost predicate StrictlySortedBy<T>(xs: seq<T>, key: T -> int) {
    forall i, j :: 0 <= i < j < |xs| ==> key(xs[i]) < key(xs[j])
  }

  /** No two elements share a key. */
  ghost predicate DistinctKeys<T>(xs: seq<T>, key: T -> int) {
    forall i, j :: 0 <= i < j < |xs| ==> key(xs[i]) != key(xs[j])
  }

  /** Inserts `x` in front of the first element whose key is not smaller,
      so that it lands before every element of equal key. */
  function InsertBy<T(==)>(x: T, s: seq<T>, key: T -> int): (r: seq<T>)
    ensures multiset(r) == multiset(s) + multiset{x}
    ensures SortedBy(s, key) ==> SortedBy(r, key)
  {
    if |s| == 0 || key(x) <= key(s[0]) then [x] + s
    else
      var r' := InsertBy(x, s[1..], key);
      assert s == [s[0]] + s[1..];
      assert SortedBy(s, key) ==> forall i :: 0 <= i < |r'| ==> key(s[0]) <= key(r'[i]) by {
        if SortedBy(s, key) {
          forall i | 0 <= i < |r'| ensures key(s[0]) <= key(r'[i]) {
            assert r'[i] in multiset(r');
            if r'[i] != x {
              assert r'[i] in s[1..];
            }
          }
        }
      }
      [s[0]] + r'
  }

  /** Kotlin `sortedBy(key)`, a stable sort (insertion sort stands in for the
      platform's merge sort: a stable sort by `key` has exactly one result). */
  function SortBy<T(==)>(xs: seq<T>, key: T -> int): (r: seq<T>)
    ensures multiset(r) == multiset(xs)
    ensures |r| == |xs|
    ensures SortedBy(r, key)
  {
    if |xs| == 0 then []
    else
      assert xs == [xs[0]] + xs[1..];
      InsertBy(xs[0], SortBy(xs[1..], key), key)
  }

  /** Insertion keeps equal-key elements in order: `x` goes before all of them. */
  lemma {:induction false} InsertByStable<T>(x: T, s: seq<T>, key: T -> int, p: T -> bool, k: int)
    requires forall y :: p(y) == (key(y) == k)
    ensures Filter(InsertBy(x, s, key), p) == (if p(x) then [x] else []) + Filter(s, p)
  {
    if |s| == 0 || key(x) <= key(s[0]) {
      FilterCons(x, s, p);
    } else {
      var r' := InsertBy(x, s[1..], key);
      InsertByStable(x, s[1..], key, p, k);
      FilterCons(s[0], r', p);
      FilterCons(s[0], s[1..], p);
      assert [s[0]] + s[1..] == s;
    }
  }

  /** Filtering a sequence with a given head. */
  lemma FilterCons<T>(x: T, xs: seq<T>, p: T -> bool)
    ensures Filter([x] + xs, p) == (if p(x) then [x] else []) + Filter(xs, p)
  {
    assert ([x] + xs)[1..] == xs;
  }

  /** Stability: among elements that share a key, the sort keeps input order. */
  lemma {:induction false} SortByStable<T>(xs: seq<T>, key: T -> int, p: T -> bool, k: int)
    requires forall y :: p(y) == (key(y) == k)
    ensures Filter(SortBy(xs, key), p) == Filter(xs, p)
  {
    if |xs| > 0 {
      SortByStable(xs[1..], key, p, k);
      InsertByStable(xs[0], SortBy(xs[1..], key), key, p, k);
    }
  }

  /** Inserting a key not yet present keeps a sequence strictly sorted. */
  lemma {:induction false} InsertByStrict<T>(x: T, s: seq<T>, key: T -> int)
    requires StrictlySortedBy(s, key)
    requires forall y :: y in s ==> key(y) != key(x)
    ensures StrictlySortedBy(InsertBy(x, s, key), key)
  {
    if |s| > 0 && key(s[0]) < key(x) {
      var r' := InsertBy(x, s[1..], key);
      InsertByStrict(x, s[1..], key);
      forall y | y in r' ensures key(s[0]) < key(y) {
        assert y in multiset(r');
      }
    } else if |s| > 0 {
      assert s[0] in s;
    }
  }

  /** Sorting elements with pairwise distinct keys yields a strictly increasing sequence. */
  lemma {:induction false} SortByStrict<T>(xs: seq<T>, key: T -> int)
    requires DistinctKeys(xs, key)
    ensures StrictlySortedBy(SortBy(xs, key), key)
  {
    if |xs| > 0 {
      var tail := xs[1..];
      assert DistinctKeys(tail, key) by {
        forall i, j | 0 <= i < j < |tail| ensures key(tail[i]) != key(tail[j]) {
          assert tail[i] == xs[i + 1] && tail[j] == xs[j + 1];
        }
      }
      SortByStrict(tail, key);
      var s := SortBy(tail, key);
      forall y | y in s ensures key(y) != key(xs[0]) {
        assert y in multiset(s);
        assert y in tail;
        var j :| 0 <= j < |tail| && tail[j] == y;
        assert xs[j + 1] == y;
      }
      InsertByStrict(xs[0], s, key);
    }
  }

  /** No element occurs twice. */
  ghost predicate NoDuplicates<T>(xs: seq<T>) {
    forall i, j :: 0 <= i < j < |xs| ==> xs[i] != xs[j]
  }

  /** Kotlin `distinct()`: first occurrences, in order. */
  function Distinct<T(==)>(xs: seq<T>): (r: seq<T>)
    ensures forall i :: 0 <= i < |r| ==> r[i] in xs
    ensures forall i :: 0 <= i < |xs| ==> xs[i] in r
    ensures NoDuplicates(r)
  {
    if |xs| == 0 then []
    else
      var init := xs[..|xs| - 1];
      var d := Distinct(init);
      assert xs == init + [xs[|xs| - 1]];
      if xs[|xs| - 1] in d then d else d + [xs[|xs| - 1]]
  }

  /** Kotlin `map(f)`. */
  function Map<T, U>(xs: seq<T>, f: T -> U): (r: seq<U>)
    ensures |r| == |xs|
    ensures forall i :: 0 <= i < |xs| ==> r[i] == f(xs[i])
  {
    seq(|xs|, i requires 0 <= i < |xs| => f(xs[i]))
  }
}
