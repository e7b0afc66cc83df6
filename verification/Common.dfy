/** Small shared vocabulary: optional values, bytes, saturating arithmetic and sequence helpers. */
module Common {

  datatype Option<+T> = None | Some(value: T)

  datatype Result<+T, +E> = Ok(ok: T) | Err(error: E)

  type Byte = b: int | 0 <= b < 256

  type Bytes = seq<Byte>

  function Min(a: int, b: int): int {
    if a <= b then a else b
  }

  function Max(a: int, b: int): int {
    if a >= b then a else b
  }

  /** Subtraction that stops at zero. */
  function Sub(a: nat, b: nat): nat {
    if a >= b then a - b else 0
  }

  /** The elements of `s` that satisfy `keep`, in order. */
  function Filter<T>(s: seq<T>, keep: T -> bool): (r: seq<T>)
    ensures |r| <= |s|
  {
    if s == [] then []
    else if keep(s[0]) then [s[0]] + Filter(s[1..], keep)
    else Filter(s[1..], keep)
  }

  lemma Reassociate<T>(a: seq<T>, b: seq<T>, c: seq<T>)
    ensures a + b + c == a + (b + c)
  {
  }

  function Concat(parts: seq<Bytes>): Bytes {
    if parts == [] then [] else parts[0] + Concat(parts[1..])
  }

  function TotalLength(parts: seq<Bytes>): nat {
    if parts == [] then 0 else |parts[0]| + TotalLength(parts[1..])
  }

  lemma {:induction false} FilterSnoc<T>(s: seq<T>, x: T, keep: T -> bool)
    ensures Filter(s + [x], keep) == Filter(s, keep) + if keep(x) then [x] else []
  {
    if s == [] {
      assert s + [x] == [x];
    } else {
      assert (s + [x])[1..] == s[1..] + [x];
      FilterSnoc(s[1..], x, keep);
    }
  }

  lemma {:induction false} ConcatAppend(a: seq<Bytes>, b: seq<Bytes>)
    ensures Concat(a + b) == Concat(a) + Concat(b)
  {
    if a == [] {
      assert a + b == b;
    } else {
      assert (a + b)[1..] == a[1..] + b;
      ConcatAppend(a[1..], b);
    }
  }

  lemma {:induction false} TotalLengthAppend(a: seq<Bytes>, b: seq<Bytes>)
    ensures TotalLength(a + b) == TotalLength(a) + TotalLength(b)
  {
    if a == [] {
      assert a + b == b;
    } else {
      assert (a + b)[1..] == a[1..] + b;
      TotalLengthAppend(a[1..], b);
    }
  }

  // ----- sorting by a key -----

  predicate OrderedBy<T>(s: seq<T>, key: T -> int) {
    forall i, j :: 0 <= i < j < |s| ==> key(s[i]) <= key(s[j])
  }

  function InsertByKey<T>(x: T, sorted: seq<T>, key: T -> int): (r: seq<T>)
    ensures multiset(r) == multiset([x] + sorted)
  {
    if sorted == [] || key(x) <= key(sorted[0]) then [x] + sorted
    else
      assert sorted == [sorted[0]] + sorted[1..];
      [sorted[0]] + InsertByKey(x, sorted[1..], key)
  }

  /** The library sort: ascending keys, same elements. */
  function SortByKey<T>(s: seq<T>, key: T -> int): (r: seq<T>)
    ensures multiset(r) == multiset(s)
  {
    if s == [] then []
    else
      assert s == [s[0]] + s[1..];
      InsertByKey(s[0], SortByKey(s[1..], key), key)
  }

  lemma PrependOrdered<T>(x: T, sorted: seq<T>, key: T -> int)
    requires OrderedBy(sorted, key)
    requires forall y :: y in sorted ==> key(x) <= key(y)
    ensures OrderedBy([x] + sorted, key)
  {
    var r := [x] + sorted;
    forall i, j | 0 <= i < j < |r|
      ensures key(r[i]) <= key(r[j])
    {
      assert r[j] == sorted[j - 1];
      if i > 0 {
        assert r[i] == sorted[i - 1];
      }
    }
  }

  lemma {:induction false} InsertKeepsOrder<T>(x: T, sorted: seq<T>, key: T -> int)
    requires OrderedBy(sorted, key)
    ensures OrderedBy(InsertByKey(x, sorted, key), key)
  {
    if sorted == [] || key(x) <= key(sorted[0]) {
      PrependOrdered(x, sorted, key);
    } else {
      var tail := sorted[1..];
      assert OrderedBy(tail, key);
      InsertKeepsOrder(x, tail, key);
      var rest := InsertByKey(x, tail, key);
      forall y | y in rest
        ensures key(sorted[0]) <= key(y)
      {
        SameElement(rest, [x] + tail, y);
      }
      PrependOrdered(sorted[0], rest, key);
    }
  }

  lemma {:induction false} SortIsOrdered<T>(s: seq<T>, key: T -> int)
    ensures OrderedBy(SortByKey(s, key), key)
  {
    if s != [] {
      SortIsOrdered(s[1..], key);
      InsertKeepsOrder(s[0], SortByKey(s[1..], key), key);
    }
  }

  // ----- stability -----

  /** Ascending keys, and among equal keys ascending `order`. */
  predicate OrderedByBoth<T>(s: seq<T>, key: T -> int, order: T -> int) {
    forall i, j :: 0 <= i < j < |s| ==>
      key(s[i]) < key(s[j]) || (key(s[i]) == key(s[j]) && order(s[i]) < order(s[j]))
  }

  predicate Increasing<T>(s: seq<T>, order: T -> int) {
    forall i, j :: 0 <= i < j < |s| ==> order(s[i]) < order(s[j])
  }

  lemma {:induction false} InsertIsStable<T>(x: T, sorted: seq<T>, key: T -> int, order: T -> int)
    requires OrderedByBoth(sorted, key, order)
    requires forall i :: 0 <= i < |sorted| ==> order(x) < order(sorted[i])
    ensures OrderedByBoth(InsertByKey(x, sorted, key), key, order)
  {
    if sorted != [] && key(x) > key(sorted[0]) {
      var first, tail := sorted[0], sorted[1..];
      InsertIsStable(x, tail, key, order);
      var rest := InsertByKey(x, tail, key);
      forall k | 0 <= k < |rest|
        ensures key(first) < key(rest[k]) || (key(first) == key(rest[k]) && order(first) < order(rest[k]))
      {
        SameElement(rest, [x] + tail, rest[k]);
        if rest[k] in tail {
          var m :| 0 <= m < |tail| && tail[m] == rest[k];
          assert sorted[m + 1] == rest[k];
        }
      }
      PrependOrderedByBoth(first, rest, key, order);
    } else {
      PrependOrderedByBoth(x, sorted, key, order);
    }
  }

  lemma PrependOrderedByBoth<T>(x: T, sorted: seq<T>, key: T -> int, order: T -> int)
    requires OrderedByBoth(sorted, key, order)
    requires forall k :: 0 <= k < |sorted| ==>
               key(x) < key(sorted[k]) || (key(x) == key(sorted[k]) && order(x) < order(sorted[k]))
    ensures OrderedByBoth([x] + sorted, key, order)
  {
  }

  /** Sorting keeps elements with equal keys in their original order. */
  lemma {:induction false} SortIsStable<T>(s: seq<T>, key: T -> int, order: T -> int)
    requires Increasing(s, order)
    ensures OrderedByBoth(SortByKey(s, key), key, order)
  {
    if s != [] {
      var tail := s[1..];
      assert Increasing(tail, order);
      SortIsStable(tail, key, order);
      var sorted := SortByKey(tail, key);
      forall i | 0 <= i < |sorted|
        ensures order(s[0]) < order(sorted[i])
      {
        SameElement(sorted, tail, sorted[i]);
        var m :| 0 <= m < |tail| && tail[m] == sorted[i];
        assert s[m + 1] == sorted[i];
      }
      InsertIsStable(s[0], sorted, key, order);
    }
  }

  lemma SameElement<T>(a: seq<T>, b: seq<T>, x: T)
    requires multiset(a) == multiset(b)
    ensures x in a <==> x in b
  {
    assert x in multiset(a) <==> x in multiset(b);
  }

  lemma SameElements<T>(a: seq<T>, b: seq<T>)
    requires multiset(a) == multiset(b)
    ensures |a| == |b|
    ensures forall x :: x in a <==> x in b
  {
    assert |multiset(a)| == |a| && |multiset(b)| == |b|;
    forall x
      ensures x in a <==> x in b
    {
      SameElement(a, b, x);
    }
  }
}
