/** `Counter(items).most_common(n)`: the `n` most frequent distinct items with
    their counts, most frequent first. Items with equal counts keep the order
    in which they were first met (a Counter remembers insertion order and
    `most_common` sorts stably). The ordering is captured by `Before`, a
    strict total order on the distinct items of the counted sequence. */
module Counting {
  import opened Seqs

  function Min(a: nat, b: nat): nat {
    if a <= b then a else b
  }

  /** `x` is listed before `y`: it is more frequent, or as frequent and met first. */
  predicate Before<T(==)>(s: seq<T>, x: T, y: T) {
    || multiset(s)[x] > multiset(s)[y]
    || (multiset(s)[x] == multiset(s)[y] && FirstIndex(s, x) < FirstIndex(s, y))
  }

  /** `r` is in `most_common` order with respect to the counts in `s`. */
  predicate Ranked<T(==)>(s: seq<T>, r: seq<T>) {
    forall i, j :: 0 <= i < j < |r| ==> Before(s, r[i], r[j])
  }

  /** Any two different items of `s` are ordered one way or the other. */
  lemma BeforeTotal<T>(s: seq<T>, x: T, y: T)
    requires x in s && y in s && x != y
    ensures Before(s, x, y) || Before(s, y, x)
  {
    var i := FirstIndex(s, x);
    var j := FirstIndex(s, y);
    assert s[i] == x && s[j] == y;
  }

  /** Puts a new item at its place in a ranked sequence. */
  function Insert<T(==,!new)>(s: seq<T>, x: T, r: seq<T>): (q: seq<T>)
    requires Ranked(s, r)
    requires x in s && x !in r
    requires forall i :: 0 <= i < |r| ==> r[i] in s
    ensures Ranked(s, q)
    ensures |q| == |r| + 1
    ensures forall y :: y in q <==> y == x || y in r
  {
    if |r| == 0 then [x]
    else if Before(s, x, r[0]) then
      [x] + r
    else
      BeforeTotal(s, x, r[0]);
      var rest := Insert(s, x, r[1..]);
      assert forall j :: 0 <= j < |rest| ==> Before(s, r[0], rest[j]) by {
        forall j | 0 <= j < |rest| ensures Before(s, r[0], rest[j]) {
          assert rest[j] in rest;
          if rest[j] != x {
            var m :| 1 <= m < |r| && r[m] == rest[j];
          }
        }
      }
      [r[0]] + rest
  }

  /** Sorts distinct items of `s` into `most_common` order. */
  function Rank<T(==,!new)>(s: seq<T>, d: seq<T>): (q: seq<T>)
    requires NoDuplicates(d)
    requires forall i :: 0 <= i < |d| ==> d[i] in s
    ensures Ranked(s, q)
    ensures |q| == |d|
    ensures forall y :: y in q <==> y in d
  {
    if |d| == 0 then []
    else
      var rest := Rank(s, d[1..]);
      assert d[0] !in d[1..];
      assert forall i :: 0 <= i < |rest| ==> rest[i] in s by {
        forall i | 0 <= i < |rest| ensures rest[i] in s {
          assert rest[i] in d[1..];
        }
      }
      Insert(s, d[0], rest)
  }

  /** The items of a `most_common` result. */
  function Keys<T>(r: seq<(T, nat)>): (k: seq<T>)
    ensures |k| == |r|
    ensures forall i :: 0 <= i < |r| ==> k[i] == r[i].0
  {
    seq(|r|, i requires 0 <= i < |r| => r[i].0)
  }

  /** The items of `most_common(n)`, without their counts. */
  function TopItems<T(==,!new)>(s: seq<T>, n: nat): (q: seq<T>)
    ensures |q| == Min(n, |set x | x in s|)
    ensures Ranked(s, q)
    ensures forall i :: 0 <= i < |q| ==> q[i] in s
    ensures forall x :: x in s && x !in q ==> |q| == n && (n > 0 ==> Before(s, q[n - 1], x))
  {
    var d := Distinct(s);
    DistinctSize(s);
    var ranked := Rank(s, d);
    var k := Min(n, |ranked|);
    var q := ranked[..k];
    assert forall x :: x in s && x !in q ==> |q| == n && (n > 0 ==> Before(s, q[n - 1], x)) by {
      forall x | x in s && x !in q
        ensures |q| == n && (n > 0 ==> Before(s, q[n - 1], x))
      {
        assert x in ranked;
        var m :| 0 <= m < |ranked| && ranked[m] == x;
        assert m >= k;
        if n > 0 {
          assert Before(s, ranked[n - 1], ranked[m]);
        }
      }
    }
    assert forall i :: 0 <= i < |q| ==> q[i] in s by {
      forall i | 0 <= i < |q| ensures q[i] in s {
        assert q[i] in ranked;
      }
    }
    q
  }

  /** Pairs each item of `q` with its number of occurrences in `s`. */
  function WithCounts<T(==)>(s: seq<T>, q: seq<T>): (r: seq<(T, nat)>)
    ensures |r| == |q| && Keys(r) == q
    ensures forall i :: 0 <= i < |r| ==> r[i].1 == multiset(s)[q[i]]
  {
    var r := seq(|q|, i requires 0 <= i < |q| => (q[i], multiset(s)[q[i]]));
    assert Keys(r) == q;
    r
  }

  /** `r` is what `Counter(s).most_common(n)` returns: min(n, D) distinct
      items of `s` (D the number of distinct items) with their counts, by
      non-increasing count, ties in order of first appearance, and no omitted
      item ranking above the last one listed. */
  predicate IsMostCommon<T(==,!new)>(s: seq<T>, n: nat, r: seq<(T, nat)>) {
    && |r| == Min(n, |set x | x in s|)
    && (forall i :: 0 <= i < |r| ==> r[i].0 in s && r[i].1 == multiset(s)[r[i].0])
    && (forall i, j :: 0 <= i < j < |r| ==> r[i].0 != r[j].0)
    && (forall i, j :: 0 <= i < j < |r| ==> r[i].1 >= r[j].1)
    && (forall i, j :: 0 <= i < j < |r| && r[i].1 == r[j].1 ==>
          FirstIndex(s, r[i].0) < FirstIndex(s, r[j].0))
    && (forall x :: x in s && x !in Keys(r) ==>
          && |r| == n
          && (n > 0 ==> multiset(s)[x] <= r[n - 1].1)
          && (n > 0 && multiset(s)[x] == r[n - 1].1 ==> FirstIndex(s, r[n - 1].0) < FirstIndex(s, x)))
  }

  /** `Counter(s).most_common(n)`. */
  function MostCommon<T(==,!new)>(s: seq<T>, n: nat): (r: seq<(T, nat)>)
    ensures IsMostCommon(s, n, r)
  {
    var q := TopItems(s, n);
    var r := WithCounts(s, q);
    assert forall i :: 0 <= i < |r| ==> r[i].0 == q[i];
    r
  }
}
