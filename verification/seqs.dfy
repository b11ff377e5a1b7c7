/** Order-preserving selection of the elements of a sequence that satisfy a
    predicate: the boolean-mask indexing `df[mask]` of the dashboard script. */
module Seqs {

  /** `a` can be obtained from `b` by deleting elements, keeping the rest in order. */
  predicate IsSubsequence<T(==,!new)>(a: seq<T>, b: seq<T>)
    decreases |b|
  {
    if |a| == 0 then true
    else if |b| == 0 then false
    else if a[0] == b[0] then IsSubsequence(a[1..], b[1..])
    else IsSubsequence(a, b[1..])
  }

  /** The rows of `s` for which `p` holds, in their original order. */
  function Keep<T(==,!new)>(s: seq<T>, p: T -> bool): (r: seq<T>)
    ensures forall i :: 0 <= i < |r| ==> p(r[i])
    ensures forall x :: multiset(r)[x] == if p(x) then multiset(s)[x] else 0
    ensures IsSubsequence(r, s)
    ensures |r| <= |s|
  {
    if |s| == 0 then []
    else
      var rest := Keep(s[1..], p);
      assert s == [s[0]] + s[1..];
      assert multiset(s) == multiset{s[0]} + multiset(s[1..]);
      if p(s[0]) then
        var r := [s[0]] + rest;
        assert multiset(r) == multiset{s[0]} + multiset(rest);
        assert r[1..] == rest;
        r
      else
        assert |rest| > 0 ==> rest[0] != s[0];
        rest
  }

  /** Selection distributes over concatenation of tables. */
  lemma {:induction false} KeepAppend<T(!new)>(a: seq<T>, b: seq<T>, p: T -> bool)
    ensures Keep(a + b, p) == Keep(a, p) + Keep(b, p)
  {
    if |a| == 0 {
      assert a + b == b;
    } else {
      assert (a + b)[1..] == a[1..] + b;
      KeepAppend(a[1..], b, p);
    }
  }

  /** Selecting with a predicate no element meets returns the empty sequence. */
  lemma {:induction false} KeepNone<T(!new)>(s: seq<T>, p: T -> bool)
    requires forall i :: 0 <= i < |s| ==> !p(s[i])
    ensures Keep(s, p) == []
  {
    if |s| > 0 {
      KeepNone(s[1..], p);
    }
  }

  /** Position of the first occurrence of `x` in `s`, or `|s|` when it does not occur. */
  function FirstIndex<T(==)>(s: seq<T>, x: T): (i: nat)
    ensures i <= |s|
    ensures i < |s| <==> x in s
    ensures i < |s| ==> s[i] == x
    ensures forall k :: 0 <= k < i ==> s[k] != x
  {
    if |s| == 0 then 0
    else if s[0] == x then 0
    else 1 + FirstIndex(s[1..], x)
  }

  /** Extending a sequence does not move the first occurrence of a value it already holds. */
  lemma FirstIndexPrefix<T>(s: seq<T>, k: nat, x: T)
    requires k <= |s|
    requires x in s[..k]
    ensures FirstIndex(s, x) == FirstIndex(s[..k], x)
  {
    var p := s[..k];
    var i := FirstIndex(p, x);
    assert i < k && p[i] == s[i];
    forall m | 0 <= m < i
      ensures s[m] != x
    {
      assert p[m] == s[m];
    }
  }

  predicate NoDuplicates<T(==)>(s: seq<T>) {
    forall i, j :: 0 <= i < j < |s| ==> s[i] != s[j]
  }

  /** The distinct values of `s`, each once, in order of first appearance. */
  function Distinct<T(==,!new)>(s: seq<T>): (d: seq<T>)
    ensures NoDuplicates(d)
    ensures forall x :: x in d <==> x in s
  {
    if |s| == 0 then []
    else
      var n := |s| - 1;
      var d := Distinct(s[..n]);
      assert s == s[..n] + [s[n]];
      if s[n] in d then d else d + [s[n]]
  }

  /** The values of a sequence grown by one element. */
  lemma ValuesSnoc<T>(s: seq<T>, x: T)
    ensures (set y | y in s + [x]) == (set y | y in s) + {x}
  {
  }

  /** `Distinct` has exactly one entry per distinct value of `s`. */
  lemma {:induction false} DistinctSize<T(!new)>(s: seq<T>)
    ensures |Distinct(s)| == |set x | x in s|
  {
    if |s| > 0 {
      var n := |s| - 1;
      var x := s[n];
      var before := set y | y in s[..n];
      DistinctSize(s[..n]);
      assert s == s[..n] + [x];
      ValuesSnoc(s[..n], x);
      if x in s[..n] {
        assert before + {x} == before;
      } else {
        assert |before + {x}| == |before| + 1;
      }
    }
  }

  /** `Distinct` lists the values in order of first appearance. */
  lemma {:induction false} DistinctOrder<T(!new)>(s: seq<T>)
    ensures forall i, j :: 0 <= i < j < |Distinct(s)| ==>
      FirstIndex(s, Distinct(s)[i]) < FirstIndex(s, Distinct(s)[j])
  {
    if |s| > 0 {
      var n := |s| - 1;
      var x := s[n];
      var d := Distinct(s[..n]);
      DistinctOrder(s[..n]);
      forall i | 0 <= i < |d|
        ensures FirstIndex(s, d[i]) == FirstIndex(s[..n], d[i]) < n
      {
        FirstIndexPrefix(s, n, d[i]);
      }
      if x in d {
        assert Distinct(s) == d;
      } else {
        assert FirstIndex(s, x) == n by {
          assert x !in s[..n];
          forall k | 0 <= k < n ensures s[k] != x {
            assert s[k] == s[..n][k];
          }
        }
        var e := d + [x];
        assert Distinct(s) == e;
        forall i, j | 0 <= i < j < |e|
          ensures FirstIndex(s, e[i]) < FirstIndex(s, e[j])
        {
          if j < |d| {
            assert e[i] == d[i] && e[j] == d[j];
          }
        }
      }
    }
  }

  /** Every sequence is a subsequence of itself. */
  lemma {:induction false} SubsequenceRefl<T(!new)>(s: seq<T>)
    ensures IsSubsequence(s, s)
  {
    if |s| > 0 {
      SubsequenceRefl(s[1..]);
    }
  }


  /** `f` applied to every element, in order. */
  function Map<T, U>(s: seq<T>, f: T -> U): (r: seq<U>)
    ensures |r| == |s|
    ensures forall i :: 0 <= i < |s| ==> r[i] == f(s[i])
  {
    seq(|s|, i requires 0 <= i < |s| => f(s[i]))
  }

  /** Selection looks at the head, then selects from the tail. */
  lemma KeepStep<T(!new)>(s: seq<T>, p: T -> bool)
    requires |s| > 0
    ensures Keep(s, p) == if p(s[0]) then [s[0]] + Keep(s[1..], p) else Keep(s[1..], p)
  {
  }

  /** Mapping a sequence with a head maps the head, then the tail. */
  lemma MapCons<T, U>(x: T, s: seq<T>, f: T -> U)
    ensures Map([x] + s, f) == [f(x)] + Map(s, f)
  {
  }

  /** Selecting after mapping is mapping after selecting, when the mapping
      does not change whether an element is selected. */
  lemma {:induction false} KeepMap<T(!new), U(!new)>(s: seq<T>, f: T -> U, p: T -> bool, q: U -> bool)
    requires forall x :: q(f(x)) == p(x)
    ensures Keep(Map(s, f), q) == Map(Keep(s, p), f)
  {
    if |s| > 0 {
      var x, tail := s[0], s[1..];
      assert s == [x] + tail;
      KeepMap(tail, f, p, q);
      MapCons(x, tail, f);
      var m := Map(s, f);
      assert m[0] == f(x) && m[1..] == Map(tail, f);
      KeepStep(m, q);
      KeepStep(s, p);
      var rest := Keep(tail, p);
      if p(x) {
        MapCons(x, rest, f);
      }
    }
  }
}
