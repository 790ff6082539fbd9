/** Generic sequence helpers: counting, filtering, distinctness and a
    key-ordered insertion sort, each with the facts the rest of the model needs. */
module Seqs {

  /** Number of elements of `s` that satisfy `p`. */
  function Count<T>(s: seq<T>, p: T -> bool): (n: nat)
    ensures n <= |s|
    ensures n == 0 <==> forall i :: 0 <= i < |s| ==> !p(s[i])
  {
    if s == [] then 0 else (if p(s[0]) then 1 else 0) + Count(s[1..], p)
  }

  /** The elements of `s` that satisfy `p`, in their original order. */
  function Filter<T(==)>(s: seq<T>, p: T -> bool): (r: seq<T>)
    ensures |r| == Count(s, p)
    ensures forall i :: 0 <= i < |r| ==> p(r[i]) && r[i] in s
    ensures forall i :: 0 <= i < |s| && p(s[i]) ==> s[i] in r
    ensures multiset(r) <= multiset(s)
  {
    if s == [] then []
    else
      var rest := Filter(s[1..], p);
      FilterStep(s, p, rest);
      if p(s[0]) then [s[0]] + rest else rest
  }

  /** One step of `Filter`: its facts about the tail carry over to the
      whole sequence. */
  lemma FilterStep<T>(s: seq<T>, p: T -> bool, rest: seq<T>)
    requires s != []
    requires |rest| == Count(s[1..], p)
    requires forall i :: 0 <= i < |rest| ==> p(rest[i]) && rest[i] in s[1..]
    requires forall i :: 0 <= i < |s[1..]| && p(s[1..][i]) ==> s[1..][i] in rest
    requires multiset(rest) <= multiset(s[1..])
    ensures var r := if p(s[0]) then [s[0]] + rest else rest;
      && |r| == Count(s, p)
      && (forall i :: 0 <= i < |r| ==> p(r[i]) && r[i] in s)
      && (forall i :: 0 <= i < |s| && p(s[i]) ==> s[i] in r)
      && multiset(r) <= multiset(s)
  {
    var t := s[1..];
    assert s == [s[0]] + t;
    var r := if p(s[0]) then [s[0]] + rest else rest;
    forall i | 0 <= i < |r| ensures p(r[i]) && r[i] in s {
      if !p(s[0]) || i > 0 {
        var k := if p(s[0]) then i - 1 else i;
        assert r[i] == rest[k];
        var m :| 0 <= m < |t| && t[m] == rest[k];
        assert s[m + 1] == t[m];
      }
    }
    forall i | 0 <= i < |s| && p(s[i]) ensures s[i] in r {
      if i > 0 {
        assert s[i] == t[i - 1];
      }
    }
    assert multiset(s) == multiset{s[0]} + multiset(t);
    if p(s[0]) {
      assert multiset(r) == multiset{s[0]} + multiset(rest);
    }
  }

  lemma {:induction false} CountAppend<T>(a: seq<T>, b: seq<T>, p: T -> bool)
    ensures Count(a + b, p) == Count(a, p) + Count(b, p)
  {
    if a == [] {
      assert a + b == b;
    } else {
      assert (a + b)[1..] == a[1..] + b;
      CountAppend(a[1..], b, p);
    }
  }

  /** Counting a stronger predicate never yields more. */
  lemma {:induction false} CountMonotone<T>(s: seq<T>, p: T -> bool, q: T -> bool)
    requires forall i :: 0 <= i < |s| && p(s[i]) ==> q(s[i])
    ensures Count(s, p) <= Count(s, q)
  {
    if s != [] {
      CountMonotone(s[1..], p, q);
    }
  }

  /** Predicates that agree on every element count the same. */
  lemma {:induction false} CountSame<T>(s: seq<T>, p: T -> bool, q: T -> bool)
    requires forall i :: 0 <= i < |s| ==> (p(s[i]) <==> q(s[i]))
    ensures Count(s, p) == Count(s, q)
  {
    if s != [] {
      CountSame(s[1..], p, q);
    }
  }

  /** `p` splits into its part inside `q` and its part outside `q`. */
  lemma {:induction false} CountSplit<T>(s: seq<T>, p: T -> bool, pq: T -> bool, pnq: T -> bool, q: T -> bool)
    requires forall x :: pq(x) <==> p(x) && q(x)
    requires forall x :: pnq(x) <==> p(x) && !q(x)
    ensures Count(s, p) == Count(s, pq) + Count(s, pnq)
  {
    if s != [] {
      CountSplit(s[1..], p, pq, pnq, q);
    }
  }

  /** Two disjoint predicates count no more than their union does. */
  lemma {:induction false} CountDisjointSum<T>(s: seq<T>, p: T -> bool, q: T -> bool, u: T -> bool)
    requires forall i :: 0 <= i < |s| ==> !(p(s[i]) && q(s[i]))
    requires forall i :: 0 <= i < |s| && (p(s[i]) || q(s[i])) ==> u(s[i])
    ensures Count(s, p) + Count(s, q) <= Count(s, u)
  {
    if s != [] {
      CountDisjointSum(s[1..], p, q, u);
    }
  }

  predicate Distinct<T(==)>(s: seq<T>) {
    forall i, j :: 0 <= i < j < |s| ==> s[i] != s[j]
  }

  /** A sequence without repetitions counts each element at most once. */
  lemma {:induction false} DistinctMultiplicity<T>(s: seq<T>)
    ensures Distinct(s) <==> forall x :: multiset(s)[x] <= 1
  {
    if s != [] {
      DistinctMultiplicity(s[1..]);
      assert s == [s[0]] + s[1..];
      assert multiset(s) == multiset{s[0]} + multiset(s[1..]);
      if Distinct(s) {
        forall k | 0 <= k < |s[1..]| ensures s[1..][k] != s[0] {
          assert s[1..][k] == s[k + 1];
        }
        assert s[0] !in s[1..];
        assert Distinct(s[1..]) by {
          forall i, j | 0 <= i < j < |s[1..]| ensures s[1..][i] != s[1..][j] {
            assert s[1..][i] == s[i + 1] && s[1..][j] == s[j + 1];
          }
        }
      } else {
        var i, j :| 0 <= i < j < |s| && s[i] == s[j];
        assert s == s[..j] + s[j..];
        assert s[..j][i] == s[i] && s[j..][0] == s[j];
        assert multiset(s)[s[i]] == multiset(s[..j])[s[i]] + multiset(s[j..])[s[i]];
      }
    }
  }

  /** Joining two repetition-free sequences with nothing in common repeats nothing. */
  lemma DistinctAppend<T>(a: seq<T>, b: seq<T>)
    requires Distinct(a) && Distinct(b)
    requires forall i, j :: 0 <= i < |a| && 0 <= j < |b| ==> a[i] != b[j]
    ensures Distinct(a + b)
  {
    forall i, j | 0 <= i < j < |a + b| ensures (a + b)[i] != (a + b)[j] {
      if j < |a| {
        assert (a + b)[i] == a[i] && (a + b)[j] == a[j];
      } else if i < |a| {
        assert (a + b)[i] == a[i] && (a + b)[j] == b[j - |a|];
      } else {
        assert (a + b)[i] == b[i - |a|] && (a + b)[j] == b[j - |a|];
      }
    }
  }

  /** Taking one element out of the pending set adds it to what is done,
      if it belongs there at all. */
  lemma DoneGrows<T>(all: set<T>, todo: set<T>, x: T)
    requires x in todo
    ensures |all - (todo - {x})| == |all - todo| + (if x in all then 1 else 0)
  {
    if x in all {
      assert all - (todo - {x}) == (all - todo) + {x};
    } else {
      assert all - (todo - {x}) == all - todo;
    }
  }

  /** Two orderings of the same multiset have the same length and elements. */
  lemma SameElements<T>(a: seq<T>, b: seq<T>)
    requires multiset(a) == multiset(b)
    ensures |a| == |b|
    ensures forall x :: x in a <==> x in b
  {
    assert |a| == |multiset(a)| == |multiset(b)| == |b|;
    forall x ensures x in a <==> x in b {
      assert x in a <==> x in multiset(a);
      assert x in b <==> x in multiset(b);
    }
  }

  /** No two elements share a key. */
  predicate KeysUnique<T>(s: seq<T>, key: T -> int) {
    forall i, j :: 0 <= i < j < |s| ==> key(s[i]) != key(s[j])
  }

  /** Dropping the head keeps the keys unique, and none of the rest shares
      the head's key. */
  lemma KeysUniqueTail<T>(s: seq<T>, key: T -> int)
    requires s != [] && KeysUnique(s, key)
    ensures KeysUnique(s[1..], key)
    ensures forall x :: x in s[1..] ==> key(x) != key(s[0])
  {
    forall a, b | 0 <= a < b < |s[1..]| ensures key(s[1..][a]) != key(s[1..][b]) {
      assert s[1..][a] == s[a + 1] && s[1..][b] == s[b + 1];
    }
    forall x | x in s[1..] ensures key(x) != key(s[0]) {
      var b :| 0 <= b < |s[1..]| && s[1..][b] == x;
      assert s[b + 1] == x;
    }
  }

  lemma ConsKeysUnique<T>(h: T, rest: seq<T>, key: T -> int)
    requires KeysUnique(rest, key)
    requires forall k :: 0 <= k < |rest| ==> key(rest[k]) != key(h)
    ensures KeysUnique([h] + rest, key)
  {
    var r := [h] + rest;
    forall i, j | 0 <= i < j < |r| ensures key(r[i]) != key(r[j]) {
      assert r[j] == rest[j - 1];
      if i > 0 {
        assert r[i] == rest[i - 1];
      }
    }
  }

  /** Filtering keeps order, so what it keeps still has unique keys. */
  lemma {:induction false} FilterKeepsKeysUnique<T>(s: seq<T>, p: T -> bool, key: T -> int)
    requires KeysUnique(s, key)
    ensures KeysUnique(Filter(s, p), key)
  {
    if s != [] {
      var rest := Filter(s[1..], p);
      KeysUniqueTail(s, key);
      FilterKeepsKeysUnique(s[1..], p, key);
      if p(s[0]) {
        assert Filter(s, p) == [s[0]] + rest;
        ConsKeysUnique(s[0], rest, key);
      } else {
        assert Filter(s, p) == rest;
      }
    }
  }

  /** Permuting a sequence without repetitions leaves none. */
  lemma DistinctPermutation<T>(a: seq<T>, b: seq<T>)
    requires multiset(a) == multiset(b)
    requires Distinct(a)
    ensures Distinct(b)
  {
    DistinctMultiplicity(a);
    DistinctMultiplicity(b);
  }

  /** Keys do not increase from left to right. */
  predicate SortedDesc<T>(s: seq<T>, key: T -> int) {
    forall i, j :: 0 <= i < j < |s| ==> key(s[i]) >= key(s[j])
  }

  /** Keys do not decrease from left to right. */
  predicate SortedAsc<T>(s: seq<T>, key: T -> int) {
    forall i, j :: 0 <= i < j < |s| ==> key(s[i]) <= key(s[j])
  }

  /** Whatever the insertion below the head produces stays on the head's
      side of the order. */
  lemma HeadBoundsDesc<T>(h: T, tail: seq<T>, x: T, rest: seq<T>, key: T -> int)
    requires forall k :: 0 <= k < |tail| ==> key(h) >= key(tail[k])
    requires key(h) >= key(x)
    requires multiset(rest) == multiset(tail) + multiset{x}
    ensures forall k :: 0 <= k < |rest| ==> key(h) >= key(rest[k])
  {
    forall k | 0 <= k < |rest| ensures key(h) >= key(rest[k]) {
      assert rest[k] in multiset(rest);
      if rest[k] != x {
        assert rest[k] in multiset(tail);
        var m :| 0 <= m < |tail| && tail[m] == rest[k];
      }
    }
  }

  lemma ConsSortedDesc<T>(h: T, rest: seq<T>, key: T -> int)
    requires SortedDesc(rest, key)
    requires forall k :: 0 <= k < |rest| ==> key(h) >= key(rest[k])
    ensures SortedDesc([h] + rest, key)
  {
    var r := [h] + rest;
    forall i, j | 0 <= i < j < |r| ensures key(r[i]) >= key(r[j]) {
      assert r[j] == rest[j - 1];
      if i > 0 {
        assert r[i] == rest[i - 1];
      }
    }
  }

  function InsertDesc<T(==)>(x: T, s: seq<T>, key: T -> int): (r: seq<T>)
    requires SortedDesc(s, key)
    ensures SortedDesc(r, key)
    ensures multiset(r) == multiset(s) + multiset{x}
  {
    if s == [] then [x]
    else if key(x) >= key(s[0]) then [x] + s
    else
      var rest := InsertDesc(x, s[1..], key);
      assert s == [s[0]] + s[1..];
      HeadBoundsDesc(s[0], s[1..], x, rest, key);
      ConsSortedDesc(s[0], rest, key);
      assert multiset([s[0]] + rest) == multiset{s[0]} + multiset(rest);
      [s[0]] + rest
  }

  /** Insertion sort, largest key first. */
  function SortDesc<T(==)>(s: seq<T>, key: T -> int): (r: seq<T>)
    ensures SortedDesc(r, key)
    ensures multiset(r) == multiset(s)
  {
    if s == [] then []
    else
      assert s == [s[0]] + s[1..];
      InsertDesc(s[0], SortDesc(s[1..], key), key)
  }

  /** Whatever the insertion below the head produces stays on the head's
      side of the order. */
  lemma HeadBoundsAsc<T>(h: T, tail: seq<T>, x: T, rest: seq<T>, key: T -> int)
    requires forall k :: 0 <= k < |tail| ==> key(h) <= key(tail[k])
    requires key(h) <= key(x)
    requires multiset(rest) == multiset(tail) + multiset{x}
    ensures forall k :: 0 <= k < |rest| ==> key(h) <= key(rest[k])
  {
    forall k | 0 <= k < |rest| ensures key(h) <= key(rest[k]) {
      assert rest[k] in multiset(rest);
      if rest[k] != x {
        assert rest[k] in multiset(tail);
        var m :| 0 <= m < |tail| && tail[m] == rest[k];
      }
    }
  }

  lemma ConsSortedAsc<T>(h: T, rest: seq<T>, key: T -> int)
    requires SortedAsc(rest, key)
    requires forall k :: 0 <= k < |rest| ==> key(h) <= key(rest[k])
    ensures SortedAsc([h] + rest, key)
  {
    var r := [h] + rest;
    forall i, j | 0 <= i < j < |r| ensures key(r[i]) <= key(r[j]) {
      assert r[j] == rest[j - 1];
      if i > 0 {
        assert r[i] == rest[i - 1];
      }
    }
  }

  function InsertAsc<T(==)>(x: T, s: seq<T>, key: T -> int): (r: seq<T>)
    requires SortedAsc(s, key)
    ensures SortedAsc(r, key)
    ensures multiset(r) == multiset(s) + multiset{x}
  {
    if s == [] then [x]
    else if key(x) <= key(s[0]) then [x] + s
    else
      var rest := InsertAsc(x, s[1..], key);
      assert s == [s[0]] + s[1..];
      HeadBoundsAsc(s[0], s[1..], x, rest, key);
      ConsSortedAsc(s[0], rest, key);
      assert multiset([s[0]] + rest) == multiset{s[0]} + multiset(rest);
      [s[0]] + rest
  }

  /** Insertion sort, smallest key first. */
  function SortAsc<T(==)>(s: seq<T>, key: T -> int): (r: seq<T>)
    ensures SortedAsc(r, key)
    ensures multiset(r) == multiset(s)
  {
    if s == [] then []
    else
      assert s == [s[0]] + s[1..];
      InsertAsc(s[0], SortAsc(s[1..], key), key)
  }
}
