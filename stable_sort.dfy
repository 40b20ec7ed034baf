/** `Array.prototype.sort` with a comparator `key(a) - key(b)`: a stable sort
    by an integer key, written as insertion sort. The dashboard's date sort and
    the vote aggregate table's count sort are both instances. */
module StableSort {

  predicate SortedBy<T>(s: seq<T>, key: T -> int) {
    forall i, j :: 0 <= i < j < |s| ==> key(s[i]) <= key(s[j])
  }

  /** The elements of `s` whose key is `k`, in their order in `s`. */
  function WithKey<T>(s: seq<T>, key: T -> int, k: int): (r: seq<T>)
    ensures |r| <= |s|
  {
    if s == [] then []
    else (if key(s[0]) == k then [s[0]] else []) + WithKey(s[1..], key, k)
  }

  /** Inserts `x` before the first element whose key is not smaller, so that
      `x` precedes the elements of equal key that follow it in the input. */
  function Insert<T>(x: T, s: seq<T>, key: T -> int): (r: seq<T>)
    ensures |r| == |s| + 1
  {
    if s == [] || key(x) <= key(s[0]) then [x] + s
    else [s[0]] + Insert(x, s[1..], key)
  }

  function Sort<T>(s: seq<T>, key: T -> int): (r: seq<T>)
    ensures |r| == |s|
  {
    if s == [] then [] else Insert(s[0], Sort(s[1..], key), key)
  }

  lemma {:induction false} InsertPermutes<T>(x: T, s: seq<T>, key: T -> int)
    ensures multiset(Insert(x, s, key)) == multiset{x} + multiset(s)
  {
    if s != [] && key(x) > key(s[0]) {
      InsertPermutes(x, s[1..], key);
      assert s == [s[0]] + s[1..];
    }
  }

  lemma {:induction false} InsertSorted<T>(x: T, s: seq<T>, key: T -> int)
    requires SortedBy(s, key)
    ensures SortedBy(Insert(x, s, key), key)
  {
    if s != [] && key(x) > key(s[0]) {
      var tail := s[1..];
      assert SortedBy(tail, key) by {
        forall a, b | 0 <= a < b < |tail|
          ensures key(tail[a]) <= key(tail[b])
        {
          assert tail[a] == s[a + 1] && tail[b] == s[b + 1];
        }
      }
      InsertSorted(x, tail, key);
      var ins := Insert(x, tail, key);
      InsertElements(x, tail, key);
      var r := [s[0]] + ins;
      forall a, b | 0 <= a < b < |r|
        ensures key(r[a]) <= key(r[b])
      {
        assert r[b] == ins[b - 1];
        if a == 0 {
          assert r[b] == x || r[b] in tail;
          if r[b] != x {
            var j :| 0 <= j < |tail| && tail[j] == r[b];
            assert s[j + 1] == r[b];
          }
        } else {
          assert r[a] == ins[a - 1];
        }
      }
    }
  }

  /** Every element of an insertion is the inserted one or an old one. */
  lemma {:induction false} InsertElements<T>(x: T, s: seq<T>, key: T -> int)
    ensures forall y :: y in Insert(x, s, key) ==> y == x || y in s
  {
    if s != [] && key(x) > key(s[0]) {
      InsertElements(x, s[1..], key);
      assert s == [s[0]] + s[1..];
    }
  }

  lemma {:induction false} InsertWithKey<T>(x: T, s: seq<T>, key: T -> int, k: int)
    ensures WithKey(Insert(x, s, key), key, k)
         == (if key(x) == k then [x] else []) + WithKey(s, key, k)
  {
    if s == [] || key(x) <= key(s[0]) {
      assert Insert(x, s, key) == [x] + s;
      assert ([x] + s)[1..] == s;
    } else {
      var tail := s[1..];
      var ins := Insert(x, tail, key);
      InsertWithKey(x, tail, key, k);
      var r := [s[0]] + ins;
      assert r[1..] == ins;
      var head := if key(s[0]) == k then [s[0]] else [];
      var mine := if key(x) == k then [x] else [];
      assert WithKey(r, key, k) == head + WithKey(ins, key, k);
      assert WithKey(s, key, k) == head + WithKey(tail, key, k);
      if key(x) == k {
        assert head == [];
      } else {
        assert mine == [];
      }
    }
  }

  /** `Sort` orders by key and is a permutation of its input. */
  lemma {:induction false} SortSpec<T>(s: seq<T>, key: T -> int)
    ensures SortedBy(Sort(s, key), key)
    ensures multiset(Sort(s, key)) == multiset(s)
  {
    if s != [] {
      SortSpec(s[1..], key);
      InsertSorted(s[0], Sort(s[1..], key), key);
      InsertPermutes(s[0], Sort(s[1..], key), key);
      assert s == [s[0]] + s[1..];
    }
  }

  /** Stability: within every key class the input order is kept. */
  lemma {:induction false} SortStable<T>(s: seq<T>, key: T -> int, k: int)
    ensures WithKey(Sort(s, key), key, k) == WithKey(s, key, k)
  {
    if s != [] {
      SortStable(s[1..], key, k);
      InsertWithKey(s[0], Sort(s[1..], key), key, k);
    }
  }

  /** A projection that separates the elements of `s` also separates those of
      its sorted copy. */
  predicate DistinctBy<T>(s: seq<T>, f: T -> int) {
    forall i, j :: 0 <= i < j < |s| ==> f(s[i]) != f(s[j])
  }

  lemma {:induction false} SortDistinctBy<T>(s: seq<T>, key: T -> int, f: T -> int)
    requires DistinctBy(s, f)
    ensures DistinctBy(Sort(s, key), f)
  {
    if s != [] {
      var tail := s[1..];
      assert DistinctBy(tail, f) by {
        forall i, j | 0 <= i < j < |tail|
          ensures f(tail[i]) != f(tail[j])
        {
          assert tail[i] == s[i + 1] && tail[j] == s[j + 1];
        }
      }
      SortDistinctBy(tail, key, f);
      var st := Sort(tail, key);
      SortSpec(tail, key);
      forall y | y in st
        ensures f(y) != f(s[0])
      {
        assert y in multiset(tail);
        var j :| 0 <= j < |tail| && tail[j] == y;
        assert s[j + 1] == y;
      }
      InsertDistinctBy(s[0], st, key, f);
    }
  }

  lemma {:induction false} InsertDistinctBy<T>(x: T, s: seq<T>, key: T -> int, f: T -> int)
    requires DistinctBy(s, f)
    requires forall y :: y in s ==> f(y) != f(x)
    ensures DistinctBy(Insert(x, s, key), f)
  {
    if s == [] || key(x) <= key(s[0]) {
      ConsDistinctBy(x, s, f);
    } else {
      var tail := s[1..];
      assert DistinctBy(tail, f) by {
        forall i, j | 0 <= i < j < |tail|
          ensures f(tail[i]) != f(tail[j])
        {
          assert tail[i] == s[i + 1] && tail[j] == s[j + 1];
        }
      }
      InsertDistinctBy(x, tail, key, f);
      var ins := Insert(x, tail, key);
      InsertElements(x, tail, key);
      forall y | y in ins
        ensures f(y) != f(s[0])
      {
        if y != x {
          var j :| 0 <= j < |tail| && tail[j] == y;
          assert s[j + 1] == y;
        }
      }
      ConsDistinctBy(s[0], ins, f);
    }
  }

  /** Putting in front an element that no element separates from is kept
      apart from all of them. */
  lemma ConsDistinctBy<T>(x: T, s: seq<T>, f: T -> int)
    requires DistinctBy(s, f)
    requires forall y :: y in s ==> f(y) != f(x)
    ensures DistinctBy([x] + s, f)
  {
    var r := [x] + s;
    forall i, j | 0 <= i < j < |r|
      ensures f(r[i]) != f(r[j])
    {
      assert r[j] == s[j - 1];
      assert r[j] in s;
      if i > 0 { assert r[i] == s[i - 1]; }
    }
  }

  /** Within each key class, `rank` increases along the sequence. */
  predicate TiesRanked<T>(s: seq<T>, key: T -> int, rank: T -> int) {
    forall i, j :: 0 <= i < j < |s| && key(s[i]) == key(s[j]) ==> rank(s[i]) < rank(s[j])
  }

  /** Stability, stated on pairs: elements of equal key that were ranked in
      input order stay ranked in the sorted copy. */
  lemma {:induction false} SortKeepsTies<T>(s: seq<T>, key: T -> int, rank: T -> int)
    requires TiesRanked(s, key, rank)
    ensures TiesRanked(Sort(s, key), key, rank)
  {
    if s != [] {
      var tail := s[1..];
      assert TiesRanked(tail, key, rank) by {
        forall i, j | 0 <= i < j < |tail| && key(tail[i]) == key(tail[j])
          ensures rank(tail[i]) < rank(tail[j])
        {
          assert tail[i] == s[i + 1] && tail[j] == s[j + 1];
        }
      }
      SortKeepsTies(tail, key, rank);
      var st := Sort(tail, key);
      SortSpec(tail, key);
      forall y | y in st && key(y) == key(s[0])
        ensures rank(s[0]) < rank(y)
      {
        assert y in multiset(tail);
        var j :| 0 <= j < |tail| && tail[j] == y;
        assert s[j + 1] == y;
      }
      InsertKeepsTies(s[0], st, key, rank);
    }
  }

  lemma {:induction false} InsertKeepsTies<T>(x: T, s: seq<T>, key: T -> int, rank: T -> int)
    requires TiesRanked(s, key, rank)
    requires forall y :: y in s && key(y) == key(x) ==> rank(x) < rank(y)
    ensures TiesRanked(Insert(x, s, key), key, rank)
  {
    if s == [] || key(x) <= key(s[0]) {
      ConsKeepsTies(x, s, key, rank);
    } else {
      var tail := s[1..];
      TailKeepsTies(s, key, rank);
      InsertKeepsTies(x, tail, key, rank);
      var ins := Insert(x, tail, key);
      InsertElements(x, tail, key);
      forall y | y in ins && key(y) == key(s[0])
        ensures rank(s[0]) < rank(y)
      {
        assert y != x;
        var j :| 0 <= j < |tail| && tail[j] == y;
        assert s[j + 1] == y;
      }
      ConsKeepsTies(s[0], ins, key, rank);
    }
  }

  /** Dropping the first element keeps the ranking of ties. */
  lemma TailKeepsTies<T>(s: seq<T>, key: T -> int, rank: T -> int)
    requires s != [] && TiesRanked(s, key, rank)
    ensures TiesRanked(s[1..], key, rank)
  {
    var tail := s[1..];
    forall i, j | 0 <= i < j < |tail| && key(tail[i]) == key(tail[j])
      ensures rank(tail[i]) < rank(tail[j])
    {
      assert tail[i] == s[i + 1] && tail[j] == s[j + 1];
    }
  }

  /** Putting in front an element ranked below every tie that follows it
      keeps the ranking of ties. */
  lemma ConsKeepsTies<T>(x: T, s: seq<T>, key: T -> int, rank: T -> int)
    requires TiesRanked(s, key, rank)
    requires forall y :: y in s && key(y) == key(x) ==> rank(x) < rank(y)
    ensures TiesRanked([x] + s, key, rank)
  {
    var r := [x] + s;
    forall i, j | 0 <= i < j < |r| && key(r[i]) == key(r[j])
      ensures rank(r[i]) < rank(r[j])
    {
      assert r[j] == s[j - 1];
      assert r[j] in s;
      if i > 0 { assert r[i] == s[i - 1]; }
    }
  }
}
