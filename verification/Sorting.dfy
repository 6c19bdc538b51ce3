/** `sort.SliceStable` on an integer key, `sort.Slice` on a strict order, and what they promise. */
module Sorting {
  import opened Common

  /** Insert `x` into a sorted sequence, after every element whose key is not larger. */
  function Insert<T>(x: T, s: seq<T>, key: T -> int): seq<T> {
    if s == [] then [x]
    else if key(s[|s| - 1]) <= key(x) then s + [x]
    else Insert(x, s[..|s| - 1], key) + [s[|s| - 1]]
  }

  function StableSort<T>(s: seq<T>, key: T -> int): seq<T> {
    if s == [] then []
    else Insert(s[|s| - 1], StableSort(s[..|s| - 1], key), key)
  }

  ghost predicate SortedBy<T>(s: seq<T>, key: T -> int) {
    forall i, j :: 0 <= i < j < |s| ==> key(s[i]) <= key(s[j])
  }

  lemma {:induction false} InsertPermutes<T>(x: T, s: seq<T>, key: T -> int)
    ensures multiset(Insert(x, s, key)) == multiset(s) + multiset{x}
  {
    if s != [] {
      assert s == s[..|s| - 1] + [s[|s| - 1]];
      InsertPermutes(x, s[..|s| - 1], key);
    }
  }

  lemma LastIsLargest<T>(s: seq<T>, key: T -> int, y: T)
    requires SortedBy(s, key) && s != []
    ensures y in s ==> key(y) <= key(s[|s| - 1])
  {
  }

  lemma {:induction false} InsertSorted<T>(x: T, s: seq<T>, key: T -> int)
    requires SortedBy(s, key)
    ensures SortedBy(Insert(x, s, key), key)
  {
    if s != [] {
      var front, last := s[..|s| - 1], s[|s| - 1];
      assert s == front + [last];
      if key(last) > key(x) {
        InsertSorted(x, front, key);
        InsertPermutes(x, front, key);
        var t := Insert(x, front, key);
        forall i | 0 <= i < |t| ensures key(t[i]) <= key(last) {
          assert t[i] in multiset(t);
          LastIsLargest(s, key, t[i]);
        }
      }
    }
  }

  /** The sort orders its input and neither loses nor invents an element. */
  lemma {:induction false} StableSortSorts<T>(s: seq<T>, key: T -> int)
    ensures SortedBy(StableSort(s, key), key)
    ensures multiset(StableSort(s, key)) == multiset(s)
  {
    if s != [] {
      assert s == s[..|s| - 1] + [s[|s| - 1]];
      StableSortSorts(s[..|s| - 1], key);
      InsertSorted(s[|s| - 1], StableSort(s[..|s| - 1], key), key);
      InsertPermutes(s[|s| - 1], StableSort(s[..|s| - 1], key), key);
    }
  }

  /** The first element that satisfies `p`: what a loop with an early return finds. */
  function FirstMatch<T>(s: seq<T>, p: T -> bool): (r: Option<T>)
    ensures r.Some? ==> r.value in s && p(r.value)
    ensures r.None? <==> forall x :: x in s ==> !p(x)
  {
    if s == [] then None else if p(s[0]) then Some(s[0]) else FirstMatch(s[1..], p)
  }

  lemma {:induction false} FirstMatchSnoc<T>(s: seq<T>, x: T, p: T -> bool)
    ensures FirstMatch(s + [x], p) ==
            if FirstMatch(s, p).Some? then FirstMatch(s, p) else if p(x) then Some(x) else None
  {
    if s != [] {
      assert (s + [x])[1..] == s[1..] + [x];
      FirstMatchSnoc(s[1..], x, p);
    }
  }

  lemma {:induction false} FirstMatchInsert<T>(x: T, s: seq<T>, key: T -> int, p: T -> bool)
    requires SortedBy(s, key)
    ensures FirstMatch(Insert(x, s, key), p) ==
            if p(x) && (FirstMatch(s, p).None? || key(FirstMatch(s, p).value) > key(x))
            then Some(x) else FirstMatch(s, p)
  {
    if s != [] {
      var front, last := s[..|s| - 1], s[|s| - 1];
      assert s == front + [last];
      if key(last) <= key(x) {
        FirstMatchSnoc(s, x, p);
      } else {
        FirstMatchInsert(x, front, key, p);
        FirstMatchSnoc(front, last, p);
        FirstMatchSnoc(Insert(x, front, key), last, p);
      }
    }
  }

  /** Position `i` holds the element satisfying `p` that is least by (key, position). */
  ghost predicate IsLeast<T>(s: seq<T>, key: T -> int, p: T -> bool, i: int) {
    && 0 <= i < |s| && p(s[i])
    && forall j :: 0 <= j < |s| && p(s[j]) ==> key(s[i]) < key(s[j]) || (key(s[i]) == key(s[j]) && i <= j)
  }

  /** The first match after a stable sort is the match of the input that is least by (key, position). */
  lemma {:induction false} FirstMatchAfterSort<T>(s: seq<T>, key: T -> int, p: T -> bool) returns (i: int)
    ensures var r := FirstMatch(StableSort(s, key), p);
            if r.Some? then IsLeast(s, key, p, i) && r.value == s[i] else forall x :: x in s ==> !p(x)
  {
    i := -1;
    if s != [] {
      var front, x := s[..|s| - 1], s[|s| - 1];
      assert s == front + [x];
      StableSortSorts(front, key);
      FirstMatchInsert(x, StableSort(front, key), key, p);
      i := FirstMatchAfterSort(front, key, p);
      var r := FirstMatch(StableSort(front, key), p);
      if p(x) && (r.None? || key(r.value) > key(x)) {
        i := |s| - 1;
        assert r.None? ==> forall j :: 0 <= j < |front| ==> front[j] in front && !p(s[j]);
      }
    }
  }

  ghost predicate StrictlyOrdered<T>(s: seq<T>, less: (T, T) -> bool) {
    forall i, j :: 0 <= i < j < |s| ==> less(s[i], s[j])
  }

  lemma SameHead<T>(a: seq<T>, b: seq<T>, less: (T, T) -> bool)
    requires StrictlyOrdered(a, less) && StrictlyOrdered(b, less) && a != [] && b != []
    requires !(less(a[0], b[0]) && less(b[0], a[0])) && a[0] in b && b[0] in a
    ensures a[0] == b[0]
  {
  }

  lemma TailMultiset<T>(a: seq<T>)
    requires a != []
    ensures multiset(a[1..]) == multiset(a) - multiset{a[0]}
  {
    assert a == [a[0]] + a[1..];
  }

  /** An asymmetric order leaves only one way to line up the same elements. */
  lemma {:induction false} StrictOrderUnique<T>(a: seq<T>, b: seq<T>, less: (T, T) -> bool)
    requires StrictlyOrdered(a, less) && StrictlyOrdered(b, less)
    requires forall x, y :: x in a && y in a ==> !(less(x, y) && less(y, x))
    requires multiset(a) == multiset(b)
    ensures a == b
  {
    assert |a| == |multiset(a)| == |multiset(b)| == |b|;
    if a != [] {
      assert a[0] in multiset(b) && b[0] in multiset(a);
      SameHead(a, b, less);
      TailMultiset(a);
      TailMultiset(b);
      assert multiset(a[1..]) == multiset(b[1..]);
      assert forall x :: x in a[1..] ==> x in a;
      StrictOrderUnique(a[1..], b[1..], less);
    }
  }

  /** With distinct keys the order of the input does not matter. */
  lemma StableSortOfPermutation<T>(a: seq<T>, b: seq<T>, key: T -> int)
    requires multiset(a) == multiset(b)
    requires forall i, j :: 0 <= i < j < |a| ==> key(a[i]) != key(a[j])
    ensures StableSort(a, key) == StableSort(b, key)
  {
    StableSortSorts(a, key);
    StableSortSorts(b, key);
    SortedIsStrict(a, StableSort(a, key), key);
    SortedIsStrict(a, StableSort(b, key), key);
    StrictOrderUnique(StableSort(a, key), StableSort(b, key), KeyLess(key));
  }

  function KeyLess<T>(key: T -> int): (T, T) -> bool {
    (x: T, y: T) => key(x) < key(y)
  }

  lemma SortedIsStrict<T>(a: seq<T>, sorted: seq<T>, key: T -> int)
    requires multiset(a) == multiset(sorted) && SortedBy(sorted, key)
    requires forall i, j :: 0 <= i < j < |a| ==> key(a[i]) != key(a[j])
    ensures StrictlyOrdered(sorted, KeyLess(key))
  {
    DistinctKeys(a, sorted, key);
  }

  /** Having distinct keys is a property of the elements, not of their order. */
  lemma DistinctKeys<T, K>(a: seq<T>, b: seq<T>, key: T -> K)
    requires multiset(a) == multiset(b)
    requires forall i, j :: 0 <= i < j < |a| ==> key(a[i]) != key(a[j])
    ensures forall i, j :: 0 <= i < j < |b| ==> key(b[i]) != key(b[j])
  {
    forall i, j | 0 <= i < j < |b| ensures key(b[i]) != key(b[j]) {
      assert b[i] in multiset(a) && b[j] in multiset(a);
      if b[i] == b[j] {
        TwiceInSequence(b, i, j);
        TwicePositions(a, b[i]);
      }
    }
  }

  function Map<T, U>(s: seq<T>, f: T -> U): (r: seq<U>)
    ensures |r| == |s| && forall i :: 0 <= i < |s| ==> r[i] == f(s[i])
  {
    seq(|s|, i requires 0 <= i < |s| => f(s[i]))
  }

  lemma {:induction false} InsertMap<T, U>(x: T, s: seq<T>, key: T -> int, f: T -> U, fkey: U -> int)
    requires forall t :: fkey(f(t)) == key(t)
    ensures Insert(f(x), Map(s, f), fkey) == Map(Insert(x, s, key), f)
  {
    if s != [] {
      var front, last := s[..|s| - 1], s[|s| - 1];
      InsertMap(x, front, key, f, fkey);
      assert Map(s, f)[..|s| - 1] == Map(front, f);
      assert Map(s, f) + [f(x)] == Map(s + [x], f);
      assert Map(Insert(x, front, key) + [last], f) == Map(Insert(x, front, key), f) + [f(last)];
    }
  }

  /** Sorting commutes with a map that keeps the keys. */
  lemma {:induction false} StableSortMap<T, U>(s: seq<T>, key: T -> int, f: T -> U, fkey: U -> int)
    requires forall t :: fkey(f(t)) == key(t)
    ensures StableSort(Map(s, f), fkey) == Map(StableSort(s, key), f)
  {
    if s != [] {
      var front, last := s[..|s| - 1], s[|s| - 1];
      StableSortMap(front, key, f, fkey);
      assert Map(s, f)[..|s| - 1] == Map(front, f);
      InsertMap(last, StableSort(front, key), key, f, fkey);
    }
  }

  /** In order of key, and of position among equal keys. */
  ghost predicate InKeyOrder(order: seq<int>, key: int -> int) {
    forall k, l :: 0 <= k < l < |order| ==>
      key(order[k]) < key(order[l]) || (key(order[k]) == key(order[l]) && order[k] < order[l])
  }

  predicate Precedes(y: int, x: int, key: int -> int) {
    key(y) < key(x) || (key(y) == key(x) && y < x)
  }

  lemma OrderSnoc(order: seq<int>, x: int, key: int -> int)
    requires InKeyOrder(order, key) && forall k :: 0 <= k < |order| ==> Precedes(order[k], x, key)
    ensures InKeyOrder(order + [x], key)
  {
  }

  lemma LastFollows(order: seq<int>, key: int -> int, y: int)
    requires InKeyOrder(order, key) && order != [] && y in order[..|order| - 1]
    ensures Precedes(y, order[|order| - 1], key)
  {
    var j :| 0 <= j < |order| - 1 && order[..|order| - 1][j] == y;
    assert order[j] == y;
  }

  lemma {:induction false} InsertMembers(x: int, s: seq<int>, key: int -> int, y: int)
    requires y in Insert(x, s, key)
    ensures y == x || y in s
  {
    InsertPermutes(x, s, key);
    assert y in multiset(Insert(x, s, key));
  }

  lemma {:induction false} InsertInOrder(x: int, order: seq<int>, key: int -> int)
    requires InKeyOrder(order, key) && forall y :: y in order ==> y < x
    ensures InKeyOrder(Insert(x, order, key), key)
  {
    if order != [] {
      var front, last := order[..|order| - 1], order[|order| - 1];
      if key(last) <= key(x) {
        forall k | 0 <= k < |order| ensures Precedes(order[k], x, key) {
          assert order[k] in order && key(order[k]) <= key(last);
        }
        OrderSnoc(order, x, key);
      } else {
        assert forall y :: y in front ==> y in order;
        InsertInOrder(x, front, key);
        var t := Insert(x, front, key);
        forall k | 0 <= k < |t| ensures Precedes(t[k], last, key) {
          InsertMembers(x, front, key, t[k]);
          if t[k] in front { LastFollows(order, key, t[k]); }
        }
        OrderSnoc(t, last, key);
      }
    }
  }

  function Positions(n: nat): (r: seq<int>)
    ensures |r| == n && forall i :: 0 <= i < n ==> r[i] == i
  {
    seq(n, i requires 0 <= i < n => i)
  }

  lemma {:induction false} PositionsInOrder(n: nat, key: int -> int)
    ensures var order := StableSort(Positions(n), key);
            InKeyOrder(order, key) && |order| == n && forall i :: i in order <==> 0 <= i < n
  {
    if n > 0 {
      PositionsInOrder(n - 1, key);
      assert Positions(n)[..n - 1] == Positions(n - 1);
      InsertInOrder(n - 1, StableSort(Positions(n - 1), key), key);
      InsertPermutes(n - 1, StableSort(Positions(n - 1), key), key);
    }
    PositionsKept(n, key);
  }

  lemma PositionsKept(n: nat, key: int -> int)
    ensures var order := StableSort(Positions(n), key); |order| == n && forall i :: i in order <==> 0 <= i < n
  {
    var order := StableSort(Positions(n), key);
    StableSortSorts(Positions(n), key);
    assert |order| == |multiset(order)| == |multiset(Positions(n))|;
    forall i: int ensures i in order <==> 0 <= i < n {
      assert i in order <==> i in multiset(order);
      assert i in Positions(n) <==> i in multiset(Positions(n));
      assert 0 <= i < n ==> Positions(n)[i] in Positions(n);
    }
  }

  /**
   The stable sort lists every position of its input once, in order of key, and of
   position among equal keys.
   */
  lemma StableOrder<T>(s: seq<T>, key: T -> int) returns (order: seq<int>)
    ensures |order| == |s| == |StableSort(s, key)| && forall i :: i in order <==> 0 <= i < |s|
    ensures forall k :: 0 <= k < |s| ==> 0 <= order[k] < |s| && StableSort(s, key)[k] == s[order[k]]
    ensures forall k, l :: 0 <= k < l < |s| ==>
              key(s[order[k]]) < key(s[order[l]]) || (key(s[order[k]]) == key(s[order[l]]) && order[k] < order[l])
  {
    if s == [] {
      order := [];
    } else {
      var at := (i: int) => if 0 <= i < |s| then s[i] else s[0];
      var keyAt := (i: int) => key(at(i));
      order := StableSort(Positions(|s|), keyAt);
      PositionsInOrder(|s|, keyAt);
      assert Map(Positions(|s|), at) == s;
      StableSortMap(Positions(|s|), keyAt, at, key);
      assert forall k :: 0 <= k < |s| ==> order[k] in order;
      assert forall k :: 0 <= k < |s| ==> keyAt(order[k]) == key(s[order[k]]);
    }
  }

  lemma TwiceInSequence<T>(s: seq<T>, i: int, j: int)
    requires 0 <= i < j < |s| && s[i] == s[j]
    ensures multiset(s)[s[i]] >= 2
  {
    assert s == s[..i] + [s[i]] + s[i + 1..j] + [s[j]] + s[j + 1..];
  }

  lemma {:induction false} TwicePositions<T>(s: seq<T>, x: T)
    requires multiset(s)[x] >= 2
    ensures exists i, j :: 0 <= i < j < |s| && s[i] == x && s[j] == x
  {
    assert x in multiset(s);
    var i :| 0 <= i < |s| && s[i] == x;
    var rest := s[..i] + s[i + 1..];
    assert s == s[..i] + [s[i]] + s[i + 1..];
    assert x in multiset(rest);
    var j :| 0 <= j < |rest| && rest[j] == x;
    var k := if j < i then j else j + 1;
    assert s[k] == x;
    if k < i { assert s[k] == s[i]; } else { assert s[i] == s[k]; }
  }

  // ---------------------------------------------------------------- sort.Slice

  /** What `sort.Slice` does with a list of distinct names that `less` orders completely. */
  function InsertBy<T>(x: T, s: seq<T>, less: (T, T) -> bool): seq<T> {
    if s == [] then [x]
    else if less(s[|s| - 1], x) then s + [x]
    else InsertBy(x, s[..|s| - 1], less) + [s[|s| - 1]]
  }

  function SortBy<T>(s: seq<T>, less: (T, T) -> bool): seq<T> {
    if s == [] then [] else InsertBy(s[|s| - 1], SortBy(s[..|s| - 1], less), less)
  }

  /** `less` is a strict order in which any two of the elements compare. */
  ghost predicate Orders<T(!new)>(less: (T, T) -> bool, xs: set<T>) {
    && (forall x, y :: x in xs && y in xs && x != y ==> less(x, y) || less(y, x))
    && (forall x, y, z :: x in xs && y in xs && z in xs && less(x, y) && less(y, z) ==> less(x, z))
  }

  lemma {:induction false} InsertByOrders<T(!new)>(x: T, s: seq<T>, less: (T, T) -> bool, xs: set<T>)
    requires StrictlyOrdered(s, less) && Orders(less, xs) && x in xs && x !in s && forall y :: y in s ==> y in xs
    ensures StrictlyOrdered(InsertBy(x, s, less), less)
    ensures forall y :: y in InsertBy(x, s, less) <==> y == x || y in s
    ensures |InsertBy(x, s, less)| == |s| + 1
  {
    if s != [] {
      var front, last := s[..|s| - 1], s[|s| - 1];
      assert s == front + [last];
      if less(last, x) {
        assert forall y :: y in s ==> y == last || less(y, last);
      } else {
        InsertByOrders(x, front, less, xs);
        assert forall y :: y in InsertBy(x, front, less) ==> less(y, last);
      }
    }
  }

  lemma {:induction false} SortByOrders<T(!new)>(s: seq<T>, less: (T, T) -> bool, xs: set<T>)
    requires Orders(less, xs) && (forall y :: y in s ==> y in xs) && forall i, j :: 0 <= i < j < |s| ==> s[i] != s[j]
    ensures StrictlyOrdered(SortBy(s, less), less)
    ensures forall y :: y in SortBy(s, less) <==> y in s
    ensures |SortBy(s, less)| == |s|
  {
    if s != [] {
      var front, last := s[..|s| - 1], s[|s| - 1];
      assert s == front + [last];
      SortByOrders(front, less, xs);
      InsertByOrders(last, SortBy(front, less), less, xs);
    }
  }
}
