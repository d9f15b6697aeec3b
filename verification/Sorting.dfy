/**
Sorting by an integer key. `Sort` is stable; facts that must hold of any library sort, stable or
not, are stated about every sorted permutation.
*/
module Sorting {

  ghost predicate Sorted<T>(s: seq<T>, key: T -> int) {
    forall i, j :: 0 <= i < j < |s| ==> key(s[i]) <= key(s[j])
  }

  /** `r` is `s` in ascending key order, ties in any order. */
  ghost predicate IsSortOf<T>(r: seq<T>, s: seq<T>, key: T -> int) {
    Sorted(r, key) && multiset(r) == multiset(s)
  }

  /** Inserts `x` behind every element of a key not above its own. */
  function Insert<T>(s: seq<T>, x: T, key: T -> int): (r: seq<T>)
    ensures |r| == |s| + 1
  {
    if s == [] then [x]
    else
      var n := |s| - 1;
      if key(s[n]) <= key(x) then s + [x] else Insert(s[..n], x, key) + [s[n]]
  }

  lemma {:induction false} InsertKeeps<T>(s: seq<T>, x: T, key: T -> int)
    ensures multiset(Insert(s, x, key)) == multiset(s) + multiset{x}
  {
    if s != [] {
      var n := |s| - 1;
      assert s == s[..n] + [s[n]];
      InsertKeeps(s[..n], x, key);
    }
  }

  lemma {:induction false} InsertSorts<T>(s: seq<T>, x: T, key: T -> int)
    requires Sorted(s, key)
    ensures Sorted(Insert(s, x, key), key)
  {
    if s != [] {
      var n := |s| - 1;
      if key(s[n]) > key(x) {
        InsertSorts(s[..n], x, key);
        InsertKeeps(s[..n], x, key);
        var front := Insert(s[..n], x, key);
        forall i | 0 <= i < |front|
          ensures key(front[i]) <= key(s[n])
        {
          assert front[i] in multiset(front);
          assert front[i] == x || front[i] in s[..n];
        }
      }
    }
  }

  function Sort<T>(s: seq<T>, key: T -> int): (r: seq<T>) {
    if s == [] then [] else Insert(Sort(s[..|s| - 1], key), s[|s| - 1], key)
  }

  lemma {:induction false} SortSorts<T>(s: seq<T>, key: T -> int)
    ensures IsSortOf(Sort(s, key), s, key)
  {
    if s != [] {
      var n := |s| - 1;
      assert s == s[..n] + [s[n]];
      SortSorts(s[..n], key);
      InsertKeeps(Sort(s[..n], key), s[n], key);
      InsertSorts(Sort(s[..n], key), s[n], key);
    }
  }

  lemma {:induction false} SortSorted<T>(s: seq<T>, key: T -> int)
    requires Sorted(s, key)
    ensures Sort(s, key) == s
  {
    if s != [] {
      var n := |s| - 1;
      SortSorted(s[..n], key);
      assert s == s[..n] + [s[n]];
    }
  }

  /** Elements that share a key are equal. */
  ghost predicate TieFree<T>(s: seq<T>, key: T -> int) {
    forall x, y :: x in s && y in s && key(x) == key(y) ==> x == y
  }

  lemma {:induction false} SameMembers<T>(a: seq<T>, b: seq<T>)
    requires multiset(a) == multiset(b)
    ensures forall i :: 0 <= i < |a| ==> a[i] in b
  {
    forall i | 0 <= i < |a|
      ensures a[i] in b
    {
      assert a[i] in multiset(b);
    }
  }

  lemma {:induction false} SameHead<T>(a: seq<T>, b: seq<T>, key: T -> int)
    requires Sorted(a, key) && Sorted(b, key) && multiset(a) == multiset(b) && TieFree(a, key)
    requires a != [] && b != []
    ensures a[0] == b[0]
  {
    assert a[0] in multiset(b) && b[0] in multiset(a);
    var i :| 0 <= i < |a| && a[i] == b[0];
    var j :| 0 <= j < |b| && b[j] == a[0];
    assert key(a[0]) <= key(a[i]) && key(b[0]) <= key(b[j]);
  }

  lemma {:induction false} SameTail<T>(a: seq<T>, b: seq<T>)
    requires multiset(a) == multiset(b) && a != [] && b != [] && a[0] == b[0]
    ensures multiset(a[1..]) == multiset(b[1..])
  {
    assert a == [a[0]] + a[1..] && b == [b[0]] + b[1..];
    assert multiset(a[1..]) == multiset(a) - multiset{a[0]};
    assert multiset(b[1..]) == multiset(b) - multiset{b[0]};
  }

  /** Without ties there is only one way to sort. */
  lemma {:induction false} SortIsUnique<T>(a: seq<T>, b: seq<T>, key: T -> int)
    requires Sorted(a, key) && Sorted(b, key) && multiset(a) == multiset(b) && TieFree(a, key)
    ensures a == b
  {
    assert |a| == |multiset(a)| == |multiset(b)| == |b|;
    if a != [] {
      SameHead(a, b, key);
      SameTail(a, b);
      SortIsUnique(a[1..], b[1..], key);
      assert a == [a[0]] + a[1..] && b == [b[0]] + b[1..];
    }
  }

  /** `s` with the elements at two positions exchanged. */
  ghost function Swapped<T>(s: seq<T>, i: nat, j: nat): seq<T>
    requires i < |s| && j < |s|
  {
    s[i := s[j]][j := s[i]]
  }

  /** Exchanging two elements of one key gives another way to sort. */
  lemma {:induction false} SwapKeepsSorted<T>(s: seq<T>, i: nat, j: nat, key: T -> int)
    requires Sorted(s, key) && i < |s| && j < |s| && key(s[i]) == key(s[j])
    ensures IsSortOf(Swapped(s, i, j), s, key)
  {
  }

  /** Without ties every order of arrival gives the same sorted order. */
  lemma {:induction false} SameOrderWithoutTies<T>(s: seq<T>, p: seq<T>, key: T -> int)
    requires TieFree(s, key) && multiset(p) == multiset(s)
    ensures Sort(p, key) == Sort(s, key)
  {
    SortSorts(s, key);
    SortSorts(p, key);
    SameMembers(Sort(s, key), s);
    SortIsUnique(Sort(s, key), Sort(p, key), key);
  }

  /** And with a tie some order of arrival gives another one. */
  lemma {:induction false} OtherOrderWithTie<T>(s: seq<T>, x: T, y: T, key: T -> int) returns (p: seq<T>)
    requires x in s && y in s && key(x) == key(y) && x != y
    ensures multiset(p) == multiset(s) && Sort(p, key) != Sort(s, key)
  {
    var sorted := Sort(s, key);
    SortSorts(s, key);
    assert x in multiset(sorted) && y in multiset(sorted);
    var i :| 0 <= i < |sorted| && sorted[i] == x;
    var j :| 0 <= j < |sorted| && sorted[j] == y;
    p := Swapped(sorted, i, j);
    SwapKeepsSorted(sorted, i, j, key);
    SortSorted(p, key);
    assert p[i] != sorted[i];
  }

  /** The sorted order is the same for every order of arrival if and only if there are no ties. */
  lemma {:induction false} SortedOrderFixedIff<T(!new)>(s: seq<T>, key: T -> int)
    ensures TieFree(s, key) <==>
      forall p :: multiset(p) == multiset(s) ==> Sort(p, key) == Sort(s, key)
  {
    if TieFree(s, key) {
      forall p | multiset(p) == multiset(s)
        ensures Sort(p, key) == Sort(s, key)
      {
        SameOrderWithoutTies(s, p, key);
      }
    } else {
      var x, y :| x in s && y in s && key(x) == key(y) && x != y;
      var p := OtherOrderWithTie(s, x, y, key);
    }
  }

  /** The elements of one key, in order. */
  function WithKey<T>(s: seq<T>, key: T -> int, k: int): seq<T> {
    if s == [] then []
    else WithKey(s[..|s| - 1], key, k) + (if key(s[|s| - 1]) == k then [s[|s| - 1]] else [])
  }

  lemma {:induction false} InsertStable<T>(s: seq<T>, x: T, key: T -> int, k: int)
    ensures WithKey(Insert(s, x, key), key, k) == WithKey(s, key, k) + (if key(x) == k then [x] else [])
  {
    if s == [] {
      assert [x][..0] == [];
    } else {
      var n := |s| - 1;
      if key(s[n]) <= key(x) {
        assert (s + [x])[..|s|] == s;
      } else {
        var front := Insert(s[..n], x, key);
        InsertStable(s[..n], x, key, k);
        assert (front + [s[n]])[..|front|] == front;
      }
    }
  }

  /** Elements of one key stay in the order they came in. */
  lemma {:induction false} SortStable<T>(s: seq<T>, key: T -> int, k: int)
    ensures WithKey(Sort(s, key), key, k) == WithKey(s, key, k)
  {
    if s != [] {
      var n := |s| - 1;
      SortStable(s[..n], key, k);
      InsertStable(Sort(s[..n], key), s[n], key, k);
    }
  }
}
