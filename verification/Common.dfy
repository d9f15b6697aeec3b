/** Result types, constants and the few sequence facts that several modules share. */
module Common {

  const I64_MIN: int := -0x8000_0000_0000_0000
  const I64_MAX: int := 0x7FFF_FFFF_FFFF_FFFF
  const NANOS_PER_MILLI: nat := 1_000_000

  datatype Option<+T> = None | Some(value: T)

  datatype Result<+T> = Ok(value: T) | Err

  function Min(a: int, b: int): int {
    if a <= b then a else b
  }

  ghost predicate NoDuplicates<T>(s: seq<T>) {
    forall i, j :: 0 <= i < j < |s| ==> s[i] != s[j]
  }

  /** `s` lists every element of `elements` once: the shape of one iteration over a hash container. */
  ghost predicate Enumerates<T(!new)>(s: seq<T>, elements: set<T>) {
    && NoDuplicates(s)
    && (forall x :: x in s <==> x in elements)
  }

  /** One step of a hash iteration. */
  method AnyOf<T(==)>(elements: set<T>) returns (x: T)
    requires elements != {}
    ensures x in elements
  {
    x :| x in elements;
  }

  function Flatten<T>(batches: seq<seq<T>>): seq<T> {
    if batches == [] then [] else batches[0] + Flatten(batches[1..])
  }

  lemma {:induction false} FlattenAppend<T>(batches: seq<seq<T>>, last: seq<T>)
    ensures Flatten(batches + [last]) == Flatten(batches) + last
  {
    if batches == [] {
      assert batches + [last] == [last];
      assert Flatten([last][1..]) == [];
    } else {
      assert (batches + [last])[1..] == batches[1..] + [last];
      FlattenAppend(batches[1..], last);
    }
  }

  function SumBy<T>(s: seq<T>, weight: T -> nat): nat {
    if s == [] then 0 else weight(s[0]) + SumBy(s[1..], weight)
  }

  lemma {:induction false} SumByUpdate<T>(s: seq<T>, weight: T -> nat, i: nat, x: T)
    requires i < |s|
    ensures SumBy(s[i := x], weight) + weight(s[i]) == SumBy(s, weight) + weight(x)
  {
    if i == 0 {
      assert s[0 := x][1..] == s[1..];
    } else {
      assert s[i := x][1..] == s[1..][i - 1 := x];
      SumByUpdate(s[1..], weight, i - 1, x);
    }
  }

  lemma {:induction false} SumByAppend<T>(s: seq<T>, weight: T -> nat, x: T)
    ensures SumBy(s + [x], weight) == SumBy(s, weight) + weight(x)
  {
    if s == [] {
      assert s + [x] == [x];
      assert [x][1..] == [];
    } else {
      assert (s + [x])[1..] == s[1..] + [x];
      SumByAppend(s[1..], weight, x);
    }
  }

  lemma {:induction false} SumByPositive<T>(s: seq<T>, weight: T -> nat)
    requires SumBy(s, weight) > 0
    ensures exists i :: 0 <= i < |s| && weight(s[i]) > 0
  {
    if weight(s[0]) == 0 {
      SumByPositive(s[1..], weight);
      var i :| 0 <= i < |s[1..]| && weight(s[1..][i]) > 0;
      assert weight(s[i + 1]) > 0;
    }
  }
}
