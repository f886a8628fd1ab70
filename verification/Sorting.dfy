/** Stable sorting by a comparison. */
module Sorting {

  /** Inserts before the first element it does not have to follow. */
  function Inserted<T>(above: (T, T) -> bool, x: T, sorted: seq<T>): seq<T> {
    if sorted != [] && above(sorted[0], x) then [sorted[0]] + Inserted(above, x, sorted[1..]) else [x] + sorted
  }

  function Sorted<T>(above: (T, T) -> bool, s: seq<T>): seq<T> {
    if s == [] then [] else Inserted(above, s[0], Sorted(above, s[1..]))
  }

  /** The order a sort by `above` establishes. */
  ghost predicate Establishes<T(!new)>(above: (T, T) -> bool, inOrder: (T, T) -> bool) {
    && (forall a, b :: if above(a, b) then inOrder(a, b) else inOrder(b, a))
    && forall a, b, c :: inOrder(a, b) && inOrder(b, c) ==> inOrder(a, c)
  }

  ghost predicate Ordered<T>(inOrder: (T, T) -> bool, s: seq<T>) {
    forall i, j :: 0 <= i < j < |s| ==> inOrder(s[i], s[j])
  }

  lemma {:induction false} InsertedKeepsAll<T>(above: (T, T) -> bool, x: T, sorted: seq<T>)
    ensures multiset(Inserted(above, x, sorted)) == multiset(sorted) + multiset{x}
  {
    if sorted != [] && above(sorted[0], x) {
      InsertedKeepsAll(above, x, sorted[1..]);
      assert sorted == [sorted[0]] + sorted[1..];
    }
  }

  lemma {:induction false} InsertedIsOrdered<T(!new)>(above: (T, T) -> bool, inOrder: (T, T) -> bool, x: T, sorted: seq<T>)
    requires Establishes(above, inOrder) && Ordered(inOrder, sorted)
    ensures Ordered(inOrder, Inserted(above, x, sorted))
  {
    if sorted == [] {
    } else if above(sorted[0], x) {
      var rest := Inserted(above, x, sorted[1..]);
      InsertedIsOrdered(above, inOrder, x, sorted[1..]);
      InsertedKeepsAll(above, x, sorted[1..]);
      forall j | 0 <= j < |rest| ensures inOrder(sorted[0], rest[j]) {
        assert rest[j] in multiset(rest);
        assert rest[j] == x || rest[j] in sorted[1..];
      }
    } else {
      assert inOrder(x, sorted[0]);
    }
  }

  lemma {:induction false} SortedKeepsAll<T>(above: (T, T) -> bool, s: seq<T>)
    ensures multiset(Sorted(above, s)) == multiset(s)
  {
    if s != [] {
      SortedKeepsAll(above, s[1..]);
      InsertedKeepsAll(above, s[0], Sorted(above, s[1..]));
      assert s == [s[0]] + s[1..];
    }
  }

  lemma {:induction false} SortedIsOrdered<T(!new)>(above: (T, T) -> bool, inOrder: (T, T) -> bool, s: seq<T>)
    requires Establishes(above, inOrder)
    ensures Ordered(inOrder, Sorted(above, s))
  {
    if s != [] {
      SortedIsOrdered(above, inOrder, s[1..]);
      InsertedIsOrdered(above, inOrder, s[0], Sorted(above, s[1..]));
    }
  }

  lemma SameMembers<T(!new)>(a: seq<T>, b: seq<T>)
    requires multiset(a) == multiset(b)
    ensures |a| == |b| && forall x :: x in a <==> x in b
  {
    assert |multiset(a)| == |multiset(b)|;
    assert forall x :: x in a <==> x in multiset(a);
    assert forall x :: x in b <==> x in multiset(b);
  }

  lemma SortedKeepsMembers<T(!new)>(above: (T, T) -> bool, s: seq<T>)
    ensures |Sorted(above, s)| == |s| && forall x :: x in Sorted(above, s) <==> x in s
  {
    SortedKeepsAll(above, s);
    SameMembers(Sorted(above, s), s);
  }
}
