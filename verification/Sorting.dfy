/** Sorting by a total preorder, as the standard library's unstable sorts specify it. */
module Sorting {
  /** `le` is total and transitive; elements with equal keys may still differ. */
  ghost predicate TotalPreorder<T(!new)>(le: (T, T) -> bool) {
    && (forall a, b :: le(a, b) || le(b, a))
    && (forall a, b, c :: le(a, b) && le(b, c) ==> le(a, c))
  }

  ghost predicate SortedBy<T>(le: (T, T) -> bool, s: seq<T>) {
    forall i, j :: 0 <= i < j < |s| ==> le(s[i], s[j])
  }

  function Insert<T(!new)>(le: (T, T) -> bool, s: seq<T>, e: T): seq<T> {
    if s == [] then [e]
    else if le(e, s[0]) then [e] + s
    else [s[0]] + Insert(le, s[1..], e)
  }

  function Sort<T(!new)>(le: (T, T) -> bool, s: seq<T>): seq<T> {
    if s == [] then [] else Insert(le, Sort(le, s[1..]), s[0])
  }

  lemma {:induction false} InsertPermutes<T(!new)>(le: (T, T) -> bool, s: seq<T>, e: T)
    ensures multiset(Insert(le, s, e)) == multiset(s) + multiset{e}
  {
    if s != [] {
      assert s == [s[0]] + s[1..];
      InsertPermutes(le, s[1..], e);
    }
  }

  lemma {:induction false} InsertSorted<T(!new)>(le: (T, T) -> bool, s: seq<T>, e: T)
    requires TotalPreorder(le) && SortedBy(le, s)
    ensures SortedBy(le, Insert(le, s, e))
  {
    if s != [] && !le(e, s[0]) {
      var rest := Insert(le, s[1..], e);
      InsertSorted(le, s[1..], e);
      InsertPermutes(le, s[1..], e);
      forall j | 0 <= j < |rest| ensures le(s[0], rest[j]) {
        assert rest[j] in multiset(rest);
        if rest[j] != e {
          assert rest[j] in multiset(s[1..]);
        }
      }
    }
  }

  /** Sorting yields an ordered permutation. */
  lemma {:induction false} SortSorts<T(!new)>(le: (T, T) -> bool, s: seq<T>)
    requires TotalPreorder(le)
    ensures SortedBy(le, Sort(le, s)) && multiset(Sort(le, s)) == multiset(s)
  {
    if s != [] {
      assert s == [s[0]] + s[1..];
      SortSorts(le, s[1..]);
      InsertSorted(le, Sort(le, s[1..]), s[0]);
      InsertPermutes(le, Sort(le, s[1..]), s[0]);
    }
  }

  lemma LeastFirst<T(!new)>(le: (T, T) -> bool, a: seq<T>, b: seq<T>)
    requires SortedBy(le, a) && multiset(a) == multiset(b) && a != [] && b != [] && a[0] != b[0]
    ensures b[0] in a && le(a[0], b[0])
  {
    assert b[0] in multiset(b);
    var j :| 0 <= j < |a| && a[j] == b[0];
  }

  lemma DropFirst<T>(a: seq<T>)
    requires a != []
    ensures multiset(a[1..]) == multiset(a) - multiset{a[0]}
    ensures forall x :: x in a[1..] ==> x in a
  {
    assert a == [a[0]] + a[1..];
  }

  /** Where equal keys mean equal elements, a multiset has only one sorted order. */
  lemma {:induction false} SortedUnique<T(!new)>(le: (T, T) -> bool, a: seq<T>, b: seq<T>)
    requires SortedBy(le, a) && SortedBy(le, b) && multiset(a) == multiset(b)
    requires forall x, y :: x in a && y in a && le(x, y) && le(y, x) ==> x == y
    ensures a == b
    decreases |a|
  {
    assert |a| == |multiset(a)| == |multiset(b)| == |b|;
    if a != [] {
      if a[0] != b[0] {
        LeastFirst(le, a, b);
        LeastFirst(le, b, a);
        assert false;
      }
      DropFirst(a);
      DropFirst(b);
      SortedUnique(le, a[1..], b[1..]);
      assert a == [a[0]] + a[1..] && b == [b[0]] + b[1..];
    }
  }
}
