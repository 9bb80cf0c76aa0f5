/** Stable insertion sort over a caller-supplied ordering, used for the
    `ORDER BY created_at DESC` of image listings and for the sorted listing of
    migration files. */
module Sorting {

  /** `le` is total and transitive, so it can order any sequence. */
  ghost predicate TotalPreorder<T(!new)>(le: (T, T) -> bool) {
    && (forall a, b :: le(a, b) || le(b, a))
    && (forall a, b, c :: le(a, b) && le(b, c) ==> le(a, c))
  }

  predicate SortedBy<T>(s: seq<T>, le: (T, T) -> bool) {
    forall i, j :: 0 <= i < j < |s| ==> le(s[i], s[j])
  }

  /** Places `x` into a sorted sequence, after every element it does not precede. */
  function Insert<T(!new)>(x: T, s: seq<T>, le: (T, T) -> bool): (r: seq<T>)
    requires TotalPreorder(le)
    requires SortedBy(s, le)
    ensures SortedBy(r, le)
    ensures multiset(r) == multiset(s) + multiset{x}
    ensures |r| == |s| + 1
  {
    if |s| == 0 then [x]
    else if le(x, s[0]) then
      assert forall j :: 0 <= j < |s| ==> le(x, s[j]);
      [x] + s
    else
      var rest := Insert(x, s[1..], le);
      assert s == [s[0]] + s[1..];
      HeadPrecedesInsert(x, s, le, rest);
      ConsSorted(s[0], rest, le);
      [s[0]] + rest
  }

  /** When `x` goes after the head, the head precedes everything `x` was
      inserted among. */
  lemma HeadPrecedesInsert<T(!new)>(x: T, s: seq<T>, le: (T, T) -> bool, rest: seq<T>)
    requires TotalPreorder(le) && SortedBy(s, le) && |s| > 0 && !le(x, s[0])
    requires multiset(rest) == multiset(s[1..]) + multiset{x}
    ensures forall j :: 0 <= j < |rest| ==> le(s[0], rest[j])
  {
    forall j | 0 <= j < |rest| ensures le(s[0], rest[j]) {
      var y := rest[j];
      assert y in multiset(rest);
      if y != x {
        assert y in multiset(s[1..]);
        var i :| 0 <= i < |s[1..]| && s[1..][i] == y;
        assert s[i + 1] == y;
      }
    }
  }

  /** An element that precedes all of a sorted sequence can head it. */
  lemma ConsSorted<T>(h: T, rest: seq<T>, le: (T, T) -> bool)
    requires SortedBy(rest, le)
    requires forall j :: 0 <= j < |rest| ==> le(h, rest[j])
    ensures SortedBy([h] + rest, le)
  {
    var r := [h] + rest;
    forall i, j | 0 <= i < j < |r| ensures le(r[i], r[j]) {
      assert r[j] == rest[j - 1];
      if i > 0 { assert r[i] == rest[i - 1]; }
    }
  }

  /** A sorted permutation of `s`. */
  function Sort<T(!new)>(s: seq<T>, le: (T, T) -> bool): (r: seq<T>)
    requires TotalPreorder(le)
    ensures SortedBy(r, le)
    ensures multiset(r) == multiset(s)
    ensures |r| == |s|
  {
    if |s| == 0 then []
    else
      assert s == s[..|s| - 1] + [s[|s| - 1]];
      Insert(s[|s| - 1], Sort(s[..|s| - 1], le), le)
  }

  /** The same elements, in the sorted order. */
  lemma SortSameElements<T(!new)>(s: seq<T>, le: (T, T) -> bool, x: T)
    requires TotalPreorder(le)
    ensures x in Sort(s, le) <==> x in s
  {
    var r := Sort(s, le);
    assert x in r <==> x in multiset(r);
    assert x in s <==> x in multiset(s);
  }
}
