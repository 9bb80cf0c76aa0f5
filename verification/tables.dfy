/** Database tables as finite maps from a SERIAL primary key to a row, plus the
    next value of the key's sequence. */
module Tables {
  import opened Wrappers

  datatype Table<T> = Table(rows: map<nat, T>, nextId: nat)

  /** The result of an `UPDATE ... RETURNING` or `DELETE ... RETURNING`
      statement: the new table and the returned row, if one matched. */
  datatype Written<T, R> = Written(table: Table<T>, returned: Option<R>)

  /** A fresh table; PostgreSQL sequences start at 1. */
  function Empty<T>(): (t: Table<T>)
    ensures Bounded(t) && |t.rows| == 0
  {
    Table(map[], 1)
  }

  /** Every key was handed out by the sequence. */
  predicate Bounded<T>(t: Table<T>) {
    forall k :: k in t.rows ==> k < t.nextId
  }

  /** No element occurs twice. */
  ghost predicate NoDuplicates<T>(s: seq<T>) {
    forall i, j :: 0 <= i < j < |s| ==> s[i] != s[j]
  }

  /** Distinct keys hold distinct rows, as when every row carries its key. */
  ghost predicate DistinctRows<T>(rows: map<nat, T>) {
    forall i, j :: i in rows && j in rows && i != j ==> rows[i] != rows[j]
  }

  /** The rows whose key is below `n`, in ascending key order: each such row
      once, and nothing else. */
  function Below<T>(rows: map<nat, T>, n: nat): (r: seq<T>)
    ensures forall k :: k in rows && k < n ==> rows[k] in r
    ensures forall x :: x in r ==> exists k :: k in rows && k < n && rows[k] == x
    ensures DistinctRows(rows) ==> NoDuplicates(r)
    ensures |r| <= n
    decreases n
  {
    if n == 0 then []
    else
      var prefix := Below(rows, n - 1);
      if n - 1 in rows then
        var r := prefix + [rows[n - 1]];
        assert DistinctRows(rows) ==> rows[n - 1] !in prefix;
        assert forall i :: 0 <= i < |prefix| ==> r[i] == prefix[i];
        r
      else prefix
  }

  /** `SELECT * FROM t` with no ORDER BY, read in key order: every row, and
      nothing else. */
  function Listing<T(==,!new)>(t: Table<T>): (r: seq<T>)
    ensures Bounded(t) ==> forall x :: x in r <==> x in t.rows.Values
    ensures DistinctRows(t.rows) ==> NoDuplicates(r)
  {
    var r := Below(t.rows, t.nextId);
    assert Bounded(t) ==> forall x :: x in t.rows.Values ==> x in r by {
      if Bounded(t) {
        forall x | x in t.rows.Values ensures x in r {
          var k :| k in t.rows && t.rows[k] == x;
        }
      }
    }
    r
  }

  /** The elements of `s` satisfying `p`, in their order in `s`. */
  function Where<T(!new)>(s: seq<T>, p: T -> bool): (r: seq<T>)
    ensures forall x :: x in r <==> x in s && p(x)
    ensures NoDuplicates(s) ==> NoDuplicates(r)
    ensures |r| <= |s|
  {
    if |s| == 0 then []
    else
      var rest := Where(s[1..], p);
      assert forall x :: x in s <==> x == s[0] || x in s[1..];
      TailNoDuplicates(s);
      if p(s[0]) then [s[0]] + rest else rest
  }

  /** Filtering one more element at the end keeps the earlier result and
      appends the element exactly when it passes. */
  lemma {:induction false} WhereSnoc<T(!new)>(s: seq<T>, x: T, p: T -> bool)
    ensures Where(s + [x], p) == Where(s, p) + (if p(x) then [x] else [])
    decreases |s|
  {
    if |s| == 0 {
      assert s + [x] == [x];
      assert [x][1..] == [];
    } else {
      assert (s + [x])[1..] == s[1..] + [x];
      WhereSnoc(s[1..], x, p);
    }
  }

  /** Nothing passes a filter that every element fails. */
  lemma {:induction false} WhereNone<T(!new)>(s: seq<T>, p: T -> bool)
    requires forall x :: x in s ==> !p(x)
    ensures Where(s, p) == []
    decreases |s|
  {
    if |s| > 0 {
      assert s[0] in s;
      assert forall x :: x in s[1..] ==> x in s;
      WhereNone(s[1..], p);
    }
  }

  /** Without duplicates, the head does not recur in the tail, which has no
      duplicates either. */
  lemma TailNoDuplicates<T>(s: seq<T>)
    requires |s| > 0
    ensures NoDuplicates(s) ==> NoDuplicates(s[1..]) && s[0] !in s[1..]
  {
    if NoDuplicates(s) {
      forall i, j | 0 <= i < j < |s| - 1 ensures s[1..][i] != s[1..][j] {
        assert s[1..][i] == s[i + 1] && s[1..][j] == s[j + 1];
      }
      forall k | 0 <= k < |s| - 1 ensures s[1..][k] != s[0] {
        assert s[1..][k] == s[k + 1];
      }
    }
  }

  /** An element of a sequence without duplicates occurs once. */
  lemma {:induction false} NoDuplicatesCount<T>(s: seq<T>, x: T)
    requires NoDuplicates(s)
    ensures multiset(s)[x] == (if x in s then 1 else 0)
    decreases |s|
  {
    if |s| > 0 {
      assert s == [s[0]] + s[1..];
      TailNoDuplicates(s);
      NoDuplicatesCount(s[1..], x);
      assert multiset(s) == multiset{s[0]} + multiset(s[1..]);
    }
  }

  /** Two equal elements at different places count twice. */
  lemma TwiceCounted<T>(s: seq<T>, i: nat, j: nat)
    requires i < j < |s|
    ensures s[i] == s[j] ==> multiset(s)[s[j]] >= 2
  {
    assert s == s[..j] + [s[j]] + s[j + 1..];
    assert s[..j][i] == s[i];
    assert multiset(s) == multiset(s[..j]) + multiset{s[j]} + multiset(s[j + 1..]);
  }

  /** A permutation of a sequence without duplicates has none. */
  lemma NoDuplicatesPermutation<T>(a: seq<T>, b: seq<T>)
    requires multiset(a) == multiset(b)
    ensures NoDuplicates(a) ==> NoDuplicates(b)
  {
    if NoDuplicates(a) {
      forall i, j | 0 <= i < j < |b| ensures b[i] != b[j] {
        NoDuplicatesCount(a, b[j]);
        TwiceCounted(b, i, j);
      }
    }
  }

  /** The first element of `s` satisfying `p` (the `rows[0]` of a filtered
      query). */
  function First<T(!new)>(s: seq<T>, p: T -> bool): (r: Option<T>)
    ensures r.Some? ==> r.value in s && p(r.value)
    ensures r.None? <==> forall x :: x in s ==> !p(x)
    ensures r.Some? ==> p(s[0]) || First(s[1..], p) == r
  {
    if |s| == 0 then None
    else if p(s[0]) then Some(s[0])
    else
      assert forall x :: x in s ==> x == s[0] || x in s[1..];
      First(s[1..], p)
  }

  /** `t'` is `t` with the rows of `added` stored one after another from key
      `t.nextId`, and nothing else changed below that key. */
  ghost predicate Appended<T>(t: Table<T>, t': Table<T>, added: seq<T>) {
    && t'.nextId == t.nextId + |added|
    && (forall k :: k in t'.rows <==> k in t.rows || t.nextId <= k < t'.nextId)
    && (forall k :: k in t.rows && k < t.nextId ==> t'.rows[k] == t.rows[k])
    && (forall k :: t.nextId <= k < t'.nextId ==> t'.rows[k] == added[k - t.nextId])
  }

  /** Inserting at the next key extends an append by one row. */
  lemma AppendedStep<T>(t: Table<T>, t': Table<T>, added: seq<T>, x: T)
    requires Appended(t, t', added)
    ensures Appended(t, Table(t'.rows[t'.nextId := x], t'.nextId + 1), added + [x])
  {
    var t'' := Table(t'.rows[t'.nextId := x], t'.nextId + 1);
    forall k | t.nextId <= k < t''.nextId ensures t''.rows[k] == (added + [x])[k - t.nextId] {
      if k < t'.nextId {
        assert k in t'.rows;
      }
    }
  }
}
