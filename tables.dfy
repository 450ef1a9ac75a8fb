/** Rows of a relational table held as a sequence, with the handful of
    operations a keyed store performs on them: a unique-key lookup, a
    filtered scan, an update and a delete by key, and an ordered scan. */
module Tables {

  /** The result of a unique-key lookup; it lives here because `Lookup`
      returns it, and the row types reuse it for nullable columns. */
  datatype Option<+T> = None | Some(value: T)

  /** No two rows of the table share a key (a unique constraint). */
  ghost predicate Unique<R, K>(rows: seq<R>, key: R -> K) {
    forall i, j :: 0 <= i < j < |rows| ==> key(rows[i]) != key(rows[j])
  }

  /** The first row whose key is `k`: a unique-key lookup. */
  function Lookup<R, K(==)>(rows: seq<R>, key: R -> K, k: K): (r: Option<R>)
    ensures r.None? <==> forall i :: 0 <= i < |rows| ==> key(rows[i]) != k
    ensures r.Some? ==> r.value in rows && key(r.value) == k
  {
    if rows == [] then None
    else if key(rows[0]) == k then Some(rows[0])
    else
      var rest := Lookup(rows[1..], key, k);
      assert forall i :: 1 <= i < |rows| ==> rows[i] == rows[1..][i - 1];
      rest
  }

  /** A predicate on rows: the row's key is `k`. */
  function KeyIs<R, K(==)>(key: R -> K, k: K): R -> bool {
    x => key(x) == k
  }

  /** A predicate on rows: the row's key is not `k`. */
  function KeyIsNot<R, K(==)>(key: R -> K, k: K): R -> bool {
    x => key(x) != k
  }

  /** The rows satisfying `keep`, in table order (a `where` scan). */
  function Filter<R>(rows: seq<R>, keep: R -> bool): (r: seq<R>)
    ensures |r| <= |rows|
    ensures forall i :: 0 <= i < |r| ==> r[i] in rows && keep(r[i])
    ensures forall i :: 0 <= i < |rows| && keep(rows[i]) ==> rows[i] in r
  {
    if rows == [] then []
    else (if keep(rows[0]) then [rows[0]] else []) + Filter(rows[1..], keep)
  }

  /** A filtered scan holds each kept row as often as the table does, and
      no other row. */
  lemma FilterCounts<R>(rows: seq<R>, keep: R -> bool, r: seq<R>)
    requires r == Filter(rows, keep)
    ensures multiset(r) <= multiset(rows)
    ensures forall i :: 0 <= i < |rows| ==>
      multiset(r)[rows[i]] == if keep(rows[i]) then multiset(rows)[rows[i]] else 0
  {
    FilterIncluded(rows, keep);
    forall i | 0 <= i < |rows|
      ensures multiset(r)[rows[i]] == if keep(rows[i]) then multiset(rows)[rows[i]] else 0
    {
      FilterCount(rows, keep, rows[i]);
    }
  }

  /** A filtered scan holds no row more often than the table. */
  lemma {:induction false} FilterIncluded<R>(rows: seq<R>, keep: R -> bool)
    ensures multiset(Filter(rows, keep)) <= multiset(rows)
  {
    if rows != [] {
      FilterIncluded(rows[1..], keep);
      assert rows == [rows[0]] + rows[1..];
    }
  }

  /** How often a filtered scan holds a given row. */
  lemma {:induction false} FilterCount<R>(rows: seq<R>, keep: R -> bool, x: R)
    ensures multiset(Filter(rows, keep))[x] == if keep(x) then multiset(rows)[x] else 0
  {
    if rows != [] {
      FilterCount(rows[1..], keep, x);
      assert rows == [rows[0]] + rows[1..];
    }
  }

  /** Every row whose key is `k` replaced by `x` (an update by key). */
  function Replace<R, K(==)>(rows: seq<R>, key: R -> K, k: K, x: R): (r: seq<R>)
    ensures |r| == |rows|
    ensures forall i :: 0 <= i < |rows| ==> r[i] == if key(rows[i]) == k then x else rows[i]
  {
    if rows == [] then []
    else [if key(rows[0]) == k then x else rows[0]] + Replace(rows[1..], key, k, x)
  }

  /** Rows ordered by a non-decreasing rank. */
  ghost predicate Ascending<R>(rows: seq<R>, rank: R -> int) {
    forall i, j :: 0 <= i < j < |rows| ==> rank(rows[i]) <= rank(rows[j])
  }

  /** Inserts `x` into an ascending sequence, keeping it ascending. */
  function InsertByRank<R>(x: R, rows: seq<R>, rank: R -> int): (r: seq<R>)
    requires Ascending(rows, rank)
    ensures Ascending(r, rank)
    ensures multiset(r) == multiset(rows) + multiset{x}
  {
    if rows == [] then [x]
    else if rank(x) <= rank(rows[0]) then
      AscendingCons(x, rows, rank);
      [x] + rows
    else
      var rest := InsertByRank(x, rows[1..], rank);
      assert rows == [rows[0]] + rows[1..];
      RankFloor(rank(rows[0]), rows[1..], x, rest, rank);
      AscendingCons(rows[0], rest, rank);
      [rows[0]] + rest
  }

  /** A row ranked no higher than every row of an ascending sequence can
      lead it. */
  lemma AscendingCons<R>(y: R, rows: seq<R>, rank: R -> int)
    requires Ascending(rows, rank)
    requires forall i :: 0 <= i < |rows| ==> rank(y) <= rank(rows[i])
    ensures Ascending([y] + rows, rank)
  {
  }

  /** A lower bound on the ranks of `rows` and of `x` bounds every row of a
      sequence holding exactly those rows. */
  lemma RankFloor<R>(low: int, rows: seq<R>, x: R, rest: seq<R>, rank: R -> int)
    requires forall i :: 0 <= i < |rows| ==> low <= rank(rows[i])
    requires low <= rank(x)
    requires multiset(rest) == multiset(rows) + multiset{x}
    ensures forall i :: 0 <= i < |rest| ==> low <= rank(rest[i])
  {
    forall i | 0 <= i < |rest| ensures low <= rank(rest[i]) {
      assert rest[i] in multiset(rest);
      if rest[i] != x {
        assert rest[i] in multiset(rows);
        var j :| 0 <= j < |rows| && rows[j] == rest[i];
      }
    }
  }

  /** The rows sorted by ascending rank (an `orderBy ... asc` scan). */
  function OrderBy<R>(rows: seq<R>, rank: R -> int): (r: seq<R>)
    ensures Ascending(r, rank)
    ensures multiset(r) == multiset(rows)
  {
    if rows == [] then []
    else
      assert rows == [rows[0]] + rows[1..];
      InsertByRank(rows[0], OrderBy(rows[1..], rank), rank)
  }

  /** Under a unique key, looking up the key of any row finds that row. */
  lemma LookupUnique<R, K>(rows: seq<R>, key: R -> K, i: nat)
    requires Unique(rows, key) && i < |rows|
    ensures Lookup(rows, key, key(rows[i])) == Some(rows[i])
  {
  }

  /** Appending a row changes a lookup only when the key was absent. */
  lemma {:induction false} LookupAppend<R, K>(rows: seq<R>, key: R -> K, x: R, k: K)
    ensures Lookup(rows + [x], key, k) ==
      if Lookup(rows, key, k).Some? then Lookup(rows, key, k)
      else if key(x) == k then Some(x) else None
  {
    if rows != [] {
      assert (rows + [x])[1..] == rows[1..] + [x];
      LookupAppend(rows[1..], key, x, k);
    }
  }

  /** Appending a row with an absent key keeps the key unique. */
  lemma UniqueAppend<R, K>(rows: seq<R>, key: R -> K, x: R)
    requires Unique(rows, key) && Lookup(rows, key, key(x)).None?
    ensures Unique(rows + [x], key)
  {
  }

  /** Replacing the row of key `k` by a row of the same key changes the
      lookup of `k` and no other. */
  lemma {:induction false} LookupReplace<R, K>(rows: seq<R>, key: R -> K, k: K, x: R, k': K)
    requires key(x) == k
    ensures Lookup(Replace(rows, key, k, x), key, k') ==
      if k' != k then Lookup(rows, key, k')
      else if Lookup(rows, key, k).Some? then Some(x) else None
  {
    if rows != [] {
      assert Replace(rows, key, k, x)[1..] == Replace(rows[1..], key, k, x);
      LookupReplace(rows[1..], key, k, x, k');
    }
  }

  /** Replacing rows by rows of the same key keeps the key unique. */
  lemma ReplaceUnique<R, K>(rows: seq<R>, key: R -> K, k: K, x: R)
    requires Unique(rows, key) && key(x) == k
    ensures Unique(Replace(rows, key, k, x), key)
  {
  }

  /** Deleting the rows of key `k0` makes `k0` absent and changes no other lookup. */
  lemma {:induction false} LookupDelete<R, K>(rows: seq<R>, key: R -> K, k0: K, k: K)
    ensures Lookup(Filter(rows, KeyIsNot(key, k0)), key, k) ==
      if k == k0 then None else Lookup(rows, key, k)
  {
    if rows != [] {
      var keep := KeyIsNot(key, k0);
      var rest := Filter(rows[1..], keep);
      LookupDelete(rows[1..], key, k0, k);
      if key(rows[0]) == k0 {
        assert Filter(rows, keep) == rest;
      } else {
        assert Filter(rows, keep) == [rows[0]] + rest;
        assert ([rows[0]] + rest)[1..] == rest;
      }
    }
  }

  /** A filtered table keeps every unique key unique. */
  lemma {:induction false} FilterUnique<R, K>(rows: seq<R>, keep: R -> bool, key: R -> K)
    requires Unique(rows, key)
    ensures Unique(Filter(rows, keep), key)
  {
    if rows != [] {
      assert Unique(rows[1..], key);
      FilterUnique(rows[1..], keep, key);
      var rest := Filter(rows[1..], keep);
      forall y | y in rest ensures key(y) != key(rows[0]) {
        var j :| 0 <= j < |rows[1..]| && rows[1..][j] == y;
        assert rows[j + 1] == y;
      }
    }
  }

  /** The rows of a filtered, ordered scan are the kept rows of the table. */
  lemma FilterOrderByMembers<R>(rows: seq<R>, keep: R -> bool, rank: R -> int, r: seq<R>)
    requires r == OrderBy(Filter(rows, keep), rank)
    ensures |r| == |Filter(rows, keep)|
    ensures forall k :: 0 <= k < |r| ==> r[k] in rows && keep(r[k])
    ensures forall i :: 0 <= i < |rows| && keep(rows[i]) ==> rows[i] in r
  {
    var kept := Filter(rows, keep);
    assert |r| == |multiset(r)| == |multiset(kept)| == |kept|;
    forall k | 0 <= k < |r| ensures r[k] in rows && keep(r[k]) {
      assert r[k] in multiset(kept);
    }
    forall i | 0 <= i < |rows| && keep(rows[i]) ensures rows[i] in r {
      assert rows[i] in multiset(kept);
    }
  }
}
