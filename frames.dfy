/**
 * Whole-table operations the pipeline borrows from pandas, on a table held as
 * a sequence of rows: boolean-mask selection, `drop_duplicates(subset=key)`,
 * `duplicated().sum()`, `isin`, a left merge on a unique key, and column
 * assignment in place.
 */
module Frames {
  import opened Cells

  /** Applies `f` to every row. */
  function MapRows<R, S>(s: seq<R>, f: R -> S): (r: seq<S>)
    ensures |r| == |s|
    ensures forall i :: 0 <= i < |s| ==> r[i] == f(s[i])
  {
    seq(|s|, i requires 0 <= i < |s| => f(s[i]))
  }

  /**
   * `df[col] = f(df[col])` and `df.loc[mask, col] = v`: every row of the table
   * `df` is rewritten in place by `f`, which touches one column.
   */
  method AssignColumn<R>(df: array<R>, f: R -> R)
    modifies df
    ensures df[..] == MapRows(old(df[..]), f)
  {
    for i := 0 to df.Length
      invariant forall k :: 0 <= k < i ==> df[k] == f(old(df[k]))
      invariant forall k :: i <= k < df.Length ==> df[k] == old(df[k])
    {
      df[i] := f(df[i]);
    }
  }

  /** `df[mask]`: the rows `keep` accepts, in their original order. */
  function Filter<R>(s: seq<R>, keep: R -> bool): seq<R>
  {
    if s == [] then []
    else Filter(s[..|s| - 1], keep) + (if keep(s[|s| - 1]) then [s[|s| - 1]] else [])
  }

  /** `a` is `b` with some rows left out and the others, unmodified, in their order. */
  predicate IsSubsequence<R(==)>(a: seq<R>, b: seq<R>)
    decreases |b|
  {
    if a == [] then true
    else if b == [] then false
    else if a[|a| - 1] == b[|b| - 1] then IsSubsequence(a[..|a| - 1], b[..|b| - 1])
    else IsSubsequence(a, b[..|b| - 1])
  }

  lemma {:induction false} SubsequenceExtend<R>(a: seq<R>, b: seq<R>, x: R)
    requires IsSubsequence(a, b)
    ensures IsSubsequence(a, b + [x])
    decreases |b|, 1
  {
    assert (b + [x])[..|b|] == b;
    if a != [] && a[|a| - 1] == x {
      SubsequenceDropLast(a, b);
    }
  }

  lemma {:induction false} SubsequenceDropLast<R>(a: seq<R>, b: seq<R>)
    requires a != [] && IsSubsequence(a, b)
    ensures IsSubsequence(a[..|a| - 1], b)
    decreases |b|, 0
  {
    var b', last := b[..|b| - 1], b[|b| - 1];
    assert b == b' + [last];
    if a[|a| - 1] == last {
      SubsequenceExtend(a[..|a| - 1], b', last);
    } else {
      SubsequenceDropLast(a, b');
      SubsequenceExtend(a[..|a| - 1], b', last);
    }
  }

  /** A subsequence is no longer than the table and holds only rows of it. */
  lemma {:induction false} SubsequenceElements<R>(a: seq<R>, b: seq<R>)
    requires IsSubsequence(a, b)
    ensures |a| <= |b|
    ensures forall x :: x in a ==> x in b
    decreases |b|
  {
    if a != [] {
      var b' := b[..|b| - 1];
      assert b == b' + [b[|b| - 1]];
      if a[|a| - 1] == b[|b| - 1] {
        var a' := a[..|a| - 1];
        assert a == a' + [a[|a| - 1]];
        SubsequenceElements(a', b');
      } else {
        SubsequenceElements(a, b');
      }
    }
  }

  /** The positions of the rows a mask accepts. */
  function Selected<R>(s: seq<R>, keep: R -> bool): set<int>
  {
    set i | 0 <= i < |s| && keep(s[i])
  }

  /**
   * A boolean-mask selection holds one row per accepted position: duplicates
   * in the table are kept, each as often as it occurs.
   */
  lemma {:induction false} FilterCount<R>(s: seq<R>, keep: R -> bool)
    ensures |Filter(s, keep)| == |Selected(s, keep)|
  {
    if s != [] {
      var init, last := s[..|s| - 1], s[|s| - 1];
      FilterCount(init, keep);
      if keep(last) {
        assert Selected(s, keep) == Selected(init, keep) + {|init|};
        assert |init| !in Selected(init, keep);
      } else {
        assert Selected(s, keep) == Selected(init, keep);
      }
    }
  }

  /**
   * A boolean-mask selection keeps its input's order and rows, holds exactly
   * the rows the mask accepts, and one row per accepted position.
   */
  lemma {:induction false} FilterSelects<R>(s: seq<R>, keep: R -> bool)
    ensures IsSubsequence(Filter(s, keep), s)
    ensures forall x :: x in Filter(s, keep) <==> x in s && keep(x)
    ensures |Filter(s, keep)| == |Selected(s, keep)| <= |s|
  {
    FilterCount(s, keep);
    if s != [] {
      var init, last := s[..|s| - 1], s[|s| - 1];
      assert s == init + [last];
      FilterSelects(init, keep);
      var f := Filter(init, keep);
      if keep(last) {
        assert Filter(s, keep) == f + [last];
        assert (f + [last])[..|f|] == f;
      } else {
        assert Filter(s, keep) == f;
        SubsequenceExtend(f, init, last);
      }
      SubsequenceElements(Filter(s, keep), s);
    }
  }

  /** A mask that rejects every row selects nothing. */
  lemma {:induction false} FilterNone<R>(s: seq<R>, keep: R -> bool)
    requires forall i :: 0 <= i < |s| ==> !keep(s[i])
    ensures Filter(s, keep) == []
  {
    if s != [] {
      FilterNone(s[..|s| - 1], keep);
    }
  }

  /** A mask that accepts every row selects the whole table. */
  lemma {:induction false} FilterAll<R>(s: seq<R>, keep: R -> bool)
    requires forall i :: 0 <= i < |s| ==> keep(s[i])
    ensures Filter(s, keep) == s
  {
    if s != [] {
      FilterAll(s[..|s| - 1], keep);
      assert s == s[..|s| - 1] + [s[|s| - 1]];
    }
  }

  /** The set of values of a key column (what `isin` tests against). */
  function KeySet<R, K(==)>(s: seq<R>, key: R -> K): set<K>
  {
    set i | 0 <= i < |s| :: key(s[i])
  }

  lemma KeySetSnoc<R, K>(s: seq<R>, x: R, key: R -> K)
    ensures KeySet(s + [x], key) == KeySet(s, key) + {key(x)}
  {
    var t := s + [x];
    forall k | k in KeySet(t, key) ensures k in KeySet(s, key) + {key(x)} {
      var i :| 0 <= i < |t| && key(t[i]) == k;
      if i < |s| { assert t[i] == s[i]; }
    }
    forall k | k in KeySet(s, key) + {key(x)} ensures k in KeySet(t, key) {
      if k == key(x) {
        assert t[|s|] == x;
      } else {
        var i :| 0 <= i < |s| && key(s[i]) == k;
        assert t[i] == s[i];
      }
    }
  }

  /** No two rows share a key value. */
  predicate UniqueKeys<R, K(==)>(s: seq<R>, key: R -> K)
  {
    forall i, j :: 0 <= i < j < |s| ==> key(s[i]) != key(s[j])
  }

  lemma UniqueKeysSnoc<R, K>(s: seq<R>, x: R, key: R -> K)
    ensures UniqueKeys(s + [x], key) <==> UniqueKeys(s, key) && key(x) !in KeySet(s, key)
  {
    var t := s + [x];
    assert forall i :: 0 <= i < |s| ==> t[i] == s[i];
    assert t[|s|] == x;
    if UniqueKeys(t, key) {
      forall i | 0 <= i < |s| ensures key(s[i]) != key(x) {
        assert key(t[i]) != key(t[|s|]);
      }
    }
  }

  /** No row before index `j` has the key of row `j`. */
  predicate IsFirstOccurrence<R, K(==)>(s: seq<R>, key: R -> K, j: int)
    requires 0 <= j < |s|
  {
    forall i :: 0 <= i < j ==> key(s[i]) != key(s[j])
  }

  /** `drop_duplicates(subset=key)`: keeps the first row of every key value. */
  function DedupBy<R, K(==)>(s: seq<R>, key: R -> K): seq<R>
  {
    if s == [] then []
    else
      var init, last := s[..|s| - 1], s[|s| - 1];
      DedupBy(init, key) + (if key(last) in KeySet(init, key) then [] else [last])
  }

  /** `drop_duplicates` keeps input rows, unmodified and in input order. */
  lemma {:induction false} DedupBySubsequence<R, K>(s: seq<R>, key: R -> K)
    ensures IsSubsequence(DedupBy(s, key), s)
  {
    if s != [] {
      var init, last := s[..|s| - 1], s[|s| - 1];
      assert s == init + [last];
      DedupBySubsequence(init, key);
      var d := DedupBy(init, key);
      if key(last) in KeySet(init, key) {
        assert DedupBy(s, key) == d;
        SubsequenceExtend(d, init, last);
      } else {
        assert DedupBy(s, key) == d + [last];
        assert (d + [last])[..|d|] == d;
      }
    }
  }

  /**
   * After `drop_duplicates` the key is unique, every key value of the input
   * still has its row, and the rows kept are input rows in input order.
   */
  lemma {:induction false} DedupByKeeps<R, K>(s: seq<R>, key: R -> K)
    ensures UniqueKeys(DedupBy(s, key), key)
    ensures KeySet(DedupBy(s, key), key) == KeySet(s, key)
    ensures |DedupBy(s, key)| == |KeySet(s, key)|
    ensures IsSubsequence(DedupBy(s, key), s)
  {
    DedupBySubsequence(s, key);
    if s != [] {
      var init, last := s[..|s| - 1], s[|s| - 1];
      assert s == init + [last];
      DedupByKeeps(init, key);
      var d := DedupBy(init, key);
      KeySetSnoc(init, last, key);
      if key(last) in KeySet(init, key) {
        assert DedupBy(s, key) == d;
        assert KeySet(s, key) == KeySet(init, key);
      } else {
        assert DedupBy(s, key) == d + [last];
        KeySetSnoc(d, last, key);
        UniqueKeysSnoc(d, last, key);
        assert |KeySet(init, key) + {key(last)}| == |KeySet(init, key)| + 1;
      }
    }
  }

  /**
   * `idx` lists, in increasing order, exactly the positions of `s` that hold
   * the first row of their key.
   */
  predicate FirstOccurrencePositions<R, K(==)>(s: seq<R>, key: R -> K, idx: seq<int>)
  {
    && (forall k :: 0 <= k < |idx| ==> 0 <= idx[k] < |s| && IsFirstOccurrence(s, key, idx[k]))
    && (forall k, l :: 0 <= k < l < |idx| ==> idx[k] < idx[l])
    && (forall j :: 0 <= j < |s| && IsFirstOccurrence(s, key, j) ==> j in idx)
  }

  /** The positions `drop_duplicates` keeps. */
  function FirstPositions<R, K(==)>(s: seq<R>, key: R -> K): seq<int>
  {
    if s == [] then []
    else
      var init, last := s[..|s| - 1], s[|s| - 1];
      FirstPositions(init, key) + (if key(last) in KeySet(init, key) then [] else [|init|])
  }

  /** Appending a row keeps the first occurrences of the table and adds the new row exactly when its key is new. */
  lemma FirstOccurrenceSnoc<R, K>(s: seq<R>, x: R, key: R -> K)
    ensures forall j :: 0 <= j < |s| ==> IsFirstOccurrence(s + [x], key, j) == IsFirstOccurrence(s, key, j)
    ensures IsFirstOccurrence(s + [x], key, |s|) <==> key(x) !in KeySet(s, key)
  {
    var t := s + [x];
    assert forall j :: 0 <= j < |s| ==> t[j] == s[j];
    if key(x) in KeySet(s, key) {
      var i :| 0 <= i < |s| && key(s[i]) == key(x);
      assert key(t[i]) == key(t[|s|]);
    }
  }

  /** Appending a row extends the first-occurrence positions by its position exactly when its key is new. */
  lemma FirstOccurrencePositionsSnoc<R, K>(s: seq<R>, x: R, key: R -> K, p: seq<int>)
    requires FirstOccurrencePositions(s, key, p)
    ensures FirstOccurrencePositions(s + [x], key, if key(x) in KeySet(s, key) then p else p + [|s|])
  {
    FirstOccurrenceSnoc(s, x, key);
    var t, n := s + [x], |s|;
    var q := if key(x) in KeySet(s, key) then p else p + [n];
    assert forall k :: 0 <= k < |p| ==> q[k] == p[k];
    forall k | 0 <= k < |q| ensures 0 <= q[k] < |t| && IsFirstOccurrence(t, key, q[k]) {
      if k < |p| {
        assert IsFirstOccurrence(s, key, p[k]);
      }
    }
    forall j | 0 <= j < |t| && IsFirstOccurrence(t, key, j) ensures j in q {
      if j < n {
        assert j in p;
      }
    }
  }

  /** `FirstPositions` lists exactly the first-occurrence positions, in increasing order. */
  lemma {:induction false} FirstPositionsAreFirst<R, K>(s: seq<R>, key: R -> K)
    ensures FirstOccurrencePositions(s, key, FirstPositions(s, key))
  {
    if s != [] {
      var init, last := s[..|s| - 1], s[|s| - 1];
      assert s == init + [last];
      FirstPositionsAreFirst(init, key);
      FirstOccurrencePositionsSnoc(init, last, key, FirstPositions(init, key));
    }
  }

  /** The deduplicated table is the input read at `FirstPositions`. */
  lemma {:induction false} FirstPositionsSpec<R, K>(s: seq<R>, key: R -> K)
    ensures |FirstPositions(s, key)| == |DedupBy(s, key)|
    ensures forall k :: 0 <= k < |DedupBy(s, key)| ==> 0 <= FirstPositions(s, key)[k] < |s|
    ensures forall k :: 0 <= k < |DedupBy(s, key)| ==> DedupBy(s, key)[k] == s[FirstPositions(s, key)[k]]
  {
    if s != [] {
      var init, last := s[..|s| - 1], s[|s| - 1];
      FirstPositionsSpec(init, key);
      var p, d := FirstPositions(init, key), DedupBy(init, key);
      var q, e := FirstPositions(s, key), DedupBy(s, key);
      if key(last) in KeySet(init, key) {
        assert q == p && e == d;
      } else {
        assert q == p + [|init|] && e == d + [last];
      }
      forall k | 0 <= k < |e| ensures 0 <= q[k] < |s| && e[k] == s[q[k]] {
        if k < |d| {
          assert q[k] == p[k] && e[k] == d[k];
          assert s[p[k]] == init[p[k]];
        }
      }
    }
  }

  /** `drop_duplicates` keeps the first-occurrence rows in input order. */
  lemma DedupByOrder<R, K>(s: seq<R>, key: R -> K)
    ensures exists idx :: FirstOccurrencePositions(s, key, idx) && |idx| == |DedupBy(s, key)|
                          && forall k :: 0 <= k < |idx| ==> DedupBy(s, key)[k] == s[idx[k]]
  {
    FirstPositionsAreFirst(s, key);
    FirstPositionsSpec(s, key);
    var idx := FirstPositions(s, key);
    assert FirstOccurrencePositions(s, key, idx) && |idx| == |DedupBy(s, key)|;
  }

  /**
   * The rows `drop_duplicates` keeps are exactly the first occurrences of
   * their keys, in input order.
   */
  lemma {:induction false} DedupByFirstOccurrences<R, K>(s: seq<R>, key: R -> K)
    ensures forall j :: 0 <= j < |s| && IsFirstOccurrence(s, key, j) ==> s[j] in DedupBy(s, key)
    ensures forall x :: x in DedupBy(s, key) ==>
              exists j :: 0 <= j < |s| && s[j] == x && IsFirstOccurrence(s, key, j)
    ensures exists idx :: FirstOccurrencePositions(s, key, idx) && |idx| == |DedupBy(s, key)|
                          && forall k :: 0 <= k < |idx| ==> DedupBy(s, key)[k] == s[idx[k]]
  {
    DedupByOrder(s, key);
    if s != [] {
      var init, last := s[..|s| - 1], s[|s| - 1];
      assert s == init + [last];
      DedupByFirstOccurrences(init, key);
      var d := DedupBy(init, key);
      forall j | 0 <= j < |s| && IsFirstOccurrence(s, key, j) ensures s[j] in DedupBy(s, key) {
        if j < |init| {
          assert s[j] == init[j];
          assert IsFirstOccurrence(init, key, j);
        } else {
          assert j == |s| - 1;
          forall i | 0 <= i < |init| ensures key(init[i]) != key(last) {
            assert key(s[i]) != key(s[j]);
          }
          assert key(last) !in KeySet(init, key);
        }
      }
      forall x | x in DedupBy(s, key)
        ensures exists j :: 0 <= j < |s| && s[j] == x && IsFirstOccurrence(s, key, j)
      {
        if x in d {
          var j :| 0 <= j < |init| && init[j] == x && IsFirstOccurrence(init, key, j);
          assert s[j] == init[j];
          assert IsFirstOccurrence(s, key, j);
        } else {
          assert x == last && key(last) !in KeySet(init, key);
          var j := |s| - 1;
          forall i | 0 <= i < j ensures key(s[i]) != key(s[j]) {
            assert s[i] == init[i];
          }
          assert IsFirstOccurrence(s, key, j);
        }
      }
    }
  }

  /** `drop_duplicates` leaves a table whose key is already unique unchanged. */
  lemma {:induction false} DedupByUnique<R, K>(s: seq<R>, key: R -> K)
    requires UniqueKeys(s, key)
    ensures DedupBy(s, key) == s
  {
    if s != [] {
      var init, last := s[..|s| - 1], s[|s| - 1];
      assert s == init + [last];
      UniqueKeysSnoc(init, last, key);
      DedupByUnique(init, key);
    }
  }

  /** `df[key].duplicated().sum()`: the rows whose key appeared in an earlier row. */
  function DuplicateCount<R, K(==)>(s: seq<R>, key: R -> K): nat
  {
    if s == [] then 0
    else
      var init, last := s[..|s| - 1], s[|s| - 1];
      DuplicateCount(init, key) + (if key(last) in KeySet(init, key) then 1 else 0)
  }

  /**
   * The duplicate count is the table length minus the number of distinct
   * keys, and it is zero exactly when the key is unique.
   */
  lemma {:induction false} DuplicateCountIsSurplus<R, K>(s: seq<R>, key: R -> K)
    ensures DuplicateCount(s, key) == |s| - |KeySet(s, key)|
    ensures DuplicateCount(s, key) == 0 <==> UniqueKeys(s, key)
  {
    if s != [] {
      var init, last := s[..|s| - 1], s[|s| - 1];
      assert s == init + [last];
      DuplicateCountIsSurplus(init, key);
      KeySetSnoc(init, last, key);
      UniqueKeysSnoc(init, last, key);
    }
  }

  /** Rewriting rows without touching their key keeps the key values and their uniqueness. */
  lemma MapRowsKeepsKeys<R, K>(s: seq<R>, f: R -> R, key: R -> K)
    requires forall i :: 0 <= i < |s| ==> key(f(s[i])) == key(s[i])
    ensures KeySet(MapRows(s, f), key) == KeySet(s, key)
    ensures UniqueKeys(MapRows(s, f), key) <==> UniqueKeys(s, key)
  {
    var r := MapRows(s, f);
    assert forall i :: 0 <= i < |s| ==> key(r[i]) == key(s[i]);
  }

  /**
   * A left merge on a key of the right-hand table: the first row whose key is
   * `k`, or `None` (the merged columns are NaN).
   */
  function Lookup<R, K(==)>(s: seq<R>, key: R -> K, k: K): Option<R>
  {
    if s == [] then None
    else if key(s[0]) == k then Some(s[0])
    else Lookup(s[1..], key, k)
  }

  /** The merge finds a row iff the key occurs, and on a unique key it finds that very row. */
  lemma {:induction false} LookupFinds<R, K>(s: seq<R>, key: R -> K, k: K)
    ensures Lookup(s, key, k).Some? <==> k in KeySet(s, key)
    ensures UniqueKeys(s, key) ==>
              forall j :: 0 <= j < |s| && key(s[j]) == k ==> Lookup(s, key, k) == Some(s[j])
  {
    if s != [] {
      LookupFinds(s[1..], key, k);
      assert forall j :: 1 <= j < |s| ==> s[1..][j - 1] == s[j];
      if Lookup(s, key, k).None? {
        forall i | 0 <= i < |s| ensures key(s[i]) != k {
          if i > 0 { assert s[i] == s[1..][i - 1]; }
        }
      }
    }
  }

  /** Rewriting every row keeps a subsequence a subsequence. */
  lemma {:induction false} SubsequenceMap<R, S>(a: seq<R>, b: seq<R>, f: R -> S)
    requires IsSubsequence(a, b)
    ensures IsSubsequence(MapRows(a, f), MapRows(b, f))
    decreases |b|
  {
    if a != [] {
      var fa, fb := MapRows(a, f), MapRows(b, f);
      var b' := b[..|b| - 1];
      assert fb[..|fb| - 1] == MapRows(b', f);
      if a[|a| - 1] == b[|b| - 1] {
        SubsequenceMap(a[..|a| - 1], b', f);
        assert fa[..|fa| - 1] == MapRows(a[..|a| - 1], f);
      } else {
        SubsequenceMap(a, b', f);
        if fa[|fa| - 1] == fb[|fb| - 1] {
          SubsequenceDropLast(fa, MapRows(b', f));
        }
      }
    }
  }

  /**
   * Deduplicating by a key and then rewriting every row without touching the
   * key: the key is unique, every key value of the input keeps a row, there
   * is one row per key value, and the rows are the rewritten first
   * occurrences, in input order.
   */
  lemma {:induction false} DedupThenMap<R(!new), K>(s: seq<R>, key: R -> K, f: R -> R)
    requires forall x :: key(f(x)) == key(x)
    ensures UniqueKeys(MapRows(DedupBy(s, key), f), key)
    ensures KeySet(MapRows(DedupBy(s, key), f), key) == KeySet(s, key)
    ensures |MapRows(DedupBy(s, key), f)| == |KeySet(s, key)| <= |s|
    ensures IsSubsequence(MapRows(DedupBy(s, key), f), MapRows(s, f))
    ensures forall j :: 0 <= j < |s| && IsFirstOccurrence(s, key, j) ==> f(s[j]) in MapRows(DedupBy(s, key), f)
  {
    var d := DedupBy(s, key);
    DedupByKeeps(s, key);
    SubsequenceElements(d, s);
    assert forall i :: 0 <= i < |d| ==> key(f(d[i])) == key(d[i]);
    MapRowsKeepsKeys(d, f, key);
    SubsequenceMap(d, s, f);
    MapFirstOccurrences(s, key, f);
  }

  /** Rewriting the deduplicated rows keeps them in first-occurrence order. */
  lemma DedupThenMapOrder<R, K>(s: seq<R>, key: R -> K, f: R -> R)
    ensures exists idx :: FirstOccurrencePositions(s, key, idx) && |idx| == |MapRows(DedupBy(s, key), f)|
                          && forall k :: 0 <= k < |idx| ==> MapRows(DedupBy(s, key), f)[k] == f(s[idx[k]])
  {
    var d := DedupBy(s, key);
    DedupByOrder(s, key);
    var idx :| FirstOccurrencePositions(s, key, idx) && |idx| == |d| && forall k :: 0 <= k < |idx| ==> d[k] == s[idx[k]];
    var m := MapRows(d, f);
    assert forall k :: 0 <= k < |idx| ==> m[k] == f(s[idx[k]]);
  }

  lemma {:induction false} MapFirstOccurrences<R(!new), K>(s: seq<R>, key: R -> K, f: R -> R)
    ensures forall j :: 0 <= j < |s| && IsFirstOccurrence(s, key, j) ==> f(s[j]) in MapRows(DedupBy(s, key), f)
  {
    var d := DedupBy(s, key);
    var m := MapRows(d, f);
    DedupByFirstOccurrences(s, key);
    forall j | 0 <= j < |s| && IsFirstOccurrence(s, key, j) ensures f(s[j]) in m {
      assert s[j] in d;
      var i :| 0 <= i < |d| && d[i] == s[j];
      assert m[i] == f(s[j]);
    }
  }

  /**
   * Deduplicating and rewriting is idempotent when the rewrite is: the second
   * pass finds no duplicates and rewrites every row to itself.
   */
  lemma {:induction false} DedupThenMapIdempotent<R(!new), K>(s: seq<R>, key: R -> K, f: R -> R)
    requires forall x :: key(f(x)) == key(x)
    requires forall x :: f(f(x)) == f(x)
    ensures MapRows(DedupBy(MapRows(DedupBy(s, key), f), key), f) == MapRows(DedupBy(s, key), f)
  {
    var r := MapRows(DedupBy(s, key), f);
    DedupThenMap(s, key, f);
    DedupByUnique(r, key);
  }
}
