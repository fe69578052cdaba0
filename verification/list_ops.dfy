/** The list operations every dashboard table performs on its in-memory rows:
    `filter` (search boxes and hard deletes) and `map` (edits and soft deletes). */
module ListOps {

  /** `xs.filter(keep)`. */
  function Filter<T(==)>(xs: seq<T>, keep: T -> bool): (r: seq<T>)
    ensures |r| <= |xs|
    ensures forall i :: 0 <= i < |r| ==> r[i] in xs && keep(r[i])
    ensures forall i :: 0 <= i < |xs| && keep(xs[i]) ==> xs[i] in r
  {
    if xs == [] then []
    else (if keep(xs[0]) then [xs[0]] else []) + Filter(xs[1..], keep)
  }

  /** r can be obtained from xs by deleting elements, keeping the order of the rest. */
  predicate IsSubsequence<T(==)>(r: seq<T>, xs: seq<T>)
    decreases |xs|
  {
    if r == [] then true
    else if xs == [] then false
    else (r[0] == xs[0] && IsSubsequence(r[1..], xs[1..])) || IsSubsequence(r, xs[1..])
  }

  /** Filtering only deletes: what remains keeps its original order. */
  lemma {:induction false} FilterIsSubsequence<T>(xs: seq<T>, keep: T -> bool)
    ensures IsSubsequence(Filter(xs, keep), xs)
  {
    if xs != [] {
      FilterIsSubsequence(xs[1..], keep);
      var r := Filter(xs, keep);
      if keep(xs[0]) {
        assert r == [xs[0]] + Filter(xs[1..], keep);
        assert r[1..] == Filter(xs[1..], keep);
      } else {
        assert r == Filter(xs[1..], keep);
      }
    }
  }

  /** Two filters can be applied in either order. */
  lemma {:induction false} FilterCommute<T>(xs: seq<T>, p: T -> bool, q: T -> bool)
    ensures Filter(Filter(xs, p), q) == Filter(Filter(xs, q), p)
  {
    if xs != [] {
      FilterCommute(xs[1..], p, q);
      var hp := if p(xs[0]) then [xs[0]] else [];
      var hq := if q(xs[0]) then [xs[0]] else [];
      FilterAppend(hp, Filter(xs[1..], p), q);
      FilterAppend(hq, Filter(xs[1..], q), p);
    }
  }

  /** Filtering a concatenation filters each part. */
  lemma {:induction false} FilterAppend<T>(xs: seq<T>, ys: seq<T>, keep: T -> bool)
    ensures Filter(xs + ys, keep) == Filter(xs, keep) + Filter(ys, keep)
  {
    if xs == [] {
      assert xs + ys == ys;
    } else {
      assert (xs + ys)[0] == xs[0];
      assert (xs + ys)[1..] == xs[1..] + ys;
      FilterAppend(xs[1..], ys, keep);
    }
  }

  /** A filter that rejects nothing returns the list unchanged. */
  lemma {:induction false} FilterKeepingAll<T>(xs: seq<T>, keep: T -> bool)
    requires forall i :: 0 <= i < |xs| ==> keep(xs[i])
    ensures Filter(xs, keep) == xs
  {
    if xs != [] {
      FilterKeepingAll(xs[1..], keep);
      assert [xs[0]] + xs[1..] == xs;
    }
  }

  /** `xs.filter((y) => y !== x)`: every occurrence of x removed, the rest kept in order. */
  function RemoveAll<T(==)>(xs: seq<T>, x: T): (r: seq<T>)
    ensures x !in r && |r| <= |xs|
    ensures forall i :: 0 <= i < |r| ==> r[i] in xs
    ensures forall i :: 0 <= i < |xs| && xs[i] != x ==> xs[i] in r
    ensures x !in xs ==> r == xs
  {
    if xs == [] then []
    else if xs[0] == x then RemoveAll(xs[1..], x)
    else [xs[0]] + RemoveAll(xs[1..], x)
  }

  /** Removing every x only deletes elements: the rest keep their order. */
  lemma {:induction false} RemoveAllIsSubsequence<T>(xs: seq<T>, x: T)
    ensures IsSubsequence(RemoveAll(xs, x), xs)
  {
    if xs != [] {
      RemoveAllIsSubsequence(xs[1..], x);
      var r := RemoveAll(xs, x);
      if xs[0] != x {
        assert r[1..] == RemoveAll(xs[1..], x);
      }
    }
  }

  /** Appending an x and then removing every x undoes the append when x was absent. */
  lemma {:induction false} RemoveAllAppendAbsent<T>(xs: seq<T>, x: T)
    requires x !in xs
    ensures RemoveAll(xs + [x], x) == xs
  {
    if xs == [] {
      assert [x][1..] == [];
    } else {
      assert (xs + [x])[1..] == xs[1..] + [x];
      RemoveAllAppendAbsent(xs[1..], x);
      assert [xs[0]] + xs[1..] == xs;
    }
  }

  /** Removal keeps a duplicate-free list duplicate-free. */
  lemma {:induction false} RemoveAllKeepsDistinct<T>(xs: seq<T>, x: T)
    requires forall i, j :: 0 <= i < j < |xs| ==> xs[i] != xs[j]
    ensures forall i, j :: 0 <= i < j < |RemoveAll(xs, x)| ==> RemoveAll(xs, x)[i] != RemoveAll(xs, x)[j]
  {
    if xs != [] {
      var tail := xs[1..];
      assert forall i, j :: 0 <= i < j < |tail| ==> tail[i] != tail[j] by {
        forall i, j | 0 <= i < j < |tail| ensures tail[i] != tail[j] {
          assert tail[i] == xs[i + 1] && tail[j] == xs[j + 1];
        }
      }
      RemoveAllKeepsDistinct(tail, x);
      var rest := RemoveAll(tail, x);
      if xs[0] != x {
        var r := [xs[0]] + rest;
        assert RemoveAll(xs, x) == r;
        assert xs[0] !in xs[1..];
        assert xs[0] !in rest;
        forall i, j | 0 <= i < j < |r| ensures r[i] != r[j] {
          if i == 0 {
            assert r[j] == rest[j - 1] && rest[j - 1] in rest;
          } else {
            assert r[i] == rest[i - 1] && r[j] == rest[j - 1];
            assert rest[i - 1] != rest[j - 1];
          }
        }
      }
    }
  }

  /** The predicate of a hard delete: the row does not carry the id. */
  function OtherId<T, K(==)>(idOf: T -> K, id: K): T -> bool {
    x => idOf(x) != id
  }

  /** The hard delete of every table: `xs.filter((x) => x.id !== id)`. */
  function RemoveById<T(==), K(==)>(xs: seq<T>, idOf: T -> K, id: K): (r: seq<T>)
    ensures forall i :: 0 <= i < |r| ==> r[i] in xs && idOf(r[i]) != id
    ensures forall i :: 0 <= i < |xs| && idOf(xs[i]) != id ==> xs[i] in r
  {
    Filter(xs, OtherId(idOf, id))
  }

  /** After a hard delete no row carries the id, and the others are still there, in order. */
  lemma RemoveByIdOrder<T, K>(xs: seq<T>, idOf: T -> K, id: K)
    ensures IsSubsequence(RemoveById(xs, idOf, id), xs)
  {
    FilterIsSubsequence(xs, OtherId(idOf, id));
  }

  /** No two elements share a key. */
  predicate DistinctBy<T, K(==)>(xs: seq<T>, key: T -> K) {
    forall i, j :: 0 <= i < j < |xs| ==> key(xs[i]) != key(xs[j])
  }

  /** Filtering keeps keys distinct: it never duplicates an element. */
  lemma {:induction false} FilterKeepsDistinct<T, K>(xs: seq<T>, keep: T -> bool, key: T -> K)
    requires DistinctBy(xs, key)
    ensures DistinctBy(Filter(xs, keep), key)
  {
    if xs != [] {
      DistinctTail(xs, key);
      FilterKeepsDistinct(xs[1..], keep, key);
      if keep(xs[0]) {
        assert Filter(xs, keep) == [xs[0]] + Filter(xs[1..], keep);
        ConsDistinct(xs[0], Filter(xs[1..], keep), xs[1..], key);
      }
    }
  }

  /** Dropping the head keeps keys distinct, and no later key equals the head's. */
  lemma DistinctTail<T, K>(xs: seq<T>, key: T -> K)
    requires xs != [] && DistinctBy(xs, key)
    ensures DistinctBy(xs[1..], key)
    ensures forall k :: 0 <= k < |xs[1..]| ==> key(xs[1..][k]) != key(xs[0])
  {
    var tail := xs[1..];
    forall i, j | 0 <= i < j < |tail| ensures key(tail[i]) != key(tail[j]) {
      assert tail[i] == xs[i + 1] && tail[j] == xs[j + 1];
    }
    forall k | 0 <= k < |tail| ensures key(tail[k]) != key(xs[0]) {
      assert tail[k] == xs[k + 1];
    }
  }

  /** A head whose key no element of `tail` has, in front of distinct elements drawn from
      `tail`, keeps keys distinct. */
  lemma ConsDistinct<T, K>(x: T, rest: seq<T>, tail: seq<T>, key: T -> K)
    requires DistinctBy(rest, key)
    requires forall i :: 0 <= i < |rest| ==> rest[i] in tail
    requires forall k :: 0 <= k < |tail| ==> key(tail[k]) != key(x)
    ensures DistinctBy([x] + rest, key)
  {
    var r := [x] + rest;
    forall i, j | 0 <= i < j < |r| ensures key(r[i]) != key(r[j]) {
      assert r[j] == rest[j - 1];
      if i == 0 {
        var k :| 0 <= k < |tail| && tail[k] == rest[j - 1];
      } else {
        assert r[i] == rest[i - 1];
      }
    }
  }

  /** A hard delete keeps ids distinct. */
  lemma RemoveByIdKeepsDistinct<T, K>(xs: seq<T>, idOf: T -> K, id: K)
    requires forall i, j :: 0 <= i < j < |xs| ==> idOf(xs[i]) != idOf(xs[j])
    ensures var r := RemoveById(xs, idOf, id);
            forall i, j :: 0 <= i < j < |r| ==> idOf(r[i]) != idOf(r[j])
  {
    assert DistinctBy(xs, idOf);
    FilterKeepsDistinct(xs, OtherId(idOf, id), idOf);
  }

  /** Deleting an id no row carries changes nothing. */
  lemma RemoveAbsentId<T, K>(xs: seq<T>, idOf: T -> K, id: K)
    requires forall i :: 0 <= i < |xs| ==> idOf(xs[i]) != id
    ensures RemoveById(xs, idOf, id) == xs
  {
    FilterKeepingAll(xs, OtherId(idOf, id));
  }

  /** `xs.map((x) => sel(x) ? f(x) : x)`: the edits and soft deletes. */
  function UpdateWhere<T>(xs: seq<T>, sel: T -> bool, f: T -> T): (r: seq<T>)
    ensures |r| == |xs|
  {
    seq(|xs|, i requires 0 <= i < |xs| => if sel(xs[i]) then f(xs[i]) else xs[i])
  }

  /** The rows the selector does not pick are untouched; the picked ones are rewritten by f. */
  lemma UpdateWhereAt<T>(xs: seq<T>, sel: T -> bool, f: T -> T, i: int)
    requires 0 <= i < |xs|
    ensures !sel(xs[i]) ==> UpdateWhere(xs, sel, f)[i] == xs[i]
    ensures sel(xs[i]) ==> UpdateWhere(xs, sel, f)[i] == f(xs[i])
  {
  }

  /** Updating with a selector that picks nothing changes nothing. */
  lemma UpdateNothing<T>(xs: seq<T>, sel: T -> bool, f: T -> T)
    requires forall i :: 0 <= i < |xs| ==> !sel(xs[i])
    ensures UpdateWhere(xs, sel, f) == xs
  {
  }

  /** An update whose rewrite is idempotent and keeps rows selected is itself idempotent. */
  lemma UpdateWhereIdempotent<T>(xs: seq<T>, sel: T -> bool, f: T -> T)
    requires forall x :: sel(x) ==> sel(f(x)) && f(f(x)) == f(x)
    ensures UpdateWhere(UpdateWhere(xs, sel, f), sel, f) == UpdateWhere(xs, sel, f)
  {
    var once := UpdateWhere(xs, sel, f);
    forall i | 0 <= i < |xs|
      ensures UpdateWhere(once, sel, f)[i] == once[i]
    {
      if sel(xs[i]) {
        assert once[i] == f(xs[i]);
      } else {
        assert once[i] == xs[i];
      }
    }
  }

  /** Updating a concatenation updates each part. */
  lemma UpdateWhereAppend<T>(xs: seq<T>, ys: seq<T>, sel: T -> bool, f: T -> T)
    ensures UpdateWhere(xs + ys, sel, f) == UpdateWhere(xs, sel, f) + UpdateWhere(ys, sel, f)
  {
    assert forall i :: 0 <= i < |xs| ==> (xs + ys)[i] == xs[i];
    assert forall i :: |xs| <= i < |xs| + |ys| ==> (xs + ys)[i] == ys[i - |xs|];
  }

  /** When the rewrite never changes whether a row passes the filter, rewriting and then
      filtering is filtering and then rewriting: a soft delete never hides a row from a
      search, it only changes how the row shows. */
  lemma {:induction false} FilterUpdateCommute<T>(xs: seq<T>, keep: T -> bool, sel: T -> bool, f: T -> T)
    requires forall x :: keep(f(x)) == keep(x)
    ensures Filter(UpdateWhere(xs, sel, f), keep) == UpdateWhere(Filter(xs, keep), sel, f)
  {
    if xs != [] {
      var ys := UpdateWhere(xs, sel, f);
      var rest := Filter(xs[1..], keep);
      assert ys[1..] == UpdateWhere(xs[1..], sel, f);
      FilterUpdateCommute(xs[1..], keep, sel, f);
      assert Filter(ys[1..], keep) == UpdateWhere(rest, sel, f);
      assert keep(ys[0]) == keep(xs[0]);
      if keep(xs[0]) {
        assert Filter(xs, keep) == [xs[0]] + rest;
        UpdateWhereAppend([xs[0]], rest, sel, f);
        assert UpdateWhere([xs[0]], sel, f) == [ys[0]];
        assert Filter(ys, keep) == [ys[0]] + Filter(ys[1..], keep);
      } else {
        assert Filter(xs, keep) == rest;
        assert Filter(ys, keep) == Filter(ys[1..], keep);
      }
    }
  }

  /** Replace-by-id, the save handler of the user and product tables:
      `xs.map((x) => x.id === updated.id ? updated : x)`. */
  function ReplaceById<T, K(==)>(xs: seq<T>, idOf: T -> K, updated: T): (r: seq<T>)
    ensures |r| == |xs|
    ensures forall i :: 0 <= i < |xs| ==> idOf(r[i]) == idOf(xs[i])
    ensures forall i :: 0 <= i < |xs| && idOf(xs[i]) != idOf(updated) ==> r[i] == xs[i]
    ensures forall i :: 0 <= i < |xs| && idOf(xs[i]) == idOf(updated) ==> r[i] == updated
  {
    UpdateWhere(xs, x => idOf(x) == idOf(updated), x => updated)
  }

  /** Saving a row whose id is not in the list leaves the list unchanged. */
  lemma ReplaceUnknownId<T, K>(xs: seq<T>, idOf: T -> K, updated: T)
    requires forall i :: 0 <= i < |xs| ==> idOf(xs[i]) != idOf(updated)
    ensures ReplaceById(xs, idOf, updated) == xs
  {
  }

  /** Saving the same row twice is saving it once. */
  lemma ReplaceByIdIdempotent<T, K>(xs: seq<T>, idOf: T -> K, updated: T)
    ensures ReplaceById(ReplaceById(xs, idOf, updated), idOf, updated) == ReplaceById(xs, idOf, updated)
  {
  }

  /** Saving keeps every id where it was, so distinct ids stay distinct. */
  lemma ReplaceByIdKeepsDistinct<T, K>(xs: seq<T>, idOf: T -> K, updated: T)
    requires DistinctBy(xs, idOf)
    ensures DistinctBy(ReplaceById(xs, idOf, updated), idOf)
  {
  }
}
