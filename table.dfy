/** A stored table: its rows in storage order, each identified by a key
    (the entity's id). The finders of the JPA repositories are filters over
    the rows, so their results come back in storage order. */
module Table {
  import opened Common

  /** No two rows share a key (the primary key constraint). */
  predicate UniqueKeys<T(!new)>(rows: seq<T>, key: T -> int) {
    forall i, j :: 0 <= i < j < |rows| ==> key(rows[i]) != key(rows[j])
  }

  predicate HasKey<T(!new)>(rows: seq<T>, key: T -> int, id: int) {
    exists i :: 0 <= i < |rows| && key(rows[i]) == id
  }

  /** The rows that satisfy `p`, in their original order. */
  function Filter<T(!new)>(rows: seq<T>, p: T -> bool): (r: seq<T>)
    ensures |r| <= |rows|
    ensures forall x :: x in r <==> x in rows && p(x)
  {
    if rows == [] then []
    else if p(rows[0]) then [rows[0]] + Filter(rows[1..], p)
    else Filter(rows[1..], p)
  }

  /** `a` is `b` with some elements left out, the rest in their order. */
  ghost predicate Subsequence<T>(a: seq<T>, b: seq<T>)
    decreases |b|
  {
    if a == [] then true
    else if b == [] then false
    else if a[0] == b[0] then Subsequence(a[1..], b[1..])
    else Subsequence(a, b[1..])
  }

  /** A filter keeps its rows in their original order. */
  lemma {:induction false} FilterIsSubsequence<T(!new)>(rows: seq<T>, p: T -> bool)
    ensures Subsequence(Filter(rows, p), rows)
  {
    if rows != [] {
      FilterIsSubsequence(rows[1..], p);
    }
  }

  lemma {:induction false} FilterUnique<T(!new)>(rows: seq<T>, key: T -> int, p: T -> bool)
    requires UniqueKeys(rows, key)
    ensures UniqueKeys(Filter(rows, p), key)
  {
    if rows != [] {
      FilterUnique(rows[1..], key, p);
      var tail := Filter(rows[1..], p);
      if p(rows[0]) {
        forall y | y in tail ensures key(y) != key(rows[0]) {
          var k :| 1 <= k < |rows| && rows[k] == y;
        }
      }
    }
  }

  /** `findById`: the row with that key, if any. */
  function FindById<T(!new)>(rows: seq<T>, key: T -> int, id: int): (r: Option<T>)
    ensures r.Some? <==> HasKey(rows, key, id)
    ensures r.Some? ==> r.value in rows && key(r.value) == id
  {
    if rows == [] then None
    else if key(rows[0]) == id then Some(rows[0])
    else
      var r := FindById(rows[1..], key, id);
      assert HasKey(rows, key, id) ==> HasKey(rows[1..], key, id) by {
        if HasKey(rows, key, id) {
          var i :| 0 <= i < |rows| && key(rows[i]) == id;
          assert i > 0 && key(rows[1..][i - 1]) == id;
        }
      }
      assert HasKey(rows[1..], key, id) ==> HasKey(rows, key, id) by {
        if HasKey(rows[1..], key, id) {
          var i :| 0 <= i < |rows| - 1 && key(rows[1..][i]) == id;
          assert key(rows[i + 1]) == id;
        }
      }
      r
  }

  /** With unique keys the row found for a key is the one stored under it. */
  lemma {:induction false} FindByIdUnique<T(!new)>(rows: seq<T>, key: T -> int, i: int)
    requires UniqueKeys(rows, key) && 0 <= i < |rows|
    ensures FindById(rows, key, key(rows[i])) == Some(rows[i])
  {
    if i > 0 {
      assert key(rows[0]) != key(rows[i]);
      assert rows[1..][i - 1] == rows[i];
      FindByIdUnique(rows[1..], key, i - 1);
    }
  }

  /** `findAllByIdIn`: the rows whose key is listed, in storage order. */
  function FindAllByIdIn<T(!new)>(rows: seq<T>, key: T -> int, ids: seq<int>): (r: seq<T>)
    ensures forall x :: x in r <==> x in rows && key(x) in ids
  {
    Filter(rows, x => key(x) in ids)
  }

  /** The listed ids that no row carries, in the order they were listed. */
  function MissingIds<T(!new)>(rows: seq<T>, key: T -> int, ids: seq<int>): (r: seq<int>)
    ensures forall id :: id in r <==> id in ids && !HasKey(rows, key, id)
    ensures Subsequence(r, ids)
  {
    FilterIsSubsequence(ids, id => !HasKey(rows, key, id));
    Filter(ids, id => !HasKey(rows, key, id))
  }

  /** The all-or-nothing `getByIds` of the services: NotFound naming every
      missing id, otherwise the rows found, in storage order. */
  function GetByIds<T(!new)>(rows: seq<T>, key: T -> int, ids: seq<int>): (r: Result<seq<T>>)
    ensures r.Failure? ==> r.error.NotFound? && r.error.ids != []
    ensures r.Failure? ==> forall id :: id in r.error.ids <==> id in ids && !HasKey(rows, key, id)
    ensures r.Success? <==> forall id :: id in ids ==> HasKey(rows, key, id)
    ensures r.Success? ==> forall x :: x in r.value <==> x in rows && key(x) in ids
  {
    var missing := MissingIds(rows, key, ids);
    if missing != [] then
      assert missing[0] in missing;
      Failure(NotFound(missing))
    else
      Success(FindAllByIdIn(rows, key, ids))
  }

  /** A filter every row passes keeps the whole sequence. */
  lemma {:induction false} FilterKeepsAll<T(!new)>(rows: seq<T>, p: T -> bool)
    requires forall x :: x in rows ==> p(x)
    ensures Filter(rows, p) == rows
  {
    if rows != [] {
      assert forall x :: x in rows[1..] ==> x in rows;
      FilterKeepsAll(rows[1..], p);
      assert rows == [rows[0]] + rows[1..];
    }
  }

  /** When the ids name exactly the stored keys, `getByIds` returns the
      whole table. */
  lemma GetByIdsOfAllKeys<T(!new)>(rows: seq<T>, key: T -> int, ids: seq<int>)
    requires forall id :: id in ids ==> HasKey(rows, key, id)
    requires forall x :: x in rows ==> key(x) in ids
    ensures GetByIds(rows, key, ids) == Success(rows)
  {
    FilterKeepsAll(rows, x => key(x) in ids);
  }

  /** `deleteById`: every other row stays, in order. */
  function RemoveById<T(!new)>(rows: seq<T>, key: T -> int, id: int): (r: seq<T>)
    ensures forall x :: x in r <==> x in rows && key(x) != id
    ensures !HasKey(r, key, id)
  {
    Filter(rows, x => key(x) != id)
  }

  /** Deleting keeps the remaining keys distinct. */
  lemma RemoveByIdKeepsUniqueKeys<T(!new)>(rows: seq<T>, key: T -> int, id: int)
    requires UniqueKeys(rows, key)
    ensures UniqueKeys(RemoveById(rows, key, id), key)
  {
    FilterUnique(rows, key, x => key(x) != id);
  }

  /** A filter no row passes keeps nothing. */
  lemma {:induction false} FilterKeepsNone<T(!new)>(rows: seq<T>, p: T -> bool)
    requires forall x :: x in rows ==> !p(x)
    ensures Filter(rows, p) == []
  {
    if rows != [] {
      assert forall x :: x in rows[1..] ==> x in rows;
      FilterKeepsNone(rows[1..], p);
    }
  }

  /** With unique keys, a filter that admits exactly one stored key keeps
      exactly the row under it. */
  lemma {:induction false} FilterOfOneKey<T(!new)>(rows: seq<T>, key: T -> int, p: T -> bool, j: int)
    requires UniqueKeys(rows, key) && 0 <= j < |rows|
    requires forall x :: p(x) <==> key(x) == key(rows[j])
    ensures Filter(rows, p) == [rows[j]]
  {
    var tail := rows[1..];
    assert UniqueKeys(tail, key) by {
      forall a, b | 0 <= a < b < |tail| ensures key(tail[a]) != key(tail[b]) {
        assert tail[a] == rows[a + 1] && tail[b] == rows[b + 1];
      }
    }
    if j == 0 {
      forall x | x in tail ensures !p(x) {
        var k :| 0 <= k < |tail| && tail[k] == x;
        assert key(rows[k + 1]) != key(rows[0]);
      }
      FilterKeepsNone(tail, p);
    } else {
      assert key(rows[0]) != key(rows[j]);
      assert tail[j - 1] == rows[j];
      FilterOfOneKey(tail, key, p, j - 1);
    }
  }

  /** Asking for the key of one stored row finds exactly that row. */
  lemma FindAllByIdInOneKey<T(!new)>(rows: seq<T>, key: T -> int, ids: seq<int>, j: int)
    requires UniqueKeys(rows, key) && 0 <= j < |rows| && ids == [key(rows[j])]
    ensures FindAllByIdIn(rows, key, ids) == [rows[j]]
  {
    FilterOfOneKey(rows, key, x => key(x) in ids, j);
  }

  /** With unique keys, a filter that rejects exactly one stored key drops
      exactly one row. */
  lemma {:induction false} FilterDropsOne<T(!new)>(rows: seq<T>, key: T -> int, p: T -> bool, id: int)
    requires UniqueKeys(rows, key) && HasKey(rows, key, id)
    requires forall x :: p(x) <==> key(x) != id
    ensures |Filter(rows, p)| == |rows| - 1
  {
    var tail := rows[1..];
    assert UniqueKeys(tail, key) by {
      forall i, j | 0 <= i < j < |tail| ensures key(tail[i]) != key(tail[j]) {
        assert tail[i] == rows[i + 1] && tail[j] == rows[j + 1];
      }
    }
    if key(rows[0]) == id {
      forall x | x in tail ensures p(x) {
        var k :| 0 <= k < |tail| && tail[k] == x;
        assert rows[k + 1] == x;
      }
      FilterKeepsAll(tail, p);
    } else {
      var i :| 0 <= i < |rows| && key(rows[i]) == id;
      assert key(tail[i - 1]) == id;
      FilterDropsOne(tail, key, p, id);
    }
  }

  /** Deleting a stored key removes exactly one row. */
  lemma RemoveByIdRemovesOne<T(!new)>(rows: seq<T>, key: T -> int, id: int)
    requires UniqueKeys(rows, key) && HasKey(rows, key, id)
    ensures |RemoveById(rows, key, id)| == |rows| - 1
  {
    FilterDropsOne(rows, key, x => key(x) != id, id);
  }

  /** `save` of an entity whose key is already stored: the row with that key
      is replaced in place and every other row is untouched. */
  function Replace<T(!new)>(rows: seq<T>, key: T -> int, x: T): (r: seq<T>)
    ensures |r| == |rows|
    ensures forall i :: 0 <= i < |rows| ==> key(r[i]) == key(rows[i])
    ensures forall i :: 0 <= i < |rows| ==> r[i] == (if key(rows[i]) == key(x) then x else rows[i])
  {
    seq(|rows|, i requires 0 <= i < |rows| => if key(rows[i]) == key(x) then x else rows[i])
  }

  lemma ReplaceKeepsUniqueKeys<T(!new)>(rows: seq<T>, key: T -> int, x: T)
    requires UniqueKeys(rows, key)
    ensures UniqueKeys(Replace(rows, key, x), key)
  {
  }

  /** Saving a row unchanged leaves the table as it was. */
  lemma ReplaceWithStoredRow<T(!new)>(rows: seq<T>, key: T -> int, x: T)
    requires UniqueKeys(rows, key) && x in rows
    ensures Replace(rows, key, x) == rows
  {
    var r := Replace(rows, key, x);
    forall i | 0 <= i < |rows| ensures r[i] == rows[i] {
      if key(rows[i]) == key(x) {
        var j :| 0 <= j < |rows| && rows[j] == x;
        assert i == j;
      }
    }
  }

  /** A successful `getByIds` over a table with unique keys returns one
      row per distinct requested id. */
  lemma {:induction false} GetByIdsOnePerId<T(!new)>(rows: seq<T>, key: T -> int, ids: seq<int>)
    requires UniqueKeys(rows, key) && GetByIds(rows, key, ids).Success?
    ensures UniqueKeys(GetByIds(rows, key, ids).value, key)
    ensures forall id :: id in ids ==> exists x :: x in GetByIds(rows, key, ids).value && key(x) == id
  {
    FilterUnique(rows, key, x => key(x) in ids);
    forall id | id in ids ensures exists x :: x in GetByIds(rows, key, ids).value && key(x) == id {
      assert HasKey(rows, key, id);
      var i :| 0 <= i < |rows| && key(rows[i]) == id;
      assert rows[i] in GetByIds(rows, key, ids).value;
    }
  }
}
