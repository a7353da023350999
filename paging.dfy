/** The `from`/`size` paging convention of the services. A page request
    `PageRequest.of(page, size)` selects the slice [page*size, page*size+size)
    of the query result; `size == 0` means no paging at all. */
module Paging {

  function Min(a: int, b: int): int {
    if a <= b then a else b
  }

  /** `stream().skip(from)`. */
  function Skip<T>(items: seq<T>, from: nat): (r: seq<T>)
    ensures |r| == if from <= |items| then |items| - from else 0
    ensures forall i :: 0 <= i < |r| ==> r[i] == items[from + i]
  {
    if from <= |items| then items[from..] else []
  }

  /** Page number `page` of a query paged by `size`. */
  function PageOf<T>(items: seq<T>, page: nat, size: nat): (r: seq<T>)
    ensures |r| <= size
    ensures forall i :: 0 <= i < |r| ==> page * size + i < |items| && r[i] == items[page * size + i]
    ensures |r| == Min(size, if page * size <= |items| then |items| - page * size else 0)
  {
    var lo := page * size;
    if lo >= |items| then []
    else items[lo..Min(lo + size, |items|)]
  }

  /** The rule shared by the user, comment and public event listings:
      `size == 0` skips `from` items, `from < size` returns page `from / size`,
      anything else an empty list. */
  function Paged<T>(items: seq<T>, from: nat, size: nat): (r: seq<T>)
    ensures size == 0 ==> r == Skip(items, from)
    ensures size > 0 && from >= size ==> r == []
    ensures size > 0 ==> |r| <= size
    ensures forall x :: x in r ==> x in items
  {
    if size == 0 then Skip(items, from)
    else if from < size then PageOf(items, from / size, size)
    else []
  }

  /** Since `from < size`, the page number is always 0: a paged listing is
      the first `size` items and never skips any. */
  lemma PagedIsPrefix<T>(items: seq<T>, from: nat, size: nat)
    requires 0 < size && from < size
    ensures Paged(items, from, size) == items[..Min(size, |items|)]
  {
    assert from / size == 0;
  }

  /** The admin event search tests `from > size` instead, so it lets
      `from == size` through, which selects page 1. */
  function AdminPaged<T>(items: seq<T>, from: nat, size: nat): (r: seq<T>)
    ensures size == 0 ==> r == Skip(items, from)
    ensures size > 0 && from > size ==> r == []
    ensures size > 0 ==> |r| <= size
  {
    if size == 0 then Skip(items, from)
    else if from > size then []
    else PageOf(items, from / size, size)
  }

  /** With `from == size` the admin search returns the second page, where the
      other listings return nothing. */
  lemma AdminPagedAtSizeIsSecondPage<T>(items: seq<T>, size: nat)
    requires 0 < size && 2 * size <= |items|
    ensures AdminPaged(items, size, size) == items[size..2 * size]
    ensures Paged(items, size, size) == []
  {
    assert size / size == 1;
  }

  /** Below `size` both rules agree. */
  lemma AdminPagedAgreesBelowSize<T>(items: seq<T>, from: nat, size: nat)
    requires from < size
    ensures AdminPaged(items, from, size) == Paged(items, from, size)
  {
  }
}
