/** The participation-request table of the request service and the queries
    its repository declares. */
module RequestRepository {
  import opened Common
  import opened Table

  datatype Request = Request(id: int, eventId: int, requesterId: int, status: Status, created: int)

  function RequestKey(r: Request): int { r.id }

  predicate Matches(r: Request, eventId: int, status: Status) {
    r.eventId == eventId && r.status == status
  }

  /** `countByEventIdAndStatus`: the rows of that event in that status. */
  function CountByEventIdAndStatus(rows: seq<Request>, eventId: int, status: Status): (n: nat)
    ensures n <= |rows|
    ensures n == 0 <==> forall i :: 0 <= i < |rows| ==> !Matches(rows[i], eventId, status)
  {
    if rows == [] then 0
    else
      var init := rows[..|rows| - 1];
      var n := CountByEventIdAndStatus(init, eventId, status);
      assert forall i :: 0 <= i < |init| ==> init[i] == rows[i];
      n + (if Matches(rows[|rows| - 1], eventId, status) then 1 else 0)
  }

  lemma CountAppend(rows: seq<Request>, r: Request, eventId: int, status: Status)
    ensures CountByEventIdAndStatus(rows + [r], eventId, status)
         == CountByEventIdAndStatus(rows, eventId, status) + (if Matches(r, eventId, status) then 1 else 0)
  {
    assert (rows + [r])[..|rows|] == rows;
  }

  /** `countAllByEventIdInAndStatus`: the GROUP BY query, computed row by
      row. For every listed event that has at least one matching row it
      yields that event's count; events without matches are absent. */
  function CountAllByEventIdInAndStatus(rows: seq<Request>, eventIds: seq<int>, status: Status): (m: map<int, nat>)
    ensures forall e :: e in m <==> e in eventIds && CountByEventIdAndStatus(rows, e, status) > 0
    ensures forall e :: e in m ==> m[e] == CountByEventIdAndStatus(rows, e, status)
  {
    if rows == [] then map[]
    else
      var init := rows[..|rows| - 1];
      var r := rows[|rows| - 1];
      var m := CountAllByEventIdInAndStatus(init, eventIds, status);
      assert rows == init + [r];
      forall e ensures CountByEventIdAndStatus(rows, e, status)
                    == CountByEventIdAndStatus(init, e, status) + (if Matches(r, e, status) then 1 else 0) {
        CountAppend(init, r, e, status);
      }
      if r.eventId in eventIds && r.status == status then
        m[r.eventId := (if r.eventId in m then m[r.eventId] else 0) + 1]
      else m
  }

  /** The lookup the event service applies to the grouped counts:
      `getOrDefault(id, 0)`. */
  function CountOrZero(m: map<int, nat>, eventId: int): nat {
    if eventId in m then m[eventId] else 0
  }

  /** For a listed event the grouped count, defaulted to 0, is the direct
      count. */
  lemma CountAllAgreesWithCount(rows: seq<Request>, eventIds: seq<int>, status: Status, e: int)
    requires e in eventIds
    ensures CountOrZero(CountAllByEventIdInAndStatus(rows, eventIds, status), e)
         == CountByEventIdAndStatus(rows, e, status)
  {
  }

  /** `existsByRequesterIdAndEventId`, whatever the status of the row. */
  function ExistsByRequesterIdAndEventId(rows: seq<Request>, requesterId: int, eventId: int): (b: bool)
    ensures b <==> exists i :: 0 <= i < |rows| && rows[i].requesterId == requesterId && rows[i].eventId == eventId
  {
    if rows == [] then false
    else
      var t := ExistsByRequesterIdAndEventId(rows[1..], requesterId, eventId);
      assert forall i :: 1 <= i < |rows| ==> rows[i] == rows[1..][i - 1];
      (rows[0].requesterId == requesterId && rows[0].eventId == eventId) || t
  }

  /** `findByRequesterId`. */
  function FindByRequesterId(rows: seq<Request>, requesterId: int): (r: seq<Request>)
    ensures forall x :: x in r <==> x in rows && x.requesterId == requesterId
  {
    Filter(rows, (x: Request) => x.requesterId == requesterId)
  }

  /** `findAllByEventId`. */
  function FindAllByEventId(rows: seq<Request>, eventId: int): (r: seq<Request>)
    ensures forall x :: x in r <==> x in rows && x.eventId == eventId
  {
    Filter(rows, (x: Request) => x.eventId == eventId)
  }

  /** The table after `UPDATE Request SET status = :status WHERE id IN :ids`. */
  function SetStatusAll(rows: seq<Request>, ids: seq<int>, status: Status): (r: seq<Request>)
    ensures |r| == |rows|
    ensures forall i :: 0 <= i < |rows| ==> r[i].id == rows[i].id && r[i].eventId == rows[i].eventId
    ensures forall i :: 0 <= i < |rows| ==> r[i] == if rows[i].id in ids then rows[i].(status := status) else rows[i]
  {
    seq(|rows|, i requires 0 <= i < |rows| => if rows[i].id in ids then rows[i].(status := status) else rows[i])
  }

  /** The number of rows whose id is in `s`. */
  function RowsWithIdIn(rows: seq<Request>, s: set<int>): nat {
    if rows == [] then 0
    else RowsWithIdIn(rows[..|rows| - 1], s) + (if rows[|rows| - 1].id in s then 1 else 0)
  }

  lemma {:induction false} RowsWithIdInIgnoresAbsent(rows: seq<Request>, s: set<int>, k: int)
    requires forall i :: 0 <= i < |rows| ==> rows[i].id != k
    ensures RowsWithIdIn(rows, s) == RowsWithIdIn(rows, s - {k})
  {
    if rows != [] {
      RowsWithIdInIgnoresAbsent(rows[..|rows| - 1], s, k);
    }
  }

  /** Ids are unique, so at most `|s|` rows carry an id of `s`. */
  lemma {:induction false} RowsWithIdInBound(rows: seq<Request>, s: set<int>)
    requires UniqueKeys(rows, RequestKey)
    ensures RowsWithIdIn(rows, s) <= |s|
  {
    if rows != [] {
      var init := rows[..|rows| - 1];
      var last := rows[|rows| - 1];
      assert UniqueKeys(init, RequestKey) by {
        forall i, j | 0 <= i < j < |init| ensures init[i].id != init[j].id {
          assert RequestKey(rows[i]) != RequestKey(rows[j]);
        }
      }
      if last.id in s {
        assert forall i :: 0 <= i < |init| ==> init[i].id != last.id by {
          forall i | 0 <= i < |init| ensures init[i].id != last.id {
            assert RequestKey(rows[i]) != RequestKey(rows[|rows| - 1]);
          }
        }
        RowsWithIdInIgnoresAbsent(init, s, last.id);
        RowsWithIdInBound(init, s - {last.id});
      } else {
        RowsWithIdInBound(init, s);
      }
    }
  }

  /** Confirming the listed requests adds at most one confirmed row per
      listed id to any event's count. */
  lemma {:induction false} ConfirmAddsAtMost(rows: seq<Request>, ids: seq<int>, eventId: int)
    ensures CountByEventIdAndStatus(SetStatusAll(rows, ids, CONFIRMED), eventId, CONFIRMED)
         <= CountByEventIdAndStatus(rows, eventId, CONFIRMED) + RowsWithIdIn(rows, SetOf(ids))
  {
    if rows != [] {
      var init := rows[..|rows| - 1];
      var after := SetStatusAll(rows, ids, CONFIRMED);
      assert after[..|rows| - 1] == SetStatusAll(init, ids, CONFIRMED);
      ConfirmAddsAtMost(init, ids, eventId);
    }
  }

  /** Setting any other status never adds a confirmed row. */
  lemma {:induction false} OtherStatusAddsNone(rows: seq<Request>, ids: seq<int>, status: Status, eventId: int)
    requires status != CONFIRMED
    ensures CountByEventIdAndStatus(SetStatusAll(rows, ids, status), eventId, CONFIRMED)
         <= CountByEventIdAndStatus(rows, eventId, CONFIRMED)
  {
    if rows != [] {
      var init := rows[..|rows| - 1];
      var after := SetStatusAll(rows, ids, status);
      assert after[..|rows| - 1] == SetStatusAll(init, ids, status);
      OtherStatusAddsNone(init, ids, status, eventId);
    }
  }

  /** The request table: rows in storage order and the next generated id. */
  class RequestTable {
    var rows: seq<Request>
    var nextId: int

    ghost predicate Valid()
      reads this
    {
      && UniqueKeys(rows, RequestKey)
      && forall i :: 0 <= i < |rows| ==> rows[i].id < nextId
    }

    constructor ()
      ensures Valid() && rows == [] && nextId == 1
    {
      rows := [];
      nextId := 1;
    }

    /** `save` of a new request: the table generates its id. */
    method Insert(r: Request) returns (saved: Request)
      requires Valid()
      modifies this
      ensures Valid()
      ensures saved == r.(id := old(nextId))
      ensures rows == old(rows) + [saved] && nextId == old(nextId) + 1
    {
      saved := r.(id := nextId);
      rows := rows + [saved];
      nextId := nextId + 1;
    }

    /** `save` of a stored request: its row is overwritten. */
    method Update(r: Request)
      requires Valid() && HasKey(rows, RequestKey, r.id)
      modifies this
      ensures Valid()
      ensures rows == Replace(old(rows), RequestKey, r) && nextId == old(nextId)
    {
      rows := Replace(rows, RequestKey, r);
    }

    /** `setStatusForAllByIdIn`: every row whose id is listed gets the
        status; no other row and no other field changes. */
    method SetStatusForAllByIdIn(ids: seq<int>, status: Status)
      requires Valid()
      modifies this
      ensures Valid()
      ensures rows == SetStatusAll(old(rows), ids, status) && nextId == old(nextId)
    {
      var i := 0;
      while i < |rows|
        invariant 0 <= i <= |rows| == |old(rows)| && nextId == old(nextId)
        invariant forall k :: 0 <= k < i ==> rows[k] == if old(rows)[k].id in ids then old(rows)[k].(status := status) else old(rows)[k]
        invariant forall k :: i <= k < |rows| ==> rows[k] == old(rows)[k]
      {
        if rows[i].id in ids {
          rows := rows[i := rows[i].(status := status)];
        }
        i := i + 1;
      }
      assert forall k :: 0 <= k < |rows| ==> rows[k].id == old(rows)[k].id;
    }
  }
}
