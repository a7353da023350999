/** Batch admission (`switchRequestsStatus`): the organiser of a moderated,
    limited event confirms or rejects a list of participation requests at
    once. The free places bound how many of the listed requests, taken in
    the order they are listed, can be confirmed; the rest are rejected.
    Conflicting prior statuses abort the call before anything is written,
    and the new statuses are then written in two bulk updates. */
module Admission {
  import opened Common
  import opened Table
  import opened Paging
  import opened EventModel
  import opened RequestRepository
  import RequestService
  import opened StatClient
  import opened EventProjection

  /** `SwitchRequestsStatus`: the requests confirmed and those rejected, each
      with its new status. */
  datatype SwitchResult = SwitchResult(confirmed: seq<Request>, rejected: seq<Request>)

  /** A successful call: the answer and the request table it leaves. */
  datatype Switched = Switched(answer: SwitchResult, rows: seq<Request>)

  /** The requests of `found` whose id is in `part`, in the order of `found`,
      as `stream().filter(obj -> part.contains(obj.getId()))` yields them. */
  function Pick(found: seq<Request>, part: seq<int>): seq<Request>
  {
    if found == [] then []
    else
      var init := found[..|found| - 1];
      var last := found[|found| - 1];
      if last.id in part then Pick(init, part) + [last] else Pick(init, part)
  }

  /** Pick keeps exactly the requests of `part`. */
  lemma {:induction false} PickMembers(found: seq<Request>, part: seq<int>)
    ensures forall x :: x in Pick(found, part) <==> x in found && x.id in part
  {
    if found != [] {
      var init := found[..|found| - 1];
      assert found == init + [found[|found| - 1]];
      PickMembers(init, part);
    }
  }

  /** Each request with its status set, as `peek(obj -> obj.setStatus(...))`
      leaves it. */
  function Marked(rs: seq<Request>, status: Status): (r: seq<Request>)
    ensures |r| == |rs|
    ensures forall i :: 0 <= i < |rs| ==> r[i] == rs[i].(status := status)
  {
    seq(|rs|, i requires 0 <= i < |rs| => rs[i].(status := status))
  }

  /** Some request of `part` among `found` has the status `forbidden`. */
  predicate HasConflict(found: seq<Request>, part: seq<int>, forbidden: Status) {
    if found == [] then false
    else
      var last := found[|found| - 1];
      HasConflict(found[..|found| - 1], part, forbidden) || (last.id in part && last.status == forbidden)
  }

  lemma {:induction false} HasConflictMeans(found: seq<Request>, part: seq<int>, forbidden: Status)
    ensures HasConflict(found, part, forbidden) <==> exists x :: x in found && x.id in part && x.status == forbidden
  {
    if found != [] {
      var init := found[..|found| - 1];
      assert found == init + [found[|found| - 1]];
      HasConflictMeans(init, part, forbidden);
    }
  }

  /** One `filter`/`peek`/`peek` pipeline over the fetched requests: a
      request of `part` whose status is `forbidden` throws Conflict,
      otherwise every request of `part` comes out with `status`. */
  function MarkPart(found: seq<Request>, part: seq<int>, forbidden: Status, status: Status): Result<seq<Request>> {
    if HasConflict(found, part, forbidden) then Failure(Conflict)
    else Success(Marked(Pick(found, part), status))
  }

  /** The pipeline fails, with Conflict, exactly when a request of `part`
      has the forbidden status; otherwise it yields exactly the requests of
      `part`, each with the new status. */
  lemma MarkPartMeaning(found: seq<Request>, part: seq<int>, forbidden: Status, status: Status)
    ensures var r := MarkPart(found, part, forbidden, status);
      && (r.Failure? ==> r.error == Conflict)
      && (r.Failure? <==> exists x :: x in found && x.id in part && x.status == forbidden)
      && (r.Success? ==> forall y :: y in r.value <==> exists x :: x in found && x.id in part && y == x.(status := status))
  {
    HasConflictMeans(found, part, forbidden);
    if !HasConflict(found, part, forbidden) {
      var picked := Pick(found, part);
      PickMembers(found, part);
      var r := Marked(picked, status);
      forall y | y in r ensures exists x :: x in found && x.id in part && y == x.(status := status) {
        var i :| 0 <= i < |r| && r[i] == y;
        assert picked[i] in picked;
      }
      forall x | x in found && x.id in part ensures x.(status := status) in r {
        assert x in picked;
        var i :| 0 <= i < |picked| && picked[i] == x;
        assert r[i] == x.(status := status);
      }
    }
  }

  /** The CONFIRMED branch once the free places are known:
      `freeLimit = min(free, |ids|)`, Conflict when it is not positive, the
      first `freeLimit` ids to confirm and the rest to reject, the fetch
      (NotFound for unknown ids), the two pipelines and the two bulk
      updates. */
  function ConfirmSplit(rows: seq<Request>, ids: seq<int>, free: int): (r: Result<Switched>)
    ensures Min(free, |ids|) <= 0 ==> r == Failure(Conflict)
  {
    var freeLimit := Min(free, |ids|);
    if freeLimit <= 0 then Failure(Conflict)
    else
      var confirmedIds := ids[..freeLimit];
      var rejectedIds := ids[freeLimit..];
      match Table.GetByIds(rows, RequestKey, ids)
      case Failure(err) => Failure(err)
      case Success(found) =>
        match MarkPart(found, rejectedIds, CONFIRMED, REJECTED)
        case Failure(err) => Failure(err)
        case Success(rejected) =>
          match MarkPart(found, confirmedIds, REJECTED, CONFIRMED)
          case Failure(err) => Failure(err)
          case Success(confirmed) =>
            Success(Switched(SwitchResult(confirmed, rejected),
                             SetStatusAll(SetStatusAll(rows, rejectedIds, REJECTED), confirmedIds, CONFIRMED)))
  }

  /** Any other target: the fetch, Conflict if a listed request is already
      CONFIRMED, otherwise all of them become REJECTED. */
  function RejectAll(rows: seq<Request>, ids: seq<int>): (r: Result<Switched>)
  {
    match Table.GetByIds(rows, RequestKey, ids)
    case Failure(err) => Failure(err)
    case Success(found) =>
      match MarkPart(found, ids, CONFIRMED, REJECTED)
      case Failure(err) => Failure(err)
      case Success(rejected) => Success(Switched(SwitchResult([], rejected), SetStatusAll(rows, ids, REJECTED)))
  }

  /** The whole call: the event must exist (NotFound) and belong to the
      caller (Forbidden); an unlimited or unmoderated event answers the
      fetched requests as confirmed and writes nothing; otherwise the event
      is projected (whose failures propagate) and its confirmed counter
      gives the free places. The listed ids are never checked against the
      event. A missing target status takes the reject branch. */
  function Switch(events: seq<Event>, rows: seq<Request>, userId: int, eventId: int, ids: seq<int>,
                  target: Option<Status>, now: int,
                  collector: (int, int, seq<string>, bool) -> seq<ViewStats>,
                  users: int -> Option<UserShort>): (r: Result<Switched>)
    ensures !HasKey(events, EventKey, eventId) ==> r == Failure(NotFound([eventId]))
    ensures HasKey(events, EventKey, eventId) && FindById(events, EventKey, eventId).value.initiatorId != userId ==>
      r == Failure(Forbidden)
  {
    match GetOwnEvent(events, eventId, userId)
    case Failure(err) => Failure(err)
    case Success(e) =>
      if e.participantLimit == 0 || !e.requestModeration then
        match Table.GetByIds(rows, RequestKey, ids)
        case Failure(err) => Failure(err)
        case Success(found) => Success(Switched(SwitchResult(found, []), rows))
      else Moderated(e, rows, ids, target, EventsView([e], now, collector), users)
  }

  /** A moderated, limited event: the free places are learnt, then the
      target picks the branch. */
  function Moderated(e: Event, rows: seq<Request>, ids: seq<int>, target: Option<Status>,
                     views: Result<map<int, int>>, users: int -> Option<UserShort>): Result<Switched>
  {
    match FreePlaces(e, rows, views, users)
    case Failure(err) => Failure(err)
    case Success(free) => Decide(rows, ids, target, free)
  }

  /** The free places as the code computes them: the limit minus the
      `confirmedRequests` of the event's full projection, which is built
      whole (views and initiator included) and whose failures abort. */
  function FreePlaces(e: Event, rows: seq<Request>, views: Result<map<int, int>>,
                      users: int -> Option<UserShort>): Result<int>
  {
    match FullDtos([e], rows, views, users)
    case Failure(err) => Failure(err)
    case Success(dtos) => Success(e.participantLimit - dtos[0].confirmedRequests)
  }

  /** For a moderated, limited event the projection counts only CONFIRMED
      requests, so the free places are the limit minus those; the lookup
      fails exactly when the projection does. */
  lemma FreePlacesAreUnconfirmed(e: Event, rows: seq<Request>, views: Result<map<int, int>>,
                                 users: int -> Option<UserShort>)
    requires e.participantLimit > 0 && e.requestModeration
    ensures var dtos := FullDtos([e], rows, views, users);
      var f := FreePlaces(e, rows, views, users);
      && (dtos.Failure? <==> f.Failure?)
      && (dtos.Failure? ==> f.error == dtos.error)
      && (dtos.Success? ==> f.value == e.participantLimit - CountByEventIdAndStatus(rows, e.id, CONFIRMED))
  {
    var dtos := FullDtos([e], rows, views, users);
    if dtos.Success? {
      FullDtoCounters([e], rows, views, users, 0);
    }
  }

  /** The target picks the branch: CONFIRMED splits the list by the free
      places, anything else rejects it all. */
  function Decide(rows: seq<Request>, ids: seq<int>, target: Option<Status>, free: int): Result<Switched> {
    if target == Some(CONFIRMED) then ConfirmSplit(rows, ids, free) else RejectAll(rows, ids)
  }

  /* ---- Properties of the call ---- */

  /** An unlimited or unmoderated event: nothing is written, the fetched
      requests come back unchanged as confirmed and none as rejected, and
      the call fails only when some listed id is unknown. */
  lemma ShortCircuitWritesNothing(events: seq<Event>, rows: seq<Request>, userId: int, eventId: int, ids: seq<int>,
                                  target: Option<Status>, now: int,
                                  collector: (int, int, seq<string>, bool) -> seq<ViewStats>,
                                  users: int -> Option<UserShort>)
    requires HasKey(events, EventKey, eventId)
    requires var e := FindById(events, EventKey, eventId).value;
      e.initiatorId == userId && (e.participantLimit == 0 || !e.requestModeration)
    ensures var r := Switch(events, rows, userId, eventId, ids, target, now, collector, users);
      && (r.Failure? <==> exists id :: id in ids && !HasKey(rows, RequestKey, id))
      && (r.Success? ==> r.value.rows == rows && r.value.answer.rejected == []
                         && forall x :: x in r.value.answer.confirmed <==> x in rows && x.id in ids)
  {
  }

  /** The moderated, limited case: the free places are the limit minus the
      event's CONFIRMED requests (rejected ones are not folded in here). */
  lemma ModeratedUsesConfirmedCount(e: Event, rows: seq<Request>, ids: seq<int>, target: Option<Status>,
                                    views: Result<map<int, int>>, users: int -> Option<UserShort>, free: int)
    requires e.participantLimit > 0 && e.requestModeration
    requires free == e.participantLimit - CountByEventIdAndStatus(rows, e.id, CONFIRMED)
    ensures var dtos := FullDtos([e], rows, views, users);
      var r := Moderated(e, rows, ids, target, views, users);
      && (dtos.Failure? ==> r.Failure? && r.error == dtos.error)
      && (dtos.Success? && target == Some(CONFIRMED) ==> r == ConfirmSplit(rows, ids, free))
      && (dtos.Success? && target != Some(CONFIRMED) ==> r == RejectAll(rows, ids))
  {
    FreePlacesAreUnconfirmed(e, rows, views, users);
    var f := FreePlaces(e, rows, views, users);
    if f.Success? {
      assert f.value == free;
      assert Moderated(e, rows, ids, target, views, users) == Decide(rows, ids, target, free);
    }
  }

  /** The organiser's own moderated, limited event takes the moderated path. */
  lemma SwitchModerated(events: seq<Event>, rows: seq<Request>, userId: int, eventId: int, ids: seq<int>,
                        target: Option<Status>, now: int,
                        collector: (int, int, seq<string>, bool) -> seq<ViewStats>,
                        users: int -> Option<UserShort>, e: Event)
    requires FindById(events, EventKey, eventId) == Some(e)
    requires e.initiatorId == userId && e.participantLimit > 0 && e.requestModeration
    ensures Switch(events, rows, userId, eventId, ids, target, now, collector, users) ==
      Moderated(e, rows, ids, target, EventsView([e], now, collector), users)
  {
  }

  /** With the event full (no free place, or already over its limit) a
      confirmation fails with Conflict before anything is fetched or
      written. */
  lemma NoFreePlaceConflicts(rows: seq<Request>, ids: seq<int>, limit: int, confirmedCount: int)
    requires limit - confirmedCount <= 0
    ensures ConfirmSplit(rows, ids, limit - confirmedCount) == Failure(Conflict)
  {
  }

  /** The listed ids are unknown somewhere: NotFound naming exactly the
      unknown ones, before any status check. */
  lemma ConfirmUnknownIds(rows: seq<Request>, ids: seq<int>, free: int)
    requires Min(free, |ids|) > 0
    requires exists id :: id in ids && !HasKey(rows, RequestKey, id)
    ensures var r := ConfirmSplit(rows, ids, free);
      r.Failure? && r.error.NotFound? && forall id :: id in r.error.ids <==> id in ids && !HasKey(rows, RequestKey, id)
  {
  }

  /** The conflicts of a confirmation: it fails with Conflict, having
      written nothing, exactly when a request of the rejected remainder is
      already CONFIRMED or one of the confirmed prefix is already REJECTED. */
  lemma ConfirmConflicts(rows: seq<Request>, ids: seq<int>, free: int)
    requires Min(free, |ids|) > 0
    requires forall id :: id in ids ==> HasKey(rows, RequestKey, id)
    ensures var k := Min(free, |ids|);
      ConfirmSplit(rows, ids, free) == Failure(Conflict) <==>
        || (exists x :: x in rows && x.id in ids[k..] && x.status == CONFIRMED)
        || (exists x :: x in rows && x.id in ids[..k] && x.status == REJECTED)
    ensures ConfirmSplit(rows, ids, free).Failure? ==> ConfirmSplit(rows, ids, free) == Failure(Conflict)
  {
    var k := Min(free, |ids|);
    assert ids == ids[..k] + ids[k..];
    MarkFetched(rows, ids, ids[k..], CONFIRMED, REJECTED);
    MarkFetched(rows, ids, ids[..k], REJECTED, CONFIRMED);
  }

  /** A pipeline over the fetched requests, restricted to ids that were
      listed, sees exactly the table's requests of those ids. */
  lemma MarkFetched(rows: seq<Request>, ids: seq<int>, part: seq<int>, forbidden: Status, status: Status)
    requires Table.GetByIds(rows, RequestKey, ids).Success?
    requires forall id :: id in part ==> id in ids
    ensures var r := MarkPart(Table.GetByIds(rows, RequestKey, ids).value, part, forbidden, status);
      && (r.Failure? ==> r.error == Conflict)
      && (r.Failure? <==> exists x :: x in rows && x.id in part && x.status == forbidden)
      && (r.Success? ==> forall y :: y in r.value <==> exists x :: x in rows && x.id in part && y == x.(status := status))
  {
    var found := Table.GetByIds(rows, RequestKey, ids).value;
    MarkPartMeaning(found, part, forbidden, status);
    assert forall x :: x in found && x.id in part <==> x in rows && x.id in part;
  }

  /** What a successful confirmation is made of: a positive `freeLimit`,
      the two pipelines over the fetched requests, and the two bulk
      updates. */
  lemma ConfirmSplitParts(rows: seq<Request>, ids: seq<int>, free: int)
    requires ConfirmSplit(rows, ids, free).Success?
    ensures var k := Min(free, |ids|);
      var s := ConfirmSplit(rows, ids, free).value;
      var found := Table.GetByIds(rows, RequestKey, ids);
      && 0 < k <= |ids| && found.Success?
      && MarkPart(found.value, ids[k..], CONFIRMED, REJECTED) == Success(s.answer.rejected)
      && MarkPart(found.value, ids[..k], REJECTED, CONFIRMED) == Success(s.answer.confirmed)
      && s.rows == SetStatusAll(SetStatusAll(rows, ids[k..], REJECTED), ids[..k], CONFIRMED)
  {
  }

  /** With distinct ids the prefix and the remainder split the list. */
  lemma SplitIsPartition(ids: seq<int>, k: int)
    requires Distinct(ids) && 0 <= k <= |ids|
    ensures forall id :: id in ids <==> id in ids[..k] || id in ids[k..]
    ensures forall id :: id in ids[..k] ==> id !in ids[k..]
  {
    assert ids == ids[..k] + ids[k..];
    forall id | id in ids[..k] ensures id !in ids[k..] {
      var a :| 0 <= a < k && ids[..k][a] == id;
    }
  }

  /** Two bulk updates over disjoint id lists: each row gets the status of
      the list that names it. */
  lemma TwoUpdates(rows: seq<Request>, first: seq<int>, second: seq<int>, s1: Status, s2: Status)
    requires forall id :: id in second ==> id !in first
    ensures var r := SetStatusAll(SetStatusAll(rows, first, s1), second, s2);
      && |r| == |rows|
      && forall i :: 0 <= i < |rows| ==>
           r[i] == if rows[i].id in second then rows[i].(status := s2)
                   else if rows[i].id in first then rows[i].(status := s1)
                   else rows[i]
  {
  }

  /** A successful confirmation writes the first `freeLimit` listed ids as
      CONFIRMED and the others as REJECTED; every other row is untouched. */
  lemma ConfirmWrites(rows: seq<Request>, ids: seq<int>, free: int)
    requires Distinct(ids)
    requires ConfirmSplit(rows, ids, free).Success?
    ensures var k := Min(free, |ids|);
      var s := ConfirmSplit(rows, ids, free).value;
      && 0 < k <= |ids|
      && |s.rows| == |rows|
      && (forall i :: 0 <= i < |rows| ==>
            s.rows[i] == if rows[i].id in ids[..k] then rows[i].(status := CONFIRMED)
                         else if rows[i].id in ids[k..] then rows[i].(status := REJECTED)
                         else rows[i])
  {
    var k := Min(free, |ids|);
    ConfirmSplitParts(rows, ids, free);
    SplitIsPartition(ids, k);
    TwoUpdates(rows, ids[k..], ids[..k], REJECTED, CONFIRMED);
  }

  /** The answer of a successful confirmation lists every listed request
      exactly once: those of the first `freeLimit` ids as CONFIRMED, the
      others as REJECTED. */
  lemma ConfirmAnswer(rows: seq<Request>, ids: seq<int>, free: int)
    requires Distinct(ids)
    requires ConfirmSplit(rows, ids, free).Success?
    ensures var k := Min(free, |ids|);
      var s := ConfirmSplit(rows, ids, free).value;
      && (forall y :: y in s.answer.confirmed <==> exists x :: x in rows && x.id in ids[..k] && y == x.(status := CONFIRMED))
      && (forall y :: y in s.answer.rejected <==> exists x :: x in rows && x.id in ids[k..] && y == x.(status := REJECTED))
  {
    var k := Min(free, |ids|);
    ConfirmSplitParts(rows, ids, free);
    assert ids == ids[..k] + ids[k..];
    MarkFetched(rows, ids, ids[k..], CONFIRMED, REJECTED);
    MarkFetched(rows, ids, ids[..k], REJECTED, CONFIRMED);
  }

  /** Rejecting the remainder and then confirming `k` ids adds at most `k`
      confirmed rows to any event. */
  lemma UpdatesAddAtMost(rows: seq<Request>, ids: seq<int>, k: int, eventId: int)
    requires UniqueKeys(rows, RequestKey) && 0 <= k <= |ids|
    ensures CountByEventIdAndStatus(SetStatusAll(SetStatusAll(rows, ids[k..], REJECTED), ids[..k], CONFIRMED),
                                    eventId, CONFIRMED)
         <= CountByEventIdAndStatus(rows, eventId, CONFIRMED) + k
  {
    var mid := SetStatusAll(rows, ids[k..], REJECTED);
    OtherStatusAddsNone(rows, ids[k..], REJECTED, eventId);
    SetStatusAllKeepsKeys(rows, ids[k..], REJECTED);
    ConfirmAddsAtMost(mid, ids[..k], eventId);
    RowsWithIdInBound(mid, SetOf(ids[..k]));
    SetOfSize(ids[..k]);
  }

  /** Confirming never leaves the event above its limit: at most
      `freeLimit <= limit - confirmed` rows become CONFIRMED. */
  lemma ConfirmKeepsCapacity(rows: seq<Request>, ids: seq<int>, eventId: int, limit: int, free: int)
    requires UniqueKeys(rows, RequestKey)
    requires free == limit - CountByEventIdAndStatus(rows, eventId, CONFIRMED)
    requires ConfirmSplit(rows, ids, free).Success?
    ensures CountByEventIdAndStatus(ConfirmSplit(rows, ids, free).value.rows, eventId, CONFIRMED) <= limit
  {
    ConfirmSplitParts(rows, ids, free);
    UpdatesAddAtMost(rows, ids, Min(free, |ids|), eventId);
  }

  /** Setting statuses keeps the ids, so they stay unique. */
  lemma SetStatusAllKeepsKeys(rows: seq<Request>, ids: seq<int>, status: Status)
    requires UniqueKeys(rows, RequestKey)
    ensures UniqueKeys(SetStatusAll(rows, ids, status), RequestKey)
  {
    var r := SetStatusAll(rows, ids, status);
    forall i, j | 0 <= i < j < |r| ensures RequestKey(r[i]) != RequestKey(r[j]) {
      assert RequestKey(rows[i]) != RequestKey(rows[j]);
    }
  }

  /** The reject branch: Conflict, with nothing written, exactly when a
      listed request is already CONFIRMED; otherwise every listed request
      becomes REJECTED, nothing else changes and nobody is confirmed. */
  lemma RejectBranch(rows: seq<Request>, ids: seq<int>)
    requires forall id :: id in ids ==> HasKey(rows, RequestKey, id)
    ensures RejectAll(rows, ids) == Failure(Conflict) <==> exists x :: x in rows && x.id in ids && x.status == CONFIRMED
    ensures RejectAll(rows, ids).Failure? ==> RejectAll(rows, ids) == Failure(Conflict)
    ensures RejectAll(rows, ids).Success? ==>
      var s := RejectAll(rows, ids).value;
      && s.answer.confirmed == []
      && (forall i :: 0 <= i < |rows| ==> s.rows[i] == if rows[i].id in ids then rows[i].(status := REJECTED) else rows[i])
      && (forall y :: y in s.answer.rejected <==> exists x :: x in rows && x.id in ids && y == x.(status := REJECTED))
  {
    MarkFetched(rows, ids, ids, CONFIRMED, REJECTED);
  }

  /** The reject branch never confirms anybody. */
  lemma RejectKeepsCapacity(rows: seq<Request>, ids: seq<int>, eventId: int)
    requires RejectAll(rows, ids).Success?
    ensures CountByEventIdAndStatus(RejectAll(rows, ids).value.rows, eventId, CONFIRMED)
         <= CountByEventIdAndStatus(rows, eventId, CONFIRMED)
  {
    OtherStatusAddsNone(rows, ids, REJECTED, eventId);
  }

  /** Whatever the branch, a limited event that was within its limit is
      still within it after the call. */
  lemma SwitchKeepsCapacity(events: seq<Event>, rows: seq<Request>, userId: int, eventId: int, ids: seq<int>,
                            target: Option<Status>, now: int,
                            collector: (int, int, seq<string>, bool) -> seq<ViewStats>,
                            users: int -> Option<UserShort>)
    requires UniqueKeys(rows, RequestKey)
    requires Switch(events, rows, userId, eventId, ids, target, now, collector, users).Success?
    requires var e := FindById(events, EventKey, eventId).value;
      CountByEventIdAndStatus(rows, eventId, CONFIRMED) <= e.participantLimit
    ensures var e := FindById(events, EventKey, eventId).value;
      CountByEventIdAndStatus(Switch(events, rows, userId, eventId, ids, target, now, collector, users).value.rows,
                              eventId, CONFIRMED) <= e.participantLimit
  {
    var e := FindById(events, EventKey, eventId).value;
    if e.participantLimit > 0 && e.requestModeration {
      var free := e.participantLimit - CountByEventIdAndStatus(rows, e.id, CONFIRMED);
      SwitchModerated(events, rows, userId, eventId, ids, target, now, collector, users, e);
      ModeratedUsesConfirmedCount(e, rows, ids, target, EventsView([e], now, collector), users, free);
      if target == Some(CONFIRMED) {
        ConfirmKeepsCapacity(rows, ids, eventId, e.participantLimit, free);
      } else {
        RejectKeepsCapacity(rows, ids, eventId);
      }
    }
  }

  /* ---- Worked examples ---- */

  /** Three stored requests, all listed: the fetch returns the table. */
  lemma StoredThree(rows: seq<Request>, ids: seq<int>)
    requires |rows| == 3
    requires forall k :: k in ids <==> k == rows[0].id || k == rows[1].id || k == rows[2].id
    ensures Table.GetByIds(rows, RequestKey, ids) == Success(rows)
  {
    assert HasKey(rows, RequestKey, rows[0].id) by { assert RequestKey(rows[0]) == rows[0].id; }
    assert HasKey(rows, RequestKey, rows[1].id) by { assert RequestKey(rows[1]) == rows[1].id; }
    assert HasKey(rows, RequestKey, rows[2].id) by { assert RequestKey(rows[2]) == rows[2].id; }
    GetByIdsOfAllKeys(rows, RequestKey, ids);
  }

  /** A pipeline over pending requests, which conflict with neither
      forbidden status. Over three requests its result is spelled out. */
  lemma MarkThreePending(found: seq<Request>, part: seq<int>, forbidden: Status, status: Status)
    requires |found| == 3
    requires forall i :: 0 <= i < 3 ==> found[i].status == Status.PENDING
    requires forbidden != Status.PENDING
    ensures MarkPart(found, part, forbidden, status) == Success(Marked(
      (if found[0].id in part then [found[0]] else []) +
      (if found[1].id in part then [found[1]] else []) +
      (if found[2].id in part then [found[2]] else []), status))
  {
    HasConflictMeans(found, part, forbidden);
    var f1, f2 := found[..1], found[..2];
    assert f1[..0] == [] && f2[..1] == f1;
    assert Pick(f1, part) == if found[0].id in part then [found[0]] else [];
    assert Pick(f2, part) == Pick(f1, part) + if found[1].id in part then [found[1]] else [];
    assert found[..2] == f2;
    assert !HasConflict(found, part, forbidden);
    assert Pick(found, part) == Pick(f2, part) + if found[2].id in part then [found[2]] else [];
  }

  /** Requests 5, 6 and 7, all pending, of an event with two free places:
      5 and 6 are confirmed and 7 rejected. */
  lemma ExampleTwoFreePlaces(rows: seq<Request>, ids: seq<int>)
    requires rows == [Request(5, 1, 10, Status.PENDING, 0), Request(6, 1, 11, Status.PENDING, 0),
                      Request(7, 1, 12, Status.PENDING, 0)]
    requires ids == [5, 6, 7]
    ensures ConfirmSplit(rows, ids, 2) ==
      Success(Switched(SwitchResult([Request(5, 1, 10, CONFIRMED, 0), Request(6, 1, 11, CONFIRMED, 0)],
                                    [Request(7, 1, 12, REJECTED, 0)]),
                       [Request(5, 1, 10, CONFIRMED, 0), Request(6, 1, 11, CONFIRMED, 0),
                        Request(7, 1, 12, REJECTED, 0)]))
  {
    StoredThree(rows, ids);
    assert ids[..2] == [5, 6] && ids[2..] == [7];
    TwoFreePlacesPipelines(rows);
    TwoFreePlacesWrites(rows);
  }

  lemma TwoFreePlacesPipelines(rows: seq<Request>)
    requires rows == [Request(5, 1, 10, Status.PENDING, 0), Request(6, 1, 11, Status.PENDING, 0),
                      Request(7, 1, 12, Status.PENDING, 0)]
    ensures MarkPart(rows, [7], CONFIRMED, REJECTED) == Success([Request(7, 1, 12, REJECTED, 0)])
    ensures MarkPart(rows, [5, 6], REJECTED, CONFIRMED) ==
      Success([Request(5, 1, 10, CONFIRMED, 0), Request(6, 1, 11, CONFIRMED, 0)])
  {
    MarkThreePending(rows, [7], CONFIRMED, REJECTED);
    assert 5 !in [7] && 6 !in [7] && 7 in [7];
    assert [] + [] + [rows[2]] == [rows[2]];
    assert Marked([rows[2]], REJECTED) == [Request(7, 1, 12, REJECTED, 0)];
    MarkThreePending(rows, [5, 6], REJECTED, CONFIRMED);
    assert 5 in [5, 6] && 6 in [5, 6] && 7 !in [5, 6];
    assert [rows[0]] + [rows[1]] + [] == [rows[0], rows[1]];
    assert Marked([rows[0], rows[1]], CONFIRMED) == [Request(5, 1, 10, CONFIRMED, 0), Request(6, 1, 11, CONFIRMED, 0)];
  }

  lemma TwoFreePlacesWrites(rows: seq<Request>)
    requires rows == [Request(5, 1, 10, Status.PENDING, 0), Request(6, 1, 11, Status.PENDING, 0),
                      Request(7, 1, 12, Status.PENDING, 0)]
    ensures SetStatusAll(SetStatusAll(rows, [7], REJECTED), [5, 6], CONFIRMED) ==
      [Request(5, 1, 10, CONFIRMED, 0), Request(6, 1, 11, CONFIRMED, 0), Request(7, 1, 12, REJECTED, 0)]
  {
    var mid := SetStatusAll(rows, [7], REJECTED);
    assert mid == [rows[0], rows[1], Request(7, 1, 12, REJECTED, 0)];
    var after := SetStatusAll(mid, [5, 6], CONFIRMED);
    assert after[0] == Request(5, 1, 10, CONFIRMED, 0);
    assert after[1] == Request(6, 1, 11, CONFIRMED, 0);
    assert after[2] == Request(7, 1, 12, REJECTED, 0);
    assert |after| == 3;
  }

  /** Listed as 7, 6, 5: the split follows the list (7 and 6 are
      confirmed), but the answer follows the table (6 before 7). */
  lemma ExampleAnswerInTableOrder(rows: seq<Request>, ids: seq<int>)
    requires rows == [Request(5, 1, 10, Status.PENDING, 0), Request(6, 1, 11, Status.PENDING, 0),
                      Request(7, 1, 12, Status.PENDING, 0)]
    requires ids == [7, 6, 5]
    ensures ConfirmSplit(rows, ids, 2).Success?
    ensures ConfirmSplit(rows, ids, 2).value.answer ==
      SwitchResult([Request(6, 1, 11, CONFIRMED, 0), Request(7, 1, 12, CONFIRMED, 0)],
                   [Request(5, 1, 10, REJECTED, 0)])
  {
    StoredThree(rows, ids);
    assert ids[..2] == [7, 6] && ids[2..] == [5];
    TableOrderPipelines(rows);
  }

  lemma TableOrderPipelines(rows: seq<Request>)
    requires rows == [Request(5, 1, 10, Status.PENDING, 0), Request(6, 1, 11, Status.PENDING, 0),
                      Request(7, 1, 12, Status.PENDING, 0)]
    ensures MarkPart(rows, [5], CONFIRMED, REJECTED) == Success([Request(5, 1, 10, REJECTED, 0)])
    ensures MarkPart(rows, [7, 6], REJECTED, CONFIRMED) ==
      Success([Request(6, 1, 11, CONFIRMED, 0), Request(7, 1, 12, CONFIRMED, 0)])
  {
    MarkThreePending(rows, [5], CONFIRMED, REJECTED);
    assert 5 in [5] && 6 !in [5] && 7 !in [5];
    assert [rows[0]] + [] + [] == [rows[0]];
    assert Marked([rows[0]], REJECTED) == [Request(5, 1, 10, REJECTED, 0)];
    MarkThreePending(rows, [7, 6], REJECTED, CONFIRMED);
    assert 5 !in [7, 6] && 6 in [7, 6] && 7 in [7, 6];
    assert [] + [rows[1]] + [rows[2]] == [rows[1], rows[2]];
    assert Marked([rows[1], rows[2]], CONFIRMED) == [Request(6, 1, 11, CONFIRMED, 0), Request(7, 1, 12, CONFIRMED, 0)];
  }

  /** The ids are not checked against the event: a request of event 2 is
      confirmed by a call about event 1. */
  lemma ExampleForeignRequestConfirmed(rows: seq<Request>, ids: seq<int>)
    requires rows == [Request(9, 2, 10, Status.PENDING, 0)] && ids == [9]
    ensures ConfirmSplit(rows, ids, 1) ==
      Success(Switched(SwitchResult([Request(9, 2, 10, CONFIRMED, 0)], []), [Request(9, 2, 10, CONFIRMED, 0)]))
  {
    assert HasKey(rows, RequestKey, 9) by { assert RequestKey(rows[0]) == 9; }
    GetByIdsOfAllKeys(rows, RequestKey, ids);
    assert ids[..1] == [9] && ids[1..] == [];
    assert rows[..0] == [] && rows == [rows[0]];
    assert !HasConflict(rows, [], CONFIRMED) && !HasConflict(rows, [9], REJECTED);
    assert Pick(rows[..0], [9]) == [] && Pick(rows[..0], []) == [];
    assert Pick(rows, []) == [] && Pick(rows, [9]) == [] + [rows[0]];
    assert [] + [rows[0]] == rows && Marked([], REJECTED) == [];
    assert Marked(rows, CONFIRMED) == [Request(9, 2, 10, CONFIRMED, 0)];
    assert SetStatusAll(SetStatusAll(rows, [], REJECTED), [9], CONFIRMED) == [Request(9, 2, 10, CONFIRMED, 0)];
  }

  /* ---- The service method ---- */

  lemma PickSnoc(found: seq<Request>, part: seq<int>, i: int)
    requires 0 <= i < |found|
    ensures Pick(found[..i + 1], part) ==
      if found[i].id in part then Pick(found[..i], part) + [found[i]] else Pick(found[..i], part)
  {
    var s := found[..i + 1];
    assert s[..|s| - 1] == found[..i];
  }

  lemma MarkedSnoc(rs: seq<Request>, x: Request, status: Status)
    ensures Marked(rs + [x], status) == Marked(rs, status) + [x.(status := status)]
  {
  }

  /** The two `filter`/`peek`/`peek` pipelines, run over the fetched
      requests one at a time. */
  method PeekAndMark(found: seq<Request>, part: seq<int>, forbidden: Status, status: Status)
    returns (r: Result<seq<Request>>)
    ensures r == MarkPart(found, part, forbidden, status)
  {
    var marked: seq<Request> := [];
    var i := 0;
    while i < |found|
      invariant 0 <= i <= |found|
      invariant !HasConflict(found[..i], part, forbidden)
      invariant marked == Marked(Pick(found[..i], part), status)
    {
      PickSnoc(found, part, i);
      assert found[..i + 1][..i] == found[..i];
      var obj := found[i];
      if obj.id in part {
        if obj.status == forbidden {
          HasConflictMeans(found, part, forbidden);
          assert obj in found;
          return Failure(Conflict);
        }
        MarkedSnoc(Pick(found[..i], part), obj, status);
        marked := marked + [obj.(status := status)];
      }
      i := i + 1;
    }
    assert found[..i] == found;
    r := Success(marked);
  }

  /** `switchRequestsStatus` against the request table: the statuses are
      written only when the call succeeds, and then exactly as `Switch`
      says; its answer is `Switch`'s answer. The listed ids are non-empty
      and distinct, as the request body's validation requires. */
  method SwitchRequestsStatus(events: seq<Event>, repo: RequestTable, userId: int, eventId: int, ids: seq<int>,
                              target: Option<Status>, now: int,
                              collector: (int, int, seq<string>, bool) -> seq<ViewStats>,
                              users: int -> Option<UserShort>) returns (r: Result<SwitchResult>)
    requires repo.Valid() && |ids| > 0 && Distinct(ids)
    modifies repo
    ensures repo.Valid() && repo.nextId == old(repo.nextId)
    ensures var s := Switch(events, old(repo.rows), userId, eventId, ids, target, now, collector, users);
      && (s.Failure? ==> r == Failure(s.error) && repo.rows == old(repo.rows))
      && (s.Success? ==> r == Success(s.value.answer) && repo.rows == s.value.rows)
  {
    var event := GetOwnEvent(events, eventId, userId);
    if event.Failure? {
      return Failure(event.error);
    }
    var e := event.value;
    if e.participantLimit == 0 || !e.requestModeration {
      var found := Table.GetByIds(repo.rows, RequestKey, ids);
      if found.Failure? {
        return Failure(found.error);
      }
      return Success(SwitchResult(found.value, []));
    }
    r := ModerateListed(repo, e, ids, target, now, collector, users);
  }

  /** The moderated path of `switchRequestsStatus`. */
  method ModerateListed(repo: RequestTable, e: Event, ids: seq<int>, target: Option<Status>, now: int,
                        collector: (int, int, seq<string>, bool) -> seq<ViewStats>,
                        users: int -> Option<UserShort>) returns (r: Result<SwitchResult>)
    requires repo.Valid()
    modifies repo
    ensures repo.Valid() && repo.nextId == old(repo.nextId)
    ensures var s := Moderated(e, old(repo.rows), ids, target, EventsView([e], now, collector), users);
      && (s.Failure? ==> r == Failure(s.error) && repo.rows == old(repo.rows))
      && (s.Success? ==> r == Success(s.value.answer) && repo.rows == s.value.rows)
  {
    var free := FreePlacesOf(e, repo.rows, now, collector, users);
    if free.Failure? {
      return Failure(free.error);
    }
    r := DecideListed(repo, ids, target, free.value);
  }

  /** The free places, from the event's full projection. */
  method FreePlacesOf(e: Event, rows: seq<Request>, now: int,
                      collector: (int, int, seq<string>, bool) -> seq<ViewStats>,
                      users: int -> Option<UserShort>) returns (r: Result<int>)
    ensures var f := FreePlaces(e, rows, EventsView([e], now, collector), users);
      && (r.Failure? <==> f.Failure?)
      && (r.Failure? ==> r.error == f.error)
      && (r.Success? ==> r.value == f.value)
  {
    var dtos := MapToFullDto([e], rows, now, collector, users);
    FreePlacesFromDtos(e, rows, EventsView([e], now, collector), users, dtos);
    if dtos.Failure? {
      return Failure(dtos.error);
    }
    r := Success(e.participantLimit - dtos.value[0].confirmedRequests);
  }

  lemma FreePlacesFromDtos(e: Event, rows: seq<Request>, views: Result<map<int, int>>,
                           users: int -> Option<UserShort>, dtos: Result<seq<EventFullDto>>)
    requires dtos == FullDtos([e], rows, views, users)
    ensures dtos.Failure? ==> FreePlaces(e, rows, views, users).Failure?
    ensures dtos.Failure? ==> FreePlaces(e, rows, views, users).error == dtos.error
    ensures dtos.Success? ==> |dtos.value| == 1
    ensures dtos.Success? ==> FreePlaces(e, rows, views, users).Success?
    ensures dtos.Success? ==>
      FreePlaces(e, rows, views, users).value == e.participantLimit - dtos.value[0].confirmedRequests
  {
  }

  method DecideListed(repo: RequestTable, ids: seq<int>, target: Option<Status>, free: int) returns (r: Result<SwitchResult>)
    requires repo.Valid()
    modifies repo
    ensures repo.Valid() && repo.nextId == old(repo.nextId)
    ensures var s := Decide(old(repo.rows), ids, target, free);
      && (s.Failure? ==> r == Failure(s.error) && repo.rows == old(repo.rows))
      && (s.Success? ==> r == Success(s.value.answer) && repo.rows == s.value.rows)
  {
    if target == Some(CONFIRMED) {
      r := ConfirmListed(repo, ids, free);
    } else {
      r := RejectListed(repo, ids);
    }
  }

  /** The CONFIRMED branch of `switchRequestsStatus` once the free places
      are known. */
  method ConfirmListed(repo: RequestTable, ids: seq<int>, free: int) returns (r: Result<SwitchResult>)
    requires repo.Valid()
    modifies repo
    ensures repo.Valid() && repo.nextId == old(repo.nextId)
    ensures var s := ConfirmSplit(old(repo.rows), ids, free);
      && (s.Failure? ==> r == Failure(s.error) && repo.rows == old(repo.rows))
      && (s.Success? ==> r == Success(s.value.answer) && repo.rows == s.value.rows)
  {
    var freeLimit := Min(free, |ids|);
    if freeLimit <= 0 {
      return Failure(Conflict);
    }
    var confirmedIds := ids[..freeLimit];
    var rejectedIds := ids[freeLimit..];
    var found := Table.GetByIds(repo.rows, RequestKey, ids);
    if found.Failure? {
      return Failure(found.error);
    }
    var rejected := PeekAndMark(found.value, rejectedIds, CONFIRMED, REJECTED);
    if rejected.Failure? {
      return Failure(rejected.error);
    }
    var confirmed := PeekAndMark(found.value, confirmedIds, REJECTED, CONFIRMED);
    if confirmed.Failure? {
      return Failure(confirmed.error);
    }
    repo.SetStatusForAllByIdIn(rejectedIds, REJECTED);
    repo.SetStatusForAllByIdIn(confirmedIds, CONFIRMED);
    r := Success(SwitchResult(confirmed.value, rejected.value));
  }

  /** Any other target: every listed request is rejected. */
  method RejectListed(repo: RequestTable, ids: seq<int>) returns (r: Result<SwitchResult>)
    requires repo.Valid()
    modifies repo
    ensures repo.Valid() && repo.nextId == old(repo.nextId)
    ensures var s := RejectAll(old(repo.rows), ids);
      && (s.Failure? ==> r == Failure(s.error) && repo.rows == old(repo.rows))
      && (s.Success? ==> r == Success(s.value.answer) && repo.rows == s.value.rows)
  {
    var found := Table.GetByIds(repo.rows, RequestKey, ids);
    if found.Failure? {
      return Failure(found.error);
    }
    var rejected := PeekAndMark(found.value, ids, CONFIRMED, REJECTED);
    if rejected.Failure? {
      return Failure(rejected.error);
    }
    repo.SetStatusForAllByIdIn(ids, REJECTED);
    r := Success(SwitchResult([], rejected.value));
  }
}
