/** The request service: creation of participation requests with their
    eligibility checks, self-cancellation and the lookups the event service
    calls remotely. The user directory and the event catalogue are other
    services, passed in as lookups. */
module RequestService {
  import opened Common
  import opened Table
  import opened EventModel
  import opened RequestRepository

  /** A new request is admitted at once when the event is unlimited or not
      moderated; otherwise it waits for the organiser. */
  function InitialStatus(e: Event): (s: Status)
    ensures s == CONFIRMED <==> e.participantLimit == 0 || !e.requestModeration
    ensures s == CONFIRMED || s == Status.PENDING
  {
    var byLimit := if e.participantLimit == 0 then CONFIRMED else Status.PENDING;
    if !e.requestModeration then CONFIRMED else byLimit
  }

  /** `validateRequestCreation`: four guards in order, each a Conflict. */
  function ValidateRequestCreation(rows: seq<Request>, requesterId: int, e: Event): (o: Outcome)
    ensures o.Fail? ==> o.error == Conflict
    ensures o.Pass? <==>
      && !(exists i :: 0 <= i < |rows| && rows[i].requesterId == requesterId && rows[i].eventId == e.id)
      && e.initiatorId != requesterId
      && e.state == PUBLISHED
      && (e.participantLimit == 0 || CountByEventIdAndStatus(rows, e.id, CONFIRMED) < e.participantLimit)
  {
    if ExistsByRequesterIdAndEventId(rows, requesterId, e.id) then Fail(Conflict)
    else if e.initiatorId == requesterId then Fail(Conflict)
    else if e.state != PUBLISHED then Fail(Conflict)
    else if e.participantLimit > 0 && CountByEventIdAndStatus(rows, e.id, CONFIRMED) >= e.participantLimit then Fail(Conflict)
    else Pass
  }

  /** The capacity rule: a limited event never has more confirmed requests
      than its limit. */
  predicate WithinCapacity(rows: seq<Request>, e: Event) {
    e.participantLimit > 0 ==> CountByEventIdAndStatus(rows, e.id, CONFIRMED) <= e.participantLimit
  }

  /** A request that passes the checks keeps every event within capacity:
      its own event because the count was below the limit, the others
      because their counts do not change. */
  lemma CreationKeepsCapacity(rows: seq<Request>, requesterId: int, e: Event, other: Event, id: int, now: int)
    requires ValidateRequestCreation(rows, requesterId, e).Pass?
    requires WithinCapacity(rows, other)
    requires other.id == e.id ==> other.participantLimit == e.participantLimit
    ensures WithinCapacity(rows + [Request(id, e.id, requesterId, InitialStatus(e), now)], other)
  {
    CountAppend(rows, Request(id, e.id, requesterId, InitialStatus(e), now), other.id, CONFIRMED);
  }

  /** `create`: the requester and the event are looked up (NotFound), the
      four checks run, and the request is stored with the status the event's
      policy gives it and the creation time `now`. */
  method Create(repo: RequestTable, userId: int, eventId: int, now: int,
                users: int -> Option<UserShort>, events: int -> Option<Event>)
    returns (r: Result<Request>)
    requires repo.Valid()
    modifies repo
    ensures repo.Valid()
    ensures users(userId).None? ==> r == Failure(NotFound([userId]))
    ensures users(userId).Some? && events(eventId).None? ==> r == Failure(NotFound([eventId]))
    ensures users(userId).Some? && events(eventId).Some? ==>
      var v := ValidateRequestCreation(old(repo.rows), users(userId).value.id, events(eventId).value);
      && (v.Fail? ==> r == Failure(v.error))
      && (v.Pass? ==> r == Success(Request(old(repo.nextId), events(eventId).value.id, users(userId).value.id,
                                           InitialStatus(events(eventId).value), now)))
    ensures r.Success? ==> repo.rows == old(repo.rows) + [r.value] && repo.nextId == old(repo.nextId) + 1
    ensures r.Failure? ==> repo.rows == old(repo.rows) && repo.nextId == old(repo.nextId)
  {
    var requester := users(userId);
    if requester.None? {
      return Failure(NotFound([userId]));
    }
    var event := events(eventId);
    if event.None? {
      return Failure(NotFound([eventId]));
    }
    var check := ValidateRequestCreation(repo.rows, requester.value.id, event.value);
    if check.Fail? {
      return Failure(check.error);
    }
    var request := Request(0, event.value.id, requester.value.id, InitialStatus(event.value), now);
    var saved := repo.Insert(request);
    r := Success(saved);
  }

  /** `cancel`: NotFound for an unknown request, Conflict when the caller is
      not its requester, otherwise the request becomes CANCELED whatever its
      status was. Cancelling a canceled request changes nothing. */
  method Cancel(repo: RequestTable, userId: int, requestId: int) returns (r: Result<Request>)
    requires repo.Valid()
    modifies repo
    ensures repo.Valid() && repo.nextId == old(repo.nextId)
    ensures FindById(old(repo.rows), RequestKey, requestId).None? ==> r == Failure(NotFound([requestId]))
    ensures FindById(old(repo.rows), RequestKey, requestId).Some? ==>
      var found := FindById(old(repo.rows), RequestKey, requestId).value;
      && (found.requesterId != userId ==> r == Failure(Conflict))
      && (found.requesterId == userId ==> r == Success(found.(status := Status.CANCELED)))
      && (found.status == Status.CANCELED ==> repo.rows == old(repo.rows))
    ensures r.Success? ==> repo.rows == Replace(old(repo.rows), RequestKey, r.value)
    ensures r.Failure? ==> repo.rows == old(repo.rows)
  {
    var found := FindById(repo.rows, RequestKey, requestId);
    if found.None? {
      return Failure(NotFound([requestId]));
    }
    var request := found.value;
    if request.requesterId != userId {
      return Failure(Conflict);
    }
    var canceled := request.(status := Status.CANCELED);
    if request.status == Status.CANCELED {
      ReplaceWithStoredRow(repo.rows, RequestKey, request);
    }
    repo.Update(canceled);
    r := Success(canceled);
  }

  /** `getById`. */
  function GetById(rows: seq<Request>, id: int): (r: Result<Request>)
    ensures r.Failure? <==> !HasKey(rows, RequestKey, id)
    ensures r.Failure? ==> r.error == NotFound([id])
    ensures r.Success? ==> r.value in rows && r.value.id == id
  {
    match FindById(rows, RequestKey, id)
    case Some(x) => Success(x)
    case None => Failure(NotFound([id]))
  }

  /** `getByIds`: NotFound naming every missing id, otherwise one record per
      requested id, in storage order. */
  function GetByIds(rows: seq<Request>, ids: seq<int>): (r: Result<seq<Request>>)
    ensures r.Failure? ==> r.error.NotFound? && forall id :: id in r.error.ids <==> id in ids && !HasKey(rows, RequestKey, id)
    ensures r.Success? <==> forall id :: id in ids ==> HasKey(rows, RequestKey, id)
    ensures r.Success? ==> forall x :: x in r.value <==> x in rows && x.id in ids
    ensures r.Success? && UniqueKeys(rows, RequestKey) ==>
      UniqueKeys(r.value, RequestKey) && forall id :: id in ids ==> exists x :: x in r.value && x.id == id
  {
    var r := Table.GetByIds(rows, RequestKey, ids);
    if r.Success? && UniqueKeys(rows, RequestKey) then
      GetByIdsOnePerId(rows, RequestKey, ids);
      r
    else r
  }

  /** `findByUserId`: the requester must exist; then all of their requests. */
  function FindByUserId(rows: seq<Request>, userId: int, users: int -> Option<UserShort>): (r: Result<seq<Request>>)
    ensures users(userId).None? <==> r == Failure(NotFound([userId]))
    ensures r.Success? ==> forall x :: x in r.value <==> x in rows && x.requesterId == userId
  {
    if users(userId).None? then Failure(NotFound([userId]))
    else Success(FindByRequesterId(rows, userId))
  }
}
