/** The read side of the event service: the full and short projections of
    events with their request counters, views and initiator, and the
    listings that page, filter and sort them. The request counts come from
    the request service, the views from the analytics collector and the
    initiators from the user directory. */
module EventProjection {
  import opened Common
  import opened Table
  import opened Paging
  import opened EventModel
  import opened RequestRepository
  import opened StatClient

  /** `EventFullDto`: the event's own fields (carried as the event), its
      initiator, and the two counters the projection computes. */
  datatype EventFullDto = EventFullDto(event: Event, initiator: UserShort, confirmedRequests: int, views: int)

  /** `toEventFullDto(event, initiator)` without the counting loop of
      `mapToFullDto`, as the administrator's update answers: the event's
      fields and its initiator, both counters left null. */
  datatype UncountedFullDto = UncountedFullDto(event: Event, initiator: UserShort)

  /** `EventShortDto`; a counter the code leaves null is None. */
  datatype EventShortDto = EventShortDto(event: Event, initiator: UserShort,
                                         confirmedRequests: Option<int>, views: Option<int>)

  function EventIds(events: seq<Event>): (r: seq<int>)
    ensures |r| == |events| && forall i :: 0 <= i < |events| ==> r[i] == events[i].id
  {
    seq(|events|, i requires 0 <= i < |events| => events[i].id)
  }

  function InitiatorIds(events: seq<Event>): (r: seq<int>)
    ensures |r| == |events| && forall i :: 0 <= i < |events| ==> r[i] == events[i].initiatorId
  {
    seq(|events|, i requires 0 <= i < |events| => events[i].initiatorId)
  }

  /** `getUserMap`: the initiators, fetched all at once from the user
      directory, which answers NotFound with every id it does not know. */
  function UserMap(events: seq<Event>, users: int -> Option<UserShort>): (r: Result<map<int, UserShort>>)
    ensures r.Failure? <==> exists i :: 0 <= i < |events| && users(events[i].initiatorId).None?
    ensures r.Failure? ==> r.error.NotFound?
    ensures r.Failure? ==> forall id :: id in r.error.ids <==> id in InitiatorIds(events) && users(id).None?
    ensures r.Success? ==> forall i :: 0 <= i < |events| ==>
      events[i].initiatorId in r.value && Some(r.value[events[i].initiatorId]) == users(events[i].initiatorId)
  {
    var initiators := InitiatorIds(events);
    var missing := Filter(initiators, id => users(id).None?);
    if missing != [] then
      assert missing[0] in missing;
      Failure(NotFound(missing))
    else
      assert forall i :: 0 <= i < |events| ==> initiators[i] in initiators;
      Success(map id | id in initiators && users(id).Some? :: users(id).value)
  }

  /** `getOrDefault(id, 0)` on the views map. */
  function ViewsOrZero(views: map<int, int>, id: int): int {
    if id in views then views[id] else 0
  }

  /** Whether the projection shows admitted requests as confirmed + rejected:
      when moderation is off or the event is unlimited. */
  predicate FoldsRejected(e: Event) {
    !e.requestModeration || e.participantLimit == 0
  }

  /** One full projection, as the loop of `mapToFullDto` fills it in. */
  function FullView(e: Event, user: UserShort, confirmed: map<int, nat>, rejected: map<int, nat>,
                    views: map<int, int>): EventFullDto
  {
    var c := CountOrZero(confirmed, e.id);
    EventFullDto(e, user, if FoldsRejected(e) then c + CountOrZero(rejected, e.id) else c, ViewsOrZero(views, e.id))
  }

  /** `mapToFullDto`: grouped counts of CONFIRMED and REJECTED requests of
      the listed events, their views (a malformed collector row aborts) and
      their initiators (NotFound aborts), in that order, then one projection
      per event in the same order. */
  function FullDtos(events: seq<Event>, requests: seq<Request>, views: Result<map<int, int>>,
                    users: int -> Option<UserShort>): (r: Result<seq<EventFullDto>>)
    ensures views.Failure? ==> r == Failure(views.error)
    ensures views.Success? && UserMap(events, users).Failure? ==> r == Failure(UserMap(events, users).error)
    ensures r.Success? <==> views.Success? && UserMap(events, users).Success?
    ensures r.Success? ==> |r.value| == |events| && forall i :: 0 <= i < |events| ==>
      && r.value[i].event == events[i]
      && Some(r.value[i].initiator) == users(events[i].initiatorId)
  {
    var ids := EventIds(events);
    var confirmed := CountAllByEventIdInAndStatus(requests, ids, CONFIRMED);
    var rejected := CountAllByEventIdInAndStatus(requests, ids, REJECTED);
    match views
    case Failure(err) => Failure(err)
    case Success(hits) =>
      match UserMap(events, users)
      case Failure(err) => Failure(err)
      case Success(userMap) =>
        Success(seq(|events|, i requires 0 <= i < |events| =>
          FullView(events[i], userMap[events[i].initiatorId], confirmed, rejected, hits)))
  }

  /** The counters of the full projection: the event's CONFIRMED requests,
      plus its REJECTED ones when moderation is off or the event is
      unlimited, and its views; missing counts and views are 0. */
  lemma FullDtoCounters(events: seq<Event>, requests: seq<Request>, views: Result<map<int, int>>,
                        users: int -> Option<UserShort>, i: int)
    requires FullDtos(events, requests, views, users).Success? && 0 <= i < |events|
    ensures var d := FullDtos(events, requests, views, users).value[i];
      && d.confirmedRequests == CountByEventIdAndStatus(requests, events[i].id, CONFIRMED)
           + (if FoldsRejected(events[i]) then CountByEventIdAndStatus(requests, events[i].id, REJECTED) else 0)
      && d.views == ViewsOrZero(views.value, events[i].id)
  {
    var ids := EventIds(events);
    assert events[i].id in ids;
    CountAllAgreesWithCount(requests, ids, CONFIRMED, events[i].id);
    CountAllAgreesWithCount(requests, ids, REJECTED, events[i].id);
  }

  /** With no published event among them nothing has views. */
  lemma UnpublishedHaveNoViews(events: seq<Event>, requests: seq<Request>, now: int,
                               collector: (int, int, seq<string>, bool) -> seq<ViewStats>,
                               users: int -> Option<UserShort>)
    requires forall i :: 0 <= i < |events| ==> events[i].publishedOn.None?
    requires forall i :: 0 <= i < |events| ==> users(events[i].initiatorId).Some?
    ensures FullDtos(events, requests, EventsView(events, now, collector), users).Success?
    ensures forall i :: 0 <= i < |events| ==> FullDtos(events, requests, EventsView(events, now, collector), users).value[i].views == 0
  {
    EventsViewWithoutPublished(events, now, collector);
  }

  /** The loop of `mapToFullDto`: the counters are set on each projection
      in turn and the rejected count is added where it folds. */
  method SetFullCounters(events: seq<Event>, userMap: map<int, UserShort>, confirmed: map<int, nat>,
                         rejected: map<int, nat>, views: map<int, int>) returns (dtos: seq<EventFullDto>)
    requires forall i :: 0 <= i < |events| ==> events[i].initiatorId in userMap
    ensures |dtos| == |events|
    ensures forall j :: 0 <= j < |events| ==>
      dtos[j] == FullView(events[j], userMap[events[j].initiatorId], confirmed, rejected, views)
  {
    dtos := [];
    var i := 0;
    while i < |events|
      invariant 0 <= i <= |events| && |dtos| == i
      invariant forall j :: 0 <= j < i ==>
        dtos[j] == FullView(events[j], userMap[events[j].initiatorId], confirmed, rejected, views)
    {
      var e := events[i];
      var d := EventFullDto(e, userMap[e.initiatorId], CountOrZero(confirmed, e.id), ViewsOrZero(views, e.id));
      if !d.event.requestModeration || d.event.participantLimit == 0 {
        d := d.(confirmedRequests := d.confirmedRequests + CountOrZero(rejected, e.id));
      }
      dtos := dtos + [d];
      i := i + 1;
    }
  }

  /** `mapToFullDto` as the service runs it: counts, views, initiators,
      then the loop over the events. */
  method MapToFullDto(events: seq<Event>, requests: seq<Request>, now: int,
                      collector: (int, int, seq<string>, bool) -> seq<ViewStats>,
                      users: int -> Option<UserShort>) returns (r: Result<seq<EventFullDto>>)
    ensures r == FullDtos(events, requests, EventsView(events, now, collector), users)
  {
    var views := GetEventsView(events, now, collector);
    r := ProjectFull(events, requests, views, users);
  }

  /** The rest of `mapToFullDto` once the collector has answered. */
  method ProjectFull(events: seq<Event>, requests: seq<Request>, views: Result<map<int, int>>,
                     users: int -> Option<UserShort>) returns (r: Result<seq<EventFullDto>>)
    ensures r == FullDtos(events, requests, views, users)
  {
    var ids := EventIds(events);
    var confirmed := CountAllByEventIdInAndStatus(requests, ids, CONFIRMED);
    var rejected := CountAllByEventIdInAndStatus(requests, ids, REJECTED);
    if views.Failure? {
      return Failure(views.error);
    }
    var userMap := UserMap(events, users);
    if userMap.Failure? {
      return Failure(userMap.error);
    }
    var dtos := SetFullCounters(events, userMap.value, confirmed, rejected, views.value);
    assert dtos == seq(|events|, j requires 0 <= j < |events| =>
      FullView(events[j], userMap.value[events[j].initiatorId], confirmed, rejected, views.value));
    r := Success(dtos);
  }

  /** One short projection, as the loop of `mapToShortDto` fills it in. */
  function ShortView(e: Event, user: UserShort, confirmed: map<int, nat>, views: map<int, int>): EventShortDto {
    EventShortDto(e, user, Some(CountOrZero(confirmed, e.id)), Some(ViewsOrZero(views, e.id)))
  }

  /** `mapToShortDto`: like the full projection, but the confirmed counter is
      the CONFIRMED count alone, whatever the event's policy. */
  function ShortDtos(events: seq<Event>, requests: seq<Request>, views: Result<map<int, int>>,
                     users: int -> Option<UserShort>): (r: Result<seq<EventShortDto>>)
    ensures r.Success? <==> views.Success? && UserMap(events, users).Success?
    ensures views.Failure? ==> r.Failure? && r.error == views.error
    ensures views.Success? && UserMap(events, users).Failure? ==> r.Failure? && r.error == UserMap(events, users).error
    ensures r.Success? ==> |r.value| == |events| && forall i :: 0 <= i < |events| ==>
      && r.value[i].event == events[i]
      && r.value[i].confirmedRequests == Some(CountByEventIdAndStatus(requests, events[i].id, CONFIRMED))
      && r.value[i].views == Some(ViewsOrZero(views.value, events[i].id))
      && Some(r.value[i].initiator) == users(events[i].initiatorId)
  {
    var ids := EventIds(events);
    var confirmed := CountAllByEventIdInAndStatus(requests, ids, CONFIRMED);
    match views
    case Failure(err) => Failure(err)
    case Success(hits) =>
      match UserMap(events, users)
      case Failure(err) => Failure(err)
      case Success(userMap) =>
        assert forall i :: 0 <= i < |events| ==> events[i].id in ids;
        Success(seq(|events|, i requires 0 <= i < |events| =>
          ShortView(events[i], userMap[events[i].initiatorId], confirmed, hits)))
  }

  /** `mapToFullDto(List.of(e)).getFirst()`: the full projection of one
      event. */
  function FullDtoOf(e: Event, requests: seq<Request>, views: Result<map<int, int>>,
                     users: int -> Option<UserShort>): (r: Result<EventFullDto>)
    ensures r.Success? <==> views.Success? && users(e.initiatorId).Some?
    ensures views.Failure? ==> r.Failure? && r.error == views.error
    ensures r.Success? ==> r.value.event == e && Some(r.value.initiator) == users(e.initiatorId)
  {
    match FullDtos([e], requests, views, users)
    case Failure(err) => Failure(err)
    case Success(dtos) => Success(dtos[0])
  }

  /** `mapToShortDto(List.of(e)).getFirst()`: the short projection of one
      event. */
  function ShortDtoOf(e: Event, requests: seq<Request>, views: Result<map<int, int>>,
                      users: int -> Option<UserShort>): (r: Result<EventShortDto>)
    ensures r.Success? <==> views.Success? && users(e.initiatorId).Some?
    ensures views.Failure? ==> r.Failure? && r.error == views.error
    ensures r.Success? ==> r.value.event == e && Some(r.value.initiator) == users(e.initiatorId)
    ensures r.Success? ==> r.value.confirmedRequests == Some(CountByEventIdAndStatus(requests, e.id, CONFIRMED))
  {
    match ShortDtos([e], requests, views, users)
    case Failure(err) => Failure(err)
    case Success(dtos) => Success(dtos[0])
  }

  /** The two projections of one event fail together, with the same error,
      and differ in the confirmed counter only: the full one adds the
      REJECTED requests when the event admits without moderation or is
      unlimited. */
  lemma FullAndShortAgree(e: Event, requests: seq<Request>, views: Result<map<int, int>>,
                          users: int -> Option<UserShort>)
    ensures var full := FullDtoOf(e, requests, views, users);
      var short := ShortDtoOf(e, requests, views, users);
      && (full.Success? <==> short.Success?)
      && (full.Failure? ==> full.error == short.error)
      && (full.Success? ==>
            && full.value.event == short.value.event
            && full.value.initiator == short.value.initiator
            && Some(full.value.views) == short.value.views
            && full.value.confirmedRequests == short.value.confirmedRequests.value
                 + (if FoldsRejected(e) then CountByEventIdAndStatus(requests, e.id, REJECTED) else 0))
  {
    var fulls := FullDtos([e], requests, views, users);
    if fulls.Success? {
      FullDtoCounters([e], requests, views, users, 0);
    }
  }

  /** `getEvent(eventId)`: an event that is not published is reported as not
      found, exactly like a missing one. */
  function GetPublishedEvent(events: seq<Event>, eventId: int): (r: Result<Event>)
    requires UniqueKeys(events, EventKey)
    ensures r.Failure? ==> r.error == NotFound([eventId])
    ensures r.Success? <==> exists i :: 0 <= i < |events| && events[i].id == eventId && events[i].state == PUBLISHED
    ensures r.Success? ==> r.value in events && r.value.id == eventId && r.value.state == PUBLISHED
  {
    match FindById(events, EventKey, eventId)
    case None => Failure(NotFound([eventId]))
    case Some(e) =>
      if e.state != PUBLISHED then
        assert forall i :: 0 <= i < |events| && events[i].id == eventId ==> events[i] == e by {
          forall i | 0 <= i < |events| && events[i].id == eventId ensures events[i] == e {
            FindByIdUnique(events, EventKey, i);
          }
        }
        Failure(NotFound([eventId]))
      else Success(e)
  }

  /** `getEvent(eventId, userId)`: only the initiator may read the event
      whatever its state. */
  function GetOwnEvent(events: seq<Event>, eventId: int, userId: int): (r: Result<Event>)
    ensures !HasKey(events, EventKey, eventId) ==> r == Failure(NotFound([eventId]))
    ensures HasKey(events, EventKey, eventId) ==>
      var e := FindById(events, EventKey, eventId).value;
      r == if e.initiatorId == userId then Success(e) else Failure(Forbidden)
  {
    match FindById(events, EventKey, eventId)
    case None => Failure(NotFound([eventId]))
    case Some(e) => if e.initiatorId != userId then Failure(Forbidden) else Success(e)
  }

  /** `getRequests(userId, eventId)`: the initiator sees every request of the
      event, whatever its status. */
  function GetEventRequests(events: seq<Event>, requests: seq<Request>, userId: int, eventId: int): (r: Result<seq<Request>>)
    ensures !HasKey(events, EventKey, eventId) ==> r == Failure(NotFound([eventId]))
    ensures r.Success? <==> HasKey(events, EventKey, eventId) && FindById(events, EventKey, eventId).value.initiatorId == userId
    ensures r.Failure? && HasKey(events, EventKey, eventId) ==> r.error == Forbidden
    ensures r.Success? ==> forall x :: x in r.value <==> x in requests && x.eventId == eventId
  {
    match GetOwnEvent(events, eventId, userId)
    case Failure(err) => Failure(err)
    case Success(_) => Success(FindAllByEventId(requests, eventId))
  }

  /** `getEvent(eventId)` with its projection. */
  function GetEvent(events: seq<Event>, eventId: int, requests: seq<Request>, now: int,
                    collector: (int, int, seq<string>, bool) -> seq<ViewStats>,
                    users: int -> Option<UserShort>): (r: Result<EventFullDto>)
    requires UniqueKeys(events, EventKey)
    ensures GetPublishedEvent(events, eventId).Failure? ==> r.Failure? && r.error == NotFound([eventId])
    ensures r.Success? ==> r.value.event.id == eventId && r.value.event.state == PUBLISHED && r.value.event in events
  {
    match GetPublishedEvent(events, eventId)
    case Failure(err) => Failure(err)
    case Success(e) => FullDtoOf(e, requests, EventsView([e], now, collector), users)
  }

  /** `getEvent(eventId, userId)` with its projection. */
  function GetEventOfOwner(events: seq<Event>, eventId: int, userId: int, requests: seq<Request>, now: int,
                           collector: (int, int, seq<string>, bool) -> seq<ViewStats>,
                           users: int -> Option<UserShort>): (r: Result<EventFullDto>)
    ensures !HasKey(events, EventKey, eventId) ==> r.Failure? && r.error == NotFound([eventId])
    ensures HasKey(events, EventKey, eventId) && FindById(events, EventKey, eventId).value.initiatorId != userId ==>
      r.Failure? && r.error == Forbidden
    ensures r.Success? ==> r.value.event.id == eventId && r.value.event.initiatorId == userId
  {
    match GetOwnEvent(events, eventId, userId)
    case Failure(err) => Failure(err)
    case Success(e) => FullDtoOf(e, requests, EventsView([e], now, collector), users)
  }

  /** `getEventFullDtoById` (served to the other services): NotFound for an
      unknown event, otherwise its full projection, whatever its state. */
  function GetEventFullDtoById(events: seq<Event>, eventId: int, requests: seq<Request>, now: int,
                               collector: (int, int, seq<string>, bool) -> seq<ViewStats>,
                               users: int -> Option<UserShort>): (r: Result<EventFullDto>)
    ensures !HasKey(events, EventKey, eventId) ==> r.Failure? && r.error == NotFound([eventId])
    ensures r.Success? ==> r.value.event == FindById(events, EventKey, eventId).value && r.value.event.id == eventId
  {
    match FindById(events, EventKey, eventId)
    case None => Failure(NotFound([eventId]))
    case Some(e) => FullDtoOf(e, requests, EventsView([e], now, collector), users)
  }

  /** `getEventShortDtoById`: the same lookup with the short projection. */
  function GetEventShortDtoById(events: seq<Event>, eventId: int, requests: seq<Request>, now: int,
                                collector: (int, int, seq<string>, bool) -> seq<ViewStats>,
                                users: int -> Option<UserShort>): (r: Result<EventShortDto>)
    ensures !HasKey(events, EventKey, eventId) ==> r.Failure? && r.error == NotFound([eventId])
    ensures r.Success? ==> r.value.event == FindById(events, EventKey, eventId).value && r.value.event.id == eventId
    ensures r.Success? ==> r.value.confirmedRequests == Some(CountByEventIdAndStatus(requests, eventId, CONFIRMED))
  {
    match FindById(events, EventKey, eventId)
    case None => Failure(NotFound([eventId]))
    case Some(e) => ShortDtoOf(e, requests, EventsView([e], now, collector), users)
  }

  /** For a published event the lookup served to the other services gives
      what the public `getEvent` gives; unlike it, it does not hide the
      events that are not published. */
  lemma ByIdAgreesWithPublic(events: seq<Event>, eventId: int, requests: seq<Request>, now: int,
                             collector: (int, int, seq<string>, bool) -> seq<ViewStats>,
                             users: int -> Option<UserShort>)
    requires UniqueKeys(events, EventKey)
    ensures GetPublishedEvent(events, eventId).Success? ==>
      GetEventFullDtoById(events, eventId, requests, now, collector, users) ==
      GetEvent(events, eventId, requests, now, collector, users)
    ensures HasKey(events, EventKey, eventId) && FindById(events, EventKey, eventId).value.state != PUBLISHED ==>
      GetEvent(events, eventId, requests, now, collector, users).Failure?
  {
  }

  /** Whether one event's own projection can be built: its views can be
      fetched and its initiator is known. */
  predicate Projectable(e: Event, now: int, collector: (int, int, seq<string>, bool) -> seq<ViewStats>,
                        users: int -> Option<UserShort>)
  {
    EventsView([e], now, collector).Success? && users(e.initiatorId).Some?
  }

  /** `mapToShortDto(List.of(e)).getFirst()` with the event's own views. */
  function SingleShortDto(e: Event, requests: seq<Request>, now: int,
                          collector: (int, int, seq<string>, bool) -> seq<ViewStats>,
                          users: int -> Option<UserShort>): (r: Result<EventShortDto>)
    ensures r.Success? <==> Projectable(e, now, collector, users)
    ensures r.Success? ==> r.value.event == e && Some(r.value.initiator) == users(e.initiatorId)
    ensures r.Success? ==> r.value.confirmedRequests == Some(CountByEventIdAndStatus(requests, e.id, CONFIRMED))
  {
    ShortDtoOf(e, requests, EventsView([e], now, collector), users)
  }

  /** Each found event projected on its own, the first failure winning. */
  function ShortDtosOneByOne(found: seq<Event>, requests: seq<Request>, now: int,
                             collector: (int, int, seq<string>, bool) -> seq<ViewStats>,
                             users: int -> Option<UserShort>): (r: Result<seq<EventShortDto>>)
    ensures r.Success? ==> |r.value| == |found| && forall i :: 0 <= i < |found| ==>
      && SingleShortDto(found[i], requests, now, collector, users).Success?
      && r.value[i] == SingleShortDto(found[i], requests, now, collector, users).value
  {
    if found == [] then Success([])
    else
      match SingleShortDto(found[0], requests, now, collector, users)
      case Failure(err) => Failure(err)
      case Success(first) =>
        var rest := ShortDtosOneByOne(found[1..], requests, now, collector, users);
        assert forall i :: 1 <= i < |found| ==> found[i] == found[1..][i - 1];
        match rest
        case Failure(err) => Failure(err)
        case Success(tail) => Success([first] + tail)
  }

  /** The per-event projection succeeds exactly when every event's does. */
  lemma {:induction false} ShortDtosOneByOneSucceeds(found: seq<Event>, requests: seq<Request>, now: int,
                                                     collector: (int, int, seq<string>, bool) -> seq<ViewStats>,
                                                     users: int -> Option<UserShort>)
    ensures ShortDtosOneByOne(found, requests, now, collector, users).Success? <==>
      forall i :: 0 <= i < |found| ==> Projectable(found[i], now, collector, users)
  {
    if found != [] {
      ShortDtosOneByOneSucceeds(found[1..], requests, now, collector, users);
      assert forall i :: 1 <= i < |found| ==> found[i] == found[1..][i - 1];
    }
  }

  /** Projecting the found events one by one: it succeeds exactly when every
      found event is projectable, and then every found event has its own
      projection in the answer. */
  lemma ShortDtosOfFound(found: seq<Event>, requests: seq<Request>, now: int,
                         collector: (int, int, seq<string>, bool) -> seq<ViewStats>,
                         users: int -> Option<UserShort>)
    ensures var r := ShortDtosOneByOne(found, requests, now, collector, users);
      && (r.Success? <==> forall e :: e in found ==> Projectable(e, now, collector, users))
      && (r.Success? ==> forall e :: e in found ==> exists d :: d in r.value && d.event == e)
  {
    var r := ShortDtosOneByOne(found, requests, now, collector, users);
    ShortDtosOneByOneSucceeds(found, requests, now, collector, users);
    if r.Success? {
      forall e | e in found ensures exists d :: d in r.value && d.event == e {
        var i :| 0 <= i < |found| && found[i] == e;
        assert r.value[i] in r.value;
      }
    }
  }

  /** `getByIds`: NotFound naming every missing event, otherwise the found
      events in storage order, each projected on its own; a projection that
      fails aborts the whole answer. */
  function GetEventsByIds(events: seq<Event>, ids: seq<int>, requests: seq<Request>, now: int,
                          collector: (int, int, seq<string>, bool) -> seq<ViewStats>,
                          users: int -> Option<UserShort>): (r: Result<seq<EventShortDto>>)
    ensures (exists id :: id in ids && !HasKey(events, EventKey, id)) ==>
      r.Failure? && r.error.NotFound? && forall id :: id in r.error.ids <==> id in ids && !HasKey(events, EventKey, id)
    ensures r.Success? <==>
      && (forall id :: id in ids ==> HasKey(events, EventKey, id))
      && (forall e :: e in events && e.id in ids ==> Projectable(e, now, collector, users))
    ensures r.Success? ==> forall d :: d in r.value ==>
      && d.event in events && d.event.id in ids
      && d == SingleShortDto(d.event, requests, now, collector, users).value
    ensures r.Success? ==> forall e :: e in events && e.id in ids ==> exists d :: d in r.value && d.event == e
  {
    match Table.GetByIds(events, EventKey, ids)
    case Failure(err) => Failure(err)
    case Success(found) =>
      ShortDtosOfFound(found, requests, now, collector, users);
      ShortDtosOneByOne(found, requests, now, collector, users)
  }

  /** The search criteria of the admin listing as the repository applies
      them are not modelled: `matching` is the query's result before
      paging. `findEvents(EventAdminParam)` pages with `from > size`
      (so `from == size` reads page 1) and projects in full. */
  function FindEventsAdmin(matching: seq<Event>, from: nat, size: nat, requests: seq<Request>, now: int,
                           collector: (int, int, seq<string>, bool) -> seq<ViewStats>,
                           users: int -> Option<UserShort>): (r: Result<seq<EventFullDto>>)
    ensures size > 0 && from > size ==> r == Success([])
    ensures var page := AdminPaged(matching, from, size);
      && (r.Success? <==> EventsView(page, now, collector).Success? && UserMap(page, users).Success?)
      && (r.Success? ==> |r.value| == |page| && forall i :: 0 <= i < |page| ==>
            r.value[i].event == page[i] && Some(r.value[i].initiator) == users(page[i].initiatorId))
  {
    FullDtos(AdminPaged(matching, from, size), requests, EventsView(AdminPaged(matching, from, size), now, collector), users)
  }

  /** The orderings of the public listing. */
  datatype SortOrder = ByEventDate | ByViewsDescending | Unsorted

  /** `param.getSort()`: only the two exact names sort. */
  function SortOrderOf(sort: Option<string>): (o: SortOrder)
    ensures o == ByEventDate <==> sort == Some("EVENT_DATE")
    ensures o == ByViewsDescending <==> sort == Some("VIEWS")
  {
    match sort
    case Some(s) => if s == "EVENT_DATE" then ByEventDate else if s == "VIEWS" then ByViewsDescending else Unsorted
    case None => Unsorted
  }

  /** The key each ordering compares, ascending. Views are negated so that
      larger counts come first. */
  function SortKey(d: EventShortDto, o: SortOrder): int {
    match o
    case ByEventDate => d.event.eventDate
    case ByViewsDescending => -d.views.GetOr(0)
    case Unsorted => 0
  }

  predicate SortedBy(s: seq<EventShortDto>, o: SortOrder) {
    forall i, j :: 0 <= i < j < |s| ==> SortKey(s[i], o) <= SortKey(s[j], o)
  }

  /** The first `n` elements are in order. */
  predicate SortedPrefix(a: array<EventShortDto>, n: int, o: SortOrder)
    reads a
    requires 0 <= n <= a.Length
  {
    forall p, q :: 0 <= p < q < n ==> SortKey(a[p], o) <= SortKey(a[q], o)
  }

  /** Two neighbours trade places; nothing else moves. */
  method SwapDown(a: array<EventShortDto>, j: int)
    requires 0 < j < a.Length
    modifies a
    ensures a[j - 1] == old(a[j]) && a[j] == old(a[j - 1])
    ensures forall k :: 0 <= k < a.Length && k != j - 1 && k != j ==> a[k] == old(a[k])
    ensures multiset(a[..]) == multiset(old(a[..]))
  {
    a[j - 1], a[j] := a[j], a[j - 1];
  }

  /** One step of insertion sort: `a[i]` moves down into the sorted prefix. */
  method InsertDown(a: array<EventShortDto>, i: int, o: SortOrder)
    requires 0 < i < a.Length && SortedPrefix(a, i, o)
    modifies a
    ensures SortedPrefix(a, i + 1, o)
    ensures multiset(a[..]) == multiset(old(a[..]))
  {
    var j := i;
    while j > 0 && SortKey(a[j - 1], o) > SortKey(a[j], o)
      invariant 0 <= j <= i
      invariant forall p, q :: 0 <= p < q <= i && q != j ==> SortKey(a[p], o) <= SortKey(a[q], o)
      invariant 0 < j < i ==> SortKey(a[j - 1], o) <= SortKey(a[j + 1], o)
      invariant multiset(a[..]) == multiset(old(a[..]))
    {
      SwapDown(a, j);
      j := j - 1;
    }
  }

  /** `mutableEvents.sort(...)`: insertion sort in place on the list. */
  method SortInPlace(a: array<EventShortDto>, o: SortOrder)
    modifies a
    ensures SortedBy(a[..], o)
    ensures multiset(a[..]) == multiset(old(a[..]))
  {
    if a.Length == 0 {
      return;
    }
    var i := 1;
    while i < a.Length
      invariant 1 <= i <= a.Length
      invariant SortedPrefix(a, i, o)
      invariant multiset(a[..]) == multiset(old(a[..]))
    {
      InsertDown(a, i, o);
      i := i + 1;
    }
  }

  /** `findEvents(EventPublicParam)`: pages with `from < size` (anything else
      is an empty answer before any check), then refuses a date range whose
      start is after its end, projects the events and sorts them if asked. */
  method FindEventsPublic(matching: seq<Event>, from: nat, size: nat,
                          rangeStart: Option<int>, rangeEnd: Option<int>, sort: Option<string>,
                          requests: seq<Request>, now: int,
                          collector: (int, int, seq<string>, bool) -> seq<ViewStats>,
                          users: int -> Option<UserShort>) returns (r: Result<seq<EventShortDto>>)
    ensures size > 0 && from >= size ==> r == Success([])
    ensures (size == 0 || from < size) && rangeStart.Some? && rangeEnd.Some? && rangeStart.value > rangeEnd.value ==>
      r == Failure(IllegalArgument)
    ensures (size == 0 || from < size) && !(rangeStart.Some? && rangeEnd.Some? && rangeStart.value > rangeEnd.value) ==>
      var dtos := ShortDtos(Paged(matching, from, size), requests, EventsView(Paged(matching, from, size), now, collector), users);
      && (dtos.Failure? ==> r == dtos)
      && (dtos.Success? ==> r.Success? && multiset(r.value) == multiset(dtos.value)
                            && SortedBy(r.value, SortOrderOf(sort)))
      && (dtos.Success? && SortOrderOf(sort) == Unsorted ==> r == dtos)
  {
    if size > 0 && from >= size {
      return Success([]);
    }
    var events := Paged(matching, from, size);
    if rangeStart.Some? && rangeEnd.Some? && rangeStart.value > rangeEnd.value {
      return Failure(IllegalArgument);
    }
    var views := GetEventsView(events, now, collector);
    var dtos := ShortDtos(events, requests, views, users);
    if dtos.Failure? {
      return dtos;
    }
    var a := new EventShortDto[|dtos.value|](i requires 0 <= i < |dtos.value| => dtos.value[i]);
    assert a[..] == dtos.value;
    var order := SortOrderOf(sort);
    if order != Unsorted {
      SortInPlace(a, order);
    }
    r := Success(a[..]);
  }

  /** The views of a fetch that may have failed: `catch` leaves the map empty. */
  function ViewsOrEmpty(fetched: Result<map<int, int>>): map<int, int> {
    match fetched
    case Success(views) => views
    case Failure(_) => map[]
  }

  /** A listing the owner sees: the counter of confirmed requests is left
      null; views come from a map that may be empty because fetching them
      failed, in which case every event shows 0, and otherwise an event
      the map does not know shows null. */
  function OwnShortView(e: Event, user: UserShort, views: map<int, int>): EventShortDto {
    EventShortDto(e, user, None, if views == map[] then Some(0) else if e.id in views then Some(views[e.id]) else None)
  }

  /** The loop of `getEventsForUser`: each projection gets its views. */
  method SetOwnViews(page: seq<Event>, userMap: map<int, UserShort>, views: map<int, int>)
    returns (dtos: seq<EventShortDto>)
    requires forall i :: 0 <= i < |page| ==> page[i].initiatorId in userMap
    ensures |dtos| == |page|
    ensures forall j :: 0 <= j < |page| ==> dtos[j] == OwnShortView(page[j], userMap[page[j].initiatorId], views)
  {
    dtos := [];
    var i := 0;
    while i < |page|
      invariant 0 <= i <= |page| && |dtos| == i
      invariant forall j :: 0 <= j < i ==> dtos[j] == OwnShortView(page[j], userMap[page[j].initiatorId], views)
    {
      var d := EventShortDto(page[i], userMap[page[i].initiatorId], None, None);
      if views != map[] {
        d := d.(views := if d.event.id in views then Some(views[d.event.id]) else None);
      } else {
        d := d.(views := Some(0));
      }
      dtos := dtos + [d];
      i := i + 1;
    }
  }

  /** `getEventsForUser(userId, from, to)`: the initiator's events in storage
      order, paged by `to` (0 skips `from`, `from < to` reads page
      `from / to`, anything else is empty), with views if they can be
      fetched and NotFound if an initiator cannot. */
  method GetEventsForUser(events: seq<Event>, userId: int, from: nat, to: nat, now: int,
                          collector: (int, int, seq<string>, bool) -> seq<ViewStats>,
                          users: int -> Option<UserShort>) returns (r: Result<seq<EventShortDto>>)
    ensures var page := Paged(Filter(events, (e: Event) => e.initiatorId == userId), from, to);
      && (page == [] ==> r == Success([]))
      && (page != [] && users(userId).None? ==>
            r.Failure? && r.error.NotFound? && forall id :: id in r.error.ids <==> id == userId)
      && (users(userId).Some? ==> r.Success?)
      && (r.Success? ==> |r.value| == |page| && forall i :: 0 <= i < |page| ==>
            && r.value[i].event == page[i] && r.value[i].event.initiatorId == userId
            && r.value[i].initiator == users(userId).value
            && r.value[i].confirmedRequests.None?
            && r.value[i].views == OwnShortView(page[i], r.value[i].initiator,
                                                ViewsOrEmpty(EventsView(page, now, collector))).views)
  {
    var own := Filter(events, (e: Event) => e.initiatorId == userId);
    var page := Paged(own, from, to);
    if page == [] {
      return Success([]);
    }
    var fetched := GetEventsView(page, now, collector);
    var views := ViewsOrEmpty(fetched);
    forall j | 0 <= j < |page| ensures page[j].initiatorId == userId {
      assert page[j] in own;
    }
    var userMap := UserMap(page, users);
    if userMap.Failure? {
      assert InitiatorIds(page)[0] == userId;
      return Failure(userMap.error);
    }
    var dtos := SetOwnViews(page, userMap.value, views);
    r := Success(dtos);
  }
}
