/** The event lifecycle of the event service: creation, the owner's and the
    administrator's updates with their state transitions and date margins,
    and the answers they return. The user directory is another service,
    passed in as a lookup; categories are the ids the category table
    holds. */
module EventService {
  import opened Common
  import opened Table
  import opened EventModel
  import opened RequestRepository
  import opened StatClient
  import opened EventProjection

  /** `dateValidation(date, hours)`: the date must be strictly after
      `now + hours` hours minus five seconds of slack. */
  function DateValidation(date: int, now: int, hours: nat): (o: Outcome)
    ensures o.Pass? <==> date > now + 3600 * hours - 5
    ensures o.Fail? ==> o.error == DateError
  {
    if date <= now + 3600 * hours - 5 then Fail(DateError) else Pass
  }

  /** A publication must happen no later than one hour and five seconds
      before the event starts. */
  predicate PublishDeadlinePassed(e: Event, now: int) {
    now > e.eventDate - 3600 - 5
  }

  /** The state change of an administrator's update, applied to the merged
      event. A missing action keeps the event; PUBLISH is refused after the
      deadline (DateError) and from any state but PENDING (Conflict) and
      stamps `publishedOn`; REJECT is refused on a published event. */
  function AdminTransition(e: Event, action: Option<AdminAction>, now: int): (r: Result<Event>)
    ensures action.None? ==> r == Success(e)
    ensures action == Some(PUBLISH_EVENT) ==>
      && (PublishDeadlinePassed(e, now) ==> r == Failure(DateError))
      && (!PublishDeadlinePassed(e, now) && e.state != State.PENDING ==> r == Failure(Conflict))
      && (!PublishDeadlinePassed(e, now) && e.state == State.PENDING ==>
            r == Success(e.(state := PUBLISHED, publishedOn := Some(now))))
    ensures action == Some(REJECT_EVENT) ==>
      && (e.state == PUBLISHED ==> r == Failure(Conflict))
      && (e.state != PUBLISHED ==> r == Success(e.(state := State.CANCELED)))
  {
    match action
    case None => Success(e)
    case Some(PUBLISH_EVENT) =>
      if PublishDeadlinePassed(e, now) then Failure(DateError)
      else if e.state != State.PENDING then Failure(Conflict)
      else Success(e.(state := PUBLISHED, publishedOn := Some(now)))
    case Some(REJECT_EVENT) =>
      if e.state == PUBLISHED then Failure(Conflict)
      else Success(e.(state := State.CANCELED))
  }

  /** The state change of an owner's update: SEND_TO_REVIEW makes the event
      PENDING, CANCEL_REVIEW makes it CANCELED, no action keeps the state. */
  function OwnerTransition(e: Event, action: Option<UserAction>): (r: Event)
    ensures r == e.(state := r.state)
    ensures action == Some(SEND_TO_REVIEW) ==> r.state == State.PENDING
    ensures action == Some(CANCEL_REVIEW) ==> r.state == State.CANCELED
    ensures action.None? ==> r == e
  {
    match action
    case Some(SEND_TO_REVIEW) => e.(state := State.PENDING)
    case Some(CANCEL_REVIEW) => e.(state := State.CANCELED)
    case None => e
  }

  /** Once published, an event stays published: the administrator cannot
      move it and the owner is refused before any transition. */
  lemma PublishedIsFinal(e: Event, action: Option<AdminAction>, now: int)
    requires e.state == PUBLISHED
    ensures AdminTransition(e, action, now).Success? ==> AdminTransition(e, action, now).value == e
  {
  }

  /** Both transitions keep `publishedOn` set exactly on published events. */
  lemma AdminTransitionKeepsStamp(e: Event, action: Option<AdminAction>, now: int)
    requires PublicationStamped(e)
    ensures AdminTransition(e, action, now).Success? ==> PublicationStamped(AdminTransition(e, action, now).value)
  {
  }

  lemma OwnerTransitionKeepsStamp(e: Event, action: Option<UserAction>)
    requires PublicationStamped(e) && e.state != PUBLISHED
    ensures PublicationStamped(OwnerTransition(e, action))
    ensures OwnerTransition(e, action).publishedOn.None?
  {
  }

  /** An event half an hour away cannot be published. */
  lemma PublishTooCloseFails(e: Event, now: int)
    requires e.eventDate == now + 1800
    ensures AdminTransition(e, Some(PUBLISH_EVENT), now) == Failure(DateError)
  {
  }

  /** A pending event two hours away is published now. */
  lemma PublishInTimeSucceeds(e: Event, now: int)
    requires e.eventDate == now + 7200 && e.state == State.PENDING
    ensures AdminTransition(e, Some(PUBLISH_EVENT), now).Success?
    ensures AdminTransition(e, Some(PUBLISH_EVENT), now).value.state == PUBLISHED
    ensures AdminTransition(e, Some(PUBLISH_EVENT), now).value.publishedOn == Some(now)
  {
  }

  /** The five seconds of slack: publishing exactly 3605 seconds before the
      start is still allowed, one second later it is not. */
  lemma PublishDeadlineBoundary(e: Event, now: int)
    requires e.state == State.PENDING
    ensures e.eventDate - now == 3605 ==> AdminTransition(e, Some(PUBLISH_EVENT), now).Success?
    ensures e.eventDate - now == 3604 ==> AdminTransition(e, Some(PUBLISH_EVENT), now) == Failure(DateError)
  {
  }

  /** The category an update resolves: the event's own when the patch names
      none, otherwise the named one, which must exist. */
  function ResolveCategory(e: Event, p: EventPatch, categories: set<int>): (r: Result<int>)
    ensures p.category.None? ==> r == Success(e.category)
    ensures p.category.Some? && p.category.value in categories ==> r == Success(p.category.value)
    ensures p.category.Some? && p.category.value !in categories ==> r == Failure(NotFound([p.category.value]))
  {
    match p.category
    case None => Success(e.category)
    case Some(c) => if c in categories then Success(c) else Failure(NotFound([c]))
  }

  /** The event table: rows in storage order and the next generated id. */
  class EventStore {
    var events: seq<Event>
    var nextId: int

    ghost predicate Valid()
      reads this
    {
      && UniqueKeys(events, EventKey)
      && (forall i :: 0 <= i < |events| ==> events[i].id < nextId)
      && (forall i :: 0 <= i < |events| ==> PublicationStamped(events[i]))
    }

    constructor ()
      ensures Valid() && events == [] && nextId == 1
    {
      events := [];
      nextId := 1;
    }

    /** `save` of a new event: the table generates its id. */
    method Insert(e: Event) returns (saved: Event)
      requires Valid() && PublicationStamped(e)
      modifies this
      ensures Valid()
      ensures saved == e.(id := old(nextId))
      ensures events == old(events) + [saved] && nextId == old(nextId) + 1
    {
      saved := e.(id := nextId);
      events := events + [saved];
      nextId := nextId + 1;
    }

    /** `save` of a stored event: its row is overwritten. */
    method Update(e: Event)
      requires Valid() && HasKey(events, EventKey, e.id) && PublicationStamped(e)
      modifies this
      ensures Valid()
      ensures events == Replace(old(events), EventKey, e) && nextId == old(nextId)
    {
      events := Replace(events, EventKey, e);
    }

    /** `createEvent`: the two-hour margin is checked first, then the
        initiator (NotFound) and the category (NotFound); the event is stored
        PENDING, unpublished, created `now`, and answered with its full
        projection, which for an unpublished event shows no views. */
    method CreateEvent(n: NewEvent, userId: int, now: int, categories: set<int>,
                       users: int -> Option<UserShort>, requests: seq<Request>,
                       collector: (int, int, seq<string>, bool) -> seq<ViewStats>) returns (r: Result<EventFullDto>)
      requires Valid()
      modifies this
      ensures Valid()
      ensures DateValidation(n.eventDate, now, 2).Fail? ==> r == Failure(DateError)
      ensures DateValidation(n.eventDate, now, 2).Pass? && users(userId).None? ==> r == Failure(NotFound([userId]))
      ensures DateValidation(n.eventDate, now, 2).Pass? && users(userId).Some? && n.category !in categories ==>
        r == Failure(NotFound([n.category]))
      ensures DateValidation(n.eventDate, now, 2).Pass? && users(userId).Some? && n.category in categories ==>
        var e := Event(old(nextId), n.title, n.annotation, n.description, n.category, now, n.eventDate,
                       userId, n.paid, n.participantLimit, None, n.requestModeration, State.PENDING);
        && r == FullDtoOf(e, requests, EventsView([e], now, collector), users)
        && r.Success? && r.value.event == e && r.value.initiator == users(userId).value
        && r.value.views == 0
        && r.value.confirmedRequests == CountByEventIdAndStatus(requests, e.id, CONFIRMED)
             + (if FoldsRejected(e) then CountByEventIdAndStatus(requests, e.id, REJECTED) else 0)
      ensures r.Success? ==> events == old(events) + [r.value.event] && nextId == old(nextId) + 1
      ensures r.Failure? ==> events == old(events) && nextId == old(nextId)
    {
      var check := DateValidation(n.eventDate, now, 2);
      if check.Fail? {
        return Failure(check.error);
      }
      if users(userId).None? {
        return Failure(NotFound([userId]));
      }
      if n.category !in categories {
        return Failure(NotFound([n.category]));
      }
      var e := Event(0, n.title, n.annotation, n.description, n.category, now, n.eventDate,
                     userId, n.paid, n.participantLimit, None, n.requestModeration, State.PENDING);
      var saved := Insert(e);
      var dtos := MapToFullDto([saved], requests, now, collector, users);
      UnpublishedHaveNoViews([saved], requests, now, collector, users);
      FullDtoCounters([saved], requests, EventsView([saved], now, collector), users, 0);
      r := Success(dtos.value[0]);
    }

    /** The administrator's `updateEvent`, one transaction: the event
        (NotFound) and a named category (NotFound) are resolved, the patch is
        merged, the action's transition applies, and the saved event is
        answered with its initiator (NotFound rolls the write back) and no
        counters. */
    method UpdateEventByAdmin(eventId: int, p: EventPatch, action: Option<AdminAction>, now: int,
                              categories: set<int>, users: int -> Option<UserShort>)
      returns (r: Result<UncountedFullDto>)
      requires Valid()
      modifies this
      ensures Valid() && nextId == old(nextId)
      ensures !HasKey(old(events), EventKey, eventId) ==> r == Failure(NotFound([eventId]))
      ensures HasKey(old(events), EventKey, eventId) ==>
        var e := FindById(old(events), EventKey, eventId).value;
        match ResolveCategory(e, p, categories)
        case Failure(err) => r == Failure(err)
        case Success(c) =>
          var t := AdminTransition(MergePatch(e, p, c), action, now);
          && (t.Failure? ==> r == Failure(t.error))
          && (t.Success? && users(e.initiatorId).None? ==> r == Failure(NotFound([e.initiatorId])))
          && (t.Success? && users(e.initiatorId).Some? ==>
                r == Success(UncountedFullDto(t.value, users(e.initiatorId).value)))
      ensures r.Success? ==> events == Replace(old(events), EventKey, r.value.event)
      ensures r.Failure? ==> events == old(events)
    {
      var found := FindById(events, EventKey, eventId);
      if found.None? {
        return Failure(NotFound([eventId]));
      }
      var e := found.value;
      var category := ResolveCategory(e, p, categories);
      if category.Failure? {
        return Failure(category.error);
      }
      var merged := MergePatch(e, p, category.value);
      var t := AdminTransition(merged, action, now);
      if t.Failure? {
        return Failure(t.error);
      }
      if users(e.initiatorId).None? {
        return Failure(NotFound([e.initiatorId]));
      }
      assert PublicationStamped(e) by {
        var i :| 0 <= i < |events| && events[i] == e;
      }
      AdminTransitionKeepsStamp(merged, action, now);
      Update(t.value);
      r := Success(UncountedFullDto(t.value, users(e.initiatorId).value));
    }

    /** The owner's `updateEvent`, checks in order: NotFound, Forbidden for
        anyone but the initiator, Conflict on a published event, DateError
        for a new date inside the two-hour margin, NotFound for an unknown
        category or initiator; then the patch is merged, the owner's
        transition applies, the event is saved and answered with its full
        projection, which shows no views since the event is not published. */
    method UpdateEventByUser(eventId: int, userId: int, p: EventPatch, action: Option<UserAction>, now: int,
                             categories: set<int>, users: int -> Option<UserShort>, requests: seq<Request>,
                             collector: (int, int, seq<string>, bool) -> seq<ViewStats>)
      returns (r: Result<EventFullDto>)
      requires Valid()
      modifies this
      ensures Valid() && nextId == old(nextId)
      ensures !HasKey(old(events), EventKey, eventId) ==> r == Failure(NotFound([eventId]))
      ensures HasKey(old(events), EventKey, eventId) ==>
        var e := FindById(old(events), EventKey, eventId).value;
        if e.initiatorId != userId then r == Failure(Forbidden)
        else if e.state == PUBLISHED then r == Failure(Conflict)
        else if p.eventDate.Some? && DateValidation(p.eventDate.value, now, 2).Fail? then r == Failure(DateError)
        else match ResolveCategory(e, p, categories)
          case Failure(err) => r == Failure(err)
          case Success(c) =>
            if users(userId).None? then r == Failure(NotFound([userId]))
            else
              var u := OwnerTransition(MergePatch(e, p, c), action);
              && r == FullDtoOf(u, requests, EventsView([u], now, collector), users)
              && r.Success? && r.value.event == u && r.value.initiator == users(userId).value
              && r.value.views == 0
      ensures r.Success? ==> events == Replace(old(events), EventKey, r.value.event) && r.value.event.state != PUBLISHED
      ensures r.Failure? ==> events == old(events)
    {
      var found := FindById(events, EventKey, eventId);
      if found.None? {
        return Failure(NotFound([eventId]));
      }
      var e := found.value;
      if e.initiatorId != userId {
        return Failure(Forbidden);
      }
      if e.state == PUBLISHED {
        return Failure(Conflict);
      }
      if p.eventDate.Some? {
        var check := DateValidation(p.eventDate.value, now, 2);
        if check.Fail? {
          return Failure(check.error);
        }
      }
      var category := ResolveCategory(e, p, categories);
      if category.Failure? {
        return Failure(category.error);
      }
      if users(userId).None? {
        return Failure(NotFound([userId]));
      }
      var merged := MergePatch(e, p, category.value);
      var updated := OwnerTransition(merged, action);
      assert PublicationStamped(e) by {
        var i :| 0 <= i < |events| && events[i] == e;
      }
      OwnerTransitionKeepsStamp(merged, action);
      Update(updated);
      var dtos := MapToFullDto([updated], requests, now, collector, users);
      UnpublishedHaveNoViews([updated], requests, now, collector, users);
      r := Success(dtos.value[0]);
    }
  }
}
