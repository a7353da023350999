/** The Event entity and the inputs that create and patch it. Times are
    whole seconds; the location (a pair of floats) is not modelled. */
module EventModel {
  import opened Common

  datatype Event = Event(
    id: int,
    title: string,
    annotation: string,
    description: string,
    category: int,
    createdOn: int,
    eventDate: int,
    initiatorId: int,
    paid: bool,
    participantLimit: nat,         // 0 means unlimited
    publishedOn: Option<int>,      // null until the event is published
    requestModeration: bool,
    state: State)

  function EventKey(e: Event): int { e.id }

  /** `NewEventDto`. */
  datatype NewEvent = NewEvent(
    title: string,
    annotation: string,
    description: string,
    category: int,
    eventDate: int,
    paid: bool,
    participantLimit: nat,
    requestModeration: bool)

  /** The fields of an update request; None is a field left null. */
  datatype EventPatch = EventPatch(
    title: Option<string>,
    annotation: Option<string>,
    description: Option<string>,
    category: Option<int>,
    eventDate: Option<int>,
    paid: Option<bool>,
    participantLimit: Option<nat>,
    requestModeration: Option<bool>)

  datatype AdminAction = PUBLISH_EVENT | REJECT_EVENT
  datatype UserAction = SEND_TO_REVIEW | CANCEL_REVIEW

  /** The mapper builds a fresh entity from the patch (with the resolved
      category and the initiator, and no id, state or timestamps) and
      `copyFields` copies its non-null fields onto the stored event. */
  function MergePatch(e: Event, p: EventPatch, category: int): (r: Event)
    ensures r.id == e.id && r.initiatorId == e.initiatorId && r.createdOn == e.createdOn
    ensures r.state == e.state && r.publishedOn == e.publishedOn
    ensures r.category == category
    ensures r.eventDate == p.eventDate.GetOr(e.eventDate)
    ensures r.participantLimit == p.participantLimit.GetOr(e.participantLimit)
    ensures r.requestModeration == p.requestModeration.GetOr(e.requestModeration)
  {
    e.(title := p.title.GetOr(e.title),
       annotation := p.annotation.GetOr(e.annotation),
       description := p.description.GetOr(e.description),
       category := category,
       eventDate := p.eventDate.GetOr(e.eventDate),
       paid := p.paid.GetOr(e.paid),
       participantLimit := p.participantLimit.GetOr(e.participantLimit),
       requestModeration := p.requestModeration.GetOr(e.requestModeration))
  }

  /** The lifecycle invariant: `publishedOn` is set exactly on published
      events. */
  predicate PublicationStamped(e: Event) {
    e.publishedOn.Some? <==> e.state == PUBLISHED
  }
}
