# Event platform core, modelled in Dafny

This project models the business core of an event-sharing platform built as
cooperating services. Users publish events. Other users send participation
requests, which the organiser confirms or rejects within a participant limit.
Readers comment on published events, and an administrator moderates events
and comments. An analytics collector counts views per event page.

The model covers six parts of the core.

- The **request table** (`RequestRepository`) and the **request service**
  (`RequestService`). They cover creation with its four ordered eligibility
  checks and the auto-confirm policy, self-cancellation, and the
  all-or-nothing `getByIds`.
- The **event service**.
  - `EventService` holds the lifecycle: creation, the owner's and the
    administrator's updates with their state transitions, and the one-hour
    and two-hour date margins with five seconds of slack.
  - `EventProjection` holds the read side: the full and short projections
    with their request counters and views, the lookups, and the listings
    with their paging and their in-place sort.
  - `Admission` holds batch admission (`switchRequestsStatus`). It is the
    capacity-bounded split of a list of requests into a confirmed prefix and
    a rejected remainder, with atomic failure on conflicting prior statuses.
- **View aggregation** (`StatClient`). The earliest publication time and the
  `/events/<id>` paths are sent to the collector, and the collector's rows
  are parsed back into a map from event id to hits. The path's build and
  parse make a verified round trip.
- The **comment service** (`CommentService`). It is a second PENDING /
  PUBLISHED / CANCELED state machine:
  - the author may edit or delete;
  - the administrator may approve or reject, and may delete;
  - a first approval stamps `publishedOn` and a later one `modifiedOn`;
  - the listings are by event, by author and by creation date.
- The **user directory** (`UserService`). It covers the duplicate-email
  guard, the all-or-nothing `getByIds` and the `from`/`size` paging rule.

Shared pieces:

- `Common` holds the error taxonomy: NotFound(ids), Forbidden, Conflict,
  DateError, IllegalArgument, Duplicate.
- `Table` holds the keyed tables in storage order. The JPA finders become
  filters over these rows, so results come back in storage order.
- `Paging` holds the paging rules.

Modelling conventions:

- Each stored table is a class. It holds its rows and the next generated id.
  Its methods `Insert`, `Update`, `DeleteById` and `SetStatusForAllByIdIn`
  say exactly what the new rows are. Its `Valid()` keeps ids unique, and
  keeps the publication stamps consistent where they exist.
- The service operations that write are methods over these tables.
- The operations that only read are functions.
- Calls to other services are parameters: the user directory and the event
  catalogue are lookups, and the analytics collector is a function of
  (start, end, uris, unique).
- Times are whole seconds, and the current time is the parameter `now`.

Two behaviours of the code a reader may not expect:

- A request is refused when the requester already has *any* request for the
  event, a CANCELED one included (RequestServiceImpl.java:143).
- The lists that batch admission answers follow the order in which the
  request table returns the rows. They do not follow the order of the listed
  ids. Only the split into confirmed and rejected follows the listed order
  (`Admission.ExampleAnswerInTableOrder`).

## Model

| member | source | states |
|---|---|---|
| Table.Filter | core/request-service/src/main/java/ru/practicum/request/repository/RequestRepository.java:30-36 | a derived finder keeps exactly the rows that satisfy its predicate, and never more rows than the table has |
| Table.FindById | core/request-service/src/main/java/ru/practicum/request/service/RequestServiceImpl.java:96-100 | `findById` finds a row exactly when one carries the key, and the row found is stored under that key |
| Table.FindByIdUnique | core/request-service/src/main/java/ru/practicum/request/service/RequestServiceImpl.java:96-100 | with unique ids, the row `findById` returns for a stored row's id is that row |
| Table.FindAllByIdIn | core/request-service/src/main/java/ru/practicum/request/repository/RequestRepository.java:36 | `findAllByIdIn` returns exactly the rows whose id is listed |
| Table.FilterIsSubsequence | core/request-service/src/main/java/ru/practicum/request/service/RequestServiceImpl.java:106-112 | a stream filter keeps its elements in their original order |
| Table.MissingIds | core/request-service/src/main/java/ru/practicum/request/service/RequestServiceImpl.java:106-112 | the missing ids are exactly the listed ids that no row carries, in the order they were listed |
| Table.GetByIds | core/request-service/src/main/java/ru/practicum/request/service/RequestServiceImpl.java:103-121 | all-or-nothing lookup: it fails with NotFound naming exactly the unknown ids, and otherwise it returns exactly the rows that were asked for |
| Table.GetByIdsOnePerId | core/request-service/src/main/java/ru/practicum/request/service/RequestServiceImpl.java:103-121 | a successful lookup returns one row per distinct requested id, with no id twice |
| Table.GetByIdsOfAllKeys | core/request-service/src/main/java/ru/practicum/request/service/RequestServiceImpl.java:103-121 | asking for the ids of every stored row returns the whole table in order |
| Table.FindAllByIdInOneKey | core/user-service/src/main/java/ru/practicum/user/service/UserServiceImpl.java:95 | asking for a single stored id returns exactly the one row under it |
| Table.RemoveById | core/user-service/src/main/java/ru/practicum/user/service/UserServiceImpl.java:82 | `deleteById` removes every row with that key and keeps all other rows |
| Table.RemoveByIdKeepsUniqueKeys | core/comment-service/src/main/java/ru/practicum/comment/service/CommentServiceImpl.java:76 | deleting keeps the primary key unique |
| Table.RemoveByIdRemovesOne | core/user-service/src/main/java/ru/practicum/user/service/UserServiceImpl.java:82 | deleting a stored id removes exactly one row |
| Table.Replace | core/request-service/src/main/java/ru/practicum/request/service/RequestServiceImpl.java:90 | `save` of a stored entity overwrites its row in place and leaves every other row, and every key, untouched |
| Table.ReplaceWithStoredRow | core/request-service/src/main/java/ru/practicum/request/service/RequestServiceImpl.java:90 | saving a row unchanged leaves the table as it was (the idempotence of repeated cancellation rests on it) |
| Paging.Skip | core/user-service/src/main/java/ru/practicum/user/service/UserServiceImpl.java:36-44 | `skip(from)` drops exactly the first `from` items and keeps the rest in order |
| Paging.PageOf | core/user-service/src/main/java/ru/practicum/user/service/UserServiceImpl.java:49-56 | page `p` of size `s` is the slice `[p*s, p*s+s)` of the query, clipped to its end |
| Paging.Paged | core/comment-service/src/main/java/ru/practicum/comment/service/CommentServiceImpl.java:211-217 | the shared rule: size 0 skips `from` items, `from >= size > 0` yields nothing, and a page never exceeds `size` or invents items |
| Paging.PagedIsPrefix | core/comment-service/src/main/java/ru/practicum/comment/service/CommentServiceImpl.java:213-214 | because `from < size`, the page requested is always page 0, the first `size` items |
| Paging.AdminPaged | core/event-service/src/main/java/ru/practicum/events/service/EventServiceImpl.java:104-115 | the admin search's rule: size 0 skips, and `from > size` yields nothing |
| Paging.AdminPagedAtSizeIsSecondPage | core/event-service/src/main/java/ru/practicum/events/service/EventServiceImpl.java:109 | with `from == size` the admin search returns the second page, where the other listings return nothing |
| Paging.AdminPagedAgreesBelowSize | core/event-service/src/main/java/ru/practicum/events/service/EventServiceImpl.java:109 | below `size` the admin rule and the shared rule agree |
| EventModel.MergePatch | core/event-service/src/main/java/ru/practicum/events/service/EventServiceImpl.java:64-65 | the merge of an update keeps the id, the initiator, the creation time, the state and the publication time; it takes the resolved category, and each patched field replaces the stored one only when it is given |
| RequestRepository.CountByEventIdAndStatus | core/request-service/src/main/java/ru/practicum/request/repository/RequestRepository.java:32 | the count is zero exactly when no row of the event has that status, and never exceeds the table's size |
| RequestRepository.CountAppend | core/request-service/src/main/java/ru/practicum/request/repository/RequestRepository.java:32 | one more row adds one to the count exactly when it matches |
| RequestRepository.CountAllByEventIdInAndStatus | core/request-service/src/main/java/ru/practicum/request/repository/RequestRepository.java:16-20 | the GROUP BY query has an entry exactly for each listed event with a matching row, and that entry is the event's count |
| RequestRepository.CountAllAgreesWithCount | core/event-service/src/main/java/ru/practicum/events/service/EventServiceImpl.java:400-410 | for a listed event, the grouped count defaulted to 0 equals the direct count |
| RequestRepository.ExistsByRequesterIdAndEventId | core/request-service/src/main/java/ru/practicum/request/repository/RequestRepository.java:28 | true exactly when some row has that requester and event, whatever its status |
| RequestRepository.FindByRequesterId | core/request-service/src/main/java/ru/practicum/request/repository/RequestRepository.java:30 | exactly the requester's rows |
| RequestRepository.FindAllByEventId | core/request-service/src/main/java/ru/practicum/request/repository/RequestRepository.java:34 | exactly the event's rows, whatever their status; the service's `getByEventId` (RequestServiceImpl.java:124-129) returns them unchanged |
| RequestRepository.SetStatusAll | core/request-service/src/main/java/ru/practicum/request/repository/RequestRepository.java:22-26 | the bulk UPDATE: every row whose id is listed gets the status, with no other field changed, and every other row stays as it was, in place |
| RequestRepository.RowsWithIdInBound | core/request-service/src/main/java/ru/practicum/request/repository/RequestRepository.java:22-26 | with unique ids, at most `|s|` rows carry an id of `s` |
| RequestRepository.ConfirmAddsAtMost | core/request-service/src/main/java/ru/practicum/request/repository/RequestRepository.java:22-26 | confirming the listed requests adds at most one confirmed row per listed id to any event's count |
| RequestRepository.OtherStatusAddsNone | core/request-service/src/main/java/ru/practicum/request/repository/RequestRepository.java:22-26 | setting any status but CONFIRMED never raises a confirmed count |
| RequestRepository.RequestTable.Insert | core/request-service/src/main/java/ru/practicum/request/service/RequestServiceImpl.java:69 | `save` of a new request appends it under the next generated id and keeps the table valid |
| RequestRepository.RequestTable.Update | core/request-service/src/main/java/ru/practicum/request/service/RequestServiceImpl.java:90 | `save` of a stored request overwrites its row |
| RequestRepository.RequestTable.SetStatusForAllByIdIn | core/request-service/src/main/java/ru/practicum/request/repository/RequestRepository.java:22-26 | the new rows are exactly the bulk update of the old ones, with ids kept unique; the service's `setStatusRequests` (RequestServiceImpl.java:133-135) delegates to it |
| RequestService.InitialStatus | core/request-service/src/main/java/ru/practicum/request/service/RequestServiceImpl.java:63-67 | a new request is CONFIRMED exactly when the event is unlimited or unmoderated, and PENDING otherwise |
| RequestService.ValidateRequestCreation | core/request-service/src/main/java/ru/practicum/request/service/RequestServiceImpl.java:142-166 | creation passes exactly when there is no prior request of any status for the pair, the requester is not the initiator, the event is PUBLISHED, and the event is unlimited or below its limit; any failure is Conflict |
| RequestService.CreationKeepsCapacity | core/request-service/src/main/java/ru/practicum/request/service/RequestServiceImpl.java:160-164 | a request that passes the checks keeps every limited event within its limit |
| RequestService.Create | core/request-service/src/main/java/ru/practicum/request/service/RequestServiceImpl.java:51-72 | NotFound for an unknown requester, then for an unknown event; then the guards' Conflict with nothing stored; otherwise exactly one request is stored with the next id, the event, the requester, the policy's status and `now` |
| RequestService.Cancel | core/request-service/src/main/java/ru/practicum/request/service/RequestServiceImpl.java:75-94 | NotFound for an unknown id, Conflict when the caller is not the requester; otherwise the request becomes CANCELED whatever its status, only its row changes, and cancelling twice changes nothing |
| RequestService.GetById | core/request-service/src/main/java/ru/practicum/request/service/RequestServiceImpl.java:96-100 | NotFound exactly for an unknown id, and otherwise the stored request with that id |
| RequestService.GetByIds | core/request-service/src/main/java/ru/practicum/request/service/RequestServiceImpl.java:103-121 | NotFound naming exactly the missing ids; otherwise exactly the requested rows, one per distinct id |
| RequestService.FindByUserId | core/request-service/src/main/java/ru/practicum/request/service/RequestServiceImpl.java:36-47 | NotFound exactly when the user is unknown; otherwise exactly the user's requests |
| StatClient.NatToString | core/main-service/src/main/java/ru/practicum/events/service/StatClientService.java:47 | a non-negative id prints as a non-empty string of decimal digits |
| StatClient.LongToString | core/main-service/src/main/java/ru/practicum/events/service/StatClientService.java:47 | a printed id is non-empty and holds no slash |
| StatClient.DigitsRoundTrip | core/main-service/src/main/java/ru/practicum/events/service/StatClientService.java:47 | the printed digits read back as the number |
| StatClient.ParseLong | core/main-service/src/main/java/ru/practicum/events/service/StatClientService.java:62 | `Long.parseLong` succeeds only with a value in the range of a long |
| StatClient.ParseLongRoundTrip | core/main-service/src/main/java/ru/practicum/events/service/StatClientService.java:47-62 | every long, printed and parsed back, is itself |
| StatClient.Fields | core/main-service/src/main/java/ru/practicum/events/service/StatClientService.java:60 | the pieces between slashes always include at least one piece |
| StatClient.DropTrailingEmpty | core/main-service/src/main/java/ru/practicum/events/service/StatClientService.java:60 | `split` drops only trailing empty pieces, so the result is a prefix whose last piece is non-empty |
| StatClient.FieldsWithoutSlash | core/main-service/src/main/java/ru/practicum/events/service/StatClientService.java:60 | a string without a slash is a single piece |
| StatClient.FieldsAtSlash | core/main-service/src/main/java/ru/practicum/events/service/StatClientService.java:60 | the first slash separates the first piece from the pieces of the rest |
| StatClient.SplitEventUri | core/main-service/src/main/java/ru/practicum/events/service/StatClientService.java:45-60 | splitting `"/events/" + id` gives `["", "events", id]` |
| StatClient.EventUriRoundTrip | core/main-service/src/main/java/ru/practicum/events/service/StatClientService.java:45-65 | the id read back from an event's path is the event's id, and such a path never aborts the parse |
| StatClient.ViewsOf | core/main-service/src/main/java/ru/practicum/events/service/StatClientService.java:59-65 | the fold can fail only with IllegalArgument (the NumberFormatException) |
| StatClient.ViewsOfFails | core/main-service/src/main/java/ru/practicum/events/service/StatClientService.java:59-65 | the fold fails exactly when some row's third piece is not a number |
| StatClient.ViewsOfStepKeys | core/main-service/src/main/java/ru/practicum/events/service/StatClientService.java:59-65 | one more row adds at most the id it names, and rows with fewer than three pieces add nothing |
| StatClient.ViewsOfKeys | core/main-service/src/main/java/ru/practicum/events/service/StatClientService.java:59-65 | the map's keys are exactly the ids the rows name |
| StatClient.ViewsOfFailureSticks | core/main-service/src/main/java/ru/practicum/events/service/StatClientService.java:59-65 | once a prefix of the rows has failed, the whole fold fails |
| StatClient.ViewsOfLastWins | core/main-service/src/main/java/ru/practicum/events/service/StatClientService.java:63 | each id maps to the hits of the last row that names it |
| StatClient.CollectViews | core/main-service/src/main/java/ru/practicum/events/service/StatClientService.java:59-66 | the `forEach` loop that puts each row into the map builds exactly the fold's map, or its failure |
| StatClient.MinPublishedOn | core/main-service/src/main/java/ru/practicum/events/service/StatClientService.java:33-42 | the start is present exactly when some event is published, is one of their publication times, and is no later than any of them |
| StatClient.PublishedEvents | core/main-service/src/main/java/ru/practicum/events/service/StatClientService.java:25-27 | exactly the events with a publication time |
| StatClient.EventUris | core/main-service/src/main/java/ru/practicum/events/service/StatClientService.java:45-48 | one path `"/events/" + id` per event, in order |
| StatClient.EventsViewWithoutPublished | core/main-service/src/main/java/ru/practicum/events/service/StatClientService.java:25-31 | with no published event the map is empty, whatever the collector would answer |
| StatClient.EventsViewQuery | core/main-service/src/main/java/ru/practicum/events/service/StatClientService.java:33-57 | with a published event, the collector is asked for unique hits from the earliest publication to `now`, for the published events' paths in order, and its rows are folded |
| StatClient.GetEventsView | core/main-service/src/main/java/ru/practicum/events/service/StatClientService.java:21-67 | the service method computes exactly the views the query and the fold describe |
| StatClient.QueriedRowParses | core/main-service/src/main/java/ru/practicum/events/service/StatClientService.java:45-65 | a row for a queried path parses, to the id of a published event |
| StatClient.ViewsOnlyForQueriedEvents | core/main-service/src/main/java/ru/practicum/events/service/StatClientService.java:59-65 | when the collector answers only for the queried paths, the fold succeeds and holds only ids of published events |
| EventService.DateValidation | core/event-service/src/main/java/ru/practicum/events/service/EventServiceImpl.java:381-385 | a date passes exactly when it is after `now` plus the margin in hours minus five seconds; otherwise DateError |
| EventService.AdminTransition | core/event-service/src/main/java/ru/practicum/events/service/EventServiceImpl.java:67-85 | no action keeps the event; PUBLISH gives DateError past the deadline, then Conflict unless PENDING, and otherwise PUBLISHED stamped `now`; REJECT gives Conflict on a published event and otherwise CANCELED |
| EventService.OwnerTransition | core/event-service/src/main/java/ru/practicum/events/service/EventServiceImpl.java:257-261 | only the state changes: SEND_TO_REVIEW sets PENDING, CANCEL_REVIEW sets CANCELED, and no action keeps the event |
| EventService.PublishedIsFinal | core/event-service/src/main/java/ru/practicum/events/service/EventServiceImpl.java:69-85 | a published event is never moved by the administrator |
| EventService.AdminTransitionKeepsStamp | core/event-service/src/main/java/ru/practicum/events/service/EventServiceImpl.java:77-78 | the administrator's transition keeps `publishedOn` set exactly on published events |
| EventService.OwnerTransitionKeepsStamp | core/event-service/src/main/java/ru/practicum/events/service/EventServiceImpl.java:257-261 | the owner's transition of an unpublished event keeps it unpublished and unstamped |
| EventService.PublishTooCloseFails | core/event-service/src/main/java/ru/practicum/events/service/EventServiceImpl.java:70-72 | an event half an hour away cannot be published |
| EventService.PublishInTimeSucceeds | core/event-service/src/main/java/ru/practicum/events/service/EventServiceImpl.java:69-78 | a pending event two hours away is published and stamped `now` |
| EventService.PublishDeadlineBoundary | core/event-service/src/main/java/ru/practicum/events/service/EventServiceImpl.java:70 | the five seconds of slack: 3605 seconds ahead may be published, 3604 may not |
| EventService.ResolveCategory | core/event-service/src/main/java/ru/practicum/events/service/EventServiceImpl.java:58-63 | no category in the patch keeps the event's; a named one must exist, or NotFound |
| EventProjection.GetPublishedEvent | core/event-service/src/main/java/ru/practicum/events/service/EventServiceImpl.java:91-98 | succeeds exactly for a stored PUBLISHED event; a missing and an unpublished event are both NotFound |
| EventProjection.GetOwnEvent | core/event-service/src/main/java/ru/practicum/events/service/EventServiceImpl.java:267-275 | NotFound for an unknown event; otherwise the event for its initiator and Forbidden for anyone else |
| EventProjection.GetEventRequests | core/event-service/src/main/java/ru/practicum/events/service/EventServiceImpl.java:223-231 | NotFound, then Forbidden for anyone but the initiator; otherwise exactly the event's requests, whatever their status |
| EventService.EventStore.Insert | core/event-service/src/main/java/ru/practicum/events/service/EventServiceImpl.java:291 | `save` of a new event appends it under the next generated id |
| EventService.EventStore.Update | core/event-service/src/main/java/ru/practicum/events/service/EventServiceImpl.java:262 | `save` of a stored event overwrites its row |
| EventService.EventStore.CreateEvent | core/event-service/src/main/java/ru/practicum/events/service/EventServiceImpl.java:279-293 | DateError inside the two-hour margin, then NotFound for the initiator, then for the category; otherwise exactly one PENDING, unpublished event created `now` is stored, and the answer is its full projection, which always succeeds: the initiator looked up, no views, and the confirmed counter of the request service's counts |
| EventService.EventStore.UpdateEventByAdmin | core/event-service/src/main/java/ru/practicum/events/service/EventServiceImpl.java:56-88 | NotFound for the event and then for a named category; then the merge and the transition's outcome; NotFound for the initiator rolls back; on success exactly the event's row is replaced by the result, which is answered with its initiator and no counters (`toEventFullDto` without the counting of `mapToFullDto`) |
| EventService.EventStore.UpdateEventByUser | core/event-service/src/main/java/ru/practicum/events/service/EventServiceImpl.java:234-264 | the checks in order: NotFound, Forbidden, Conflict on a published event, DateError inside two hours, NotFound for the category and for the initiator; on success the merged, transitioned event replaces its row and is never PUBLISHED, and the answer is its full projection, which then always succeeds, with the initiator and no views |
| EventProjection.UserMap | core/event-service/src/main/java/ru/practicum/events/service/EventServiceImpl.java:372-379 | the initiators are fetched at once: NotFound naming exactly the unknown initiators, or otherwise a map that holds each event's initiator |
| EventProjection.FullDtos | core/event-service/src/main/java/ru/practicum/events/service/EventServiceImpl.java:387-413 | fails with the views' error, then with the initiators' error, and only then; otherwise one projection per event, in order, with its own initiator |
| EventProjection.FullDtoCounters | core/event-service/src/main/java/ru/practicum/events/service/EventServiceImpl.java:400-410 | the confirmed counter is the CONFIRMED count, plus the REJECTED count when moderation is off or the limit is 0; views default to 0 |
| EventProjection.UnpublishedHaveNoViews | core/event-service/src/main/java/ru/practicum/events/service/EventServiceImpl.java:393-403 | events that were never published all show 0 views |
| EventProjection.SetFullCounters | core/event-service/src/main/java/ru/practicum/events/service/EventServiceImpl.java:400-410 | the loop sets the counters of each projection in turn |
| EventProjection.MapToFullDto | core/event-service/src/main/java/ru/practicum/events/service/EventServiceImpl.java:387-413 | the service method computes exactly the full projections |
| EventProjection.ProjectFull | core/event-service/src/main/java/ru/practicum/events/service/EventServiceImpl.java:395-412 | the steps after the collector has answered give exactly the full projections |
| EventProjection.ShortDtos | core/event-service/src/main/java/ru/practicum/events/service/EventServiceImpl.java:415-434 | the same failures as the full projection; otherwise one projection per event, with the CONFIRMED count alone and the views defaulting to 0 |
| EventProjection.FullDtoOf | core/event-service/src/main/java/ru/practicum/events/service/EventServiceImpl.java:99 | the full projection of one event succeeds exactly when the views can be read and its initiator is known |
| EventProjection.ShortDtoOf | core/event-service/src/main/java/ru/practicum/events/service/EventServiceImpl.java:348 | the short projection of one event has the same failures and its CONFIRMED count |
| EventProjection.FullAndShortAgree | core/event-service/src/main/java/ru/practicum/events/service/EventServiceImpl.java:387-434 | the two projections fail together with the same error and differ only in the confirmed counter, by the REJECTED count where it folds |
| EventProjection.GetEvent | core/event-service/src/main/java/ru/practicum/events/service/EventServiceImpl.java:91-100 | NotFound for a missing or unpublished event; a success shows a stored PUBLISHED event with that id |
| EventProjection.GetEventOfOwner | core/event-service/src/main/java/ru/practicum/events/service/EventServiceImpl.java:267-275 | NotFound, Forbidden for anyone but the initiator; a success shows the initiator's own event |
| EventProjection.GetEventFullDtoById | core/event-service/src/main/java/ru/practicum/events/service/EventServiceImpl.java:338-342 | NotFound for an unknown event; otherwise the stored event's projection, whatever its state |
| EventProjection.GetEventShortDtoById | core/event-service/src/main/java/ru/practicum/events/service/EventServiceImpl.java:345-349 | the same lookup with the short projection and its CONFIRMED count |
| EventProjection.ByIdAgreesWithPublic | core/event-service/src/main/java/ru/practicum/events/service/EventServiceImpl.java:338-342 | for a published event the lookup served to the other services equals the public `getEvent`; only the public one hides unpublished events |
| EventProjection.SingleShortDto | core/event-service/src/main/java/ru/practicum/events/service/EventServiceImpl.java:368 | one event's own short projection succeeds exactly when its views can be fetched and its initiator is known, and carries the event, its initiator and its CONFIRMED count |
| EventProjection.ShortDtosOneByOne | core/event-service/src/main/java/ru/practicum/events/service/EventServiceImpl.java:367-369 | projecting the found events one by one keeps their order, and each entry is that event's own projection |
| EventProjection.ShortDtosOneByOneSucceeds | core/event-service/src/main/java/ru/practicum/events/service/EventServiceImpl.java:367-369 | the one-by-one projection succeeds exactly when every event's views can be fetched and its initiator is known |
| EventProjection.ShortDtosOfFound | core/event-service/src/main/java/ru/practicum/events/service/EventServiceImpl.java:367-369 | on success every found event has its projection in the answer |
| EventProjection.GetEventsByIds | core/event-service/src/main/java/ru/practicum/events/service/EventServiceImpl.java:352-370 | NotFound naming exactly the missing ids; it succeeds exactly when every id is stored and every requested event can be projected; a success holds only requested events, each with its own projection, and every requested event appears |
| EventProjection.FindEventsAdmin | core/event-service/src/main/java/ru/practicum/events/service/EventServiceImpl.java:104-115 | the matching events, paged by the admin rule (`from > size` yields nothing), projected in full: it succeeds exactly when the views and the initiators can be fetched, and then has one projection per paged event, in order, with that event's initiator |
| EventProjection.SortOrderOf | core/event-service/src/main/java/ru/practicum/events/service/EventServiceImpl.java:138-149 | only the exact names EVENT_DATE and VIEWS sort |
| EventProjection.SwapDown | core/event-service/src/main/java/ru/practicum/events/service/EventServiceImpl.java:141-144 | two neighbours trade places and nothing else moves |
| EventProjection.InsertDown | core/event-service/src/main/java/ru/practicum/events/service/EventServiceImpl.java:141-144 | one insertion step grows the sorted prefix and permutes the list |
| EventProjection.SortInPlace | core/event-service/src/main/java/ru/practicum/events/service/EventServiceImpl.java:138-149 | the in-place sort leaves the list ordered by the chosen key and a permutation of what it was |
| EventProjection.FindEventsPublic | core/event-service/src/main/java/ru/practicum/events/service/EventServiceImpl.java:119-151 | empty when `from >= size > 0`; IllegalArgument for a range that starts after it ends; otherwise the projections' failure, or a sorted permutation of the paged projections, which keeps the query's order when the sort is neither EVENT_DATE nor VIEWS |
| EventProjection.SetOwnViews | core/event-service/src/main/java/ru/practicum/events/service/EventServiceImpl.java:327-333 | the loop gives each projection its views |
| EventProjection.GetEventsForUser | core/event-service/src/main/java/ru/practicum/events/service/EventServiceImpl.java:297-335 | the initiator's events paged by the shared rule: empty when the page is; NotFound naming the initiator when it is unknown; success whenever it is known, with one projection per event and that initiator on each, in order, without a confirmed counter, with views from the collector or 0 when fetching failed |
| Admission.PickMembers | core/event-service/src/main/java/ru/practicum/events/service/EventServiceImpl.java:183-184 | the filter keeps exactly the fetched requests whose id is in the part |
| Admission.Marked | core/event-service/src/main/java/ru/practicum/events/service/EventServiceImpl.java:190 | `peek(setStatus)` gives each request the status and changes nothing else |
| Admission.HasConflictMeans | core/event-service/src/main/java/ru/practicum/events/service/EventServiceImpl.java:185-189 | a conflict is a request of the part with the forbidden status |
| Admission.MarkPartMeaning | core/event-service/src/main/java/ru/practicum/events/service/EventServiceImpl.java:183-201 | a pipeline fails with Conflict exactly on a forbidden prior status, and otherwise yields exactly the part's requests with the new status |
| Admission.ConfirmSplit | core/event-service/src/main/java/ru/practicum/events/service/EventServiceImpl.java:171-174 | a `freeLimit` that is not positive is Conflict |
| Admission.Switch | core/event-service/src/main/java/ru/practicum/events/service/EventServiceImpl.java:155-160 | NotFound for an unknown event, Forbidden for anyone but its initiator |
| Admission.FreePlacesAreUnconfirmed | core/event-service/src/main/java/ru/practicum/events/service/EventServiceImpl.java:167-171 | for a moderated, limited event the free places are the limit minus the CONFIRMED requests, and the lookup fails exactly when the projection does |
| Admission.ShortCircuitWritesNothing | core/event-service/src/main/java/ru/practicum/events/service/EventServiceImpl.java:161-165 | an unlimited or unmoderated event writes nothing, answers exactly the listed requests unchanged as confirmed and none as rejected, and fails only on unknown ids |
| Admission.ModeratedUsesConfirmedCount | core/event-service/src/main/java/ru/practicum/events/service/EventServiceImpl.java:167-218 | the moderated path: a projection failure aborts; CONFIRMED takes the split and any other target the reject branch |
| Admission.SwitchModerated | core/event-service/src/main/java/ru/practicum/events/service/EventServiceImpl.java:155-167 | the organiser's moderated, limited event takes the moderated path |
| Admission.NoFreePlaceConflicts | core/event-service/src/main/java/ru/practicum/events/service/EventServiceImpl.java:171-174 | with no free place a confirmation is Conflict before any fetch or write |
| Admission.ConfirmUnknownIds | core/event-service/src/main/java/ru/practicum/events/service/EventServiceImpl.java:181 | an unknown listed id is NotFound naming exactly the unknown ids |
| Admission.ConfirmConflicts | core/event-service/src/main/java/ru/practicum/events/service/EventServiceImpl.java:183-201 | a confirmation fails, only with Conflict, exactly when the rejected remainder holds a CONFIRMED request or the confirmed prefix a REJECTED one |
| Admission.MarkFetched | core/event-service/src/main/java/ru/practicum/events/service/EventServiceImpl.java:181-201 | a pipeline over the fetched requests sees exactly the table's requests of the listed ids |
| Admission.ConfirmSplitParts | core/event-service/src/main/java/ru/practicum/events/service/EventServiceImpl.java:171-206 | a successful confirmation has a positive `freeLimit`, its two answer lists are the two pipelines, and its table is the two bulk updates |
| Admission.SplitIsPartition | core/event-service/src/main/java/ru/practicum/events/service/EventServiceImpl.java:176-179 | with distinct ids the prefix and the remainder partition the list |
| Admission.TwoUpdates | core/event-service/src/main/java/ru/practicum/events/service/EventServiceImpl.java:203-204 | two bulk updates over disjoint lists give each row the status of the list that names it |
| Admission.ConfirmWrites | core/event-service/src/main/java/ru/practicum/events/service/EventServiceImpl.java:176-204 | the first `freeLimit` listed ids are written CONFIRMED, the rest REJECTED, and every other row is untouched |
| Admission.ConfirmAnswer | core/event-service/src/main/java/ru/practicum/events/service/EventServiceImpl.java:183-206 | each answer entry is a fetched listed request with its new status, and every fetched listed request appears: the prefix's as CONFIRMED and the remainder's as REJECTED |
| Admission.UpdatesAddAtMost | core/event-service/src/main/java/ru/practicum/events/service/EventServiceImpl.java:203-204 | the two updates add at most `freeLimit` confirmed rows to any event |
| Admission.ConfirmKeepsCapacity | core/event-service/src/main/java/ru/practicum/events/service/EventServiceImpl.java:171-204 | a confirmation never takes the event above its limit |
| Admission.SetStatusAllKeepsKeys | core/request-service/src/main/java/ru/practicum/request/repository/RequestRepository.java:22-26 | status updates keep the ids unique |
| Admission.RejectBranch | core/event-service/src/main/java/ru/practicum/events/service/EventServiceImpl.java:207-218 | the reject branch fails, only with Conflict and writing nothing, exactly when a listed request is CONFIRMED; otherwise every listed request becomes REJECTED, nothing else changes and nobody is confirmed |
| Admission.RejectKeepsCapacity | core/event-service/src/main/java/ru/practicum/events/service/EventServiceImpl.java:207-218 | the reject branch never raises a confirmed count |
| Admission.SwitchKeepsCapacity | core/event-service/src/main/java/ru/practicum/events/service/EventServiceImpl.java:155-220 | whatever the branch, an event within its limit stays within it |
| Admission.StoredThree | core/request-service/src/main/java/ru/practicum/request/service/RequestServiceImpl.java:103-121 | three stored, all listed: the fetch returns the table |
| Admission.MarkThreePending | core/event-service/src/main/java/ru/practicum/events/service/EventServiceImpl.java:183-201 | a pipeline over three pending requests spelled out |
| Admission.ExampleTwoFreePlaces | core/event-service/src/main/java/ru/practicum/events/service/EventServiceImpl.java:171-206 | requests 5, 6 and 7 with two free places: 5 and 6 are confirmed and 7 rejected, in the answer and in the table |
| Admission.TwoFreePlacesPipelines | core/event-service/src/main/java/ru/practicum/events/service/EventServiceImpl.java:183-201 | the two pipelines of that example |
| Admission.TwoFreePlacesWrites | core/event-service/src/main/java/ru/practicum/events/service/EventServiceImpl.java:203-204 | the two bulk updates of that example |
| Admission.ExampleAnswerInTableOrder | core/event-service/src/main/java/ru/practicum/events/service/EventServiceImpl.java:176-206 | listed as 7, 6, 5 with two places: 7 and 6 are confirmed, but the answer lists them in table order, 6 before 7 |
| Admission.TableOrderPipelines | core/event-service/src/main/java/ru/practicum/events/service/EventServiceImpl.java:183-201 | the pipelines of that example |
| Admission.ExampleForeignRequestConfirmed | core/event-service/src/main/java/ru/practicum/events/service/EventServiceImpl.java:176-206 | a request of another event is confirmed, as the ids are never checked against the event |
| Admission.PeekAndMark | core/event-service/src/main/java/ru/practicum/events/service/EventServiceImpl.java:183-201 | the pipeline run one request at a time gives exactly the pipeline's result |
| Admission.SwitchRequestsStatus | core/event-service/src/main/java/ru/practicum/events/service/EventServiceImpl.java:155-220 | against the request table: on failure nothing is written and the error is the outcome's; on success the table becomes exactly the outcome's table and the answer is its answer |
| Admission.ModerateListed | core/event-service/src/main/java/ru/practicum/events/service/EventServiceImpl.java:167-218 | the moderated path against the table, atomic in the same way |
| Admission.FreePlacesOf | core/event-service/src/main/java/ru/practicum/events/service/EventServiceImpl.java:167-171 | the free places from the event's projection, or its failure |
| Admission.FreePlacesFromDtos | core/event-service/src/main/java/ru/practicum/events/service/EventServiceImpl.java:167-171 | the free places are the limit minus the projection's counter, and fail with its error |
| Admission.DecideListed | core/event-service/src/main/java/ru/practicum/events/service/EventServiceImpl.java:170-218 | the branch on the target, against the table, atomic |
| Admission.ConfirmListed | core/event-service/src/main/java/ru/practicum/events/service/EventServiceImpl.java:170-206 | the CONFIRMED branch against the table: nothing is written on failure, and on success exactly the two bulk updates |
| Admission.RejectListed | core/event-service/src/main/java/ru/practicum/events/service/EventServiceImpl.java:207-218 | the reject branch against the table, atomic |
| CommentService.ToState | core/comment-service/src/main/java/ru/practicum/comment/service/CommentServiceImpl.java:286-293 | each concrete filter names its state; ALL, and only ALL, is IllegalArgument |
| CommentService.ModerationTarget | core/comment-service/src/main/java/ru/practicum/comment/service/CommentServiceImpl.java:295-302 | "APPROVE" publishes, "REJECT" cancels, anything else is IllegalArgument; no action leads to PENDING |
| CommentService.DateValidation | core/comment-service/src/main/java/ru/practicum/comment/service/CommentServiceImpl.java:326-330 | IllegalArgument exactly when the range starts after it ends |
| CommentService.AuthorEdit | core/comment-service/src/main/java/ru/practicum/comment/service/CommentServiceImpl.java:85-96 | Conflict exactly on a CANCELED comment; otherwise only the text changes and the comment returns to PENDING |
| CommentService.Moderate | core/comment-service/src/main/java/ru/practicum/comment/service/CommentServiceImpl.java:109-121 | Conflict exactly unless PENDING; the state becomes the target; a first approval stamps `publishedOn`, a later one keeps it and stamps `modifiedOn`; a rejection stamps nothing; no other field changes |
| CommentService.TransitionsKeepStamped | core/comment-service/src/main/java/ru/practicum/comment/service/CommentServiceImpl.java:85-121 | neither transition breaks the stamping rule |
| CommentService.PublicationTimeIsKept | core/comment-service/src/main/java/ru/practicum/comment/service/CommentServiceImpl.java:113-121 | a published comment's publication time never moves |
| CommentService.CanceledIsFinal | core/comment-service/src/main/java/ru/practicum/comment/service/CommentServiceImpl.java:89-111 | a CANCELED comment can be neither edited nor moderated |
| CommentService.ApproveEditApprove | core/comment-service/src/main/java/ru/practicum/comment/service/CommentServiceImpl.java:85-121 | approve, edit, approve again: the first time is the publication time, the second the modification time, and the edited text is shown |
| CommentService.CommentStore.Insert | core/comment-service/src/main/java/ru/practicum/comment/service/CommentServiceImpl.java:56 | `save` of a new comment appends it under the next generated id |
| CommentService.CommentStore.Update | core/comment-service/src/main/java/ru/practicum/comment/service/CommentServiceImpl.java:98 | `save` of a stored comment overwrites its row |
| CommentService.CommentStore.DeleteById | core/comment-service/src/main/java/ru/practicum/comment/service/CommentServiceImpl.java:70 | `deleteById` keeps every other row, in order |
| CommentService.Resolve | core/comment-service/src/main/java/ru/practicum/comment/service/CommentServiceImpl.java:304-324 | the user, the event and the comment are resolved in that order, the first failure winning |
| CommentService.Create | core/comment-service/src/main/java/ru/practicum/comment/service/CommentServiceImpl.java:42-59 | NotFound for the author, the event lookups' failures, Conflict unless the event is PUBLISHED; otherwise exactly one PENDING, unstamped comment created `now` is stored |
| CommentService.AuthorDelete | core/comment-service/src/main/java/ru/practicum/comment/service/CommentServiceImpl.java:61-72 | passes exactly when the lookups succeed and the caller is the author; otherwise their error or Forbidden |
| CommentService.DeleteByAuthor | core/comment-service/src/main/java/ru/practicum/comment/service/CommentServiceImpl.java:61-72 | the author's delete removes exactly that one comment, and nothing on failure |
| CommentService.DeleteByAdmin | core/comment-service/src/main/java/ru/practicum/comment/service/CommentServiceImpl.java:74-78 | NotFound exactly for an unknown comment; otherwise exactly that comment is removed |
| CommentService.AuthorUpdate | core/comment-service/src/main/java/ru/practicum/comment/service/CommentServiceImpl.java:80-97 | the lookups, Forbidden for anyone but the author, Conflict on CANCELED; otherwise the comment with the new text, back in PENDING |
| CommentService.UpdateByAuthor | core/comment-service/src/main/java/ru/practicum/comment/service/CommentServiceImpl.java:80-102 | on success only the edited comment's row is replaced and the answer shows it with the caller and the event; nothing changes on failure |
| CommentService.AdminUpdate | core/comment-service/src/main/java/ru/practicum/comment/service/CommentServiceImpl.java:104-122 | a bad action is IllegalArgument before the lookup, then NotFound, then the moderation rule; a success is never PENDING |
| CommentService.UpdateByAdmin | core/comment-service/src/main/java/ru/practicum/comment/service/CommentServiceImpl.java:104-129 | the decision is saved before the author and event are fetched, so a later lookup failure is reported with the write kept |
| CommentService.GetComment | core/comment-service/src/main/java/ru/practicum/comment/service/CommentServiceImpl.java:131-149 | after the lookups, Forbidden for a non-author on an unpublished comment; a non-author sees no state or publication time, and the author sees both |
| CommentService.OthersSeeOnlyPublished | core/comment-service/src/main/java/ru/practicum/comment/service/CommentServiceImpl.java:136-144 | only the author ever sees a comment that is not PUBLISHED |
| CommentService.FindByEventIdAndAuthorIdAndState | core/comment-service/src/main/java/ru/practicum/comment/repository/CommentRepository.java:12 | exactly the comments with that event, author and state, bound in that order |
| CommentService.FindByEventIdAndState | core/comment-service/src/main/java/ru/practicum/comment/repository/CommentRepository.java:14-16 | exactly the event's comments in that state |
| CommentService.FindByAuthor | core/comment-service/src/main/java/ru/practicum/comment/repository/CommentRepository.java:20-26 | exactly the author's comments, in the state when one is given |
| CommentService.FindByCreatedOnBetween | core/comment-service/src/main/java/ru/practicum/comment/repository/CommentRepository.java:28-34 | exactly the comments created within the inclusive range, in the state when one is given |
| CommentService.NoMissingAuthor | core/comment-service/src/main/java/ru/practicum/comment/service/CommentServiceImpl.java:332-342 | no missing author id means every listed comment's author resolves |
| CommentService.NoMissingEvent | core/comment-service/src/main/java/ru/practicum/comment/service/CommentServiceImpl.java:344-354 | no missing event id means every listed comment's event resolves |
| CommentService.ListedDtos | core/comment-service/src/main/java/ru/practicum/comment/service/CommentServiceImpl.java:171-176 | NotFound exactly when some author or event is unknown, authors first; otherwise one answer per comment, in order |
| CommentService.ListedInState | core/comment-service/src/main/java/ru/practicum/comment/service/CommentServiceImpl.java:171-176 | answers keep their comments' state |
| CommentService.UserEventSelectionAsWritten | core/comment-service/src/main/java/ru/practicum/comment/service/CommentServiceImpl.java:161-170 | the selection as written yields only stored PUBLISHED comments and never more than a page |
| CommentService.UserEventSelection | core/comment-service/src/main/java/ru/practicum/comment/service/CommentServiceImpl.java:161-170 | the evidently intended selection: only the user's PUBLISHED comments on the event, skipped when unpaged |
| CommentService.UserEventSelectionIsConsistent | core/comment-service/src/main/java/ru/practicum/comment/service/CommentServiceImpl.java:161-170 | in the intended selection every page is a prefix of the unpaged list, which holds exactly the user's published comments on the event |
| CommentService.SwappedArgumentsMissComments | core/comment-service/src/main/java/ru/practicum/comment/service/CommentServiceImpl.java:162 | as written, the unpaged branch misses a comment that the paged branch and the intended selection both return |
| CommentService.CommentsOfUserOnEvent | core/comment-service/src/main/java/ru/practicum/comment/service/CommentServiceImpl.java:152-177 | NotFound for the reader, the event's failure; otherwise the answers of the selection as written, all PUBLISHED and at most a page |
| CommentService.CommentsOfEvent | core/comment-service/src/main/java/ru/practicum/comment/service/CommentServiceImpl.java:181-204 | the event's failure; otherwise its PUBLISHED comments under the paging rule |
| CommentService.AuthorQuery | core/comment-service/src/main/java/ru/practicum/comment/service/CommentServiceImpl.java:249-264 | always succeeds: ALL lists all of the author's comments, and any other filter those in its state |
| CommentService.CommentsOfUser | core/comment-service/src/main/java/ru/practicum/comment/service/CommentServiceImpl.java:207-225 | NotFound for an unknown user; only NotFound can fail, never IllegalArgument; otherwise the filtered comments under the paging rule |
| CommentService.RangeQuery | core/comment-service/src/main/java/ru/practicum/comment/service/CommentServiceImpl.java:266-284 | exactly the comments created in the range, filtered by state unless ALL |
| CommentService.CommentsInRange | core/comment-service/src/main/java/ru/practicum/comment/service/CommentServiceImpl.java:228-247 | IllegalArgument for a backwards range; otherwise the range query under the paging rule |
| UserService.ExistsByEmail | core/user-service/src/main/java/ru/practicum/user/service/UserServiceImpl.java:69 | true exactly when a stored user has that email |
| UserService.UserStore.Insert | core/user-service/src/main/java/ru/practicum/user/service/UserServiceImpl.java:72 | `save` of a user whose email is free appends it under the next id and keeps emails unique |
| UserService.UserStore.DeleteById | core/user-service/src/main/java/ru/practicum/user/service/UserServiceImpl.java:82 | `deleteById` keeps every other user, in order, with emails unique |
| UserService.FilterKeepsUniqueEmails | core/user-service/src/main/java/ru/practicum/user/service/UserServiceImpl.java:82 | removing users keeps emails unique |
| UserService.Add | core/user-service/src/main/java/ru/practicum/user/service/UserServiceImpl.java:68-75 | Duplicate exactly when the email is taken, with nothing stored; otherwise exactly one new user, under the next id |
| UserService.Delete | core/user-service/src/main/java/ru/practicum/user/service/UserServiceImpl.java:78-84 | NotFound exactly for an unknown id; otherwise exactly that user is removed |
| UserService.GetById | core/user-service/src/main/java/ru/practicum/user/service/UserServiceImpl.java:87-91 | NotFound exactly for an unknown id; otherwise that user |
| UserService.ShortAll | core/user-service/src/main/java/ru/practicum/user/service/UserServiceImpl.java:109-111 | one short form per user, in order |
| UserService.GetByIds | core/user-service/src/main/java/ru/practicum/user/service/UserServiceImpl.java:94-112 | NotFound naming the missing ids in the order asked; otherwise the found users, in storage order |
| UserService.GetByIdsOfOne | core/user-service/src/main/java/ru/practicum/user/service/UserServiceImpl.java:87-112 | asking for one id and for a list of one agree, in their failure and in their answer |
| UserService.UsersQuery | core/user-service/src/main/java/ru/practicum/user/service/UserServiceImpl.java:34-58 | the listed users, or the whole table when no ids are given |
| UserService.GetAll | core/user-service/src/main/java/ru/practicum/user/service/UserServiceImpl.java:33-64 | size 0 skips `from` users, `from < size` returns the first page, anything else nothing; only stored users, restricted to the ids when given |
| UserService.AddThenGet | core/user-service/src/main/java/ru/practicum/user/service/UserServiceImpl.java:68-91 | a stored user is then found by id, and a deleted one is not |

## Left out

- The HTTP controllers, the Feign clients and their fallback factories are
  not part of this model. Remote calls are function parameters: the user
  directory and the event catalogue are lookups and the collector is a
  function from a query to rows. Errors of the transport itself are not
  modelled.
- List lookups through another service (`getUserMap`, `getEventMap`) map any
  failure to NotFound naming the ids that failed.
- Concurrency, transactions and flush order are not modelled: every
  operation is atomic against a single table. The exceptions are where the
  code is not transactional. `CommentService.UpdateByAdmin` keeps its write
  when a later lookup fails, and that is modelled.
- `LocalDateTime` becomes whole seconds. Its formatting and the
  `yyyy-MM-dd HH:mm:ss` pattern are not modelled, and nor is the location
  (a pair of floats).
- The generated MapStruct mappers become field copies. The DTOs carry the
  domain record and the fields the code sets, not every field.
- `copyFields` is not part of this model. Its body comes from a shared
  library that is not among the modelled files, so `EventModel.MergePatch`
  copies the given fields of the patch onto the stored event. No property
  is claimed about the merged non-state fields beyond that.
- The search criteria of `findEventsByParam` (admin and public) are not
  modelled. The listings take the query's matching events as a parameter,
  and the overload that receives `from` alone (size 0) is taken to skip
  the first `from` of them.
- `EventProjection.SortInPlace`: `List.sort` is stable, so events with
  equal keys keep their order; the contract states order and permutation
  only, not stability.
- `EventProjection.SortInPlace`: sorting by views would throw on a null
  view count. In the model every projection has its views, defaulting to 0,
  so that failure is not modelled.
- StatClient.ParseLong accepts the ASCII digits `0`-`9` only. `Long.parseLong`
  also accepts the other Unicode decimal digits, so a collector row whose id
  is written with them records a view in the code and fails the fetch with
  IllegalArgument in the model. Rows for the queried paths are ASCII
  (`StatClient.QueriedRowParses`), so only a collector that answers with
  paths it was not asked about can tell the difference.
- Null inputs that throw a NullPointerException are not modelled. These
  include a null status, a null range bound passed to a comparison, and a
  null `from`/`size`. The latter two are non-negative, as the controllers'
  validation requires.
- Integer width is not modelled. Counters and ids are unbounded integers,
  so neither the `(int)` cast of `freeLimit` nor overflow is reproduced.
  The id that parses back from a collector path is bounded by the range of
  a long.
- The order of a JPA `findAll` or derived finder is taken to be storage
  order.
- `getComment` nulls fields of an entity that it never saves. This is
  modelled as a view over the stored comment.
- The StateFilter enumeration's own file is not part of this model. Its four
  values are taken from the switch at CommentServiceImpl.java:286-293.
- The comment operations never check that the named comment belongs to the
  named event. This is modelled as written (`CommentService.Resolve`).
- Logging is left out.
- `EventStore.Insert`/`Update`, `CommentStore.*`, `UserStore.*` and
  `RequestTable.*`: the record passed to `save` is stored whole; database
  defaults and constraints beyond the primary key and the unique email are
  not modelled.

## Findings

| source | as written | input that shows it | evidently intended | confidence | as-written member | corrected member |
|---|---|---|---|---|---|---|
| core/comment-service/src/main/java/ru/practicum/comment/service/CommentServiceImpl.java:162 | the unpaged branch (`size == 0`) calls `findByEventIdAndAuthorIdAndState(userId, eventId, PUBLISHED)`, with the user id as the event and the event id as the author; the paged branch at line 167 passes `(eventId, userId)` | one PUBLISHED comment by user 2 on event 1: `size = 0, from = 0` returns nothing, while `size = 1, from = 0` returns the comment | both branches select the user's PUBLISHED comments on the event, so the unpaged list holds every page | not executed | CommentService.SwappedArgumentsMissComments | CommentService.UserEventSelectionIsConsistent |

`CommentService.CommentsOfUserOnEvent` keeps the selection as written
(`CommentService.UserEventSelectionAsWritten`), so the listing modelled is
the one the code performs. The corrected selection is
`CommentService.UserEventSelection`, and its property is proved by
`CommentService.UserEventSelectionIsConsistent`.
