/** The comment service: authors write comments on published events, an
    administrator moderates them, and readers list them by event, by author
    or by creation date. A comment is PENDING until moderated; an approved
    comment is PUBLISHED (its first publication time is kept, a later
    approval stamps `modifiedOn`), a rejected one CANCELED. The user
    directory and the event catalogue are other services, passed in as
    lookups. */
module CommentService {
  import opened Common
  import opened Table
  import opened Paging
  import opened EventProjection

  /** The stored comment; null timestamps are None. */
  datatype Comment = Comment(id: int, text: string, eventId: int, authorId: int, createdOn: int,
                             publishedOn: Option<int>, modifiedOn: Option<int>, state: State)

  function CommentKey(c: Comment): int { c.id }

  /** `CommentFullDto`; a field left null is None. */
  datatype CommentFullDto = CommentFullDto(id: int, text: string, event: EventShortDto, author: UserShort,
                                           createdOn: int, publishedOn: Option<int>, modifiedOn: Option<int>,
                                           state: Option<State>)

  /** `CommentShortDto`. */
  datatype CommentShortDto = CommentShortDto(id: int, text: string, event: EventShortDto, author: UserShort,
                                             createdOn: int)

  /** `CommentParam`: who asks, about which event, for which comment. */
  datatype CommentParam = CommentParam(userId: int, eventId: int, commentId: int)

  /** The state filter of the listings; ALL means no filter. */
  datatype StateFilter = PENDING | PUBLISHED | CANCELED | ALL

  /** The publication stamps agree with the state: a published comment has
      been published at some time, and a modification time is only ever
      recorded after a first publication. */
  predicate Stamped(c: Comment) {
    && (c.state == State.PUBLISHED ==> c.publishedOn.Some?)
    && (c.modifiedOn.Some? ==> c.publishedOn.Some?)
  }

  /** The mapping `toCommentDto` performs. */
  function CommentView(c: Comment, author: UserShort, event: EventShortDto): CommentFullDto {
    CommentFullDto(c.id, c.text, event, author, c.createdOn, c.publishedOn, c.modifiedOn, Some(c.state))
  }

  // ---------------------------------------------------------------------
  // The two `toState` switches and `dateValidation`
  // ---------------------------------------------------------------------

  /** `toState(StateFilter)`: a concrete filter names its state; ALL is an
      IllegalArgument. */
  function ToState(filter: StateFilter): (r: Result<State>)
    ensures r.Failure? <==> filter == ALL
    ensures r.Failure? ==> r.error == IllegalArgument
    ensures filter == StateFilter.PENDING ==> r == Success(State.PENDING)
    ensures filter == StateFilter.PUBLISHED ==> r == Success(State.PUBLISHED)
    ensures filter == StateFilter.CANCELED ==> r == Success(State.CANCELED)
  {
    match filter
    case PENDING => Success(State.PENDING)
    case PUBLISHED => Success(State.PUBLISHED)
    case CANCELED => Success(State.CANCELED)
    case ALL => Failure(IllegalArgument)
  }

  /** `toState(String)`: the moderation action. "APPROVE" publishes,
      "REJECT" cancels, anything else is an IllegalArgument. No action
      leads back to PENDING. */
  function ModerationTarget(action: string): (r: Result<State>)
    ensures r.Success? <==> action == "APPROVE" || action == "REJECT"
    ensures r.Failure? ==> r.error == IllegalArgument
    ensures r.Success? ==> r.value != State.PENDING
    ensures r.Success? ==> (r.value == State.PUBLISHED <==> action == "APPROVE")
  {
    if action == "APPROVE" then Success(State.PUBLISHED)
    else if action == "REJECT" then Success(State.CANCELED)
    else Failure(IllegalArgument)
  }

  /** `dateValidation`: a range that starts after it ends is an
      IllegalArgument; an empty range (start == end) is allowed. */
  function DateValidation(start: int, end: int): (o: Outcome)
    ensures o.Fail? <==> end < start
    ensures o.Fail? ==> o.error == IllegalArgument
  {
    if start > end then Fail(IllegalArgument) else Pass
  }

  // ---------------------------------------------------------------------
  // The two state transitions
  // ---------------------------------------------------------------------

  /** The author's edit: a CANCELED comment cannot be edited (Conflict);
      otherwise the text is replaced and the comment goes (back) to
      moderation, whether it was PENDING or PUBLISHED. Only the text and
      the state change. */
  function AuthorEdit(c: Comment, text: string): (r: Result<Comment>)
    ensures r.Failure? <==> c.state == State.CANCELED
    ensures r.Failure? ==> r.error == Conflict
    ensures r.Success? ==> r.value == c.(text := text, state := State.PENDING)
  {
    match c.state
    case PUBLISHED => Success(c.(state := State.PENDING, text := text))
    case CANCELED => Failure(Conflict)
    case PENDING => Success(c.(text := text))
  }

  /** The administrator's decision: only a PENDING comment can be moderated
      (Conflict otherwise). A first approval stamps `publishedOn`; a later
      approval keeps the first publication time and stamps `modifiedOn`; a
      rejection stamps nothing. Text, author, event and creation time never
      change. */
  function Moderate(c: Comment, target: State, now: int): (r: Result<Comment>)
    ensures r.Failure? <==> c.state != State.PENDING
    ensures r.Failure? ==> r.error == Conflict
    ensures r.Success? ==> r.value.state == target
    ensures r.Success? ==> r.value.(publishedOn := c.publishedOn, modifiedOn := c.modifiedOn) == c.(state := target)
    ensures r.Success? && target == State.PUBLISHED && c.publishedOn.None? ==>
      r.value.publishedOn == Some(now) && r.value.modifiedOn == c.modifiedOn
    ensures r.Success? && target == State.PUBLISHED && c.publishedOn.Some? ==>
      r.value.publishedOn == c.publishedOn && r.value.modifiedOn == Some(now)
    ensures r.Success? && target != State.PUBLISHED ==>
      r.value.publishedOn == c.publishedOn && r.value.modifiedOn == c.modifiedOn
  {
    if c.state != State.PENDING then Failure(Conflict)
    else
      var decided := c.(state := target);
      if target != State.PUBLISHED then Success(decided)
      else if c.publishedOn.Some? then Success(decided.(modifiedOn := Some(now)))
      else Success(decided.(publishedOn := Some(now)))
  }

  /** Neither transition breaks the stamping rule. */
  lemma TransitionsKeepStamped(c: Comment, text: string, target: State, now: int)
    requires Stamped(c)
    ensures AuthorEdit(c, text).Success? ==> Stamped(AuthorEdit(c, text).value)
    ensures Moderate(c, target, now).Success? ==> Stamped(Moderate(c, target, now).value)
  {
  }

  /** Once a comment has been published, its publication time never moves:
      neither an edit nor a later moderation changes it. */
  lemma PublicationTimeIsKept(c: Comment, text: string, target: State, now: int)
    requires c.publishedOn.Some?
    ensures AuthorEdit(c, text).Success? ==> AuthorEdit(c, text).value.publishedOn == c.publishedOn
    ensures Moderate(c, target, now).Success? ==> Moderate(c, target, now).value.publishedOn == c.publishedOn
  {
  }

  /** A CANCELED comment is final: the author cannot edit it and the
      administrator cannot moderate it again. */
  lemma CanceledIsFinal(c: Comment, text: string, target: State, now: int)
    requires c.state == State.CANCELED
    ensures AuthorEdit(c, text).Failure? && Moderate(c, target, now).Failure?
  {
  }

  /** The life of a comment that is approved, edited and approved again:
      the first approval time stays its publication time, the second is its
      modification time, and it shows the edited text. */
  lemma ApproveEditApprove(c: Comment, text: string, t1: int, t2: int)
    requires c.state == State.PENDING && c.publishedOn.None? && c.modifiedOn.None?
    ensures
      var first := Moderate(c, State.PUBLISHED, t1);
      && first.Success?
      && AuthorEdit(first.value, text).Success?
      && var again := Moderate(AuthorEdit(first.value, text).value, State.PUBLISHED, t2);
      && again.Success?
      && again.value == c.(text := text, state := State.PUBLISHED, publishedOn := Some(t1), modifiedOn := Some(t2))
  {
  }

  // ---------------------------------------------------------------------
  // The comment table
  // ---------------------------------------------------------------------

  /** The comment table: rows in storage order and the next generated id. */
  class CommentStore {
    var rows: seq<Comment>
    var nextId: int

    ghost predicate Valid()
      reads this
    {
      && UniqueKeys(rows, CommentKey)
      && (forall i :: 0 <= i < |rows| ==> rows[i].id < nextId)
      && (forall i :: 0 <= i < |rows| ==> Stamped(rows[i]))
    }

    constructor ()
      ensures Valid() && rows == [] && nextId == 1
    {
      rows := [];
      nextId := 1;
    }

    /** `save` of a new comment: the table generates its id. */
    method Insert(c: Comment) returns (saved: Comment)
      requires Valid() && Stamped(c)
      modifies this
      ensures Valid()
      ensures saved == c.(id := old(nextId))
      ensures rows == old(rows) + [saved] && nextId == old(nextId) + 1
    {
      saved := c.(id := nextId);
      rows := rows + [saved];
      nextId := nextId + 1;
    }

    /** `save` of a stored comment: its row is overwritten. */
    method Update(c: Comment)
      requires Valid() && Stamped(c)
      modifies this
      ensures Valid()
      ensures rows == Replace(old(rows), CommentKey, c) && nextId == old(nextId)
    {
      ReplaceKeepsUniqueKeys(rows, CommentKey, c);
      rows := Replace(rows, CommentKey, c);
    }

    /** `deleteById`: every other row stays, in order. */
    method DeleteById(id: int)
      requires Valid()
      modifies this
      ensures Valid()
      ensures rows == RemoveById(old(rows), CommentKey, id) && nextId == old(nextId)
    {
      var kept := RemoveById(rows, CommentKey, id);
      RemoveByIdKeepsUniqueKeys(rows, CommentKey, id);
      KeptRowsStayValid(rows, kept, nextId);
      rows := kept;
    }
  }

  /** Rows kept from a valid table keep their ids and stamps. */
  lemma KeptRowsStayValid(rows: seq<Comment>, kept: seq<Comment>, nextId: int)
    requires forall x :: x in kept ==> x in rows
    requires forall i :: 0 <= i < |rows| ==> rows[i].id < nextId && Stamped(rows[i])
    ensures forall i :: 0 <= i < |kept| ==> kept[i].id < nextId && Stamped(kept[i])
  {
    forall i | 0 <= i < |kept| ensures kept[i].id < nextId && Stamped(kept[i]) {
      assert kept[i] in rows;
    }
  }

  // ---------------------------------------------------------------------
  // The lookups shared by the author's operations
  // ---------------------------------------------------------------------

  /** What the author's operations have resolved once their three lookups
      succeed. */
  datatype Resolved = Resolved(user: UserShort, event: EventShortDto, comment: Comment)

  /** `checkUserIfExists`, `getEventShortDto` and `checkCommentIfExists`,
      in that order, the first failure winning. The comment is not checked
      to belong to the named event. */
  function Resolve(rows: seq<Comment>, p: CommentParam, users: int -> Option<UserShort>,
                   events: int -> Result<EventShortDto>): (r: Result<Resolved>)
    ensures r.Failure? <==> users(p.userId).None? || events(p.eventId).Failure? || !HasKey(rows, CommentKey, p.commentId)
    ensures users(p.userId).None? ==> r.Failure? && r.error == NotFound([p.userId])
    ensures users(p.userId).Some? && events(p.eventId).Failure? ==> r.Failure? && r.error == events(p.eventId).error
    ensures users(p.userId).Some? && events(p.eventId).Success? && !HasKey(rows, CommentKey, p.commentId) ==>
      r.Failure? && r.error == NotFound([p.commentId])
    ensures r.Success? ==>
      && Some(r.value.user) == users(p.userId)
      && Success(r.value.event) == events(p.eventId)
      && r.value.comment in rows && r.value.comment.id == p.commentId
  {
    match users(p.userId)
    case None => Failure(NotFound([p.userId]))
    case Some(user) =>
      match events(p.eventId)
      case Failure(err) => Failure(err)
      case Success(event) =>
        match FindById(rows, CommentKey, p.commentId)
        case None => Failure(NotFound([p.commentId]))
        case Some(c) => Success(Resolved(user, event, c))
  }

  // ---------------------------------------------------------------------
  // create
  // ---------------------------------------------------------------------

  /** `create`: the author must exist, the event is fetched in its full and
      its short form (either failure propagates), and only a PUBLISHED event
      takes comments (Conflict). The comment is stored PENDING, without
      stamps, created at `now`, with the id the table generates. */
  method Create(store: CommentStore, text: string, userId: int, eventId: int, now: int,
                users: int -> Option<UserShort>, fullEvents: int -> Result<EventFullDto>,
                events: int -> Result<EventShortDto>)
    returns (r: Result<CommentShortDto>)
    requires store.Valid()
    modifies store
    ensures store.Valid()
    ensures users(userId).None? ==> r == Failure(NotFound([userId]))
    ensures users(userId).Some? && fullEvents(eventId).Failure? ==> r == Failure(fullEvents(eventId).error)
    ensures users(userId).Some? && fullEvents(eventId).Success? && events(eventId).Failure? ==>
      r == Failure(events(eventId).error)
    ensures users(userId).Some? && fullEvents(eventId).Success? && events(eventId).Success? ==>
      (r == Failure(Conflict) <==> fullEvents(eventId).value.event.state != State.PUBLISHED)
    ensures r.Success? ==>
      && users(userId).Some? && fullEvents(eventId).Success? && events(eventId).Success?
      && fullEvents(eventId).value.event.state == State.PUBLISHED
      && r.value == CommentShortDto(old(store.nextId), text, events(eventId).value, users(userId).value, now)
      && store.rows == old(store.rows) + [Comment(old(store.nextId), text, events(eventId).value.event.id, userId, now,
                                                  None, None, State.PENDING)]
      && store.nextId == old(store.nextId) + 1
    ensures r.Failure? ==> store.rows == old(store.rows) && store.nextId == old(store.nextId)
  {
    var user := users(userId);
    if user.None? {
      return Failure(NotFound([userId]));
    }
    var full := fullEvents(eventId);
    if full.Failure? {
      return Failure(full.error);
    }
    var short := events(eventId);
    if short.Failure? {
      return Failure(short.error);
    }
    if full.value.event.state != State.PUBLISHED {
      return Failure(Conflict);
    }
    var c := Comment(0, text, short.value.event.id, userId, now, None, None, State.PENDING);
    var saved := store.Insert(c);
    r := Success(CommentShortDto(saved.id, saved.text, short.value, user.value, saved.createdOn));
  }

  // ---------------------------------------------------------------------
  // The two deletes
  // ---------------------------------------------------------------------

  /** The author's delete as a decision on the table: the lookups, then
      Forbidden for anyone but the author. */
  function AuthorDelete(rows: seq<Comment>, p: CommentParam, users: int -> Option<UserShort>,
                        events: int -> Result<EventShortDto>): (o: Outcome)
    ensures Resolve(rows, p, users, events).Failure? ==> o == Fail(Resolve(rows, p, users, events).error)
    ensures o.Pass? <==> Resolve(rows, p, users, events).Success? && Resolve(rows, p, users, events).value.comment.authorId == p.userId
    ensures Resolve(rows, p, users, events).Success? && o.Fail? ==> o.error == Forbidden
  {
    match Resolve(rows, p, users, events)
    case Failure(err) => Fail(err)
    case Success(found) => if found.comment.authorId != p.userId then Fail(Forbidden) else Pass
  }

  /** `delete(CommentParam)`: when the author asks, exactly that comment is
      removed; otherwise nothing changes. */
  method DeleteByAuthor(store: CommentStore, p: CommentParam, users: int -> Option<UserShort>,
                        events: int -> Result<EventShortDto>)
    returns (o: Outcome)
    requires store.Valid()
    modifies store
    ensures store.Valid() && store.nextId == old(store.nextId)
    ensures o == AuthorDelete(old(store.rows), p, users, events)
    ensures o.Pass? ==> store.rows == RemoveById(old(store.rows), CommentKey, p.commentId)
                        && |store.rows| == |old(store.rows)| - 1
    ensures o.Fail? ==> store.rows == old(store.rows)
  {
    var found := Resolve(store.rows, p, users, events);
    if found.Failure? {
      return Fail(found.error);
    }
    if found.value.comment.authorId != p.userId {
      return Fail(Forbidden);
    }
    RemoveByIdRemovesOne(store.rows, CommentKey, p.commentId);
    store.DeleteById(p.commentId);
    o := Pass;
  }

  /** `delete(commentId)` by the administrator: NotFound for an unknown
      comment, otherwise exactly that comment is removed. */
  method DeleteByAdmin(store: CommentStore, commentId: int) returns (o: Outcome)
    requires store.Valid()
    modifies store
    ensures store.Valid() && store.nextId == old(store.nextId)
    ensures o.Fail? <==> !HasKey(old(store.rows), CommentKey, commentId)
    ensures o.Fail? ==> o.error == NotFound([commentId]) && store.rows == old(store.rows)
    ensures o.Pass? ==> store.rows == RemoveById(old(store.rows), CommentKey, commentId)
                        && |store.rows| == |old(store.rows)| - 1
  {
    var found := FindById(store.rows, CommentKey, commentId);
    if found.None? {
      return Fail(NotFound([commentId]));
    }
    RemoveByIdRemovesOne(store.rows, CommentKey, commentId);
    store.DeleteById(commentId);
    o := Pass;
  }

  // ---------------------------------------------------------------------
  // The two updates
  // ---------------------------------------------------------------------

  /** The author's update as a decision on the table: the lookups,
      Forbidden for anyone but the author, then the edit. A successful
      update is the stored comment with the new text, back in PENDING. */
  function AuthorUpdate(rows: seq<Comment>, text: string, p: CommentParam, users: int -> Option<UserShort>,
                        events: int -> Result<EventShortDto>): (r: Result<Comment>)
    ensures Resolve(rows, p, users, events).Failure? ==> r.Failure? && r.error == Resolve(rows, p, users, events).error
    ensures Resolve(rows, p, users, events).Success? ==>
      var c := Resolve(rows, p, users, events).value.comment;
      && (c.authorId != p.userId ==> r.Failure? && r.error == Forbidden)
      && (c.authorId == p.userId && c.state == State.CANCELED ==> r.Failure? && r.error == Conflict)
      && (c.authorId == p.userId && c.state != State.CANCELED ==>
            r.Success? && r.value == c.(text := text, state := State.PENDING))
    ensures r.Success? ==> HasKey(rows, CommentKey, r.value.id) && r.value.id == p.commentId
  {
    match Resolve(rows, p, users, events)
    case Failure(err) => Failure(err)
    case Success(found) =>
      if found.comment.authorId != p.userId then Failure(Forbidden)
      else AuthorEdit(found.comment, text)
  }

  /** `update(NewCommentDto, CommentParam)`: the edited comment is saved and
      returned with the caller and the named event. */
  method UpdateByAuthor(store: CommentStore, text: string, p: CommentParam, users: int -> Option<UserShort>,
                        events: int -> Result<EventShortDto>)
    returns (r: Result<CommentFullDto>)
    requires store.Valid()
    modifies store
    ensures store.Valid() && store.nextId == old(store.nextId)
    ensures
      var u := AuthorUpdate(old(store.rows), text, p, users, events);
      && (u.Failure? ==> r == Failure(u.error) && store.rows == old(store.rows))
      && (u.Success? ==> store.rows == Replace(old(store.rows), CommentKey, u.value)
                         && users(p.userId).Some? && events(p.eventId).Success?
                         && r == Success(CommentView(u.value, users(p.userId).value, events(p.eventId).value)))
  {
    var found := Resolve(store.rows, p, users, events);
    if found.Failure? {
      return Failure(found.error);
    }
    if found.value.comment.authorId != p.userId {
      return Failure(Forbidden);
    }
    var edited := AuthorEdit(found.value.comment, text);
    if edited.Failure? {
      return Failure(edited.error);
    }
    TransitionsKeepStamped(found.value.comment, text, State.PENDING, 0);
    store.Update(edited.value);
    r := Success(CommentView(edited.value, found.value.user, found.value.event));
  }

  /** The administrator's update as a decision on the table: the action is
      parsed before the comment is looked up, so a bad action is an
      IllegalArgument even for an unknown comment; then NotFound, then the
      moderation rule. */
  function AdminUpdate(rows: seq<Comment>, commentId: int, action: string, now: int): (r: Result<Comment>)
    ensures ModerationTarget(action).Failure? ==> r.Failure? && r.error == IllegalArgument
    ensures ModerationTarget(action).Success? && !HasKey(rows, CommentKey, commentId) ==>
      r.Failure? && r.error == NotFound([commentId])
    ensures ModerationTarget(action).Success? && HasKey(rows, CommentKey, commentId) ==>
      var c := FindById(rows, CommentKey, commentId).value;
      && (r.Failure? <==> c.state != State.PENDING)
      && (r.Failure? ==> r.error == Conflict)
      && (r.Success? ==> r.value == Moderate(c, ModerationTarget(action).value, now).value)
    ensures r.Success? ==> r.value.id == commentId && r.value.state != State.PENDING
  {
    match ModerationTarget(action)
    case Failure(err) => Failure(err)
    case Success(target) =>
      match FindById(rows, CommentKey, commentId)
      case None => Failure(NotFound([commentId]))
      case Some(c) => Moderate(c, target, now)
  }

  /** `update(commentId, action)`: the moderated comment is saved first;
      only then are its author and its event fetched for the answer, so a
      failing lookup reports an error although the decision is stored. */
  method UpdateByAdmin(store: CommentStore, commentId: int, action: string, now: int,
                       users: int -> Option<UserShort>, events: int -> Result<EventShortDto>)
    returns (r: Result<CommentFullDto>)
    requires store.Valid()
    modifies store
    ensures store.Valid() && store.nextId == old(store.nextId)
    ensures
      var u := AdminUpdate(old(store.rows), commentId, action, now);
      && (u.Failure? ==> r == Failure(u.error) && store.rows == old(store.rows))
      && (u.Success? ==> store.rows == Replace(old(store.rows), CommentKey, u.value))
      && (u.Success? && users(u.value.authorId).None? ==> r == Failure(NotFound([u.value.authorId])))
      && (u.Success? && users(u.value.authorId).Some? && events(u.value.eventId).Failure? ==>
            r == Failure(events(u.value.eventId).error))
      && (u.Success? && users(u.value.authorId).Some? && events(u.value.eventId).Success? ==>
            r == Success(CommentView(u.value, users(u.value.authorId).value, events(u.value.eventId).value)))
  {
    var target := ModerationTarget(action);
    if target.Failure? {
      return Failure(target.error);
    }
    var found := FindById(store.rows, CommentKey, commentId);
    if found.None? {
      return Failure(NotFound([commentId]));
    }
    var moderated := Moderate(found.value, target.value, now);
    if moderated.Failure? {
      return Failure(moderated.error);
    }
    assert Stamped(found.value);
    TransitionsKeepStamped(found.value, "", target.value, now);
    store.Update(moderated.value);
    var saved := moderated.value;
    var author := users(saved.authorId);
    if author.None? {
      return Failure(NotFound([saved.authorId]));
    }
    var event := events(saved.eventId);
    if event.Failure? {
      return Failure(event.error);
    }
    r := Success(CommentView(saved, author.value, event.value));
  }

  // ---------------------------------------------------------------------
  // getComment
  // ---------------------------------------------------------------------

  /** `getComment`: after the lookups, a comment that is not PUBLISHED is
      shown to its author only (Forbidden for others); anyone else sees it
      without its state and publication time. The answer carries the
      comment's own author and event, fetched again. */
  function GetComment(rows: seq<Comment>, p: CommentParam, users: int -> Option<UserShort>,
                      events: int -> Result<EventShortDto>): (r: Result<CommentFullDto>)
    ensures Resolve(rows, p, users, events).Failure? ==> r.Failure? && r.error == Resolve(rows, p, users, events).error
    ensures Resolve(rows, p, users, events).Success? ==>
      var c := Resolve(rows, p, users, events).value.comment;
      && (c.authorId != p.userId && c.state != State.PUBLISHED ==> r.Failure? && r.error == Forbidden)
      && (r.Success? ==>
            && r.value.id == c.id && r.value.text == c.text && r.value.createdOn == c.createdOn
            && r.value.modifiedOn == c.modifiedOn
            && Some(r.value.author) == users(c.authorId) && Success(r.value.event) == events(c.eventId)
            && (c.authorId == p.userId ==> r.value.state == Some(c.state) && r.value.publishedOn == c.publishedOn)
            && (c.authorId != p.userId ==> r.value.state.None? && r.value.publishedOn.None?))
    ensures r.Success? ==> r.value.id == p.commentId
  {
    match Resolve(rows, p, users, events)
    case Failure(err) => Failure(err)
    case Success(found) =>
      var c := found.comment;
      var isAuthor := c.authorId == p.userId;
      if !isAuthor && c.state != State.PUBLISHED then Failure(Forbidden)
      else
        match users(c.authorId)
        case None => Failure(NotFound([c.authorId]))
        case Some(author) =>
          match events(c.eventId)
          case Failure(err) => Failure(err)
          case Success(event) =>
            var shown := CommentView(c, author, event);
            if isAuthor then Success(shown) else Success(shown.(publishedOn := None, state := None))
  }

  /** Only the author ever sees a comment that is not PUBLISHED. */
  lemma OthersSeeOnlyPublished(rows: seq<Comment>, p: CommentParam, users: int -> Option<UserShort>,
                               events: int -> Result<EventShortDto>)
    requires UniqueKeys(rows, CommentKey)
    requires GetComment(rows, p, users, events).Success?
    ensures
      var c := FindById(rows, CommentKey, p.commentId).value;
      c.authorId == p.userId || c.state == State.PUBLISHED
  {
    var c := Resolve(rows, p, users, events).value.comment;
    FindByIdUnique(rows, CommentKey, IndexOf(rows, c));
  }

  /** The position of a stored comment. */
  function IndexOf(rows: seq<Comment>, c: Comment): (i: int)
    requires c in rows
    ensures 0 <= i < |rows| && rows[i] == c
  {
    if rows[0] == c then 0 else 1 + IndexOf(rows[1..], c)
  }

  // ---------------------------------------------------------------------
  // The repository finders the listings use
  // ---------------------------------------------------------------------

  /** `findByEventIdAndAuthorIdAndState(eventId, authorId, state)`: the
      derived query binds its arguments in this order. */
  function FindByEventIdAndAuthorIdAndState(rows: seq<Comment>, eventId: int, authorId: int, state: State): (r: seq<Comment>)
    ensures forall x :: x in r <==> x in rows && x.eventId == eventId && x.authorId == authorId && x.state == state
  {
    Filter(rows, (x: Comment) => x.eventId == eventId && x.authorId == authorId && x.state == state)
  }

  /** `findByEventIdAndState`. */
  function FindByEventIdAndState(rows: seq<Comment>, eventId: int, state: State): (r: seq<Comment>)
    ensures forall x :: x in r <==> x in rows && x.eventId == eventId && x.state == state
  {
    Filter(rows, (x: Comment) => x.eventId == eventId && x.state == state)
  }

  /** `findByAuthorIdAndState`, or `findByAuthorId` when `state` is None. */
  function FindByAuthor(rows: seq<Comment>, authorId: int, state: Option<State>): (r: seq<Comment>)
    ensures forall x :: x in r <==> x in rows && x.authorId == authorId && (state.Some? ==> x.state == state.value)
  {
    Filter(rows, (x: Comment) => x.authorId == authorId && (state.Some? ==> x.state == state.value))
  }

  /** `findByStateAndCreatedOnBetween`, or `findByCreatedOnBetween` when
      `state` is None; both bounds are inclusive. */
  function FindByCreatedOnBetween(rows: seq<Comment>, state: Option<State>, start: int, end: int): (r: seq<Comment>)
    ensures forall x :: x in r <==> x in rows && start <= x.createdOn <= end && (state.Some? ==> x.state == state.value)
  {
    Filter(rows, (x: Comment) => start <= x.createdOn <= end && (state.Some? ==> x.state == state.value))
  }

  // ---------------------------------------------------------------------
  // Listings
  // ---------------------------------------------------------------------

  function AuthorIds(comments: seq<Comment>): (r: seq<int>)
    ensures |r| == |comments| && forall i :: 0 <= i < |comments| ==> r[i] == comments[i].authorId
  {
    seq(|comments|, i requires 0 <= i < |comments| => comments[i].authorId)
  }

  function CommentEventIds(comments: seq<Comment>): (r: seq<int>)
    ensures |r| == |comments| && forall i :: 0 <= i < |comments| ==> r[i] == comments[i].eventId
  {
    seq(|comments|, i requires 0 <= i < |comments| => comments[i].eventId)
  }

  /** No author id is missing: every listed comment's author resolves. */
  lemma NoMissingAuthor(comments: seq<Comment>, users: int -> Option<UserShort>)
    requires Filter(AuthorIds(comments), id => users(id).None?) == []
    ensures forall i :: 0 <= i < |comments| ==> users(comments[i].authorId).Some?
  {
    var ids := AuthorIds(comments);
    forall i | 0 <= i < |comments| ensures users(comments[i].authorId).Some? {
      assert ids[i] in ids;
    }
  }

  /** No event id is missing: every listed comment's event resolves. */
  lemma NoMissingEvent(comments: seq<Comment>, events: int -> Result<EventShortDto>)
    requires Filter(CommentEventIds(comments), id => events(id).Failure?) == []
    ensures forall i :: 0 <= i < |comments| ==> events(comments[i].eventId).Success?
  {
    var ids := CommentEventIds(comments);
    forall i | 0 <= i < |comments| ensures events(comments[i].eventId).Success? {
      assert ids[i] in ids;
    }
  }

  /** `getUserMap` and `getEventMap` followed by `toCommentDto` on every
      listed comment: NotFound when an author (checked first) or an event
      cannot be resolved, otherwise one answer per comment, in order. */
  function ListedDtos(comments: seq<Comment>, users: int -> Option<UserShort>,
                      events: int -> Result<EventShortDto>): (r: Result<seq<CommentFullDto>>)
    ensures r.Failure? <==> exists i :: 0 <= i < |comments| &&
                                        (users(comments[i].authorId).None? || events(comments[i].eventId).Failure?)
    ensures r.Failure? ==> r.error.NotFound? && r.error.ids != []
    ensures (exists i :: 0 <= i < |comments| && users(comments[i].authorId).None?) ==>
      r.Failure? && forall id :: id in r.error.ids ==> users(id).None?
    ensures r.Success? ==> |r.value| == |comments| && forall i :: 0 <= i < |comments| ==>
      && users(comments[i].authorId).Some? && events(comments[i].eventId).Success?
      && r.value[i] == CommentView(comments[i], users(comments[i].authorId).value, events(comments[i].eventId).value)
  {
    var noAuthor := Filter(AuthorIds(comments), id => users(id).None?);
    var noEvent := Filter(CommentEventIds(comments), id => events(id).Failure?);
    if noAuthor != [] then
      assert noAuthor[0] in noAuthor;
      Failure(NotFound(noAuthor))
    else
      NoMissingAuthor(comments, users);
      if noEvent != [] then
        assert noEvent[0] in noEvent;
        Failure(NotFound(noEvent))
      else
        NoMissingEvent(comments, events);
        Success(seq(|comments|, i requires 0 <= i < |comments| =>
          CommentView(comments[i], users(comments[i].authorId).value, events(comments[i].eventId).value)))
  }

  /** When every listed comment is in `state`, so is every answer. */
  lemma ListedInState(comments: seq<Comment>, users: int -> Option<UserShort>,
                      events: int -> Result<EventShortDto>, state: State)
    requires forall x :: x in comments ==> x.state == state
    ensures ListedDtos(comments, users, events).Success? ==>
      forall d :: d in ListedDtos(comments, users, events).value ==> d.state == Some(state)
  {
    var r := ListedDtos(comments, users, events);
    if r.Success? {
      forall d | d in r.value ensures d.state == Some(state) {
        var i :| 0 <= i < |r.value| && r.value[i] == d;
        assert comments[i] in comments;
      }
    }
  }

  /** The comments `getCommentsByEventId(eventId, GetCommentParam)` selects
      AS WRITTEN: the unpaged branch passes the user id where the query
      expects the event id and the event id where it expects the author. */
  function UserEventSelectionAsWritten(rows: seq<Comment>, eventId: int, userId: int, from: nat, size: nat): (r: seq<Comment>)
    ensures forall x :: x in r ==> x in rows && x.state == State.PUBLISHED
    ensures size > 0 ==> |r| <= size
  {
    if size == 0 then Skip(FindByEventIdAndAuthorIdAndState(rows, userId, eventId, State.PUBLISHED), from)
    else if from < size then PageOf(FindByEventIdAndAuthorIdAndState(rows, eventId, userId, State.PUBLISHED), from / size, size)
    else []
  }

  /** The selection the listing evidently intends: the user's PUBLISHED
      comments on the event, under the paging rule. */
  function UserEventSelection(rows: seq<Comment>, eventId: int, userId: int, from: nat, size: nat): (r: seq<Comment>)
    ensures forall x :: x in r ==> x in rows && x.eventId == eventId && x.authorId == userId && x.state == State.PUBLISHED
    ensures size == 0 ==> r == Skip(FindByEventIdAndAuthorIdAndState(rows, eventId, userId, State.PUBLISHED), from)
    ensures size > 0 ==> |r| <= size
  {
    Paged(FindByEventIdAndAuthorIdAndState(rows, eventId, userId, State.PUBLISHED), from, size)
  }

  /** With both branches binding the query the same way, the unpaged list
      from 0 holds every comment of the user on the event, and any page of
      it is its prefix. */
  lemma UserEventSelectionIsConsistent(rows: seq<Comment>, eventId: int, userId: int, from: nat, size: nat)
    requires 0 < size && from < size
    ensures
      var all := UserEventSelection(rows, eventId, userId, 0, 0);
      && (forall x :: x in all <==> x in rows && x.eventId == eventId && x.authorId == userId && x.state == State.PUBLISHED)
      && UserEventSelection(rows, eventId, userId, from, size) == all[..Min(size, |all|)]
  {
    PagedIsPrefix(FindByEventIdAndAuthorIdAndState(rows, eventId, userId, State.PUBLISHED), from, size);
  }

  /** The unpaged branch as written misses the user's own published comment
      that the paged branch returns, whenever the two ids differ. */
  lemma SwappedArgumentsMissComments(rows: seq<Comment>, c: Comment)
    requires rows == [c] && c.state == State.PUBLISHED && c.eventId != c.authorId
    ensures UserEventSelectionAsWritten(rows, c.eventId, c.authorId, 0, 0) == []
    ensures UserEventSelectionAsWritten(rows, c.eventId, c.authorId, 0, 1) == [c]
    ensures UserEventSelection(rows, c.eventId, c.authorId, 0, 0) == [c]
  {
    assert rows[1..] == [];
  }

  /** `getCommentsByEventId(eventId, GetCommentParam)`: the reader must
      exist and the event must resolve; then the selection as written,
      each comment with its author and event. */
  function CommentsOfUserOnEvent(rows: seq<Comment>, eventId: int, userId: int, from: nat, size: nat,
                                 users: int -> Option<UserShort>, events: int -> Result<EventShortDto>)
    : (r: Result<seq<CommentFullDto>>)
    ensures users(userId).None? ==> r.Failure? && r.error == NotFound([userId])
    ensures users(userId).Some? && events(eventId).Failure? ==> r.Failure? && r.error == events(eventId).error
    ensures users(userId).Some? && events(eventId).Success? ==>
      var sel := UserEventSelectionAsWritten(rows, eventId, userId, from, size);
      && (r.Failure? <==> ListedDtos(sel, users, events).Failure?)
      && (r.Success? ==> r.value == ListedDtos(sel, users, events).value)
    ensures r.Success? ==> forall d :: d in r.value ==> d.state == Some(State.PUBLISHED)
    ensures r.Success? && size > 0 ==> |r.value| <= size
  {
    if users(userId).None? then Failure(NotFound([userId]))
    else if events(eventId).Failure? then Failure(events(eventId).error)
    else
      var sel := UserEventSelectionAsWritten(rows, eventId, userId, from, size);
      ListedInState(sel, users, events, State.PUBLISHED);
      ListedDtos(sel, users, events)
  }

  /** `getCommentsByEventId(CommentPublicParam)`: the event must resolve;
      then the event's PUBLISHED comments under the paging rule. */
  function CommentsOfEvent(rows: seq<Comment>, eventId: int, from: nat, size: nat,
                           users: int -> Option<UserShort>, events: int -> Result<EventShortDto>)
    : (r: Result<seq<CommentFullDto>>)
    ensures events(eventId).Failure? ==> r.Failure? && r.error == events(eventId).error
    ensures events(eventId).Success? ==>
      var sel := Paged(FindByEventIdAndState(rows, eventId, State.PUBLISHED), from, size);
      && (r.Failure? <==> ListedDtos(sel, users, events).Failure?)
      && (r.Success? ==> r.value == ListedDtos(sel, users, events).value)
    ensures r.Success? ==> forall d :: d in r.value ==> d.state == Some(State.PUBLISHED)
    ensures r.Success? && size > 0 ==> |r.value| <= size
  {
    if events(eventId).Failure? then Failure(events(eventId).error)
    else
      var sel := Paged(FindByEventIdAndState(rows, eventId, State.PUBLISHED), from, size);
      ListedInState(sel, users, events, State.PUBLISHED);
      ListedDtos(sel, users, events)
  }

  /** The author query of `getCommentsWithoutPagination` and
      `getCommentsWithPagination(GetCommentParam)`: ALL lists every comment
      of the author, any other filter goes through `toState`. */
  function AuthorQuery(rows: seq<Comment>, userId: int, status: StateFilter): (r: Result<seq<Comment>>)
    ensures r.Success?
    ensures forall x :: x in r.value <==> x in rows && x.authorId == userId && (status != ALL ==> x.state == ToState(status).value)
  {
    if status == ALL then Success(FindByAuthor(rows, userId, None))
    else
      match ToState(status)
      case Failure(err) => Failure(err)
      case Success(s) => Success(FindByAuthor(rows, userId, Some(s)))
  }

  /** `getComments(GetCommentParam)`: the user must exist; then their
      comments matching the filter, under the paging rule. The filter ALL
      never reaches `toState`, so the listing never fails with
      IllegalArgument. */
  function CommentsOfUser(rows: seq<Comment>, userId: int, from: nat, size: nat, status: StateFilter,
                          users: int -> Option<UserShort>, events: int -> Result<EventShortDto>)
    : (r: Result<seq<CommentFullDto>>)
    ensures users(userId).None? ==> r.Failure? && r.error == NotFound([userId])
    ensures r.Failure? ==> r.error.NotFound?
    ensures users(userId).Some? ==>
      var sel := Paged(AuthorQuery(rows, userId, status).value, from, size);
      && (r.Failure? <==> ListedDtos(sel, users, events).Failure?)
      && (r.Success? ==> r.value == ListedDtos(sel, users, events).value)
    ensures r.Success? && size > 0 ==> |r.value| <= size
  {
    if users(userId).None? then Failure(NotFound([userId]))
    else
      match AuthorQuery(rows, userId, status)
      case Failure(err) => Failure(err)
      case Success(found) => ListedDtos(Paged(found, from, size), users, events)
  }

  /** The date-range query of the administrator's listing. */
  function RangeQuery(rows: seq<Comment>, status: StateFilter, start: int, end: int): (r: Result<seq<Comment>>)
    ensures r.Success?
    ensures forall x :: x in r.value <==> x in rows && start <= x.createdOn <= end && (status != ALL ==> x.state == ToState(status).value)
  {
    if status == ALL then Success(FindByCreatedOnBetween(rows, None, start, end))
    else
      match ToState(status)
      case Failure(err) => Failure(err)
      case Success(s) => Success(FindByCreatedOnBetween(rows, Some(s), start, end))
  }

  /** `getComments(CommentAdminParam)`: the date range is validated first
      (IllegalArgument when it starts after it ends); then the comments
      created within it, matching the filter, under the paging rule. */
  function CommentsInRange(rows: seq<Comment>, from: nat, size: nat, status: StateFilter, start: int, end: int,
                           users: int -> Option<UserShort>, events: int -> Result<EventShortDto>)
    : (r: Result<seq<CommentFullDto>>)
    ensures end < start ==> r.Failure? && r.error == IllegalArgument
    ensures start <= end ==>
      var sel := Paged(RangeQuery(rows, status, start, end).value, from, size);
      && (r.Failure? <==> ListedDtos(sel, users, events).Failure?)
      && (r.Success? ==> r.value == ListedDtos(sel, users, events).value)
    ensures r.Success? && size > 0 ==> |r.value| <= size
  {
    match DateValidation(start, end)
    case Fail(err) => Failure(err)
    case Pass =>
      match RangeQuery(rows, status, start, end)
      case Failure(err) => Failure(err)
      case Success(found) => ListedDtos(Paged(found, from, size), users, events)
  }
}
