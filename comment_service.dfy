/**
  The comment service of kaizen_blog_api/comment/service.py: creating a
  comment, deleting one and announcing the deletion, and mailing the
  administrator the comment an announcement carries.
*/
module CommentService {
  import opened Errors
  import opened Uuids
  import opened Time
  import opened Values
  import opened Serializers
  import opened Entities
  import opened Common
  import opened Validators
  import opened Tables
  import opened Events
  import opened CommentStorage

  datatype CreateCommentRequest = CreateCommentRequest(text: string, username: string, postId: Uuid)

  datatype DeleteCommentRequest = DeleteCommentRequest(id: Uuid)

  /** The fields `asdict` lists for a creation request. */
  function CreateCommentFields(request: CreateCommentRequest): Fields {
    [("text", VStr(request.text)), ("username", VStr(request.username)), ("post_id", VUuid(request.postId))]
  }

  /**
    What `create` inserts: the request's fields through `dict_factory`, so
    `post_id` as its string, the fresh id, and the creation time `now`.
  */
  lemma CreateCommentValidates(request: CreateCommentRequest, freshId: Uuid, now: DateTime, lex: Lexer)
    ensures ValidateComment(RequestToInsert(CreateCommentFields(request), freshId), now, lex)
         == Ok(Comment(freshId, request.text, request.username, request.postId, now))
  {
    CreateCommentItem(request, freshId);
    StoredUuidField(RequestToInsert(CreateCommentFields(request), freshId), "post_id", request.postId);
    ValidateCommentAccepts(RequestToInsert(CreateCommentFields(request), freshId), now, lex,
                           Comment(freshId, request.text, request.username, request.postId, now));
  }

  /** The item `create` inserts, entry by entry. */
  lemma CreateCommentItem(request: CreateCommentRequest, freshId: Uuid)
    ensures var r := RequestToInsert(CreateCommentFields(request), freshId);
      && r.Keys == {"text", "username", "post_id", "id"} && "created_at" !in r
      && r["id"] == VUuid(freshId) && r["post_id"] == VStr(ToStr(request.postId))
      && r["text"] == VStr(request.text) && r["username"] == VStr(request.username)
  {
    var f := CreateCommentFields(request);
    DictFactoryThree(("text", VStr(request.text)), ("username", VStr(request.username)), ("post_id", VUuid(request.postId)));
    assert DictFactory(f) == map["text" := VStr(request.text), "username" := VStr(request.username),
                                 "post_id" := VStr(ToStr(request.postId))];
  }

  /** Whether `datetime.fromtimestamp` takes a value as a number of seconds. */
  predicate IsSeconds(v: Value) {
    v.VInt? || v.VBool? || v.VFloat?
  }

  /** The number of microseconds a value of seconds stands for; a bool is the integer 0 or 1. */
  function SecondsInMicros(v: Value): int
    requires IsSeconds(v)
  {
    match v
    case VInt(i) => i * MicrosPerSecond
    case VBool(b) => if b then MicrosPerSecond else 0
    case VFloat(f) => f.units
  }

  /**
    `datetime.fromtimestamp(v)` of a value read from JSON: a number of
    seconds within Python's range, anything else a `TypeError`.
  */
  function FromTimestampValue(v: Value): (r: Result<DateTime>)
    ensures r.Ok? <==> IsSeconds(v) && InRange(DateTime(SecondsInMicros(v)))
    ensures r.Ok? ==> r.value.micros == SecondsInMicros(v)
    ensures !IsSeconds(v) ==> r == Err(Error(Unhandled, "'" + TypeName(v) + "' object cannot be interpreted as an integer"))
    ensures r.Err? ==> r.error.kind == Unhandled
  {
    if IsSeconds(v) then FromTimestamp(Decimal(SecondsInMicros(v)))
    else Err(Error(Unhandled, "'" + TypeName(v) + "' object cannot be interpreted as an integer"))
  }

  /** The `TypeError` of `v["created_at"]` on a value that is not a dict. */
  function NotSubscriptable(v: Value): string {
    if v.VStr? then "string indices must be integers" else "'" + TypeName(v) + "' object is not subscriptable"
  }

  /**
    The comment `notify` rebuilds from an event: the payload is loaded,
    its `created_at` turned from seconds since the epoch into a datetime,
    and the result validated as a `Comment`.
  */
  function NotifiedComment(event: Event, now: DateTime, lex: Lexer): (r: Result<Comment>)
    ensures !FromJson(event.payload).VDict? ==>
      r == Err(Error(Unhandled, NotSubscriptable(FromJson(event.payload))))
    ensures FromJson(event.payload).VDict? && "created_at" !in FromJson(event.payload).entries ==>
      r == Err(Error(Unhandled, "'created_at'"))
    ensures r.Ok? ==> FromJson(event.payload).VDict? && "created_at" in FromJson(event.payload).entries
    ensures r.Ok? ==> FromTimestampValue(FromJson(event.payload).entries["created_at"]) == Ok(r.value.createdAt)
    ensures r.Ok? ==>
      ValidateComment(FromJson(event.payload).entries["created_at" := VDateTime(r.value.createdAt)], now, lex) == r
    ensures r.Err? ==> r.error.kind == ValidationError || r.error.kind == Unhandled
  {
    var payload := FromJson(event.payload);
    if !payload.VDict? then Err(Error(Unhandled, NotSubscriptable(payload)))
    else if "created_at" !in payload.entries then Err(Error(Unhandled, "'created_at'"))
    else
      var createdAt :- FromTimestampValue(payload.entries["created_at"]);
      var comment :- ValidateComment(payload.entries["created_at" := VDateTime(createdAt)], now, lex);
      assert comment.createdAt == createdAt;
      Ok(comment)
  }

  /**
    The round trip of a deletion announcement: `notify` of the event built
    from a comment rebuilds that very comment, its creation time to the
    microsecond, since the payload carries the timestamp as a float.
  */
  lemma NotifyRoundTrip(c: Comment, now: DateTime, lex: Lexer)
    requires InRange(c.createdAt)
    ensures NotifiedComment(CommentDeletedEvent(c), now, lex) == Ok(c)
  {
    NotifiedItem(c);
    var r := FromJson(CommentDeletedEvent(c).payload).entries["created_at" := VDateTime(c.createdAt)];
    LoadStoredUuid(c.id);
    LoadStoredUuid(c.postId);
    ValidateCommentAccepts(r, now, lex, c);
  }

  /** The announcement's payload, read back with its timestamp turned into a datetime, entry by entry. */
  lemma NotifiedItem(c: Comment)
    requires InRange(c.createdAt)
    ensures var payload := FromJson(CommentDeletedEvent(c).payload);
      && payload.VDict? && "created_at" in payload.entries
      && FromTimestampValue(payload.entries["created_at"]) == Ok(c.createdAt)
      && var r := payload.entries["created_at" := VDateTime(c.createdAt)];
      && r.Keys == CommentFieldNames
      && r["id"] == VStr(ToStr(c.id)) && r["post_id"] == VStr(ToStr(c.postId))
      && r["text"] == VStr(c.text) && r["username"] == VStr(c.username)
      && r["created_at"] == VDateTime(c.createdAt)
  {
    CommentDeletedPayload(c);
  }

  class CommentService {
    const repository: CommentRepository
    /** `ADMIN_EMAIL_ADDRESS`, the administrator's address. */
    const adminEmail: string

    constructor (repository: CommentRepository, adminEmail: string)
      ensures this.repository == repository && this.adminEmail == adminEmail
    {
      this.repository := repository;
      this.adminEmail := adminEmail;
    }

    /**
      `create(request)`: a comment with a fresh id, the request's text,
      username and post id, created `now`, inserted once.
    */
    method Create(request: CreateCommentRequest, freshId: Uuid, now: DateTime) returns (r: Result<Comment>)
      modifies repository
      ensures var comment := Comment(freshId, request.text, request.username, request.postId, now);
        && repository.calls == old(repository.calls) + [Call.Insert(comment)]
        && (repository.insertFault.None? ==>
              r == Ok(comment) && repository.table == old(repository.table)[ToStr(freshId) := CommentRecord(comment)])
        && (repository.insertFault.Some? ==>
              r.Err? && r.error.kind == AWSError && repository.table == old(repository.table))
    {
      var data := RequestToInsert(CreateCommentFields(request), freshId);
      CreateCommentValidates(request, freshId, now, repository.lex);
      var comment := ValidateComment(data, now, repository.lex).value;
      var inserted :- repository.Insert(comment);
      r := Ok(comment);
    }

    /**
      `delete(request)`: get the comment, delete it, then publish the
      `comment.deleted` event built from the comment that was read. The
      first failure stops every later call.
    */
    method Delete(request: DeleteCommentRequest, now: DateTime) returns (r: Result<()>)
      modifies repository
      ensures var id := request.id;
        var fetched := FetchComment(old(repository.table), repository.status, id, now, repository.lex);
        var calls := old(repository.calls);
        && (fetched.Err? ==>
              r == Err(fetched.error) && repository.calls == calls + [Call.Get(id)]
              && repository.table == old(repository.table))
        && (fetched.Ok? && DeleteOp in repository.faults ==>
              r == Err(repository.faults[DeleteOp]) && repository.calls == calls + [Call.Get(id)] + [Call.Delete(id)]
              && repository.table == old(repository.table))
        && (fetched.Ok? && DeleteOp !in repository.faults ==>
              repository.calls == calls + [Call.Get(id)] + [Call.Delete(id)] + [Call.DispatchSns(CommentDeletedEvent(fetched.value))]
              && repository.table == old(repository.table) - {ToStr(id)}
              && (DispatchOp in repository.faults ==> r == Err(repository.faults[DispatchOp]))
              && (DispatchOp !in repository.faults ==> r == Ok(())))
        && (fetched.Ok? && Keyed(old(repository.table)) ==>
              CommentDeletedEvent(fetched.value).id == ToStr(id)
              && CommentDeletedEvent(fetched.value).name == "comment.deleted")
    {
      var comment := repository.Get(request.id, now);
      if comment.Err? {
        return Err(comment.error);
      }
      if Keyed(old(repository.table)) {
        FetchedCommentCarriesId(old(repository.table), repository.status, request.id, now, repository.lex);
      }
      var deleted := repository.Delete(request.id);
      if deleted.Err? {
        return Err(deleted.error);
      }
      r := repository.DispatchSns(CommentDeletedEvent(comment.value));
    }

    /**
      `notify(request)`: the comment the event carries, mailed once to the
      administrator; nothing is mailed when it cannot be rebuilt.
    */
    method Notify(request: Event, now: DateTime) returns (r: Result<()>)
      modifies repository`calls
      ensures var comment := NotifiedComment(request, now, repository.lex);
        && (comment.Err? ==> r == Err(comment.error) && repository.calls == old(repository.calls))
        && (comment.Ok? ==>
              repository.calls == old(repository.calls) + [Call.SendEmail(adminEmail, comment.value)]
              && (EmailOp in repository.faults ==> r == Err(repository.faults[EmailOp]))
              && (EmailOp !in repository.faults ==> r == Ok(())))
    {
      var comment :- NotifiedComment(request, now, repository.lex);
      r := repository.SendEmail(adminEmail, comment);
    }
  }

  /**
    A comment created and then deleted through its returned id: with a
    healthy repository both calls succeed, the item is gone, and the event
    published carries the comment as it was stored.
  */
  method CreateThenDelete(service: CommentService, request: CreateCommentRequest, freshId: Uuid, now: DateTime)
    returns (created: Result<Comment>, deleted: Result<()>)
    requires service.repository.insertFault.None? && service.repository.faults == map[]
    requires 200 <= service.repository.status < 300 && InRange(now)
    modifies service.repository
    ensures var comment := Comment(freshId, request.text, request.username, request.postId, now);
      && created == Ok(comment) && deleted == Ok(())
      && ToStr(freshId) !in service.repository.table
      && service.repository.table == old(service.repository.table) - {ToStr(freshId)}
      && service.repository.calls == old(service.repository.calls)
         + [Call.Insert(comment)] + [Call.Get(freshId)] + [Call.Delete(freshId)]
         + [Call.DispatchSns(CommentDeletedEvent(comment.(createdAt := TruncateToSecond(now))))]
  {
    ghost var table0 := service.repository.table;
    created := service.Create(request, freshId, now);
    var comment := created.value;
    FetchStoredComment(table0, service.repository.status, comment, now, service.repository.lex);
    deleted := service.Delete(DeleteCommentRequest(comment.id), now);
    StoreThenRemove(table0, ToStr(freshId), CommentRecord(comment));
  }
}
