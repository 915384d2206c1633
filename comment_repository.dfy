/**
  The comment repository the comment service talks to (the
  `ICommentRepository` protocol of kaizen_blog_api/comment/repository.py),
  as an in-memory table of storage items keyed by the string of the comment
  id, with a log of the calls made to it. `insert` follows the source; the
  other operations have no body in the source, and the fake answers them
  through the table, or with the failure it was configured to give.
*/
module CommentStorage {
  import opened Options
  import opened Errors
  import opened Uuids
  import opened Time
  import opened Values
  import opened Entities
  import opened Common
  import opened Validators
  import opened Tables
  import opened Events

  /** The operations the fake can be told to fail, with the error each raises. */
  datatype Op = DeleteOp | DispatchOp | EmailOp

  /** One call made to the repository, in the order the service made them. */
  datatype Call =
    | Get(id: Uuid)
    | Insert(comment: Comment)
    | Delete(id: Uuid)
    | DispatchSns(event: Event)
    | SendEmail(address: string, comment: Comment)

  /** `get(id)`: `get_record(id, Comment, table)` on the fake table. */
  function FetchComment(table: Table, status: int, id: Uuid, now: DateTime, lex: Lexer): Result<Comment> {
    GetRecord(id, c => Query(table, status, c), r => ValidateComment(r, now, lex))
  }

  /** A comment the table does not hold is not found, once the query succeeds. */
  lemma FetchMissingComment(table: Table, status: int, id: Uuid, now: DateTime, lex: Lexer)
    requires 200 <= status < 300 && ToStr(id) !in table
    ensures FetchComment(table, status, id, now, lex) == Err(Error(RecordNotFound, NotFoundMessage(id)))
  {
  }

  /** A comment just stored is fetched back as itself, its creation time cut to the whole second. */
  lemma FetchStoredComment(table: Table, status: int, c: Comment, now: DateTime, lex: Lexer)
    requires 200 <= status < 300 && InRange(c.createdAt)
    ensures FetchComment(table[ToStr(c.id) := CommentRecord(c)], status, c.id, now, lex)
         == Ok(c.(createdAt := TruncateToSecond(c.createdAt)))
  {
    CommentRoundTrip(c, now, lex);
  }

  /** From a keyed table, the comment fetched for an id carries that id. */
  lemma FetchedCommentCarriesId(table: Table, status: int, id: Uuid, now: DateTime, lex: Lexer)
    requires Keyed(table) && FetchComment(table, status, id, now, lex).Ok?
    ensures FetchComment(table, status, id, now, lex).value.id == id
  {
    var r := table[ToStr(id)];
    assert r["id"] == VStr(ToStr(id));
    LoadStoredUuid(id);
  }

  /** Storing a comment under its own id, or removing an item, keeps the table keyed. */
  lemma CommentStoreKeepsKeyed(table: Table, c: Comment, id: Uuid)
    requires Keyed(table)
    ensures Keyed(table[ToStr(c.id) := CommentRecord(c)])
    ensures Keyed(table - {ToStr(id)})
  {
  }

  class CommentRepository {
    var table: Table
    var calls: seq<Call>
    /** The HTTP status the storage backend answers queries with. */
    const status: int
    /** The error code of the client error `put_item` raises, if it fails. */
    const insertFault: Option<string>
    const faults: map<Op, Error>
    const lex: Lexer

    constructor (table: Table, status: int, insertFault: Option<string>, faults: map<Op, Error>, lex: Lexer)
      ensures this.table == table && this.calls == []
      ensures this.status == status && this.insertFault == insertFault && this.faults == faults && this.lex == lex
    {
      this.table := table;
      this.calls := [];
      this.status := status;
      this.insertFault := insertFault;
      this.faults := faults;
      this.lex := lex;
    }

    /** `insert(comment)`: `put_item` of the comment's storage item, or the `AWSError` naming the client error. */
    method Insert(comment: Comment) returns (r: Result<()>)
      modifies this
      ensures calls == old(calls) + [Call.Insert(comment)]
      ensures insertFault.Some? ==>
        r == Err(Error(AWSError, "AWS error " + insertFault.value + " inserting " + ToStr(comment.id))) && table == old(table)
      ensures insertFault.None? ==> r == Ok(()) && table == old(table)[ToStr(comment.id) := CommentRecord(comment)]
    {
      calls := calls + [Call.Insert(comment)];
      if insertFault.Some? {
        r := Err(Error(AWSError, "AWS error " + insertFault.value + " inserting " + ToStr(comment.id)));
      } else {
        table := table[ToStr(comment.id) := CommentRecord(comment)];
        r := Ok(());
      }
    }

    /** `get(id)`. */
    method Get(id: Uuid, now: DateTime) returns (r: Result<Comment>)
      modifies this`calls
      ensures calls == old(calls) + [Call.Get(id)]
      ensures r == FetchComment(table, status, id, now, lex)
    {
      calls := calls + [Call.Get(id)];
      r := FetchComment(table, status, id, now, lex);
    }

    /** `delete(id)`: the item under `id` is gone. */
    method Delete(id: Uuid) returns (r: Result<()>)
      modifies this
      ensures calls == old(calls) + [Call.Delete(id)]
      ensures DeleteOp in faults ==> r == Err(faults[DeleteOp]) && table == old(table)
      ensures DeleteOp !in faults ==> r == Ok(()) && table == old(table) - {ToStr(id)}
    {
      calls := calls + [Call.Delete(id)];
      if DeleteOp in faults {
        r := Err(faults[DeleteOp]);
      } else {
        table := table - {ToStr(id)};
        r := Ok(());
      }
    }

    /** `dispatch_sns(event)`: the event is published. */
    method DispatchSns(event: Event) returns (r: Result<()>)
      modifies this`calls
      ensures calls == old(calls) + [Call.DispatchSns(event)]
      ensures DispatchOp in faults ==> r == Err(faults[DispatchOp])
      ensures DispatchOp !in faults ==> r == Ok(())
    {
      calls := calls + [Call.DispatchSns(event)];
      if DispatchOp in faults {
        r := Err(faults[DispatchOp]);
      } else {
        r := Ok(());
      }
    }

    /** `send_email(address, comment)`: the mail about the comment is sent. */
    method SendEmail(address: string, comment: Comment) returns (r: Result<()>)
      modifies this`calls
      ensures calls == old(calls) + [Call.SendEmail(address, comment)]
      ensures EmailOp in faults ==> r == Err(faults[EmailOp])
      ensures EmailOp !in faults ==> r == Ok(())
    {
      calls := calls + [Call.SendEmail(address, comment)];
      if EmailOp in faults {
        r := Err(faults[EmailOp]);
      } else {
        r := Ok(());
      }
    }
  }
}
