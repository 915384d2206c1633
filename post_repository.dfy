/**
  The post repository the post service talks to (the `IPostRepository`
  protocol of kaizen_blog_api/post/repository.py), as an in-memory table of
  storage items keyed by the string of the post id, with a log of the calls
  made to it. `insert` follows the source: it stores
  `asdict(post, dict_factory=dict_factory)` and turns a client error into an
  `AWSError`. The other operations have no body in the source; the fake
  answers them through the table, or with the failure it was configured to
  give.
*/
module PostStorage {
  import opened Options
  import opened Errors
  import opened Uuids
  import opened Time
  import opened Values
  import opened Entities
  import opened Common
  import opened Validators
  import opened Tables

  type Bytes = seq<bv8>

  /** The operations the fake can be told to fail, with the error each raises. */
  datatype Op = UpdateOp | UploadOp | ListOp

  /** One call made to the repository, in the order the service made them. */
  datatype Call =
    | Get(id: Uuid)
    | Insert(post: Post)
    | Update(post: Post, id: Uuid)
    | Upload(image: Bytes, id: Uuid)
    | ListByDateReversed

  /** `get(id)`: `get_record(id, Post, table)` on the fake table. */
  function FetchPost(table: Table, status: int, id: Uuid, now: DateTime, lex: Lexer): Result<Post> {
    GetRecord(id, c => Query(table, status, c), r => ValidatePost(r, now, lex))
  }

  /** A post the table does not hold is not found, once the query succeeds. */
  lemma FetchMissing(table: Table, status: int, id: Uuid, now: DateTime, lex: Lexer)
    requires 200 <= status < 300 && ToStr(id) !in table
    ensures FetchPost(table, status, id, now, lex) == Err(Error(RecordNotFound, NotFoundMessage(id)))
  {
  }

  /** A post just stored is fetched back as itself, its creation time cut to the whole second. */
  lemma FetchStored(table: Table, status: int, p: Post, now: DateTime, lex: Lexer)
    requires 200 <= status < 300 && ImageMatches(p) && InRange(p.createdAt)
    ensures FetchPost(table[ToStr(p.id) := PostRecord(p)], status, p.id, now, lex)
         == Ok(p.(createdAt := TruncateToSecond(p.createdAt)))
  {
    PostRoundTrip(p, now, lex);
  }

  /** From a keyed table, the post fetched for an id carries that id. */
  lemma FetchedCarriesId(table: Table, status: int, id: Uuid, now: DateTime, lex: Lexer)
    requires Keyed(table) && FetchPost(table, status, id, now, lex).Ok?
    ensures FetchPost(table, status, id, now, lex).value.id == id
  {
    var r := table[ToStr(id)];
    assert r["id"] == VStr(ToStr(id));
    LoadStoredUuid(id);
  }

  /** Storing a post under its own id keeps the table keyed. */
  lemma StoreKeepsKeyed(table: Table, p: Post)
    requires Keyed(table)
    ensures Keyed(table[ToStr(p.id) := PostRecord(p)])
  {
  }

  class PostRepository {
    var table: Table
    var calls: seq<Call>
    /** The HTTP status the storage backend answers queries with. */
    const status: int
    /** The error code of the client error `put_item` raises, if it fails. */
    const insertFault: Option<string>
    const faults: map<Op, Error>
    /** The address of an uploaded image, by post id. */
    const imageUrl: Uuid -> string
    /** The posts `list_by_date_reversed` answers, newest first. */
    const byDateReversed: seq<Post>
    const lex: Lexer

    constructor (table: Table, status: int, insertFault: Option<string>, faults: map<Op, Error>,
                 imageUrl: Uuid -> string, byDateReversed: seq<Post>, lex: Lexer)
      ensures this.table == table && this.calls == []
      ensures this.status == status && this.insertFault == insertFault && this.faults == faults
      ensures this.imageUrl == imageUrl && this.byDateReversed == byDateReversed && this.lex == lex
    {
      this.table := table;
      this.calls := [];
      this.status := status;
      this.insertFault := insertFault;
      this.faults := faults;
      this.imageUrl := imageUrl;
      this.byDateReversed := byDateReversed;
      this.lex := lex;
    }

    /** `insert(post)`: `put_item` of the post's storage item, or the `AWSError` naming the client error. */
    method Insert(post: Post) returns (r: Result<()>)
      modifies this
      ensures calls == old(calls) + [Call.Insert(post)]
      ensures insertFault.Some? ==>
        r == Err(Error(AWSError, "AWS error " + insertFault.value + " inserting " + ToStr(post.id))) && table == old(table)
      ensures insertFault.None? ==> r == Ok(()) && table == old(table)[ToStr(post.id) := PostRecord(post)]
    {
      calls := calls + [Call.Insert(post)];
      if insertFault.Some? {
        r := Err(Error(AWSError, "AWS error " + insertFault.value + " inserting " + ToStr(post.id)));
      } else {
        table := table[ToStr(post.id) := PostRecord(post)];
        r := Ok(());
      }
    }

    /** `get(id)`. */
    method Get(id: Uuid, now: DateTime) returns (r: Result<Post>)
      modifies this`calls
      ensures calls == old(calls) + [Call.Get(id)]
      ensures r == FetchPost(table, status, id, now, lex)
    {
      calls := calls + [Call.Get(id)];
      r := FetchPost(table, status, id, now, lex);
    }

    /** `update(post, id)`: the item under `id` becomes the post's storage item. */
    method Update(post: Post, id: Uuid) returns (r: Result<()>)
      modifies this
      ensures calls == old(calls) + [Call.Update(post, id)]
      ensures UpdateOp in faults ==> r == Err(faults[UpdateOp]) && table == old(table)
      ensures UpdateOp !in faults ==> r == Ok(()) && table == old(table)[ToStr(id) := PostRecord(post)]
    {
      calls := calls + [Call.Update(post, id)];
      if UpdateOp in faults {
        r := Err(faults[UpdateOp]);
      } else {
        table := table[ToStr(id) := PostRecord(post)];
        r := Ok(());
      }
    }

    /** `upload(image, id)`: the stored image, carrying the post's id. */
    method Upload(image: Bytes, id: Uuid) returns (r: Result<Image>)
      modifies this`calls
      ensures calls == old(calls) + [Call.Upload(image, id)]
      ensures UploadOp in faults ==> r == Err(faults[UploadOp])
      ensures UploadOp !in faults ==> r == Ok(Image(id, imageUrl(id)))
    {
      calls := calls + [Call.Upload(image, id)];
      if UploadOp in faults {
        r := Err(faults[UploadOp]);
      } else {
        r := Ok(Image(id, imageUrl(id)));
      }
    }

    /** `list_by_date_reversed()`. */
    method ListByDateReversed() returns (r: Result<seq<Post>>)
      modifies this`calls
      ensures calls == old(calls) + [Call.ListByDateReversed]
      ensures ListOp in faults ==> r == Err(faults[ListOp])
      ensures ListOp !in faults ==> r == Ok(byDateReversed)
    {
      calls := calls + [Call.ListByDateReversed];
      if ListOp in faults {
        r := Err(faults[ListOp]);
      } else {
        r := Ok(byDateReversed);
      }
    }
  }
}
