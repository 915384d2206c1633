/**
  The post service of kaizen_blog_api/post/service.py: creating a post,
  reading one, listing them newest first, and replacing a post's image
  with one decoded from the request body.
*/
module PostService {
  import opened Options
  import opened Errors
  import opened Uuids
  import PyText
  import opened Time
  import opened Values
  import opened Serializers
  import opened Entities
  import opened Common
  import opened Validators
  import opened Tables
  import opened PostStorage

  datatype CreatePostRequest = CreatePostRequest(text: string, username: string)

  datatype GetPostRequest = GetPostRequest(id: Uuid)

  /** The fields `asdict` lists for a creation request. */
  function CreatePostFields(request: CreatePostRequest): Fields {
    [("text", VStr(request.text)), ("username", VStr(request.username))]
  }

  datatype UpdateImageRequest = UpdateImageRequest(postId: Uuid, image: string, isBase64Encoded: bool)

  /**
    `UpdateImageRequest(post_id, image, is_base64_encoded)`, whose
    `uuid.UUID(post_id)` raises a `ValueError` on a malformed id; the
    handler does not catch it, so it surfaces as an unhandled error with
    the text `uuid.UUID` gives it.
  */
  function NewUpdateImageRequest(postId: string, image: string, isBase64Encoded: bool): (r: Result<UpdateImageRequest>)
    ensures r.Ok? <==> FromHex(postId).Parsed?
    ensures r.Ok? ==> r.value == UpdateImageRequest(FromHex(postId).u, image, isBase64Encoded)
    ensures r.Err? ==> r.error == Error(Unhandled, FromHex(postId).message)
  {
    match FromHex(postId)
    case Parsed(id) => Ok(UpdateImageRequest(id, image, isBase64Encoded))
    case Invalid(message) => Err(Error(Unhandled, message))
  }

  /**
    The request is built exactly when the cleaned id is 32 characters that
    `int(_, 16)` reads, for the number they spell; otherwise the error names
    which of the two checks failed.
  */
  lemma UpdateImageRequestCases(postId: string, image: string, isBase64Encoded: bool)
    ensures var r := NewUpdateImageRequest(postId, image, isBase64Encoded);
      && (r.Ok? <==> |Cleaned(postId)| == 32 && PyText.ParseHexInt(Cleaned(postId)).Some?)
      && (r.Ok? ==> PyText.ParseHexInt(Cleaned(postId)) == Some(Int(r.value.postId)))
      && (|Cleaned(postId)| != 32 ==> r == Err(Error(Unhandled, BadlyFormed)))
      && (|Cleaned(postId)| == 32 && PyText.ParseHexInt(Cleaned(postId)).None? ==>
            r == Err(Error(Unhandled, InvalidLiteral(Cleaned(postId)))))
  {
    FromHexCases(postId);
  }

  /** A path id written as `str(uuid)` gives a request for that very post. */
  lemma UpdateImageRequestOfId(id: Uuid, image: string, isBase64Encoded: bool)
    ensures NewUpdateImageRequest(ToStr(id), image, isBase64Encoded) == Ok(UpdateImageRequest(id, image, isBase64Encoded))
  {
    ParseForms(id);
  }

  /** A short id is refused with the length message of `uuid.UUID`. */
  lemma ShortIdRefused(postId: string, image: string, isBase64Encoded: bool)
    requires |postId| < 32
    ensures NewUpdateImageRequest(postId, image, isBase64Encoded) == Err(Error(Unhandled, "badly formed hexadecimal UUID string"))
  {
    ShortTextBadlyFormed(postId);
  }

  /**
    An id of the right shape whose first character cannot start a base-16
    integer (`zzzzzzzz-zzzz-zzzz-zzzz-zzzzzzzzzzzz`, say) is refused with the
    message of `int(_, 16)`, which quotes the cleaned text.
  */
  lemma NonHexIdRefused(t: string, image: string, isBase64Encoded: bool)
    requires |t| == 32 && Untouched(t) && forall i :: 0 <= i < 32 ==> PyText.IsReprPlain(t[i])
    requires !PyText.IsIntSpace(t[0]) && t[0] != '+' && t[0] != '-' && !Hex.IsDigit(t[0])
    ensures NewUpdateImageRequest(Hyphenate(t), image, isBase64Encoded)
      == Err(Error(Unhandled, LiteralPrefix + ("'" + t + "'")))
  {
    NonHexMessage(t);
  }

  predicate OccursAt(s: string, pattern: string, i: int) {
    0 <= i && i + |pattern| <= |s| && s[i..i + |pattern|] == pattern
  }

  /** `s.find(pattern, from)`. */
  function FindFrom(s: string, pattern: string, from: nat): (r: int)
    ensures r == -1 || from <= r
    ensures r == -1 ==> forall i :: from <= i ==> !OccursAt(s, pattern, i)
    ensures r >= 0 ==> OccursAt(s, pattern, r) && forall i :: from <= i < r ==> !OccursAt(s, pattern, i)
    decreases |s| - from
  {
    if from + |pattern| > |s| then -1
    else if s[from..from + |pattern|] == pattern then from
    else FindFrom(s, pattern, from + 1)
  }

  /** `s.find(pattern)`: the first index where `pattern` occurs, or -1 when it occurs nowhere. */
  function Find(s: string, pattern: string): (r: int)
    ensures r == -1 <==> forall i :: !OccursAt(s, pattern, i)
    ensures r >= 0 ==> OccursAt(s, pattern, r) && forall i :: 0 <= i < r ==> !OccursAt(s, pattern, i)
  {
    FindFrom(s, pattern, 0)
  }

  /** The marker that ends the header of a data URL (RFC 2397, section 3). */
  const Base64Marker: string := "base64,"

  const NotAnImage: Error := Error(ImageError, "File should be an image")
  const InvalidImage: Error := Error(ImageError, "Invalid image file")

  /**
    The image bytes an update request carries: an empty body is refused; a
    body API Gateway marked as base64 is decoded whole; otherwise it must be
    a data URL whose `base64,` marker comes after at least one character, and
    what follows the first marker is decoded. `decode` is
    `base64.b64decode` (RFC 4648, section 4).
  */
  function DecodeImage(image: string, isBase64Encoded: bool, decode: string -> Result<Bytes>): (r: Result<Bytes>)
    ensures image == "" ==> r == Err(NotAnImage)
    ensures image != "" && isBase64Encoded ==> r == decode(image)
    ensures image != "" && !isBase64Encoded && Find(image, Base64Marker) <= 0 ==> r == Err(InvalidImage)
    ensures image != "" && !isBase64Encoded && Find(image, Base64Marker) > 0 ==>
      r == decode(image[Find(image, Base64Marker) + |Base64Marker|..])
  {
    if image == "" then Err(NotAnImage)
    else if isBase64Encoded then decode(image)
    else
      var pos := Find(image, Base64Marker);
      if pos > 0 then decode(image[pos + |Base64Marker|..]) else Err(InvalidImage)
  }

  /**
    A data URL whose header holds no `b` (such as `data:image/png;`) has
    its payload decoded, whatever the payload holds.
  */
  lemma DataUrlPayloadDecoded(header: string, payload: string, decode: string -> Result<Bytes>)
    requires header != "" && 'b' !in header
    ensures DecodeImage(header + Base64Marker + payload, false, decode) == decode(payload)
  {
    var s := header + Base64Marker + payload;
    assert OccursAt(s, Base64Marker, |header|) by {
      assert s[|header|..|header| + |Base64Marker|] == Base64Marker;
    }
    forall i | 0 <= i < |header| ensures !OccursAt(s, Base64Marker, i) {
      assert s[i] == header[i] != 'b';
      if i + |Base64Marker| <= |s| {
        assert s[i..i + |Base64Marker|][0] == s[i];
      }
    }
    assert Find(s, Base64Marker) == |header|;
    assert s[|header| + |Base64Marker|..] == payload;
  }

  /** A body that starts with the marker is refused: the marker must come after index 0. */
  lemma MarkerAtStartRefused(payload: string, decode: string -> Result<Bytes>)
    ensures DecodeImage(Base64Marker + payload, false, decode) == Err(InvalidImage)
  {
    var s := Base64Marker + payload;
    assert OccursAt(s, Base64Marker, 0) by {
      assert s[..|Base64Marker|] == Base64Marker;
    }
  }

  /**
    What `create` inserts: `text` and `username` from the request through
    `dict_factory`, the fresh id, and the defaults of every other field.
  */
  lemma CreateValidates(request: CreatePostRequest, freshId: Uuid, now: DateTime, lex: Lexer)
    ensures ValidatePost(RequestToInsert(CreatePostFields(request), freshId), now, lex)
         == Ok(Post(freshId, request.text, request.username, None, 0, now))
  {
    CreatePostItem(request, freshId);
    ValidatePostAccepts(RequestToInsert(CreatePostFields(request), freshId), now, lex,
                        Post(freshId, request.text, request.username, None, 0, now));
  }

  /** The item `create` inserts, entry by entry. */
  lemma CreatePostItem(request: CreatePostRequest, freshId: Uuid)
    ensures var r := RequestToInsert(CreatePostFields(request), freshId);
      && r.Keys == {"text", "username", "id"}
      && r["id"] == VUuid(freshId) && r["text"] == VStr(request.text) && r["username"] == VStr(request.username)
  {
    var f := CreatePostFields(request);
    assert f == [] + [f[0]] + [f[1]];
    DictFactoryAppend([], f[0]);
    DictFactoryAppend([f[0]], f[1]);
    assert DictFactory(f) == map["text" := VStr(request.text), "username" := VStr(request.username)];
  }

  /**
    The post fetched after the image update is the post that was read, with
    the uploaded image in place and its creation time cut to the stored
    whole second.
  */
  lemma UpdatedPostFetched(table: Table, status: int, id: Uuid, now: DateTime, lex: Lexer, url: string)
    requires 200 <= status < 300 && Keyed(table)
    requires FetchPost(table, status, id, now, lex).Ok? && InRange(FetchPost(table, status, id, now, lex).value.createdAt)
    ensures var post := FetchPost(table, status, id, now, lex).value;
      var updated := SetImage(post, Image(id, url));
      && ImageMatches(updated)
      && FetchPost(table[ToStr(id) := PostRecord(updated)], status, id, now, lex)
         == Ok(updated.(createdAt := TruncateToSecond(post.createdAt)))
  {
    var post := FetchPost(table, status, id, now, lex).value;
    FetchedCarriesId(table, status, id, now, lex);
    var updated := SetImage(post, Image(id, url));
    FetchStored(table, status, updated, now, lex);
  }

  class PostService {
    const repository: PostRepository

    constructor (repository: PostRepository)
      ensures this.repository == repository
    {
      this.repository := repository;
    }

    /**
      `create(request)`: a post with a fresh id, the request's text and
      username, no image, no likes and created `now`, inserted once.
    */
    method Create(request: CreatePostRequest, freshId: Uuid, now: DateTime) returns (r: Result<Post>)
      modifies repository
      ensures var post := Post(freshId, request.text, request.username, None, 0, now);
        && repository.calls == old(repository.calls) + [Call.Insert(post)]
        && (repository.insertFault.None? ==>
              r == Ok(post) && repository.table == old(repository.table)[ToStr(freshId) := PostRecord(post)])
        && (repository.insertFault.Some? ==>
              r.Err? && r.error.kind == AWSError && repository.table == old(repository.table))
    {
      var data := RequestToInsert(CreatePostFields(request), freshId);
      CreateValidates(request, freshId, now, repository.lex);
      var post := ValidatePost(data, now, repository.lex).value;
      var inserted :- repository.Insert(post);
      r := Ok(post);
    }

    /** `read(request)`: what the repository's `get` answers, errors included. */
    method Read(request: GetPostRequest, now: DateTime) returns (r: Result<Post>)
      modifies repository`calls
      ensures repository.calls == old(repository.calls) + [Call.Get(request.id)]
      ensures r == FetchPost(repository.table, repository.status, request.id, now, repository.lex)
    {
      r := repository.Get(request.id, now);
    }

    /** `list_reversed()`: every post `list_by_date_reversed` answers, yielded one by one in its order. */
    method ListReversed() returns (r: Result<seq<Post>>)
      modifies repository`calls
      ensures repository.calls == old(repository.calls) + [Call.ListByDateReversed]
      ensures ListOp in repository.faults ==> r == Err(repository.faults[ListOp])
      ensures ListOp !in repository.faults ==> r == Ok(repository.byDateReversed)
    {
      var posts :- repository.ListByDateReversed();
      var yielded: seq<Post> := [];
      var i := 0;
      while i < |posts|
        invariant 0 <= i <= |posts|
        invariant yielded == posts[..i]
      {
        yielded := yielded + [posts[i]];
        i := i + 1;
      }
      assert posts[..i] == posts;
      r := Ok(yielded);
    }

    /**
      `update_logo(request)`: decode the image before any repository call,
      then get the post, upload the image, store the post with the uploaded
      image in place, and answer the post as it is fetched again. The first
      failure stops every later call.
    */
    method UpdateLogo(request: UpdateImageRequest, now: DateTime, decode: string -> Result<Bytes>)
      returns (r: Result<Post>)
      modifies repository
      ensures var image := DecodeImage(request.image, request.isBase64Encoded, decode);
        var id := request.postId;
        var fetched := FetchPost(old(repository.table), repository.status, id, now, repository.lex);
        var uploaded := Image(id, repository.imageUrl(id));
        var calls := old(repository.calls);
        && (image.Err? ==>
              r == Err(image.error) && repository.calls == calls && repository.table == old(repository.table))
        && (image.Ok? && fetched.Err? ==>
              r == Err(fetched.error) && repository.calls == calls + [Call.Get(id)]
              && repository.table == old(repository.table))
        && (image.Ok? && fetched.Ok? && UploadOp in repository.faults ==>
              r == Err(repository.faults[UploadOp])
              && repository.calls == calls + [Call.Get(id)] + [Call.Upload(image.value, id)]
              && repository.table == old(repository.table))
        && (image.Ok? && fetched.Ok? && UploadOp !in repository.faults && UpdateOp in repository.faults ==>
              r == Err(repository.faults[UpdateOp])
              && repository.calls == calls + [Call.Get(id)] + [Call.Upload(image.value, id)]
                                    + [Call.Update(SetImage(fetched.value, uploaded), id)]
              && repository.table == old(repository.table))
        && (image.Ok? && fetched.Ok? && UploadOp !in repository.faults && UpdateOp !in repository.faults ==>
              repository.calls == calls + [Call.Get(id)] + [Call.Upload(image.value, id)]
                                    + [Call.Update(SetImage(fetched.value, uploaded), id)] + [Call.Get(id)]
              && repository.table == old(repository.table)[ToStr(id) := PostRecord(SetImage(fetched.value, uploaded))]
              && r == FetchPost(repository.table, repository.status, id, now, repository.lex))
        && (image.Ok? && fetched.Ok? && UploadOp !in repository.faults && UpdateOp !in repository.faults
            && Keyed(old(repository.table)) && InRange(fetched.value.createdAt) ==>
              r == Ok(SetImage(fetched.value, uploaded).(createdAt := TruncateToSecond(fetched.value.createdAt))))
    {
      var image := DecodeImage(request.image, request.isBase64Encoded, decode);
      if image.Err? {
        return Err(image.error);
      }
      var post := repository.Get(request.postId, now);
      if post.Err? {
        return Err(post.error);
      }
      r := ReplaceImage(post.value, image.value, request.postId, now);
      if Keyed(old(repository.table)) && InRange(post.value.createdAt) {
        UpdatedPostFetched(old(repository.table), repository.status, request.postId, now, repository.lex,
                           repository.imageUrl(request.postId));
      }
    }

    /** The second half of `update_logo`: upload, store the post with the uploaded image, fetch it again. */
    method ReplaceImage(post: Post, image: Bytes, id: Uuid, now: DateTime) returns (r: Result<Post>)
      modifies repository
      ensures var uploaded := Image(id, repository.imageUrl(id));
        var calls := old(repository.calls);
        && (UploadOp in repository.faults ==>
              r == Err(repository.faults[UploadOp])
              && repository.calls == calls + [Call.Upload(image, id)]
              && repository.table == old(repository.table))
        && (UploadOp !in repository.faults && UpdateOp in repository.faults ==>
              r == Err(repository.faults[UpdateOp])
              && repository.calls == calls + [Call.Upload(image, id)] + [Call.Update(SetImage(post, uploaded), id)]
              && repository.table == old(repository.table))
        && (UploadOp !in repository.faults && UpdateOp !in repository.faults ==>
              repository.calls == calls + [Call.Upload(image, id)] + [Call.Update(SetImage(post, uploaded), id)] + [Call.Get(id)]
              && repository.table == old(repository.table)[ToStr(id) := PostRecord(SetImage(post, uploaded))]
              && r == FetchPost(repository.table, repository.status, id, now, repository.lex))
    {
      var uploaded :- repository.Upload(image, id);
      var updated := SetImage(post, uploaded);
      var stored :- repository.Update(updated, id);
      r := repository.Get(id, now);
    }
  }
}
