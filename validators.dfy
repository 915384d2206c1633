/**
  `validate_and_get_dataclass(data, cls)` of kaizen_blog_api/validators.py
  for the entities of the core: the marshmallow schema that
  `marshmallow_dataclass.class_schema` derives from `Image`, `Post` and
  `Comment`, with `CustomDateTimeField` for datetimes. Loading checks the
  declared fields in order, refuses keys the schema does not declare, then
  builds the dataclass; a marshmallow error becomes the backend's
  `ValidationError` whose text is `str(e.messages)`.
*/
module Validators {
  import opened Options
  import opened Errors
  import opened Uuids
  import opened Time
  import opened Values
  import opened Serializers
  import opened Entities

  /**
    marshmallow's own text parsers, which the model does not spell out: an
    ISO-8601 datetime and a decimal integer.
  */
  datatype Lexer = Lexer(dateTime: string -> Option<DateTime>, integer: string -> Option<int>)

  const MissingField: string := "Missing data for required field."
  const NullField: string := "Field may not be null."
  const UnknownField: string := "Unknown field."
  const InvalidUuid: string := "Not a valid UUID."
  const InvalidString: string := "Not a valid string."
  const InvalidInteger: string := "Not a valid integer."
  const InvalidDateTime: string := "Not a valid datetime."
  const InvalidInput: string := "Invalid input type."

  const ImageFieldNames: set<string> := {"id", "url"}
  const PostFieldNames: set<string> := {"id", "text", "username", "image", "likes", "created_at"}
  const CommentFieldNames: set<string> := {"id", "text", "username", "post_id", "created_at"}

  function Invalid(message: string): Error {
    Error(ValidationError, message)
  }

  /** `str(messages)` for one failing field: `{'name': ['message']}`. */
  function FieldMessage(name: string, message: string): string {
    "{'" + name + "': ['" + message + "']}"
  }

  /** A marshmallow error of a field, reported under that field's name; other exceptions pass as they are. */
  function At<T>(name: string, r: Result<T>): (s: Result<T>)
    ensures r.Ok? ==> s == r
    ensures r.Err? && r.error.kind == ValidationError ==> s == Err(Invalid(FieldMessage(name, r.error.message)))
    ensures r.Err? && r.error.kind != ValidationError ==> s == r
  {
    if r.Err? && r.error.kind == ValidationError then Err(Invalid(FieldMessage(name, r.error.message))) else r
  }

  /** `fields.UUID`: a UUID as it is, a string through `uuid.UUID(s)`. */
  function LoadUuid(v: Value): (r: Result<Uuid>)
    ensures r.Ok? <==> v.VUuid? || (v.VStr? && Parse(v.s).Some?)
    ensures v.VUuid? ==> r == Ok(v.u)
    ensures v.VStr? && r.Ok? ==> Parse(v.s) == Some(r.value)
    ensures r.Err? ==> r.error == Invalid(InvalidUuid)
  {
    match v
    case VUuid(u) => Ok(u)
    case VStr(s) => if Parse(s).Some? then Ok(Parse(s).value) else Err(Invalid(InvalidUuid))
    case _ => Err(Invalid(InvalidUuid))
  }

  /** A UUID stored as its string loads back as the same UUID. */
  lemma LoadStoredUuid(u: Uuid)
    ensures LoadUuid(VStr(ToStr(u))) == Ok(u)
  {
    ParseToStr(u);
  }

  /** A field holding the string of a UUID loads as that UUID. */
  lemma StoredUuidField(r: Record, name: string, u: Uuid)
    requires name in r && r[name] == VStr(ToStr(u))
    ensures LoadUuid(r[name]) == Ok(u)
  {
    LoadStoredUuid(u);
  }

  /** `fields.String`: only a string is a string. */
  function LoadString(v: Value): (r: Result<string>)
    ensures r.Ok? <==> v.VStr?
    ensures r.Ok? ==> v == VStr(r.value)
    ensures r.Err? ==> r.error == Invalid(InvalidString)
  {
    if v.VStr? then Ok(v.s) else Err(Invalid(InvalidString))
  }

  /**
    `fields.Integer` (not strict): `int(v)` of a number, which truncates a
    Decimal or a float toward zero, or of a numeric string; a bool is refused.
  */
  function LoadInteger(v: Value, lex: Lexer): (r: Result<int>)
    ensures v.VInt? ==> r == Ok(v.i)
    ensures v.VDecimal? ==> r == Ok(TruncateToInt(v.d))
    ensures v.VFloat? ==> r == Ok(TruncateToInt(v.f))
    ensures v.VBool? ==> r == Err(Invalid(InvalidInteger))
    ensures r.Err? ==> r.error == Invalid(InvalidInteger)
  {
    match v
    case VInt(i) => Ok(i)
    case VDecimal(d) => Ok(TruncateToInt(d))
    case VFloat(f) => Ok(TruncateToInt(f))
    case VStr(s) => if lex.integer(s).Some? then Ok(lex.integer(s).value) else Err(Invalid(InvalidInteger))
    case _ => Err(Invalid(InvalidInteger))
  }

  /** marshmallow's own `DateTime` field: an ISO string, anything else refused. */
  function ParseDateTime(v: Value, lex: Lexer): (r: Result<DateTime>)
    ensures r.Ok? ==> v.VStr? && lex.dateTime(v.s) == Some(r.value)
    ensures r.Err? ==> r.error == Invalid(InvalidDateTime)
  {
    if v.VStr? && lex.dateTime(v.s).Some? then Ok(lex.dateTime(v.s).value) else Err(Invalid(InvalidDateTime))
  }

  /** The schema's datetime field, `CustomDateTimeField`. */
  function LoadDateTime(v: Value, lex: Lexer): (r: Result<DateTime>)
    ensures r == DeserializeDateTime(v, w => ParseDateTime(w, lex))
    ensures r.Err? ==> r.error == Invalid(InvalidDateTime) || r.error.kind == Unhandled
  {
    DeserializeDateTime(v, w => ParseDateTime(w, lex))
  }

  /** A field without a default: it must be present and not `None`. */
  function Required<T>(r: Record, name: string, load: Value -> Result<T>): (res: Result<T>)
    ensures name !in r ==> res == Err(Invalid(FieldMessage(name, MissingField)))
    ensures name in r && r[name] == VNone ==> res == Err(Invalid(FieldMessage(name, NullField)))
    ensures name in r && r[name] != VNone ==> res == At(name, load(r[name]))
  {
    if name !in r then Err(Invalid(FieldMessage(name, MissingField)))
    else if r[name] == VNone then Err(Invalid(FieldMessage(name, NullField)))
    else At(name, load(r[name]))
  }

  /** A field with a default other than `None`: it may be absent, never `None`. */
  function Defaulted<T>(r: Record, name: string, default: T, load: Value -> Result<T>): (res: Result<T>)
    ensures name !in r ==> res == Ok(default)
    ensures name in r && r[name] == VNone ==> res == Err(Invalid(FieldMessage(name, NullField)))
    ensures name in r && r[name] != VNone ==> res == At(name, load(r[name]))
  {
    if name !in r then Ok(default)
    else if r[name] == VNone then Err(Invalid(FieldMessage(name, NullField)))
    else At(name, load(r[name]))
  }

  /** The schema of `Image`. */
  function ValidateImage(r: Record): (res: Result<Image>)
    ensures res.Ok? ==> r.Keys == ImageFieldNames
    ensures res.Ok? ==> LoadUuid(r["id"]) == Ok(res.value.id) && r["url"] == VStr(res.value.url)
    ensures !(r.Keys <= ImageFieldNames) ==> res.Err?
    ensures res.Err? ==> res.error.kind == ValidationError
  {
    var id :- Required(r, "id", LoadUuid);
    var url :- Required(r, "url", LoadString);
    if r.Keys <= ImageFieldNames then Ok(Image(id, url)) else Err(Invalid(UnknownField))
  }

  /**
    `image: Optional[Image] = None`: a nested schema that may be absent or
    `None`; a nested error is reported under `image`.
  */
  function ImageField(r: Record): (res: Result<Option<Image>>)
    ensures ("image" !in r || r["image"] == VNone) ==> res == Ok(None)
    ensures res.Ok? && res.value.Some? ==> r["image"].VDict? && ValidateImage(r["image"].entries) == Ok(res.value.value)
    ensures res.Err? ==> res.error.kind == ValidationError
  {
    if "image" !in r || r["image"] == VNone then Ok(None)
    else match r["image"]
      case VDict(m) =>
        (match ValidateImage(m)
         case Ok(i) => Ok(Some(i))
         case Err(e) => Err(Invalid("{'image': " + e.message + "}")))
      case _ => Err(Invalid("{'image': {'_schema': ['" + InvalidInput + "']}}"))
  }

  /**
    The schema of `Post`, then the dataclass constructor with its
    `__post_init__` guard; `now` is what the `created_at` default factory
    reads when the field is absent.
  */
  function ValidatePost(r: Record, now: DateTime, lex: Lexer): (res: Result<Post>)
    ensures res.Ok? ==> ImageMatches(res.value)
    ensures res.Ok? ==> r.Keys <= PostFieldNames && {"id", "text", "username"} <= r.Keys
    ensures res.Ok? ==> LoadUuid(r["id"]) == Ok(res.value.id)
    ensures res.Ok? ==> r["text"] == VStr(res.value.text) && r["username"] == VStr(res.value.username)
    ensures res.Ok? && "likes" !in r ==> res.value.likes == 0
    ensures res.Ok? && "created_at" !in r ==> res.value.createdAt == now
    ensures res.Ok? && ("image" !in r || r["image"] == VNone) ==> res.value.image == None
    ensures !(r.Keys <= PostFieldNames) ==> res.Err?
    ensures res.Err? ==> res.error.kind == ValidationError || res.error.kind == Unhandled
  {
    var id :- Required(r, "id", LoadUuid);
    var text :- Required(r, "text", LoadString);
    var username :- Required(r, "username", LoadString);
    var image :- ImageField(r);
    var likes :- Defaulted(r, "likes", 0, v => LoadInteger(v, lex));
    var createdAt :- Defaulted(r, "created_at", now, v => LoadDateTime(v, lex));
    if r.Keys <= PostFieldNames then NewPost(id, text, username, createdAt, image, likes)
    else Err(Invalid(UnknownField))
  }

  /** The schema of `Comment`. */
  function ValidateComment(r: Record, now: DateTime, lex: Lexer): (res: Result<Comment>)
    ensures res.Ok? ==> r.Keys <= CommentFieldNames && {"id", "text", "username", "post_id"} <= r.Keys
    ensures res.Ok? ==> LoadUuid(r["id"]) == Ok(res.value.id) && LoadUuid(r["post_id"]) == Ok(res.value.postId)
    ensures res.Ok? ==> r["text"] == VStr(res.value.text) && r["username"] == VStr(res.value.username)
    ensures res.Ok? && "created_at" !in r ==> res.value.createdAt == now
    ensures !(r.Keys <= CommentFieldNames) ==> res.Err?
    ensures res.Err? ==> res.error.kind == ValidationError || res.error.kind == Unhandled
  {
    var id :- Required(r, "id", LoadUuid);
    var text :- Required(r, "text", LoadString);
    var username :- Required(r, "username", LoadString);
    var postId :- Required(r, "post_id", LoadUuid);
    var createdAt :- Defaulted(r, "created_at", now, v => LoadDateTime(v, lex));
    if r.Keys <= CommentFieldNames then Ok(Comment(id, text, username, postId, createdAt))
    else Err(Invalid(UnknownField))
  }

  /**
    The converse of what `ValidatePost` promises: an item with only declared
    keys whose every field loads is accepted, as the post those fields make.
  */
  lemma ValidatePostAccepts(r: Record, now: DateTime, lex: Lexer, p: Post)
    requires r.Keys <= PostFieldNames && ImageMatches(p)
    requires "id" in r && LoadUuid(r["id"]) == Ok(p.id)
    requires "text" in r && r["text"] == VStr(p.text) && "username" in r && r["username"] == VStr(p.username)
    requires ImageField(r) == Ok(p.image)
    requires ("likes" !in r && p.likes == 0) || ("likes" in r && r["likes"] != VNone && LoadInteger(r["likes"], lex) == Ok(p.likes))
    requires ("created_at" !in r && p.createdAt == now)
          || ("created_at" in r && r["created_at"] != VNone && LoadDateTime(r["created_at"], lex) == Ok(p.createdAt))
    ensures ValidatePost(r, now, lex) == Ok(p)
  {
    assert Required(r, "id", LoadUuid) == Ok(p.id);
    assert Defaulted(r, "likes", 0, v => LoadInteger(v, lex)) == Ok(p.likes);
    assert Defaulted(r, "created_at", now, v => LoadDateTime(v, lex)) == Ok(p.createdAt);
  }

  /**
    The converse of what `ValidateComment` promises: an item with only
    declared keys whose every field loads is accepted, as the comment those
    fields make.
  */
  lemma ValidateCommentAccepts(r: Record, now: DateTime, lex: Lexer, c: Comment)
    requires r.Keys <= CommentFieldNames
    requires "id" in r && LoadUuid(r["id"]) == Ok(c.id) && "post_id" in r && LoadUuid(r["post_id"]) == Ok(c.postId)
    requires "text" in r && r["text"] == VStr(c.text) && "username" in r && r["username"] == VStr(c.username)
    requires ("created_at" !in r && c.createdAt == now)
          || ("created_at" in r && r["created_at"] != VNone && LoadDateTime(r["created_at"], lex) == Ok(c.createdAt))
    ensures ValidateComment(r, now, lex) == Ok(c)
  {
    assert Required(r, "id", LoadUuid) == Ok(c.id);
    assert Required(r, "post_id", LoadUuid) == Ok(c.postId);
    assert Defaulted(r, "created_at", now, v => LoadDateTime(v, lex)) == Ok(c.createdAt);
  }

  /** An image's storage item loads back as the same image. */
  lemma ImageRoundTrip(i: Image)
    ensures ValidateImage(ImageRecord(i)) == Ok(i)
  {
    LoadStoredUuid(i.id);
  }

  /**
    Reading a stored post back rebuilds it through the dataclass
    constructor, with the creation time cut to the whole second the
    storage keeps.
  */
  lemma StoredPostLoads(p: Post, now: DateTime, lex: Lexer)
    requires InRange(p.createdAt)
    ensures ValidatePost(PostRecord(p), now, lex) == NewPost(p.id, p.text, p.username, TruncateToSecond(p.createdAt), p.image, p.likes)
  {
    StoredPostScalars(p, now, lex);
    StoredPostImage(p);
  }

  /** The scalar fields of a stored post each load back, the creation time cut to the whole second. */
  lemma StoredPostScalars(p: Post, now: DateTime, lex: Lexer)
    requires InRange(p.createdAt)
    ensures var r := PostRecord(p);
      r.Keys <= PostFieldNames
      && Required(r, "id", LoadUuid) == Ok(p.id)
      && Required(r, "text", LoadString) == Ok(p.text)
      && Required(r, "username", LoadString) == Ok(p.username)
      && Defaulted(r, "likes", 0, v => LoadInteger(v, lex)) == Ok(p.likes)
      && Defaulted(r, "created_at", now, v => LoadDateTime(v, lex)) == Ok(TruncateToSecond(p.createdAt))
  {
    StoredPostStrings(p);
    StoredPostDefaults(p, now, lex);
  }

  /** The id, text and username of a stored post load back. */
  lemma StoredPostStrings(p: Post)
    ensures var r := PostRecord(p);
      r.Keys <= PostFieldNames
      && Required(r, "id", LoadUuid) == Ok(p.id)
      && Required(r, "text", LoadString) == Ok(p.text)
      && Required(r, "username", LoadString) == Ok(p.username)
  {
    StoredPostEntries(p);
    StoredUuidField(PostRecord(p), "id", p.id);
  }

  /** The likes of a stored post load back, and its creation time cut to the whole second. */
  lemma StoredPostDefaults(p: Post, now: DateTime, lex: Lexer)
    requires InRange(p.createdAt)
    ensures var r := PostRecord(p);
      && Defaulted(r, "likes", 0, v => LoadInteger(v, lex)) == Ok(p.likes)
      && Defaulted(r, "created_at", now, v => LoadDateTime(v, lex)) == Ok(TruncateToSecond(p.createdAt))
  {
    StoredPostEntries(p);
    StoredDateTimeRoundTrip(p.createdAt, w => ParseDateTime(w, lex));
  }

  /** The entries of a stored post other than its image. */
  lemma StoredPostEntries(p: Post)
    ensures var r := PostRecord(p);
      && r.Keys <= PostFieldNames
      && "id" in r && r["id"] == VStr(ToStr(p.id))
      && "text" in r && r["text"] == VStr(p.text)
      && "username" in r && r["username"] == VStr(p.username)
      && "likes" in r && r["likes"] == VInt(p.likes)
      && "created_at" in r && r["created_at"] == StorageValue(VDateTime(p.createdAt))
  {
  }

  /** The image of a stored post loads back, or its absence does. */
  lemma StoredPostImage(p: Post)
    ensures ImageField(PostRecord(p)) == Ok(p.image)
  {
    StoredImageEntry(p);
    if p.image.Some? {
      StoredImageField(PostRecord(p), p.image.value);
    }
  }

  /** An `image` field holding an image's own item loads as that image. */
  lemma StoredImageField(r: Record, i: Image)
    requires "image" in r && r["image"] == VDict(ImageRecord(i))
    ensures ImageField(r) == Ok(Some(i))
  {
    ImageRoundTrip(i);
  }

  /** The `image` entry of a stored post: absent without an image, the image's own item with one. */
  lemma StoredImageEntry(p: Post)
    ensures var r := PostRecord(p);
      && ("image" in r <==> p.image.Some?)
      && (p.image.Some? ==> r["image"] == VDict(ImageRecord(p.image.value)))
  {
  }

  /** A stored post loads back as itself, its creation time cut to the whole second. */
  lemma PostRoundTrip(p: Post, now: DateTime, lex: Lexer)
    requires ImageMatches(p) && InRange(p.createdAt)
    ensures ValidatePost(PostRecord(p), now, lex) == Ok(p.(createdAt := TruncateToSecond(p.createdAt)))
  {
    StoredPostLoads(p, now, lex);
  }

  /**
    A post whose image carries another id, which `post.image = ...` can make
    without any check, is stored; reading it back fails the `__post_init__`
    guard.
  */
  lemma MismatchedImageSurfaces(p: Post, now: DateTime, lex: Lexer)
    requires !ImageMatches(p) && InRange(p.createdAt)
    ensures ValidatePost(PostRecord(p), now, lex) == Err(ImageMismatch)
  {
    StoredPostLoads(p, now, lex);
  }

  /** A stored comment loads back as itself, its creation time cut to the whole second. */
  lemma CommentRoundTrip(c: Comment, now: DateTime, lex: Lexer)
    requires InRange(c.createdAt)
    ensures ValidateComment(CommentRecord(c), now, lex) == Ok(c.(createdAt := TruncateToSecond(c.createdAt)))
  {
    var r := CommentRecord(c);
    CommentRecordEntries(c);
    StoredUuidField(r, "id", c.id);
    StoredUuidField(r, "post_id", c.postId);
    StoredDateTimeRoundTrip(c.createdAt, w => ParseDateTime(w, lex));
    assert r["created_at"] == StorageValue(VDateTime(c.createdAt));
    ValidateCommentAccepts(r, now, lex, c.(createdAt := TruncateToSecond(c.createdAt)));
  }
}
