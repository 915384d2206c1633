/**
  The entities of kaizen_blog_api/post/entities.py and
  kaizen_blog_api/comment/entities.py, the guard of `Post.__post_init__`,
  and the storage items `asdict(entity, dict_factory=dict_factory)` makes of
  them.
*/
module Entities {
  import opened Options
  import opened Errors
  import opened Uuids
  import opened Time
  import opened Values
  import opened Serializers

  datatype Image = Image(id: Uuid, url: string)

  datatype Post = Post(id: Uuid, text: string, username: string, image: Option<Image>, likes: int, createdAt: DateTime)

  datatype Comment = Comment(id: Uuid, text: string, username: string, postId: Uuid, createdAt: DateTime)

  /** The invariant `__post_init__` enforces: an attached image carries the post's id. */
  predicate ImageMatches(p: Post) {
    p.image.Some? ==> p.image.value.id == p.id
  }

  const ImageMismatch: Error := Error(ValidationError, "Image and post should have same ID")

  /**
    `Post(id, text, username, image=None, likes=0, created_at=now)`: the
    dataclass constructor followed by `__post_init__`, which refuses an image
    whose id differs from the post's. `now` is the `datetime.utcnow()` the
    default factory would read.
  */
  function NewPost(id: Uuid, text: string, username: string, now: DateTime,
                   image: Option<Image> := None, likes: int := 0): (r: Result<Post>)
    ensures r.Ok? <==> image.None? || image.value.id == id
    ensures r.Ok? ==> r.value == Post(id, text, username, image, likes, now) && ImageMatches(r.value)
    ensures r.Err? ==> r.error == ImageMismatch
  {
    if image.Some? && image.value.id != id then Err(ImageMismatch)
    else Ok(Post(id, text, username, image, likes, now))
  }

  /** `post.image = image`: a plain field assignment, which `__post_init__` does not see. */
  function SetImage(p: Post, image: Image): (q: Post)
    ensures q.image == Some(image) && q.(image := p.image) == p
    ensures ImageMatches(q) <==> image.id == p.id
  {
    p.(image := Some(image))
  }

  /** The fields `asdict` lists for an image. */
  function ImageFields(i: Image): Fields {
    [("id", VUuid(i.id)), ("url", VStr(i.url))]
  }

  /** The fields `asdict` lists for a post; a nested image is itself passed through `dict_factory`. */
  function PostFields(p: Post): Fields {
    [ ("id", VUuid(p.id)), ("text", VStr(p.text)), ("username", VStr(p.username)),
      ("image", if p.image.Some? then VDict(ImageRecord(p.image.value)) else VNone),
      ("likes", VInt(p.likes)), ("created_at", VDateTime(p.createdAt)) ]
  }

  /** The fields `asdict` lists for a comment. */
  function CommentFields(c: Comment): Fields {
    [ ("id", VUuid(c.id)), ("text", VStr(c.text)), ("username", VStr(c.username)),
      ("post_id", VUuid(c.postId)), ("created_at", VDateTime(c.createdAt)) ]
  }

  /** The storage item of an image: both fields, the id as its string. */
  function ImageRecord(i: Image): (r: Record)
    ensures r == map["id" := VStr(ToStr(i.id)), "url" := VStr(i.url)]
  {
    var f := ImageFields(i);
    assert f == [] + [f[0]] + [f[1]];
    DictFactoryAppend([], f[0]);
    DictFactoryAppend([f[0]], f[1]);
    DictFactory(f)
  }

  /**
    The storage item of a post: ids as strings, the creation time as its
    timestamp, `likes` as the integer it is, the image (when there is one)
    as a dict of strings, and no `image` key at all when there is none.
  */
  function PostRecord(p: Post): (r: Record)
    ensures p.image.None? ==> r == map["id" := VStr(ToStr(p.id)), "text" := VStr(p.text), "username" := VStr(p.username),
                                       "likes" := VInt(p.likes), "created_at" := VDecimal(Timestamp(p.createdAt))]
    ensures p.image.Some? ==> r == map["id" := VStr(ToStr(p.id)), "text" := VStr(p.text), "username" := VStr(p.username),
                                       "image" := VDict(ImageRecord(p.image.value)),
                                       "likes" := VInt(p.likes), "created_at" := VDecimal(Timestamp(p.createdAt))]
  {
    if p.image.Some? then PostItemWithImage(p); DictFactory(PostFields(p))
    else PostItemPlain(p); DictFactory(PostFields(p))
  }

  /** `dict_factory` over the fields of a post without an image: the `None` is skipped. */
  lemma PostItemPlain(p: Post)
    requires p.image.None?
    ensures DictFactory(PostFields(p)) == map["id" := VStr(ToStr(p.id)), "text" := VStr(p.text), "username" := VStr(p.username),
                                              "likes" := VInt(p.likes), "created_at" := VDecimal(Timestamp(p.createdAt))]
  {
    DictFactorySix(("id", VUuid(p.id)), ("text", VStr(p.text)), ("username", VStr(p.username)),
                   ("image", VNone), ("likes", VInt(p.likes)), ("created_at", VDateTime(p.createdAt)));
  }

  /** `dict_factory` over the fields of a post with an image: the image's own item is kept as it is. */
  lemma PostItemWithImage(p: Post)
    requires p.image.Some?
    ensures DictFactory(PostFields(p)) == map["id" := VStr(ToStr(p.id)), "text" := VStr(p.text), "username" := VStr(p.username),
                                              "image" := VDict(ImageRecord(p.image.value)),
                                              "likes" := VInt(p.likes), "created_at" := VDecimal(Timestamp(p.createdAt))]
  {
    var image := VDict(ImageRecord(p.image.value));
    assert IsStorageForm(image);
    DictFactorySix(("id", VUuid(p.id)), ("text", VStr(p.text)), ("username", VStr(p.username)),
                   ("image", image), ("likes", VInt(p.likes)), ("created_at", VDateTime(p.createdAt)));
  }

  /** The storage item of a comment: both ids as strings, the creation time as its timestamp. */
  function CommentRecord(c: Comment): (r: Record)
    ensures r == map["id" := VStr(ToStr(c.id)), "text" := VStr(c.text), "username" := VStr(c.username),
                     "post_id" := VStr(ToStr(c.postId)), "created_at" := VDecimal(Timestamp(c.createdAt))]
  {
    DictFactoryFive(("id", VUuid(c.id)), ("text", VStr(c.text)), ("username", VStr(c.username)),
                    ("post_id", VUuid(c.postId)), ("created_at", VDateTime(c.createdAt)));
    DictFactory(CommentFields(c))
  }

  /** The entries of a comment's storage item, one by one. */
  lemma CommentRecordEntries(c: Comment)
    ensures var r := CommentRecord(c);
      && r.Keys == {"id", "text", "username", "post_id", "created_at"}
      && r["id"] == VStr(ToStr(c.id)) && r["post_id"] == VStr(ToStr(c.postId))
      && r["text"] == VStr(c.text) && r["username"] == VStr(c.username)
      && r["created_at"] == VDecimal(Timestamp(c.createdAt))
  {
  }
}
