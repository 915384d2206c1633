/**
  kaizen_blog_api/events.py: the messages the comment service publishes,
  and the one it builds when a comment is deleted.
*/
module Events {
  import opened Uuids
  import opened Time
  import opened Values
  import opened Serializers
  import opened Entities

  /** An event: its id, its name and its JSON payload. */
  datatype Event = Event(id: string, name: string, payload: Json)

  datatype EventName = CommentCreated | CommentDeleted {
    /** `str(name)`, which is the member's value. */
    function Value(): (s: string)
      ensures s == "comment.created" <==> this == CommentCreated
      ensures s == "comment.deleted" <==> this == CommentDeleted
    {
      match this
      case CommentCreated => "comment.created"
      case CommentDeleted => "comment.deleted"
    }
  }

  /** Two names never share a value. */
  lemma EventNameValuesDistinct(a: EventName, b: EventName)
    ensures a.Value() == b.Value() <==> a == b
  {
  }

  /**
    `CommentDeletedEvent(comment)`: the comment's id as a string, the name
    `comment.deleted`, and the comment's storage item encoded as JSON.
  */
  function CommentDeletedEvent(c: Comment): (e: Event)
    ensures e.id == ToStr(c.id) && e.name == "comment.deleted"
    ensures e.payload == ToJson(VDict(CommentRecord(c)))
  {
    Event(ToStr(c.id), CommentDeleted.Value(), ToJson(VDict(CommentRecord(c))))
  }

  /**
    Read back, the payload carries every field of the comment: the ids as
    their strings, the text and the username as they are, and the
    creation time as a float of its timestamp.
  */
  lemma CommentDeletedPayload(c: Comment)
    ensures FromJson(CommentDeletedEvent(c).payload) ==
      VDict(map["id" := VStr(ToStr(c.id)), "text" := VStr(c.text), "username" := VStr(c.username),
                "post_id" := VStr(ToStr(c.postId)), "created_at" := VFloat(Timestamp(c.createdAt))])
  {
    var r := CommentRecord(c);
    var back := FromJson(ToJson(VDict(r)));
    assert back.VDict? && back.entries.Keys == r.Keys;
    var expected := map["id" := VStr(ToStr(c.id)), "text" := VStr(c.text), "username" := VStr(c.username),
                        "post_id" := VStr(ToStr(c.postId)), "created_at" := VFloat(Timestamp(c.createdAt))];
    forall k | k in r ensures back.entries[k] == expected[k] {
      assert back.entries[k] == FromJson(ToJson(r[k]));
      if k == "created_at" {
        LoadsDumpsDecimal(Timestamp(c.createdAt));
      } else {
        assert r[k] == expected[k] && r[k].VStr?;
      }
    }
    assert back.entries == expected;
  }
}
