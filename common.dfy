/**
  kaizen_blog_api/common.py: reading one record by id through a table query,
  and deriving the item to insert from a request dataclass.
*/
module Common {
  import opened Options
  import opened Errors
  import opened Uuids
  import opened Values
  import opened Serializers

  /** `conditions.Key(attribute).eq(value)`. */
  datatype KeyCondition = KeyEquals(attribute: string, value: string)

  /** What `table.query` answers: `ResponseMetadata.HTTPStatusCode`, `Count` and `Items`. */
  datatype QueryResult = QueryResult(httpStatusCode: int, count: int, items: seq<Record>)

  /** The key condition of a lookup by id: `Key("id").eq(str(record_id))`. */
  function QueryKey(id: Uuid): (c: KeyCondition)
    ensures c.attribute == "id" && Parse(c.value) == Some(id)
  {
    ParseToStr(id);
    KeyEquals("id", ToStr(id))
  }

  const RetrievalFailed: string := "error occurred when retrieving post details"

  function NotFoundMessage(id: Uuid): string {
    "Record with id " + ToStr(id) + " was not found"
  }

  /**
    `get_record(record_id, dataclass, table)`: the status of the query is
    checked first, then the row count, and only then is the first row
    validated into the dataclass (`validate`). A positive count with no rows
    fails at the index `Items[0]`.
  */
  function GetRecord<T>(id: Uuid, query: KeyCondition -> QueryResult, validate: Record -> Result<T>): (r: Result<T>)
    ensures var q := query(QueryKey(id));
      && (!(200 <= q.httpStatusCode < 300) ==> r == Err(Error(RepositoryError, RetrievalFailed)))
      && (200 <= q.httpStatusCode < 300 && q.count == 0 ==> r == Err(Error(RecordNotFound, NotFoundMessage(id))))
      && (200 <= q.httpStatusCode < 300 && q.count != 0 && |q.items| == 0 ==>
            r == Err(Error(Unhandled, "list index out of range")))
      && (200 <= q.httpStatusCode < 300 && q.count != 0 && |q.items| > 0 ==> r == validate(q.items[0]))
  {
    var q := query(QueryKey(id));
    if !(200 <= q.httpStatusCode < 300) then Err(Error(RepositoryError, RetrievalFailed))
    else if q.count == 0 then Err(Error(RecordNotFound, NotFoundMessage(id)))
    else if |q.items| == 0 then Err(Error(Unhandled, "list index out of range"))
    else validate(q.items[0])
  }

  /** The status check wins over the count check: a failed query that found nothing is a repository error. */
  lemma StatusBeforeCount<T>(id: Uuid, query: KeyCondition -> QueryResult, validate: Record -> Result<T>)
    requires !(200 <= query(QueryKey(id)).httpStatusCode < 300) && query(QueryKey(id)).count == 0
    ensures GetRecord(id, query, validate).Err? && GetRecord(id, query, validate).error.kind == RepositoryError
  {
  }

  /** `{name: value for name, value in d.items() if value is not None}`. */
  function WithoutNone(d: Record): (r: Record)
    ensures r.Keys <= d.Keys
    ensures forall k :: k in d ==> (k in r <==> d[k] != VNone)
    ensures forall k :: k in r ==> r[k] == d[k]
  {
    map k | k in d && d[k] != VNone :: d[k]
  }

  /**
    `request_to_insert(request)`: the request's fields through
    `dict_factory`, `None` values dropped, then `data["id"] = uuid.uuid4()`
    with `freshId` the id drawn. The id is the UUID object itself, not its
    string.
  */
  function RequestToInsert(fields: Fields, freshId: Uuid): (r: Record)
    ensures "id" in r && r["id"] == VUuid(freshId)
    ensures r.Keys == DictFactory(fields).Keys + {"id"}
    ensures forall k :: k in r && k != "id" ==> r[k] == DictFactory(fields)[k] && r[k] != VNone
  {
    var data := WithoutNone(DictFactory(fields));
    data["id" := VUuid(freshId)]
  }

  /** The second `None` filter changes nothing: `dict_factory` has already dropped them. */
  lemma NoneAlreadyDropped(fields: Fields)
    ensures WithoutNone(DictFactory(fields)) == DictFactory(fields)
  {
    var d := DictFactory(fields);
    assert forall k :: k in d ==> d[k] != VNone by {
      forall k | k in d ensures d[k] != VNone {
        assert IsStorageForm(d[k]);
      }
    }
  }

  /** The request's own fields other than `id`, and only the non-`None` ones, are inserted. */
  lemma RequestToInsertFields(fields: Fields, freshId: Uuid, i: int)
    requires DistinctNames(fields) && 0 <= i < |fields| && fields[i].0 != "id"
    ensures fields[i].1 == VNone ==> fields[i].0 !in RequestToInsert(fields, freshId)
    ensures fields[i].1 != VNone ==>
      fields[i].0 in RequestToInsert(fields, freshId) && RequestToInsert(fields, freshId)[fields[i].0] == StorageValue(fields[i].1)
  {
    DictFactoryAt(fields, i);
  }
}
