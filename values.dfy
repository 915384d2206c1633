/**
  The untyped values that flow between the layers: Python objects as they
  appear in the dicts handed to storage, to the JSON encoder and to the
  validator, and the JSON documents the encoder produces.
*/
module Values {
  import opened Uuids
  import opened Time

  /** A Python value of the kinds the core handles. */
  datatype Value =
    | VNone
    | VBool(b: bool)
    | VInt(i: int)
    | VFloat(f: Decimal)       // a `float`, kept at microsecond precision
    | VDecimal(d: Decimal)     // a `decimal.Decimal`
    | VStr(s: string)
    | VUuid(u: Uuid)
    | VDateTime(t: DateTime)
    | VDate(day: Date)
    | VDict(entries: map<string, Value>)

  /** A string-keyed dict: a stored item, a request payload. */
  type Record = map<string, Value>

  /** The `(name, value)` pairs `dataclasses.asdict` hands to a `dict_factory`, in field order. */
  type Fields = seq<(string, Value)>

  /** No name occurs twice, as with the fields of one dataclass. */
  predicate DistinctNames(data: Fields) {
    forall i, j :: 0 <= i < j < |data| ==> data[i].0 != data[j].0
  }

  /** A JSON document, as `json.dumps` writes and `json.loads` reads it. */
  datatype Json =
    | JNull
    | JBool(b: bool)
    | JInt(i: int)
    | JFloat(f: Decimal)
    | JStr(s: string)
    | JObject(members: map<string, Json>)
}
