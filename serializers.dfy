/**
  The serialisation rules of kaizen_blog_api/serializers.py: `dict_factory`,
  which flattens an entity into a storage item, `JSONEncoder.default`, which
  maps values for response bodies and events, and the two custom
  marshmallow fields that read stored timestamps back.
*/
module Serializers {
  import opened Errors
  import opened Uuids
  import opened Time
  import opened Values

  /** A value Python's `json` module encodes without calling `default`. */
  predicate IsJsonNative(v: Value) {
    match v
    case VNone => true
    case VBool(_) => true
    case VInt(_) => true
    case VFloat(_) => true
    case VStr(_) => true
    case VDict(m) => forall k :: k in m ==> IsJsonNative(m[k])
    case _ => false
  }

  /** A value as `dict_factory` leaves it: no UUID or datetime at the top, no UUID inside a dict. */
  predicate IsStorageForm(v: Value) {
    match v
    case VNone => false
    case VUuid(_) => false
    case VDateTime(_) => false
    case VDict(m) => forall k :: k in m ==> !m[k].VUuid?
    case _ => true
  }

  /**
    The value `dict_factory` stores for one field: UUID entries of a dict
    become strings, a UUID becomes its string, a datetime its timestamp,
    anything else stays.
  */
  function StorageValue(v: Value): (r: Value)
    requires v != VNone
    ensures IsStorageForm(r)
    ensures IsStorageForm(v) ==> r == v
    ensures v.VDict? ==> r.VDict? && r.entries.Keys == v.entries.Keys
    ensures v.VDict? ==> forall k :: k in v.entries && !v.entries[k].VUuid? ==> r.entries[k] == v.entries[k]
    ensures v.VDict? ==> forall k :: k in v.entries && v.entries[k].VUuid? ==> r.entries[k] == VStr(ToStr(v.entries[k].u))
    ensures v.VUuid? ==> r == VStr(ToStr(v.u))
    ensures v.VDateTime? ==> r == VDecimal(Timestamp(v.t))
  {
    match v
    case VDict(m) => VDict(map k | k in m :: if m[k].VUuid? then VStr(ToStr(m[k].u)) else m[k])
    case VUuid(u) => VStr(ToStr(u))
    case VDateTime(t) => VDecimal(Timestamp(t))
    case _ => v
  }

  /** Flattening twice is flattening once: what `asdict` already flattened a nested call leaves alone. */
  lemma StorageValueIdempotent(v: Value)
    requires v != VNone
    ensures StorageValue(StorageValue(v)) == StorageValue(v)
  {
  }

  /**
    `dict_factory(data)`: the dict comprehension over `(key, value)` pairs
    that skips `None` values, later pairs overwriting earlier ones.
  */
  function DictFactory(data: Fields): (r: Record)
    ensures forall k :: k in r ==> IsStorageForm(r[k])
    decreases |data|
  {
    if |data| == 0 then map[] else Put(DictFactory(data[..|data| - 1]), data[|data| - 1])
  }

  /** One pair of the comprehension: skipped when its value is `None`, stored (overwriting) otherwise. */
  function Put(m: Record, pair: (string, Value)): Record {
    if pair.1 == VNone then m else m[pair.0 := StorageValue(pair.1)]
  }

  /** Every key of the dict names a field whose value is not `None`, and every such field has its key. */
  lemma {:induction false} DictFactoryKeys(data: Fields, k: string)
    ensures k in DictFactory(data) <==> exists i :: 0 <= i < |data| && data[i].0 == k && data[i].1 != VNone
    decreases |data|
  {
    if |data| > 0 {
      var init := data[..|data| - 1];
      DictFactoryKeys(init, k);
      if k in DictFactory(init) {
        var i :| 0 <= i < |init| && init[i].0 == k && init[i].1 != VNone;
        assert data[i] == init[i];
      }
      if exists i :: 0 <= i < |data| && data[i].0 == k && data[i].1 != VNone {
        var i :| 0 <= i < |data| && data[i].0 == k && data[i].1 != VNone;
        if i < |data| - 1 {
          assert init[i] == data[i];
        }
      }
    }
  }

  /**
    With distinct names, a field whose value is `None` is absent and every
    other field is stored as `StorageValue` of its value.
  */
  lemma {:induction false} DictFactoryAt(data: Fields, i: int)
    requires DistinctNames(data) && 0 <= i < |data|
    ensures data[i].1 == VNone ==> data[i].0 !in DictFactory(data)
    ensures data[i].1 != VNone ==> data[i].0 in DictFactory(data) && DictFactory(data)[data[i].0] == StorageValue(data[i].1)
    decreases |data|
  {
    var init := data[..|data| - 1];
    if i < |data| - 1 {
      assert init[i] == data[i];
      DictFactoryAt(init, i);
    } else {
      DictFactoryKeys(init, data[i].0);
      assert forall j :: 0 <= j < |init| ==> init[j] == data[j];
    }
  }

  /** One more pair: the comprehension's last step. */
  lemma DictFactoryAppend(data: Fields, pair: (string, Value))
    ensures DictFactory(data + [pair]) == Put(DictFactory(data), pair)
  {
    assert (data + [pair])[..|data|] == data;
  }

  /** The comprehension over three pairs, step by step. */
  lemma DictFactoryThree(a: (string, Value), b: (string, Value), c: (string, Value))
    ensures DictFactory([a, b, c]) == Put(Put(Put(map[], a), b), c)
  {
    assert [a][..0] == [];
    assert DictFactory([a]) == Put(map[], a);
    assert [a, b][..1] == [a];
    assert DictFactory([a, b]) == Put(DictFactory([a]), b);
    assert [a, b, c][..2] == [a, b];
  }

  /** The comprehension over five pairs, step by step. */
  lemma DictFactoryFive(a: (string, Value), b: (string, Value), c: (string, Value), d: (string, Value), e: (string, Value))
    ensures DictFactory([a, b, c, d, e]) == Put(Put(Put(Put(Put(map[], a), b), c), d), e)
  {
    DictFactoryThree(a, b, c);
    assert [a, b, c, d][..3] == [a, b, c];
    assert DictFactory([a, b, c, d]) == Put(DictFactory([a, b, c]), d);
    assert [a, b, c, d, e][..4] == [a, b, c, d];
  }

  /** The comprehension over six pairs, step by step. */
  lemma DictFactorySix(a: (string, Value), b: (string, Value), c: (string, Value), d: (string, Value), e: (string, Value),
                       g: (string, Value))
    ensures DictFactory([a, b, c, d, e, g]) == Put(Put(Put(Put(Put(Put(map[], a), b), c), d), e), g)
  {
    DictFactoryFive(a, b, c, d, e);
    assert [a, b, c, d, e, g][..5] == [a, b, c, d, e];
  }

  /** The name Python reports for the type of a value. */
  function TypeName(v: Value): string {
    match v
    case VNone => "NoneType"
    case VBool(_) => "bool"
    case VInt(_) => "int"
    case VFloat(_) => "float"
    case VDecimal(_) => "Decimal"
    case VStr(_) => "str"
    case VUuid(_) => "UUID"
    case VDateTime(_) => "datetime"
    case VDate(_) => "date"
    case VDict(_) => "dict"
  }

  /**
    `JSONEncoder.default(o)`: a UUID becomes its string, a datetime or a date
    its ISO form, a Decimal a float; for anything else the base encoder
    raises `TypeError`. The result is always something `json` encodes
    natively, so the encoder never calls `default` twice for one value.
  */
  function Default(o: Value): (r: Result<Value>)
    ensures r.Ok? <==> o.VUuid? || o.VDateTime? || o.VDate? || o.VDecimal?
    ensures r.Ok? ==> IsJsonNative(r.value) && !r.value.VDict?
    ensures o.VUuid? ==> r == Ok(VStr(ToStr(o.u)))
    ensures o.VDateTime? ==> r == Ok(VStr(IsoDateTime(o.t)))
    ensures o.VDate? ==> r == Ok(VStr(IsoDate(o.day)))
    ensures o.VDecimal? ==> r == Ok(VFloat(o.d))
    ensures r.Err? ==> r.error == Error(Unhandled, "Object of type " + TypeName(o) + " is not JSON serializable")
  {
    match o
    case VUuid(u) => Ok(VStr(ToStr(u)))
    case VDateTime(t) => Ok(VStr(IsoDateTime(t)))
    case VDate(d) => Ok(VStr(IsoDate(d)))
    case VDecimal(d) => Ok(VFloat(d))
    case _ => Err(Error(Unhandled, "Object of type " + TypeName(o) + " is not JSON serializable"))
  }

  /** `json.dumps(v, cls=JSONEncoder)`, as the document it writes. */
  function ToJson(v: Value): Json {
    match v
    case VNone => JNull
    case VBool(b) => JBool(b)
    case VInt(i) => JInt(i)
    case VFloat(f) => JFloat(f)
    case VStr(s) => JStr(s)
    case VDict(m) => JObject(map k | k in m :: ToJson(m[k]))
    case _ =>
      match Default(v).value
      case VStr(s) => JStr(s)
      case VFloat(f) => JFloat(f)
  }

  /** `json.loads`, from the document to Python values. */
  function FromJson(j: Json): Value {
    match j
    case JNull => VNone
    case JBool(b) => VBool(b)
    case JInt(i) => VInt(i)
    case JFloat(f) => VFloat(f)
    case JStr(s) => VStr(s)
    case JObject(m) => VDict(map k | k in m :: FromJson(m[k]))
  }

  /** Loading what was dumped gives back every natively encoded value. */
  lemma {:induction false} LoadsDumps(v: Value)
    requires IsJsonNative(v)
    ensures FromJson(ToJson(v)) == v
  {
    match v
    case VDict(m) =>
      forall k | k in m ensures FromJson(ToJson(m[k])) == m[k] {
        LoadsDumps(m[k]);
      }
      var back := FromJson(ToJson(v));
      assert back.VDict? && back.entries == m;
    case _ =>
  }

  /** A Decimal comes back from JSON as a float of the same value. */
  lemma LoadsDumpsDecimal(d: Decimal)
    ensures FromJson(ToJson(VDecimal(d))) == VFloat(d)
  {
  }

  /**
    `CustomDateTimeField._deserialize`: a Decimal goes through
    `datetime.fromtimestamp(int(value))`, a datetime is returned as it is,
    and anything else goes to marshmallow's own `DateTime` field (`fallback`).
  */
  function DeserializeDateTime(value: Value, fallback: Value -> Result<DateTime>): (r: Result<DateTime>)
    ensures value.VDateTime? ==> r == Ok(value.t)
    ensures value.VDecimal? ==> r == FromWholeSeconds(value.d)
    ensures !value.VDateTime? && !value.VDecimal? ==> r == fallback(value)
  {
    match value
    case VDecimal(d) => FromWholeSeconds(d)
    case VDateTime(t) => Ok(t)
    case _ => fallback(value)
  }

  /**
    Storing a datetime and reading it back gives it truncated to a whole
    second (toward the epoch), and only datetimes on a whole second come
    back unchanged.
  */
  lemma StoredDateTimeRoundTrip(t: DateTime, fallback: Value -> Result<DateTime>)
    requires InRange(t)
    ensures DeserializeDateTime(StorageValue(VDateTime(t)), fallback) == Ok(TruncateToSecond(t))
    ensures DeserializeDateTime(StorageValue(VDateTime(t)), fallback) == Ok(t) <==> t.micros % MicrosPerSecond == 0
  {
    var n := TruncateToInt(Timestamp(t));
    assert Decimal(n * MicrosPerSecond) == Timestamp(TruncateToSecond(t));
  }

  /**
    `CustomDateField._deserialize`: a date, and so also a datetime (a
    subclass of `date` in Python), is returned as it is; anything else goes
    to marshmallow's own `Date` field (`fallback`).
  */
  function DeserializeDate(value: Value, fallback: Value -> Result<Value>): (r: Result<Value>)
    ensures value.VDate? || value.VDateTime? ==> r == Ok(value)
    ensures !value.VDate? && !value.VDateTime? ==> r == fallback(value)
  {
    if value.VDate? || value.VDateTime? then Ok(value) else fallback(value)
  }
}
