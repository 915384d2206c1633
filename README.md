# kaizen_blog_api core, modelled in Dafny

The blog backend takes a request, validates it into an entity (`Post`,
`Comment`, `Image`), hands the entity to a repository, and turns the outcome
into a Lambda response. This project models that core.

- **Serialisation.** `dict_factory` flattens an entity into a storage item. UUIDs become strings, datetimes become Decimal timestamps, and `None` fields are dropped. `JSONEncoder.default` maps values for JSON. `CustomDateTimeField` and `CustomDateField` read stored values back.
- **Validation.** `validate_and_get_dataclass` is modelled as the marshmallow schema derived from each entity. The `Post.__post_init__` guard is included: an attached image must carry the post's id.
- **Shared helpers.** `get_record` checks the query status, then the row count, then validates the first row. `request_to_insert` builds the item to insert and adds a fresh id.
- **Errors at the boundary.** The error classes, and the `serverless` decorator whose `except` chain turns a raised error into `{statusCode, body}`.
- **Services.** The post service covers create, read, list newest first, and replacing a post's image. The comment service covers create; delete, which runs get → delete → publish `comment.deleted`; and notify, which rebuilds the comment from that event and mails the administrator.

Repositories are in-memory fakes. Each is a class holding a table of storage items keyed by the string of the id, plus a log of the calls made to it. Failures are injected per operation. Only `insert` has a body in the source, and the fakes follow it. Every other repository operation is answered through the table, or with the configured failure.

Parameters stand in for the outside world:
- the fresh `uuid4()` id;
- the clock (`datetime.utcnow()`);
- `base64.b64decode`;
- marshmallow's own ISO-datetime and integer text parsers;
- the uploaded image's URL;
- the administrator's address;
- the storage backend's HTTP status;
- where the three error classes that errors.py does not declare sit in the class hierarchy.

Modules, by file:
- options, errors: `Option`, `Result`, the error kinds and their lineage.
- hex, pytext, uuids: the text form of a UUID, and `uuid.UUID(hex)` with the Python text built-ins it uses (`str.replace`, `str.strip`, `int(_, 16)`, `repr`). Its 128-bit range check is modelled too, and proved never to fail.
- time: datetimes, Decimal timestamps, ISO format.
- values: Python values and JSON documents.
- serializers, entities, validators: storage items and schemas.
- common, tables: `get_record`, `request_to_insert`, the fake table.
- json_text: JSON string escaping, used for the error body.
- serverless: the Lambda boundary.
- events: the `comment.deleted` event.
- post_repository and post_service; comment_repository and comment_service.

## Model

| member | source | states |
|---|---|---|
| Uuids.ToStr | kaizen_blog_api/serializers.py:17-18 | `str(uuid)` is 36 characters: hyphens exactly at positions 8, 13, 18 and 23, and each of the 32 nibbles as a lower-case hex digit in order |
| Uuids.Parse | kaizen_blog_api/post/service.py:28 | `uuid.UUID(s)` as seen by a caller that catches the error: some UUID exactly when the full reading succeeds; on canonical hyphenated text, in either case, each nibble is the value of its digit |
| Uuids.Int | kaizen_blog_api/post/service.py:28 | the number a UUID's 32 nibbles spell is below 2^128 |
| Uuids.FromInt | kaizen_blog_api/post/service.py:28 | the UUID built from a number below 2^128 has that number |
| Uuids.FromIntInt | kaizen_blog_api/post/service.py:28 | every UUID is the UUID of its own number |
| Uuids.CleanedSteps | kaizen_blog_api/post/service.py:28 | the text handed to `int(_, 16)` is the input with every `urn:` removed, then every `uuid:`, then braces stripped from both ends, then every hyphen removed |
| Uuids.CleanedHasNoHyphen | kaizen_blog_api/post/service.py:28 | no hyphen survives the cleaning |
| Uuids.ReadDigits | kaizen_blog_api/post/service.py:28 | the cleaned text must have 32 characters ("badly formed hexadecimal UUID string"), `int(_, 16)` must read it ("invalid literal for int() with base 16: " and its `%.200R`), and the number must fit in 128 bits ("int is out of range (need a 128-bit value)"); on success the UUID's number is the one read |
| Uuids.ReadAfterEdits | kaizen_blog_api/post/service.py:28 | applying the cleaning edits one at a time and then reading is reading the fully cleaned text |
| Uuids.FromHexCases | kaizen_blog_api/post/service.py:28 | the outcomes of `uuid.UUID(hex)` in terms of the cleaned text: wrong length, unreadable, or the UUID of the number read; the range error never occurs |
| Uuids.ShortTextBadlyFormed | kaizen_blog_api/post/service.py:28 | text of fewer than 32 characters is always "badly formed hexadecimal UUID string" |
| Uuids.CanonicalFromHex | kaizen_blog_api/post/service.py:28 | canonical hyphenated text, in either case, reads as the UUID of its digits |
| Uuids.HexTextDigits | kaizen_blog_api/post/service.py:28 | the 32 bare digits of a UUID are hex digits whose values are its nibbles, and `str(u)` is those digits grouped with hyphens |
| Uuids.ParseForms | kaizen_blog_api/post/service.py:28 | `str(u)`, the same between braces, the same after `urn:uuid:`, and the 32 bare digits each read back as `u` |
| Uuids.NonHexMessage | kaizen_blog_api/post/service.py:28 | 32 plain characters grouped 8-4-4-4-12, whose first cannot open a base-16 literal, give "invalid literal for int() with base 16: '…'" quoting the 32 characters |
| Uuids.ToStrNibbles | kaizen_blog_api/serializers.py:17-18 | `str(u)` is canonical, and its digits are the nibbles of `u` |
| Hex.NibblesOfValue | kaizen_blog_api/post/service.py:28 | a number that fits in `width` nibbles reads back from them |
| Hex.ValueNibbles | kaizen_blog_api/post/service.py:28 | nibbles read as a number and written back in as many nibbles are the same nibbles |
| PyText.RemoveCharGone | kaizen_blog_api/post/service.py:28 | after `replace(c, '')` no `c` remains |
| PyText.RemoveAbsent | kaizen_blog_api/post/service.py:28 | `replace(pat, '')` leaves a text without the first character of `pat` unchanged |
| PyText.StripEnds | kaizen_blog_api/post/service.py:28 | after `strip(chars)`, neither end of a non-empty result is in `chars` |
| PyText.StripNothing | kaizen_blog_api/post/service.py:28 | `strip(chars)` leaves a text whose two ends are not in `chars` unchanged |
| PyText.StripEnclosed | kaizen_blog_api/post/service.py:28 | `strip(chars)` removes exactly one enclosing character on each side of such a text |
| PyText.ParseHexIntBounds | kaizen_blog_api/post/service.py:28 | a literal of `k` characters that `int(_, 16)` reads has magnitude below 16^k, and is negative only if it holds a minus sign |
| PyText.PlainHexInt | kaizen_blog_api/post/service.py:28 | bare hex digits read as the number they spell |
| PyText.BadFirstCharacter | kaizen_blog_api/post/service.py:28 | a literal that opens with neither white space, a sign nor a hex digit is refused |
| PyText.TruncatedRepr | kaizen_blog_api/post/service.py:28 | `%.200R` is `repr` cut to 200 characters, so a text of at most 49 characters gets its whole `repr` |
| PyText.ReprRoundTrip | kaizen_blog_api/post/service.py:28 | the body `repr` writes between its quotes reads back as the text |
| PyText.PlainTruncatedRepr | kaizen_blog_api/post/service.py:28 | a short text of plain characters is quoted as it is, between single quotes |
| Uuids.ParseToStr | kaizen_blog_api/post/service.py:28 | parsing `str(u)` gives back `u` |
| Uuids.ToStrInjective | kaizen_blog_api/common.py:15 | distinct ids have distinct strings, so distinct table keys |
| Uuids.ToStrParse | kaizen_blog_api/post/service.py:28 | lower-case canonical text is exactly the `str` of the UUID it parses to |
| Time.TruncateToInt | kaizen_blog_api/serializers.py:45 | `int(Decimal)` rounds toward zero: the whole seconds bound the value from below for non-negative values and from above for negative ones |
| Time.FromTimestamp | kaizen_blog_api/comment/service.py:56 | `datetime.fromtimestamp` succeeds exactly within Python's datetime range, and the result's timestamp is the input |
| Time.FromWholeSeconds | kaizen_blog_api/serializers.py:45 | `fromtimestamp(int(d))` lands on a whole second |
| Time.TruncateToSecond | kaizen_blog_api/serializers.py:45 | the stored-and-read datetime is on a whole second less than one second toward the epoch, is unchanged when already whole, and stays in range |
| Time.IsoDateTime | kaizen_blog_api/serializers.py:31-32 | `isoformat()` has 19 characters, or 26 with microseconds, laid out `YYYY-MM-DDTHH:MM:SS[.ffffff]`; the date part is the ISO date of its day, hours are below 24, minutes and seconds below 60, and the clock part reads back as the microsecond of the day |
| Time.IsoDateTimeReadsBack | kaizen_blog_api/serializers.py:31-32 | reading `datetime.isoformat()` back gives the same instant, for four-digit years |
| Time.ClockOf | kaizen_blog_api/serializers.py:31-32 | HH:MM:SS of a second of the day: hours below 24, minutes and seconds below 60, reading back as that second |
| Time.DigitsReadBack | kaizen_blog_api/serializers.py:31-34 | a number that fits in `width` zero-padded digits reads back from them |
| Time.CivilFromDays | kaizen_blog_api/serializers.py:33-34 | the calendar date of a day count has a month from 1 to 12 and a day from 1 to 31 |
| Time.CivilRoundTrip | kaizen_blog_api/serializers.py:33-34 | the calendar date of a day count converts back to that day count |
| Time.IsoDate | kaizen_blog_api/serializers.py:33-34 | `date.isoformat()` has 10 characters with hyphens at positions 4 and 7 |
| Time.IsoDateFields | kaizen_blog_api/serializers.py:33-34 | the fields of `date.isoformat()` read back as the year (when it has four digits), the month and the day of the date |
| Time.IsoDateReadsBack | kaizen_blog_api/serializers.py:33-34 | reading `date.isoformat()` back names the same date, for four-digit years |
| Serializers.StorageValue | kaizen_blog_api/serializers.py:12-21 | one field's stored value: a UUID becomes its string, a datetime its Decimal timestamp, and a dict keeps its keys, with each UUID entry turned into its string and every other entry unchanged; values already in storage form are unchanged |
| Serializers.StorageValueIdempotent | kaizen_blog_api/serializers.py:12-21 | flattening an already flattened value changes nothing |
| Serializers.DictFactory | kaizen_blog_api/serializers.py:10-24 | every stored value is in storage form: never `None`, never a UUID or datetime at the top level, no UUID inside a dict |
| Serializers.DictFactoryKeys | kaizen_blog_api/serializers.py:22-23 | a key is present exactly when some field of that name has a non-`None` value |
| Serializers.DictFactoryAt | kaizen_blog_api/serializers.py:10-24 | with distinct names, a `None` field is absent and every other field is stored as its storage value |
| Serializers.DictFactoryAppend | kaizen_blog_api/serializers.py:22 | one more pair: dropped if `None`, otherwise it overwrites the key |
| Serializers.Default | kaizen_blog_api/serializers.py:27-37 | `default` is defined exactly for UUID, datetime, date and Decimal, giving the string, ISO text, ISO text and float; anything else raises "Object of type T is not JSON serializable"; each result is natively encodable |
| Serializers.LoadsDumps | kaizen_blog_api/serializers.py:27-37 | `json.loads(json.dumps(v))` is `v` for every natively encodable value, nested dicts included |
| Serializers.LoadsDumpsDecimal | kaizen_blog_api/serializers.py:35-36 | a Decimal comes back from JSON as a float of the same value |
| Serializers.DeserializeDateTime | kaizen_blog_api/serializers.py:40-48 | a datetime passes through, a Decimal goes through `fromtimestamp(int(value))`, and anything else goes to marshmallow's own field |
| Serializers.StoredDateTimeRoundTrip | kaizen_blog_api/serializers.py:44-47 | a datetime stored and read back is truncated to the whole second, and comes back unchanged iff it was already whole |
| Serializers.DeserializeDate | kaizen_blog_api/serializers.py:51-57 | a date, or a datetime since it is a subclass of date, passes through; anything else goes to marshmallow's own field |
| Entities.NewPost | kaizen_blog_api/post/entities.py:15-26 | the constructor succeeds iff there is no image or the image's id is the post's id; otherwise it raises ValidationError "Image and post should have same ID" |
| Entities.SetImage | kaizen_blog_api/post/service.py:82 | `post.image = image` changes only the image, and the result keeps the invariant iff the image carries the post's id |
| Entities.ImageRecord | kaizen_blog_api/post/entities.py:9-12 | an image's storage item holds the id as a string and the url |
| Entities.PostRecord | kaizen_blog_api/post/repository.py:29 | a post's storage item: ids as strings, `created_at` as a Decimal timestamp, and the image as a nested item only when present |
| Entities.CommentRecord | kaizen_blog_api/comment/repository.py:23 | a comment's storage item: both ids as strings, `created_at` as a Decimal timestamp |
| Validators.At | kaizen_blog_api/validators.py:24-27 | a marshmallow error of a field is reported as `{'name': [message]}`; other outcomes pass unchanged |
| Validators.LoadUuid | kaizen_blog_api/validators.py:24-27 | `fields.UUID` accepts a UUID, or a string that parses, and nothing else ("Not a valid UUID.") |
| Validators.LoadStoredUuid | kaizen_blog_api/common.py:23 | a UUID stored as its string loads back as itself |
| Validators.StoredUuidField | kaizen_blog_api/common.py:23 | a field holding the string of a UUID loads as that UUID |
| Validators.LoadString | kaizen_blog_api/validators.py:24-27 | only a string is a string ("Not a valid string.") |
| Validators.LoadInteger | kaizen_blog_api/validators.py:24-27 | an int is itself, a Decimal or float is truncated toward zero, and a bool is refused ("Not a valid integer.") |
| Validators.ParseDateTime | kaizen_blog_api/serializers.py:48 | marshmallow's own datetime field accepts only text its ISO parser reads ("Not a valid datetime.") |
| Validators.LoadDateTime | kaizen_blog_api/validators.py:13-17 | datetimes are read through `CustomDateTimeField`; their errors are the datetime message or an exception `fromtimestamp` raises |
| Validators.Required | kaizen_blog_api/validators.py:24-27 | a field without a default: missing gives "Missing data for required field.", `None` gives "Field may not be null.", otherwise the field's loader runs under its name |
| Validators.Defaulted | kaizen_blog_api/post/entities.py:21-22 | a field with a default: missing gives the default, `None` is refused, otherwise the field's loader runs under its name |
| Validators.ValidateImage | kaizen_blog_api/post/entities.py:9-12 | an image loads only from exactly its two keys, with a loadable id and a string url; unknown keys are refused |
| Validators.ImageField | kaizen_blog_api/post/entities.py:20 | an absent or `None` image is no image; a dict that loads is that image; errors are validation errors |
| Validators.ValidatePost | kaizen_blog_api/validators.py:20-27 | a loaded post keeps the `__post_init__` invariant, comes only from known keys that include id, text and username, and carries those values; a missing likes gives 0, a missing created_at gives `now`, a missing image gives none; unknown keys fail |
| Validators.ValidateComment | kaizen_blog_api/validators.py:20-27 | a loaded comment comes only from known keys that include id, text, username and post_id, and carries those values; a missing created_at gives `now`; unknown keys fail |
| Validators.ValidatePostAccepts | kaizen_blog_api/validators.py:20-27 | conversely, an item with only declared keys whose id, text and username load, whose image loads, and whose likes and created_at are absent or load, is accepted as exactly that post, when that post keeps the image invariant |
| Validators.ValidateCommentAccepts | kaizen_blog_api/validators.py:20-27 | conversely, an item with only declared keys whose ids, text and username load and whose created_at is absent or loads is accepted as exactly that comment |
| Validators.ImageRoundTrip | kaizen_blog_api/post/entities.py:9-12 | an image's storage item loads back as that image |
| Validators.StoredPostLoads | kaizen_blog_api/post/entities.py:15-26 | a stored post loads back through the constructor, `__post_init__` guard included, with its time truncated to the whole second |
| Validators.PostRoundTrip | kaizen_blog_api/post/repository.py:29 | a post that keeps the invariant loads back from its storage item as itself, its time truncated to the whole second |
| Validators.MismatchedImageSurfaces | kaizen_blog_api/post/entities.py:24-26 | a post whose image carries another id is stored without complaint, and reading it back raises the mismatch error |
| Validators.CommentRoundTrip | kaizen_blog_api/comment/repository.py:23 | a comment loads back from its storage item as itself, its time truncated to the whole second |
| Common.QueryKey | kaizen_blog_api/common.py:15 | the key condition is on `id`, and its value parses back to the record id |
| Common.GetRecord | kaizen_blog_api/common.py:14-23 | a non-2xx status gives RepositoryError "error occurred when retrieving post details"; a zero count gives RecordNotFound "Record with id … was not found"; a positive count with no rows gives IndexError; otherwise the first row is validated |
| Common.StatusBeforeCount | kaizen_blog_api/common.py:18-22 | a failed query that found nothing is a repository error, not a not-found |
| Common.WithoutNone | kaizen_blog_api/common.py:27 | keeps exactly the entries whose value is not `None`, unchanged |
| Common.RequestToInsert | kaizen_blog_api/common.py:26-29 | the request's flattened fields, none of them `None`, plus `id` set to the fresh UUID object |
| Common.NoneAlreadyDropped | kaizen_blog_api/common.py:27 | the second `None` filter changes nothing after `dict_factory` |
| Common.RequestToInsertFields | kaizen_blog_api/common.py:26-29 | each field of the request other than `id` is inserted as its storage value iff it is not `None` |
| Tables.Query | kaizen_blog_api/common.py:16 | the fake table answers a key condition on `id` with one row, the stored item, iff the key is present, and otherwise with none |
| Errors.DeclaredStatusCode | kaizen_blog_api/errors.py:1-10 | `ApiError` and `AWSError` carry 500, and `ValidationError` carries 422 |
| Errors.LineageOf | kaizen_blog_api/errors.py:1-10 | `AWSError` sits under `ApiError`; `ValidationError` is a plain exception class with its own status; unhandled exceptions fall to the last clause |
| JsonText.Escape | kaizen_blog_api/serverless.py:25-26 | `json.dumps` string escaping writes only printable ASCII and leaves plain text unchanged |
| JsonText.ReadEscaped | kaizen_blog_api/serverless.py:25-26 | any escaped string followed by a closing quote reads back as the original string, the rest untouched |
| JsonText.ErrorBodyRoundTrip | kaizen_blog_api/serverless.py:25-26 | the `json.dumps({"error": m})` body always reads back as `m` |
| JsonText.ConcatAgreesOnPlain | kaizen_blog_api/serverless.py:17 | for plain messages, the concatenated body equals the `json.dumps` body |
| JsonText.ConcatBreaksOnQuote | kaizen_blog_api/serverless.py:28 | the concatenated body for the message `a"b` is not a JSON object with that error |
| Serverless.ErrorResponseAsWritten | kaizen_blog_api/serverless.py:14-28 | the `except` chain as written: `ApiError`-derived errors get their status code and a concatenated body; `ValidationError` gets 422 via `json.dumps`; anything else gets 500 with a concatenated body |
| Serverless.ErrorResponse | kaizen_blog_api/serverless.py:14-28 | same statuses as the `except` chain, and every body reads back as `str(e)` |
| Serverless.DeclaredStatusCodes | kaizen_blog_api/serverless.py:14-28 | `ApiError` and `AWSError` give 500, `ValidationError` 422, any other exception 500 |
| Serverless.AsWrittenAgreesOnPlain | kaizen_blog_api/serverless.py:14-28 | for plain messages, the as-written and the corrected responses are identical |
| Serverless.AsWrittenBreaksOnQuote | kaizen_blog_api/serverless.py:27-28 | an unhandled exception whose text is `a"b` gets a body that does not read back |
| Serverless.ExecuteServerless | kaizen_blog_api/serverless.py:11-28 | the handler's response when it returns, and the response of the `except` chain as written when it raises |
| Serverless.ExecuteServerlessCorrected | kaizen_blog_api/serverless.py:11-28 | the boundary with the corrected error response: the handler's response, or a body that always reads back as `str(e)` |
| Serverless.ExecuteAgreesOnPlain | kaizen_blog_api/serverless.py:17 | for plain messages, the boundary as written and the corrected one answer alike |
| Serverless.ExecuteBreaksOnQuote | kaizen_blog_api/serverless.py:27-28 | a handler raising an exception whose text is `a"b` gets, as written, a body that does not read back; the corrected boundary's body reads back as `a"b` |
| Serverless.ServerlessDecorator | kaizen_blog_api/serverless.py:32-35 | `serverless(None)` is a decorator still waiting for its handler; `serverless(fn)` is the wrapped handler |
| Serverless.DecoratorWraps | kaizen_blog_api/serverless.py:9-30 | the decorator wraps any handler in `execute_serverless` |
| Serverless.BareAndCalledAgree | kaizen_blog_api/serverless.py:32-35 | `serverless(fn)` and `serverless(None)(fn)` behave alike |
| Events.EventName.Value | kaizen_blog_api/events.py:16-21 | `str(name)` is "comment.created" or "comment.deleted", each exactly for its member |
| Events.EventNameValuesDistinct | kaizen_blog_api/events.py:16-21 | two names have the same value iff they are the same name |
| Events.CommentDeletedEvent | kaizen_blog_api/events.py:24-31 | the event id is `str(comment.id)`, the name is "comment.deleted", and the payload is the JSON of the comment's storage item |
| Events.CommentDeletedPayload | kaizen_blog_api/events.py:30 | read back, the payload holds both ids as strings, the text, the username, and the timestamp as a float |
| PostStorage.FetchMissing | kaizen_blog_api/common.py:21-22 | after a successful query, an id the table lacks is RecordNotFound |
| PostStorage.FetchStored | kaizen_blog_api/post/repository.py:29 | a post just stored is fetched back as itself, its time truncated to the whole second |
| PostStorage.FetchedCarriesId | kaizen_blog_api/common.py:14-23 | from a keyed table, a fetched post carries the id it was fetched by |
| PostStorage.StoreKeepsKeyed | kaizen_blog_api/post/repository.py:29 | storing a post under its own id keeps every item under its own id |
| PostStorage.PostRepository.Insert | kaizen_blog_api/post/repository.py:27-31 | `put_item` of the post's storage item, or AWSError "AWS error CODE inserting ID" with the table unchanged; the call is logged |
| PostStorage.PostRepository.Get | kaizen_blog_api/post/service.py:61 | `get_record` over the table; logged |
| PostStorage.PostRepository.Update | kaizen_blog_api/post/service.py:83 | the item under the id becomes the post's storage item, or fails with the table unchanged; logged |
| PostStorage.PostRepository.Upload | kaizen_blog_api/post/service.py:81 | gives the uploaded image carrying the post's id, or fails; logged |
| PostStorage.PostRepository.ListByDateReversed | kaizen_blog_api/post/service.py:64 | answers the sequence the fake was given, or the injected failure, and logs the call; nothing ties that sequence to the table or to any order |
| PostService.NewUpdateImageRequest | kaizen_blog_api/post/service.py:24-28 | request construction succeeds iff `uuid.UUID(post_id)` reads the id, carrying that UUID; otherwise it raises the `ValueError` text `uuid.UUID` gives |
| PostService.UpdateImageRequestCases | kaizen_blog_api/post/service.py:24-28 | succeeds iff the cleaned id is 32 characters that `int(_, 16)` reads, for the number read; a wrong length raises "badly formed hexadecimal UUID string", unreadable digits raise "invalid literal for int() with base 16: " and the quoted text |
| PostService.ShortIdRefused | kaizen_blog_api/post/service.py:28 | an id shorter than 32 characters raises "badly formed hexadecimal UUID string" |
| PostService.NonHexIdRefused | kaizen_blog_api/post/service.py:28 | an id of the right shape that is not hexadecimal, such as `zzzzzzzz-zzzz-zzzz-zzzz-zzzzzzzzzzzz`, raises "invalid literal for int() with base 16: '…'" quoting the 32 characters |
| PostService.UpdateImageRequestOfId | kaizen_blog_api/post/service.py:28 | a path id written as `str(uuid)` names that very post |
| PostService.FindFrom | kaizen_blog_api/post/service.py:74 | the first occurrence at or after `from`, or -1 when there is none |
| PostService.Find | kaizen_blog_api/post/service.py:74 | `str.find` is -1 iff the pattern occurs nowhere, and otherwise the first index where it occurs |
| PostService.DecodeImage | kaizen_blog_api/post/service.py:69-78 | an empty body gives "File should be an image"; a base64 body is decoded whole; otherwise the text after the first `base64,` is decoded when the marker is past index 0, and "Invalid image file" results if not |
| PostService.DataUrlPayloadDecoded | kaizen_blog_api/post/service.py:74-76 | a data URL whose header has no `b` has exactly its payload decoded |
| PostService.MarkerAtStartRefused | kaizen_blog_api/post/service.py:75-78 | a body starting with the marker is refused |
| PostService.CreateValidates | kaizen_blog_api/post/service.py:50-56 | the inserted dict validates into the post with the fresh id, the request's text and username, no image, 0 likes, created `now` |
| PostService.UpdatedPostFetched | kaizen_blog_api/post/service.py:80-85 | the post fetched after the update is the read post with the uploaded image in place and the invariant kept |
| PostService.PostService.Create | kaizen_blog_api/post/service.py:50-58 | that post is inserted once and returned; on an AWS error the table is unchanged |
| PostService.PostService.Read | kaizen_blog_api/post/service.py:60-61 | gives exactly what `get` answers, errors included |
| PostService.PostService.ListReversed | kaizen_blog_api/post/service.py:63-66 | yields every listed post in order, or the listing's failure |
| PostService.PostService.UpdateLogo | kaizen_blog_api/post/service.py:68-85 | decoding comes before any repository call; then get → upload → update → get, each failure stopping later calls and leaving the table unchanged; on success, the stored and returned post is the read post with the uploaded image |
| PostService.PostService.ReplaceImage | kaizen_blog_api/post/service.py:81-85 | upload → update → get, each failure stopping later calls |
| CommentStorage.FetchMissingComment | kaizen_blog_api/common.py:21-22 | after a successful query, an id the table lacks is RecordNotFound |
| CommentStorage.FetchStoredComment | kaizen_blog_api/comment/repository.py:23 | a comment just stored is fetched back as itself, its time truncated to the whole second |
| CommentStorage.FetchedCommentCarriesId | kaizen_blog_api/common.py:14-23 | from a keyed table, a fetched comment carries the id it was fetched by |
| CommentStorage.CommentStoreKeepsKeyed | kaizen_blog_api/comment/repository.py:23 | storing a comment under its id, or removing an item, keeps the table keyed by id |
| CommentStorage.CommentRepository.Insert | kaizen_blog_api/comment/repository.py:21-25 | `put_item` of the comment's storage item, or AWSError "AWS error CODE inserting ID" with the table unchanged; logged |
| CommentStorage.CommentRepository.Get | kaizen_blog_api/comment/service.py:50 | `get_record` over the table; logged |
| CommentStorage.CommentRepository.Delete | kaizen_blog_api/comment/service.py:51 | removes the item under the id, or fails with the table unchanged; logged |
| CommentStorage.CommentRepository.DispatchSns | kaizen_blog_api/comment/service.py:52 | publishes the event, or fails; logged |
| CommentStorage.CommentRepository.SendEmail | kaizen_blog_api/comment/service.py:58 | sends the mail about the comment to the address, or fails; logged |
| CommentService.CreateCommentValidates | kaizen_blog_api/comment/service.py:43-45 | the inserted dict validates into the comment with the fresh id, the request's text, username and post id, created `now` |
| CommentService.FromTimestampValue | kaizen_blog_api/comment/service.py:56 | `fromtimestamp` of a JSON value succeeds iff it is a number (a bool counts as 0 or 1) within range, giving that instant; anything else raises TypeError |
| CommentService.NotifiedComment | kaizen_blog_api/comment/service.py:55-57 | a payload that is not a dict raises TypeError; a missing `created_at` raises KeyError; on success, `created_at` was converted from seconds and the rest validated into the comment |
| CommentService.NotifyRoundTrip | kaizen_blog_api/comment/service.py:54-58 | `notify` of `CommentDeletedEvent(c)` rebuilds exactly `c` |
| CommentService.CommentService.Create | kaizen_blog_api/comment/service.py:43-47 | that comment is inserted once and returned; on an AWS error the table is unchanged |
| CommentService.CommentService.Delete | kaizen_blog_api/comment/service.py:49-52 | get → delete → dispatch in that order, each failure stopping later calls; nothing is deleted when get fails; the event is built from the fetched comment, carrying the requested id and the name "comment.deleted" |
| CommentService.CommentService.Notify | kaizen_blog_api/comment/service.py:54-58 | exactly one mail, to the administrator's address, of the rebuilt comment; no mail when rebuilding fails |
| CommentService.CreateThenDelete | tests/test_comments/test_end_to_end.py:41-58 | with a healthy repository, creating a comment and deleting it by the returned id both succeed, and the item is gone |

## Left out

- I/O is left out: boto3 (DynamoDB, S3, SNS, SES), the Lambda controller and its `kink` dependency injection, and logging. The repositories are in-memory fakes.
- The bodies of `get`, `update`, `upload`, `delete`, `list_by_date_reversed`, `dispatch_sns` and `send_email` are not in the source. The fakes answer them through the table or with an injected failure, and no S3 key or update expression is invented.
- Sorting by date is not modelled: `list_by_date_reversed` answers a sequence the fake is given.
- The laziness of the generator in `list_reversed` is not modelled. The model yields the whole sequence.
- Randomness, the clock, base64 decoding, the uploaded image's URL and `ADMIN_EMAIL_ADDRESS` are parameters.
- `RecordNotFound`, `RepositoryError` and `ImageError` are not declared in errors.py. Their place in the class hierarchy is a parameter, and no status code is given to them.
- Validators.ValidatePost: marshmallow collects the errors of every failing field. The model reports only the first failing field in declaration order, and a generic "Unknown field." for unknown keys without naming them.
- Validators.ValidateComment: same simplification as ValidatePost.
- Uuids.Parse: `uuid.UUID(hex)` is modelled for any text. It accepts whatever is 32 characters once `urn:`, `uuid:`, enclosing braces and hyphens are removed, provided `int(_, 16)` reads it: hyphens anywhere, surrounding white space, a sign, a `0x` prefix and underscores between digits all pass. Not modelled: `int()` also reads non-ASCII Unicode decimal digits (Arabic-Indic digits, say), which the model refuses.
- PyText.Repr: only the characters below U+0020, those from U+007F to U+00A0, and U+00AD are escaped, as `\xNN` (or `\t`, `\n`, `\r`). Every other character is taken as printable, so the `\u` and `\U` escapes `repr` writes for other non-printable characters are not modelled. The `int(_, 16)` message quotes the text with this `repr`.
- PostStorage.PostRepository.Upload: the fake's image always carries the id it was given. An upload answering an image with another id is not modelled; Validators.MismatchedImageSurfaces shows such an image would be stored and would surface only at the final `get`, as the mismatch error.
- Serializers.LoadsDumpsDecimal: `float(Decimal)` is kept exact at microsecond precision. Binary floating-point rounding is not modelled.
- Time.Timestamp: `Decimal(value.timestamp())` is taken as the exact microsecond count. Python stores the exact binary expansion of the float `timestamp()` returns, which differs from the decimal microsecond value in its trailing digits. So Serializers.StorageValue and Entities.PostRecord state the exact value, not the float's expansion.
- CommentService.FromTimestampValue: same exactness assumption as LoadsDumpsDecimal, so `fromtimestamp` of a float is exact.
- Time.FromTimestamp: every out-of-range failure is reported with the single message "year is out of range".
- JsonText.Escape: lone surrogate code points are not modelled, since Dafny characters are Unicode scalar values.
- The event payload is modelled as a JSON document tree rather than its text. Only the serverless error body is modelled as text.
- Local time zones are not modelled: `timestamp()` and `fromtimestamp()` are taken in UTC.
- `like` is not modelled, nor are the controller's success codes.
- tests/test_comments/test_entities.py:23 expects the stored `created_at` to be an int, but serializers.py:19 stores a Decimal. The model follows the code.

## Findings

| source | as written | input that shows it | evidently intended | confidence | as-written member | corrected member |
|---|---|---|---|---|---|---|
| kaizen_blog_api/serverless.py:17 | The `AWSError`, `ApiError` and catch-all bodies are built as `'{"error": "' + str(e) + '"}'`, with no escaping. | An unhandled exception whose text is `a"b`. The body `{"error": "a"b"}` is not the JSON object it looks like. | Every body is `json.dumps({"error": str(e)})`, as the `ValidationError` branch already does. | not executed | Serverless.ExecuteBreaksOnQuote | Serverless.ExecuteServerlessCorrected |
