# SmartStream Lambda handlers in Dafny

This project models the record-level data handling in the four AWS Lambda
handlers of the SmartStream data lake, and proves properties of it.

- **Raw-to-trusted transform** (module `RawToTrusted`,
  `smartstream-terraform/lambdas/transform/lambda_function.py`). JSON Lines of
  AWS DMS envelopes go through these steps:
  - filtered to the `employees` table;
  - unwrapped to their `data` row;
  - cleaned of null and empty fields;
  - timestamp fields normalised to ISO 8601 with `Z`;
  - deduplicated by canonical (key-sorted) content, first occurrence kept;
  - written as JSON Lines under `trusted/…` with a `.json` key derived from the
    raw key.
- **Legacy transform** (module `LegacyTransform`, `LambdaCode.py`).
  - An index-advancing scanner pulls concatenated JSON values out of a body and
    stops at the first chunk that does not decode.
  - `transform_record` maps a DMS record onto the flat sixteen-field trusted
    schema, with the `ever_benched` yes/no rule.
  - `process_s3_object` collects the kept records and writes them under
    `data/trusted/ingest_date=YYYY-MM-DD/<uuid>.json`.
  - The handler processes the event's objects in order.
- **Live read API** (module `LiveApi`,
  `smartstream-terraform/lambdas/live_api/lambda_function.py`).
  - `limit` query parsing with clamping.
  - Payload parsing of a JSON array or JSON Lines.
  - Latest-object selection over a paginated listing; the first listed wins a
    tie.
  - OPTIONS / GET / 405 dispatch, and the last `limit` items.
- **ML placeholder** (module `MlInference`,
  `smartstream-terraform/lambdas/ml/lambda_function.py`).
  - The first-match substring classifier.
  - Per-file predictions, each file all-or-error.
  - Flattening with counts.
  - The date-partitioned analytics key.
  - The `.json` filter and the ten-file cap.

Shared modules:

- `Text`: Python's `strip`, `split`, `join`, `splitlines`, `lower`, `int()` and
  `str(int)`.
- `S3`: an object named by its bucket and key, and a `put_object` write.
- `Clock`: `datetime.fromtimestamp(…, tz=utc)` by the civil-from-days
  algorithm, `isoformat`, and `strftime` for `%Y-%m-%d` and `%Y%m%d_%H%M%S`.
- `JsonValue`:
  - the JSON value type (None, bool, int, str, list, dict as an
    insertion-ordered pair sequence);
  - `json.dumps` with its default separators and ASCII escaping;
  - key-sorted canonical form;
  - `dict.get`.

How the environment is represented:

- `json.loads` and `JSONDecoder.raw_decode` are function parameters. A parse
  failure is `None`; for `raw_decode` that is a `JSONDecodeError`. `raw_decode`
  always ends past its start index.
- S3 reads, listings and writes become inputs and outputs:
  - reading an object (`get_object`, gunzip for a ".gz" key where the source
    does it, UTF-8 decoding) is a function of the object that gives its text,
    or `None` where the read or the decode raises. The raw-to-trusted
    handlers name each object by the bucket and key of its event record. The
    live API and ML handlers read from their one configured bucket, so there a
    key names the object;
  - a listing is a sequence of pages or keys;
  - the writes made are returned as values. A raw-to-trusted write names its
    bucket, which is the bucket of the event record it came from.
- Clock readings (`utcnow`, `now`) and `uuid4` are parameters. Each reading
  has its own parameter wherever the source reads the clock again.
- The raises the model represents are: a failed parse or a failed object read
  (`None`); a `transform_record` raise (`Fail`); a failed ML file (an error
  result); a live API request that raises (`None`); and a raw-to-trusted or
  legacy handler run that stops part way (a run whose `completed` is false).
  Other raises are listed under "Left out".

The two raw-to-trusted transforms treat a bad record differently.
`LambdaCode.py` stops scanning at the first chunk that does not decode and
keeps only the records before it (`LegacyTransform.ChunksStop`). The newer
transform skips a bad line and goes on (`RawToTrusted.SkippedLine`).

## Model

| member | source | states |
|---|---|---|
| RawToTrusted.Unwrap | smartstream-terraform/lambdas/transform/lambda_function.py:106-126 | a row handed on from a well-formed parsed value has distinct keys |
| RawToTrusted.UnwrapEnvelope | smartstream-terraform/lambdas/transform/lambda_function.py:107-120 | an envelope survives only if its lower-cased table name is "employees", then yields exactly its `data` dict (or {} for falsy data); an `awsdms_*` table never survives |
| RawToTrusted.UnwrapOther | smartstream-terraform/lambdas/transform/lambda_function.py:121-126 | a dict without both envelope keys passes as it is; a non-dict is dropped |
| RawToTrusted.Clean | smartstream-terraform/lambdas/transform/lambda_function.py:128-129 | a pair is kept iff its value is neither None nor ""; distinct keys stay distinct |
| RawToTrusted.NormalizeString | smartstream-terraform/lambdas/transform/lambda_function.py:172-181 | a string without 'T' is unchanged; one with 'T', not ending in Z/z and without '+', gets exactly one "Z"; otherwise unchanged |
| RawToTrusted.NegativeOffsetGetsZ | smartstream-terraform/lambdas/transform/lambda_function.py:176-180 | "2026-02-07T10:00:00-05:00" becomes "…-05:00Z": a negative offset is not recognised |
| RawToTrusted.NormalizeEpoch | smartstream-terraform/lambdas/transform/lambda_function.py:183-190 | epoch seconds in datetime's range become an ISO string ending in "Z"; out of range the exception is caught and the value stays |
| RawToTrusted.NormalizeIdempotent | smartstream-terraform/lambdas/transform/lambda_function.py:172-187 | normalising a normalised value changes nothing |
| RawToTrusted.NormalizePresent | smartstream-terraform/lambdas/transform/lambda_function.py:129-135 | normalising never yields None or "", so a cleaned row stays clean |
| RawToTrusted.StandardizeTimestamps | smartstream-terraform/lambdas/transform/lambda_function.py:158-192 | the in-place loop over the five field names yields StandardizeRow: each present timestamp field normalised where it stands |
| RawToTrusted.StandardizeKeepsOthers | smartstream-terraform/lambdas/transform/lambda_function.py:164-168 | keys and their order are kept; every field outside the five keeps its value |
| RawToTrusted.StandardizeIdempotent | smartstream-terraform/lambdas/transform/lambda_function.py:158-192 | standardising twice equals standardising once |
| RawToTrusted.LineRowClean | smartstream-terraform/lambdas/transform/lambda_function.py:125-132 | a row a line contributes is non-empty and holds no None or "" |
| RawToTrusted.CandidatesConcat | smartstream-terraform/lambdas/transform/lambda_function.py:99-150 | lines are handled independently: the rows of a + b are the rows of a then of b |
| RawToTrusted.SkippedLine | smartstream-terraform/lambdas/transform/lambda_function.py:99-150 | a blank, unparseable or filtered line leaves the other lines' rows as they were |
| RawToTrusted.DedupStep | smartstream-terraform/lambdas/transform/lambda_function.py:137-143 | a row is kept iff its canonical content was not seen, and its content joins the seen set |
| RawToTrusted.DedupSeen | smartstream-terraform/lambdas/transform/lambda_function.py:137-143 | the kept rows cover exactly the contents of the input |
| RawToTrusted.DedupDistinct | smartstream-terraform/lambdas/transform/lambda_function.py:137-143 | no two kept rows have equal canonical content |
| RawToTrusted.DedupSubset | smartstream-terraform/lambdas/transform/lambda_function.py:137-143 | every kept row is an input row |
| RawToTrusted.FirstPositionsSpec | smartstream-terraform/lambdas/transform/lambda_function.py:137-143 | FirstPositions lists, in increasing order, exactly the positions whose row is the first with its content |
| RawToTrusted.DedupFirstOccurrences | smartstream-terraform/lambdas/transform/lambda_function.py:137-143 | the kept rows are exactly the first occurrences, in input order |
| JsonValue.CanonOrderInsensitive | smartstream-terraform/lambdas/transform/lambda_function.py:138 | dicts with the same pairs in different insertion orders have the same sort_keys form, so the hash ignores key order |
| JsonValue.SortFieldsSorted | smartstream-terraform/lambdas/transform/lambda_function.py:138 | sort_keys order is sorted by key |
| JsonValue.SortedPermutationEqual | smartstream-terraform/lambdas/transform/lambda_function.py:138 | two key-sorted dicts with distinct keys and the same pairs are identical |
| JsonValue.Dumps | smartstream-terraform/lambdas/live_api/lambda_function.py:31 | json.dumps gives non-empty printable ASCII, starting with '{' for a dict |
| JsonValue.DumpsOneLine | smartstream-terraform/lambdas/transform/lambda_function.py:155 | json.dumps output holds no line break, so each row is one line |
| RawToTrusted.EmitBlank | smartstream-terraform/lambdas/transform/lambda_function.py:155 | the joined output is blank iff no row survived |
| RawToTrusted.EmitLines | smartstream-terraform/lambdas/transform/lambda_function.py:155 | splitting the output on "\n" gives one json.dumps text per kept row, in order |
| RawToTrusted.TransformData | smartstream-terraform/lambdas/transform/lambda_function.py:85-155 | the line loop with its seen set yields the dedup of the lines' rows joined by "\n" |
| RawToTrusted.OutputRowsClean | smartstream-terraform/lambdas/transform/lambda_function.py:128-132 | every written row is non-empty and free of None and "" values |
| RawToTrusted.TrustedKeyShape | smartstream-terraform/lambdas/transform/lambda_function.py:195-212 | a trusted key starts with "trusted/" and ends in ".json" |
| RawToTrusted.TrustedKeyOfGz | smartstream-terraform/lambdas/transform/lambda_function.py:202-212 | raw/x.gz maps to trusted/x.json |
| RawToTrusted.TrustedKeyOfJson | smartstream-terraform/lambdas/transform/lambda_function.py:202-212 | raw/x.json maps to trusted/x.json: ".json" is not doubled |
| RawToTrusted.TrustedKeyOfPlain | smartstream-terraform/lambdas/transform/lambda_function.py:202-212 | a raw key with neither extension gets ".json" once |
| RawToTrusted.TrustedKeyExample | smartstream-terraform/lambdas/transform/lambda_function.py:195-200 | the documented example key maps as documented |
| RawToTrusted.TrustedKeyGzJsonCollide | smartstream-terraform/lambdas/transform/lambda_function.py:202-212 | raw/x.json.gz and raw/x.json both map to trusted/x.json, so one write replaces the other |
| RawToTrusted.HandleEvent | smartstream-terraform/lambdas/transform/lambda_function.py:41-82 | the writes and whether the handler returns are HandlerRunOf of the event's objects (bucket and key); a failed read of a raw/ object stops the loop |
| RawToTrusted.HandlerStops | smartstream-terraform/lambdas/transform/lambda_function.py:41-70 | once a read has raised, later keys change nothing |
| RawToTrusted.HandlerCompletes | smartstream-terraform/lambdas/transform/lambda_function.py:48-82 | the handler returns iff every raw/ object of the event reads and decodes |
| RawToTrusted.HandlerWritesSpec | smartstream-terraform/lambdas/transform/lambda_function.py:43-62 | every write comes from a raw/ object that read, goes to that object's own bucket under its trusted key with its non-blank output; on a run that returns, every raw/ object reads and each with non-blank output is written |
| RawToTrusted.HandlerWritesTrusted | smartstream-terraform/lambdas/transform/lambda_function.py:49-62 | no write lands outside trusted/…json |
| Clock.EpochToIsoZShape | smartstream-terraform/lambdas/transform/lambda_function.py:184-187 | an in-range epoch converts to a string with a 'T', no '+', ending in "Z" |
| Clock.FromEpochBounds | smartstream-terraform/lambdas/transform/lambda_function.py:185 | the range ends map to 0001-01-01T00:00:00 and 9999-12-31T23:59:59 |
| Clock.FromEpochExample | smartstream-terraform/lambdas/transform/lambda_function.py:185 | 1770465045 is 2026-02-07T11:50:45 |
| Text.StripEmptyIffAllSpace | smartstream-terraform/lambdas/transform/lambda_function.py:57 | strip() is empty iff the text is all whitespace |
| Text.JoinSplit | smartstream-terraform/lambdas/transform/lambda_function.py:95 | joining a split gives the text back |
| Text.SplitJoin | smartstream-terraform/lambdas/transform/lambda_function.py:155 | splitting a join of separator-free parts gives the parts back |
| LegacyTransform.ParseBlank | LambdaCode.py:27-31 | an empty or whitespace-only body yields no values |
| LegacyTransform.ChunksSound | LambdaCode.py:39-55 | each value starts at a non-space index past the previous one and is what the decoder returned there |
| LegacyTransform.ChunksGaps | LambdaCode.py:39-44 | only whitespace lies before and between the decoded values, so they come in body order |
| LegacyTransform.ChunksStop | LambdaCode.py:42-50 | the scan ends only at the end of the body or where the next value fails to decode |
| LegacyTransform.ChunksAfterSpace | LambdaCode.py:40-41 | scanning from inside a whitespace run equals scanning from its end |
| LegacyTransform.ChunksDecoded | LambdaCode.py:45-55 | a value decoded at the scan position heads the rest |
| LegacyTransform.ParseRawBody | LambdaCode.py:23-59 | the idx-advancing loop with its inner whitespace loop returns ParsedValues of the body |
| LegacyTransform.SkipIffNotData | LambdaCode.py:79-82 | a dict record is skipped iff its record-type is not "data"; missing metadata means skipped |
| LegacyTransform.TransformRecordOutcome | LambdaCode.py:62-115 | transform_record raises iff the record, its metadata or (for data) its data is not a dict; a kept record is the sixteen-field trusted dict |
| LegacyTransform.TrustedRecordKeys | LambdaCode.py:91-112 | the trusted dict has exactly the schema's sixteen keys, in order and distinct |
| LegacyTransform.TrustedGet | LambdaCode.py:91-112 | looking up the i-th schema field finds its value |
| LegacyTransform.TrustedLookup | LambdaCode.py:91-112 | every schema field holds its value and no other key is present |
| LegacyTransform.TrustedFieldsDistinct | LambdaCode.py:91-112 | the sixteen schema names are distinct |
| LegacyTransform.TrustedRecordFields | LambdaCode.py:91-111 | looked up by name in the record, each business field holds its data field (joining_year ← joiningyear, payment_tier ← paymenttier, experience_years ← experienceincurrentdomain, leave_or_not ← leaveornot), each DMS field its metadata field, null where missing; ingest_timestamp is the clock reading |
| LegacyTransform.EverBenched | LambdaCode.py:101 | ever_benched is true iff everbenched is a string lower-casing to "yes"; missing gives false |
| LegacyTransform.CollectConcat | LambdaCode.py:138-143 | collecting a + b is collecting a then b; a failure anywhere fails all |
| LegacyTransform.CollectOne | LambdaCode.py:139-143 | one outcome: a raise fails, None is dropped, a record is kept |
| LegacyTransform.CollectFails | LambdaCode.py:139-143 | the object fails iff some record's transform raises |
| LegacyTransform.ProcessObject | LambdaCode.py:118-172 | the collect loop yields ProcessResult: no write without a kept record, else the kept records in the object's bucket under the output key |
| LegacyTransform.WrittenBody | LambdaCode.py:138-150 | the object fails iff a transform_record call raised, is written iff the kept records are not empty, and a written body splits into one json.dumps line per kept record, in order |
| LegacyTransform.OutputKeyShape | LambdaCode.py:152-159 | the key is data/trusted/ingest_date=<YYYY-MM-DD of today>/<id>.json |
| LegacyTransform.ProcessResultKey | LambdaCode.py:152-172 | a written object goes to its own bucket, under the output key of its day and uuid |
| Clock.DateTextShape | LambdaCode.py:153 | %Y-%m-%d of a clock reading is ten characters whose fields read back as the date |
| LegacyTransform.LambdaHandler | LambdaCode.py:175-191 | the handler's writes are those of HandlerRunOf, where an object whose read, UTF-8 decode or transform raises stops the loop; it reports processed_files = number of objects iff no object raised |
| LegacyTransform.RunStops | LambdaCode.py:186-189 | once an object raises, later objects change nothing |
| LegacyTransform.RunCompletes | LambdaCode.py:186-191 | the loop returns iff no object's result is a failure |
| LegacyTransform.RunWrites | LambdaCode.py:186-189 | every write is a written result of some object, at most one per object |
| LegacyTransform.RunWritesExact | LambdaCode.py:186-191 | on a run that returns, the writes are exactly the written results, in object order |
| LegacyTransform.HandlerCompletes | LambdaCode.py:117-191 | the handler returns iff every object reads, decodes and transforms without raising |
| LegacyTransform.ReadFailureStops | LambdaCode.py:125-131 | an object that cannot be read or decoded stops the handler |
| LegacyTransform.ProcessedKey | LambdaCode.py:126-172 | a written object goes back to its own bucket, under the output key of its day and uuid, whatever was read |
| LegacyTransform.HandlerWritesShape | LambdaCode.py:186-189 | at most one write per object, each in the bucket of the event record it came from, under a trusted key of that object's day and uuid |
| LiveApi.RespondHeaders | smartstream-terraform/lambdas/live_api/lambda_function.py:16-32 | every _response carries Content-Type: application/json and the three CORS headers, four distinct names, and a JSON body |
| LiveApi.ParseLimitDefault | smartstream-terraform/lambdas/live_api/lambda_function.py:35-45 | an absent or null limit, or one int() rejects with TypeError or ValueError, gives the default |
| LiveApi.ParseLimitSeparatorPadded | smartstream-terraform/lambdas/live_api/lambda_function.py:42-45 | a limit "\x1c5" gives the default: int() does not skip the ASCII separators that str.strip() does |
| LiveApi.ParseLimitTooManyDigits | smartstream-terraform/lambdas/live_api/lambda_function.py:42-45 | a limit of more than 4300 digits, on which int() raises ValueError, gives the default |
| LiveApi.ParseLimitAbsent | smartstream-terraform/lambdas/live_api/lambda_function.py:35-40 | an event without query parameters gives the default |
| LiveApi.ParseLimitRange | smartstream-terraform/lambdas/live_api/lambda_function.py:47 | with a default of at least 1 the limit lies in [1, default] |
| LiveApi.ParseLimitClamp | smartstream-terraform/lambdas/live_api/lambda_function.py:42-47 | an integer limit is kept inside [1, default], raised to 1 below it, lowered to max(1, default) above it |
| LiveApi.IntOfText | smartstream-terraform/lambdas/live_api/lambda_function.py:43 | int() reads back the decimal text of any integer of at most 4300 digits |
| Text.ParseFormatInt | smartstream-terraform/lambdas/live_api/lambda_function.py:43 | int(str(n)) == n for every n of at most 4300 digits, the integers str() itself accepts |
| Text.ParseDigitsLimit | smartstream-terraform/lambdas/live_api/lambda_function.py:43 | int() accepts a literal of plain digits iff it has at most 4300 digits |
| Text.ParseIntSeparatorPadded | smartstream-terraform/lambdas/live_api/lambda_function.py:43 | "\x1c5" strips to "5" under str.strip(), but int() rejects it |
| LiveApi.ParseItems | smartstream-terraform/lambdas/live_api/lambda_function.py:69-84 | the append loop returns ItemsOf the payload |
| LiveApi.ItemsBlank | smartstream-terraform/lambdas/live_api/lambda_function.py:70-72 | a blank payload yields no items |
| LiveApi.ItemsArray | smartstream-terraform/lambdas/live_api/lambda_function.py:74-76 | a payload starting with '[' gives the list's elements, a one-item list for a non-list, and raises on a parse failure |
| LiveApi.LineItemsSpec | smartstream-terraform/lambdas/live_api/lambda_function.py:78-84 | JSON Lines give one item per non-blank stripped line in order, and fail iff one of those lines fails to parse |
| LiveApi.LineItemsStop | smartstream-terraform/lambdas/live_api/lambda_function.py:78-84 | once a line fails, the whole payload fails |
| Text.SplitLines | smartstream-terraform/lambdas/live_api/lambda_function.py:79 | no line of splitlines holds a line boundary |
| Text.SplitLinesRebuild | smartstream-terraform/lambdas/live_api/lambda_function.py:79 | the lines, each followed by a terminator (the last possibly by none), rebuild the text, and "\r\n" is never cut in two |
| LiveApi.LaterIrreflexive | smartstream-terraform/lambdas/live_api/lambda_function.py:56 | no time is later than itself |
| LiveApi.LaterTransitive | smartstream-terraform/lambdas/live_api/lambda_function.py:56 | later-than is transitive |
| LiveApi.LaterTotal | smartstream-terraform/lambdas/live_api/lambda_function.py:56 | of two different times one is later |
| LiveApi.LatestObject | smartstream-terraform/lambdas/live_api/lambda_function.py:50-59 | the nested page/object loop returns LatestOf of the flattened listing |
| LiveApi.LatestOfSpec | smartstream-terraform/lambdas/live_api/lambda_function.py:50-59 | None iff nothing is listed; otherwise no listed object is later, and every object listed before it is strictly earlier (first wins ties) |
| LiveApi.FlattenSpec | smartstream-terraform/lambdas/live_api/lambda_function.py:54-55 | the listing is empty iff every page is; every object of a page is listed |
| LiveApi.LastItemsSpec | smartstream-terraform/lambdas/live_api/lambda_function.py:114 | items[-limit:] for limit ≥ 1 is the last min(limit, n) items in order |
| LiveApi.MissingMethodIsGet | smartstream-terraform/lambdas/live_api/lambda_function.py:88 | an event without requestContext is a GET |
| LiveApi.Dispatch | smartstream-terraform/lambdas/live_api/lambda_function.py:88-98 | OPTIONS gives 200 with only CORS headers and an empty body; any other non-GET gives 405 "Method not allowed" |
| LiveApi.NoObjectResponse | smartstream-terraform/lambdas/live_api/lambda_function.py:103-104 | with nothing listed a GET gives 200, no items, null key and time |
| LiveApi.ServedItems | smartstream-terraform/lambdas/live_api/lambda_function.py:100-118 | a served GET returns the last min(limit, n) items of the latest object with its key and time, at most the default many |
| LiveApi.LambdaHandler | smartstream-terraform/lambdas/live_api/lambda_function.py:87-118 | the handler returns HandlerResult of the event, the listing and the object read |
| LiveApi.ReadFailureRaises | smartstream-terraform/lambdas/live_api/lambda_function.py:104-109 | a GET whose latest object cannot be read, decoded or parsed raises |
| MlInference.ClassifyRules | smartstream-terraform/lambdas/ml/lambda_function.py:165-172 | technical iff engineering/tech; business iff sales/marketing and not technical; operations iff hr/admin and neither; other iff none |
| MlInference.ClassifyNoDepartment | smartstream-terraform/lambdas/ml/lambda_function.py:164-174 | no department gives "other"; classifying raises iff the department is not a string |
| MlInference.ClassifyCaseInsensitive | smartstream-terraform/lambdas/ml/lambda_function.py:166 | departments with equal lower-case text get the same category |
| MlInference.LowerUpper | smartstream-terraform/lambdas/ml/lambda_function.py:166 | texts differing only in ASCII letter case lower to the same text |
| MlInference.RecordLinesSpec | smartstream-terraform/lambdas/ml/lambda_function.py:108 | exactly the non-blank lines are parsed |
| MlInference.ProcessFile | smartstream-terraform/lambdas/ml/lambda_function.py:96-137 | the prediction loop returns FileResultOf the file |
| MlInference.PredictionsSpec | smartstream-terraform/lambdas/ml/lambda_function.py:112-122 | one prediction per record in order: its id or "unknown", its clock reading, its category, the file's key |
| MlInference.PredictionsFail | smartstream-terraform/lambdas/ml/lambda_function.py:112-137 | the predictions fail iff some record's prediction raises |
| MlInference.PredictionsStop | smartstream-terraform/lambdas/ml/lambda_function.py:132-137 | once a record raises, the whole file is an error |
| MlInference.FileResultSpec | smartstream-terraform/lambdas/ml/lambda_function.py:102-137 | a file errors iff it cannot be read, a non-blank line fails to parse or a prediction raises; otherwise one prediction per record, each tagged with the file |
| MlInference.UnknownId | smartstream-terraform/lambdas/ml/lambda_function.py:115 | a record without an id is credited to "unknown" |
| MlInference.WriteAnalytics | smartstream-terraform/lambdas/ml/lambda_function.py:187-203 | the extend loop yields AllPredictions; total_predictions is its length and files_processed counts every result |
| MlInference.AllPredictionsConcat | smartstream-terraform/lambdas/ml/lambda_function.py:190-193 | flattening distributes over concatenation of results |
| MlInference.AllPredictionsSpec | smartstream-terraform/lambdas/ml/lambda_function.py:190-199 | the total is the sum of per-file counts, errors counting zero; each prediction comes from a processed result |
| MlInference.DatePartitionShape | smartstream-terraform/lambdas/ml/lambda_function.py:182 | year=YYYY/month=MM/day=DD/ with two-digit month and day, each reading back as the date |
| MlInference.AnalyticsKeyShape | smartstream-terraform/lambdas/ml/lambda_function.py:177-184 | the key is prefix + date partition + ml_inference_ + YYYYMMDD_HHMMSS + .json |
| Clock.CompactStampShape | smartstream-terraform/lambdas/ml/lambda_function.py:183 | %Y%m%d_%H%M%S of a clock reading is fifteen characters whose fields read back as the time |
| MlInference.SamePartition | smartstream-terraform/lambdas/ml/lambda_function.py:76-77 | for one clock reading, the output key and the listing prefix share a year/month/day partition (the handler reads the clock twice, so across midnight they can differ) |
| MlInference.JsonKeysSpec | smartstream-terraform/lambdas/ml/lambda_function.py:89 | a listed key is kept iff it ends in ".json" |
| MlInference.ResultsSources | smartstream-terraform/lambdas/ml/lambda_function.py:48-51 | every flattened prediction names one of the processed files |
| MlInference.RunSources | smartstream-terraform/lambdas/ml/lambda_function.py:48-55 | every written prediction comes from one of the first ten listed .json files |
| MlInference.LambdaHandler | smartstream-terraform/lambdas/ml/lambda_function.py:26-66 | the handler returns RunOf the listing, texts and clock readings |
| MlInference.RunSpec | smartstream-terraform/lambdas/ml/lambda_function.py:36-66 | nothing is written iff no .json key is listed; otherwise files_processed is min(10, n) and the key is the analytics key |

## Left out

- S3 calls (`get_object`, `put_object`, `list_objects_v2`, the paginator), gzip
  decompression, UTF-8 decoding and `unquote_plus` are outside the model. Their
  results are inputs, and the writes are returned as values. `MaxKeys=100` of
  the ML listing is part of that listing input.
- A read that raises (`get_object`, gunzip or UTF-8 decoding) is modelled as
  `None` from the read input. Raises from `put_object`, from the listing calls
  and from a malformed event record (a `KeyError` on `record["s3"]`) are not
  modelled: those calls are taken to succeed.
- `json.loads` and `raw_decode` are parameters, not implementations. A parse is
  taken to return dicts with distinct keys.
- `LegacyTransform.ParsedValues`: the decoder's `None` stands only for the
  `JSONDecodeError` that ends the scan. Its other raises (`RecursionError` on
  deep nesting, `ValueError` on an integer literal of more than 4300 digits)
  would escape and abort `lambda_handler`. They are not modelled, so
  `LegacyTransform.HandlerCompletes` promises completion only for a decoder
  that raises nothing else.
- The md5 content hash is modelled as equality of the canonical (key-sorted)
  value, so hash collisions are not modelled.
- Floats are not part of the JSON value type:
  - float epoch timestamps, and fractional seconds in `isoformat`;
  - microseconds in `LastModified` and in `utcnow().isoformat()`.
- Clock readings are restricted to years 1000 to 9999. Below year 1000,
  `strftime("%Y")` padding differs between platforms.
- `MlInference.PredictionsSpec`: the `score` (`calculate_placeholder_score`)
  and the constant `confidence` 0.85 are floats and are not in the prediction.
  Only the one way the score raises is modelled: an int salary too large for
  `float()`, which causes `OverflowError`.
- `MlInference.WriteAnalytics`: the document is returned as a value. Its
  `json.dumps(indent=2)` text is not produced.
- `RawToTrusted.HandleEvent` returns the writes and whether the handler
  returned. The fixed `{"statusCode": 200, …}` reply text is not produced.
- `MlInference.LambdaHandler` returns the output key and the analytics
  document. Its reply text is not produced: the message, `files_processed` and
  `output_key` are all recoverable from the returned run.
- `Text.Lower` models `str.lower()` only as far as comparisons against ASCII
  patterns need. It lowers ASCII letters and the Kelvin sign; other letters are
  left as they are.
- `int()` of a string accepts only ASCII digits. Python's Unicode decimal
  digits are not modelled. The digit limit is the default 4300; a limit set
  through `PYTHONINTMAXSTRDIGITS` is not modelled.
- Error message texts are not modelled, only that an error occurred:
  - the `error` string of a failed ML file;
  - the exception text printed by the handlers.
- Also outside the model:
  - `print` logging;
  - environment-variable loading (configuration is a parameter);
  - the raw-to-trusted handler's outer `except`, which only logs and re-raises
    (the raise is the run's `completed` flag).
- `MLModelLambda.py`, `MLModel.py` and `LoadDataToPostgres.py` are not part of
  this model. They hold model training, plotting and a database load through
  foreign libraries.
