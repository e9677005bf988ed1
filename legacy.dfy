/**
 * The legacy raw-to-trusted Lambda (LambdaCode.py): a file body of
 * concatenated JSON values is scanned value by value, each DMS record is
 * mapped onto the flat trusted schema, and the records of type "data" are
 * written as JSON Lines under an ingest-date partition.
 */
module LegacyTransform {
  import opened Text
  import opened Clock
  import opened JsonValue
  import opened S3

  // ---------------------------------------------------------------------
  // parse_raw_body
  // ---------------------------------------------------------------------

  /**
   * A stand-in for json.JSONDecoder().raw_decode(s, i): None where it raises
   * JSONDecodeError, otherwise the value and the index just past it, which
   * lies beyond `i` and within `s`.
   */
  ghost predicate IsRawDecode(decode: (string, nat) -> Option<(Json, nat)>)
  {
    forall s, i: nat :: decode(s, i).Some? ==> i < decode(s, i).value.1 <= |s|
  }

  /** One decoded value: where it starts, the value, and where it ends. */
  datatype Chunk = Chunk(start: nat, value: Json, end: nat)

  /** The values the scan decodes from index `i` on, until the body ends or a chunk fails to decode. */
  function Chunks(decode: (string, nat) -> Option<(Json, nat)>, body: string, i: nat): seq<Chunk>
    requires IsRawDecode(decode) && i <= |body|
    decreases |body| - i
  {
    var start := SkipSpace(body, i);
    if start == |body| then []
    else
      match decode(body, start)
      case None => []
      case Some((value, end)) => [Chunk(start, value, end)] + Chunks(decode, body, end)
  }

  function Values(chunks: seq<Chunk>): (r: seq<Json>)
    ensures |r| == |chunks| && forall k :: 0 <= k < |chunks| ==> r[k] == chunks[k].value
  {
    seq(|chunks|, k requires 0 <= k < |chunks| => chunks[k].value)
  }

  /** What parse_raw_body returns for a body. */
  function ParsedValues(decode: (string, nat) -> Option<(Json, nat)>, body: string): seq<Json>
    requires IsRawDecode(decode)
  {
    var b := Strip(body);
    if b == "" then [] else Values(Chunks(decode, b, 0))
  }

  /** An empty or whitespace-only body yields no values. */
  lemma ParseBlank(decode: (string, nat) -> Option<(Json, nat)>, body: string)
    requires IsRawDecode(decode) && AllSpace(body)
    ensures ParsedValues(decode, body) == []
  {
    StripEmptyIffAllSpace(body);
  }

  /**
   * Each chunk starts at a non-space character at or after `i`, is where
   * the decoder found its value, and ends where the decoder says.
   */
  lemma {:induction false} ChunksSound(decode: (string, nat) -> Option<(Json, nat)>, body: string, i: nat)
    requires IsRawDecode(decode) && i <= |body|
    ensures forall c :: c in Chunks(decode, body, i) ==>
      i <= c.start < c.end <= |body| && !IsSpace(body[c.start]) &&
      decode(body, c.start) == Some((c.value, c.end))
    decreases |body| - i
  {
    var start := SkipSpace(body, i);
    if start < |body| && decode(body, start).Some? {
      var (value, end) := decode(body, start).value;
      ChunksSound(decode, body, end);
      assert Chunks(decode, body, i) == [Chunk(start, value, end)] + Chunks(decode, body, end);
    }
  }

  /**
   * Only whitespace lies between `from` and the first chunk and between
   * each chunk and the next, so the chunks follow one another in order.
   */
  predicate SpaceBetween(body: string, from: nat, cs: seq<Chunk>)
    decreases |cs|
  {
    |cs| == 0 ||
    (from <= cs[0].start <= |body| && AllSpace(body[from..cs[0].start]) &&
     SpaceBetween(body, cs[0].end, cs[1..]))
  }

  lemma {:induction false} ChunksGaps(decode: (string, nat) -> Option<(Json, nat)>, body: string, i: nat)
    requires IsRawDecode(decode) && i <= |body|
    ensures SpaceBetween(body, i, Chunks(decode, body, i))
    decreases |body| - i
  {
    var start := SkipSpace(body, i);
    if start < |body| && decode(body, start).Some? {
      var (value, end) := decode(body, start).value;
      ChunksGaps(decode, body, end);
      var cs := Chunks(decode, body, i);
      assert cs == [Chunk(start, value, end)] + Chunks(decode, body, end);
      assert cs[1..] == Chunks(decode, body, end);
      assert AllSpace(body[i..start]);
    }
  }

  /**
   * The scan stops only at the end of the body or where the next value does
   * not decode: nothing after a failure is returned.
   */
  lemma {:induction false} ChunksStop(decode: (string, nat) -> Option<(Json, nat)>, body: string, i: nat)
    requires IsRawDecode(decode) && i <= |body|
    ensures var cs := Chunks(decode, body, i);
      var last := if |cs| == 0 then i else cs[|cs| - 1].end;
      last <= |body| &&
      (var next := SkipSpace(body, last);
       next == |body| || decode(body, next).None?)
    decreases |body| - i
  {
    var start := SkipSpace(body, i);
    if start < |body| && decode(body, start).Some? {
      var (value, end) := decode(body, start).value;
      ChunksStop(decode, body, end);
      var cs := Chunks(decode, body, i);
      var rest := Chunks(decode, body, end);
      assert cs == [Chunk(start, value, end)] + rest;
      if |rest| > 0 {
        assert cs[|cs| - 1] == rest[|rest| - 1];
      }
    }
  }

  /** The scan from any index of a whitespace run is the scan from its end. */
  lemma ChunksAfterSpace(decode: (string, nat) -> Option<(Json, nat)>, body: string, i: nat)
    requires IsRawDecode(decode) && i <= |body|
    ensures Chunks(decode, body, i) == Chunks(decode, body, SkipSpace(body, i))
  {
  }

  /** The scan ends at the end of the body or at a value that does not decode. */
  lemma ChunksEnd(decode: (string, nat) -> Option<(Json, nat)>, body: string, i: nat)
    requires IsRawDecode(decode) && i <= |body|
    requires i == |body| || (!IsSpace(body[i]) && decode(body, i).None?)
    ensures Chunks(decode, body, i) == []
  {
  }

  /** A value decoded at a non-space index heads the scan from there. */
  lemma ChunksDecoded(decode: (string, nat) -> Option<(Json, nat)>, body: string, i: nat, obj: Json, end: nat)
    requires IsRawDecode(decode) && i < |body| && !IsSpace(body[i])
    requires decode(body, i) == Some((obj, end))
    ensures end <= |body|
    ensures Values(Chunks(decode, body, i)) == [obj] + Values(Chunks(decode, body, end))
  {
    assert Chunks(decode, body, i) == [Chunk(i, obj, end)] + Chunks(decode, body, end);
  }

  /** parse_raw_body's inner loop: the index of the first non-whitespace character from `from` on, or |b|. */
  method SkipWhitespace(b: string, from: nat) returns (idx: nat)
    requires from <= |b|
    ensures idx == SkipSpace(b, from)
  {
    idx := from;
    while idx < |b| && IsSpace(b[idx])
      invariant from <= idx <= |b|
      invariant SkipSpace(b, idx) == SkipSpace(b, from)
    {
      idx := idx + 1;
    }
  }

  /** parse_raw_body: a scan that skips whitespace and decodes one value at a time. */
  method ParseRawBody(decode: (string, nat) -> Option<(Json, nat)>, body: string) returns (records: seq<Json>)
    requires IsRawDecode(decode)
    ensures records == ParsedValues(decode, body)
  {
    var b := Strip(body);
    if b == "" {
      return [];
    }
    ghost var all := Values(Chunks(decode, b, 0));
    assert ParsedValues(decode, body) == all;
    records := [];
    var idx: nat := 0;
    var length := |b|;
    while idx < length
      invariant idx <= length
      invariant records + Values(Chunks(decode, b, idx)) == all
      decreases length - idx
    {
      ChunksAfterSpace(decode, b, idx);
      idx := SkipWhitespace(b, idx);
      if idx >= length {
        ChunksEnd(decode, b, idx);
        assert records + [] == records;
        return;
      }
      var decoded := decode(b, idx);
      if decoded.None? {
        ChunksEnd(decode, b, idx);
        assert records + [] == records;
        return;
      }
      var (obj, end) := decoded.value;
      ChunksDecoded(decode, b, idx, obj, end);
      assert records + ([obj] + Values(Chunks(decode, b, end))) == (records + [obj]) + Values(Chunks(decode, b, end));
      records := records + [obj];
      idx := end;
    }
    ChunksEnd(decode, b, idx);
    assert records + [] == records;
  }

  // ---------------------------------------------------------------------
  // transform_record
  // ---------------------------------------------------------------------

  /** What transform_record does with one record: raise, return None, or return a trusted record. */
  datatype Outcome = Fail | Skip | Keep(record: Json)

  /** str(v).lower() == "yes": only a string can print as "yes" in any case. */
  predicate IsYes(v: Json)
  {
    v.Str? && Lower(v.s) == "yes"
  }

  /** The names of the trusted schema, in the order the record is built. */
  const TrustedFields: seq<string> := [
    "id", "education", "joining_year", "city", "payment_tier", "age", "gender",
    "ever_benched", "experience_years", "leave_or_not", "op_type", "source_timestamp",
    "ingest_timestamp", "schema_name", "table_name", "transaction_id"]

  /**
   * transform_record(raw) with `ingest` the isoformat() text of the clock
   * reading taken for this record. Fail where a `.get` is called on a value
   * that is not a dict (the raw record, its metadata, or its data).
   */
  function TransformRecord(raw: Json, ingest: string): Outcome
  {
    if !raw.Obj? then Fail
    else
      var metadata := GetOr(raw.fields, "metadata", Obj([]));
      if !metadata.Obj? then Fail
      else if Get(metadata.fields, "record-type") != Some(Str("data")) then Skip
      else
        var data := GetOr(raw.fields, "data", Obj([]));
        if !data.Obj? then Fail
        else
          Keep(TrustedRecord(data.fields, metadata.fields, ingest))
  }

  /**
   * The value transform_record gives the i-th trusted field, from the
   * record's data `d` and metadata `m`: the business fields are renamed, the
   * DMS metadata fields copied, each missing one becoming null.
   */
  function TrustedValue(i: nat, d: seq<(string, Json)>, m: seq<(string, Json)>, ingest: string): Json
  {
    match i
    case 0 => GetOr(d, "id", Null) // id
    case 1 => GetOr(d, "education", Null) // education
    case 2 => GetOr(d, "joiningyear", Null) // joining_year
    case 3 => GetOr(d, "city", Null) // city
    case 4 => GetOr(d, "paymenttier", Null) // payment_tier
    case 5 => GetOr(d, "age", Null) // age
    case 6 => GetOr(d, "gender", Null) // gender
    case 7 => Bool(IsYes(GetOr(d, "everbenched", Str("")))) // ever_benched
    case 8 => GetOr(d, "experienceincurrentdomain", Null) // experience_years
    case 9 => GetOr(d, "leaveornot", Null) // leave_or_not
    case 10 => GetOr(m, "operation", Null) // op_type
    case 11 => GetOr(m, "timestamp", Null) // source_timestamp
    case 12 => Str(ingest) // ingest_timestamp
    case 13 => GetOr(m, "schema-name", Null) // schema_name
    case 14 => GetOr(m, "table-name", Null) // table_name
    case _ => GetOr(m, "transaction-id", Null) // transaction_id
  }

  /** The trusted dict: the schema fields in order, each with its value. */
  function TrustedRecord(d: seq<(string, Json)>, m: seq<(string, Json)>, ingest: string): (r: Json)
    ensures r.Obj? && Keys(r.fields) == TrustedFields
  {
    Obj(seq(|TrustedFields|, i requires 0 <= i < |TrustedFields| =>
      (TrustedFields[i], TrustedValue(i, d, m, ingest))))
  }

  /** The record-type a dict record declares, metadata defaulting to {}. */
  function RecordType(raw: Json): Option<Json>
    requires raw.Obj?
  {
    var metadata := GetOr(raw.fields, "metadata", Obj([]));
    if metadata.Obj? then Get(metadata.fields, "record-type") else None
  }

  /**
   * A dict record whose metadata is a dict (or missing) is skipped exactly
   * when its record-type is not "data"; missing metadata means skipped.
   */
  lemma SkipIffNotData(raw: Json, ingest: string)
    requires raw.Obj? && GetOr(raw.fields, "metadata", Obj([])).Obj?
    ensures TransformRecord(raw, ingest).Skip? <==> RecordType(raw) != Some(Str("data"))
    ensures !HasKey(raw.fields, "metadata") ==> TransformRecord(raw, ingest).Skip?
  {
  }

  /**
   * transform_record raises exactly when the record, its metadata, or (for a
   * "data" record) its data is present but not a dict; a kept record is the
   * trusted dict of its data and metadata, with the sixteen schema fields in
   * order and distinct.
   */
  lemma TransformRecordOutcome(raw: Json, ingest: string)
    ensures TransformRecord(raw, ingest).Fail? <==>
      !raw.Obj? || !GetOr(raw.fields, "metadata", Obj([])).Obj? ||
      (RecordType(raw) == Some(Str("data")) && !GetOr(raw.fields, "data", Obj([])).Obj?)
    ensures TransformRecord(raw, ingest).Keep? ==>
      var d := GetOr(raw.fields, "data", Obj([])).fields;
      var m := GetOr(raw.fields, "metadata", Obj([])).fields;
      var t := TransformRecord(raw, ingest).record;
      t == TrustedRecord(d, m, ingest) && Keys(t.fields) == TrustedFields && UniqueKeys(t.fields)
  {
    if TransformRecord(raw, ingest).Keep? {
      TrustedRecordKeys(GetOr(raw.fields, "data", Obj([])).fields, GetOr(raw.fields, "metadata", Obj([])).fields, ingest);
    }
  }

  /** The trusted record has exactly the sixteen schema fields, in order and distinct. */
  lemma TrustedRecordKeys(d: seq<(string, Json)>, m: seq<(string, Json)>, ingest: string)
    ensures var t := TrustedRecord(d, m, ingest).fields;
      Keys(t) == TrustedFields && UniqueKeys(t)
  {
    var t := TrustedRecord(d, m, ingest).fields;
    TrustedFieldsDistinct();
    assert forall i :: 0 <= i < |t| ==> t[i].0 == Keys(t)[i];
  }

  /** Looking up a schema field in the trusted record finds that field's value. */
  lemma TrustedGet(d: seq<(string, Json)>, m: seq<(string, Json)>, ingest: string, i: nat)
    requires i < |TrustedFields|
    ensures Get(TrustedRecord(d, m, ingest).fields, TrustedFields[i]) ==
      Some(TrustedValue(i, d, m, ingest))
  {
    TrustedRecordKeys(d, m, ingest);
    GetAt(TrustedRecord(d, m, ingest).fields, i);
  }

  /** Every schema field of the trusted record holds its TrustedValue, and no other key is present. */
  lemma TrustedLookup(d: seq<(string, Json)>, m: seq<(string, Json)>, ingest: string)
    ensures var t := TrustedRecord(d, m, ingest).fields;
      (forall i :: 0 <= i < |TrustedFields| ==>
        Get(t, TrustedFields[i]) == Some(TrustedValue(i, d, m, ingest))) &&
      (forall k :: HasKey(t, k) <==> k in TrustedFields)
  {
    forall i | 0 <= i < |TrustedFields|
      ensures Get(TrustedRecord(d, m, ingest).fields, TrustedFields[i]) ==
        Some(TrustedValue(i, d, m, ingest))
    {
      TrustedGet(d, m, ingest, i);
    }
  }

  /**
   * ever_benched (field 7) is true exactly for a string everbenched that
   * lower-cases to "yes", in any letter case; a missing one or any other
   * value gives false.
   */
  lemma EverBenched(d: seq<(string, Json)>, m: seq<(string, Json)>, ingest: string)
    ensures TrustedFields[7] == "ever_benched"
    ensures TrustedValue(7, d, m, ingest) == Bool(true) <==>
      exists s :: Get(d, "everbenched") == Some(Str(s)) && Lower(s) == "yes"
    ensures !HasKey(d, "everbenched") ==> TrustedValue(7, d, m, ingest) == Bool(false)
  {
    var g := Get(d, "everbenched");
    var e := GetOr(d, "everbenched", Str(""));
    assert TrustedValue(7, d, m, ingest) == Bool(IsYes(e));
    if g.None? {
      assert e == Str("");
      assert Lower("") == "";
    } else {
      assert e == g.value;
    }
  }

  /**
   * The trusted record, field by field: each business field holds its data
   * field under the source's own name (renamed where the schema renames it),
   * each DMS field its metadata field, null where missing; ever_benched is
   * the "yes" test (EverBenched); ingest_timestamp is the clock reading.
   */
  lemma TrustedRecordFields(d: seq<(string, Json)>, m: seq<(string, Json)>, ingest: string)
    ensures var t := TrustedRecord(d, m, ingest).fields;
      Get(t, "id") == Some(GetOr(d, "id", Null)) &&
      Get(t, "education") == Some(GetOr(d, "education", Null)) &&
      Get(t, "joining_year") == Some(GetOr(d, "joiningyear", Null)) &&
      Get(t, "city") == Some(GetOr(d, "city", Null)) &&
      Get(t, "payment_tier") == Some(GetOr(d, "paymenttier", Null)) &&
      Get(t, "age") == Some(GetOr(d, "age", Null)) &&
      Get(t, "gender") == Some(GetOr(d, "gender", Null)) &&
      Get(t, "ever_benched") == Some(TrustedValue(7, d, m, ingest)) &&
      Get(t, "experience_years") == Some(GetOr(d, "experienceincurrentdomain", Null)) &&
      Get(t, "leave_or_not") == Some(GetOr(d, "leaveornot", Null))
    ensures var t := TrustedRecord(d, m, ingest).fields;
      Get(t, "op_type") == Some(GetOr(m, "operation", Null)) &&
      Get(t, "source_timestamp") == Some(GetOr(m, "timestamp", Null)) &&
      Get(t, "ingest_timestamp") == Some(Str(ingest)) &&
      Get(t, "schema_name") == Some(GetOr(m, "schema-name", Null)) &&
      Get(t, "table_name") == Some(GetOr(m, "table-name", Null)) &&
      Get(t, "transaction_id") == Some(GetOr(m, "transaction-id", Null))
  {
    TrustedFieldNames();
    NamedGet(d, m, ingest, 0, "id");
    NamedGet(d, m, ingest, 1, "education");
    NamedGet(d, m, ingest, 2, "joining_year");
    NamedGet(d, m, ingest, 3, "city");
    NamedGet(d, m, ingest, 4, "payment_tier");
    NamedGet(d, m, ingest, 5, "age");
    NamedGet(d, m, ingest, 6, "gender");
    NamedGet(d, m, ingest, 7, "ever_benched");
    NamedGet(d, m, ingest, 8, "experience_years");
    NamedGet(d, m, ingest, 9, "leave_or_not");
    NamedGet(d, m, ingest, 10, "op_type");
    NamedGet(d, m, ingest, 11, "source_timestamp");
    NamedGet(d, m, ingest, 12, "ingest_timestamp");
    NamedGet(d, m, ingest, 13, "schema_name");
    NamedGet(d, m, ingest, 14, "table_name");
    NamedGet(d, m, ingest, 15, "transaction_id");
  }

  /** The schema's field names by position. */
  lemma TrustedFieldNames()
    ensures TrustedFields[0] == "id"
    ensures TrustedFields[1] == "education"
    ensures TrustedFields[2] == "joining_year"
    ensures TrustedFields[3] == "city"
    ensures TrustedFields[4] == "payment_tier"
    ensures TrustedFields[5] == "age"
    ensures TrustedFields[6] == "gender"
    ensures TrustedFields[7] == "ever_benched"
    ensures TrustedFields[8] == "experience_years"
    ensures TrustedFields[9] == "leave_or_not"
    ensures TrustedFields[10] == "op_type"
    ensures TrustedFields[11] == "source_timestamp"
    ensures TrustedFields[12] == "ingest_timestamp"
    ensures TrustedFields[13] == "schema_name"
    ensures TrustedFields[14] == "table_name"
    ensures TrustedFields[15] == "transaction_id"
  {
  }

  /** Looking up a schema field by its name finds that field's value. */
  lemma NamedGet(d: seq<(string, Json)>, m: seq<(string, Json)>, ingest: string, i: nat, name: string)
    requires i < |TrustedFields| && TrustedFields[i] == name
    ensures Get(TrustedRecord(d, m, ingest).fields, name) == Some(TrustedValue(i, d, m, ingest))
  {
    TrustedGet(d, m, ingest, i);
  }

  /** In a dict with distinct keys, looking up the i-th key finds the i-th value. */
  lemma GetAt(fields: seq<(string, Json)>, i: nat)
    requires UniqueKeys(fields) && i < |fields|
    ensures Get(fields, fields[i].0) == Some(fields[i].1)
  {
    var v := Get(fields, fields[i].0);
    assert HasKey(fields, fields[i].0) by {
      assert Keys(fields)[i] == fields[i].0;
    }
    assert (fields[i].0, v.value) in fields;
  }

  /** The position of a name in TrustedFields. */
  function TrustedIndex(name: string): nat
  {
    if name == "id" then 0 else if name == "education" then 1 else if name == "joining_year" then 2
    else if name == "city" then 3 else if name == "payment_tier" then 4 else if name == "age" then 5
    else if name == "gender" then 6 else if name == "ever_benched" then 7
    else if name == "experience_years" then 8 else if name == "leave_or_not" then 9
    else if name == "op_type" then 10 else if name == "source_timestamp" then 11
    else if name == "ingest_timestamp" then 12 else if name == "schema_name" then 13
    else if name == "table_name" then 14 else if name == "transaction_id" then 15
    else 16
  }

  lemma TrustedFieldsDistinct()
    ensures forall i, j :: 0 <= i < j < |TrustedFields| ==> TrustedFields[i] != TrustedFields[j]
  {
    assert forall i :: 0 <= i < |TrustedFields| ==> TrustedIndex(TrustedFields[i]) == i;
  }

  // ---------------------------------------------------------------------
  // process_s3_object
  // ---------------------------------------------------------------------

  /**
   * The records kept from the outcomes of transform_record, in order; None
   * when one of them raised, which aborts the object.
   */
  function Collect(outcomes: seq<Outcome>): Option<seq<Json>>
  {
    if |outcomes| == 0 then Some([])
    else
      match Collect(outcomes[..|outcomes| - 1])
      case None => None
      case Some(kept) =>
        match outcomes[|outcomes| - 1]
        case Fail => None
        case Skip => Some(kept)
        case Keep(t) => Some(kept + [t])
  }

  /**
   * Collecting is done record by record: the records of a concatenation are
   * the records of each part in order, and a failure anywhere fails the whole.
   */
  lemma {:induction false} CollectConcat(a: seq<Outcome>, b: seq<Outcome>)
    ensures Collect(a + b) ==
      if Collect(a).Some? && Collect(b).Some? then Some(Collect(a).value + Collect(b).value) else None
  {
    if |b| == 0 {
      assert a + b == a;
      assert Collect(b) == Some([]);
      if Collect(a).Some? {
        assert Collect(a).value + [] == Collect(a).value;
      }
    } else {
      var b' := b[..|b| - 1];
      assert (a + b)[..|a + b| - 1] == a + b';
      assert (a + b)[|a + b| - 1] == b[|b| - 1];
      CollectConcat(a, b');
      if Collect(a).Some? && Collect(b').Some? && b[|b| - 1].Keep? {
        var t := b[|b| - 1].record;
        assert Collect(a).value + Collect(b').value + [t] == Collect(a).value + (Collect(b').value + [t]);
      }
    }
  }

  /** One outcome alone: kept, dropped or failing. */
  lemma CollectOne(o: Outcome)
    ensures Collect([o]) ==
      match o
      case Fail => None
      case Skip => Some([])
      case Keep(t) => Some([t])
  {
    assert [o][..0] == [];
    assert Collect([o][..0]) == Some([]);
    assert [o][|[o]| - 1] == o;
    if o.Keep? {
      assert [] + [o.record] == [o.record];
    }
  }

  /** The object fails exactly when some record's transform_record raises. */
  lemma {:induction false} CollectFails(outcomes: seq<Outcome>)
    ensures Collect(outcomes).None? <==> exists i :: 0 <= i < |outcomes| && outcomes[i].Fail?
  {
    if |outcomes| > 0 {
      var prev := outcomes[..|outcomes| - 1];
      CollectFails(prev);
      assert forall i :: 0 <= i < |prev| ==> prev[i] == outcomes[i];
    }
  }

  /** What process_s3_object does with one object; a write names the bucket it lands in. */
  datatype ObjectResult = Failed | NoWrite | Wrote(bucket: string, key: string, body: string)

  const TrustedPrefix: string := "data/trusted/"

  /** data/trusted/ingest_date=YYYY-MM-DD/<id>.json */
  function OutputKey(today: DateTime, id: string): string
  {
    TrustedPrefix + "ingest_date=" + DateText(today) + "/" + id + ".json"
  }

  /** The output key sits in the partition of the day the object was processed. */
  lemma OutputKeyShape(today: DateTime, id: string)
    requires IsClockReading(today)
    ensures var k := OutputKey(today, id);
      StartsWith(k, "data/trusted/ingest_date=") && k[25..35] == DateText(today) &&
      k[35] == '/' && k[36..] == id + ".json" && EndsWith(k, ".json")
  {
    DateTextShape(today);
    var d := DateText(today);
    assert TrustedPrefix + "ingest_date=" == "data/trusted/ingest_date=";
    KeyFields("data/trusted/ingest_date=", d, id);
  }

  /** The fields of a key made of a 25-character prefix, a 10-character date, "/", a name and ".json". */
  lemma KeyFields(p: string, d: string, id: string)
    requires |p| == 25 && |d| == 10
    ensures var k := p + d + "/" + id + ".json";
      StartsWith(k, p) && k[25..35] == d && k[35] == '/' && k[36..] == id + ".json" && EndsWith(k, ".json")
  {
    var k := p + d + "/" + id + ".json";
    assert k[..25] == p;
    assert k[25..35] == d;
    assert k[36..] == id + ".json";
    assert k[|k| - 5..] == ".json";
  }

  /** "\n".join(json.dumps(r) for r in records) */
  function Lines(records: seq<Json>): string
  {
    Join(seq(|records|, i requires 0 <= i < |records| => Dumps(records[i])), '\n')
  }

  /** transform_record applied to each raw record with its clock reading. */
  function Outcomes(raws: seq<Json>, clock: nat -> string): (r: seq<Outcome>)
    ensures |r| == |raws|
  {
    seq(|raws|, i requires 0 <= i < |raws| => TransformRecord(raws[i], clock(i)))
  }

  function ProcessResult(decode: (string, nat) -> Option<(Json, nat)>, bucket: string, body: string,
                         clock: nat -> string, today: DateTime, id: string): ObjectResult
    requires IsRawDecode(decode)
  {
    var raws := ParsedValues(decode, body);
    match Collect(Outcomes(raws, clock))
    case None => Failed
    case Some(kept) => if kept == [] then NoWrite else Wrote(bucket, OutputKey(today, id), Lines(kept))
  }

  /**
   * process_s3_object for one object's decoded text; `bucket` is the
   * object's bucket, which the write goes back to. `clock(i)` is the
   * isoformat() reading taken while transforming the i-th raw record,
   * `today` the reading behind the ingest_date partition and `id` the uuid4
   * text of the output name.
   */
  method ProcessObject(decode: (string, nat) -> Option<(Json, nat)>, bucket: string, body: string,
                       clock: nat -> string, today: DateTime, id: string) returns (result: ObjectResult)
    requires IsRawDecode(decode)
    ensures result == ProcessResult(decode, bucket, body, clock, today, id)
  {
    var raws := ParseRawBody(decode, body);
    ghost var outcomes := Outcomes(raws, clock);
    var trusted: seq<Json> := [];
    for i := 0 to |raws|
      invariant Collect(outcomes[..i]) == Some(trusted)
    {
      assert outcomes[..i + 1] == outcomes[..i] + [outcomes[i]];
      CollectConcat(outcomes[..i], [outcomes[i]]);
      CollectOne(outcomes[i]);
      var outcome := TransformRecord(raws[i], clock(i));
      match outcome {
        case Fail =>
          assert outcomes[i].Fail?;
          CollectFails(outcomes);
          return Failed;
        case Skip =>
        case Keep(t) =>
          trusted := trusted + [t];
      }
    }
    assert outcomes[..|raws|] == outcomes;
    if trusted == [] {
      return NoWrite;
    }
    result := Wrote(bucket, OutputKey(today, id), Lines(trusted));
  }

  /**
   * The object fails exactly when a transform_record call raised, is written
   * exactly when the records it kept are not empty, and then its body holds
   * one json.dumps line per kept record, in order.
   */
  lemma WrittenBody(decode: (string, nat) -> Option<(Json, nat)>, bucket: string, body: string,
                    clock: nat -> string, today: DateTime, id: string)
    requires IsRawDecode(decode)
    ensures var r := ProcessResult(decode, bucket, body, clock, today, id);
      var c := Collect(Outcomes(ParsedValues(decode, body), clock));
      (r.Wrote? <==> c.Some? && c.value != []) &&
      (r.Failed? <==> c.None?) &&
      (r.Wrote? ==>
        Split(r.body, '\n') == seq(|c.value|, i requires 0 <= i < |c.value| => Dumps(c.value[i])))
  {
    var raws := ParsedValues(decode, body);
    var c := Collect(Outcomes(raws, clock));
    if c.Some? && c.value != [] {
      var kept := c.value;
      var parts := seq(|kept|, i requires 0 <= i < |kept| => Dumps(kept[i]));
      forall i | 0 <= i < |parts| ensures '\n' !in parts[i] {
        DumpsOneLine(kept[i]);
      }
      SplitJoin(parts, '\n');
    }
  }

  // ---------------------------------------------------------------------
  // lambda_handler
  // ---------------------------------------------------------------------

  /**
   * How lambda_handler ends: the writes made, in order, and whether it
   * returned {"status": "ok", "processed_files": n} or raised part way.
   */
  datatype HandlerRun = HandlerRun(writes: seq<ObjectResult>, completed: bool)

  /**
   * The run over the event's objects: `read` is the get_object body of each
   * object decoded as UTF-8, or None where the read or the decode raises;
   * `clock(j)`, `today(j)`, `id(j)` are the readings and uuid for the j-th
   * object. A failing object stops the run; the objects written before it
   * stay written.
   */
  function HandlerRunOf(decode: (string, nat) -> Option<(Json, nat)>, read: ObjectRef -> Option<string>,
                        clock: nat -> nat -> string, today: nat -> DateTime, id: nat -> string,
                        objects: seq<ObjectRef>): HandlerRun
    requires IsRawDecode(decode)
  {
    RunOf(Results(decode, read, clock, today, id, objects))
  }

  /**
   * process_s3_object for one object of the event: Failed where get_object,
   * the UTF-8 decode or a transform_record raises.
   */
  function Processed(decode: (string, nat) -> Option<(Json, nat)>, read: ObjectRef -> Option<string>,
                     clock: nat -> string, today: DateTime, id: string, o: ObjectRef): ObjectResult
    requires IsRawDecode(decode)
  {
    match read(o)
    case None => Failed
    case Some(body) => ProcessResult(decode, o.bucket, body, clock, today, id)
  }

  /** What process_s3_object does with each object, the j-th with its own readings and uuid. */
  function Results(decode: (string, nat) -> Option<(Json, nat)>, read: ObjectRef -> Option<string>,
                   clock: nat -> nat -> string, today: nat -> DateTime, id: nat -> string,
                   objects: seq<ObjectRef>): (rs: seq<ObjectResult>)
    requires IsRawDecode(decode)
    ensures |rs| == |objects|
  {
    seq(|objects|, j requires 0 <= j < |objects| => Processed(decode, read, clock(j), today(j), id(j), objects[j]))
  }

  /** The handler's loop over the objects' results: a failure stops it, and only Wrote results are writes. */
  function RunOf(rs: seq<ObjectResult>): HandlerRun
  {
    if |rs| == 0 then HandlerRun([], true)
    else
      var prev := RunOf(rs[..|rs| - 1]);
      var r := rs[|rs| - 1];
      if !prev.completed then prev
      else
        match r
        case Failed => HandlerRun(prev.writes, false)
        case NoWrite => prev
        case Wrote(_, _, _) => HandlerRun(prev.writes + [r], true)
  }

  /** lambda_handler: process_s3_object for each event record in order. */
  method LambdaHandler(decode: (string, nat) -> Option<(Json, nat)>, read: ObjectRef -> Option<string>,
                       clock: nat -> nat -> string, today: nat -> DateTime, id: nat -> string,
                       objects: seq<ObjectRef>) returns (writes: seq<ObjectResult>, processedFiles: Option<nat>)
    requires IsRawDecode(decode)
    ensures var run := HandlerRunOf(decode, read, clock, today, id, objects);
      writes == run.writes && (processedFiles.Some? <==> run.completed)
    ensures processedFiles.Some? ==> processedFiles.value == |objects|
  {
    ghost var rs := Results(decode, read, clock, today, id, objects);
    writes := [];
    for j := 0 to |objects|
      invariant RunOf(rs[..j]) == HandlerRun(writes, true)
    {
      assert rs[..j + 1][..j] == rs[..j];
      assert rs[j] == Processed(decode, read, clock(j), today(j), id(j), objects[j]);
      var body := read(objects[j]);
      if body.None? {
        RunStops(rs, j + 1);
        assert rs[..|rs|] == rs;
        return writes, None;
      }
      var result := ProcessObject(decode, objects[j].bucket, body.value, clock(j), today(j), id(j));
      if result.Failed? {
        RunStops(rs, j + 1);
        assert rs[..|rs|] == rs;
        return writes, None;
      }
      if result.Wrote? {
        writes := writes + [result];
      }
    }
    assert rs[..|objects|] == rs;
    processedFiles := Some(|objects|);
  }

  /** Once the run has stopped, later objects change nothing. */
  lemma {:induction false} RunStops(rs: seq<ObjectResult>, j: nat)
    requires j <= |rs|
    requires !RunOf(rs[..j]).completed
    ensures RunOf(rs) == RunOf(rs[..j])
    decreases |rs| - j
  {
    if j < |rs| {
      assert rs[..j + 1][..j] == rs[..j];
      RunStops(rs, j + 1);
    } else {
      assert rs[..j] == rs;
    }
  }

  /** The run completes exactly when no object's result is a failure. */
  lemma {:induction false} RunCompletes(rs: seq<ObjectResult>)
    ensures RunOf(rs).completed <==> forall j :: 0 <= j < |rs| ==> !rs[j].Failed?
  {
    if |rs| > 0 {
      var prev := rs[..|rs| - 1];
      RunCompletes(prev);
      assert forall j :: 0 <= j < |prev| ==> prev[j] == rs[j];
    }
  }

  /** The Wrote results among `rs`, in order. */
  function WroteResults(rs: seq<ObjectResult>): seq<ObjectResult>
  {
    if |rs| == 0 then []
    else WroteResults(rs[..|rs| - 1]) + (if rs[|rs| - 1].Wrote? then [rs[|rs| - 1]] else [])
  }

  /** On a run that completes, the writes are exactly the Wrote results, in order. */
  lemma {:induction false} RunWritesExact(rs: seq<ObjectResult>)
    requires RunOf(rs).completed
    ensures RunOf(rs).writes == WroteResults(rs)
  {
    if |rs| > 0 {
      RunWritesExact(rs[..|rs| - 1]);
    }
  }

  /** Each write is a Wrote result of some object, and there are no more writes than objects. */
  lemma {:induction false} RunWrites(rs: seq<ObjectResult>)
    ensures |RunOf(rs).writes| <= |rs|
    ensures forall w :: w in RunOf(rs).writes ==> w.Wrote? && w in rs
  {
    if |rs| > 0 {
      var prev := rs[..|rs| - 1];
      RunWrites(prev);
      assert forall w :: w in prev ==> w in rs;
    }
  }

  /**
   * Every write is a trusted file in the bucket of the event record it came
   * from, under the ingest_date partition of that object's day, and there are
   * no more writes than objects.
   */
  lemma HandlerWritesShape(decode: (string, nat) -> Option<(Json, nat)>, read: ObjectRef -> Option<string>,
                           clock: nat -> nat -> string, today: nat -> DateTime, id: nat -> string,
                           objects: seq<ObjectRef>)
    requires IsRawDecode(decode)
    ensures |HandlerRunOf(decode, read, clock, today, id, objects).writes| <= |objects|
    ensures forall w :: w in HandlerRunOf(decode, read, clock, today, id, objects).writes ==>
      w.Wrote? && exists j :: 0 <= j < |objects| && w.bucket == objects[j].bucket && w.key == OutputKey(today(j), id(j))
  {
    var rs := Results(decode, read, clock, today, id, objects);
    RunWrites(rs);
    forall w | w in RunOf(rs).writes
      ensures w.Wrote? && exists j :: 0 <= j < |objects| && w.bucket == objects[j].bucket && w.key == OutputKey(today(j), id(j))
    {
      var j :| 0 <= j < |rs| && rs[j] == w;
      ProcessedKey(decode, read, clock(j), today(j), id(j), objects[j]);
    }
  }

  /** A written object goes back to its own bucket, under the output key of its day and uuid, whatever was read. */
  lemma ProcessedKey(decode: (string, nat) -> Option<(Json, nat)>, read: ObjectRef -> Option<string>,
                     clock: nat -> string, today: DateTime, id: string, o: ObjectRef)
    requires IsRawDecode(decode)
    ensures var r := Processed(decode, read, clock, today, id, o);
      r.Wrote? ==> r.bucket == o.bucket && r.key == OutputKey(today, id)
  {
    if read(o).Some? {
      ProcessResultKey(decode, o.bucket, read(o).value, clock, today, id);
    }
  }

  /**
   * The handler returns its reply exactly when every object reads, decodes
   * and transforms without raising.
   */
  lemma HandlerCompletes(decode: (string, nat) -> Option<(Json, nat)>, read: ObjectRef -> Option<string>,
                         clock: nat -> nat -> string, today: nat -> DateTime, id: nat -> string,
                         objects: seq<ObjectRef>)
    requires IsRawDecode(decode)
    ensures HandlerRunOf(decode, read, clock, today, id, objects).completed <==>
      forall j :: 0 <= j < |objects| ==> !Processed(decode, read, clock(j), today(j), id(j), objects[j]).Failed?
  {
    var rs := Results(decode, read, clock, today, id, objects);
    RunCompletes(rs);
    assert forall j :: 0 <= j < |objects| ==> rs[j] == Processed(decode, read, clock(j), today(j), id(j), objects[j]);
  }

  /** A failed read stops the run, as an uncaught get_object or decode error does. */
  lemma ReadFailureStops(decode: (string, nat) -> Option<(Json, nat)>, read: ObjectRef -> Option<string>,
                         clock: nat -> nat -> string, today: nat -> DateTime, id: nat -> string,
                         objects: seq<ObjectRef>, j: nat)
    requires IsRawDecode(decode) && j < |objects| && read(objects[j]).None?
    ensures !HandlerRunOf(decode, read, clock, today, id, objects).completed
  {
    HandlerCompletes(decode, read, clock, today, id, objects);
  }

  /** A written object goes to the object's own bucket, under the output key of its day and uuid. */
  lemma ProcessResultKey(decode: (string, nat) -> Option<(Json, nat)>, bucket: string, body: string,
                         clock: nat -> string, today: DateTime, id: string)
    requires IsRawDecode(decode)
    ensures var r := ProcessResult(decode, bucket, body, clock, today, id);
      r.Wrote? ==> r.bucket == bucket && r.key == OutputKey(today, id)
  {
  }
}
