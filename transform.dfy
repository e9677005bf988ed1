/**
 * The raw-to-trusted transform Lambda
 * (smartstream-terraform/lambdas/transform/lambda_function.py): DMS
 * envelopes in JSON Lines are filtered to the employees table, unwrapped to
 * their row, cleaned of null and empty fields, timestamp fields normalised,
 * duplicates dropped by canonical content, and the rows written as JSON Lines
 * under a key derived from the raw key.
 */
module RawToTrusted {
  import opened Text
  import opened Clock
  import opened JsonValue
  import opened S3

  /** A dict as a sequence of (key, value) pairs in insertion order. */
  type Row = seq<(string, Json)>

  // ---------------------------------------------------------------------
  // Envelope filtering
  // ---------------------------------------------------------------------

  /**
   * (meta.get("table-name") or "").lower() for the envelope's metadata value
   * (itself replaced by {} when falsy). None where the expression raises:
   * metadata that is truthy but not a dict, or a truthy table name that is
   * not a string.
   */
  function TableName(metadata: Json): Option<string>
  {
    var meta := if Truthy(metadata) then metadata else Obj([]);
    if !meta.Obj? then None
    else
      var name := Get(meta.fields, "table-name");
      var nameValue := if name.Some? && Truthy(name.value) then name.value else Str("");
      if nameValue.Str? then Some(Lower(nameValue.s)) else None
  }

  predicate IsEnvelope(record: Json)
  {
    record.Obj? && HasKey(record.fields, "metadata") && HasKey(record.fields, "data")
  }

  /**
   * The dict a parsed line hands on to cleaning, or None when the line is
   * dropped: an envelope is unwrapped to its `data` (or {}) when its table is
   * employees, any other dict passes as it is, and anything else is dropped.
   */
  function Unwrap(record: Json): (r: Option<Row>)
    ensures WellFormed(record) && r.Some? ==> UniqueKeys(r.value)
  {
    if IsEnvelope(record) then
      match TableName(Get(record.fields, "metadata").value)
      case None => None
      case Some(name) =>
        if StartsWith(name, "awsdms_") then None
        else if name != "employees" then None
        else
          var data := Get(record.fields, "data").value;
          assert WellFormed(record) ==> WellFormed(data) by {
            if WellFormed(record) {
              var i :| 0 <= i < |record.fields| && record.fields[i] == ("data", data);
            }
          }
          var row := if Truthy(data) then data else Obj([]);
          if row.Obj? then Some(row.fields) else None
    else if record.Obj? then Some(record.fields)
    else None
  }

  /**
   * An envelope survives only when its lower-cased table name is
   * "employees", and then it yields exactly its `data` dict: no metadata
   * field reaches the row. DMS control tables (awsdms_*) never survive.
   */
  lemma UnwrapEnvelope(record: Json)
    requires IsEnvelope(record)
    ensures Unwrap(record).Some? ==>
      TableName(Get(record.fields, "metadata").value) == Some("employees") &&
      (Get(record.fields, "data").value == Obj(Unwrap(record).value) ||
       (!Truthy(Get(record.fields, "data").value) && Unwrap(record).value == []))
    ensures (TableName(Get(record.fields, "metadata").value) == Some("employees") &&
             Get(record.fields, "data").value.Obj?) ==> Unwrap(record).Some?
    ensures forall name ::
      (TableName(Get(record.fields, "metadata").value) == Some(name) && StartsWith(name, "awsdms_")) ==>
      Unwrap(record).None?
  {
    var tn := TableName(Get(record.fields, "metadata").value);
    if tn == Some("employees") {
      assert "employees"[..7][0] != "awsdms_"[0];
    }
  }

  /** A dict without the envelope keys passes through; a non-dict is dropped. */
  lemma UnwrapOther(record: Json)
    requires !IsEnvelope(record)
    ensures record.Obj? ==> Unwrap(record) == Some(record.fields)
    ensures !record.Obj? ==> Unwrap(record).None?
  {
  }

  // ---------------------------------------------------------------------
  // Cleaning
  // ---------------------------------------------------------------------

  predicate Present(v: Json)
  {
    v != Null && v != Str("")
  }

  /** {k: v for k, v in d.items() if v is not None and v != ""} */
  function Clean(fields: Row): (r: Row)
    ensures forall p :: p in r <==> p in fields && Present(p.1)
    ensures UniqueKeys(fields) ==> UniqueKeys(r)
  {
    if |fields| == 0 then []
    else
      var rest := Clean(fields[1..]);
      assert forall p :: p in fields <==> p == fields[0] || p in fields[1..];
      assert UniqueKeys(fields) ==> UniqueKeys(fields[1..]) && forall p :: p in fields[1..] ==> p.0 != fields[0].0;
      if Present(fields[0].1) then [fields[0]] + rest else rest
  }

  // ---------------------------------------------------------------------
  // Timestamp normalisation
  // ---------------------------------------------------------------------

  const TimestampFields: seq<string> := ["timestamp", "created_at", "updated_at", "datetime", "date"]

  /** fromtimestamp(n, utc).isoformat() with "Z" for the offset, or `v` unchanged where that raises. */
  function EpochIso(n: int, v: Json): Json
  {
    match EpochToIsoZ(n)
    case Some(t) => Str(t)
    case None => v
  }

  /**
   * The new value of one timestamp field: an ISO-looking string (one with a
   * 'T') gets "Z" unless it already ends in Z/z or holds a '+'; an int or
   * bool is read as epoch seconds; anything else stays.
   */
  function NormalizeValue(v: Json): Json
  {
    match v
    case Str(s) =>
      if 'T' !in s || EndsWith(s, "Z") || '+' in s || EndsWith(s, "z") then v else Str(s + "Z")
    case Num(n) => EpochIso(n, v)
    case Bool(b) => EpochIso(if b then 1 else 0, v)
    case _ => v
  }

  /** A naive ISO string gets exactly one "Z" appended; a string without 'T' is left alone. */
  lemma NormalizeString(s: string)
    ensures 'T' !in s ==> NormalizeValue(Str(s)) == Str(s)
    ensures 'T' in s && !EndsWith(s, "Z") && !EndsWith(s, "z") && '+' !in s ==>
      NormalizeValue(Str(s)) == Str(s + "Z") && EndsWith(s + "Z", "Z")
    ensures EndsWith(s, "Z") || EndsWith(s, "z") || '+' in s ==> NormalizeValue(Str(s)) == Str(s)
  {
    var t := s + "Z";
    assert t[|t| - 1..] == "Z";
  }

  /**
   * A negative UTC offset is not recognised as an offset: the value still
   * gets a "Z", which no RFC 3339 (section 5.6) timestamp allows after an offset.
   */
  lemma NegativeOffsetGetsZ()
    ensures NormalizeValue(Str("2026-02-07T10:00:00-05:00")) == Str("2026-02-07T10:00:00-05:00Z")
  {
    var s := "2026-02-07T10:00:00-05:00";
    assert s[10] == 'T';
    assert s[|s| - 1..] != "Z" && s[|s| - 1..] != "z";
    assert forall i :: 0 <= i < |s| ==> s[i] != '+';
  }

  /** Epoch seconds inside datetime's range become an ISO string ending in "Z". */
  lemma NormalizeEpoch(n: int)
    ensures MinEpoch <= n <= MaxEpoch ==>
      NormalizeValue(Num(n)) == Str(EpochToIsoZ(n).value) && EndsWith(EpochToIsoZ(n).value, "Z")
    ensures !(MinEpoch <= n <= MaxEpoch) ==> NormalizeValue(Num(n)) == Num(n)
  {
    if MinEpoch <= n <= MaxEpoch {
      EpochToIsoZShape(n);
    }
  }

  /** Normalising a normalised value changes nothing. */
  lemma NormalizeIdempotent(v: Json)
    ensures NormalizeValue(NormalizeValue(v)) == NormalizeValue(v)
  {
    match v
    case Str(s) =>
      if NormalizeValue(v) != v {
        NormalizeString(s);
        assert 'T' in s + "Z" by { assert 'T' in s; }
      }
    case Num(n) =>
      if MinEpoch <= n <= MaxEpoch {
        EpochToIsoZShape(n);
      }
    case Bool(b) =>
      EpochToIsoZShape(if b then 1 else 0);
    case _ =>
  }

  /** Normalising never produces None or "", so a cleaned row stays clean. */
  lemma NormalizePresent(v: Json)
    requires Present(v)
    ensures Present(NormalizeValue(v))
  {
    match v
    case Num(n) =>
      if MinEpoch <= n <= MaxEpoch {
        EpochToIsoZShape(n);
      }
    case Bool(b) =>
      EpochToIsoZShape(if b then 1 else 0);
    case _ =>
  }

  /** The row standardize_timestamps leaves: each timestamp field's value normalised, all else as it was. */
  function StandardizeRow(fields: Row): (r: Row)
    ensures |r| == |fields|
  {
    seq(|fields|, i requires 0 <= i < |fields| =>
      if fields[i].0 in TimestampFields then (fields[i].0, NormalizeValue(fields[i].1)) else fields[i])
  }

  /** The row after the loop has handled the first `f` timestamp fields. */
  function StandardizeUpTo(fields: Row, f: nat): (r: Row)
    requires f <= |TimestampFields|
    ensures |r| == |fields|
  {
    seq(|fields|, i requires 0 <= i < |fields| =>
      if FieldIndex(fields[i].0) < f then (fields[i].0, NormalizeValue(fields[i].1)) else fields[i])
  }

  /** The position of a name in TimestampFields, or 5 for any other name. */
  function FieldIndex(name: string): nat
  {
    if name == "timestamp" then 0
    else if name == "created_at" then 1
    else if name == "updated_at" then 2
    else if name == "datetime" then 3
    else if name == "date" then 4
    else 5
  }

  lemma FieldIndexSpec(name: string)
    ensures name in TimestampFields <==> FieldIndex(name) < |TimestampFields|
    ensures forall f :: 0 <= f < |TimestampFields| ==> (FieldIndex(name) == f <==> name == TimestampFields[f])
  {
  }

  /** One pass of the loop when the field is present: its value is normalised where it stands. */
  lemma StandardizeStepFound(fields: Row, f: nat, v: Json)
    requires UniqueKeys(fields) && f < |TimestampFields|
    requires Get(StandardizeUpTo(fields, f), TimestampFields[f]) == Some(v)
    ensures Put(StandardizeUpTo(fields, f), TimestampFields[f], NormalizeValue(v)) == StandardizeUpTo(fields, f + 1)
  {
    var k := StandardizeFoundIndex(fields, f, v);
    StandardizeFoundAll(fields, f, k, v);
    SameAt(Put(StandardizeUpTo(fields, f), TimestampFields[f], NormalizeValue(v)), StandardizeUpTo(fields, f + 1));
  }

  /** Every position after the pass that normalised the value found at position `k`. */
  lemma StandardizeFoundAll(fields: Row, f: nat, k: nat, v: Json)
    requires UniqueKeys(fields) && f < |TimestampFields| && k < |fields|
    requires fields[k] == (TimestampFields[f], v)
    ensures forall i :: 0 <= i < |fields| ==>
      Put(StandardizeUpTo(fields, f), TimestampFields[f], NormalizeValue(v))[i] == StandardizeUpTo(fields, f + 1)[i]
  {
    forall i | 0 <= i < |fields|
      ensures Put(StandardizeUpTo(fields, f), TimestampFields[f], NormalizeValue(v))[i] == StandardizeUpTo(fields, f + 1)[i]
    {
      StandardizeFoundAt(fields, f, k, v, i);
    }
  }

  /** Rows equal at every position are equal. */
  lemma SameAt(a: Row, b: Row)
    requires |a| == |b| && forall i :: 0 <= i < |a| ==> a[i] == b[i]
    ensures a == b
  {
  }

  /** Where the loop finds a timestamp field's value, the input row holds that same pair. */
  lemma StandardizeFoundIndex(fields: Row, f: nat, v: Json) returns (k: nat)
    requires f < |TimestampFields|
    requires Get(StandardizeUpTo(fields, f), TimestampFields[f]) == Some(v)
    ensures k < |fields| && fields[k] == (TimestampFields[f], v)
  {
    var r := StandardizeUpTo(fields, f);
    k :| 0 <= k < |r| && r[k] == (TimestampFields[f], v);
    FieldIndexSpec(TimestampFields[f]);
  }

  /** Position `i` after the pass that normalised the value found at position `k`. */
  lemma StandardizeFoundAt(fields: Row, f: nat, k: nat, v: Json, i: nat)
    requires UniqueKeys(fields) && f < |TimestampFields| && k < |fields| && i < |fields|
    requires fields[k] == (TimestampFields[f], v)
    ensures Put(StandardizeUpTo(fields, f), TimestampFields[f], NormalizeValue(v))[i] ==
      StandardizeUpTo(fields, f + 1)[i]
  {
    FieldIndexSpec(fields[i].0);
    if fields[i].0 == TimestampFields[f] {
      assert i == k;
    }
  }

  /** One pass of the loop when the field is absent: nothing changes. */
  lemma StandardizeStepMissing(fields: Row, f: nat)
    requires f < |TimestampFields|
    requires Get(StandardizeUpTo(fields, f), TimestampFields[f]).None?
    ensures StandardizeUpTo(fields, f) == StandardizeUpTo(fields, f + 1)
  {
    var r := StandardizeUpTo(fields, f);
    var field := TimestampFields[f];
    assert field !in Keys(r);
    forall i | 0 <= i < |fields| ensures r[i] == StandardizeUpTo(fields, f + 1)[i] {
      assert Keys(r)[i] == fields[i].0;
      FieldIndexSpec(fields[i].0);
    }
  }

  /** standardize_timestamps: rewrites the five timestamp fields of the dict in place, one by one. */
  method StandardizeTimestamps(record: Row) returns (r: Row)
    requires UniqueKeys(record)
    ensures r == StandardizeRow(record)
  {
    r := record;
    assert r == StandardizeUpTo(record, 0);
    for f := 0 to |TimestampFields|
      invariant r == StandardizeUpTo(record, f)
    {
      var field := TimestampFields[f];
      var value := Get(r, field);
      if value.Some? {
        StandardizeStepFound(record, f, value.value);
        r := Put(r, field, NormalizeValue(value.value));
      } else {
        StandardizeStepMissing(record, f);
      }
    }
    forall i | 0 <= i < |record| ensures r[i] == StandardizeRow(record)[i] {
      FieldIndexSpec(record[i].0);
    }
  }

  /** Keys and their order survive standardisation; fields outside the five keep their values. */
  lemma StandardizeKeepsOthers(fields: Row)
    ensures Keys(StandardizeRow(fields)) == Keys(fields)
    ensures forall i :: 0 <= i < |fields| && fields[i].0 !in TimestampFields ==>
      StandardizeRow(fields)[i] == fields[i]
  {
  }

  /** Standardising twice is standardising once. */
  lemma StandardizeIdempotent(fields: Row)
    ensures StandardizeRow(StandardizeRow(fields)) == StandardizeRow(fields)
  {
    var once := StandardizeRow(fields);
    forall i | 0 <= i < |fields| && fields[i].0 in TimestampFields {
      NormalizeIdempotent(fields[i].1);
    }
    assert forall i :: 0 <= i < |fields| ==> StandardizeRow(once)[i] == once[i];
  }

  // ---------------------------------------------------------------------
  // One line, and all of them
  // ---------------------------------------------------------------------

  /**
   * The row one line contributes before deduplication, or None when the
   * line is blank, fails to parse, is filtered out, or is empty once cleaned.
   */
  function LineRow(loads: string -> Option<Json>, line: string): Option<Row>
  {
    if Strip(line) == "" then None
    else
      match loads(line)
      case None => None
      case Some(record) =>
        match Unwrap(record)
        case None => None
        case Some(fields) =>
          var cleaned := Clean(fields);
          if cleaned == [] then None else Some(StandardizeRow(cleaned))
  }

  /** Every row a line contributes is non-empty and holds no None and no "" value. */
  lemma LineRowClean(loads: string -> Option<Json>, line: string)
    requires LineRow(loads, line).Some?
    ensures var row := LineRow(loads, line).value;
      row != [] && forall i :: 0 <= i < |row| ==> Present(row[i].1)
  {
    var cleaned := Clean(Unwrap(loads(line).value).value);
    var row := StandardizeRow(cleaned);
    forall i | 0 <= i < |row| ensures Present(row[i].1) {
      assert cleaned[i] in cleaned;
      if cleaned[i].0 in TimestampFields {
        NormalizePresent(cleaned[i].1);
      }
    }
  }

  /** The rows of the lines so far, in line order (the line loop before its dedup check). */
  function Candidates(loads: string -> Option<Json>, lines: seq<string>): seq<Row>
  {
    if |lines| == 0 then []
    else
      var row := LineRow(loads, lines[|lines| - 1]);
      Candidates(loads, lines[..|lines| - 1]) + (if row.Some? then [row.value] else [])
  }

  /** Lines are handled one at a time: a bad line costs only itself, never the lines around it. */
  lemma {:induction false} CandidatesConcat(loads: string -> Option<Json>, a: seq<string>, b: seq<string>)
    ensures Candidates(loads, a + b) == Candidates(loads, a) + Candidates(loads, b)
  {
    if |b| > 0 {
      assert (a + b)[..|a + b| - 1] == a + b[..|b| - 1];
      CandidatesConcat(loads, a, b[..|b| - 1]);
    } else {
      assert a + b == a;
    }
  }

  /** A line that yields no row (blank, unparseable, filtered) leaves the others' rows as they were. */
  lemma SkippedLine(loads: string -> Option<Json>, a: seq<string>, line: string, b: seq<string>)
    requires LineRow(loads, line).None?
    ensures Candidates(loads, a + [line] + b) == Candidates(loads, a + b)
  {
    CandidatesConcat(loads, a + [line], b);
    CandidatesConcat(loads, a, [line]);
    CandidatesConcat(loads, a, b);
    assert [line][..0] == [];
  }

  // ---------------------------------------------------------------------
  // Deduplication by canonical content
  // ---------------------------------------------------------------------

  /** The content a row is hashed by: json.dumps(row, sort_keys=True), as a value. */
  function CanonKey(row: Row): Json
  {
    Canon(Obj(row))
  }

  // The dedup is stated for any key function; the transform uses CanonKey.

  /** The keys of the rows so far: the seen_hashes set. */
  function Seen<T, K(==)>(rows: seq<T>, key: T -> K): set<K>
  {
    set i | 0 <= i < |rows| :: key(rows[i])
  }

  /** The rows kept by the seen check: each row whose key has not been seen before. */
  function Dedup<T, K(==)>(rows: seq<T>, key: T -> K): seq<T>
  {
    if |rows| == 0 then []
    else
      var prev := rows[..|rows| - 1];
      var last := rows[|rows| - 1];
      if key(last) in Seen(prev, key) then Dedup(prev, key) else Dedup(prev, key) + [last]
  }

  lemma SeenAppend<T, K>(rows: seq<T>, row: T, key: T -> K)
    ensures Seen(rows + [row], key) == Seen(rows, key) + {key(row)}
  {
    var s := rows + [row];
    forall x | x in Seen(s, key) ensures x in Seen(rows, key) + {key(row)} {
      var i :| 0 <= i < |s| && key(s[i]) == x;
      if i < |rows| { assert s[i] == rows[i]; }
    }
    forall x | x in Seen(rows, key) ensures x in Seen(s, key) {
      var i :| 0 <= i < |rows| && key(rows[i]) == x;
      assert s[i] == rows[i];
    }
    assert s[|rows|] == row;
  }

  /** One more row: kept exactly when its key is new. */
  lemma DedupStep<T, K>(rows: seq<T>, row: T, key: T -> K)
    ensures Dedup(rows + [row], key) ==
      if key(row) in Seen(rows, key) then Dedup(rows, key) else Dedup(rows, key) + [row]
    ensures Seen(rows + [row], key) == Seen(rows, key) + {key(row)}
  {
    assert (rows + [row])[..|rows|] == rows;
    SeenAppend(rows, row, key);
  }

  /** Every key in the input is in the output, and no other. */
  lemma {:induction false} DedupSeen<T, K>(rows: seq<T>, key: T -> K)
    ensures Seen(Dedup(rows, key), key) == Seen(rows, key)
  {
    if |rows| > 0 {
      var prev := rows[..|rows| - 1];
      var last := rows[|rows| - 1];
      assert rows == prev + [last];
      DedupSeen(prev, key);
      SeenAppend(prev, last, key);
      if key(last) !in Seen(prev, key) {
        SeenAppend(Dedup(prev, key), last, key);
      }
    }
  }

  /** No two kept rows have the same key. */
  lemma {:induction false} DedupDistinct<T, K>(rows: seq<T>, key: T -> K)
    ensures var d := Dedup(rows, key);
      forall i, j :: 0 <= i < j < |d| ==> key(d[i]) != key(d[j])
  {
    if |rows| > 0 {
      var prev := rows[..|rows| - 1];
      var last := rows[|rows| - 1];
      DedupDistinct(prev, key);
      DedupSeen(prev, key);
      var d := Dedup(rows, key);
      if key(last) !in Seen(prev, key) {
        forall i | 0 <= i < |d| - 1 ensures key(d[i]) != key(last) {
          assert key(d[i]) in Seen(Dedup(prev, key), key);
        }
      }
    }
  }

  /** Every kept row is an input row. */
  lemma {:induction false} DedupSubset<T, K>(rows: seq<T>, key: T -> K)
    ensures forall r :: r in Dedup(rows, key) ==> r in rows
  {
    if |rows| > 0 {
      DedupSubset(rows[..|rows| - 1], key);
      assert forall r :: r in rows[..|rows| - 1] ==> r in rows;
    }
  }

  /** rows[k] is the first row with its key. */
  predicate IsFirst<T, K(==)>(rows: seq<T>, key: T -> K, k: nat)
    requires k < |rows|
  {
    forall j :: 0 <= j < k ==> key(rows[j]) != key(rows[k])
  }

  /** The positions, in increasing order, of the rows among the first n that are first of their key. */
  function FirstPositions<T, K(==)>(rows: seq<T>, key: T -> K, n: nat): (r: seq<nat>)
    requires n <= |rows|
    ensures forall i :: 0 <= i < |r| ==> r[i] < n
  {
    if n == 0 then []
    else FirstPositions(rows, key, n - 1) + (if IsFirst(rows, key, n - 1) then [n - 1] else [])
  }

  /** FirstPositions lists every first occurrence, only those, in increasing order. */
  lemma FirstPositionsSpec<T, K>(rows: seq<T>, key: T -> K, n: nat)
    requires n <= |rows|
    ensures forall i :: 0 <= i < |FirstPositions(rows, key, n)| ==>
      IsFirst(rows, key, FirstPositions(rows, key, n)[i])
    ensures forall i, j :: 0 <= i < j < |FirstPositions(rows, key, n)| ==>
      FirstPositions(rows, key, n)[i] < FirstPositions(rows, key, n)[j]
    ensures forall k :: 0 <= k < n && IsFirst(rows, key, k) ==> k in FirstPositions(rows, key, n)
  {
    FirstPositionsOnlyFirst(rows, key, n);
    FirstPositionsIncreasing(rows, key, n);
    FirstPositionsComplete(rows, key, n);
  }

  lemma {:induction false} FirstPositionsOnlyFirst<T, K>(rows: seq<T>, key: T -> K, n: nat)
    requires n <= |rows|
    ensures forall i :: 0 <= i < |FirstPositions(rows, key, n)| ==>
      IsFirst(rows, key, FirstPositions(rows, key, n)[i])
  {
    if n > 0 {
      FirstPositionsOnlyFirst(rows, key, n - 1);
      var prev := FirstPositions(rows, key, n - 1);
      if IsFirst(rows, key, n - 1) {
        var r := prev + [n - 1];
        assert FirstPositions(rows, key, n) == r;
        assert forall i :: 0 <= i < |prev| ==> r[i] == prev[i];
        assert r[|prev|] == n - 1;
      } else {
        assert FirstPositions(rows, key, n) == prev;
      }
    }
  }

  lemma {:induction false} FirstPositionsIncreasing<T, K>(rows: seq<T>, key: T -> K, n: nat)
    requires n <= |rows|
    ensures forall i, j :: 0 <= i < j < |FirstPositions(rows, key, n)| ==>
      FirstPositions(rows, key, n)[i] < FirstPositions(rows, key, n)[j]
  {
    if n > 0 {
      FirstPositionsIncreasing(rows, key, n - 1);
      var prev := FirstPositions(rows, key, n - 1);
      if IsFirst(rows, key, n - 1) {
        var r := prev + [n - 1];
        assert FirstPositions(rows, key, n) == r;
        assert forall i :: 0 <= i < |prev| ==> r[i] == prev[i];
        assert r[|prev|] == n - 1;
      } else {
        assert FirstPositions(rows, key, n) == prev;
      }
    }
  }

  lemma {:induction false} FirstPositionsComplete<T, K>(rows: seq<T>, key: T -> K, n: nat)
    requires n <= |rows|
    ensures forall k :: 0 <= k < n && IsFirst(rows, key, k) ==> k in FirstPositions(rows, key, n)
  {
    if n > 0 {
      FirstPositionsComplete(rows, key, n - 1);
      var prev := FirstPositions(rows, key, n - 1);
      var r := FirstPositions(rows, key, n);
      assert forall x :: x in prev ==> x in r;
    }
  }

  /** The rows at the given positions. */
  function Pick<T>(rows: seq<T>, p: seq<nat>): (r: seq<T>)
    requires forall i :: 0 <= i < |p| ==> p[i] < |rows|
    ensures |r| == |p|
  {
    seq(|p|, i requires 0 <= i < |p| => rows[p[i]])
  }

  lemma SeenPrefix<T, K>(rows: seq<T>, key: T -> K, n: nat)
    requires n < |rows|
    ensures key(rows[n]) in Seen(rows[..n], key) <==> !IsFirst(rows, key, n)
  {
    if !IsFirst(rows, key, n) {
      var j :| 0 <= j < n && key(rows[j]) == key(rows[n]);
      assert rows[..n][j] == rows[j];
    }
    if key(rows[n]) in Seen(rows[..n], key) {
      var j :| 0 <= j < n && key(rows[..n][j]) == key(rows[n]);
      assert rows[..n][j] == rows[j];
    }
  }

  /**
   * The dedup keeps exactly the first occurrence of each key, in input
   * order: the kept rows are the rows at FirstPositions.
   */
  lemma {:induction false} DedupFirstOccurrences<T, K>(rows: seq<T>, key: T -> K, n: nat)
    requires n <= |rows|
    ensures Dedup(rows[..n], key) == Pick(rows, FirstPositions(rows, key, n))
  {
    if n > 0 {
      DedupFirstOccurrences(rows, key, n - 1);
      var prefix := rows[..n];
      assert prefix[..n - 1] == rows[..n - 1];
      assert prefix[n - 1] == rows[n - 1];
      SeenPrefix(rows, key, n - 1);
      var p := FirstPositions(rows, key, n - 1);
      if IsFirst(rows, key, n - 1) {
        assert Pick(rows, p + [n - 1]) == Pick(rows, p) + [rows[n - 1]];
      }
    }
  }

  // ---------------------------------------------------------------------
  // Output and the whole transform
  // ---------------------------------------------------------------------

  /** "\n".join(json.dumps(r) for r in records) */
  function Emit(rows: seq<Row>): string
  {
    Join(seq(|rows|, i requires 0 <= i < |rows| => Dumps(Obj(rows[i]))), '\n')
  }

  /** The output is blank exactly when no row survived. */
  lemma EmitBlank(rows: seq<Row>)
    ensures Strip(Emit(rows)) == "" <==> rows == []
  {
    var out := Emit(rows);
    StripEmptyIffAllSpace(out);
    if rows != [] {
      var parts := seq(|rows|, i requires 0 <= i < |rows| => Dumps(Obj(rows[i])));
      assert out[0] == '{' by {
        if |parts| > 1 {
          assert out == parts[0] + ['\n'] + Join(parts[1..], '\n');
        }
      }
      assert !IsSpace(out[0]);
    }
  }

  /** Splitting the output on "\n" gives back one json.dumps text per row. */
  lemma EmitLines(rows: seq<Row>)
    requires rows != []
    ensures Split(Emit(rows), '\n') == seq(|rows|, i requires 0 <= i < |rows| => Dumps(Obj(rows[i])))
  {
    var parts := seq(|rows|, i requires 0 <= i < |rows| => Dumps(Obj(rows[i])));
    forall i | 0 <= i < |parts| ensures '\n' !in parts[i] {
      DumpsOneLine(Obj(rows[i]));
    }
    SplitJoin(parts, '\n');
  }

  /** transform_data(raw): the text the Lambda writes for one raw object. */
  function TransformOutput(loads: string -> Option<Json>, raw: string): string
  {
    Emit(Dedup(Candidates(loads, Split(Strip(raw), '\n')), CanonKey))
  }

  lemma CandidatesStep(loads: string -> Option<Json>, lines: seq<string>, i: nat)
    requires i < |lines|
    ensures var row := LineRow(loads, lines[i]);
      Candidates(loads, lines[..i + 1]) ==
      Candidates(loads, lines[..i]) + (if row.Some? then [row.value] else [])
  {
    assert lines[..i + 1][..i] == lines[..i];
  }

  /** One line of the loop: the kept rows and the seen set after it, from those before it. */
  lemma LineStep(loads: string -> Option<Json>, lines: seq<string>, i: nat)
    requires i < |lines|
    ensures var before := Candidates(loads, lines[..i]);
      var after := Candidates(loads, lines[..i + 1]);
      match LineRow(loads, lines[i])
      case None =>
        Dedup(after, CanonKey) == Dedup(before, CanonKey) && Seen(after, CanonKey) == Seen(before, CanonKey)
      case Some(row) =>
        Seen(after, CanonKey) == Seen(before, CanonKey) + {CanonKey(row)} &&
        Dedup(after, CanonKey) ==
          if CanonKey(row) in Seen(before, CanonKey) then Dedup(before, CanonKey)
          else Dedup(before, CanonKey) + [row]
  {
    CandidatesStep(loads, lines, i);
    var before := Candidates(loads, lines[..i]);
    match LineRow(loads, lines[i])
    case None =>
      assert before + [] == before;
    case Some(row) =>
      DedupStep(before, row, CanonKey);
  }

  /** transform_data: one pass over the lines with a set of seen contents. */
  method TransformData(loads: string -> Option<Json>, raw: string) returns (out: string)
    requires IsLoads(loads)
    ensures out == TransformOutput(loads, raw)
  {
    var lines := Split(Strip(raw), '\n');
    var records: seq<Row> := [];
    var seen: set<Json> := {};
    for i := 0 to |lines|
      invariant records == Dedup(Candidates(loads, lines[..i]), CanonKey)
      invariant seen == Seen(Candidates(loads, lines[..i]), CanonKey)
    {
      var line := lines[i];
      LineStep(loads, lines, i);
      if Strip(line) == "" {
        assert LineRow(loads, line).None?;
        continue;
      }
      var parsed := loads(line);
      if parsed.None? {
        assert LineRow(loads, line).None?;
        continue;
      }
      assert WellFormed(parsed.value);
      var unwrapped := Unwrap(parsed.value);
      if unwrapped.None? {
        assert LineRow(loads, line).None?;
        continue;
      }
      var cleaned := Clean(unwrapped.value);
      if cleaned == [] {
        assert LineRow(loads, line).None?;
        continue;
      }
      var row := StandardizeTimestamps(cleaned);
      assert LineRow(loads, line) == Some(row);
      var hash := CanonKey(row);
      if hash in seen {
        continue;
      }
      seen := seen + {hash};
      records := records + [row];
    }
    assert lines[..|lines|] == lines;
    out := Emit(records);
  }

  /** Every row written is non-empty and free of None and "" values. */
  lemma OutputRowsClean(loads: string -> Option<Json>, lines: seq<string>)
    ensures forall r: Row :: r in Dedup(Candidates(loads, lines), CanonKey) ==>
      r != [] && forall i :: 0 <= i < |r| ==> Present(r[i].1)
  {
    var rows := Candidates(loads, lines);
    DedupSubset(rows, CanonKey);
    forall r: Row | r in Dedup(rows, CanonKey)
      ensures r != [] && forall i :: 0 <= i < |r| ==> Present(r[i].1)
    {
      CandidatesFromLines(loads, lines, r);
    }
  }

  lemma {:induction false} CandidatesFromLines(loads: string -> Option<Json>, lines: seq<string>, r: Row)
    requires r in Candidates(loads, lines)
    ensures r != [] && forall i :: 0 <= i < |r| ==> Present(r[i].1)
  {
    var last := lines[|lines| - 1];
    if r in Candidates(loads, lines[..|lines| - 1]) {
      CandidatesFromLines(loads, lines[..|lines| - 1], r);
    } else {
      LineRowClean(loads, last);
    }
  }

  // ---------------------------------------------------------------------
  // Keys and the handler
  // ---------------------------------------------------------------------

  /** generate_trusted_key */
  function TrustedKey(rawKey: string): string
  {
    TrustedName(RemoveFirst(rawKey, "raw/"))
  }

  /** The trusted key for what is left of a raw key once "raw/" is removed. */
  function TrustedName(rest: string): string
  {
    var unzipped := if EndsWith(rest, ".gz") then rest[..|rest| - 3] else rest;
    var named := if EndsWith(unzipped, ".json") then unzipped else unzipped + ".json";
    "trusted/" + named
  }

  /** A trusted key lies under trusted/ and ends in ".json". */
  lemma TrustedKeyShape(rawKey: string)
    ensures StartsWith(TrustedKey(rawKey), "trusted/") && EndsWith(TrustedKey(rawKey), ".json")
  {
    TrustedNameShape(RemoveFirst(rawKey, "raw/"));
  }

  lemma TrustedNameShape(rest: string)
    ensures StartsWith(TrustedName(rest), "trusted/") && EndsWith(TrustedName(rest), ".json")
  {
    var unzipped := if EndsWith(rest, ".gz") then rest[..|rest| - 3] else rest;
    if !EndsWith(unzipped, ".json") {
      EndsWithAppended(unzipped, ".json");
    }
    var named := if EndsWith(unzipped, ".json") then unzipped else unzipped + ".json";
    PrefixKeepsEnd("trusted/", named, ".json");
  }

  lemma PrefixKeepsEnd(p: string, s: string, suffix: string)
    requires EndsWith(s, suffix)
    ensures StartsWith(p + s, p) && EndsWith(p + s, suffix)
  {
    assert (p + s)[..|p|] == p;
    assert (p + s)[|p + s| - |suffix|..] == s[|s| - |suffix|..];
  }

  lemma EndsWithAppended(x: string, suffix: string)
    ensures EndsWith(x + suffix, suffix) && (x + suffix)[..|x|] == x
  {
    assert (x + suffix)[|x|..] == suffix;
  }

  /** raw/<x>.gz goes to trusted/<x>.json. */
  lemma TrustedKeyOfGz(x: string)
    requires !EndsWith(x, ".json")
    ensures TrustedKey("raw/" + x + ".gz") == "trusted/" + x + ".json"
  {
    var key := "raw/" + x + ".gz";
    RemoveFirstOfPrefix(key, "raw/");
    assert key[4..] == x + ".gz";
    EndsWithAppended(x, ".gz");
  }

  /** raw/<x>.json goes to trusted/<x>.json: ".json" is not added twice. */
  lemma TrustedKeyOfJson(x: string)
    ensures TrustedKey("raw/" + x + ".json") == "trusted/" + x + ".json"
  {
    var key := "raw/" + x + ".json";
    RemoveFirstOfPrefix(key, "raw/");
    var rest := x + ".json";
    assert key[4..] == rest;
    EndsWithAppended(x, ".json");
    assert rest[|rest| - 2] == 'o';
  }

  /** A raw key with neither extension gets ".json" once. */
  lemma TrustedKeyOfPlain(x: string)
    requires !EndsWith(x, ".json") && !EndsWith(x, ".gz")
    ensures TrustedKey("raw/" + x) == "trusted/" + x + ".json"
  {
    var key := "raw/" + x;
    RemoveFirstOfPrefix(key, "raw/");
    assert key[4..] == x;
  }

  /**
   * raw/<x>.json.gz and raw/<x>.json go to the same trusted key, so the later
   * of the two writes replaces the earlier one.
   */
  lemma TrustedKeyGzJsonCollide(x: string)
    ensures TrustedKey("raw/" + x + ".json" + ".gz") == TrustedKey("raw/" + x + ".json") == "trusted/" + x + ".json"
  {
    var y := x + ".json";
    ConcatAssoc("raw/", x, ".json");
    ConcatAssoc("raw/", y, ".gz");
    RawRest(y + ".gz");
    assert y[|y| - 1] == 'n';
    TrustedNameGz(y);
    RawRest(y);
    TrustedKeyOfJson(x);
  }

  lemma ConcatAssoc(a: string, b: string, c: string)
    ensures a + (b + c) == a + b + c
  {
  }

  /** Below raw/, the trusted key is the trusted name of the rest. */
  lemma RawRest(y: string)
    ensures TrustedKey("raw/" + y) == TrustedName(y)
  {
    var key := "raw/" + y;
    RemoveFirstOfPrefix(key, "raw/");
    assert key[4..] == y;
  }

  /** Dropping ".gz" is the only change the gzip extension makes. */
  lemma TrustedNameGz(y: string)
    requires !EndsWith(y, ".gz")
    ensures TrustedName(y + ".gz") == TrustedName(y)
  {
    EndsWithAppended(y, ".gz");
  }

  /** The example of generate_trusted_key's docstring, with its literal keys split at "raw/", "trusted/" and the extension. */
  lemma TrustedKeyExample()
    ensures TrustedKey("raw/" + "year=2026/month=02/day=07/file" + ".gz") ==
      "trusted/" + "year=2026/month=02/day=07/file" + ".json"
  {
    var x := "year=2026/month=02/day=07/file";
    assert x[|x| - 1] == 'e';
    TrustedKeyOfGz(x);
  }

  /**
   * How lambda_handler ends: the writes made, in event order, and whether it
   * returned its 200 reply or re-raised part way.
   */
  datatype HandlerRun = HandlerRun(writes: seq<PutObject>, completed: bool)

  /**
   * The run over the objects the event names, each with its bucket and its
   * (already URL-decoded) key. `read` stands for read_s3_object: the
   * get_object body, gunzipped for a ".gz" key and decoded as UTF-8, or None
   * where any of those raises. A raise stops the run; the objects written
   * before it stay written. Each write goes back to its object's own bucket.
   */
  function HandlerRunOf(loads: string -> Option<Json>, read: ObjectRef -> Option<string>, objects: seq<ObjectRef>): HandlerRun
  {
    if |objects| == 0 then HandlerRun([], true)
    else
      var o := objects[|objects| - 1];
      var prev := HandlerRunOf(loads, read, objects[..|objects| - 1]);
      if !prev.completed || !StartsWith(o.key, "raw/") then prev
      else
        match read(o)
        case None => HandlerRun(prev.writes, false)
        case Some(text) =>
          var out := TransformOutput(loads, text);
          if Strip(out) == "" then prev
          else HandlerRun(prev.writes + [PutObject(o.bucket, TrustedKey(o.key), out)], true)
  }

  /** lambda_handler: `completed` is false where it re-raises. */
  method HandleEvent(loads: string -> Option<Json>, read: ObjectRef -> Option<string>, objects: seq<ObjectRef>)
    returns (writes: seq<PutObject>, completed: bool)
    requires IsLoads(loads)
    ensures HandlerRun(writes, completed) == HandlerRunOf(loads, read, objects)
  {
    writes := [];
    for i := 0 to |objects|
      invariant HandlerRun(writes, true) == HandlerRunOf(loads, read, objects[..i])
    {
      var bucket, key := objects[i].bucket, objects[i].key;
      assert objects[..i + 1][..i] == objects[..i];
      if !StartsWith(key, "raw/") {
        continue;
      }
      var raw := read(ObjectRef(bucket, key));
      if raw.None? {
        HandlerStops(loads, read, objects, i + 1);
        return writes, false;
      }
      var data := TransformData(loads, raw.value);
      if Strip(data) == "" {
        continue;
      }
      writes := writes + [PutObject(bucket, TrustedKey(key), data)];
    }
    assert objects[..|objects|] == objects;
    completed := true;
  }

  /** Once a read has raised, later objects change nothing. */
  lemma {:induction false} HandlerStops(loads: string -> Option<Json>, read: ObjectRef -> Option<string>,
                                        objects: seq<ObjectRef>, j: nat)
    requires j <= |objects|
    requires !HandlerRunOf(loads, read, objects[..j]).completed
    ensures HandlerRunOf(loads, read, objects) == HandlerRunOf(loads, read, objects[..j])
    decreases |objects| - j
  {
    if j < |objects| {
      assert objects[..j + 1][..j] == objects[..j];
      HandlerStops(loads, read, objects, j + 1);
    } else {
      assert objects[..j] == objects;
    }
  }

  /** The handler completes exactly when every raw/ object of the event reads. */
  lemma {:induction false} HandlerCompletes(loads: string -> Option<Json>, read: ObjectRef -> Option<string>,
                                            objects: seq<ObjectRef>)
    ensures HandlerRunOf(loads, read, objects).completed <==>
      forall o :: o in objects && StartsWith(o.key, "raw/") ==> read(o).Some?
  {
    if |objects| > 0 {
      var prev := objects[..|objects| - 1];
      var o := objects[|objects| - 1];
      HandlerCompletes(loads, read, prev);
      assert HandlerRunOf(loads, read, objects).completed <==>
        HandlerRunOf(loads, read, prev).completed && (StartsWith(o.key, "raw/") ==> read(o).Some?);
      assert objects == prev + [o];
      assert forall p :: p in objects <==> p in prev || p == o;
    }
  }

  /**
   * Each write comes from a raw/ object that read, goes to that object's
   * bucket under its trusted key (never back under raw/), and carries the
   * object's non-blank transform output; and on a completed run every raw/
   * object with non-blank output is written.
   */
  lemma {:induction false} HandlerWritesSpec(loads: string -> Option<Json>, read: ObjectRef -> Option<string>,
                                             objects: seq<ObjectRef>)
    ensures forall w :: w in HandlerRunOf(loads, read, objects).writes ==>
      exists o :: o in objects && StartsWith(o.key, "raw/") && read(o).Some? &&
        w == PutObject(o.bucket, TrustedKey(o.key), TransformOutput(loads, read(o).value)) && Strip(w.body) != ""
    ensures HandlerRunOf(loads, read, objects).completed ==>
      forall o :: o in objects && StartsWith(o.key, "raw/") ==>
        read(o).Some? &&
        (Strip(TransformOutput(loads, read(o).value)) != "" ==>
          PutObject(o.bucket, TrustedKey(o.key), TransformOutput(loads, read(o).value))
            in HandlerRunOf(loads, read, objects).writes)
  {
    if |objects| > 0 {
      var prev := objects[..|objects| - 1];
      HandlerWritesSpec(loads, read, prev);
      assert objects == prev + [objects[|objects| - 1]];
      assert forall o :: o in prev ==> o in objects;
    }
  }

  /** No write lands under raw/, so the handler's output never triggers it again. */
  lemma HandlerWritesTrusted(loads: string -> Option<Json>, read: ObjectRef -> Option<string>, objects: seq<ObjectRef>)
    ensures forall w :: w in HandlerRunOf(loads, read, objects).writes ==>
      StartsWith(w.key, "trusted/") && EndsWith(w.key, ".json")
  {
    HandlerWritesSpec(loads, read, objects);
    forall w | w in HandlerRunOf(loads, read, objects).writes
      ensures StartsWith(w.key, "trusted/") && EndsWith(w.key, ".json")
    {
      var o :| o in objects && StartsWith(o.key, "raw/") && read(o).Some? &&
        w == PutObject(o.bucket, TrustedKey(o.key), TransformOutput(loads, read(o).value)) && Strip(w.body) != "";
      TrustedKeyShape(o.key);
    }
  }
}
