/**
 * The ML inference Lambda: lists the day's trusted JSON files, classifies
 * every record of the first ten with a rule-based placeholder, and writes
 * all predictions with their counts under a time-partitioned analytics key.
 */
module MlInference {
  import opened Text
  import opened Clock
  import opened JsonValue

  /** TRUSTED_PREFIX and ANALYTICS_PREFIX from the environment. */
  datatype Config = Config(trustedPrefix: string, analyticsPrefix: string)

  // ---------------------------------------------------------------------
  // classify_placeholder
  // ---------------------------------------------------------------------

  /** The category of a lower-cased department: the first rule that matches wins. */
  function Category(dept: string): string
  {
    if Contains(dept, "engineering") || Contains(dept, "tech") then "technical"
    else if Contains(dept, "sales") || Contains(dept, "marketing") then "business"
    else if Contains(dept, "hr") || Contains(dept, "admin") then "operations"
    else "other"
  }

  /**
   * classify_placeholder(record) for a dict record: "other" without a
   * department; None where the department is not a string, so `.lower()`
   * raises.
   */
  function Classify(record: seq<(string, Json)>): Option<string>
  {
    match Get(record, "department")
    case None => Some("other")
    case Some(v) => if v.Str? then Some(Category(Lower(v.s))) else None
  }

  /**
   * The rules in order: technical for engineering or tech; business for
   * sales or marketing when not technical; operations for hr or admin when
   * neither; other otherwise, all matched as substrings of the lower-cased
   * department.
   */
  lemma ClassifyRules(record: seq<(string, Json)>, s: string)
    requires Get(record, "department") == Some(Str(s))
    ensures var d := Lower(s);
      var tech := Contains(d, "engineering") || Contains(d, "tech");
      var business := Contains(d, "sales") || Contains(d, "marketing");
      var ops := Contains(d, "hr") || Contains(d, "admin");
      (Classify(record) == Some("technical") <==> tech) &&
      (Classify(record) == Some("business") <==> !tech && business) &&
      (Classify(record) == Some("operations") <==> !tech && !business && ops) &&
      (Classify(record) == Some("other") <==> !tech && !business && !ops)
  {
  }

  /** A record without a department is "other"; a non-string department raises. */
  lemma ClassifyNoDepartment(record: seq<(string, Json)>)
    ensures !HasKey(record, "department") ==> Classify(record) == Some("other")
    ensures Classify(record).None? <==> HasKey(record, "department") && !Get(record, "department").value.Str?
  {
  }

  /** Matching ignores case: the category of a department depends only on its lower-cased text. */
  lemma ClassifyCaseInsensitive(record: seq<(string, Json)>, other: seq<(string, Json)>, s: string, t: string)
    requires Get(record, "department") == Some(Str(s)) && Get(other, "department") == Some(Str(t))
    requires Lower(s) == Lower(t)
    ensures Classify(record) == Classify(other)
  {
  }

  /** An upper-case ASCII letter and its lower-case form lower to the same letter. */
  lemma LowerUpper(s: string, t: string)
    requires |s| == |t|
    requires forall i :: 0 <= i < |s| ==> s[i] == t[i] || ('a' <= t[i] <= 'z' && s[i] == (t[i] as int - 32) as char)
    ensures Lower(s) == Lower(t)
  {
    assert forall i :: 0 <= i < |s| ==> LowerChar(s[i]) == LowerChar(t[i]);
  }

  // ---------------------------------------------------------------------
  // process_file
  // ---------------------------------------------------------------------

  /** One prediction; its score and confidence are floats and are not modelled. */
  datatype Prediction = Prediction(recordId: Json, timestamp: string, category: string, sourceFile: string)

  /** What process_file returns: the file's predictions, or an error entry. */
  datatype FileResult = Processed(file: string, predictions: seq<Prediction>) | Errored(file: string)

  /** The smallest magnitude of an int that float() rounds past the largest double, raising OverflowError. */
  const FloatOverflow: int := 179769313486231580793728971405303415079934132710037826936173778980444968292764750946649017977587207096330286416692887910946555547851940402630657488671505820681908902000708383676273854845817711531764475730270069855571366959622842914819860834936475292719074168444365510704342711559699508093042880177904174497792

  /**
   * calculate_placeholder_score raises only when float(salary) overflows:
   * it catches ValueError and TypeError, not OverflowError.
   */
  predicate ScoreRaises(record: seq<(string, Json)>)
  {
    match Get(record, "salary")
    case Some(Num(n)) => n >= FloatOverflow || n <= -FloatOverflow
    case _ => false
  }

  /** The prediction for one record at clock reading `ts`; None where building it raises. */
  function PredictionOf(record: Json, file: string, ts: string): Option<Prediction>
  {
    if !record.Obj? then None
    else if ScoreRaises(record.fields) then None
    else
      match Classify(record.fields)
      case None => None
      case Some(category) => Some(Prediction(GetOr(record.fields, "id", Str("unknown")), ts, category, file))
  }

  /** The lines of the stripped content that are not blank, unstripped. */
  function RecordLines(lines: seq<string>): (r: seq<string>)
    ensures forall k :: 0 <= k < |r| ==> Strip(r[k]) != ""
  {
    if |lines| == 0 then []
    else
      var line := lines[|lines| - 1];
      RecordLines(lines[..|lines| - 1]) + (if Strip(line) == "" then [] else [line])
  }

  /** The records of a file's text; None where one line fails to parse. */
  function FileRecords(loads: string -> Option<Json>, content: string): Option<seq<Json>>
  {
    var ls := RecordLines(Split(Strip(content), '\n'));
    if AllParse(loads, ls) then Some(Parsed(loads, ls)) else None
  }

  /** The predictions of the first `n` records, in order; None once one raises. */
  function PredictionsOf(records: seq<Json>, file: string, clock: nat -> string): Option<seq<Prediction>>
  {
    if |records| == 0 then Some([])
    else
      var n := |records| - 1;
      match PredictionsOf(records[..n], file, clock)
      case None => None
      case Some(ps) =>
        match PredictionOf(records[n], file, clock(n))
        case None => None
        case Some(p) => Some(ps + [p])
  }

  /**
   * process_file for a file whose text `content` was read (None where
   * reading or decoding failed); `clock(i)` is the reading taken for the
   * i-th record.
   */
  function FileResultOf(loads: string -> Option<Json>, file: string, content: Option<string>,
                        clock: nat -> string): FileResult
  {
    if content.None? then Errored(file)
    else
      match FileRecords(loads, content.value)
      case None => Errored(file)
      case Some(records) =>
        match PredictionsOf(records, file, clock)
        case None => Errored(file)
        case Some(ps) => Processed(file, ps)
  }

  method ProcessFile(loads: string -> Option<Json>, file: string, content: Option<string>,
                     clock: nat -> string) returns (result: FileResult)
    ensures result == FileResultOf(loads, file, content, clock)
  {
    if content.None? {
      return Errored(file);
    }
    var records := FileRecords(loads, content.value);
    if records.None? {
      return Errored(file);
    }
    var rs := records.value;
    var predictions: seq<Prediction> := [];
    for i := 0 to |rs|
      invariant PredictionsOf(rs[..i], file, clock) == Some(predictions)
    {
      PredictionsStep(rs, file, clock, i);
      var p := PredictionOf(rs[i], file, clock(i));
      if p.None? {
        PredictionsStop(rs, file, clock, i + 1);
        return Errored(file);
      }
      predictions := predictions + [p.value];
    }
    assert rs[..|rs|] == rs;
    result := Processed(file, predictions);
  }

  lemma PredictionsStep(records: seq<Json>, file: string, clock: nat -> string, i: nat)
    requires i < |records|
    ensures var prev := PredictionsOf(records[..i], file, clock);
      var p := PredictionOf(records[i], file, clock(i));
      PredictionsOf(records[..i + 1], file, clock) ==
        if prev.Some? && p.Some? then Some(prev.value + [p.value]) else None
  {
    assert records[..i + 1][..i] == records[..i];
  }

  lemma {:induction false} PredictionsStop(records: seq<Json>, file: string, clock: nat -> string, j: nat)
    requires j <= |records| && PredictionsOf(records[..j], file, clock).None?
    ensures PredictionsOf(records, file, clock).None?
    decreases |records| - j
  {
    if j < |records| {
      assert records[..j + 1][..j] == records[..j];
      PredictionsStop(records, file, clock, j + 1);
    } else {
      assert records[..j] == records;
    }
  }

  /** `p` is the prediction of `record` read at `ts` from `file`. */
  predicate Describes(p: Prediction, record: Json, file: string, ts: string)
  {
    record.Obj? &&
    p.recordId == GetOr(record.fields, "id", Str("unknown")) &&
    p.timestamp == ts &&
    Some(p.category) == Classify(record.fields) &&
    p.sourceFile == file
  }

  /**
   * A processed file has one prediction per record, in order: the record's
   * id (or "unknown" when absent), its own clock reading, its category and
   * the file's key.
   */
  lemma PredictionsSpec(records: seq<Json>, file: string, clock: nat -> string)
    requires PredictionsOf(records, file, clock).Some?
    ensures |PredictionsOf(records, file, clock).value| == |records|
    ensures forall i :: 0 <= i < |records| ==>
      Describes(PredictionsOf(records, file, clock).value[i], records[i], file, clock(i))
  {
    PredictionsEach(records, file, clock);
    var ps := PredictionsOf(records, file, clock).value;
    forall i | 0 <= i < |records| ensures Describes(ps[i], records[i], file, clock(i)) {
      PredictionOfSpec(records[i], file, clock(i));
    }
  }

  /** The i-th prediction is the prediction of the i-th record at the i-th reading. */
  lemma {:induction false} PredictionsEach(records: seq<Json>, file: string, clock: nat -> string)
    requires PredictionsOf(records, file, clock).Some?
    ensures |PredictionsOf(records, file, clock).value| == |records|
    ensures forall i :: 0 <= i < |records| ==>
      PredictionOf(records[i], file, clock(i)) == Some(PredictionsOf(records, file, clock).value[i])
  {
    if |records| > 0 {
      var n := |records| - 1;
      PredictionsStep(records, file, clock, n);
      assert records[..n + 1] == records;
      PredictionsEach(records[..n], file, clock);
      var ps := PredictionsOf(records, file, clock).value;
      var prev := PredictionsOf(records[..n], file, clock).value;
      assert ps == prev + [PredictionOf(records[n], file, clock(n)).value];
      forall i | 0 <= i < n
        ensures PredictionOf(records[i], file, clock(i)) == Some(ps[i])
      {
        assert ps[i] == prev[i] && records[i] == records[..n][i];
      }
    }
  }

  lemma PredictionOfSpec(record: Json, file: string, ts: string)
    requires PredictionOf(record, file, ts).Some?
    ensures Describes(PredictionOf(record, file, ts).value, record, file, ts)
  {
  }

  /** Building the predictions fails exactly when building one record's prediction raises. */
  lemma {:induction false} PredictionsFail(records: seq<Json>, file: string, clock: nat -> string)
    ensures PredictionsOf(records, file, clock).None? <==>
      exists i :: 0 <= i < |records| && PredictionOf(records[i], file, clock(i)).None?
  {
    if |records| > 0 {
      var n := |records| - 1;
      PredictionsFail(records[..n], file, clock);
      PredictionsStep(records, file, clock, n);
      assert records[..n + 1] == records;
      if PredictionsOf(records, file, clock).None? {
        if PredictionsOf(records[..n], file, clock).None? {
          var i :| 0 <= i < n && PredictionOf(records[..n][i], file, clock(i)).None?;
          assert records[i] == records[..n][i];
        } else {
          assert PredictionOf(records[n], file, clock(n)).None?;
        }
      } else {
        forall i | 0 <= i < |records| ensures PredictionOf(records[i], file, clock(i)).Some? {
          if i < n {
            assert records[i] == records[..n][i];
          }
        }
      }
    }
  }

  /** The non-blank lines are kept, in order, and no other line. */
  lemma {:induction false} RecordLinesSpec(lines: seq<string>)
    ensures forall l :: l in RecordLines(lines) <==> l in lines && Strip(l) != ""
    ensures |RecordLines(lines)| <= |lines|
  {
    if |lines| > 0 {
      var n := |lines| - 1;
      RecordLinesSpec(lines[..n]);
      assert lines == lines[..n] + [lines[n]];
    }
  }

  /**
   * process_file answers for its own key; it reports an error exactly when
   * the text could not be read, a non-blank line does not parse, or a
   * record's prediction raises; otherwise every record of the file gives
   * one prediction tagged with the file.
   */
  lemma FileResultSpec(loads: string -> Option<Json>, file: string, content: Option<string>, clock: nat -> string)
    ensures var r := FileResultOf(loads, file, content, clock);
      r.file == file &&
      (r.Errored? <==>
        content.None? || FileRecords(loads, content.value).None? ||
        exists i :: 0 <= i < |FileRecords(loads, content.value).value| &&
          PredictionOf(FileRecords(loads, content.value).value[i], file, clock(i)).None?) &&
      (r.Processed? ==>
        |r.predictions| == |FileRecords(loads, content.value).value| &&
        forall p :: p in r.predictions ==> p.sourceFile == file)
  {
    if content.Some? && FileRecords(loads, content.value).Some? {
      var records := FileRecords(loads, content.value).value;
      PredictionsFail(records, file, clock);
      if PredictionsOf(records, file, clock).Some? {
        PredictionsSpec(records, file, clock);
      }
    }
  }

  /** A record without an id is credited to "unknown". */
  lemma UnknownId(record: seq<(string, Json)>, file: string, ts: string)
    requires !HasKey(record, "id") && PredictionOf(Obj(record), file, ts).Some?
    ensures PredictionOf(Obj(record), file, ts).value.recordId == Str("unknown")
  {
  }

  // ---------------------------------------------------------------------
  // write_analytics_results
  // ---------------------------------------------------------------------

  /** The predictions of all results, in order; an error entry contributes none. */
  function AllPredictions(results: seq<FileResult>): seq<Prediction>
  {
    if |results| == 0 then []
    else
      var last := results[|results| - 1];
      AllPredictions(results[..|results| - 1]) + (if last.Processed? then last.predictions else [])
  }

  /** The document written: inference metadata and the flattened predictions. */
  datatype AnalyticsDoc = AnalyticsDoc(inferenceTimestamp: string, totalPredictions: nat,
                                       filesProcessed: nat, predictions: seq<Prediction>)

  /** write_analytics_results: flatten the predictions and count them; `stamp` is the clock reading. */
  method WriteAnalytics(results: seq<FileResult>, stamp: string) returns (doc: AnalyticsDoc)
    ensures doc.predictions == AllPredictions(results)
    ensures doc == AnalyticsDoc(stamp, |AllPredictions(results)|, |results|, AllPredictions(results))
  {
    var all: seq<Prediction> := [];
    for i := 0 to |results|
      invariant all == AllPredictions(results[..i])
    {
      assert results[..i + 1][..i] == results[..i];
      if results[i].Processed? {
        all := all + results[i].predictions;
      }
    }
    assert results[..|results|] == results;
    doc := AnalyticsDoc(stamp, |all|, |results|, all);
  }

  /** Flattening distributes over concatenation of the result lists. */
  lemma {:induction false} AllPredictionsConcat(a: seq<FileResult>, b: seq<FileResult>)
    ensures AllPredictions(a + b) == AllPredictions(a) + AllPredictions(b)
  {
    if |b| == 0 {
      assert a + b == a;
    } else {
      var b' := b[..|b| - 1];
      var last := b[|b| - 1];
      var extra := if last.Processed? then last.predictions else [];
      assert (a + b)[..|a + b| - 1] == a + b';
      assert (a + b)[|a + b| - 1] == last;
      AllPredictionsConcat(a, b');
      assert AllPredictions(a + b) == AllPredictions(a + b') + extra;
      assert AllPredictions(b) == AllPredictions(b') + extra;
      assert (AllPredictions(a) + AllPredictions(b')) + extra == AllPredictions(a) + (AllPredictions(b') + extra);
    }
  }

  /** The sum of the per-file prediction counts; error entries count zero. */
  function CountPredictions(results: seq<FileResult>): nat
  {
    if |results| == 0 then 0
    else
      var last := results[|results| - 1];
      CountPredictions(results[..|results| - 1]) + (if last.Processed? then |last.predictions| else 0)
  }

  /**
   * total_predictions is the sum of what each processed file produced, and
   * every flattened prediction comes from one of the results.
   */
  lemma {:induction false} AllPredictionsSpec(results: seq<FileResult>)
    ensures |AllPredictions(results)| == CountPredictions(results)
    ensures forall p :: p in AllPredictions(results) ==>
      exists i :: 0 <= i < |results| && results[i].Processed? && p in results[i].predictions
  {
    if |results| > 0 {
      var n := |results| - 1;
      AllPredictionsSpec(results[..n]);
      forall p | p in AllPredictions(results)
        ensures exists i :: 0 <= i < |results| && results[i].Processed? && p in results[i].predictions
      {
        if p in AllPredictions(results[..n]) {
          var i :| 0 <= i < n && results[..n][i].Processed? && p in results[..n][i].predictions;
          assert results[i] == results[..n][i];
        } else {
          assert results[n].Processed? && p in results[n].predictions;
        }
      }
    }
  }

  // ---------------------------------------------------------------------
  // generate_analytics_key and list_recent_trusted_files
  // ---------------------------------------------------------------------

  /** year=Y/month=MM/day=DD/ of a clock reading. */
  function DatePartition(t: DateTime): string
  {
    "year=" + FormatInt(t.year) + "/month=" + ZeroPad(t.month, 2) + "/day=" + ZeroPad(t.day, 2) + "/"
  }

  /** generate_analytics_key at clock reading `now`. */
  function AnalyticsKey(analyticsPrefix: string, now: DateTime): string
  {
    analyticsPrefix + DatePartition(now) + "ml_inference_" + CompactStamp(now) + ".json"
  }

  /** The prefix list_recent_trusted_files lists under. */
  function ListingPrefix(trustedPrefix: string, now: DateTime): string
  {
    trustedPrefix + DatePartition(now)
  }

  lemma PartitionFields(y: string, m: string, d: string)
    requires |y| == 4 && |m| == 2 && |d| == 2
    ensures var s := "year=" + y + "/month=" + m + "/day=" + d + "/";
      |s| == 26 && s[..5] == "year=" && s[5..9] == y && s[9..16] == "/month=" && s[16..18] == m &&
      s[18..23] == "/day=" && s[23..25] == d && s[25] == '/'
  {
  }

  /**
   * For a clock reading the partition is "year=YYYY/month=MM/day=DD/": four
   * digits of the year, then the month and the day zero-padded to two
   * digits, each reading back as the date.
   */
  lemma DatePartitionShape(t: DateTime)
    requires IsClockReading(t)
    ensures var s := DatePartition(t);
      |s| == 26 && s[..5] == "year=" && s[9..16] == "/month=" && s[18..23] == "/day=" && s[25] == '/' &&
      ReadsAs(s[5..9], t.year) && ReadsAs(s[16..18], t.month) && ReadsAs(s[23..25], t.day)
  {
    ZeroPadExact(t.month, 2);
    ZeroPadExact(t.day, 2);
    ZeroPadExact(t.year, 4);
    ZeroPadFull(t.year, 4);
    var y, m, d := FormatInt(t.year), ZeroPad(t.month, 2), ZeroPad(t.day, 2);
    assert y == ZeroPad(t.year, 4);
    PartitionFields(y, m, d);
    assert DatePartition(t) == "year=" + y + "/month=" + m + "/day=" + d + "/";
  }

  lemma KeyFields(p: string, d: string, c: string)
    requires |d| == 26 && |c| == 15
    ensures var k := p + d + "ml_inference_" + c + ".json";
      var n := |p|;
      |k| == n + 59 && k[..n] == p && k[n..n + 26] == d && k[n + 26..n + 39] == "ml_inference_" &&
      k[n + 39..n + 54] == c && k[n + 54..] == ".json"
  {
  }

  /**
   * The analytics key is the prefix, the date partition of `now`, then
   * ml_inference_YYYYMMDD_HHMMSS.json of the same reading.
   */
  lemma AnalyticsKeyShape(analyticsPrefix: string, now: DateTime)
    requires IsClockReading(now)
    ensures var k := AnalyticsKey(analyticsPrefix, now);
      var p := |analyticsPrefix|;
      |k| == p + 59 && StartsWith(k, analyticsPrefix) &&
      k[p..p + 26] == DatePartition(now) && k[p + 26..p + 39] == "ml_inference_" &&
      k[p + 39..p + 54] == CompactStamp(now) && EndsWith(k, ".json")
  {
    DatePartitionShape(now);
    CompactStampShape(now);
    KeyFields(analyticsPrefix, DatePartition(now), CompactStamp(now));
  }

  /** The .json filter over the listed keys, in listing order. */
  function JsonKeys(keys: seq<string>): seq<string>
  {
    if |keys| == 0 then []
    else
      var k := keys[|keys| - 1];
      JsonKeys(keys[..|keys| - 1]) + (if EndsWith(k, ".json") then [k] else [])
  }

  /** A listed key is kept exactly when it ends in ".json". */
  lemma {:induction false} JsonKeysSpec(keys: seq<string>)
    ensures forall k :: k in JsonKeys(keys) <==> k in keys && EndsWith(k, ".json")
    ensures |JsonKeys(keys)| <= |keys|
  {
    if |keys| > 0 {
      var n := |keys| - 1;
      JsonKeysSpec(keys[..n]);
      assert keys == keys[..n] + [keys[n]];
    }
  }

  // ---------------------------------------------------------------------
  // lambda_handler
  // ---------------------------------------------------------------------

  /** At most this many files are processed per run. */
  const MaxFiles: nat := 10

  /** How a run ends: nothing to do, or the analytics written under `key`. */
  datatype MlRun = NoData | Ran(key: string, doc: AnalyticsDoc)

  /** The results for the first files, in order. */
  function ResultsOf(loads: string -> Option<Json>, files: seq<string>, read: string -> Option<string>,
                     clock: nat -> nat -> string): (r: seq<FileResult>)
    ensures |r| == |files|
  {
    seq(|files|, i requires 0 <= i < |files| => FileResultOf(loads, files[i], read(files[i]), clock(i)))
  }

  lemma ResultsStep(loads: string -> Option<Json>, files: seq<string>, read: string -> Option<string>,
                    clock: nat -> nat -> string, i: nat)
    requires i < |files|
    ensures ResultsOf(loads, files[..i + 1], read, clock) ==
      ResultsOf(loads, files[..i], read, clock) + [FileResultOf(loads, files[i], read(files[i]), clock(i))]
  {
  }

  /** files[:10] */
  function Cap(files: seq<string>): seq<string>
  {
    if |files| <= MaxFiles then files else files[..MaxFiles]
  }

  /**
   * lambda_handler: `listed` are the keys listed under the day's prefix
   * (empty where listing failed), `read` the text of a key, `clock(i)(j)`
   * the reading for record j of file i, `now` the reading behind the output
   * key and `stamp` the inference timestamp.
   */
  function RunOf(cfg: Config, loads: string -> Option<Json>, listed: seq<string>, read: string -> Option<string>,
                 clock: nat -> nat -> string, now: DateTime, stamp: string): MlRun
  {
    var files := JsonKeys(listed);
    if files == [] then NoData
    else
      var results := ResultsOf(loads, Cap(files), read, clock);
      Ran(AnalyticsKey(cfg.analyticsPrefix, now),
          AnalyticsDoc(stamp, |AllPredictions(results)|, |results|, AllPredictions(results)))
  }

  method LambdaHandler(cfg: Config, loads: string -> Option<Json>, listed: seq<string>,
                       read: string -> Option<string>, clock: nat -> nat -> string,
                       now: DateTime, stamp: string) returns (run: MlRun)
    ensures run == RunOf(cfg, loads, listed, read, clock, now, stamp)
  {
    var files := JsonKeys(listed);
    if files == [] {
      return NoData;
    }
    var results: seq<FileResult> := [];
    var capped := Cap(files);
    for i := 0 to |capped|
      invariant results == ResultsOf(loads, capped[..i], read, clock)
    {
      ResultsStep(loads, capped, read, clock, i);
      var result := ProcessFile(loads, capped[i], read(capped[i]), clock(i));
      results := results + [result];
    }
    assert capped[..|capped|] == capped;
    var doc := WriteAnalytics(results, stamp);
    run := Ran(AnalyticsKey(cfg.analyticsPrefix, now), doc);
  }

  /** Every flattened prediction of the results names one of the processed files. */
  lemma ResultsSources(loads: string -> Option<Json>, files: seq<string>, read: string -> Option<string>,
                       clock: nat -> nat -> string)
    ensures forall p :: p in AllPredictions(ResultsOf(loads, files, read, clock)) ==> p.sourceFile in files
  {
    var results := ResultsOf(loads, files, read, clock);
    AllPredictionsSpec(results);
    forall p | p in AllPredictions(results)
      ensures p.sourceFile in files
    {
      var i :| 0 <= i < |results| && results[i].Processed? && p in results[i].predictions;
      FileResultSpec(loads, files[i], read(files[i]), clock(i));
    }
  }

  /**
   * Every prediction written comes from one of the first ten listed .json
   * files.
   */
  lemma RunSources(cfg: Config, loads: string -> Option<Json>, listed: seq<string>, read: string -> Option<string>,
                   clock: nat -> nat -> string, now: DateTime, stamp: string)
    ensures var run := RunOf(cfg, loads, listed, read, clock, now, stamp);
      run.Ran? ==> forall p :: p in run.doc.predictions ==>
        p.sourceFile in Cap(JsonKeys(listed)) && p.sourceFile in listed && EndsWith(p.sourceFile, ".json")
  {
    var files := JsonKeys(listed);
    JsonKeysSpec(listed);
    var capped := Cap(files);
    ResultsSources(loads, capped, read, clock);
    assert forall f :: f in capped ==> f in files;
  }

  /**
   * Where the listing prefix and the analytics key come from one clock
   * reading, the output sits in the same year/month/day partition as the
   * trusted files listed. The handler reads the clock twice (once for the
   * listing prefix, once for the output key), so a run that spans midnight
   * UTC writes into the next day's partition; this lemma does not cover that
   * case, and the run itself takes the listing as an input rather than
   * computing its prefix.
   */
  lemma SamePartition(cfg: Config, now: DateTime)
    requires IsClockReading(now)
    ensures var a := AnalyticsKey(cfg.analyticsPrefix, now);
      var l := ListingPrefix(cfg.trustedPrefix, now);
      var n := |cfg.analyticsPrefix|;
      |a| >= n + 26 && a[n..n + 26] == l[|cfg.trustedPrefix|..]
  {
    AnalyticsKeyShape(cfg.analyticsPrefix, now);
    DatePartitionShape(now);
    assert ListingPrefix(cfg.trustedPrefix, now)[|cfg.trustedPrefix|..] == DatePartition(now);
  }

  /**
   * A run processes the first min(10, n) .json files in listing order, one
   * result each; it writes nothing when no .json file is listed.
   */
  lemma RunSpec(cfg: Config, loads: string -> Option<Json>, listed: seq<string>, read: string -> Option<string>,
                clock: nat -> nat -> string, now: DateTime, stamp: string)
    ensures var run := RunOf(cfg, loads, listed, read, clock, now, stamp);
      var files := JsonKeys(listed);
      (run.NoData? <==> forall k :: k in listed ==> !EndsWith(k, ".json")) &&
      (run.Ran? ==>
        run.doc.filesProcessed == (if |files| <= MaxFiles then |files| else MaxFiles) &&
        run.doc.totalPredictions == |run.doc.predictions| &&
        run.key == AnalyticsKey(cfg.analyticsPrefix, now))
  {
    JsonKeysSpec(listed);
    var files := JsonKeys(listed);
    if files != [] {
      assert files[0] in files;
    }
  }
}
