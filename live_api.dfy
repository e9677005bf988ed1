/**
 * The live read API Lambda: answers GET with the last `limit` items of the
 * most recently modified trusted object, OPTIONS with the CORS headers, and
 * anything else with 405.
 */
module LiveApi {
  import opened Text
  import opened Clock
  import opened JsonValue

  /** The settings the Lambda reads from its environment. */
  datatype Config = Config(trustedPrefix: string, maxItemsDefault: int, allowedOrigin: string)

  /** The environment defaults: TRUSTED_PREFIX, MAX_ITEMS_DEFAULT and ALLOWED_ORIGIN unset. */
  const DefaultConfig: Config := Config("trusted/finance/transactions/", 200, "*")

  // ---------------------------------------------------------------------
  // _cors_headers and _response
  // ---------------------------------------------------------------------

  /** An HTTP response as API Gateway receives it; headers in dict order. */
  datatype Response = Response(statusCode: int, headers: seq<(string, string)>, body: string)

  function CorsHeaders(cfg: Config): seq<(string, string)>
  {
    [("Access-Control-Allow-Origin", cfg.allowedOrigin),
     ("Access-Control-Allow-Headers", "Content-Type"),
     ("Access-Control-Allow-Methods", "GET,OPTIONS")]
  }

  /** _response(status, body): JSON content type, then the CORS headers, and the dumped body. */
  function Respond(cfg: Config, status: int, body: Json): Response
  {
    Response(status, [("Content-Type", "application/json")] + CorsHeaders(cfg), Dumps(body))
  }

  /** The names of a header list. */
  function HeaderNames(headers: seq<(string, string)>): (r: seq<string>)
    ensures |r| == |headers| && forall i :: 0 <= i < |headers| ==> r[i] == headers[i].0
  {
    seq(|headers|, i requires 0 <= i < |headers| => headers[i].0)
  }

  /**
   * Every _response carries Content-Type: application/json and the three
   * CORS headers, under distinct names, and a non-empty JSON body.
   */
  lemma RespondHeaders(cfg: Config, status: int, body: Json)
    ensures var r := Respond(cfg, status, body);
      r.statusCode == status &&
      ("Content-Type", "application/json") in r.headers &&
      (forall h :: h in CorsHeaders(cfg) ==> h in r.headers) &&
      |r.headers| == 4 &&
      (forall i, j :: 0 <= i < j < |r.headers| ==> r.headers[i].0 != r.headers[j].0) &&
      |r.body| >= 1 && Printable(r.body)
  {
    var r := Respond(cfg, status, body);
    assert r.headers[0] == ("Content-Type", "application/json");
    assert r.headers[1..] == CorsHeaders(cfg);
    assert HeaderNames(r.headers) == ["Content-Type", "Access-Control-Allow-Origin",
      "Access-Control-Allow-Headers", "Access-Control-Allow-Methods"];
    forall i, j | 0 <= i < j < |r.headers| ensures r.headers[i].0 != r.headers[j].0 {
      assert r.headers[i].0 == HeaderNames(r.headers)[i];
      assert r.headers[j].0 == HeaderNames(r.headers)[j];
    }
  }

  // ---------------------------------------------------------------------
  // _parse_limit
  // ---------------------------------------------------------------------

  /** int(v) for a JSON value: None where int() raises TypeError or ValueError. */
  function IntOf(v: Json): Option<int>
  {
    match v
    case Str(s) => ParseInt(s)
    case Num(n) => Some(n)
    case Bool(b) => Some(if b then 1 else 0)
    case _ => None
  }

  /** The raw `limit` query parameter; None where a non-dict query makes `.get` raise. */
  function RawLimit(event: seq<(string, Json)>): Option<Option<Json>>
  {
    var q := GetOr(event, "queryStringParameters", Null);
    var query := if Truthy(q) then q else Obj([]);
    if query.Obj? then Some(Get(query.fields, "limit")) else None
  }

  /**
   * _parse_limit(event): the default when `limit` is absent, null or not an
   * integer, otherwise the limit clamped to [1, maxDefault]. None where the
   * lookup itself raises.
   */
  function ParseLimit(event: seq<(string, Json)>, maxDefault: int): Option<int>
  {
    match RawLimit(event)
    case None => None
    case Some(raw) =>
      if raw.None? || raw.value.Null? then Some(maxDefault)
      else
        match IntOf(raw.value)
        case None => Some(maxDefault)
        case Some(limit) => Some(Max(1, Min(limit, maxDefault)))
  }

  function Min(a: int, b: int): int { if a <= b then a else b }
  function Max(a: int, b: int): int { if a >= b then a else b }

  /** A missing, null or non-integer limit gives the default. */
  lemma ParseLimitDefault(event: seq<(string, Json)>, maxDefault: int)
    requires RawLimit(event).Some?
    requires var raw := RawLimit(event).value;
      raw.None? || raw.value.Null? || IntOf(raw.value).None?
    ensures ParseLimit(event, maxDefault) == Some(maxDefault)
  {
  }

  /** With a default of at least 1, the limit always lies in [1, default]. */
  lemma ParseLimitRange(event: seq<(string, Json)>, maxDefault: int)
    requires maxDefault >= 1 && ParseLimit(event, maxDefault).Some?
    ensures 1 <= ParseLimit(event, maxDefault).value <= maxDefault
  {
  }

  /**
   * An integer limit is taken as given inside [1, maxDefault], raised to 1
   * below it and lowered to the default above it.
   */
  lemma ParseLimitClamp(event: seq<(string, Json)>, maxDefault: int, n: int)
    requires RawLimit(event).Some? && RawLimit(event).value.Some?
    requires IntOf(RawLimit(event).value.value) == Some(n)
    ensures 1 <= n <= maxDefault ==> ParseLimit(event, maxDefault) == Some(n)
    ensures n < 1 ==> ParseLimit(event, maxDefault) == Some(1)
    ensures maxDefault < n ==> ParseLimit(event, maxDefault) == Some(Max(1, maxDefault))
  {
  }

  /** The decimal text of any integer of at most 4300 digits is read back as that integer. */
  lemma IntOfText(n: int)
    requires |NatDigits(if n < 0 then -n else n)| <= IntMaxStrDigits
    ensures IntOf(Str(FormatInt(n))) == Some(n)
  {
    ParseFormatInt(n);
  }

  /**
   * A limit padded with an ASCII separator, which int() does not skip, gives
   * the default.
   */
  lemma ParseLimitSeparatorPadded(maxDefault: int)
    ensures var event := [("queryStringParameters", Obj([("limit", Str("\U{1C}5"))]))];
      ParseLimit(event, maxDefault) == Some(maxDefault)
  {
    ParseIntSeparatorPadded();
  }

  /** A limit of more than 4300 digits, on which int() raises, gives the default. */
  lemma ParseLimitTooManyDigits(event: seq<(string, Json)>, maxDefault: int, ds: string)
    requires |ds| > IntMaxStrDigits && forall i :: 0 <= i < |ds| ==> IsDigit(ds[i])
    requires RawLimit(event) == Some(Some(Str(ds)))
    ensures ParseLimit(event, maxDefault) == Some(maxDefault)
  {
    ParseDigitsLimit(ds);
  }

  /** A query without `limit`, or no query at all, gives the default. */
  lemma ParseLimitAbsent(event: seq<(string, Json)>, maxDefault: int)
    requires !HasKey(event, "queryStringParameters")
    ensures ParseLimit(event, maxDefault) == Some(maxDefault)
  {
  }

  // ---------------------------------------------------------------------
  // _parse_items
  // ---------------------------------------------------------------------

  /** The items of the JSON Lines form, line by line; None once a line fails to parse. */
  function LineItems(loads: string -> Option<Json>, lines: seq<string>): Option<seq<Json>>
  {
    if |lines| == 0 then Some([])
    else
      var line := Strip(lines[|lines| - 1]);
      match LineItems(loads, lines[..|lines| - 1])
      case None => None
      case Some(items) =>
        if line == "" then Some(items)
        else
          match loads(line)
          case None => None
          case Some(v) => Some(items + [v])
  }

  /** What _parse_items returns for a payload; None where json.loads raises. */
  function ItemsOf(loads: string -> Option<Json>, payload: string): Option<seq<Json>>
  {
    var p := Strip(payload);
    if p == "" then Some([])
    else if StartsWith(p, "[") then
      match loads(p)
      case None => None
      case Some(decoded) => Some(if decoded.Arr? then decoded.items else [decoded])
    else LineItems(loads, SplitLines(p))
  }

  /** _parse_items: a JSON array parsed whole, or JSON Lines parsed line by line. */
  method ParseItems(loads: string -> Option<Json>, payload: string) returns (r: Option<seq<Json>>)
    ensures r == ItemsOf(loads, payload)
  {
    var p := Strip(payload);
    if p == "" {
      return Some([]);
    }
    if StartsWith(p, "[") {
      var decoded := loads(p);
      if decoded.None? {
        return None;
      }
      if decoded.value.Arr? {
        return Some(decoded.value.items);
      }
      return Some([decoded.value]);
    }
    var lines := SplitLines(p);
    var items: seq<Json> := [];
    for i := 0 to |lines|
      invariant LineItems(loads, lines[..i]) == Some(items)
    {
      assert lines[..i + 1][..i] == lines[..i];
      var line := Strip(lines[i]);
      if line == "" {
        continue;
      }
      var v := loads(line);
      if v.None? {
        LineItemsStop(loads, lines, i + 1);
        return None;
      }
      items := items + [v.value];
    }
    assert lines[..|lines|] == lines;
    r := Some(items);
  }

  /** Once a line has failed, the whole payload fails. */
  lemma {:induction false} LineItemsStop(loads: string -> Option<Json>, lines: seq<string>, j: nat)
    requires j <= |lines| && LineItems(loads, lines[..j]).None?
    ensures LineItems(loads, lines).None?
    decreases |lines| - j
  {
    if j < |lines| {
      assert lines[..j + 1][..j] == lines[..j];
      LineItemsStop(loads, lines, j + 1);
    } else {
      assert lines[..j] == lines;
    }
  }

  /** The stripped non-blank lines, in order. */
  function NonBlank(lines: seq<string>): (r: seq<string>)
    ensures forall k :: 0 <= k < |r| ==> r[k] != ""
  {
    if |lines| == 0 then []
    else
      var line := Strip(lines[|lines| - 1]);
      NonBlank(lines[..|lines| - 1]) + (if line == "" then [] else [line])
  }

  /**
   * The JSON Lines form yields one item per non-blank line, in order, each
   * the parse of the stripped line; it fails exactly when one of those lines
   * does not parse, so a malformed line is never skipped.
   */
  lemma {:induction false} LineItemsSpec(loads: string -> Option<Json>, lines: seq<string>)
    ensures var ls := NonBlank(lines);
      LineItems(loads, lines) == if AllParse(loads, ls) then Some(Parsed(loads, ls)) else None
  {
    if |lines| > 0 {
      var prev := lines[..|lines| - 1];
      LineItemsSpec(loads, prev);
      var line := Strip(lines[|lines| - 1]);
      if line != "" {
        AllParseAppend(loads, NonBlank(prev), line);
      } else {
        assert NonBlank(lines) == NonBlank(prev);
      }
    }
  }

  /** A blank payload yields no items. */
  lemma ItemsBlank(loads: string -> Option<Json>, payload: string)
    requires AllSpace(payload)
    ensures ItemsOf(loads, payload) == Some([])
  {
    StripEmptyIffAllSpace(payload);
  }

  /**
   * A payload starting with '[' is parsed whole: a list gives its elements,
   * any other value a one-item list, and a parse failure raises.
   */
  lemma ItemsArray(loads: string -> Option<Json>, payload: string)
    requires StartsWith(Strip(payload), "[")
    ensures var d := loads(Strip(payload));
      (d.None? ==> ItemsOf(loads, payload).None?) &&
      (d.Some? && d.value.Arr? ==> ItemsOf(loads, payload) == Some(d.value.items)) &&
      (d.Some? && !d.value.Arr? ==> ItemsOf(loads, payload) == Some([d.value]))
  {
    assert Strip(payload) != "";
  }

  // ---------------------------------------------------------------------
  // _get_latest_object_key
  // ---------------------------------------------------------------------

  /** A listed object: its key and its LastModified time (UTC, whole seconds). */
  datatype S3Object = S3Object(key: string, lastModified: DateTime)

  /** a > b on datetimes: later in (year, month, day, hour, minute, second) order. */
  predicate Later(a: DateTime, b: DateTime)
  {
    a.year > b.year || (a.year == b.year &&
    (a.month > b.month || (a.month == b.month &&
    (a.day > b.day || (a.day == b.day &&
    (a.hour > b.hour || (a.hour == b.hour &&
    (a.minute > b.minute || (a.minute == b.minute && a.second > b.second)))))))))
  }

  lemma LaterIrreflexive(a: DateTime)
    ensures !Later(a, a)
  {
  }

  lemma LaterTransitive(a: DateTime, b: DateTime, c: DateTime)
    requires Later(a, b) && Later(b, c)
    ensures Later(a, c)
  {
  }

  lemma LaterTotal(a: DateTime, b: DateTime)
    ensures a == b || Later(a, b) || Later(b, a)
  {
  }

  /** The objects of all pages, page by page. */
  function Flatten(pages: seq<seq<S3Object>>): (r: seq<S3Object>)
  {
    if |pages| == 0 then [] else Flatten(pages[..|pages| - 1]) + pages[|pages| - 1]
  }

  /** The object the scan keeps: replaced only by a strictly later one. */
  function LatestOf(objs: seq<S3Object>): Option<S3Object>
  {
    if |objs| == 0 then None
    else
      var obj := objs[|objs| - 1];
      match LatestOf(objs[..|objs| - 1])
      case None => Some(obj)
      case Some(latest) => if Later(obj.lastModified, latest.lastModified) then Some(obj) else Some(latest)
  }

  /** _get_latest_object_key over the listing's pages. */
  method LatestObject(pages: seq<seq<S3Object>>) returns (latest: Option<S3Object>)
    ensures latest == LatestOf(Flatten(pages))
  {
    latest := None;
    for p := 0 to |pages|
      invariant latest == LatestOf(Flatten(pages[..p]))
    {
      var page := pages[p];
      FlattenStep(pages, p);
      ghost var before := Flatten(pages[..p]);
      assert before + page[..0] == before;
      for o := 0 to |page|
        invariant latest == LatestOf(before + page[..o])
      {
        var obj := page[o];
        ScanStep(before, page, o);
        if latest.None? || Later(obj.lastModified, latest.value.lastModified) {
          latest := Some(obj);
        }
      }
      assert page[..|page|] == page;
    }
    assert pages[..|pages|] == pages;
  }

  lemma FlattenStep(pages: seq<seq<S3Object>>, p: nat)
    requires p < |pages|
    ensures Flatten(pages[..p + 1]) == Flatten(pages[..p]) + pages[p]
  {
    assert pages[..p + 1][..p] == pages[..p];
  }

  lemma ScanStep(before: seq<S3Object>, page: seq<S3Object>, o: nat)
    requires o < |page|
    ensures LatestOf(before + page[..o + 1]) ==
      if LatestOf(before + page[..o]).None? ||
         Later(page[o].lastModified, LatestOf(before + page[..o]).value.lastModified)
      then Some(page[o]) else LatestOf(before + page[..o])
  {
    assert before + page[..o + 1] == (before + page[..o]) + [page[o]];
    LatestOfStep(before + page[..o], page[o]);
  }

  /** One step of the scan: a strictly later object replaces the one kept. */
  lemma LatestOfStep(objs: seq<S3Object>, obj: S3Object)
    ensures LatestOf(objs + [obj]) ==
      if LatestOf(objs).None? || Later(obj.lastModified, LatestOf(objs).value.lastModified)
      then Some(obj) else LatestOf(objs)
  {
    assert (objs + [obj])[..|objs|] == objs;
  }

  /**
   * objs[i] is `r`, no listed object is later than it, and every object
   * listed before it is strictly earlier.
   */
  predicate FirstLatest(objs: seq<S3Object>, r: S3Object, i: int)
  {
    0 <= i < |objs| && objs[i] == r &&
    (forall o :: o in objs ==> !Later(o.lastModified, r.lastModified)) &&
    (forall j :: 0 <= j < i ==> Later(r.lastModified, objs[j].lastModified))
  }

  /**
   * The result is None exactly when no page lists an object; otherwise it is
   * a listed object that no listed object is later than, and every object
   * listed before it is strictly earlier, so the first of equal times wins.
   */
  lemma {:induction false} LatestOfSpec(objs: seq<S3Object>)
    ensures LatestOf(objs).None? <==> |objs| == 0
    ensures LatestOf(objs).Some? ==> exists i :: FirstLatest(objs, LatestOf(objs).value, i)
  {
    if |objs| > 0 {
      var prev := objs[..|objs| - 1];
      var obj := objs[|objs| - 1];
      LatestOfSpec(prev);
      assert objs == prev + [obj];
      LatestOfStep(prev, obj);
      match LatestOf(prev)
      case None =>
        assert prev == [];
        assert FirstLatest(objs, obj, 0);
      case Some(latest) =>
        var i :| FirstLatest(prev, latest, i);
        if Later(obj.lastModified, latest.lastModified) {
          LatestReplaced(prev, obj, latest, i);
        } else {
          LatestKept(prev, obj, latest, i);
        }
    }
  }

  lemma LatestReplaced(prev: seq<S3Object>, obj: S3Object, latest: S3Object, i: int)
    requires FirstLatest(prev, latest, i) && Later(obj.lastModified, latest.lastModified)
    ensures FirstLatest(prev + [obj], obj, |prev|)
  {
    var objs := prev + [obj];
    forall o | o in objs ensures !Later(o.lastModified, obj.lastModified) {
      if o in prev {
        if Later(o.lastModified, obj.lastModified) {
          LaterTransitive(o.lastModified, obj.lastModified, latest.lastModified);
        }
      } else {
        LaterIrreflexive(obj.lastModified);
      }
    }
    forall j | 0 <= j < |prev| ensures Later(obj.lastModified, objs[j].lastModified) {
      assert objs[j] == prev[j];
      LaterTotal(latest.lastModified, prev[j].lastModified);
      if Later(latest.lastModified, prev[j].lastModified) {
        LaterTransitive(obj.lastModified, latest.lastModified, prev[j].lastModified);
      }
    }
  }

  lemma LatestKept(prev: seq<S3Object>, obj: S3Object, latest: S3Object, i: int)
    requires FirstLatest(prev, latest, i) && !Later(obj.lastModified, latest.lastModified)
    ensures FirstLatest(prev + [obj], latest, i)
  {
    var objs := prev + [obj];
    forall o | o in objs ensures !Later(o.lastModified, latest.lastModified) {
      if o !in prev {
        assert o == obj;
      }
    }
    forall j | 0 <= j < i ensures Later(latest.lastModified, objs[j].lastModified) {
      assert objs[j] == prev[j];
    }
  }

  /** The listing of all pages is their concatenation, so empty pages contribute nothing. */
  lemma {:induction false} FlattenSpec(pages: seq<seq<S3Object>>)
    ensures |Flatten(pages)| == 0 <==> forall p :: 0 <= p < |pages| ==> |pages[p]| == 0
    ensures forall p, o :: 0 <= p < |pages| && o in pages[p] ==> o in Flatten(pages)
  {
    if |pages| > 0 {
      var prev := pages[..|pages| - 1];
      FlattenSpec(prev);
      assert forall p :: 0 <= p < |prev| ==> prev[p] == pages[p];
    }
  }

  // ---------------------------------------------------------------------
  // lambda_handler
  // ---------------------------------------------------------------------

  /** requestContext.http.method, GET when missing; None where a `.get` meets a non-dict. */
  function MethodOf(event: seq<(string, Json)>): Option<Json>
  {
    var context := GetOr(event, "requestContext", Obj([]));
    if !context.Obj? then None
    else
      var http := GetOr(context.fields, "http", Obj([]));
      if !http.Obj? then None
      else Some(GetOr(http.fields, "method", Str("GET")))
  }

  /** items[-limit:] with Python's slice rules (a limit of 0 or less keeps a suffix from the front). */
  function LastItems(items: seq<Json>, limit: int): (r: seq<Json>)
  {
    var n := |items|;
    var start := if -limit < 0 then Max(0, n - limit) else Min(-limit, n);
    items[start..]
  }

  /** For a positive limit, the slice is the last min(limit, n) items in their original order. */
  lemma LastItemsSpec(items: seq<Json>, limit: int)
    requires limit >= 1
    ensures var r := LastItems(items, limit);
      |r| == Min(limit, |items|) && r == items[|items| - |r|..]
  {
  }

  /** isoformat() of a tz-aware UTC datetime with whole seconds. */
  function IsoUtc(t: DateTime): string
  {
    IsoSeconds(t) + "+00:00"
  }

  const NoObjectBody: Json := Obj([("items", Arr([])), ("s3_key", Null), ("last_modified", Null)])

  /**
   * lambda_handler for an event, the listing's pages and `read`, the
   * get_object read of a key followed by _decode_object_bytes (gunzip for a
   * ".gz" key, then UTF-8): None where that read or decode raises. The
   * handler's result is None where it raises.
   */
  function HandlerResult(cfg: Config, loads: string -> Option<Json>, event: seq<(string, Json)>,
                         pages: seq<seq<S3Object>>, read: string -> Option<string>): Option<Response>
  {
    match MethodOf(event)
    case None => None
    case Some(verb) =>
      if verb == Str("OPTIONS") then Some(Response(200, CorsHeaders(cfg), ""))
      else if verb != Str("GET") then Some(Respond(cfg, 405, Obj([("message", Str("Method not allowed"))])))
      else
        match ParseLimit(event, cfg.maxItemsDefault)
        case None => None
        case Some(limit) =>
          match LatestOf(Flatten(pages))
          case None => Some(Respond(cfg, 200, NoObjectBody))
          case Some(latest) =>
            match read(latest.key)
            case None => None
            case Some(text) =>
            match ItemsOf(loads, text)
            case None => None
            case Some(items) =>
              Some(Respond(cfg, 200, Obj([
                ("items", Arr(LastItems(items, limit))),
                ("s3_key", Str(latest.key)),
                ("last_modified", Str(IsoUtc(latest.lastModified)))])))
  }

  method LambdaHandler(cfg: Config, loads: string -> Option<Json>, event: seq<(string, Json)>,
                       pages: seq<seq<S3Object>>, read: string -> Option<string>) returns (r: Option<Response>)
    ensures r == HandlerResult(cfg, loads, event, pages, read)
  {
    var verb := MethodOf(event);
    if verb.None? {
      return None;
    }
    if verb.value == Str("OPTIONS") {
      return Some(Response(200, CorsHeaders(cfg), ""));
    }
    if verb.value != Str("GET") {
      return Some(Respond(cfg, 405, Obj([("message", Str("Method not allowed"))])));
    }
    var limit := ParseLimit(event, cfg.maxItemsDefault);
    if limit.None? {
      return None;
    }
    var latest := LatestObject(pages);
    if latest.None? {
      return Some(Respond(cfg, 200, NoObjectBody));
    }
    var text := read(latest.value.key);
    if text.None? {
      return None;
    }
    var items := ParseItems(loads, text.value);
    if items.None? {
      return None;
    }
    r := Some(Respond(cfg, 200, Obj([
      ("items", Arr(LastItems(items.value, limit.value))),
      ("s3_key", Str(latest.value.key)),
      ("last_modified", Str(IsoUtc(latest.value.lastModified)))])));
  }

  /** An event without requestContext is served as a GET. */
  lemma MissingMethodIsGet(event: seq<(string, Json)>)
    requires !HasKey(event, "requestContext")
    ensures MethodOf(event) == Some(Str("GET"))
  {
  }

  /**
   * OPTIONS is answered 200 with only the CORS headers and an empty body;
   * any other method but GET gets 405 with a message.
   */
  lemma Dispatch(cfg: Config, loads: string -> Option<Json>, event: seq<(string, Json)>,
                 pages: seq<seq<S3Object>>, read: string -> Option<string>)
    requires MethodOf(event).Some?
    ensures var m := MethodOf(event).value;
      var r := HandlerResult(cfg, loads, event, pages, read);
      (m == Str("OPTIONS") ==> r == Some(Response(200, CorsHeaders(cfg), ""))) &&
      (m != Str("OPTIONS") && m != Str("GET") ==>
        r.Some? && r.value.statusCode == 405 &&
        r.value.body == Dumps(Obj([("message", Str("Method not allowed"))])))
  {
  }

  /** With nothing listed, a GET is answered 200 with no items and null key and time. */
  lemma NoObjectResponse(cfg: Config, loads: string -> Option<Json>, event: seq<(string, Json)>,
                         pages: seq<seq<S3Object>>, read: string -> Option<string>)
    requires MethodOf(event) == Some(Str("GET")) && ParseLimit(event, cfg.maxItemsDefault).Some?
    requires forall p :: 0 <= p < |pages| ==> |pages[p]| == 0
    ensures HandlerResult(cfg, loads, event, pages, read) == Some(Respond(cfg, 200, NoObjectBody))
  {
    FlattenSpec(pages);
    LatestOfSpec(Flatten(pages));
  }

  /**
   * A served GET returns the last min(limit, n) items of the latest
   * object's payload, in order, with that object's key; and with the
   * default of at least 1, at most that many items.
   */
  lemma ServedItems(cfg: Config, loads: string -> Option<Json>, event: seq<(string, Json)>,
                    pages: seq<seq<S3Object>>, read: string -> Option<string>)
    requires cfg.maxItemsDefault >= 1
    requires MethodOf(event) == Some(Str("GET")) && ParseLimit(event, cfg.maxItemsDefault).Some?
    requires LatestOf(Flatten(pages)).Some?
    requires read(LatestOf(Flatten(pages)).value.key).Some?
    requires ItemsOf(loads, read(LatestOf(Flatten(pages)).value.key).value).Some?
    ensures var latest := LatestOf(Flatten(pages)).value;
      var items := ItemsOf(loads, read(latest.key).value).value;
      var limit := ParseLimit(event, cfg.maxItemsDefault).value;
      var shown := items[|items| - Min(limit, |items|)..];
      |shown| <= cfg.maxItemsDefault &&
      HandlerResult(cfg, loads, event, pages, read) ==
        Some(Respond(cfg, 200, Obj([
          ("items", Arr(shown)),
          ("s3_key", Str(latest.key)),
          ("last_modified", Str(IsoUtc(latest.lastModified)))])))
  {
    ParseLimitRange(event, cfg.maxItemsDefault);
    var latest := LatestOf(Flatten(pages)).value;
    var items := ItemsOf(loads, read(latest.key).value).value;
    LastItemsSpec(items, ParseLimit(event, cfg.maxItemsDefault).value);
  }

  /**
   * A GET whose latest object cannot be read or decoded raises, and so does
   * one whose payload does not parse: the handler answers nothing.
   */
  lemma ReadFailureRaises(cfg: Config, loads: string -> Option<Json>, event: seq<(string, Json)>,
                          pages: seq<seq<S3Object>>, read: string -> Option<string>)
    requires MethodOf(event) == Some(Str("GET")) && ParseLimit(event, cfg.maxItemsDefault).Some?
    requires LatestOf(Flatten(pages)).Some?
    ensures var key := LatestOf(Flatten(pages)).value.key;
      (read(key).None? || ItemsOf(loads, read(key).value).None?) ==>
        HandlerResult(cfg, loads, event, pages, read).None?
  {
  }
}
