/**
 * JSON values as the handlers see them after json.loads: Python's None,
 * bool, int, str, list and dict. A dict is the sequence of its (key, value)
 * pairs in insertion order, which is the order json.dumps writes them in.
 * Floats are not part of this model.
 */
module JsonValue {
  import opened Text

  datatype Json =
    | Null
    | Bool(b: bool)
    | Num(n: int)
    | Str(s: string)
    | Arr(items: seq<Json>)
    | Obj(fields: seq<(string, Json)>)

  function Keys(fields: seq<(string, Json)>): (r: seq<string>)
    ensures |r| == |fields|
    ensures forall i :: 0 <= i < |fields| ==> r[i] == fields[i].0
  {
    if |fields| == 0 then [] else [fields[0].0] + Keys(fields[1..])
  }

  predicate HasKey(fields: seq<(string, Json)>, k: string)
  {
    k in Keys(fields)
  }

  /** A dict's keys are distinct; json.loads never builds any other kind. */
  predicate UniqueKeys(fields: seq<(string, Json)>)
  {
    forall i, j :: 0 <= i < j < |fields| ==> fields[i].0 != fields[j].0
  }

  /** Every dict, at any depth, has distinct keys: a value json.loads can return. */
  predicate WellFormed(j: Json)
    decreases j
  {
    match j
    case Arr(items) => forall i :: 0 <= i < |items| ==> WellFormed(items[i])
    case Obj(fields) => UniqueKeys(fields) && forall i :: 0 <= i < |fields| ==> WellFormed(fields[i].1)
    case _ => true
  }

  /** A json.loads stand-in: None for a JSONDecodeError, otherwise a well-formed value. */
  ghost predicate IsLoads(loads: string -> Option<Json>)
  {
    forall s :: loads(s).Some? ==> WellFormed(loads(s).value)
  }

  /** dict.get(k): the value stored under `k`, if any. */
  function Get(fields: seq<(string, Json)>, k: string): (r: Option<Json>)
    ensures r.None? <==> !HasKey(fields, k)
    ensures r.Some? ==> (k, r.value) in fields
  {
    if |fields| == 0 then None
    else if fields[0].0 == k then Some(fields[0].1)
    else Get(fields[1..], k)
  }

  /** d.get(k, default) on a dict. */
  function GetOr(fields: seq<(string, Json)>, k: string, default: Json): Json
  {
    match Get(fields, k)
    case Some(v) => v
    case None => default
  }

  /** obj.get(k) on any value: None for a missing key and for a non-dict. */
  function Member(j: Json, k: string): Option<Json>
  {
    if j.Obj? then Get(j.fields, k) else None
  }

  /** Python truthiness: None, False, 0, "", [] and {} are false. */
  predicate Truthy(j: Json)
  {
    match j
    case Null => false
    case Bool(b) => b
    case Num(n) => n != 0
    case Str(s) => s != ""
    case Arr(items) => items != []
    case Obj(fields) => fields != []
  }

  /**
   * d[k] = v on a dict that already holds `k`: the value is replaced where
   * it stands, so the key order does not change.
   */
  function Put(fields: seq<(string, Json)>, k: string, v: Json): (r: seq<(string, Json)>)
    ensures |r| == |fields| && Keys(r) == Keys(fields)
    ensures forall i :: 0 <= i < |fields| && fields[i].0 != k ==> r[i] == fields[i]
    ensures forall i :: 0 <= i < |fields| && fields[i].0 == k ==> r[i] == (k, v)
  {
    if |fields| == 0 then []
    else if fields[0].0 == k then [(k, v)] + Put(fields[1..], k, v)
    else [fields[0]] + Put(fields[1..], k, v)
  }

  // ---------------------------------------------------------------------
  // json.dumps with its default settings (ensure_ascii=True, separators
  // ", " and ": ", keys in insertion order).
  // ---------------------------------------------------------------------

  /** Every character is printable ASCII, from ' ' to '~'. */
  predicate Printable(s: string)
  {
    forall i :: 0 <= i < |s| ==> ' ' <= s[i] <= '~'
  }

  function HexDigit(d: nat): (c: char)
    requires d < 16
    ensures ' ' <= c <= '~'
  {
    "0123456789abcdef"[d]
  }

  /** Four lower-case hexadecimal digits of a code unit. */
  function Hex4(n: nat): (r: string)
    requires n < 0x1_0000
    ensures |r| == 4 && Printable(r)
  {
    [HexDigit(n / 0x1000), HexDigit(n / 0x100 % 16), HexDigit(n / 0x10 % 16), HexDigit(n % 16)]
  }

  /**
   * How json.dumps writes one character of a string: the two-character
   * escapes for '"', '\\' and five control characters, printable ASCII as
   * itself, and everything else as \uXXXX, or as a UTF-16 surrogate pair
   * above U+FFFF.
   */
  function EscapeChar(c: char): (r: string)
    ensures |r| >= 1 && Printable(r)
    ensures r == [c] <==> ' ' <= c <= '~' && c != '"' && c != '\\'
  {
    if c == '"' then "\\\""
    else if c == '\\' then "\\\\"
    else if c == '\n' then "\\n"
    else if c == '\r' then "\\r"
    else if c == '\t' then "\\t"
    else if c == '\U{8}' then "\\b"
    else if c == '\U{C}' then "\\f"
    else if ' ' <= c <= '~' then [c]
    else if (c as int) < 0x1_0000 then "\\u" + Hex4(c as int)
    else
      var n := c as int - 0x1_0000;
      "\\u" + Hex4(0xD800 + n / 0x400) + "\\u" + Hex4(0xDC00 + n % 0x400)
  }

  function Escape(s: string): (r: string)
    ensures Printable(r)
    ensures |r| >= |s|
  {
    if |s| == 0 then "" else EscapeChar(s[0]) + Escape(s[1..])
  }

  function Quote(s: string): (r: string)
    ensures Printable(r) && |r| >= 2 && r[0] == '"'
  {
    "\"" + Escape(s) + "\""
  }

  /** ", ".join(parts) */
  function JoinComma(parts: seq<string>): (r: string)
    ensures (forall i :: 0 <= i < |parts| ==> Printable(parts[i])) ==> Printable(r)
  {
    if |parts| == 0 then ""
    else if |parts| == 1 then parts[0]
    else parts[0] + ", " + JoinComma(parts[1..])
  }

  /** json.dumps(j): one line of printable ASCII. */
  function Dumps(j: Json): (r: string)
    decreases j
    ensures |r| >= 1 && Printable(r)
    ensures j.Obj? ==> r[0] == '{'
  {
    match j
    case Null => "null"
    case Bool(b) => if b then "true" else "false"
    case Num(n) => NumText(n)
    case Str(s) => Quote(s)
    case Arr(items) =>
      var parts := seq(|items|, i requires 0 <= i < |items| => Dumps(items[i]));
      assert forall i :: 0 <= i < |parts| ==> Printable(parts[i]);
      Bracket('[', JoinComma(parts), ']')
    case Obj(fields) =>
      var parts := seq(|fields|, i requires 0 <= i < |fields| =>
        Quote(fields[i].0) + ": " + Dumps(fields[i].1));
      assert forall i :: 0 <= i < |parts| ==> Printable(parts[i]) by {
        forall i | 0 <= i < |parts| ensures Printable(parts[i]) {
          PrintableConcat(Quote(fields[i].0), ": ");
          PrintableConcat(Quote(fields[i].0) + ": ", Dumps(fields[i].1));
        }
      }
      Bracket('{', JoinComma(parts), '}')
  }

  function Bracket(open: char, body: string, close: char): (r: string)
    requires ' ' <= open <= '~' && ' ' <= close <= '~' && Printable(body)
    ensures |r| >= 2 && r[0] == open && Printable(r)
  {
    [open] + body + [close]
  }

  lemma PrintableConcat(a: string, b: string)
    requires Printable(a) && Printable(b)
    ensures Printable(a + b)
  {
  }

  /** str(n): an optional '-' and decimal digits, all printable. */
  function NumText(n: int): (r: string)
    ensures r == FormatInt(n)
    ensures |r| >= 1 && Printable(r)
  {
    var r := FormatInt(n);
    assert forall i :: 0 <= i < |r| ==> IsDigit(r[i]) || r[i] == '-' by {
      if n < 0 {
        assert forall i :: 1 <= i < |r| ==> r[i] == NatDigits(-n)[i - 1];
      }
    }
    r
  }

  /** The text json.dumps gives a value never holds a line break, so a row is one line. */
  lemma DumpsOneLine(j: Json)
    ensures '\n' !in Dumps(j) && '\r' !in Dumps(j)
  {
    var r := Dumps(j);
    forall i | 0 <= i < |r| ensures r[i] != '\n' && r[i] != '\r' {
      assert ' ' <= r[i];
    }
  }

  // ---------------------------------------------------------------------
  // json.dumps(j, sort_keys=True): the canonical form, with every dict's
  // keys in code-point order.
  // ---------------------------------------------------------------------

  /** Python's `<` on str: code-point lexicographic order. */
  predicate KeyLess(a: string, b: string)
  {
    |b| > 0 && (|a| == 0 || a[0] < b[0] || (a[0] == b[0] && KeyLess(a[1..], b[1..])))
  }

  predicate KeyLe(a: string, b: string)
  {
    a == b || KeyLess(a, b)
  }

  lemma {:induction false} KeyLessIrreflexive(a: string)
    ensures !KeyLess(a, a)
  {
    if |a| > 0 {
      KeyLessIrreflexive(a[1..]);
    }
  }

  lemma {:induction false} KeyLessAsymmetric(a: string, b: string)
    requires KeyLess(a, b)
    ensures !KeyLess(b, a) && a != b
  {
    if |a| > 0 && a[0] == b[0] {
      KeyLessAsymmetric(a[1..], b[1..]);
    }
    if a == b {
      KeyLessIrreflexive(a);
    }
  }

  lemma {:induction false} KeyLessTransitive(a: string, b: string, c: string)
    requires KeyLess(a, b) && KeyLess(b, c)
    ensures KeyLess(a, c)
  {
    if |a| > 0 && a[0] == b[0] && b[0] == c[0] {
      KeyLessTransitive(a[1..], b[1..], c[1..]);
    }
  }

  /** Any two different keys are ordered one way or the other. */
  lemma {:induction false} KeyLessTotal(a: string, b: string)
    requires a != b
    ensures KeyLess(a, b) || KeyLess(b, a)
  {
    if |a| > 0 && |b| > 0 && a[0] == b[0] {
      assert a == [a[0]] + a[1..] && b == [b[0]] + b[1..];
      KeyLessTotal(a[1..], b[1..]);
    }
  }

  lemma KeyLeTransitive(a: string, b: string, c: string)
    requires KeyLe(a, b) && KeyLe(b, c)
    ensures KeyLe(a, c)
  {
    if a != b && b != c {
      KeyLessTransitive(a, b, c);
    }
  }

  predicate SortedByKey(fields: seq<(string, Json)>)
  {
    forall i, j :: 0 <= i < j < |fields| ==> KeyLe(fields[i].0, fields[j].0)
  }

  /** Inserts `p` before the first pair whose key is not below its own. */
  function Insert(p: (string, Json), s: seq<(string, Json)>): (r: seq<(string, Json)>)
    ensures multiset(r) == multiset(s) + multiset{p}
  {
    if |s| == 0 || KeyLe(p.0, s[0].0) then [p] + s
    else
      assert s == [s[0]] + s[1..];
      [s[0]] + Insert(p, s[1..])
  }

  lemma {:induction false} InsertSorted(p: (string, Json), s: seq<(string, Json)>)
    requires SortedByKey(s)
    ensures SortedByKey(Insert(p, s))
    ensures forall i :: 0 <= i < |Insert(p, s)| ==> Insert(p, s)[i] == p || Insert(p, s)[i] in s
  {
    if |s| == 0 || KeyLe(p.0, s[0].0) {
      var r := [p] + s;
      forall i, j | 0 <= i < j < |r| ensures KeyLe(r[i].0, r[j].0) {
        if i == 0 {
          assert r[j] == s[j - 1];
          KeyLeTransitive(p.0, s[0].0, s[j - 1].0);
        }
      }
    } else {
      InsertSorted(p, s[1..]);
      var t := Insert(p, s[1..]);
      var r := [s[0]] + t;
      assert !KeyLess(p.0, s[0].0) && p.0 != s[0].0;
      KeyLessTotal(p.0, s[0].0);
      forall i, j | 0 <= i < j < |r| ensures KeyLe(r[i].0, r[j].0) {
        if i == 0 {
          assert r[j] == t[j - 1];
          if t[j - 1] != p {
            var k :| 0 <= k < |s[1..]| && s[1..][k] == t[j - 1];
            assert s[1..][k] == s[k + 1];
          }
        } else {
          assert r[i] == t[i - 1] && r[j] == t[j - 1];
        }
      }
    }
  }

  /** The fields of a dict sorted by key (the order sort_keys=True writes). */
  function SortFields(fields: seq<(string, Json)>): (r: seq<(string, Json)>)
    ensures multiset(r) == multiset(fields)
  {
    if |fields| == 0 then []
    else
      assert fields == [fields[0]] + fields[1..];
      Insert(fields[0], SortFields(fields[1..]))
  }

  lemma {:induction false} SortFieldsSorted(fields: seq<(string, Json)>)
    ensures SortedByKey(SortFields(fields))
  {
    if |fields| > 0 {
      SortFieldsSorted(fields[1..]);
      InsertSorted(fields[0], SortFields(fields[1..]));
    }
  }

  /** Two key-sorted dicts with distinct keys and the same pairs are the same sequence. */
  lemma {:induction false} SortedPermutationEqual(a: seq<(string, Json)>, b: seq<(string, Json)>)
    requires SortedByKey(a) && SortedByKey(b) && UniqueKeys(a) && UniqueKeys(b)
    requires multiset(a) == multiset(b)
    ensures a == b
  {
    if |a| == 0 {
      assert |b| == |multiset(b)| == 0;
    } else {
      SortedHeadsEqual(a, b);
      TailMultiset(a, b);
      SortedTail(a);
      SortedTail(b);
      SortedPermutationEqual(a[1..], b[1..]);
      assert a == [a[0]] + a[1..] && b == [b[0]] + b[1..];
    }
  }

  lemma SortedTail(a: seq<(string, Json)>)
    requires |a| > 0 && SortedByKey(a) && UniqueKeys(a)
    ensures SortedByKey(a[1..]) && UniqueKeys(a[1..])
  {
    forall i, j | 0 <= i < j < |a| - 1
      ensures KeyLe(a[1..][i].0, a[1..][j].0) && a[1..][i].0 != a[1..][j].0
    {
      assert a[1..][i] == a[i + 1] && a[1..][j] == a[j + 1];
    }
  }

  lemma TailMultiset(a: seq<(string, Json)>, b: seq<(string, Json)>)
    requires |a| > 0 && |b| > 0 && a[0] == b[0] && multiset(a) == multiset(b)
    ensures multiset(a[1..]) == multiset(b[1..])
  {
    assert a == [a[0]] + a[1..] && b == [b[0]] + b[1..];
    assert multiset(a) == multiset([a[0]]) + multiset(a[1..]);
    assert multiset(b) == multiset([a[0]]) + multiset(b[1..]);
    assert multiset(a[1..]) == multiset(a) - multiset([a[0]]);
    assert multiset(b[1..]) == multiset(b) - multiset([a[0]]);
  }

  /** Sorted, duplicate-free and holding the same pairs: both start with the same pair. */
  lemma SortedHeadsEqual(a: seq<(string, Json)>, b: seq<(string, Json)>)
    requires |a| > 0 && SortedByKey(a) && SortedByKey(b) && UniqueKeys(a) && UniqueKeys(b)
    requires multiset(a) == multiset(b)
    ensures |b| > 0 && a[0] == b[0]
  {
    assert a[0] in multiset(b);
    assert b[0] in multiset(a) by { assert |b| == |multiset(a)| > 0; }
    var j :| 0 <= j < |b| && b[j] == a[0];
    var i :| 0 <= i < |a| && a[i] == b[0];
    if j > 0 {
      assert KeyLe(b[0].0, b[j].0) && b[0].0 != b[j].0;
      if i == 0 {
        assert false;
      } else {
        assert KeyLe(a[0].0, a[i].0) && a[0].0 != a[i].0;
        KeyLessAsymmetric(a[i].0, a[0].0);
        assert false;
      }
    }
  }

  lemma {:induction false} InsertUnique(p: (string, Json), s: seq<(string, Json)>)
    requires UniqueKeys(s) && forall q :: q in s ==> q.0 != p.0
    ensures UniqueKeys(Insert(p, s))
  {
    if |s| > 0 && !KeyLe(p.0, s[0].0) {
      InsertUnique(p, s[1..]);
      var t := Insert(p, s[1..]);
      forall q | q in t ensures q.0 != s[0].0 {
        assert q in multiset(t);
        if q != p {
          var k :| 0 <= k < |s[1..]| && s[1..][k] == q;
          assert q == s[k + 1];
        }
      }
    }
  }

  /** Sorting a dict's fields keeps its keys distinct. */
  lemma {:induction false} SortFieldsUnique(fields: seq<(string, Json)>)
    requires UniqueKeys(fields)
    ensures UniqueKeys(SortFields(fields))
  {
    if |fields| > 0 {
      SortFieldsUnique(fields[1..]);
      var t := SortFields(fields[1..]);
      forall q | q in t ensures q.0 != fields[0].0 {
        assert q in multiset(fields[1..]);
        var k :| 0 <= k < |fields[1..]| && fields[1..][k] == q;
        assert q == fields[k + 1];
      }
      InsertUnique(fields[0], t);
    }
  }

  /** The canonical form of a value: every dict, at every depth, sorted by key. */
  function Canon(j: Json): (r: Json)
    decreases j
  {
    match j
    case Arr(items) => Arr(seq(|items|, i requires 0 <= i < |items| => Canon(items[i])))
    case Obj(fields) =>
      var sorted := SortFields(fields);
      Obj(seq(|sorted|, i requires 0 <= i < |sorted| =>
        assert sorted[i] in multiset(fields);
        (sorted[i].0, Canon(sorted[i].1))))
    case _ => j
  }

  /**
   * Two dicts holding the same key/value pairs in different insertion
   * orders have the same canonical form: sort_keys=True makes the dedup hash
   * blind to key order.
   */
  lemma CanonOrderInsensitive(a: seq<(string, Json)>, b: seq<(string, Json)>)
    requires UniqueKeys(a) && UniqueKeys(b) && multiset(a) == multiset(b)
    ensures Canon(Obj(a)) == Canon(Obj(b))
  {
    SortFieldsSorted(a);
    SortFieldsSorted(b);
    SortFieldsUnique(a);
    SortFieldsUnique(b);
    SortedPermutationEqual(SortFields(a), SortFields(b));
  }

  /** Canonicalising keeps a dict a dict with the same number of fields. */
  lemma CanonObj(fields: seq<(string, Json)>)
    ensures Canon(Obj(fields)).Obj? && |Canon(Obj(fields)).fields| == |fields|
  {
    assert |SortFields(fields)| == |multiset(SortFields(fields))| == |fields|;
  }

  // ---------------------------------------------------------------------
  // Parsing many texts with json.loads
  // ---------------------------------------------------------------------

  /** Every text parses. */
  predicate AllParse(loads: string -> Option<Json>, ls: seq<string>)
  {
    forall k :: 0 <= k < |ls| ==> loads(ls[k]).Some?
  }

  /** The parses of texts that all parse, in order. */
  function Parsed(loads: string -> Option<Json>, ls: seq<string>): (r: seq<Json>)
    requires AllParse(loads, ls)
    ensures |r| == |ls| && forall k :: 0 <= k < |ls| ==> Some(r[k]) == loads(ls[k])
  {
    seq(|ls|, k requires 0 <= k < |ls| => loads(ls[k]).value)
  }

  lemma AllParseAppend(loads: string -> Option<Json>, ls: seq<string>, line: string)
    ensures AllParse(loads, ls + [line]) <==> AllParse(loads, ls) && loads(line).Some?
    ensures AllParse(loads, ls + [line]) ==>
      Parsed(loads, ls + [line]) == Parsed(loads, ls) + [loads(line).value]
  {
    var xs := ls + [line];
    assert xs[|ls|] == line;
    assert forall k :: 0 <= k < |ls| ==> xs[k] == ls[k];
  }
}
