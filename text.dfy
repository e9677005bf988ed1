/**
 * String helpers with Python's semantics, shared by the Lambda handlers:
 * str.isspace/strip, str.split on one separator, str.join, str.splitlines,
 * str.lower (as far as it matters against ASCII patterns), startswith,
 * endswith, substring search, first-occurrence replace, int() and str(int).
 */
module Text {

  datatype Option<+T> = None | Some(value: T)

  /** Python's str.isspace() for one character (the Unicode whitespace set). */
  predicate IsSpace(c: char)
  {
    c == ' ' || ('\t' <= c <= '\r') || ('\U{1C}' <= c <= '\U{1F}') ||
    c == '\U{85}' || c == '\U{A0}' || c == '\U{1680}' ||
    ('\U{2000}' <= c <= '\U{200A}') || c == '\U{2028}' || c == '\U{2029}' ||
    c == '\U{202F}' || c == '\U{205F}' || c == '\U{3000}'
  }

  predicate AllSpace(s: string)
  {
    forall i :: 0 <= i < |s| ==> IsSpace(s[i])
  }

  /** Index of the first non-whitespace character at or after `i`, or |s|. */
  function SkipSpace(s: string, i: nat): (j: nat)
    requires i <= |s|
    ensures i <= j <= |s|
    ensures forall k :: i <= k < j ==> IsSpace(s[k])
    ensures j == |s| || !IsSpace(s[j])
    decreases |s| - i
  {
    if i < |s| && IsSpace(s[i]) then SkipSpace(s, i + 1) else i
  }

  /** Index just past the last non-whitespace character of s[lo..j], or lo. */
  function TrimSpace(s: string, lo: nat, j: nat): (e: nat)
    requires lo <= j <= |s|
    ensures lo <= e <= j
    ensures forall k :: e <= k < j ==> IsSpace(s[k])
    ensures e == lo || !IsSpace(s[e - 1])
  {
    if j > lo && IsSpace(s[j - 1]) then TrimSpace(s, lo, j - 1) else j
  }

  /** Python's str.strip() with no argument. */
  function Strip(s: string): string
  {
    var a := SkipSpace(s, 0);
    s[a..TrimSpace(s, a, |s|)]
  }

  /** Strip removes exactly a run of whitespace from each end of its input. */
  lemma StripShape(s: string)
    ensures var r := Strip(s);
      exists a, b :: 0 <= a <= b <= |s| && r == s[a..b] && AllSpace(s[..a]) && AllSpace(s[b..])
    ensures Strip(s) == [] || (!IsSpace(Strip(s)[0]) && !IsSpace(Strip(s)[|Strip(s)| - 1]))
  {
    var a := SkipSpace(s, 0);
    var b := TrimSpace(s, a, |s|);
    assert AllSpace(s[..a]);
    assert AllSpace(s[b..]);
    if a < b {
      assert Strip(s)[0] == s[a];
    }
  }

  /** A string strips to nothing exactly when every character is whitespace. */
  lemma StripEmptyIffAllSpace(s: string)
    ensures Strip(s) == [] <==> AllSpace(s)
  {
    var a := SkipSpace(s, 0);
    if a < |s| {
      assert !IsSpace(s[a]);
    }
  }

  /** Python's str.split(sep) for a one-character separator. */
  function Split(s: string, sep: char): (r: seq<string>)
    ensures |r| >= 1
  {
    if |s| == 0 then [""]
    else
      var rest := Split(s[1..], sep);
      if s[0] == sep then [""] + rest else [[s[0]] + rest[0]] + rest[1..]
  }

  /** Python's sep.join(parts) for a one-character separator. */
  function Join(parts: seq<string>, sep: char): string
  {
    if |parts| == 0 then ""
    else if |parts| == 1 then parts[0]
    else parts[0] + [sep] + Join(parts[1..], sep)
  }

  /** Splitting then joining gives the string back. */
  lemma {:induction false} JoinSplit(s: string, sep: char)
    ensures Join(Split(s, sep), sep) == s
  {
    if |s| > 0 {
      JoinSplit(s[1..], sep);
      var rest := Split(s[1..], sep);
      assert s == [s[0]] + s[1..];
      if s[0] == sep {
        assert ([""] + rest)[1..] == rest;
      } else {
        JoinHead(s[0], rest, sep);
      }
    }
  }

  /** Prepending a character to the first piece prepends it to the joined text. */
  lemma JoinHead(c: char, parts: seq<string>, sep: char)
    requires |parts| >= 1
    ensures Join([[c] + parts[0]] + parts[1..], sep) == [c] + Join(parts, sep)
  {
    var q := [[c] + parts[0]] + parts[1..];
    assert q[1..] == parts[1..];
  }

  /** Joining pieces that do not contain the separator, then splitting, gives the pieces back. */
  lemma {:induction false} SplitJoin(parts: seq<string>, sep: char)
    requires |parts| >= 1
    requires forall i :: 0 <= i < |parts| ==> sep !in parts[i]
    ensures Split(Join(parts, sep), sep) == parts
  {
    if |parts| == 1 {
      SplitNoSep(parts[0], sep);
    } else {
      SplitJoin(parts[1..], sep);
      SplitPrefix(parts[0], Join(parts[1..], sep), sep);
      assert [""] + parts[1..] == [""] + Split(Join(parts[1..], sep), sep);
    }
  }

  lemma {:induction false} SplitNoSep(s: string, sep: char)
    requires sep !in s
    ensures Split(s, sep) == [s]
  {
    if |s| > 0 {
      SplitNoSep(s[1..], sep);
      assert s == [s[0]] + s[1..];
    }
  }

  /** Splitting `p + [sep] + t`, where `p` has no separator, puts `p` first. */
  lemma {:induction false} SplitPrefix(p: string, t: string, sep: char)
    requires sep !in p
    ensures Split(p + [sep] + t, sep) == [p] + Split(t, sep)
  {
    if |p| == 0 {
      assert p + [sep] + t == [sep] + t;
      assert ([sep] + t)[1..] == t;
    } else {
      SplitPrefix(p[1..], t, sep);
      assert (p + [sep] + t)[1..] == p[1..] + [sep] + t;
      assert p == [p[0]] + p[1..];
    }
  }

  /** Python's str.splitlines(): \n, \r, \r\n and the other line boundaries; no terminators kept. */
  predicate IsLineBreak(c: char)
  {
    c == '\n' || c == '\r' || c == '\U{0B}' || c == '\U{0C}' ||
    ('\U{1C}' <= c <= '\U{1E}') || c == '\U{85}' || c == '\U{2028}' || c == '\U{2029}'
  }

  function SplitLines(s: string): (r: seq<string>)
    ensures forall i :: 0 <= i < |r| ==> forall j :: 0 <= j < |r[i]| ==> !IsLineBreak(r[i][j])
    decreases |s|
  {
    if |s| == 0 then []
    else
      var n := LineLength(s);
      if n == |s| then [s]
      else
        var skip := if s[n] == '\r' && n + 1 < |s| && s[n + 1] == '\n' then 2 else 1;
        [s[..n]] + SplitLines(s[n + skip..])
  }

  /** A terminator str.splitlines() cuts at: one line-boundary character, or "\r\n". */
  predicate IsTerminator(t: string)
  {
    (|t| == 1 && IsLineBreak(t[0])) || t == "\r\n"
  }

  /** The lines, each followed by its terminator, in order. */
  function Unlines(lines: seq<string>, ends: seq<string>): string
    requires |ends| == |lines|
  {
    if |lines| == 0 then "" else lines[0] + ends[0] + Unlines(lines[1..], ends[1..])
  }

  /**
   * `ends` are terminators for `lines` that rebuild `s`: each line is followed
   * by a terminator (the last one possibly by none), and a "\r" is never
   * followed by an empty line cut at "\n", which would have been one "\r\n".
   */
  predicate Rebuilds(lines: seq<string>, ends: seq<string>, s: string)
  {
    |ends| == |lines| && Unlines(lines, ends) == s &&
    (forall i :: 0 <= i < |lines| ==> IsTerminator(ends[i]) || (i == |lines| - 1 && ends[i] == "")) &&
    (forall i :: 0 <= i < |lines| - 1 ==> ends[i] == "\r" && lines[i + 1] == "" ==> ends[i + 1] != "\n")
  }

  /** splitlines() loses and invents nothing: its lines, with terminators, rebuild the text. */
  lemma {:induction false} SplitLinesRebuild(s: string)
    ensures exists ends :: Rebuilds(SplitLines(s), ends, s)
    decreases |s|
  {
    var r := SplitLines(s);
    if |s| == 0 {
      assert Rebuilds(r, [], s);
    } else {
      var n := LineLength(s);
      if n == |s| {
        assert Unlines(r, [""]) == s + "" + Unlines([], []);
        assert Rebuilds(r, [""], s);
      } else {
        var t, rest := SplitLinesFirst(s);
        SplitLinesRebuild(rest);
        var ends :| Rebuilds(SplitLines(rest), ends, rest);
        RebuildsCons(s[..n], t, SplitLines(rest), ends, rest);
        assert Rebuilds(r, [t] + ends, s);
      }
    }
  }

  /** The first cut splitlines() makes: the first line, its terminator and the rest. */
  lemma SplitLinesFirst(s: string) returns (t: string, rest: string)
    requires LineLength(s) < |s|
    ensures s == s[..LineLength(s)] + t + rest && |rest| < |s|
    ensures IsTerminator(t) && (t == "\r" ==> |rest| == 0 || rest[0] != '\n')
    ensures SplitLines(s) == [s[..LineLength(s)]] + SplitLines(rest)
  {
    var n := LineLength(s);
    var skip := if s[n] == '\r' && n + 1 < |s| && s[n + 1] == '\n' then 2 else 1;
    t, rest := s[n..n + skip], s[n + skip..];
    assert s == s[..n] + t + rest;
  }

  /** A line and its terminator put in front of a rebuilt text rebuild the longer text. */
  lemma RebuildsCons(line: string, t: string, lines: seq<string>, ends: seq<string>, rest: string)
    requires Rebuilds(lines, ends, rest) && IsTerminator(t)
    requires t == "\r" ==> |rest| == 0 || rest[0] != '\n'
    ensures Rebuilds([line] + lines, [t] + ends, line + t + rest)
  {
    var ls := [line] + lines;
    var es := [t] + ends;
    assert ls[1..] == lines && es[1..] == ends;
    if |lines| > 0 && lines[0] == "" && ends[0] == "\n" {
      assert rest == "" + "\n" + Unlines(lines[1..], ends[1..]);
      assert rest[0] == '\n';
    }
    forall i | 0 <= i < |ls| - 1 && es[i] == "\r" && ls[i + 1] == ""
      ensures es[i + 1] != "\n"
    {
      if i > 0 {
        assert es[i] == ends[i - 1] && ls[i + 1] == lines[i] && es[i + 1] == ends[i];
      }
    }
    forall i | 0 <= i < |ls|
      ensures IsTerminator(es[i]) || (i == |ls| - 1 && es[i] == "")
    {
      if i > 0 {
        assert es[i] == ends[i - 1];
      }
    }
  }

  /** Number of characters before the first line boundary. */
  function LineLength(s: string): (n: nat)
    ensures n <= |s|
    ensures forall j :: 0 <= j < n ==> !IsLineBreak(s[j])
    ensures n < |s| ==> IsLineBreak(s[n])
  {
    if |s| == 0 || IsLineBreak(s[0]) then 0 else 1 + LineLength(s[1..])
  }

  function LowerChar(c: char): (r: char)
  {
    if 'A' <= c <= 'Z' then (c as int + 32) as char
    else if c == '\U{212A}' then 'k'  // KELVIN SIGN lower-cases to an ASCII letter
    else c
  }

  /**
   * str.lower(), exact wherever the result is compared with ASCII text: the
   * only other code points whose lower case contains an ASCII letter are
   * U+212A (handled) and U+0130, whose lower case is 'i' followed by U+0307,
   * which no ASCII pattern can match through.
   */
  function Lower(s: string): (r: string)
    ensures |r| == |s|
    ensures forall i :: 0 <= i < |s| ==> r[i] == LowerChar(s[i])
  {
    if |s| == 0 then "" else [LowerChar(s[0])] + Lower(s[1..])
  }

  predicate StartsWith(s: string, p: string)
  {
    |p| <= |s| && s[..|p|] == p
  }

  predicate EndsWith(s: string, p: string)
  {
    |p| <= |s| && s[|s| - |p|..] == p
  }

  /** `p` occurs in `s` starting at index `i`. */
  predicate OccursAt(s: string, p: string, i: nat)
  {
    i + |p| <= |s| && s[i..i + |p|] == p
  }

  /** Python's `p in s` for strings. */
  predicate Contains(s: string, p: string)
  {
    exists i: nat :: i <= |s| && OccursAt(s, p, i)
  }

  /** Index of the first occurrence of `p` in `s`, if any. */
  function Find(s: string, p: string): (r: Option<nat>)
    ensures r.None? <==> !Contains(s, p)
    ensures r.Some? ==> OccursAt(s, p, r.value)
    ensures r.Some? ==> forall j: nat :: j < r.value ==> !OccursAt(s, p, j)
  {
    FindFrom(s, p, 0)
  }

  function FindFrom(s: string, p: string, k: nat): (r: Option<nat>)
    requires forall j: nat :: j < k ==> !OccursAt(s, p, j)
    ensures r.None? <==> !Contains(s, p)
    ensures r.Some? ==> k <= r.value && OccursAt(s, p, r.value)
    ensures r.Some? ==> forall j: nat :: j < r.value ==> !OccursAt(s, p, j)
    decreases |s| - k
  {
    if k + |p| > |s| then None
    else if s[k..k + |p|] == p then assert OccursAt(s, p, k); Some(k)
    else FindFrom(s, p, k + 1)
  }

  /** Python's s.replace(p, "", 1): drop the first occurrence of `p`. */
  function RemoveFirst(s: string, p: string): string
  {
    match Find(s, p)
    case None => s
    case Some(i) => s[..i] + s[i + |p|..]
  }

  lemma RemoveFirstOfPrefix(s: string, p: string)
    requires StartsWith(s, p)
    ensures RemoveFirst(s, p) == s[|p|..]
  {
    assert OccursAt(s, p, 0);
    var f := Find(s, p);
    assert f.Some? && f.value <= 0;
  }

  // ---- decimal integers -------------------------------------------------

  function DigitChar(d: nat): char
    requires d < 10
  {
    ('0' as int + d) as char
  }

  predicate IsDigit(c: char)
  {
    '0' <= c <= '9'
  }

  /** Decimal digits of a natural number, most significant first. */
  function NatDigits(n: nat): (r: string)
    ensures |r| >= 1
    ensures forall i :: 0 <= i < |r| ==> IsDigit(r[i])
  {
    if n < 10 then [DigitChar(n)] else NatDigits(n / 10) + [DigitChar(n % 10)]
  }

  /** str(n) for a Python int. */
  function FormatInt(n: int): string
  {
    if n < 0 then "-" + NatDigits(-n) else NatDigits(n)
  }

  function Zeros(k: nat): (r: string)
    ensures |r| == k && forall i :: 0 <= i < k ==> r[i] == '0'
  {
    if k == 0 then "" else "0" + Zeros(k - 1)
  }

  /** Python's '%0*d' % (width, n): padded with zeros to `width` characters, sign included. */
  function ZeroPad(n: int, width: nat): (r: string)
    ensures |r| >= width
    ensures forall i :: 0 <= i < |r| ==> IsDigit(r[i]) || r[i] == '-'
  {
    var digits := NatDigits(if n < 0 then -n else n);
    var sign := if n < 0 then "-" else "";
    var fill := if |sign| + |digits| < width then width - |sign| - |digits| else 0;
    sign + Zeros(fill) + digits
  }

  /** Value of a string of decimal digits. */
  function DigitsValue(ds: string): nat
    requires forall i :: 0 <= i < |ds| ==> IsDigit(ds[i])
  {
    if |ds| == 0 then 0
    else
      assert IsDigit(ds[|ds| - 1]);
      DigitsValue(ds[..|ds| - 1]) * 10 + (ds[|ds| - 1] as int - '0' as int)
  }

  /** `ds` is all decimal digits and reads as `n`. */
  predicate ReadsAs(ds: string, n: int)
  {
    (forall i :: 0 <= i < |ds| ==> IsDigit(ds[i])) && DigitsValue(ds) == n
  }

  lemma {:induction false} DigitsValueOfNat(n: nat)
    ensures DigitsValue(NatDigits(n)) == n
  {
    if n >= 10 {
      DigitsValueOfNat(n / 10);
      var ds := NatDigits(n);
      assert ds[..|ds| - 1] == NatDigits(n / 10);
    }
  }

  /**
   * A Python int() literal body: digits, with single underscores allowed
   * between digits ("1_000").
   */
  predicate IsDigitGroup(ds: string)
  {
    |ds| >= 1 && IsDigit(ds[0]) && IsDigit(ds[|ds| - 1]) &&
    (forall i :: 0 <= i < |ds| ==> IsDigit(ds[i]) || ds[i] == '_') &&
    !Contains(ds, "__")
  }

  function DropUnderscores(ds: string): (r: string)
    requires forall i :: 0 <= i < |ds| ==> IsDigit(ds[i]) || ds[i] == '_'
    ensures forall i :: 0 <= i < |r| ==> IsDigit(r[i])
  {
    if |ds| == 0 then ""
    else if ds[0] == '_' then DropUnderscores(ds[1..])
    else [ds[0]] + DropUnderscores(ds[1..])
  }

  /**
   * The whitespace int() ignores around a literal: ASCII tab to carriage
   * return and space, and every non-ASCII character str.isspace() accepts.
   * The ASCII separators 0x1C-0x1F, which str.isspace() accepts, are not
   * among them.
   */
  predicate IsIntSpace(c: char)
  {
    c == ' ' || ('\t' <= c <= '\r') || (c >= '\U{7F}' && IsSpace(c))
  }

  /** Index of the first character at or after `i` that int() does not skip, or |s|. */
  function SkipIntSpace(s: string, i: nat): (j: nat)
    requires i <= |s|
    ensures i <= j <= |s|
    ensures forall k :: i <= k < j ==> IsIntSpace(s[k])
    ensures j == |s| || !IsIntSpace(s[j])
    decreases |s| - i
  {
    if i < |s| && IsIntSpace(s[i]) then SkipIntSpace(s, i + 1) else i
  }

  /** Index just past the last character of s[lo..j] that int() does not skip, or lo. */
  function TrimIntSpace(s: string, lo: nat, j: nat): (e: nat)
    requires lo <= j <= |s|
    ensures lo <= e <= j
    ensures forall k :: e <= k < j ==> IsIntSpace(s[k])
    ensures e == lo || !IsIntSpace(s[e - 1])
  {
    if j > lo && IsIntSpace(s[j - 1]) then TrimIntSpace(s, lo, j - 1) else j
  }

  /** The text int() parses once its surrounding whitespace is dropped. */
  function IntStrip(s: string): string
  {
    var a := SkipIntSpace(s, 0);
    s[a..TrimIntSpace(s, a, |s|)]
  }

  /** The most digits int() accepts in a base-10 literal (sys.int_info.default_max_str_digits). */
  const IntMaxStrDigits: nat := 4300

  /**
   * Python's int(s) for a str: surrounding int() whitespace, an optional
   * sign and a base-10 digit group of at most IntMaxStrDigits digits; None
   * where int() raises ValueError.
   */
  function ParseInt(s: string): Option<int>
  {
    ParseSigned(IntStrip(s))
  }

  /** int() of a string with no surrounding whitespace. */
  function ParseSigned(t: string): Option<int>
  {
    if |t| == 0 then None
    else
      var body := if t[0] == '-' || t[0] == '+' then t[1..] else t;
      match Magnitude(body)
      case None => None
      case Some(m) =>
        var n: int := m;
        Some(if t[0] == '-' then -n else n)
  }

  /** Value of an unsigned digit group, None when it is not one. */
  function Magnitude(body: string): Option<nat>
  {
    if IsDigitGroup(body) && |DropUnderscores(body)| <= IntMaxStrDigits then
      Some(DigitsValue(DropUnderscores(body)))
    else None
  }

  lemma DropUnderscoresOfDigits(ds: string)
    requires forall i :: 0 <= i < |ds| ==> IsDigit(ds[i])
    ensures DropUnderscores(ds) == ds
  {
    if |ds| > 0 {
      DropUnderscoresOfDigits(ds[1..]);
      assert ds == [ds[0]] + ds[1..];
    }
  }

  lemma IntStripUnpadded(s: string)
    requires |s| >= 1 && !IsIntSpace(s[0]) && !IsIntSpace(s[|s| - 1])
    ensures IntStrip(s) == s
  {
  }

  lemma MagnitudeOfDigits(ds: string)
    requires 1 <= |ds| <= IntMaxStrDigits && forall i :: 0 <= i < |ds| ==> IsDigit(ds[i])
    ensures Magnitude(ds) == Some(DigitsValue(ds))
  {
    DropUnderscoresOfDigits(ds);
    DigitGroupOfDigits(ds);
  }

  lemma DigitGroupOfDigits(ds: string)
    requires |ds| >= 1 && forall i :: 0 <= i < |ds| ==> IsDigit(ds[i])
    ensures IsDigitGroup(ds)
  {
    assert IsDigit(ds[0]) && IsDigit(ds[|ds| - 1]);
    forall i: nat | i <= |ds| ensures !OccursAt(ds, "__", i) {
      if i + 2 <= |ds| {
        assert ds[i..i + 2][0] == ds[i];
      }
    }
  }

  lemma ParseUnpadded(s: string, v: int)
    requires IntStrip(s) == s && ParseSigned(s) == Some(v)
    ensures ParseInt(s) == Some(v)
  {
  }

  lemma ParseDigits(ds: string)
    requires 1 <= |ds| <= IntMaxStrDigits && forall i :: 0 <= i < |ds| ==> IsDigit(ds[i])
    ensures ParseInt(ds) == Some(DigitsValue(ds) as int)
  {
    assert IsDigit(ds[0]) && IsDigit(ds[|ds| - 1]);
    IntStripUnpadded(ds);
    MagnitudeOfDigits(ds);
    ParseUnpadded(ds, DigitsValue(ds));
  }

  lemma ParseNegativeMagnitude(t: string, m: nat)
    requires |t| >= 2 && t[0] == '-' && !IsIntSpace(t[|t| - 1]) && Magnitude(t[1..]) == Some(m)
    ensures ParseInt(t) == Some(-(m as int))
  {
    IntStripUnpadded(t);
    assert ParseSigned(t) == Some(-(m as int));
  }

  /**
   * A literal of plain digits is accepted exactly when it has at most
   * IntMaxStrDigits digits; a longer one makes int() raise ValueError.
   */
  lemma ParseDigitsLimit(ds: string)
    requires |ds| >= 1 && forall i :: 0 <= i < |ds| ==> IsDigit(ds[i])
    ensures ParseInt(ds).Some? <==> |ds| <= IntMaxStrDigits
  {
    if |ds| <= IntMaxStrDigits {
      ParseDigits(ds);
    } else {
      assert IsDigit(ds[0]) && IsDigit(ds[|ds| - 1]);
      IntStripUnpadded(ds);
      DropUnderscoresOfDigits(ds);
      assert Magnitude(ds).None?;
    }
  }

  /**
   * An ASCII separator (0x1C) is whitespace to str.strip() but not to int():
   * "\x1c5" strips to "5", yet int() rejects it.
   */
  lemma ParseIntSeparatorPadded()
    ensures Strip("\U{1C}5") == "5"
    ensures ParseInt("\U{1C}5") == None
  {
    assert !IsIntSpace('\U{1C}');
    assert IntStrip("\U{1C}5") == "\U{1C}5";
  }

  /**
   * int(str(n)) == n: the decimal form of every integer of at most
   * IntMaxStrDigits digits (the integers str() itself accepts) parses back
   * to it.
   */
  lemma ParseFormatInt(n: int)
    requires |NatDigits(if n < 0 then -n else n)| <= IntMaxStrDigits
    ensures ParseInt(FormatInt(n)) == Some(n)
  {
    if n < 0 {
      var ds := NatDigits(-n);
      var t := FormatInt(n);
      assert t[1..] == ds && t[|t| - 1] == ds[|ds| - 1];
      DigitsValueOfNat(-n);
      MagnitudeOfDigits(ds);
      ParseNegativeMagnitude(t, -n);
    } else {
      DigitsValueOfNat(n);
      ParseDigits(NatDigits(n));
    }
  }


  lemma {:induction false} LeadingZeroValue(ds: string)
    requires forall i :: 0 <= i < |ds| ==> IsDigit(ds[i])
    ensures DigitsValue("0" + ds) == DigitsValue(ds)
  {
    if |ds| > 0 {
      var t := "0" + ds;
      assert t[..|t| - 1] == "0" + ds[..|ds| - 1];
      LeadingZeroValue(ds[..|ds| - 1]);
    }
  }

  lemma {:induction false} ZerosValue(k: nat, ds: string)
    requires forall i :: 0 <= i < |ds| ==> IsDigit(ds[i])
    ensures DigitsValue(Zeros(k) + ds) == DigitsValue(ds)
  {
    if k > 0 {
      ZerosValue(k - 1, ds);
      assert Zeros(k) + ds == "0" + (Zeros(k - 1) + ds);
      LeadingZeroValue(Zeros(k - 1) + ds);
    } else {
      assert Zeros(k) + ds == ds;
    }
  }

  function Pow10(k: nat): (r: nat)
    ensures r >= 1
  {
    if k == 0 then 1 else 10 * Pow10(k - 1)
  }

  lemma {:induction false} NatDigitsLength(n: nat, k: nat)
    requires 1 <= k && n < Pow10(k)
    ensures |NatDigits(n)| <= k
  {
    if n >= 10 {
      NatDigitsLength(n / 10, k - 1);
    }
  }

  lemma {:induction false} NatDigitsLengthAtLeast(n: nat, k: nat)
    requires Pow10(k) <= n
    ensures |NatDigits(n)| > k
  {
    if k > 0 {
      NatDigitsLengthAtLeast(n / 10, k - 1);
    }
  }

  /** A number of exactly `width` digits needs no padding. */
  lemma ZeroPadFull(n: nat, width: nat)
    requires 1 <= width && Pow10(width - 1) <= n < Pow10(width)
    ensures ZeroPad(n, width) == NatDigits(n)
  {
    NatDigitsLength(n, width);
    NatDigitsLengthAtLeast(n, width - 1);
    assert ZeroPad(n, width) == "" + Zeros(0) + NatDigits(n);
  }

  /**
   * A natural number below 10^width comes out of ZeroPad as exactly `width`
   * digits that read back as the number.
   */
  lemma ZeroPadExact(n: nat, width: nat)
    requires 1 <= width && n < Pow10(width)
    ensures |ZeroPad(n, width)| == width && ReadsAs(ZeroPad(n, width), n)
  {
    var ds := NatDigits(n);
    NatDigitsLength(n, width);
    PaddedValue(width - |ds|, ds);
    DigitsValueOfNat(n);
    ZeroPadOfNat(n, width);
  }

  lemma ZeroPadOfNat(n: nat, width: nat)
    requires |NatDigits(n)| <= width
    ensures ZeroPad(n, width) == Zeros(width - |NatDigits(n)|) + NatDigits(n)
  {
    assert "" + Zeros(width - |NatDigits(n)|) == Zeros(width - |NatDigits(n)|);
  }

  lemma PaddedValue(k: nat, ds: string)
    requires forall i :: 0 <= i < |ds| ==> IsDigit(ds[i])
    ensures ReadsAs(Zeros(k) + ds, DigitsValue(ds))
  {
    ZerosValue(k, ds);
  }
}
