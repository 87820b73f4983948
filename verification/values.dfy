/** Values as they arrive in a decoded JSON request body, and the few
    Python conversions the handlers apply to them: truthiness (`x or ""`),
    `str.strip()`, `str.lower()`, `int(x)` and `float(x)`.  A conversion
    that raises in Python yields `None` here; the handlers turn that into
    an internal-server-error response. */
module Values {

  datatype Option<T> = None | Some(value: T)

  /** A decoded JSON value.  Numbers are kept as exact reals. */
  datatype Value =
    | Null
    | Bool(b: bool)
    | Num(x: real)
    | Str(s: string)
    | List(items: seq<Value>)
    | Obj(fields: map<string, Value>)

  /** Python truthiness: None, False, 0, "" and empty containers are false. */
  predicate Truthy(v: Value) {
    match v
    case Null => false
    case Bool(b) => b
    case Num(x) => x != 0.0
    case Str(s) => s != ""
    case List(items) => |items| != 0
    case Obj(fields) => |fields| != 0
  }

  /** The characters for which Python's `str.isspace()` holds. */
  predicate IsSpace(c: char) {
    || c == ' '
    || ('\t' <= c <= '\r')
    || ('\U{1C}' <= c <= '\U{1F}')
    || c == '\U{85}' || c == '\U{A0}' || c == '\U{1680}'
    || ('\U{2000}' <= c <= '\U{200A}')
    || c == '\U{2028}' || c == '\U{2029}' || c == '\U{202F}'
    || c == '\U{205F}' || c == '\U{3000}'
  }

  /** No whitespace at either end. */
  predicate Trimmed(s: string) {
    s == [] || (!IsSpace(s[0]) && !IsSpace(s[|s| - 1]))
  }

  /** The number of whitespace characters `s` begins with. */
  function LeadingSpaces(s: string): (n: nat)
    ensures n <= |s|
    ensures forall k :: 0 <= k < n ==> IsSpace(s[k])
    ensures n < |s| ==> !IsSpace(s[n])
  {
    if s != [] && IsSpace(s[0]) then 1 + LeadingSpaces(s[1..]) else 0
  }

  /** Whitespace followed by text that does not start with whitespace. */
  lemma {:induction false} LeadingSpacesOfPadded(lead: string, t: string)
    requires forall k :: 0 <= k < |lead| ==> IsSpace(lead[k])
    requires t == [] || !IsSpace(t[0])
    ensures LeadingSpaces(lead + t) == |lead|
  {
    if lead == [] {
      assert lead + t == t;
    } else {
      assert (lead + t)[0] == lead[0];
      assert (lead + t)[1..] == lead[1..] + t;
      LeadingSpacesOfPadded(lead[1..], t);
    }
  }

  function TrimStart(s: string): (r: string)
    ensures r == s[LeadingSpaces(s)..]
  {
    if s != [] && IsSpace(s[0]) then TrimStart(s[1..]) else s
  }

  function TrimEnd(s: string): (r: string)
    ensures |r| <= |s| && r == s[..|r|]
    ensures r == [] || !IsSpace(r[|r| - 1])
    ensures forall i :: |r| <= i < |s| ==> IsSpace(s[i])
  {
    if s != [] && IsSpace(s[|s| - 1]) then TrimEnd(s[..|s| - 1]) else s
  }

  /** Python's `s.strip()`: the text between the leading and the trailing
      whitespace. */
  function Strip(s: string): (r: string)
    ensures Trimmed(r)
    ensures Trimmed(s) <==> r == s
    ensures |r| <= |s|
    ensures var i := LeadingSpaces(s);
      && i + |r| <= |s|
      && r == s[i..i + |r|]
      && forall k :: i + |r| <= k < |s| ==> IsSpace(s[k])
  {
    var i := LeadingSpaces(s);
    var a := TrimStart(s);
    var r := TrimEnd(a);
    assert r == s[i..i + |r|] by {
      assert a == s[i..] && r == a[..|r|];
    }
    assert forall k :: i + |r| <= k < |s| ==> IsSpace(s[k]) by {
      forall k | i + |r| <= k < |s|
        ensures IsSpace(s[k])
      {
        assert s[k] == a[k - i];
      }
    }
    assert Trimmed(r) by {
      if r != [] {
        assert r[0] == a[0];
      }
    }
    assert Trimmed(s) ==> r == s by {
      if Trimmed(s) && s != [] {
        assert i == 0 && a == s;
      }
    }
    r
  }

  /** Text made only of whitespace strips to nothing. */
  lemma StripBlank(s: string)
    requires forall k :: 0 <= k < |s| ==> IsSpace(s[k])
    ensures Strip(s) == []
  {
  }

  /** Trimming the end of text that has only whitespace from `m` on, with
      a non-space just before `m`, keeps its first `m` characters. */
  lemma TrimEndAt(a: string, m: nat)
    requires 0 < m <= |a|
    requires !IsSpace(a[m - 1])
    requires forall k :: m <= k < |a| ==> IsSpace(a[k])
    ensures TrimEnd(a) == a[..m]
  {
    var r := TrimEnd(a);
    assert |r| >= m by {
      assert !IsSpace(a[m - 1]);
    }
    assert |r| <= m by {
      assert r[|r| - 1] == a[|r| - 1];
    }
  }

  /** When `s` has `i` leading spaces and nothing but whitespace from `e`
      on, with a non-space just before `e`, stripping keeps `s[i..e]`. */
  lemma StripBetween(s: string, i: nat, e: nat)
    requires i < e <= |s|
    requires LeadingSpaces(s) == i
    requires !IsSpace(s[e - 1])
    requires forall k :: e <= k < |s| ==> IsSpace(s[k])
    ensures Strip(s) == s[i..e]
  {
    var a := s[i..];
    assert TrimEnd(a) == a[..e - i] by {
      SuffixSpaces(s, i, e);
      TrimEndAt(a, e - i);
    }
    StripIsTrim(s);
    SliceOfSuffix(s, i, e);
  }

  /** Whitespace from `e` on in `s` is whitespace from `e - i` on in `s[i..]`. */
  lemma SuffixSpaces(s: string, i: nat, e: nat)
    requires i < e <= |s|
    requires !IsSpace(s[e - 1])
    requires forall k :: e <= k < |s| ==> IsSpace(s[k])
    ensures !IsSpace(s[i..][e - i - 1])
    ensures forall k :: e - i <= k < |s[i..]| ==> IsSpace(s[i..][k])
  {
    assert forall k :: e - i <= k < |s[i..]| ==> s[i..][k] == s[k + i];
  }

  /** A prefix of a suffix is a middle slice. */
  lemma SliceOfSuffix(s: string, i: nat, e: nat)
    requires i <= e <= |s|
    ensures s[i..][..e - i] == s[i..e]
  {
  }

  /** `strip()` trims the start, then the end. */
  lemma StripIsTrim(s: string)
    ensures Strip(s) == TrimEnd(TrimStart(s))
  {
  }

  /** Whitespace, then text starting and ending with a non-space, then
      whitespace. */
  lemma StripAroundText(lead: string, t: string, trail: string)
    requires forall k :: 0 <= k < |lead| ==> IsSpace(lead[k])
    requires forall k :: 0 <= k < |trail| ==> IsSpace(trail[k])
    requires t != [] && Trimmed(t)
    ensures Strip(lead + t + trail) == t
  {
    var s := lead + t + trail;
    var e := |lead| + |t|;
    assert s == lead + (t + trail);
    LeadingSpacesOfPadded(lead, t + trail);
    assert s[e - 1] == t[|t| - 1];
    assert forall k :: e <= k < |s| ==> s[k] == trail[k - e];
    StripBetween(s, |lead|, e);
    assert s[|lead|..e] == t;
  }

  /** Stripping removes exactly the surrounding whitespace: trimmed text
      padded with whitespace on both sides strips back to itself. */
  lemma StripPadded(lead: string, t: string, trail: string)
    requires forall k :: 0 <= k < |lead| ==> IsSpace(lead[k])
    requires forall k :: 0 <= k < |trail| ==> IsSpace(trail[k])
    requires Trimmed(t)
    ensures Strip(lead + t + trail) == t
  {
    if t == [] {
      var s := lead + t + trail;
      assert forall k :: 0 <= k < |s| ==> s[k] == if k < |lead| then lead[k] else trail[k - |lead|];
      StripBlank(s);
    } else {
      StripAroundText(lead, t, trail);
    }
  }

  lemma StripIdempotent(s: string)
    ensures Strip(Strip(s)) == Strip(s)
  {
  }

  /** Python's `c.lower()` on the ASCII range; other characters are kept. */
  function LowerChar(c: char): char {
    if 'A' <= c <= 'Z' then (c as int + 32) as char else c
  }

  /** Python's `s.lower()`, restricted to ASCII letters. */
  function Lower(s: string): (r: string)
    ensures |r| == |s|
    ensures forall i :: 0 <= i < |s| ==> r[i] == LowerChar(s[i])
    ensures forall i :: 0 <= i < |r| ==> !('A' <= r[i] <= 'Z')
    ensures forall i :: 0 <= i < |r| ==> (IsSpace(r[i]) <==> IsSpace(s[i]))
  {
    if s == [] then [] else [LowerChar(s[0])] + Lower(s[1..])
  }

  /** A string with no upper-case ASCII letter is its own lower case. */
  lemma {:induction false} LowerKeepsLowerCase(s: string)
    requires forall i :: 0 <= i < |s| ==> !('A' <= s[i] <= 'Z')
    ensures Lower(s) == s
  {
    if s != [] {
      LowerKeepsLowerCase(s[1..]);
      assert s == [s[0]] + s[1..];
    }
  }

  /** Lower-casing twice is lower-casing once. */
  lemma LowerIdempotent(s: string)
    ensures Lower(Lower(s)) == Lower(s)
  {
    LowerKeepsLowerCase(Lower(s));
  }

  /** `(v or "").strip()`: the empty string for a falsy value, the stripped
      text for a string, and an exception (None) for any other truthy value,
      which has no `strip` method. */
  function TextOf(v: Value): (r: Option<string>)
    ensures r.None? <==> Truthy(v) && !v.Str?
    ensures !Truthy(v) ==> r == Some("")
    ensures r.Some? ==> Trimmed(r.value)
    ensures r.Some? && v.Str? ==> r.value == Strip(v.s)
  {
    if !Truthy(v) then Some("")
    else if v.Str? then Some(Strip(v.s))
    else None
  }

  predicate IsDigit(c: char) {
    '0' <= c <= '9'
  }

  predicate AllDigits(d: string) {
    forall i :: 0 <= i < |d| ==> IsDigit(d[i])
  }

  /** The value of a run of decimal digits. */
  function DigitsValue(d: string): nat
    requires AllDigits(d)
  {
    if d == [] then 0
    else DigitsValue(d[..|d| - 1]) * 10 + (d[|d| - 1] as int - '0' as int)
  }

  function Pow10(n: nat): (r: nat)
    ensures r >= 1
  {
    if n == 0 then 1 else 10 * Pow10(n - 1)
  }

  /** Index of the first `c` in `s`, or `|s|` when there is none. */
  function IndexOf(s: string, c: char): (r: nat)
    ensures r <= |s|
    ensures r < |s| ==> s[r] == c
    ensures forall k :: 0 <= k < r ==> s[k] != c
  {
    if s == [] then 0
    else if s[0] == c then 0
    else 1 + IndexOf(s[1..], c)
  }

  /** A digit run in Python's numeric-literal syntax: digits, where a
      single underscore may separate two digits ("1_000"). */
  predicate Grouped(d: string)
    decreases |d|
  {
    && d != [] && IsDigit(d[0])
    && (|d| == 1 || (if d[1] == '_' then Grouped(d[2..]) else Grouped(d[1..])))
  }

  /** The digits of a grouped run, its underscores dropped. */
  function Ungroup(d: string): (r: string)
    requires Grouped(d)
    ensures r != [] && AllDigits(r) && |r| <= |d|
    decreases |d|
  {
    if |d| == 1 then d
    else if d[1] == '_' then [d[0]] + Ungroup(d[2..])
    else [d[0]] + Ungroup(d[1..])
  }

  /** A run of plain digits is grouped and is its own digit string. */
  lemma {:induction false} PlainDigitsGrouped(d: string)
    requires d != [] && AllDigits(d)
    ensures Grouped(d) && Ungroup(d) == d
    decreases |d|
  {
    if |d| > 1 {
      PlainDigitsGrouped(d[1..]);
      assert d == [d[0]] + d[1..];
    }
  }

  /** A grouped run holds only digits and underscores, and ends in a digit. */
  lemma {:induction false} GroupedShape(d: string)
    requires Grouped(d)
    ensures IsDigit(d[|d| - 1])
    ensures forall k :: 0 <= k < |d| ==> IsDigit(d[k]) || d[k] == '_'
    decreases |d|
  {
    if |d| > 1 {
      var rest := if d[1] == '_' then d[2..] else d[1..];
      GroupedShape(rest);
      assert forall k :: |d| - |rest| <= k < |d| ==> d[k] == rest[k - (|d| - |rest|)];
    }
  }

  /** The first `c` in `a + [c] + b` is the one after `a`, when `a` has none. */
  lemma {:induction false} IndexOfAfter(a: string, c: char, b: string)
    requires forall k :: 0 <= k < |a| ==> a[k] != c
    ensures IndexOf(a + [c] + b, c) == |a|
  {
    if a != [] {
      IndexOfAfter(a[1..], c, b);
      assert (a + [c] + b)[1..] == a[1..] + [c] + b;
    }
  }

  /** The text after an optional sign, and whether the sign was `-`. */
  function Unsigned(s: string): (string, bool) {
    if |s| > 0 && (s[0] == '-' || s[0] == '+') then (s[1..], s[0] == '-') else (s, false)
  }

  /** `int(s)` on already stripped text: an optional sign and a grouped
      digit run. */
  function ParseIntLiteral(s: string): Option<int> {
    var (digits, negative) := Unsigned(s);
    if Grouped(digits) then
      var n: int := DigitsValue(Ungroup(digits));
      Some(if negative then -n else n)
    else None
  }

  /** The digits of an optional grouped run, or None when it is malformed. */
  function OptionalDigits(d: string): Option<string> {
    if d == [] then Some([])
    else if Grouped(d) then Some(Ungroup(d))
    else None
  }

  /** `float(s)` on already stripped text: an optional sign, then grouped
      digits with at most one decimal point and at least one digit. */
  function ParseDecimalLiteral(s: string): Option<real> {
    var (body, negative) := Unsigned(s);
    var dot := IndexOf(body, '.');
    var whole := OptionalDigits(body[..dot]);
    var frac := OptionalDigits(if dot < |body| then body[dot + 1..] else []);
    if whole.Some? && frac.Some? && |whole.value| + |frac.value| > 0 then
      var magnitude := DecimalValue(whole.value, frac.value);
      Some(if negative then -magnitude else magnitude)
    else None
  }

  /** The value of the decimal `w.f`. */
  function DecimalValue(w: string, f: string): real
    requires AllDigits(w) && AllDigits(f)
  {
    DigitsValue(w) as real + DigitsValue(f) as real / Pow10(|f|) as real
  }

  /** `int(x)` of a Python float truncates toward zero. */
  function Truncate(x: real): int {
    if x >= 0.0 then x.Floor else -((-x).Floor)
  }

  /** Python's `int(v)`. */
  function PyInt(v: Value): (r: Option<int>)
    ensures v.Num? ==> r == Some(Truncate(v.x))
    ensures v.Bool? ==> r == Some(if v.b then 1 else 0)
    ensures v.Str? && Strip(v.s) == "" ==> r == None
    ensures v.Null? || v.List? || v.Obj? ==> r == None
  {
    match v
    case Null => None
    case Bool(b) => Some(if b then 1 else 0)
    case Num(x) => Some(Truncate(x))
    case Str(s) => ParseIntLiteral(Strip(s))
    case List(_) => None
    case Obj(_) => None
  }

  /** Python's `float(v)`. */
  function PyFloat(v: Value): (r: Option<real>)
    ensures v.Num? ==> r == Some(v.x)
    ensures v.Bool? ==> r == Some(if v.b then 1.0 else 0.0)
    ensures v.Str? && Strip(v.s) == "" ==> r == None
    ensures v.Null? || v.List? || v.Obj? ==> r == None
  {
    match v
    case Null => None
    case Bool(b) => Some(if b then 1.0 else 0.0)
    case Num(x) => Some(x)
    case Str(s) => ParseDecimalLiteral(Strip(s))
    case List(_) => None
    case Obj(_) => None
  }

  /** The sign in front of unsigned text is what `Unsigned` splits off. */
  lemma UnsignedAfterSign(sign: string, body: string)
    requires sign == "" || sign == "+" || sign == "-"
    requires body != [] && body[0] != '-' && body[0] != '+'
    ensures Unsigned(sign + body) == (body, sign == "-")
  {
    if sign == "" {
      assert sign + body == body;
    } else {
      assert (sign + body)[1..] == body;
    }
  }

  /** A sign in front of non-empty trimmed text keeps it trimmed. */
  lemma TrimmedAfterSign(sign: string, body: string)
    requires sign == "" || sign == "+" || sign == "-"
    requires body != [] && Trimmed(body)
    ensures Trimmed(sign + body)
  {
    var t := sign + body;
    assert t[|t| - 1] == body[|body| - 1];
    if sign == "" {
      assert t == body;
    }
  }

  /** Four padded pieces regrouped around the signed text they hold. */
  lemma Regroup(lead: string, sign: string, body: string, trail: string)
    ensures lead + sign + body + trail == lead + (sign + body) + trail
  {
  }

  /** A sign followed by a grouped run is trimmed text whose unsigned part
      is the run. */
  lemma SignedRun(sign: string, d: string)
    requires sign == "" || sign == "+" || sign == "-"
    requires Grouped(d)
    ensures Trimmed(sign + d)
    ensures Unsigned(sign + d) == (d, sign == "-")
  {
    GroupedShape(d);
    UnsignedAfterSign(sign, d);
    TrimmedAfterSign(sign, d);
  }

  /** The integer parser reads a signed grouped run as its value. */
  lemma ParseIntOfRun(sign: string, d: string)
    requires sign == "" || sign == "+" || sign == "-"
    requires Grouped(d)
    ensures var n := DigitsValue(Ungroup(d)) as int;
      ParseIntLiteral(sign + d) == Some(if sign == "-" then -n else n)
  {
    SignedRun(sign, d);
  }

  /** `int()` of an optionally signed, grouped digit run padded with
      whitespace is the run's value: `int(" -1_000 ")` is -1000. */
  lemma PyIntOfDigits(lead: string, sign: string, d: string, trail: string)
    requires forall k :: 0 <= k < |lead| ==> IsSpace(lead[k])
    requires forall k :: 0 <= k < |trail| ==> IsSpace(trail[k])
    requires sign == "" || sign == "+" || sign == "-"
    requires Grouped(d)
    ensures var n := DigitsValue(Ungroup(d)) as int;
      PyInt(Str(lead + sign + d + trail)) == Some(if sign == "-" then -n else n)
  {
    var t := sign + d;
    Regroup(lead, sign, d, trail);
    SignedRun(sign, d);
    StripPadded(lead, t, trail);
    ParseIntOfRun(sign, d);
  }

  /** `float()` of trimmed text padded with whitespace parses the text. */
  lemma PyFloatOfPadded(lead: string, t: string, trail: string)
    requires forall k :: 0 <= k < |lead| ==> IsSpace(lead[k])
    requires forall k :: 0 <= k < |trail| ==> IsSpace(trail[k])
    requires Trimmed(t)
    ensures PyFloat(Str(lead + t + trail)) == ParseDecimalLiteral(t)
  {
    StripPadded(lead, t, trail);
  }

  /** `float()` of an optionally signed grouped digit run padded with
      whitespace is the run's value. */
  lemma PyFloatOfDigits(lead: string, sign: string, d: string, trail: string)
    requires forall k :: 0 <= k < |lead| ==> IsSpace(lead[k])
    requires forall k :: 0 <= k < |trail| ==> IsSpace(trail[k])
    requires sign == "" || sign == "+" || sign == "-"
    requires Grouped(d)
    ensures var m := DigitsValue(Ungroup(d)) as real;
      PyFloat(Str(lead + sign + d + trail)) == Some(if sign == "-" then -m else m)
  {
    var t := sign + d;
    Regroup(lead, sign, d, trail);
    SignedRun(sign, d);
    PyFloatOfPadded(lead, t, trail);
    ParseDecimalOfRun(sign, d);
  }

  /** A grouped run has no decimal point. */
  lemma RunHasNoPoint(d: string)
    requires Grouped(d)
    ensures IndexOf(d, '.') == |d|
  {
    GroupedShape(d);
    IndexOfAbsent(d, '.');
  }

  /** The decimal parser reads a signed grouped run as its value. */
  lemma ParseDecimalOfRun(sign: string, d: string)
    requires sign == "" || sign == "+" || sign == "-"
    requires Grouped(d)
    ensures var m := DigitsValue(Ungroup(d)) as real;
      ParseDecimalLiteral(sign + d) == Some(if sign == "-" then -m else m)
  {
    SignedRun(sign, d);
    RunHasNoPoint(d);
    var u := Ungroup(d);
    assert d[..|d|] == d;
    assert OptionalDigits(d) == Some(u);
    assert OptionalDigits([]) == Some([]);
    assert DecimalValue(u, []) == DigitsValue(u) as real;
  }

  /** A sign, digits, a point and digits make trimmed text whose unsigned
      part is everything after the sign. */
  lemma SignedDecimal(sign: string, w: string, f: string)
    requires sign == "" || sign == "+" || sign == "-"
    requires OptionalDigits(w).Some? && OptionalDigits(f).Some?
    ensures Trimmed(sign + w + "." + f)
    ensures Unsigned(sign + w + "." + f) == (w + "." + f, sign == "-")
  {
    var body := w + "." + f;
    assert sign + w + "." + f == sign + body;
    DecimalBody(w, f);
    UnsignedAfterSign(sign, body);
    TrimmedAfterSign(sign, body);
  }

  /** `w.f` with optional runs on both sides starts with a digit or the
      point and ends with a digit or the point. */
  lemma DecimalBody(w: string, f: string)
    requires OptionalDigits(w).Some? && OptionalDigits(f).Some?
    ensures var body := w + "." + f;
      body != [] && body[0] != '-' && body[0] != '+' && Trimmed(body)
  {
    var body := w + "." + f;
    if w == [] {
      assert body[0] == '.';
    } else {
      assert body[0] == w[0];
    }
    if f == [] {
      assert body[|body| - 1] == '.';
    } else {
      GroupedShape(f);
      assert body[|body| - 1] == f[|f| - 1];
    }
  }

  /** The point in `w.f` is the first one when `w` is an optional run. */
  lemma PointAfterWhole(w: string, f: string)
    requires OptionalDigits(w).Some?
    ensures IndexOf(w + "." + f, '.') == |w|
  {
    if w != [] { GroupedShape(w); }
    IndexOfAfter(w, '.', f);
  }

  /** The decimal parser reads `sign w.f` as the decimal's value. */
  lemma ParseDecimalOfParts(sign: string, w: string, f: string)
    requires sign == "" || sign == "+" || sign == "-"
    requires OptionalDigits(w).Some? && OptionalDigits(f).Some? && (w != [] || f != [])
    ensures var m := DecimalValue(OptionalDigits(w).value, OptionalDigits(f).value);
      ParseDecimalLiteral(sign + w + "." + f) == Some(if sign == "-" then -m else m)
  {
    var body := w + "." + f;
    SignedDecimal(sign, w, f);
    PointAfterWhole(w, f);
    assert body[..|w|] == w && body[|w| + 1..] == f;
    assert w != [] ==> |OptionalDigits(w).value| > 0;
    assert f != [] ==> |OptionalDigits(f).value| > 0;
  }

  /** `float()` of an optionally signed decimal with grouped digits on
      either side of the point (one side may be empty) padded with
      whitespace: `float(" 1_0.25 ")` is 10.25. */
  lemma PyFloatOfDecimal(lead: string, sign: string, w: string, f: string, trail: string)
    requires forall k :: 0 <= k < |lead| ==> IsSpace(lead[k])
    requires forall k :: 0 <= k < |trail| ==> IsSpace(trail[k])
    requires sign == "" || sign == "+" || sign == "-"
    requires OptionalDigits(w).Some? && OptionalDigits(f).Some? && (w != [] || f != [])
    ensures var m := DecimalValue(OptionalDigits(w).value, OptionalDigits(f).value);
      PyFloat(Str(lead + sign + w + "." + f + trail)) == Some(if sign == "-" then -m else m)
  {
    var t := sign + w + "." + f;
    SignedDecimal(sign, w, f);
    assert lead + sign + w + "." + f + trail == lead + t + trail;
    PyFloatOfPadded(lead, t, trail);
    ParseDecimalOfParts(sign, w, f);
  }

  /** Only a sign and a grouped digit run survive `int()`: any string it
      accepts strips to an optional `+` or `-` followed by such a run. */
  lemma PyIntAccepts(s: string)
    requires PyInt(Str(s)).Some?
    ensures exists sign, d :: (sign == "" || sign == "+" || sign == "-") && Grouped(d) && Strip(s) == sign + d
  {
    var t := Strip(s);
    var (d, negative) := Unsigned(t);
    var sign := if |t| > 0 && (t[0] == '-' || t[0] == '+') then [t[0]] else [];
    assert t == sign + d;
  }

  /** `t` is `sign w.f`, or `sign w` with no point, where the sign is
      optional, `w` and `f` are optional grouped runs, and at least one of
      them holds a digit. */
  predicate DecimalParts(t: string, sign: string, w: string, f: string) {
    && (sign == "" || sign == "+" || sign == "-")
    && OptionalDigits(w).Some? && OptionalDigits(f).Some? && (w != [] || f != [])
    && (t == sign + w + "." + f || (f == [] && t == sign + w))
  }

  /** Only a sign, an optional grouped whole part, and an optional point
      with an optional grouped fraction, holding at least one digit,
      survive `float()`. */
  lemma PyFloatAccepts(s: string)
    requires PyFloat(Str(s)).Some?
    ensures exists sign, w, f :: DecimalParts(Strip(s), sign, w, f)
  {
    DecimalLiteralShape(Strip(s));
  }

  /** The shape of stripped text the decimal parser accepts. */
  lemma DecimalLiteralShape(t: string)
    requires ParseDecimalLiteral(t).Some?
    ensures exists sign, w, f :: DecimalParts(t, sign, w, f)
  {
    var (body, negative) := Unsigned(t);
    var sign := if |t| > 0 && (t[0] == '-' || t[0] == '+') then [t[0]] else [];
    assert t == sign + body;
    var dot := IndexOf(body, '.');
    var w := body[..dot];
    var f := if dot < |body| then body[dot + 1..] else [];
    assert OptionalDigits(w).Some? && OptionalDigits(f).Some? && (w != [] || f != []);
    if dot < |body| {
      SplitAtPoint(body, dot);
      PointAssoc(sign, w, f);
    } else {
      assert body == w;
      assert f == [] && t == sign + w;
    }
    assert DecimalParts(t, sign, w, f);
    DecimalPartsWitness(t, sign, w, f);
  }

  /** A named split is a witness for the shape. */
  lemma DecimalPartsWitness(t: string, sign: string, w: string, f: string)
    requires DecimalParts(t, sign, w, f)
    ensures exists sign', w', f' :: DecimalParts(t, sign', w', f')
  {
  }

  /** Putting a sign in front of `w.f` regroups the concatenation. */
  lemma PointAssoc(sign: string, w: string, f: string)
    ensures sign + (w + "." + f) == sign + w + "." + f
  {
  }

  /** Text with a point at `dot` is what comes before it, the point, and
      what comes after it. */
  lemma SplitAtPoint(body: string, dot: nat)
    requires dot < |body| && body[dot] == '.'
    ensures body == body[..dot] + "." + body[dot + 1..]
  {
  }

  /** `int("1.5")` raises: a point is not part of an integer literal. */
  lemma PyIntRejectsPoint()
    ensures PyInt(Str("1.5")) == None
  {
    assert Trimmed("1.5") && Strip("1.5") == "1.5";
    assert Unsigned("1.5") == ("1.5", false);
    assert !Grouped("1.5") by {
      assert "1.5"[1..] == ".5";
      assert !IsDigit(".5"[0]);
    }
  }

  /** `float("1.2.3")` raises: a second point is not a digit. */
  lemma PyFloatRejectsSecondPoint()
    ensures PyFloat(Str("1.2.3")) == None
  {
    assert Trimmed("1.2.3") && Strip("1.2.3") == "1.2.3";
    assert Unsigned("1.2.3") == ("1.2.3", false);
    assert IndexOf("1.2.3", '.') == 1;
    assert "1.2.3"[2..] == "2.3";
    assert !Grouped("2.3") by {
      assert "2.3"[1..] == ".3";
      assert !IsDigit(".3"[0]);
    }
  }

  /** `IndexOf` is the length when the character does not occur. */
  lemma {:induction false} IndexOfAbsent(a: string, c: char)
    requires forall k :: 0 <= k < |a| ==> a[k] != c
    ensures IndexOf(a, c) == |a|
  {
    if a != [] {
      IndexOfAbsent(a[1..], c);
    }
  }

  lemma TruncateInt(n: int)
    ensures Truncate(n as real) == n
  {
  }
}
