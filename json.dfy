/**
 * A parsed JSON document as Python's `json.load` hands it over: `None`, a
 * bool, a number, a string, a list, or a dict whose members keep their
 * insertion order (the order decides traversal and result order).
 */
module Json {
  import opened Wrappers
  import opened Text

  /** A number carries the text Python's `str()` gives it (`180`, `-180.0`, `1e-05`). */
  datatype Json =
    | JNull
    | JBool(b: bool)
    | JNum(text: string)
    | JStr(s: string)
    | JArr(items: seq<Json>)
    | JObj(members: seq<Member>)

  /** One key/value pair of a dict, in insertion order. */
  datatype Member = Member(key: string, value: Json)

  // ------------------------------------------------------------ dict access

  /** `d.get(key)`: the value stored under `key`, looked up from the first member on. */
  function Get(ms: seq<Member>, key: string): (r: Option<Json>)
    ensures r.None? <==> forall i :: 0 <= i < |ms| ==> ms[i].key != key
    ensures r.Some? ==> exists i :: 0 <= i < |ms| && ms[i].key == key && ms[i].value == r.value
  {
    if ms == [] then None
    else if ms[0].key == key then Some(ms[0].value)
    else
      var r := Get(ms[1..], key);
      assert forall i :: 1 <= i < |ms| ==> ms[i] == ms[1..][i - 1];
      r
  }

  /** `d.get(key, default)`. */
  function GetOr(ms: seq<Member>, key: string, default: Json): Json
  {
    match Get(ms, key)
    case Some(v) => v
    case None => default
  }

  /** `d.values()`, in insertion order. */
  function Values(ms: seq<Member>): (vs: seq<Json>)
    ensures |vs| == |ms|
    ensures forall i :: 0 <= i < |ms| ==> vs[i] == ms[i].value
  {
    if ms == [] then [] else [ms[0].value] + Values(ms[1..])
  }

  /** `list(d)`: the keys, in insertion order. */
  function Keys(ms: seq<Member>): (ks: seq<string>)
    ensures |ks| == |ms|
    ensures forall i :: 0 <= i < |ms| ==> ks[i] == ms[i].key
  {
    if ms == [] then [] else [ms[0].key] + Keys(ms[1..])
  }

  // ------------------------------------------------------------------ size

  /** Number of nodes in a tree; the measure that bounds a walk over it. */
  function Size(j: Json): nat
  {
    match j
    case JArr(xs) => 1 + SizeItems(xs)
    case JObj(ms) => 1 + SizeMembers(ms)
    case _ => 1
  }

  function SizeItems(xs: seq<Json>): nat
  {
    if xs == [] then 0 else SizeItems(xs[..|xs| - 1]) + Size(xs[|xs| - 1])
  }

  function SizeMembers(ms: seq<Member>): nat
  {
    if ms == [] then 0 else SizeMembers(ms[..|ms| - 1]) + Size(ms[|ms| - 1].value)
  }

  lemma {:induction false} SizeItemsAppend(a: seq<Json>, b: seq<Json>)
    ensures SizeItems(a + b) == SizeItems(a) + SizeItems(b)
    decreases |b|
  {
    if b != [] {
      assert (a + b)[..|a + b| - 1] == a + b[..|b| - 1];
      SizeItemsAppend(a, b[..|b| - 1]);
    } else {
      assert a + b == a;
    }
  }

  lemma {:induction false} SizeOfValues(ms: seq<Member>)
    ensures SizeItems(Values(ms)) == SizeMembers(ms)
    decreases |ms|
  {
    if ms != [] {
      var init := ms[..|ms| - 1];
      assert Values(ms)[..|ms| - 1] == Values(init);
      SizeOfValues(init);
    }
  }

  // ------------------------------------------------------------- truthiness

  /** Python truthiness: `None`, `False`, zero, `""`, `[]` and `{}` are false. */
  predicate Truthy(j: Json)
  {
    match j
    case JNull => false
    case JBool(b) => b
    case JNum(t) => ParseFloat(t) != Some(0.0)
    case JStr(s) => s != ""
    case JArr(xs) => xs != []
    case JObj(ms) => ms != []
  }

  // ------------------------------------------------------------- str / repr

  /** `repr()` of a string: single quotes, or double quotes when only `'` occurs in it. */
  function QuoteString(s: string): string
  {
    if '\'' in s && '"' !in s then "\"" + s + "\"" else "'" + s + "'"
  }

  /** `repr()` of a value, as it appears nested inside `str()` of a list or dict. */
  function Repr(j: Json): string
  {
    match j
    case JNull => "None"
    case JBool(b) => if b then "True" else "False"
    case JNum(t) => t
    case JStr(s) => QuoteString(s)
    case JArr(xs) => "[" + Join(", ", ReprItems(xs)) + "]"
    case JObj(ms) => "{" + Join(", ", ReprMembers(ms)) + "}"
  }

  function ReprItems(xs: seq<Json>): (r: seq<string>)
    ensures |r| == |xs|
  {
    if xs == [] then [] else [Repr(xs[0])] + ReprItems(xs[1..])
  }

  function ReprMembers(ms: seq<Member>): (r: seq<string>)
    ensures |r| == |ms|
  {
    if ms == [] then [] else [QuoteString(ms[0].key) + ": " + Repr(ms[0].value)] + ReprMembers(ms[1..])
  }

  /** `str()`: a string is itself, anything else is its `repr()`. */
  function Str(j: Json): (r: string)
    ensures j.JStr? ==> r == j.s
  {
    if j.JStr? then j.s else Repr(j)
  }

  // ------------------------------------------------------------------ float()

  predicate IsDigit(c: char) { '0' <= c <= '9' }

  /** Every character of `s` is a decimal digit. */
  predicate AllDigits(s: string)
  {
    s == [] || (IsDigit(s[0]) && AllDigits(s[1..]))
  }

  lemma {:induction false} AllDigitsAt(s: string, i: nat)
    requires AllDigits(s) && i < |s|
    ensures IsDigit(s[i])
  {
    if i > 0 { AllDigitsAt(s[1..], i - 1); }
  }

  /** Length of the run of decimal digits at the start of `s`. */
  function DigitRun(s: string): (n: nat)
    ensures n <= |s|
  {
    if s == [] || !IsDigit(s[0]) then 0 else 1 + DigitRun(s[1..])
  }

  /** The value of a string of decimal digits. */
  function DigitsValue(s: string): nat
  {
    if s == [] then 0
    else
      var d := s[|s| - 1] as int - '0' as int;
      DigitsValue(s[..|s| - 1]) * 10 + (if 0 <= d then d else 0)
  }

  /** `r * 10^e` for an integer exponent `e`. */
  function Scale(r: real, e: int): real
  {
    if e >= 0 then r * Pow10(e) as real else r / Pow10(-e) as real
  }

  /** The exponent part `e[+-]digits` (or nothing) that must end a float literal. */
  function ParseExponent(s: string): Option<int>
  {
    if s == [] then Some(0)
    else if s[0] != 'e' && s[0] != 'E' then None
    else
      var t := s[1..];
      var neg := t != [] && t[0] == '-';
      var u := if t != [] && (t[0] == '-' || t[0] == '+') then t[1..] else t;
      var n := DigitRun(u);
      if n == 0 || n != |u| then None
      else Some(if neg then -(DigitsValue(u) as int) else DigitsValue(u) as int)
  }

  /** The value of `digits.frac`. */
  function MantissaValue(digits: string, frac: string): real
  {
    DigitsValue(digits) as real + DigitsValue(frac) as real / Pow10(|frac|) as real
  }

  /** An unsigned literal: digits with an optional fraction (at least one digit in all), then the exponent. */
  function ParseUnsigned(body: string): Option<real>
  {
    var intLen := DigitRun(body);
    ParseAfterDigits(body[..intLen], body[intLen..])
  }

  /** The rest of an unsigned literal once its integer digits are read: `[.digits]` and the exponent. */
  function ParseAfterDigits(digits: string, rest: string): Option<real>
  {
    var hasPoint := rest != [] && rest[0] == '.';
    var after := if hasPoint then rest[1..] else rest;
    var fracLen := if hasPoint then DigitRun(after) else 0;
    if |digits| + fracLen == 0 then None
    else
      match ParseExponent(after[fracLen..])
      case None => None
      case Some(e) => Some(Scale(MantissaValue(digits, after[..fracLen]), e))
  }

  /**
   * `float(s)` for a string: surrounding whitespace is ignored, then an
   * optional sign and an unsigned literal, and nothing else.
   */
  function ParseFloat(s: string): Option<real>
  {
    ParseSigned(Strip(s))
  }

  /** An optional sign, then an unsigned literal. */
  function ParseSigned(t: string): Option<real>
  {
    var signed := t != [] && (t[0] == '-' || t[0] == '+');
    var negative := t != [] && t[0] == '-';
    match ParseUnsigned(t[if signed then 1 else 0..])
    case Some(r) => Some(if negative then -r else r)
    case None => None
  }

  lemma {:induction false} DigitRunAll(d: string)
    requires AllDigits(d)
    ensures DigitRun(d) == |d|
  {
    if d != [] { DigitRunAll(d[1..]); }
  }

  lemma ParseUnsignedDigits(d: string)
    requires d != [] && AllDigits(d)
    ensures ParseUnsigned(d) == Some(DigitsValue(d) as real)
  {
    DigitRunAll(d);
    assert d[..|d|] == d;
    assert d[|d|..] == [];
    assert ParseAfterDigits(d, []) == Some(Scale(MantissaValue(d, ""), 0)) by {
      assert ParseExponent([]) == Some(0);
    }
    ScaleByOne(d);
  }

  lemma ScaleByOne(d: string)
    ensures Scale(MantissaValue(d, ""), 0) == DigitsValue(d) as real
  {
    assert DigitsValue("") == 0 && Pow10(0) == 1;
  }

  lemma DigitsStripped(d: string)
    requires d != [] && AllDigits(d)
    ensures Strip(d) == d
  {
    AllDigitsAt(d, |d| - 1);
    assert !IsSpace(d[0]) && !IsSpace(d[|d| - 1]);
    StripOfStripped(d);
  }

  lemma SignedDigits(d: string)
    requires d != [] && AllDigits(d)
    ensures ParseSigned(d) == Some(DigitsValue(d) as real)
  {
    assert d[0] != '-' && d[0] != '+';
    ParseUnsignedDigits(d);
  }

  /** `float()` of a run of digits is its integer value. */
  lemma ParseFloatDigits(d: string)
    requires d != [] && AllDigits(d)
    ensures ParseFloat(d) == Some(DigitsValue(d) as real)
  {
    DigitsStripped(d);
    SignedDigits(d);
  }

  lemma NegatedDigitsStripped(d: string)
    requires d != [] && AllDigits(d)
    ensures Strip("-" + d) == "-" + d
  {
    var t := "-" + d;
    AllDigitsAt(d, |d| - 1);
    assert t[0] == '-' && t[|t| - 1] == d[|d| - 1];
    StripOfStripped(t);
  }

  /** A minus sign negates the literal that follows it. */
  lemma SignedNegated(u: string, r: real)
    requires ParseUnsigned(u) == Some(r)
    ensures ParseSigned("-" + u) == Some(-r)
  {
    var t := "-" + u;
    assert t[0] == '-' && t[1..] == u;
  }

  /** On text without surrounding whitespace, `float()` is the signed-literal parse. */
  lemma ParseFloatOfStripped(t: string, r: real)
    requires Strip(t) == t && ParseSigned(t) == Some(r)
    ensures ParseFloat(t) == Some(r)
  {
  }

  /** `float()` of a negated run of digits is minus its integer value. */
  lemma ParseFloatNegatedDigits(d: string)
    requires d != [] && AllDigits(d)
    ensures ParseFloat("-" + d) == Some(-(DigitsValue(d) as real))
  {
    NegatedDigitsStripped(d);
    ParseUnsignedDigits(d);
    SignedNegated(d, DigitsValue(d) as real);
    ParseFloatOfStripped("-" + d, -(DigitsValue(d) as real));
  }

  /** `float(x)`: strings and numbers are parsed, bools are 1.0 and 0.0, anything else raises. */
  function ToFloat(j: Json): Option<real>
  {
    match j
    case JBool(b) => Some(if b then 1.0 else 0.0)
    case JNum(t) => ParseFloat(t)
    case JStr(s) => ParseFloat(s)
    case _ => None
  }

  /** `float()` fails on `None`, lists and dicts. */
  lemma ToFloatFailsOnContainers(j: Json)
    requires j.JNull? || j.JArr? || j.JObj?
    ensures ToFloat(j).None?
  {
  }

  /** `float("")` fails, so the `""` default of a missing bound never converts. */
  lemma ToFloatFailsOnEmpty()
    ensures ToFloat(JStr("")).None?
  {
    assert Strip("") == "";
    assert ParseUnsigned("") == None;
  }
}
