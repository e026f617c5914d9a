/**
 * The handful of Python `str` operations the harvester relies on:
 * `lower()`, `strip()`, `startswith`/`endswith`, `in` (substring),
 * `", ".join(...)`, `rfind`, code-point comparison and `f"{i:04d}"`.
 */
module Text {
  import opened Wrappers

  // ---------------------------------------------------------------- lower()

  /** `lower()` restricted to ASCII: 'A'..'Z' map to 'a'..'z', every other character is kept. */
  function LowerChar(c: char): (d: char)
    ensures 'A' <= c <= 'Z' ==> d as int == c as int + 32
    ensures !('A' <= c <= 'Z') ==> d == c
    ensures !('A' <= d <= 'Z')
  {
    if 'A' <= c <= 'Z' then (c as int + 32) as char else c
  }

  function Lower(s: string): (r: string)
    ensures |r| == |s|
    ensures forall i :: 0 <= i < |s| ==> r[i] == LowerChar(s[i])
  {
    if s == [] then [] else [LowerChar(s[0])] + Lower(s[1..])
  }

  lemma {:induction false} LowerConcat(a: string, b: string)
    ensures Lower(a + b) == Lower(a) + Lower(b)
  {
    var l, la, lb := Lower(a + b), Lower(a), Lower(b);
    assert |l| == |la + lb|;
    forall i | 0 <= i < |l| ensures l[i] == (la + lb)[i] {
      if i < |a| { assert (a + b)[i] == a[i]; } else { assert (a + b)[i] == b[i - |a|]; }
    }
  }

  /** Lower-casing twice is lower-casing once. */
  lemma LowerIdempotent(s: string)
    ensures Lower(Lower(s)) == Lower(s)
  {
    var l := Lower(s);
    assert forall i :: 0 <= i < |l| ==> Lower(l)[i] == l[i];
  }

  // ---------------------------------------------------------------- strip()

  /** The characters Python's `str.isspace()` accepts, hence the ones `strip()` removes. */
  predicate IsSpace(c: char)
  {
    var n := c as int;
    n == 0x20 || 0x09 <= n <= 0x0D || 0x1C <= n <= 0x1F || n == 0x85 || n == 0xA0
    || n == 0x1680 || 0x2000 <= n <= 0x200A || n == 0x2028 || n == 0x2029
    || n == 0x202F || n == 0x205F || n == 0x3000
  }

  predicate AllSpace(s: string)
  {
    forall i :: 0 <= i < |s| ==> IsSpace(s[i])
  }

  /** Number of whitespace characters at the start of `s`. */
  function LeadingSpaces(s: string): (n: nat)
    ensures n <= |s|
    ensures AllSpace(s[..n])
    ensures n < |s| ==> !IsSpace(s[n])
  {
    if s == [] || !IsSpace(s[0]) then 0
    else
      var m := LeadingSpaces(s[1..]);
      assert s[..m + 1] == [s[0]] + s[1..][..m];
      m + 1
  }

  /** Number of whitespace characters at the end of `s`. */
  function TrailingSpaces(s: string): (n: nat)
    ensures n <= |s|
    ensures AllSpace(s[|s| - n..])
    ensures n < |s| ==> !IsSpace(s[|s| - 1 - n])
  {
    if s == [] || !IsSpace(s[|s| - 1]) then 0
    else
      var init := s[..|s| - 1];
      var m := TrailingSpaces(init);
      assert s[|s| - (m + 1)..] == init[|init| - m..] + [s[|s| - 1]];
      m + 1
  }

  /** The slice `strip()` keeps: whitespace before `a` and from `b` on, none at either end of `s[a..b]`. */
  function StripBounds(s: string): (ab: (nat, nat))
    ensures ab.0 <= ab.1 <= |s|
    ensures AllSpace(s[..ab.0]) && AllSpace(s[ab.1..])
    ensures ab.0 < ab.1 ==> !IsSpace(s[ab.0]) && !IsSpace(s[ab.1 - 1])
  {
    var a := LeadingSpaces(s);
    var t := TrailingSpaces(s[a..]);
    TrailingOfSuffix(s, a, t);
    (a, |s| - t)
  }

  /** The trailing whitespace of the suffix `s[a..]` is trailing whitespace of `s`. */
  lemma TrailingOfSuffix(s: string, a: nat, t: nat)
    requires a <= |s| && t == TrailingSpaces(s[a..])
    ensures a <= |s| - t
    ensures AllSpace(s[|s| - t..])
    ensures a < |s| - t ==> !IsSpace(s[|s| - t - 1])
  {
    SuffixOfSuffix(s, a, t);
  }

  lemma SuffixOfSuffix(s: string, a: nat, t: nat)
    requires a + t <= |s|
    ensures s[|s| - t..] == s[a..][|s| - a - t..]
    ensures a < |s| - t ==> s[|s| - t - 1] == s[a..][|s| - a - t - 1]
  {
  }

  /** `s.strip()`: `s` without its leading and trailing whitespace. */
  function Strip(s: string): (r: string)
    ensures |r| <= |s|
    ensures r == [] || (!IsSpace(r[0]) && !IsSpace(r[|r| - 1]))
    ensures exists a, b :: 0 <= a <= b <= |s| && r == s[a..b]
  {
    var ab := StripBounds(s);
    s[ab.0..ab.1]
  }

  /** `strip()` keeps `s[a..b]` and removes the whitespace-only `s[..a]` and `s[b..]`. */
  predicate StrippedAt(s: string, a: int, b: int)
  {
    0 <= a <= b <= |s| && Strip(s) == s[a..b] && AllSpace(s[..a]) && AllSpace(s[b..])
  }

  /** What `strip()` removes is whitespace only, on both sides. */
  lemma StripRemovesSpace(s: string)
    ensures exists a, b :: StrippedAt(s, a, b)
  {
    var ab := StripBounds(s);
    assert StrippedAt(s, ab.0, ab.1);
  }

  /** A string without surrounding whitespace is its own `strip()`. */
  lemma StripOfStripped(s: string)
    requires s == [] || (!IsSpace(s[0]) && !IsSpace(s[|s| - 1]))
    ensures Strip(s) == s
  {
    assert LeadingSpaces(s) == 0;
    assert s[0..] == s;
    assert TrailingSpaces(s) == 0;
  }

  /** `strip()` is idempotent. */
  lemma StripIdempotent(s: string)
    ensures Strip(Strip(s)) == Strip(s)
  {
    StripOfStripped(Strip(s));
  }

  // ------------------------------------------------- startswith / endswith / `in`

  predicate StartsWith(s: string, prefix: string)
  {
    |prefix| <= |s| && s[..|prefix|] == prefix
  }

  predicate EndsWith(s: string, suffix: string)
  {
    |suffix| <= |s| && s[|s| - |suffix|..] == suffix
  }

  /** Python's `t in s` for strings: `t` occurs as a contiguous substring of `s`. */
  predicate Contains(s: string, t: string)
    decreases |s|
  {
    StartsWith(s, t) || (s != [] && Contains(s[1..], t))
  }

  // ---------------------------------------------------------------- join

  /** `sep.join(parts)`. */
  function Join(sep: string, parts: seq<string>): (r: string)
    ensures parts == [] ==> r == ""
    ensures |parts| == 1 ==> r == parts[0]
  {
    if parts == [] then ""
    else if |parts| == 1 then parts[0]
    else parts[0] + sep + Join(sep, parts[1..])
  }

  // ---------------------------------------------------------------- rfind

  /** `s.rfind(c)`: the index of the last occurrence of `c`, `None` for -1. */
  function LastIndexOf(s: string, c: char): (r: Option<nat>)
    ensures r.None? <==> c !in s
    ensures r.Some? ==> r.value < |s| && s[r.value] == c && c !in s[r.value + 1..]
  {
    if s == [] then None
    else if s[|s| - 1] == c then Some(|s| - 1)
    else
      var init := s[..|s| - 1];
      var r := LastIndexOf(init, c);
      assert c in s ==> c in init by {
        if c in s { var k :| 0 <= k < |s| && s[k] == c; assert init[k] == c; }
      }
      assert r.Some? ==> s[r.value + 1..] == init[r.value + 1..] + [s[|s| - 1]];
      r
  }

  /** The index of the first occurrence of `c` (what `partition` splits at), `None` when absent. */
  function IndexOf(s: string, c: char): (r: Option<nat>)
    ensures r.None? <==> c !in s
    ensures r.Some? ==> r.value < |s| && s[r.value] == c && c !in s[..r.value]
  {
    if s == [] then None
    else if s[0] == c then Some(0)
    else
      var r := IndexOf(s[1..], c);
      assert r.Some? ==> s[..r.value + 1] == [s[0]] + s[1..][..r.value];
      match r
      case None => None
      case Some(i) => Some(i + 1)
  }

  // ------------------------------------------------------- string comparison

  /** Python's `a < b` on strings: lexicographic by code point, a proper prefix first. */
  predicate Less(a: string, b: string)
  {
    if a == [] then b != []
    else b != [] && (a[0] < b[0] || (a[0] == b[0] && Less(a[1..], b[1..])))
  }

  lemma {:induction false} LessIrreflexive(a: string)
    ensures !Less(a, a)
  {
    if a != [] { LessIrreflexive(a[1..]); }
  }

  lemma {:induction false} LessTransitive(a: string, b: string, c: string)
    requires Less(a, b) && Less(b, c)
    ensures Less(a, c)
  {
    if a != [] && a[0] == b[0] == c[0] {
      LessTransitive(a[1..], b[1..], c[1..]);
    }
  }

  /** Any two different strings are ordered one way or the other. */
  lemma {:induction false} LessTotal(a: string, b: string)
    requires a != b
    ensures Less(a, b) || Less(b, a)
  {
    if a != [] && b != [] && a[0] == b[0] {
      assert a == [a[0]] + a[1..] && b == [b[0]] + b[1..];
      LessTotal(a[1..], b[1..]);
    }
  }

  lemma {:induction false} LessAsymmetric(a: string, b: string)
    requires Less(a, b)
    ensures !Less(b, a)
  {
    if a != [] && b != [] && a[0] == b[0] { LessAsymmetric(a[1..], b[1..]); }
  }

  // ------------------------------------------------------- decimal rendering

  function DigitChar(d: nat): (c: char)
    requires d < 10
    ensures '0' <= c <= '9'
  {
    ('0' as int + d) as char
  }

  /** `str(n)` for a natural number. */
  function NatToString(n: nat): (s: string)
    ensures |s| >= 1
    ensures forall i :: 0 <= i < |s| ==> '0' <= s[i] <= '9'
  {
    if n < 10 then [DigitChar(n)] else NatToString(n / 10) + [DigitChar(n % 10)]
  }

  function Pow10(k: nat): (p: nat)
    ensures p >= 1
  {
    if k == 0 then 1 else 10 * Pow10(k - 1)
  }

  /** The last `width` decimal digits of `n`, with leading zeros. */
  function PadDigits(n: nat, width: nat): (s: string)
    ensures |s| == width
  {
    if width == 0 then [] else PadDigits(n / 10, width - 1) + [DigitChar(n % 10)]
  }

  /** `f"{n:04d}"`: the decimal digits of `n`, left-padded with zeros to four characters. */
  function ZeroPad4(n: nat): (s: string)
    ensures n < 10000 ==> |s| == 4
  {
    if n < 10000 then PadDigits(n, 4) else NatToString(n)
  }

  lemma {:induction false} LessAppend(a: string, b: string, x: char, y: char)
    requires |a| == |b|
    requires Less(a, b) || (a == b && x < y)
    ensures Less(a + [x], b + [y])
  {
    if a != [] {
      assert (a + [x])[1..] == a[1..] + [x] && (b + [y])[1..] == b[1..] + [y];
      if a[0] == b[0] && a != b { LessAppend(a[1..], b[1..], x, y); }
      if a == b { LessAppend(a[1..], b[1..], x, y); }
    }
  }

  lemma {:induction false} PadDigitsOrdered(i: nat, j: nat, width: nat)
    requires i < j < Pow10(width)
    ensures Less(PadDigits(i, width), PadDigits(j, width))
  {
    assert width > 0;
    if i / 10 < j / 10 {
      PadDigitsOrdered(i / 10, j / 10, width - 1);
    }
    LessAppend(PadDigits(i / 10, width - 1), PadDigits(j / 10, width - 1), DigitChar(i % 10), DigitChar(j % 10));
  }

  /** For indices below 10000 the zero-padded strings sort in numeric order. */
  lemma ZeroPad4Ordered(i: nat, j: nat)
    requires i < j < 10000
    ensures Less(ZeroPad4(i), ZeroPad4(j))
  {
    assert Pow10(4) == 10000;
    PadDigitsOrdered(i, j, 4);
  }
}
