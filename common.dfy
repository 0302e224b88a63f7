/** Shared vocabulary of the GeoTrack model: optional values, .NET string helpers
    (blank test, ordinal ignore-case comparison) and time arithmetic on ticks. */
module Common {

  /** A nullable reference or value (`T?` in C#). */
  datatype Option<+T> = None | Some(value: T) {
    function GetOr(default: T): T {
      match this
      case Some(v) => v
      case None => default
    }
  }

  /** The outcome of an operation that may throw: `Failure` carries the exception's message. */
  datatype Result<+T> = Success(value: T) | Failure(error: string)

  /** Great-circle distance in metres from (lat1, lon1) to (lat2, lon2), all in degrees. */
  type Haversine = (real, real, real, real) -> real

  /** `DateTime` and `DateTimeOffset` values are counted in ticks of 100 ns. */
  const TicksPerSecond: int := 10_000_000

  /** `(later - earlier).TotalSeconds` for two tick counts. */
  function ElapsedSeconds(earlier: int, later: int): (s: real)
    ensures s > 0.0 <==> later > earlier
    ensures s <= 0.0 <==> later <= earlier
  {
    (later - earlier) as real / TicksPerSecond as real
  }

  /** `char.IsWhiteSpace`: the Unicode space separators, line and paragraph separators,
      and the control characters U+0009..U+000D, U+0085. */
  predicate IsWhiteSpace(c: char) {
    c == ' ' || ('\t' <= c <= '\r') || c == '\U{0085}' || c == '\U{00A0}' || c == '\U{1680}'
    || ('\U{2000}' <= c <= '\U{200A}') || c == '\U{2028}' || c == '\U{2029}' || c == '\U{202F}'
    || c == '\U{205F}' || c == '\U{3000}'
  }

  /** `string.IsNullOrWhiteSpace` on a non-null string. */
  predicate IsBlank(s: string) {
    forall i :: 0 <= i < |s| ==> IsWhiteSpace(s[i])
  }

  /** Upper-cases an ASCII letter and leaves every other character alone. */
  function UpperAscii(c: char): (u: char)
    ensures 'a' <= c <= 'z' ==> u as int == c as int - 32
    ensures !('a' <= c <= 'z') ==> u == c
  {
    if 'a' <= c <= 'z' then (c as int - 32) as char else c
  }

  /** The canonical form under which `StringComparer.OrdinalIgnoreCase` treats two
      strings as equal: each character upper-cased. */
  function Fold(s: string): (f: string)
    ensures |f| == |s|
  {
    if s == [] then [] else [UpperAscii(s[0])] + Fold(s[1..])
  }

  /** Folding works character by character. */
  lemma {:induction false} FoldAt(s: string)
    ensures forall i :: 0 <= i < |s| ==> Fold(s)[i] == UpperAscii(s[i])
  {
    if s != [] {
      FoldAt(s[1..]);
      assert forall i :: 1 <= i < |s| ==> Fold(s)[i] == Fold(s[1..])[i - 1];
    }
  }

  /** `string.Equals(a, b, StringComparison.OrdinalIgnoreCase)`. */
  predicate EqualsIgnoreCase(a: string, b: string) {
    Fold(a) == Fold(b)
  }

  /** Folding is idempotent, so a folded key is its own dictionary key. */
  lemma FoldIdempotent(s: string)
    ensures Fold(Fold(s)) == Fold(s)
  {
    FoldAt(s);
    FoldAt(Fold(s));
    assert forall i :: 0 <= i < |s| ==> UpperAscii(UpperAscii(s[i])) == UpperAscii(s[i]);
  }

  /** Two strings that differ only in the case of ASCII letters compare equal. */
  lemma {:induction false} IgnoresAsciiCase(a: string, b: string)
    requires |a| == |b|
    requires forall i :: 0 <= i < |a| ==>
      a[i] == b[i] || (a[i] as int - b[i] as int == 32 && 'a' <= a[i] <= 'z')
      || (b[i] as int - a[i] as int == 32 && 'a' <= b[i] <= 'z')
    ensures EqualsIgnoreCase(a, b)
  {
    FoldAt(a);
    FoldAt(b);
    forall i | 0 <= i < |a| ensures Fold(a)[i] == Fold(b)[i] {
      assert Fold(a)[i] == UpperAscii(a[i]) && Fold(b)[i] == UpperAscii(b[i]);
    }
  }

  /** The character of a decimal digit. */
  function DigitChar(d: nat): (c: char)
    requires d < 10
    ensures '0' <= c <= '9' && c as int - '0' as int == d
  {
    ('0' as int + d) as char
  }

  /** The decimal digits of `n`, most significant first, with no leading zero. */
  function Digits(n: nat): (s: string)
    ensures |s| >= 1 && (|s| > 1 ==> s[0] != '0')
    ensures forall i :: 0 <= i < |s| ==> '0' <= s[i] <= '9'
  {
    if n < 10 then [DigitChar(n)] else Digits(n / 10) + [DigitChar(n % 10)]
  }

  /** `int.ToString()` in the invariant culture. */
  function IntToString(i: int): string {
    if i < 0 then "-" + Digits(-i) else Digits(i)
  }
}
