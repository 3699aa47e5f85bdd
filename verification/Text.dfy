/** Text helpers shared by every component: optional values, the outcome of an
    operation that may reject its input, Go's `strings.TrimSpace`, Go's byte order
    on strings and the decimal formatting of counters. */
module Text {

  datatype Option<+T> = None | Some(value: T)

  /** A Go `(value, error)` pair; the wording of the error is not modelled. */
  datatype Outcome<+T> = Ok(value: T) | Rejected

  /** Go's `int` and `int64`: the greatest value, and the wrap-around of a result. */
  const MAX_INT: int := 0x7FFF_FFFF_FFFF_FFFF

  function Wrap(x: int): (r: int)
    ensures -MAX_INT - 1 <= r <= MAX_INT
    ensures -MAX_INT - 1 <= x <= MAX_INT ==> r == x
    ensures (x - r) % 0x1_0000_0000_0000_0000 == 0
  {
    (x + MAX_INT + 1) % 0x1_0000_0000_0000_0000 - MAX_INT - 1
  }

  function Min(a: int, b: int): int { if a <= b then a else b }

  function Pow2(n: nat): (p: nat)
    ensures p > 0
  {
    if n == 0 then 1 else 2 * Pow2(n - 1)
  }

  /** Instants are integers and 0 is Go's zero time. */
  type Time = int

  /** Go replaces a zero `now` by the current time. */
  function At(now: Time, clock: Time): Time { if now == 0 then clock else now }

  /** Go's `float64` as its 64 bits: sign, exponent, fraction. */
  type Float = bits: int | 0 <= bits < 0x1_0000_0000_0000_0000

  /** `f < 0`: not a zero and not a NaN, and the sign bit is set. */
  predicate IsNegative(f: Float) { 0x8000_0000_0000_0000 < f <= 0xFFF0_0000_0000_0000 }

  /** Neither an infinity nor a NaN. */
  predicate IsFinite(f: Float) { f % 0x8000_0000_0000_0000 < 0x7FF0_0000_0000_0000 }

  /** Both in terms of the three fields of the format: one sign bit, eleven of exponent, 52 of fraction. */
  lemma FloatFields(f: Float)
    ensures var sign, exponent, fraction :=
              f / 0x8000_0000_0000_0000, f / 0x10_0000_0000_0000 % 0x800, f % 0x10_0000_0000_0000;
            && (IsFinite(f) <==> exponent != 0x7FF)
            && (IsNegative(f) <==>
                 sign == 1 && !(exponent == 0 && fraction == 0) && !(exponent == 0x7FF && fraction != 0))
  {
    var sign, exponent, fraction := f / 0x8000_0000_0000_0000, f / 0x10_0000_0000_0000 % 0x800, f % 0x10_0000_0000_0000;
    assert f == sign * 0x8000_0000_0000_0000 + exponent * 0x10_0000_0000_0000 + fraction;
  }

  type Byte = b: int | 0 <= b < 256
  type Bytes = seq<Byte>

  /** The characters `strings.TrimSpace` removes (Unicode White_Space). */
  predicate IsSpace(c: char) {
    || '\t' <= c <= '\r' || c == ' ' || c == '\U{85}' || c == '\U{A0}'
    || c == '\U{1680}' || '\U{2000}' <= c <= '\U{200A}' || c == '\U{2028}' || c == '\U{2029}'
    || c == '\U{202F}' || c == '\U{205F}' || c == '\U{3000}'
  }

  function TrimLeft(s: string): (r: string) {
    if s == "" || !IsSpace(s[0]) then s else TrimLeft(s[1..])
  }

  function TrimRight(s: string): (r: string) {
    if s == "" || !IsSpace(s[|s| - 1]) then s else TrimRight(s[..|s| - 1])
  }

  function Trim(s: string): (r: string) {
    TrimRight(TrimLeft(s))
  }

  predicate IsTrimmed(s: string) {
    s == "" || (!IsSpace(s[0]) && !IsSpace(s[|s| - 1]))
  }

  lemma {:induction false} TrimLeftEdge(s: string)
    ensures TrimLeft(s) == "" || !IsSpace(TrimLeft(s)[0])
  {
    if s != "" && IsSpace(s[0]) { TrimLeftEdge(s[1..]); }
  }

  lemma {:induction false} TrimRightEdge(s: string)
    ensures TrimRight(s) <= s
    ensures TrimRight(s) == "" || !IsSpace(TrimRight(s)[|TrimRight(s)| - 1])
  {
    if s != "" && IsSpace(s[|s| - 1]) { TrimRightEdge(s[..|s| - 1]); }
  }

  lemma TrimIsTrimmed(s: string)
    ensures IsTrimmed(Trim(s))
  {
    TrimLeftEdge(s);
    TrimRightEdge(TrimLeft(s));
  }

  lemma TrimFixesExactlyTrimmed(s: string)
    ensures Trim(s) == s <==> IsTrimmed(s)
  {
    TrimIsTrimmed(s);
  }

  lemma TrimIdempotent(s: string)
    ensures Trim(Trim(s)) == Trim(s)
  {
    TrimIsTrimmed(s);
    TrimFixesExactlyTrimmed(Trim(s));
  }

  predicate AllSpace(s: string) { forall i :: 0 <= i < |s| ==> IsSpace(s[i]) }

  /** Trimming removes blanks at the two ends and nothing else. */
  lemma {:induction false} TrimRemovesOnlyBlanks(s: string) returns (left: string, right: string)
    ensures s == left + Trim(s) + right && AllSpace(left) && AllSpace(right)
  {
    left := TrimLeftDrops(s);
    right := TrimRightDrops(TrimLeft(s));
  }

  lemma {:induction false} TrimLeftDrops(s: string) returns (left: string)
    ensures s == left + TrimLeft(s) && AllSpace(left)
  {
    left := "";
    if s != "" && IsSpace(s[0]) {
      var rest := TrimLeftDrops(s[1..]);
      left := [s[0]] + rest;
      assert s == [s[0]] + s[1..];
    }
  }

  lemma {:induction false} TrimRightDrops(s: string) returns (right: string)
    ensures s == TrimRight(s) + right && AllSpace(right)
  {
    right := "";
    if s != "" && IsSpace(s[|s| - 1]) {
      var rest := TrimRightDrops(s[..|s| - 1]);
      right := rest + [s[|s| - 1]];
      assert s == s[..|s| - 1] + [s[|s| - 1]];
    }
  }

  /** A trimming function: idempotent, and the empty string is trimmed. The components are
      proved for every such function; `strings.TrimSpace` is one of them. */
  type Trimmer = f: string -> string | (forall s :: f(f(s)) == f(s)) && f("") == ""
    witness (s: string) => s

  /** Go's `strings.TrimSpace` is such a function, and fixes exactly the strings without blank edges. */
  lemma TrimLaws()
    ensures (forall s :: Trim(Trim(s)) == Trim(s)) && Trim("") == ""
    ensures forall s :: Trim(s) == s <==> IsTrimmed(s)
  {
    forall s ensures Trim(Trim(s)) == Trim(s) { TrimIdempotent(s); }
    forall s ensures Trim(s) == s <==> IsTrimmed(s) { TrimFixesExactlyTrimmed(s); }
  }

  /** Go's `a < b` on strings. */
  predicate StrLess(a: string, b: string) {
    if b == "" then false
    else if a == "" then true
    else a[0] < b[0] || (a[0] == b[0] && StrLess(a[1..], b[1..]))
  }

  /** Where two texts first differ decides, and a prefix comes before what it begins. */
  ghost predicate FirstDiffer(a: string, b: string, i: int) {
    0 <= i <= |a| && i < |b| && a[..i] == b[..i] && (i == |a| || a[i] < b[i])
  }

  lemma {:induction false} StrLessIsLexicographic(a: string, b: string)
    ensures StrLess(a, b) <==> exists i :: FirstDiffer(a, b, i)
  {
    if a != "" && b != "" && a[0] == b[0] {
      StrLessIsLexicographic(a[1..], b[1..]);
      if i :| FirstDiffer(a[1..], b[1..], i) {
        assert a[..i + 1] == [a[0]] + a[1..][..i] && b[..i + 1] == [b[0]] + b[1..][..i];
        assert FirstDiffer(a, b, i + 1);
      }
      if i :| FirstDiffer(a, b, i) {
        assert i > 0;
        assert a[1..][..i - 1] == a[..i][1..] && b[1..][..i - 1] == b[..i][1..];
        assert FirstDiffer(a[1..], b[1..], i - 1);
      }
    } else if b != "" && (a == "" || a[0] < b[0]) {
      assert FirstDiffer(a, b, 0);
    } else {
      assert forall i :: FirstDiffer(a, b, i) && i > 0 ==> a[..i][0] == a[0] && b[..i][0] == b[0];
    }
  }

  lemma StrLessTransitive(a: string, b: string, c: string)
    requires StrLess(a, b) && StrLess(b, c)
    ensures StrLess(a, c)
  {
  }

  lemma StrLessIrreflexive(a: string)
    ensures !StrLess(a, a)
  {
  }

  lemma {:induction false} StrLessTotal(a: string, b: string)
    ensures StrLess(a, b) || a == b || StrLess(b, a)
  {
    if a != "" && b != "" && a[0] == b[0] {
      StrLessTotal(a[1..], b[1..]);
      assert a[1..] == b[1..] ==> a == b by {
        assert a == [a[0]] + a[1..] && b == [b[0]] + b[1..];
      }
    }
  }

  lemma StrOrder()
    ensures forall a :: !StrLess(a, a)
    ensures forall a, b, c :: StrLess(a, b) && StrLess(b, c) ==> StrLess(a, c)
    ensures forall a, b :: StrLess(a, b) || a == b || StrLess(b, a)
  {
    forall a ensures !StrLess(a, a) { StrLessIrreflexive(a); }
    forall a, b, c | StrLess(a, b) && StrLess(b, c) ensures StrLess(a, c) { StrLessTransitive(a, b, c); }
    forall a, b ensures StrLess(a, b) || a == b || StrLess(b, a) { StrLessTotal(a, b); }
  }

  function Digit(d: nat): (c: char)
    requires d < 10
    ensures '0' <= c <= '9'
  {
    '0' + d as char
  }

  /** `strconv.FormatUint(n, 10)`. */
  function Decimal(n: nat): (s: string)
    ensures |s| > 0
    ensures forall i :: 0 <= i < |s| ==> '0' <= s[i] <= '9'
    ensures n > 0 ==> s[0] != '0'
    ensures n < 10 ==> |s| == 1
  {
    if n < 10 then [Digit(n)] else Decimal(n / 10) + [Digit(n % 10)]
  }

  /** Reads the digits back, most significant first; leading zeros are harmless. */
  function DecimalValue(s: string): (n: nat)
    requires forall i :: 0 <= i < |s| ==> '0' <= s[i] <= '9'
  {
    if s == "" then 0 else 10 * DecimalValue(s[..|s| - 1]) + (s[|s| - 1] - '0') as nat
  }

  lemma {:induction false} DecimalRoundTrip(n: nat)
    ensures DecimalValue(Decimal(n)) == n
  {
    if n >= 10 {
      DecimalRoundTrip(n / 10);
      var s := Decimal(n);
      assert s[..|s| - 1] == Decimal(n / 10);
      assert s[|s| - 1] == Digit(n % 10);
    } else {
      var s := Decimal(n);
      assert s[..|s| - 1] == "";
    }
  }

  /** `%0*d` for a non-negative number. */
  function Padded(n: nat, width: nat): (s: string)
    ensures |s| == (if |Decimal(n)| < width then width else |Decimal(n)|) && |s| > 0
    ensures forall i :: 0 <= i < |s| ==> '0' <= s[i] <= '9'
  {
    var d := Decimal(n);
    seq(if |d| < width then width - |d| else 0, _ => '0') + d
  }

  lemma {:induction false} LeadingZerosKeepValue(zeros: string, d: string)
    requires forall i :: 0 <= i < |zeros| ==> zeros[i] == '0'
    requires forall i :: 0 <= i < |d| ==> '0' <= d[i] <= '9'
    ensures DecimalValue(zeros + d) == DecimalValue(d)
    decreases |zeros| + |d|
  {
    var s := zeros + d;
    if d != "" {
      assert s[..|s| - 1] == zeros + d[..|d| - 1];
      LeadingZerosKeepValue(zeros, d[..|d| - 1]);
    } else if zeros != "" {
      assert s[..|s| - 1] == zeros[..|zeros| - 1] + "";
      LeadingZerosKeepValue(zeros[..|zeros| - 1], "");
    }
  }

  lemma PaddedRoundTrip(n: nat, width: nat)
    ensures DecimalValue(Padded(n, width)) == n
  {
    var d := Decimal(n);
    var zeros := seq(if |d| < width then width - |d| else 0, _ => '0');
    LeadingZerosKeepValue(zeros, d);
    DecimalRoundTrip(n);
  }
}
