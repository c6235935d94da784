/**
 * Values that the marshalling layer receives from the Rust crates it uses
 * (`uuid`, `chrono`, `std::net`) and the fixed-width integers of the protocol.
 * Only what the marshalling layer observes of them is modelled: the `simple`
 * text form of a UUID, chrono's `%Y-%m-%d` rendering of a date and the
 * truncating unit conversions of a chrono `Duration`.
 */
module Primitives {
  import opened Wrappers

  type Byte = x: int | 0 <= x < 0x100

  const MinI64: int := -0x8000_0000_0000_0000
  const MaxI64: int := 0x7FFF_FFFF_FFFF_FFFF

  type Int8 = x: int | -0x80 <= x < 0x80
  type Int16 = x: int | -0x8000 <= x < 0x8000
  type Int32 = x: int | -0x8000_0000 <= x < 0x8000_0000
  type Int64 = x: int | MinI64 <= x <= MaxI64

  predicate InI64(x: int) { MinI64 <= x <= MaxI64 }

  /** An `f64` payload, carried as its bit pattern; no float arithmetic is modelled. */
  datatype Float64 = Float64(bits: bv64)
  /** An `f32` payload, carried as its bit pattern. */
  datatype Float32 = Float32(bits: bv32)

  /** A `std::net::IpAddr`, carried opaquely. */
  datatype IpAddr = V4(octets: seq<Byte>) | V6(octets: seq<Byte>)

  // ---------------------------------------------------------------------------
  // UUIDs and their "simple" text form (32 lower-case hex digits, no hyphens)

  /** A `uuid::Uuid`: sixteen bytes, most significant first. */
  type Uuid = s: seq<Byte> | |s| == 16 witness [0, 0, 0, 0, 0, 0, 0, 0, 0, 0, 0, 0, 0, 0, 0, 0]

  predicate IsLowerHex(c: char) { '0' <= c <= '9' || 'a' <= c <= 'f' }

  function HexDigit(n: nat): (c: char)
    requires n < 16
    ensures IsLowerHex(c)
  {
    if n < 10 then ('0' as int + n) as char else ('a' as int + n - 10) as char
  }

  function HexValue(c: char): (n: nat)
    requires IsLowerHex(c)
    ensures n < 16 && HexDigit(n) == c
  {
    if c <= '9' then c as int - '0' as int else c as int - 'a' as int + 10
  }

  /** Two hex digits per byte, high nibble first. */
  function Hex(bytes: seq<Byte>): (r: string)
    ensures |r| == 2 * |bytes|
    ensures forall i :: 0 <= i < |r| ==> IsLowerHex(r[i])
  {
    if bytes == [] then [] else [HexDigit(bytes[0] / 16), HexDigit(bytes[0] % 16)] + Hex(bytes[1..])
  }

  /** `Uuid::simple().to_string()` (also `as_simple()`): the UUID as 32 lower-case hex digits. */
  function Simple(u: Uuid): (r: string)
  {
    Hex(u)
  }

  /** Reads back a string of hex digit pairs; the partner of `Hex`. */
  function UnHex(s: string): (r: Option<seq<Byte>>)
    decreases |s|
  {
    if s == [] then Some([])
    else if |s| < 2 || !IsLowerHex(s[0]) || !IsLowerHex(s[1]) then None
    else
      var rest :- UnHex(s[2..]);
      Some([HexValue(s[0]) * 16 + HexValue(s[1])] + rest)
  }

  lemma {:induction false} UnHexHex(bytes: seq<Byte>)
    ensures UnHex(Hex(bytes)) == Some(bytes)
  {
    if bytes != [] {
      var s := Hex(bytes);
      var b := bytes[0];
      assert s[2..] == Hex(bytes[1..]);
      UnHexHex(bytes[1..]);
      assert HexValue(s[0]) == b / 16 && HexValue(s[1]) == b % 16;
      assert [b] + bytes[1..] == bytes;
    }
  }

  /** The simple form is 32 lower-case hex digits from which the UUID can be read back. */
  lemma SimpleForm(u: Uuid)
    ensures |Simple(u)| == 32
    ensures forall i :: 0 <= i < 32 ==> IsLowerHex(Simple(u)[i])
    ensures UnHex(Simple(u)) == Some(u)
  {
    UnHexHex(u);
  }

  /** Distinct UUIDs have distinct simple forms. */
  lemma SimpleInjective(u: Uuid, v: Uuid)
    requires Simple(u) == Simple(v)
    ensures u == v
  {
    SimpleForm(u);
    SimpleForm(v);
  }

  // ---------------------------------------------------------------------------
  // Decimal digits

  function Pow10(n: nat): (r: nat)
    ensures r >= 1
  {
    if n == 0 then 1 else 10 * Pow10(n - 1)
  }

  predicate IsDigit(c: char) { '0' <= c <= '9' }

  function DigitChar(n: nat): (c: char)
    requires n < 10
    ensures IsDigit(c)
  {
    ('0' as int + n) as char
  }

  /** The last `width` decimal digits of `n`, zero-padded on the left. */
  function Padded(n: nat, width: nat): (r: string)
    ensures |r| == width
    ensures forall i :: 0 <= i < |r| ==> IsDigit(r[i])
  {
    if width == 0 then [] else Padded(n / 10, width - 1) + [DigitChar(n % 10)]
  }

  /** The number a string of decimal digits denotes; the partner of `Padded`. */
  function DigitsValue(s: string): (n: nat)
    requires forall i :: 0 <= i < |s| ==> IsDigit(s[i])
  {
    if s == [] then 0
    else
      assert IsDigit(s[|s| - 1]);
      10 * DigitsValue(s[..|s| - 1]) + (s[|s| - 1] as int - '0' as int)
  }

  lemma {:induction false} PaddedValue(n: nat, width: nat)
    requires n < Pow10(width)
    ensures DigitsValue(Padded(n, width)) == n
  {
    if width > 0 {
      var s := Padded(n, width);
      assert s[..|s| - 1] == Padded(n / 10, width - 1);
      PaddedValue(n / 10, width - 1);
    }
  }

  /** Number of decimal digits of `n` (at least one). */
  function DigitCount(n: nat): (k: nat)
    ensures k >= 1 && n < Pow10(k)
  {
    if n < 10 then 1 else 1 + DigitCount(n / 10)
  }

  // ---------------------------------------------------------------------------
  // chrono::NaiveDate and its "%Y-%m-%d" rendering

  const MinChronoYear: int := -262144
  const MaxChronoYear: int := 262143

  predicate IsLeapYear(y: int) { (y % 4 == 0 && y % 100 != 0) || y % 400 == 0 }

  function DaysInMonth(y: int, m: int): int
    requires 1 <= m <= 12
  {
    if m == 2 then (if IsLeapYear(y) then 29 else 28)
    else if m == 4 || m == 6 || m == 9 || m == 11 then 30
    else 31
  }

  datatype CivilDate = CivilDate(year: int, month: int, day: int)

  predicate ValidDate(d: CivilDate) {
    && MinChronoYear <= d.year <= MaxChronoYear
    && 1 <= d.month <= 12
    && 1 <= d.day <= DaysInMonth(d.year, d.month)
  }

  /** A `chrono::NaiveDate`: a valid proleptic Gregorian date in chrono's year range. */
  type NaiveDate = d: CivilDate | ValidDate(d) witness CivilDate(1970, 1, 1)

  /**
   * chrono's `%Y`: years 0 to 9999 as four zero-padded digits; other years
   * carry an explicit sign and at least four digits.
   */
  function FormatYear(y: int): (r: string)
  {
    if 0 <= y <= 9999 then Padded(y, 4)
    else if y > 9999 then "+" + Padded(y, DigitCount(y))
    else "-" + Padded(-y, if -y < 10000 then 4 else DigitCount(-y))
  }

  /** `NaiveDate::format("%Y-%m-%d").to_string()`. */
  function FormatDate(d: NaiveDate): (r: string)
  {
    FormatYear(d.year) + "-" + Padded(d.month, 2) + "-" + Padded(d.day, 2)
  }

  /** The `full-date` production of section 5.6 of RFC 3339: `YYYY-MM-DD` with decimal digits. */
  predicate IsFullDate(s: string) {
    && |s| == 10
    && s[4] == '-' && s[7] == '-'
    && forall i :: 0 <= i < 10 && i != 4 && i != 7 ==> IsDigit(s[i])
  }

  /** Reads a `full-date` string back into its year, month and day numbers. */
  function ParseFullDate(s: string): (r: Option<CivilDate>)
    ensures r.Some? <==> IsFullDate(s)
  {
    if IsFullDate(s) then
      Some(CivilDate(DigitsValue(s[..4]), DigitsValue(s[5..7]), DigitsValue(s[8..])))
    else None
  }

  /** For years 0 to 9999 the rendering is an RFC 3339 full-date that reads back as the same date. */
  lemma FormatDateRoundTrip(d: NaiveDate)
    requires 0 <= d.year <= 9999
    ensures IsFullDate(FormatDate(d))
    ensures ParseFullDate(FormatDate(d)) == Some(d)
  {
    var y, m, dd := Padded(d.year, 4), Padded(d.month, 2), Padded(d.day, 2);
    var s := FormatDate(d);
    assert s == y + "-" + m + "-" + dd;
    assert s[..4] == y && s[5..7] == m && s[8..] == dd;
    PaddedValue(d.year, 4);
    PaddedValue(d.month, 2);
    PaddedValue(d.day, 2);
  }

  /** Outside 0 to 9999 the year carries a sign, so the text is not a full-date. */
  lemma FormatDateSignedYear(d: NaiveDate)
    requires d.year < 0 || d.year > 9999
    ensures FormatDate(d)[0] == (if d.year < 0 then '-' else '+')
    ensures !IsFullDate(FormatDate(d))
  {
    var s := FormatDate(d);
    var y := FormatYear(d.year);
    assert s[0] == y[0];
  }

  // ---------------------------------------------------------------------------
  // chrono::Duration, as whole nanoseconds

  /** chrono's limit: a `Duration` spans at most `i64::MAX` milliseconds either way. */
  const MaxDurationNanos: int := MaxI64 * 1_000_000

  type ChronoDuration = n: int | -MaxDurationNanos <= n <= MaxDurationNanos

  lemma DivBounds(m: nat, d: nat)
    requires d > 0
    ensures 0 <= (m / d) * d <= m < (m / d + 1) * d
  {
    assert m == (m / d) * d + m % d;
    assert (m / d + 1) * d == (m / d) * d + d;
  }

  /** Integer division rounding toward zero, as Rust's `/` on integers. */
  function DivTrunc(n: int, d: nat): (q: int)
    requires d > 0
    ensures n >= 0 ==> 0 <= q * d <= n < (q + 1) * d
    ensures n < 0 ==> (q - 1) * d < n <= q * d <= 0
  {
    if n >= 0 then
      DivBounds(n, d); n / d
    else
      var m := -n;
      DivBounds(m, d);
      assert -(m / d) * d == -((m / d) * d);
      assert (-(m / d) - 1) * d == -((m / d + 1) * d);
      -(m / d)
  }

  /** `Duration::num_microseconds()`: the duration truncated to whole microseconds, `None` past `i64`. */
  function NumMicroseconds(d: ChronoDuration): (r: Option<Int64>)
    ensures r.None? <==> d >= (MaxI64 + 1) * 1000 || d <= (MinI64 - 1) * 1000
    ensures r.Some? && d >= 0 ==> 0 <= r.value * 1000 <= d < (r.value + 1) * 1000
    ensures r.Some? && d < 0 ==> (r.value - 1) * 1000 < d <= r.value * 1000 <= 0
  {
    var us := DivTrunc(d, 1000);
    if InI64(us) then Some(us) else None
  }

  /** `Duration::num_milliseconds()`: the duration truncated to whole milliseconds; always fits `i64`. */
  function NumMilliseconds(d: ChronoDuration): (r: Int64)
    ensures d >= 0 ==> 0 <= r * 1_000_000 <= d < (r + 1) * 1_000_000
    ensures d < 0 ==> (r - 1) * 1_000_000 < d <= r * 1_000_000 <= 0
  {
    DivTrunc(d, 1_000_000)
  }
}
