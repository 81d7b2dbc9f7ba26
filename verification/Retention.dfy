/** History retention and duration text: a decimal count with a unit suffix. */
module Retention {
  import opened Wrappers

  const MAX_INT64: int := 0x7fff_ffff_ffff_ffff
  const MAX_UINT64: int := 0xffff_ffff_ffff_ffff

  /** What a 64-bit signed and unsigned result keeps of a number. */
  function WrapInt64(x: int): int {
    (x + MAX_INT64 + 1) % (MAX_UINT64 + 1) - MAX_INT64 - 1
  }

  function WrapUint64(x: int): int {
    x % (MAX_UINT64 + 1)
  }

  /** A wrapped number is in range and congruent to the number. */
  lemma WrapsAround(x: int)
    ensures -0x8000_0000_0000_0000 <= WrapInt64(x) <= MAX_INT64 && (x - WrapInt64(x)) % 0x1_0000_0000_0000_0000 == 0
    ensures 0 <= WrapUint64(x) <= MAX_UINT64 && (x - WrapUint64(x)) % 0x1_0000_0000_0000_0000 == 0
  {
  }

  // ------------------------------------------------------------ decimals

  predicate IsDigit(c: char) {
    '0' <= c <= '9'
  }

  predicate AllDigits(s: string) {
    forall i :: 0 <= i < |s| ==> IsDigit(s[i])
  }

  function Decimal(n: nat): string {
    if n < 10 then ['0' + n as char] else Decimal(n / 10) + ['0' + (n % 10) as char]
  }

  function Value(s: string): nat
    requires AllDigits(s)
  {
    if s == "" then 0 else 10 * Value(s[..|s| - 1]) + (s[|s| - 1] - '0') as nat
  }

  lemma {:induction false} DecimalReadsBack(n: nat)
    ensures AllDigits(Decimal(n)) && Value(Decimal(n)) == n
    ensures Decimal(n) != "" && (Decimal(n)[0] == '0' <==> n == 0)
  {
    if n < 10 {
      assert Decimal(n)[..0] == "";
    } else {
      DecimalReadsBack(n / 10);
      var d := Decimal(n);
      assert d[..|d| - 1] == Decimal(n / 10);
    }
  }

  /** A digit string without a leading zero is the decimal of its value. */
  lemma {:induction false} ValueWritesBack(s: string)
    requires AllDigits(s) && s != "" && s[0] != '0'
    ensures Value(s) > 0 && Decimal(Value(s)) == s
  {
    var front, last := s[..|s| - 1], s[|s| - 1];
    assert s == front + [last] && IsDigit(last);
    if front == "" {
      assert Value(s) == (last - '0') as nat;
    } else {
      ValueWritesBack(front);
      DecimalAppends(Value(front), last);
    }
  }

  lemma DecimalAppends(n: nat, c: char)
    requires n > 0 && IsDigit(c)
    ensures Decimal(10 * n + (c - '0') as nat) == Decimal(n) + [c]
  {
  }

  /** How many leading characters are digits. */
  function Lead(s: string): (k: nat)
    ensures k <= |s| && AllDigits(s[..k]) && (k < |s| ==> !IsDigit(s[k]))
  {
    if s == "" || !IsDigit(s[0]) then 0
    else
      var k := 1 + Lead(s[1..]);
      assert s[..k] == [s[0]] + s[1..][..k - 1];
      k
  }

  lemma {:induction false} LeadOfSplit(digits: string, unit: string)
    requires AllDigits(digits) && unit != "" && !IsDigit(unit[0])
    ensures Lead(digits + unit) == |digits|
  {
    if digits != "" {
      LeadOfSplit(digits[1..], unit);
      assert (digits + unit)[1..] == digits[1..] + unit;
    }
  }

  // ----------------------------------------------------------- retention

  function Seconds(unit: string): Option<nat> {
    if unit == "s" then Some(1)
    else if unit == "m" then Some(60)
    else if unit == "h" then Some(3600)
    else if unit == "d" then Some(86400)
    else None
  }

  const RETENTION_ERROR := "history_retention must be a positive integer with s, m, h, or d (for example 30d), or never"

  function ParseHistoryRetention(value: string): Result<Option<int>, string> {
    if value == "never" then Success(None)
    else
      var k := Lead(value);
      var unit := Seconds(value[k..]);
      if k == 0 || value[0] == '0' || unit.None? then Failure(RETENTION_ERROR)
      else
        var n := Value(value[..k]);
        if n <= MAX_INT64 && n <= MAX_INT64 / unit.value then Success(Some(WrapInt64(n * unit.value)))
        else Failure(RETENTION_ERROR)
  }

  function FormatInt(n: int): string {
    if n < 0 then "-" + Decimal(-n) else Decimal(n)
  }

  function FormatHistoryRetention(seconds: Option<int>): string {
    if seconds.None? then "never"
    else if seconds.value % 86400 == 0 then FormatInt(seconds.value / 86400) + "d"
    else if seconds.value % 3600 == 0 then FormatInt(seconds.value / 3600) + "h"
    else if seconds.value % 60 == 0 then FormatInt(seconds.value / 60) + "m"
    else FormatInt(seconds.value) + "s"
  }

  /** The text is the decimal of `n` with `unit`. */
  predicate Spells(text: string, n: nat, unit: string) {
    n >= 1 && text == Decimal(n) + unit
  }

  lemma SpelledText(text: string, n: nat, unit: string)
    requires Spells(text, n, unit) && unit != "" && !IsDigit(unit[0])
    ensures var k := Lead(text); 0 < k <= |text| && text[0] != '0' && text[k..] == unit && Value(text[..k]) == n
    ensures text != "never"
  {
    DecimalReadsBack(n);
    LeadOfSplit(Decimal(n), unit);
    assert text[..|Decimal(n)|] == Decimal(n);
    assert text[0] == Decimal(n)[0] && IsDigit(text[0]);
  }

  lemma TextSpells(text: string, digits: string, unit: string)
    requires text == digits + unit && digits != "" && AllDigits(digits) && text[0] != '0'
    ensures Spells(text, Value(digits), unit)
  {
    ValueWritesBack(digits);
  }

  lemma {:induction false} MultiplyKeepsOrder(a: nat, b: nat, unit: nat)
    requires a <= b
    ensures a * unit <= b * unit
    decreases b
  {
    if a < b {
      MultiplyKeepsOrder(a, b - 1, unit);
      assert b * unit == (b - 1) * unit + unit;
    }
  }

  lemma DivisionBounds(n: nat, unit: nat, max: nat)
    requires unit > 0
    ensures n <= max / unit <==> n * unit <= max
    ensures n <= n * unit
  {
    var q := max / unit;
    Quotient(max, unit);
    if n <= q {
      MultiplyKeepsOrder(n, q, unit);
    } else {
      MultiplyKeepsOrder(q + 1, n, unit);
    }
    MultiplyKeepsOrder(1, unit, n);
  }

  lemma Quotient(max: nat, unit: nat)
    requires unit > 0
    ensures max / unit * unit <= max < (max / unit + 1) * unit
  {
  }

  lemma ProductFits(n: nat, unit: nat)
    requires unit > 0
    ensures n <= MAX_INT64 / unit <==> n * unit <= MAX_INT64
    ensures n * unit <= MAX_INT64 ==> n <= MAX_INT64 && WrapInt64(n * unit) == n * unit && WrapUint64(n * unit) == n * unit
  {
    DivisionBounds(n, unit, MAX_INT64);
    InRangeIsKept(n * unit);
  }

  lemma InRangeIsKept(x: nat)
    ensures x <= MAX_INT64 ==> WrapInt64(x) == x && WrapUint64(x) == x
  {
  }

  /** Parsing accepts exactly the positive counts whose seconds fit 64 bits, and
      gives those seconds without wrapping. */
  lemma RetentionIsExact(text: string, n: nat, unit: string)
    requires Spells(text, n, unit) && Seconds(unit).Some?
    ensures ParseHistoryRetention(text)
         == if n * Seconds(unit).value <= MAX_INT64 then Success(Some(n * Seconds(unit).value)) else Failure(RETENTION_ERROR)
  {
    SpelledText(text, n, unit);
    ProductFits(n, Seconds(unit).value);
  }

  lemma RetentionRefusesTheRest(text: string)
    requires ParseHistoryRetention(text).Success? && text != "never"
    ensures exists n: nat, unit :: Spells(text, n, unit) && Seconds(unit).Some? && n * Seconds(unit).value <= MAX_INT64
  {
    var k := Lead(text);
    assert text == text[..k] + text[k..];
    TextSpells(text, text[..k], text[k..]);
    ProductFits(Value(text[..k]), Seconds(text[k..]).value);
  }

  /** The unit divides the retention and no larger unit does. */
  ghost predicate LargestUnit(unit: string, seconds: int) {
    && Seconds(unit).Some? && seconds % Seconds(unit).value == 0
    && forall larger :: Seconds(larger).Some? && seconds % Seconds(larger).value == 0 ==> Seconds(larger).value <= Seconds(unit).value
  }

  /** The formatted unit is the largest that divides the retention. */
  lemma FormatUsesLargestUnit(seconds: int) returns (n: nat, unit: string)
    requires seconds >= 1
    ensures Spells(FormatHistoryRetention(Some(seconds)), n, unit)
    ensures Seconds(unit).Some? && n * Seconds(unit).value == seconds
    ensures LargestUnit(unit, seconds)
  {
    unit := if seconds % 86400 == 0 then "d" else if seconds % 3600 == 0 then "h" else if seconds % 60 == 0 then "m" else "s";
    n := seconds / Seconds(unit).value;
  }

  /** Every retention of at least a second, and never, reads back as itself; no
      other number of seconds does. */
  lemma RetentionRoundTrips(seconds: Option<int>)
    requires seconds.Some? ==> seconds.value <= MAX_INT64
    ensures ParseHistoryRetention(FormatHistoryRetention(seconds)) == Success(seconds)
            <==> (seconds.Some? ==> seconds.value >= 1)
  {
    if seconds.Some? && seconds.value >= 1 {
      var n, unit := FormatUsesLargestUnit(seconds.value);
      RetentionIsExact(FormatHistoryRetention(seconds), n, unit);
    } else if seconds.Some? {
      NonPositiveIsRefused(seconds.value);
    }
  }

  lemma NonPositiveIsRefused(seconds: int)
    requires seconds <= 0
    ensures ParseHistoryRetention(FormatHistoryRetention(Some(seconds))).Failure?
  {
    var text := FormatHistoryRetention(Some(seconds));
    if seconds == 0 {
      assert text[0] == '0';
    } else {
      assert text[0] == '-';
    }
  }

  lemma SpellingIsUnique(text: string, n: nat, unit: string, n': nat, unit': string)
    requires Spells(text, n, unit) && Spells(text, n', unit')
    requires Seconds(unit).Some? && Seconds(unit').Some?
    ensures n == n' && unit == unit'
  {
    SpelledText(text, n, unit);
    SpelledText(text, n', unit');
  }

  lemma LargestUnitIsUnique(unit: string, unit': string, seconds: int)
    requires LargestUnit(unit, seconds) && LargestUnit(unit', seconds)
    ensures unit == unit'
  {
  }

  /** Accepted text is written back as it was exactly when its unit is the
      largest that divides it. */
  lemma AcceptedTextIsCanonical(text: string, n: nat, unit: string, seconds: int)
    requires Spells(text, n, unit) && Seconds(unit).Some? && seconds == n * Seconds(unit).value <= MAX_INT64
    ensures ParseHistoryRetention(text) == Success(Some(seconds))
    ensures FormatHistoryRetention(Some(seconds)) == text <==> LargestUnit(unit, seconds)
  {
    RetentionIsExact(text, n, unit);
    DivisionBounds(n, Seconds(unit).value, MAX_INT64);
    WrittenBack(text, n, unit, seconds);
  }

  lemma WrittenBack(text: string, n: nat, unit: string, seconds: int)
    requires Spells(text, n, unit) && Seconds(unit).Some? && seconds == n * Seconds(unit).value && seconds >= 1
    ensures FormatHistoryRetention(Some(seconds)) == text <==> LargestUnit(unit, seconds)
  {
    var n', unit' := FormatUsesLargestUnit(seconds);
    if FormatHistoryRetention(Some(seconds)) == text {
      SpellingIsUnique(text, n, unit, n', unit');
    }
    if LargestUnit(unit, seconds) {
      LargestUnitIsUnique(unit, unit', seconds);
      SameProduct(n, n', Seconds(unit).value);
    }
  }

  lemma SameProduct(n: nat, m: nat, unit: nat)
    requires unit > 0 && n * unit == m * unit
    ensures n == m
  {
  }

  // ------------------------------------------------------------ durations

  function Milliseconds(unit: string): Option<nat> {
    if unit == "ms" then Some(1)
    else if unit == "s" then Some(1000)
    else if unit == "m" then Some(60 * 1000)
    else if unit == "h" then Some(60 * 60 * 1000)
    else if unit == "d" then Some(24 * 60 * 60 * 1000)
    else None
  }

  /** A duration unit is the thousandfold of the retention unit of its name; only
      the millisecond is a duration unit alone. */
  lemma UnitsAgree(unit: string)
    ensures Milliseconds(unit).Some? <==> unit == "ms" || Seconds(unit).Some?
    ensures Seconds(unit).Some? <==> unit in {"s", "m", "h", "d"}
    ensures Seconds(unit).Some? ==> Milliseconds(unit).value == 1000 * Seconds(unit).value
    ensures Milliseconds("ms") == Seconds("s") == Some(1) && Seconds("m") == Some(60)
    ensures Seconds("h").value == 60 * Seconds("m").value && Seconds("d").value == 24 * Seconds("h").value
  {
  }

  datatype DurationError = Malformed | Unsupported | OutOfBounds

  function ParseDurationMilliseconds(raw: string, min: int, max: int): Result<int, DurationError> {
    var k := Lead(raw);
    var unit := Milliseconds(raw[k..]);
    if k == 0 || raw[0] == '0' || unit.None? then Failure(Malformed)
    else
      var n := Value(raw[..k]);
      if n > MAX_UINT64 || n > MAX_INT64 / unit.value then Failure(Unsupported)
      else
        var milliseconds := WrapInt64(WrapUint64(n * unit.value));
        if milliseconds < min || milliseconds > max then Failure(OutOfBounds) else Success(milliseconds)
  }

  /** A well-formed duration is its exact number of milliseconds when that fits 64
      bits and lies within the bounds, and otherwise the matching error. */
  lemma DurationIsExact(raw: string, n: nat, unit: string, min: int, max: int)
    requires Spells(raw, n, unit) && Milliseconds(unit).Some?
    ensures var exact := n * Milliseconds(unit).value;
            ParseDurationMilliseconds(raw, min, max)
            == if exact > MAX_INT64 then Failure(Unsupported)
               else if min <= exact <= max then Success(exact)
               else Failure(OutOfBounds)
  {
    SpelledText(raw, n, unit);
    ProductFits(n, Milliseconds(unit).value);
  }

  lemma OtherDurationsAreMalformed(raw: string, min: int, max: int)
    ensures ParseDurationMilliseconds(raw, min, max) == Failure(Malformed)
            <==> !exists n: nat, unit :: Spells(raw, n, unit) && Milliseconds(unit).Some?
  {
    if ParseDurationMilliseconds(raw, min, max) != Failure(Malformed) {
      var k := Lead(raw);
      assert raw == raw[..k] + raw[k..];
      TextSpells(raw, raw[..k], raw[k..]);
    } else if n: nat, unit :| Spells(raw, n, unit) && Milliseconds(unit).Some? {
      DurationIsExact(raw, n, unit, min, max);
    }
  }
}
