/** Go's number conversions and the duration texts exchanged with Cluster Service. */
module GoValues {
  import opened Options
  import opened Text

  const MINUTES := "minutes"

  newtype int32 = n: int | -0x8000_0000 <= n < 0x8000_0000

  /** Go's conversion of a 64-bit integer to int32 keeps the low 32 bits. */
  function ToInt32(n: int): (r: int32) {
    var low := n % 0x1_0000_0000;
    (if low < 0x8000_0000 then low else low - 0x1_0000_0000) as int32
  }

  /** A drain grace period whose conversion to int32 the Go language defines. */
  type Amount = r: real | -2147483649.0 < r < 2147483648.0

  /** Go's float-to-integer conversion drops the fraction. */
  function Truncate(r: Amount): (n: int32)
    ensures 0.0 <= r ==> n as real <= r < n as real + 1.0
    ensures r <= 0.0 ==> n as real - 1.0 < r <= n as real
  {
    if r >= 0.0 then r.Floor as int32
    else
      var magnitude: real := 0.0 - r;
      (0 - magnitude.Floor) as int32
  }

  /** Neither conversion changes a value that came from an int32. */
  lemma ConversionsFixInt32(n: int32)
    ensures ToInt32(n as int) == n
    ensures Truncate(n as real) == n
  {
  }

  /** A drain grace period: a number with a unit. */
  datatype Value = Value(unit: Option<string>, amount: Amount)

  // ---------- time.ParseDuration ----------

  /** Nanoseconds of a unit, for the units the parser knows. */
  function UnitNanos(unit: string): Option<int> {
    if unit == "ns" then Some(1)
    else if unit == "us" || unit == "\U{00B5}s" || unit == "\U{03BC}s" then Some(1_000)
    else if unit == "ms" then Some(1_000_000)
    else if unit == "s" then Some(1_000_000_000)
    else if unit == "m" then Some(60_000_000_000)
    else if unit == "h" then Some(3600_000_000_000)
    else None
  }

  /** A unit runs up to the next digit or dot. */
  function UnitRun(s: string): (n: nat)
    ensures n <= |s|
    ensures n < |s| ==> s[n] == '.' || IsDigit(s[n])
  {
    if s == [] || s[0] == '.' || IsDigit(s[0]) then 0 else 1 + UnitRun(s[1..])
  }

  function Power10(k: nat): (p: nat)
    ensures p > 0
  {
    if k == 0 then 1 else 10 * Power10(k - 1)
  }

  lemma {:induction false} DigitRunDigits(s: string)
    ensures forall i :: 0 <= i < DigitRun(s) ==> IsDigit(s[i])
    ensures NoDigitFirst(s[DigitRun(s)..])
  {
    if s != [] && IsDigit(s[0]) {
      DigitRunDigits(s[1..]);
      assert s[DigitRun(s)..] == s[1..][DigitRun(s[1..])..];
      forall i | 0 <= i < DigitRun(s) ensures IsDigit(s[i]) {
        if i > 0 { assert s[i] == s[1..][i - 1]; }
      }
    }
  }

  function LeadingNat(s: string): nat {
    DigitRunDigits(s);
    ParseNat(s[..DigitRun(s)])
  }

  predicate Dotted(s: string) { DigitRun(s) < |s| && s[DigitRun(s)] == '.' }

  /** How many characters the number at the start of a segment takes: digits, a dot, digits. */
  function NumberRun(s: string): (n: nat)
    ensures n <= |s|
  {
    var whole := DigitRun(s);
    if Dotted(s) then whole + 1 + DigitRun(s[whole + 1..]) else whole
  }

  predicate HasDigits(s: string) {
    NumberRun(s) > (if Dotted(s) then 1 else 0)
  }

  /** The number at the start of a segment, in units of `nanos`, the fraction rounded down. */
  function NumberNanos(s: string, nanos: int): int {
    var whole := LeadingNat(s) * nanos;
    if Dotted(s) then
      var decimals := s[DigitRun(s) + 1..];
      whole + LeadingNat(decimals) * nanos / Power10(DigitRun(decimals))
    else whole
  }

  /** The `number unit` segments of a duration, in nanoseconds. */
  function SegmentNanos(s: string): Option<int>
    decreases |s|
  {
    if s == [] then Some(0) else
      var s2 := s[NumberRun(s)..];
      var unit := UnitRun(s2);
      if !HasDigits(s) || unit == 0 || UnitNanos(s2[..unit]).None? then None else
        var rest := SegmentNanos(s2[unit..]);
        if rest.None? then None else Some(NumberNanos(s, UnitNanos(s2[..unit]).value) + rest.value)
  }

  function Unsigned(s: string): string {
    if s != [] && (s[0] == '-' || s[0] == '+') then s[1..] else s
  }

  function Negated(negative: bool, nanos: Option<int>): Option<int> {
    if nanos.None? then None else Some(if negative then 0 - nanos.value else nanos.value)
  }

  function ParseDuration(s: string): Option<int> {
    var body := Unsigned(s);
    if body == "0" then Some(0)
    else if body == [] then None
    else Negated(s[0] == '-', SegmentNanos(body))
  }

  /** Whole seconds of a duration as int32, dropping the fraction of a second. */
  function DurationSeconds(nanos: int): int32 {
    ToInt32(if nanos < 0 then 0 - (0 - nanos) / 1_000_000_000 else nanos / 1_000_000_000)
  }

  // ---------- fmt.Sprint of a number of minutes ----------

  function StripZeros(s: string): (r: string)
    ensures |r| <= |s| && forall i :: 0 <= i < |r| ==> r[i] == s[i]
  {
    if s != [] && s[|s| - 1] == '0' then StripZeros(s[..|s| - 1]) else s
  }

  /** Shortest exponent notation of a float64 that is a whole number of at least a million. */
  function Scientific(n: nat): string {
    var digits := NatText(n);
    var mantissa := StripZeros(digits[1..]);
    var exponent := NatText(|digits| - 1);
    [digits[0]] +
    ((if mantissa == [] then [] else ['.'] + mantissa) +
     ("e+" + (if |exponent| == 1 then ['0'] + exponent else exponent)))
  }

  /** `fmt.Sprint(minutes, "m")`: whole minutes print as an integer below a million and in exponent
      notation from there on. `fraction` gives the text of every other number of seconds. */
  function MinutesText(fraction: int32 -> string, seconds: int32): string {
    if seconds as int % 60 != 0 then fraction(seconds) else
      var minutes := seconds as int / 60;
      (if Abs(minutes) < 1_000_000 then IntText(minutes)
       else (if minutes < 0 then "-" else "") + Scientific(Abs(minutes))) + "m"
  }

  lemma MinuteSegment(n: nat)
    ensures SegmentNanos(NatText(n) + "m") == Some(n * 60_000_000_000)
  {
    var s := NatText(n) + "m";
    DigitRunOfText(NatText(n), "m");
    assert s[..|NatText(n)|] == NatText(n) && s[|NatText(n)|..] == "m";
    ParseNatText(n);
    assert UnitRun("m") == 1 && "m"[..1] == "m" && "m"[1..] == [];
    assert SegmentNanos([]) == Some(0);
  }

  lemma ExponentUnit(x: string)
    requires x != [] && IsDigit(x[0])
    ensures var e := ['e', '+'] + x; UnitRun(e) == 2 && UnitNanos(e[..2]) == None
  {
    var e := ['e', '+'] + x;
    assert e[1..] == ['+'] + x && (['+'] + x)[1..] == x;
    assert UnitRun(x) == 0;
    assert UnitRun(['+'] + x) == 1;
    assert e[..2][0] == 'e';
  }

  lemma UnknownUnit(s: string, unit: nat)
    requires s != [] && unit == UnitRun(s[NumberRun(s)..]) && UnitNanos(s[NumberRun(s)..][..unit]) == None
    ensures SegmentNanos(s) == None
  {
  }

  /** The number before the exponent: one digit, and the other digits of the mantissa behind a dot. */
  lemma MantissaRun(d: char, mantissa: string, e: string)
    requires IsDigit(d) && (forall i :: 0 <= i < |mantissa| ==> IsDigit(mantissa[i]))
    requires e != [] && !IsDigit(e[0]) && e[0] != '.'
    ensures var number := [d] + (if mantissa == [] then [] else ['.'] + mantissa);
            NumberRun(number + e) == |number| && (number + e)[|number|..] == e
  {
    var number := [d] + (if mantissa == [] then [] else ['.'] + mantissa);
    var s := number + e;
    assert s == [d] + s[1..];
    DigitRunOfText([d], s[1..]);
    if mantissa != [] {
      assert s[2..] == mantissa + e;
      DigitRunOfText(mantissa, e);
    }
  }

  /** The parser takes the letter of the exponent for a unit it does not know. */
  lemma ScientificSegment(n: nat, tail: string)
    ensures SegmentNanos(Scientific(n) + tail) == None
  {
    var digits := NatText(n);
    var mantissa := StripZeros(digits[1..]);
    var exponent := NatText(|digits| - 1);
    var x := (if |exponent| == 1 then ['0'] + exponent else exponent) + tail;
    var e := ['e', '+'] + x;
    var number := [digits[0]] + (if mantissa == [] then [] else ['.'] + mantissa);
    assert Scientific(n) + tail == number + e;
    MantissaRun(digits[0], mantissa, e);
    ExponentUnit(x);
    UnknownUnit(number + e, 2);
  }

  lemma MinutesTextShape(fraction: int32 -> string, seconds: int32)
    requires seconds as int % 60 == 0
    ensures var minutes := seconds as int / 60;
            var body := (if Abs(minutes) < 1_000_000 then NatText(Abs(minutes)) else Scientific(Abs(minutes))) + "m";
            && MinutesText(fraction, seconds) == (if minutes < 0 then "-" else "") + body
            && IsDigit(body[0]) && body[|body| - 1] == 'm'
  {
    var minutes := seconds as int / 60;
    if minutes < 0 && Abs(minutes) < 1_000_000 {
      assert IntText(minutes) == "-" + NatText(Abs(minutes));
    }
  }

  lemma ParseSigned(negative: bool, body: string)
    requires body != [] && IsDigit(body[0]) && body[|body| - 1] == 'm'
    ensures ParseDuration((if negative then "-" else "") + body) == Negated(negative, SegmentNanos(body))
  {
    var s := (if negative then "-" else "") + body;
    assert Unsigned(s) == body;
    assert s[0] == '-' <==> negative;
  }

  lemma SecondsOfMinutes(seconds: int32, minutes: int)
    requires seconds as int == 60 * minutes
    ensures DurationSeconds(minutes * 60_000_000_000) == seconds
  {
    ConversionsFixInt32(seconds);
    assert Abs(minutes) * 60_000_000_000 / 1_000_000_000 == Abs(minutes) * 60;
  }

  lemma FewMinutesParse(fraction: int32 -> string, seconds: int32)
    requires seconds as int % 60 == 0 && Abs(seconds as int / 60) < 1_000_000
    ensures ParseDuration(MinutesText(fraction, seconds)) == Some(seconds as int / 60 * 60_000_000_000)
  {
    var minutes := seconds as int / 60;
    MinutesTextShape(fraction, seconds);
    ParseSigned(minutes < 0, NatText(Abs(minutes)) + "m");
    MinuteSegment(Abs(minutes));
  }

  lemma ManyMinutesDoNotParse(fraction: int32 -> string, seconds: int32)
    requires seconds as int % 60 == 0 && Abs(seconds as int / 60) >= 1_000_000
    ensures ParseDuration(MinutesText(fraction, seconds)) == None
  {
    var minutes := seconds as int / 60;
    MinutesTextShape(fraction, seconds);
    ParseSigned(minutes < 0, Scientific(Abs(minutes)) + "m");
    ScientificSegment(Abs(minutes), "m");
  }

  function SecondsFromText(text: string): Option<int32> {
    var parsed := ParseDuration(text);
    if parsed.None? then None else Some(DurationSeconds(parsed.value))
  }

  /** Whole minutes survive formatting and parsing exactly when there are fewer than a million of
      them; from a million on the text does not parse at all. */
  lemma WholeMinutesRoundTrip(fraction: int32 -> string, seconds: int32)
    requires seconds as int % 60 == 0
    ensures SecondsFromText(MinutesText(fraction, seconds)) ==
            if Abs(seconds as int / 60) < 1_000_000 then Some(seconds) else None
  {
    if Abs(seconds as int / 60) < 1_000_000 {
      FewMinutesParse(fraction, seconds);
      SecondsOfMinutes(seconds, seconds as int / 60);
    } else {
      ManyMinutesDoNotParse(fraction, seconds);
    }
  }
}
