/** The timestamp converter page: text is read as a number, its unit
    (seconds or milliseconds) guessed from its digit count, and both forms
    shown. The host's `Number(text)` is a parameter; the date formatting is
    not modelled. */
module TimestampConvert {
  import opened Outcomes
  import opened JsNumbers
  import opened Strings

  datatype TimeUnit = Seconds | Millis

  datatype Parsed = Parsed(value: real, unit: TimeUnit)

  /** `s.replace(/^[-+]?/, '')`: one leading sign removed. */
  function StripSign(s: string): (r: string)
    ensures r == s || (|s| > 0 && (s[0] == '-' || s[0] == '+') && r == s[1..])
  {
    if |s| > 0 && (s[0] == '-' || s[0] == '+') then s[1..] else s
  }

  /** `s.replace(/^0+/, '')`: every leading zero removed. */
  function StripZeros(s: string): (r: string)
    ensures |r| <= |s| && r == s[|s| - |r|..]
    ensures r == [] || r[0] != '0'
    ensures forall i :: 0 <= i < |s| - |r| ==> s[i] == '0'
    decreases |s|
  {
    if |s| > 0 && s[0] == '0' then StripZeros(s[1..]) else s
  }

  /** The digit count the unit is guessed from. */
  function DigitCount(s: string): nat {
    |StripZeros(StripSign(s))|
  }

  /** The boundary: twelve digits or more mean milliseconds. */
  const MillisDigits := 12

  function UnitFor(digits: nat): (u: TimeUnit)
    ensures u == Millis <==> digits >= MillisDigits
  {
    if digits >= MillisDigits then Millis else Seconds
  }

  /** tryParseTimestamp; `numberOf` is the host's `Number(text)`. */
  function TryParseTimestamp(input: string, numberOf: string -> JsNumber): (r: Option<Parsed>)
    ensures r.None? <==> Trim(input) == [] || !numberOf(Trim(input)).IsFinite()
    ensures r.Some? ==> r.value.value == numberOf(Trim(input)).value
    ensures r.Some? ==> (r.value.unit == Millis <==> DigitCount(Trim(input)) >= MillisDigits)
  {
    var s := Trim(input);
    if s == [] then None
    else
      var n := numberOf(s);
      if !n.IsFinite() then None
      else Some(Parsed(n.value, UnitFor(DigitCount(s))))
  }

  /** One sign and any run of leading zeros do not count as digits. */
  lemma DigitCountIgnoresSignAndZeros(sign: string, zeros: nat, d: string)
    requires sign == "" || sign == "-" || sign == "+"
    requires d == [] || (d[0] != '0' && d[0] != '-' && d[0] != '+')
    ensures DigitCount(sign + seq(zeros, _ => '0') + d) == |d|
  {
    var z := seq(zeros, _ => '0');
    assert StripSign(sign + z + d) == z + d by {
      if sign == "" {
        assert sign + z + d == z + d;
        if |z + d| > 0 {
          assert (z + d)[0] == (if zeros > 0 then '0' else d[0]);
        }
      } else {
        assert (sign + z + d)[1..] == z + d;
      }
    }
    StripZerosOf(zeros, d);
  }

  lemma {:induction false} StripZerosOf(zeros: nat, d: string)
    requires d == [] || d[0] != '0'
    ensures StripZeros(seq(zeros, _ => '0') + d) == d
  {
    if zeros > 0 {
      var z := seq(zeros, _ => '0');
      assert (z + d)[1..] == seq(zeros - 1, _ => '0') + d;
      StripZerosOf(zeros - 1, d);
    } else {
      assert seq(zeros, _ => '0') + d == d;
    }
  }

  // ---------------------------------------------------------------------
  // Conversion

  /** The two readings the page shows, as integers: `Math.round` of the
      milliseconds and of the seconds. */
  datatype Output = Output(ms: int, s: int)

  /** `output`: seconds are multiplied by 1000; milliseconds are divided by
      1000 and floored. */
  function Convert(p: Parsed): (o: Output)
    ensures p.unit == Seconds ==> o.ms == Round(p.value * 1000.0) && o.s == Round(p.value)
    ensures p.unit == Millis ==> o.ms == Round(p.value) && o.s == (p.value / 1000.0).Floor
  {
    var ms := if p.unit == Millis then p.value else p.value * 1000.0;
    var s := if p.unit == Seconds then p.value else (p.value / 1000.0).Floor as real;
    RoundOfInteger((p.value / 1000.0).Floor);
    Output(Round(ms), Round(s))
  }

  /** The millisecond reading of a whole number of seconds, read back as
      milliseconds, gives the same seconds. */
  lemma ConvertRoundTrip(seconds: int)
    ensures var o := Convert(Parsed(seconds as real, Seconds));
      o.ms == seconds * 1000 && Convert(Parsed(o.ms as real, Millis)).s == seconds
  {
    RoundOfInteger(seconds * 1000);
    RoundOfInteger(seconds);
    assert (seconds * 1000) as real / 1000.0 == seconds as real;
  }

  /** For milliseconds, the seconds reading is the whole seconds below it. */
  lemma MillisToSeconds(ms: int)
    ensures var o := Convert(Parsed(ms as real, Millis));
      o.ms == ms && o.s * 1000 <= ms < o.s * 1000 + 1000
  {
    RoundOfInteger(ms);
  }

  // ---------------------------------------------------------------------
  // fillNow

  /** fillNow: the current time (`now`, milliseconds since the epoch) as
      digits, in the chosen unit. */
  function FillNow(unit: TimeUnit, now: nat): (r: string)
    ensures unit == Millis ==> r == NatToString(now)
    ensures unit == Seconds ==> r == NatToString(now / 1000)
  {
    if unit == Millis then NatToString(now) else NatToString(now / 1000)
  }

  /** The host reads a plain decimal numeral as its value. */
  ghost predicate ReadsDecimals(numberOf: string -> JsNumber) {
    forall n: nat :: numberOf(NatToString(n)) == Finite(n as real)
  }

  function Pow10(k: nat): nat {
    if k == 0 then 1 else 10 * Pow10(k - 1)
  }

  /** A positive number has more than `k` digits exactly when it is at least 10^k. */
  lemma {:induction false} NatToStringLength(n: nat, k: nat)
    requires n > 0
    ensures |NatToString(n)| > k <==> n >= Pow10(k)
    decreases n
  {
    if n >= 10 && k > 0 {
      NatToStringLength(n / 10, k - 1);
    } else if k > 0 {
      PowAtLeastTen(k);
    }
  }

  lemma {:induction false} PowAtLeastTen(k: nat)
    requires k > 0
    ensures Pow10(k) >= 10
  {
    if k > 1 {
      PowAtLeastTen(k - 1);
    }
  }

  /** A numeral's digit count is its length, except for 0, which counts none. */
  lemma DigitCountOfNumeral(n: nat)
    ensures DigitCount(NatToString(n)) == if n == 0 then 0 else |NatToString(n)|
    ensures Trim(NatToString(n)) == NatToString(n)
  {
    NatToStringDigits(n);
    var s := NatToString(n);
    assert !IsJsWhitespace(s[0]) && !IsJsWhitespace(s[|s| - 1]);
    assert TrimStart(s) == s;
    assert StripSign(s) == s;
    if n == 0 {
      assert s == "0";
      assert StripZeros(s) == StripZeros(s[1..]);
    }
  }

  /** What fillNow writes parses back to the time it was given, and is
      guessed as milliseconds exactly when it has twelve digits or more. */
  lemma FillNowParses(unit: TimeUnit, now: nat, numberOf: string -> JsNumber)
    requires ReadsDecimals(numberOf)
    ensures var v := if unit == Millis then now else now / 1000;
      TryParseTimestamp(FillNow(unit, now), numberOf) == Some(Parsed(v as real, UnitFor(DigitCount(NatToString(v)))))
      && (UnitFor(DigitCount(NatToString(v))) == Millis <==> v >= Pow10(MillisDigits - 1))
  {
    var v := if unit == Millis then now else now / 1000;
    assert FillNow(unit, now) == NatToString(v);
    NumeralParses(v, numberOf);
    UnitOfNumeral(v);
  }

  lemma NumeralParses(v: nat, numberOf: string -> JsNumber)
    requires ReadsDecimals(numberOf)
    ensures TryParseTimestamp(NatToString(v), numberOf) == Some(Parsed(v as real, UnitFor(DigitCount(NatToString(v)))))
  {
    DigitCountOfNumeral(v);
    assert numberOf(NatToString(v)) == Finite(v as real);
  }

  lemma UnitOfNumeral(v: nat)
    ensures UnitFor(DigitCount(NatToString(v))) == Millis <==> v >= Pow10(MillisDigits - 1)
  {
    DigitCountOfNumeral(v);
    if v > 0 {
      NatToStringLength(v, MillisDigits - 1);
    } else {
      PowAtLeastTen(MillisDigits - 1);
    }
  }
}
