/** The duration normaliser: a whole number of seconds shown as `HH:MM:SS`.

    The ISO 8601 text is parsed by an external library; its outcome reaches this
    module as `Some(seconds)` or, for any parse failure, `None`. */
module Duration {
  import opened Wrappers

  datatype Hms = Hms(hours: nat, minutes: nat, seconds: nat)

  /** Two `divmod` steps: by 3600, then the remainder by 60. */
  function SplitSeconds(total: nat): (t: Hms)
    ensures t.minutes < 60 && t.seconds < 60
    ensures t.hours * 3600 + t.minutes * 60 + t.seconds == total
  {
    var hours := total / 3600;
    var remainder := total % 3600;
    Hms(hours, remainder / 60, remainder % 60)
  }

  /** The split is the only one with minutes and seconds below 60. */
  lemma SplitSecondsUnique(total: nat, t: Hms)
    requires t.minutes < 60 && t.seconds < 60
    requires t.hours * 3600 + t.minutes * 60 + t.seconds == total
    ensures SplitSeconds(total) == t
  {
    var u := SplitSeconds(total);
    assert t.minutes * 60 + t.seconds < 3600;
    assert u.minutes * 60 + u.seconds < 3600;
  }

  // ---------------------------------------------------------------------------
  // Decimal text
  // ---------------------------------------------------------------------------

  predicate IsDigit(c: char) {
    '0' <= c <= '9'
  }

  predicate AllDigits(s: string) {
    forall i :: 0 <= i < |s| ==> IsDigit(s[i])
  }

  function DigitChar(d: nat): (c: char)
    requires d < 10
    ensures IsDigit(c)
  {
    (('0' as int) + d) as char
  }

  function DigitValue(c: char): nat
    requires IsDigit(c)
  {
    (c as int) - ('0' as int)
  }

  /** The decimal numeral of `n`, without leading zeros. */
  function Decimal(n: nat): (s: string)
    ensures |s| > 0 && AllDigits(s)
    ensures |s| > 1 ==> s[0] != '0'
    decreases n
  {
    if n < 10 then [DigitChar(n)] else Decimal(n / 10) + [DigitChar(n % 10)]
  }

  /** The number a string of digits denotes. */
  function Value(s: string): nat
    requires AllDigits(s)
  {
    if |s| == 0 then 0 else Value(s[..|s| - 1]) * 10 + DigitValue(s[|s| - 1])
  }

  lemma {:induction false} ValueOfDecimal(n: nat)
    ensures Value(Decimal(n)) == n
    decreases n
  {
    if n >= 10 {
      var s := Decimal(n);
      assert s[..|s| - 1] == Decimal(n / 10);
      ValueOfDecimal(n / 10);
    }
  }

  lemma {:induction false} LeadingZero(s: string)
    requires AllDigits(s)
    ensures AllDigits("0" + s) && Value("0" + s) == Value(s)
  {
    if |s| > 0 {
      assert ("0" + s)[..|s|] == "0" + s[..|s| - 1];
      LeadingZero(s[..|s| - 1]);
    }
  }

  /** One digit below ten, two below a hundred, three or more from a hundred on. */
  lemma {:induction false} DecimalLength(n: nat)
    ensures n < 10 <==> |Decimal(n)| == 1
    ensures 10 <= n < 100 <==> |Decimal(n)| == 2
    ensures n >= 100 <==> |Decimal(n)| >= 3
  {
    if n >= 10 {
      DecimalLength(n / 10);
    }
  }

  /** Python's `{n:02}`: the numeral, zero-padded to at least two characters. */
  function Pad2(n: nat): (s: string)
    ensures AllDigits(s) && Value(s) == n
    ensures |s| == if n < 100 then 2 else |Decimal(n)|
  {
    ValueOfDecimal(n);
    DecimalLength(n);
    if n < 10 then
      LeadingZero(Decimal(n));
      "0" + Decimal(n)
    else
      Decimal(n)
  }

  /** `hours:minutes:seconds`, each field padded to two digits. */
  function FormatSeconds(total: nat): (s: string)
    ensures |s| >= 8 && s[|s| - 3] == ':' && s[|s| - 6] == ':'
    ensures |s| == 8 <==> total < 360000
  {
    var t := SplitSeconds(total);
    DecimalLength(t.hours);
    assert t.hours < 100 <==> total < 360000;
    Pad2(t.hours) + ":" + Pad2(t.minutes) + ":" + Pad2(t.seconds)
  }

  /** The display string of a duration; a parse failure shows as `"00:00:00"`. */
  function ParseDuration(parsed: Option<nat>): (s: string)
    ensures parsed.None? ==> s == "00:00:00"
    ensures |s| >= 8 && s[|s| - 3] == ':' && s[|s| - 6] == ':'
  {
    match parsed
    case None => "00:00:00"
    case Some(total) => FormatSeconds(total)
  }

  // ---------------------------------------------------------------------------
  // Reading a display string back
  // ---------------------------------------------------------------------------

  /** The number of seconds an `H..H:MM:SS` string shows, if it is one. */
  function ReadSeconds(s: string): Option<nat> {
    if |s| >= 8 && s[|s| - 3] == ':' && s[|s| - 6] == ':'
       && AllDigits(s[..|s| - 6]) && AllDigits(s[|s| - 5..|s| - 3]) && AllDigits(s[|s| - 2..])
    then
      var m := Value(s[|s| - 5..|s| - 3]);
      var sec := Value(s[|s| - 2..]);
      if m < 60 && sec < 60 then Some(Value(s[..|s| - 6]) * 3600 + m * 60 + sec) else None
    else None
  }

  /** The display string shows exactly the duration it was made from. */
  lemma FormatRoundTrip(total: nat)
    ensures ReadSeconds(FormatSeconds(total)) == Some(total)
  {
    var t := SplitSeconds(total);
    var h, m, sec := Pad2(t.hours), Pad2(t.minutes), Pad2(t.seconds);
    var s := h + ":" + m + ":" + sec;
    assert |m| == 2 && |sec| == 2;
    assert s[..|s| - 6] == h;
    assert s[|s| - 5..|s| - 3] == m;
    assert s[|s| - 2..] == sec;
  }

  /** Different durations never share a display string. */
  lemma FormatInjective(a: nat, b: nat)
    requires FormatSeconds(a) == FormatSeconds(b)
    ensures a == b
  {
    FormatRoundTrip(a);
    FormatRoundTrip(b);
  }

  /** Hours are not capped: the hours field has as many digits as the hours need. */
  lemma HoursWidth(total: nat)
    ensures total >= 360000 ==> |FormatSeconds(total)| == |Decimal(total / 3600)| + 6
    ensures total >= 360000 ==> |FormatSeconds(total)| >= 9
  {
    DecimalLength(total / 3600);
  }

  /** A failed parse cannot be told apart from a zero-length video. */
  lemma FailureShowsAsZero()
    ensures ParseDuration(None) == ParseDuration(Some(0))
    ensures ReadSeconds(ParseDuration(None)) == Some(0)
  {
    FormatRoundTrip(0);
  }

  /** `PT2M2S`, 122 seconds, shows as `00:02:02`. */
  lemma TwoMinutesTwoSeconds()
    ensures ParseDuration(Some(122)) == "00:02:02"
  {
    assert SplitSeconds(122) == Hms(0, 2, 2);
  }
}
