/** The game-clock rewrite of convert_clock: an ISO-8601-style duration
    such as "PT11M23.00S" becomes the text of a time of day with the hour
    cut off, "11:23" (and "MM:SS.ffffff" when the fraction is not zero). */
module Clock {
  import opened Wrappers
  import opened Text

  /** The characters str.strip('PT') removes from both ends. */
  const STRIPPED: set<char> := {'P', 'T'}

  /** The three string rewrites before parsing: strip, 'M' to ':', drop 'S'. */
  function Normalize(raw: string): string
  {
    Replace(Replace(Strip(raw, STRIPPED), 'M', ":"), 'S', "")
  }

  /** A time of day with hour 0, as datetime.time holds it. */
  datatype Time = Time(minute: nat, second: nat, micro: nat)

  /** Split s at the first occurrence of c. */
  function SplitFirst(s: string, c: char): (r: Option<(string, string)>)
    ensures r.None? <==> c !in s
    ensures r.Some? ==> c !in r.value.0 && s == r.value.0 + [c] + r.value.1
  {
    if s == [] then None
    else if s[0] == c then Some(([], s[1..]))
    else
      match SplitFirst(s[1..], c)
      case None => None
      case Some((a, b)) => Some(([s[0]] + a, b))
  }

  lemma {:induction false} SplitFirstAt(a: string, c: char, b: string)
    requires c !in a
    ensures SplitFirst(a + [c] + b, c) == Some((a, b))
  {
    if a != [] {
      assert (a + [c] + b)[1..] == a[1..] + [c] + b;
      SplitFirstAt(a[1..], c, b);
      assert [a[0]] + a[1..] == a;
    } else {
      assert a + [c] + b == [c] + b;
    }
  }

  /** A run of one to max decimal digits. */
  predicate DigitRun(s: string, max: nat)
  {
    1 <= |s| <= max && AllDigits(s)
  }

  /** pd.to_datetime(t, format='%M:%S.%f'): minutes and seconds of one or two
      digits below 60, a fraction of one to six digits read as a decimal fraction
      of a second; any other text is rejected (the call raises). */
  function Parse(t: string): (r: Option<Time>)
    ensures r.Some? ==> r.value.minute < 60 && r.value.second < 60 && r.value.micro < 1000000
  {
    match SplitFirst(t, ':')
    case None => None
    case Some((m, rest)) =>
      match SplitFirst(rest, '.')
      case None => None
      case Some((s, f)) =>
        if DigitRun(m, 2) && DigitRun(s, 2) && DigitRun(f, 6) && Value(m) < 60 && Value(s) < 60 then
          ValueBound(f);
          FractionBound(Value(f), |f|);
          Some(Time(Value(m), Value(s), Value(f) * Pow10(6 - |f|)))
        else None
  }

  lemma FractionBound(v: nat, k: nat)
    requires k <= 6 && v < Pow10(k)
    ensures v * Pow10(6 - k) < 1000000
  {
    PowSplit(k, 6 - k);
    assert Pow10(6) == 1000000;
  }

  lemma {:induction false} PowSplit(a: nat, b: nat)
    ensures Pow10(a) * Pow10(b) == Pow10(a + b)
  {
    if a > 0 {
      PowSplit(a - 1, b);
    }
  }

  /** str(datetime.time(0, m, s, us)): "HH:MM:SS", and ".ffffff" only when us != 0. */
  function TimeText(t: Time): (r: string)
    ensures |r| >= 3 && r[..3] == "00:"
  {
    "00:" + ClockText(t)
  }

  /** The minutes, seconds and optional fraction of str(time), after the hour. */
  function ClockText(t: Time): string
  {
    ZeroPad(Decimal(t.minute), 2) + (":" + (ZeroPad(Decimal(t.second), 2)
      + (if t.micro == 0 then "" else "." + ZeroPad(Decimal(t.micro), 6))))
  }

  /** The whole rewrite of one clock cell, or None when pandas would raise. */
  function Convert(raw: string): Option<string>
  {
    match Parse(Normalize(raw))
    case None => None
    case Some(t) => Some(TimeText(t)[3..])
  }

  lemma DigitsHaveNoMarkers(x: string)
    requires AllDigits(x)
    ensures 'M' !in x && 'S' !in x && ':' !in x && '.' !in x
  {
    assert forall i :: 0 <= i < |x| ==> IsDigit(x[i]);
  }

  /** strip('PT') removes exactly the leading "PT" of a duration. */
  lemma StripDuration(m: string, s: string, f: string)
    requires DigitRun(m, 2)
    ensures Strip("PT" + m + "M" + s + "." + f + "S", STRIPPED) == m + "M" + s + "." + f + "S"
  {
    var body := m + "M" + s + "." + f + "S";
    var raw := "PT" + body;
    assert IsDigit(m[0]);
    assert body[0] == m[0];
    assert body[0] !in STRIPPED;
    assert body[|body| - 1] == 'S';
    var t := raw[1..];
    assert raw[0] == 'P' && t[0] == 'T' && t[1..] == body;
    calc {
      StripLeft(raw, STRIPPED);
      StripLeft(t, STRIPPED);
      StripLeft(t[1..], STRIPPED);
      body;
    }
    assert 'S' !in STRIPPED;
    assert StripRight(body, STRIPPED) == body;
    assert Strip(raw, STRIPPED) == body;
    assert "PT" + m + "M" + s + "." + f + "S" == raw;
  }

  lemma ReplaceMarkerM(m: string, rest: string)
    requires 'M' !in m && 'M' !in rest
    ensures Replace(m + (['M'] + rest), 'M', ":") == m + (":" + rest)
  {
    ReplaceSingle(m, 'M', rest, ":");
  }

  lemma ReplaceMarkerS(head: string)
    requires 'S' !in head
    ensures Replace(head + "S", 'S', "") == head
  {
    ReplaceSingle(head, 'S', "", "");
    assert head + (['S'] + "") == head + "S";
    assert head + ("" + "") == head;
  }

  lemma Regroup<T>(a: seq<T>, b: seq<T>, c: seq<T>, d: seq<T>, e: seq<T>)
    ensures a + (b + (c + d + e)) == a + b + c + d + e
  {
  }

  lemma RegroupSplit<T>(a: seq<T>, b: seq<T>, c: seq<T>, d: seq<T>, e: seq<T>)
    ensures a + b + (c + d + e) == a + b + c + d + e
  {
  }

  lemma StripStep(m: string, s: string, f: string, raw: string, body: string)
    requires DigitRun(m, 2)
    requires raw == "PT" + m + "M" + s + "." + f + "S"
    requires body == m + "M" + s + "." + f + "S"
    ensures Strip(raw, STRIPPED) == body
  {
    StripDuration(m, s, f);
  }

  lemma ColonStep(m: string, s: string, f: string, body: string, head: string)
    requires AllDigits(m) && AllDigits(s) && AllDigits(f)
    requires body == m + "M" + s + "." + f + "S"
    requires head == m + ":" + s + "." + f
    ensures Replace(body, 'M', ":") == head + "S"
  {
    DigitsHaveNoMarkers(m);
    DigitsHaveNoMarkers(s);
    DigitsHaveNoMarkers(f);
    var rest := s + "." + f + "S";
    assert 'M' !in rest;
    ReplaceMarkerM(m, rest);
    assert body == m + (['M'] + rest);
    Regroup(m, ":", s, ".", f + "S");
    assert head + "S" == m + ":" + s + "." + (f + "S");
  }

  lemma SecondStep(m: string, s: string, f: string, head: string)
    requires AllDigits(m) && AllDigits(s) && AllDigits(f)
    requires head == m + ":" + s + "." + f
    ensures Replace(head + "S", 'S', "") == head
  {
    DigitsHaveNoMarkers(m);
    DigitsHaveNoMarkers(s);
    DigitsHaveNoMarkers(f);
    assert 'S' !in head;
    ReplaceMarkerS(head);
  }

  /** The three rewrites turn "PT<m>M<s>.<f>S" into "<m>:<s>.<f>". */
  lemma NormalizeDuration(m: string, s: string, f: string, raw: string, head: string)
    requires DigitRun(m, 2) && AllDigits(s) && AllDigits(f)
    requires raw == "PT" + m + "M" + s + "." + f + "S"
    requires head == m + ":" + s + "." + f
    ensures Normalize(raw) == head
  {
    var body := m + "M" + s + "." + f + "S";
    StripStep(m, s, f, raw, body);
    ColonStep(m, s, f, body, head);
    SecondStep(m, s, f, head);
  }

  lemma ParseDuration(m: string, s: string, f: string)
    requires DigitRun(m, 2) && DigitRun(s, 2) && DigitRun(f, 6)
    requires Value(m) < 60 && Value(s) < 60
    ensures Parse(m + ":" + s + "." + f) == Some(Time(Value(m), Value(s), Value(f) * Pow10(6 - |f|)))
  {
    var rest := s + ['.'] + f;
    var t := m + [':'] + rest;
    DigitsHaveNoMarkers(m);
    DigitsHaveNoMarkers(s);
    SplitFirstAt(m, ':', rest);
    SplitFirstAt(s, '.', f);
    ParseParts(t, m, rest, s, f);
    RegroupSplit(m, ":", s, ".", f);
  }

  /** Parse once the text is split at its colon and its dot. */
  lemma ParseParts(t: string, m: string, rest: string, s: string, f: string)
    requires SplitFirst(t, ':') == Some((m, rest)) && SplitFirst(rest, '.') == Some((s, f))
    requires DigitRun(m, 2) && DigitRun(s, 2) && DigitRun(f, 6)
    requires Value(m) < 60 && Value(s) < 60
    ensures Parse(t) == Some(Time(Value(m), Value(s), Value(f) * Pow10(6 - |f|)))
  {
  }

  /** Cutting the "00:" hour from the time text leaves "MM:SS", then
      ".ffffff" only when there are microseconds. */
  lemma TimeTextTail(t: Time)
    requires t.minute < 60 && t.second < 60 && t.micro < 1000000
    ensures TimeText(t)[3..] == ClockText(t)
    ensures |ClockText(t)| == if t.micro == 0 then 5 else 12
  {
    assert Pow10(2) == 100 && Pow10(6) == 1000000;
    DecimalLength(t.minute, 2);
    DecimalLength(t.second, 2);
    DecimalLength(t.micro, 6);
  }

  /** A duration "PT<m>M<s>.<f>S" becomes zero-padded two-digit minutes, ':',
      zero-padded two-digit seconds, then '.' and the fraction as six-digit
      microseconds only when that fraction is not zero. */
  lemma ConvertDuration(m: string, s: string, f: string, raw: string)
    requires DigitRun(m, 2) && DigitRun(s, 2) && DigitRun(f, 6)
    requires Value(m) < 60 && Value(s) < 60
    requires raw == "PT" + m + "M" + s + "." + f + "S"
    ensures var micro := Value(f) * Pow10(6 - |f|);
      Convert(raw) ==
        Some(ZeroPad(Decimal(Value(m)), 2) + (":" + (ZeroPad(Decimal(Value(s)), 2)
             + (if micro == 0 then "" else "." + ZeroPad(Decimal(micro), 6)))))
    ensures var micro := Value(f) * Pow10(6 - |f|);
      |Convert(raw).value| == if micro == 0 then 5 else 12
  {
    var head := m + ":" + s + "." + f;
    NormalizeDuration(m, s, f, raw, head);
    ParseDuration(m, s, f);
    var t := Parse(head).value;
    TimeTextTail(t);
  }

  lemma WholeSecondDigits()
    ensures Value("11") == 11 && Value("23") == 23 && Value("00") == 0 && Pow10(4) == 10000
  {
    TwoDigitValue('1', '1');
    TwoDigitValue('2', '3');
    TwoDigitValue('0', '0');
  }

  lemma WholeSecondStages(raw: string, t: string)
    requires raw == "PT11M23.00S" && t == "11:23.00"
    ensures Normalize(raw) == t
    ensures Parse(t) == Some(Time(11, 23, 0))
  {
    WholeSecondDigits();
    NormalizeDuration("11", "23", "00", raw, t);
    ParseDuration("11", "23", "00");
  }

  /** A canonical digit string of the full width is its own padded rendering. */
  lemma PadCanonical(n: nat, z: string, width: nat)
    requires 1 <= |z| == width && AllDigits(z) && z[0] != '0' && Value(z) == n
    ensures ZeroPad(Decimal(n), width) == z
  {
    DecimalValue(z);
  }

  lemma WholeSecondPads()
    ensures ZeroPad(Decimal(11), 2) == "11" && ZeroPad(Decimal(23), 2) == "23"
  {
    TwoDigitValue('1', '1');
    TwoDigitValue('2', '3');
    PadCanonical(11, "11", 2);
    PadCanonical(23, "23", 2);
  }

  /** The clock text assembled from its already padded parts. */
  lemma ClockTextParts(t: Time, mm: string, ss: string, ff: string)
    requires ZeroPad(Decimal(t.minute), 2) == mm && ZeroPad(Decimal(t.second), 2) == ss
    requires t.micro != 0 ==> ZeroPad(Decimal(t.micro), 6) == ff
    ensures ClockText(t) == mm + (":" + (ss + (if t.micro == 0 then "" else "." + ff)))
  {
  }

  lemma WholeSecondLiteral()
    ensures "11" + (":" + ("23" + "")) == "11:23"
  {
  }

  lemma HalfSecondLiteral()
    ensures "00" + (":" + ("09" + ("." + "500000"))) == "00:09.500000"
  {
  }

  lemma WholeSecondText()
    ensures TimeText(Time(11, 23, 0))[3..] == "11:23"
  {
    TimeTextTail(Time(11, 23, 0));
    WholeSecondPads();
    ClockTextParts(Time(11, 23, 0), "11", "23", "");
    WholeSecondLiteral();
  }

  /** A whole second drops the fraction: "PT11M23.00S" becomes "11:23". */
  lemma ConvertWholeSecond(raw: string)
    requires raw == "PT11M23.00S"
    ensures Convert(raw) == Some("11:23")
  {
    WholeSecondStages(raw, "11:23.00");
    WholeSecondText();
  }

  lemma HalfSecondDigits()
    ensures Value("0") == 0 && Value("9") == 9 && Value("50") == 50 && Pow10(4) == 10000
  {
    assert "0"[..0] == [] && "9"[..0] == [];
    TwoDigitValue('5', '0');
  }

  lemma HalfSecondStages(raw: string, t: string)
    requires raw == "PT0M9.50S" && t == "0:9.50"
    ensures Normalize(raw) == t
    ensures Parse(t) == Some(Time(0, 9, 500000))
  {
    HalfSecondDigits();
    NormalizeDuration("0", "9", "50", raw, t);
    ParseDuration("0", "9", "50");
  }

  lemma HalfSecondMicro()
    ensures Value("5" + Zeros(5)) == 500000
  {
    ValueAppend("5", Zeros(5));
    ValueZeros(5);
    assert Pow10(5) == 100000 && Value("5") == 5;
  }

  lemma HalfSecondPads(t: Time)
    requires t == Time(0, 9, 500000)
    ensures ZeroPad(Decimal(t.minute), 2) == "00" && ZeroPad(Decimal(t.second), 2) == "09"
    ensures ZeroPad(Decimal(t.micro), 6) == "500000"
  {
    assert Zeros(1) == "0";
    var z := "5" + Zeros(5);
    HalfSecondMicro();
    PadCanonical(t.micro, z, 6);
    assert z == "500000";
  }

  lemma HalfSecondText(t: Time)
    requires t == Time(0, 9, 500000)
    ensures TimeText(t)[3..] == "00:09.500000"
  {
    TimeTextTail(t);
    HalfSecondPads(t);
    ClockTextParts(t, "00", "09", "500000");
    HalfSecondLiteral();
  }

  /** A half second is kept, as six digits of microseconds: "PT0M9.50S"
      becomes "00:09.500000", not "00:09". */
  lemma ConvertHalfSecond(raw: string)
    requires raw == "PT0M9.50S"
    ensures Convert(raw) == Some("00:09.500000")
  {
    HalfSecondStages(raw, "0:9.50");
    HalfSecondText(Parse(Normalize(raw)).value);
  }
}
