/** `parse_jira_date`: the tracker's timestamp strings, tried against six
    formats in a fixed order, with any timezone offset dropped. */
module DateParse {
  import opened Values
  import opened Calendar

  /** The formats, in the order they are tried:
      "%Y-%m-%dT%H:%M:%S.%f%z", "%Y-%m-%dT%H:%M:%S%z", "%Y-%m-%dT%H:%M:%S.%fZ",
      "%Y-%m-%dT%H:%M:%SZ", "%Y-%m-%d %H:%M:%S", "%Y-%m-%d". */
  datatype Format = FracOffset | Offset | FracZulu | Zulu | SpaceSeparated | DateOnly

  const Formats: seq<Format> := [FracOffset, Offset, FracZulu, Zulu, SpaceSeparated, DateOnly]

  predicate DigitsAt(s: string, i: nat, n: nat) {
    i + n <= |s| && IsDigits(s[i..i + n])
  }

  function NumberAt(s: string, i: nat, n: nat): nat
    requires DigitsAt(s, i, n)
  {
    Number(s[i..i + n])
  }

  /** Literal letters of a format match either case. */
  predicate IsT(c: char) {
    c == 'T' || c == 't'
  }

  predicate IsZ(c: char) {
    c == 'Z' || c == 'z'
  }

  /** `%z` as +HHMM or -HHMM; the offset must be shorter than a day. */
  predicate IsOffset(t: string) {
    |t| == 5 && (t[0] == '+' || t[0] == '-') && IsDigits(t[1..]) &&
    '0' <= t[3] <= '5' && Number(t[1..3]) < 24
  }

  /** `%f`: one to six digits, padded on the right to microseconds. */
  function Fraction(t: string): (r: Option<int>)
    ensures r.Some? ==> 0 <= r.value < 1000000
  {
    if 1 <= |t| <= 6 && IsDigits(t) then
      FractionBound(t);
      Some(Number(t) * Pow10(6 - |t|))
    else None
  }

  lemma FractionBound(t: string)
    requires 1 <= |t| <= 6 && IsDigits(t)
    ensures 0 <= Number(t) * Pow10(6 - |t|) < 1000000
  {
    NumberBound(t);
    Pow10Add(|t|, 6 - |t|);
    ScaleBelow(Number(t), Pow10(|t|), Pow10(6 - |t|));
  }

  lemma ScaleBelow(n: nat, bound: nat, p: nat)
    requires n < bound && p >= 1
    ensures n * p < bound * p
  {
  }

  lemma {:induction false} Pow10Add(a: nat, b: nat)
    ensures Pow10(a) * Pow10(b) == Pow10(a + b)
  {
    if a > 0 {
      Pow10Add(a - 1, b);
    }
  }

  lemma {:induction false} NumberBound(t: string)
    requires IsDigits(t)
    ensures Number(t) < Pow10(|t|)
  {
    if t != [] {
      NumberBound(t[..|t| - 1]);
    }
  }

  /** The microseconds given by what follows the seconds, for a format with a
      time part; None when that text does not fit the format. */
  function SuffixMicros(f: Format, t: string): (r: Option<int>)
    ensures r.Some? ==> 0 <= r.value < 1000000
  {
    match f
    case FracOffset =>
      if |t| >= 6 && t[0] == '.' && IsOffset(t[|t| - 5..]) then Fraction(t[1..|t| - 5]) else None
    case Offset => if IsOffset(t) then Some(0) else None
    case FracZulu =>
      if |t| >= 2 && t[0] == '.' && IsZ(t[|t| - 1]) then Fraction(t[1..|t| - 1]) else None
    case Zulu => if |t| == 1 && IsZ(t[0]) then Some(0) else None
    case SpaceSeparated => if t == [] then Some(0) else None
    case DateOnly => None
  }

  /** "YYYY-MM-DD" at the start of s. */
  predicate DatePart(s: string) {
    |s| >= 10 && DigitsAt(s, 0, 4) && s[4] == '-' && DigitsAt(s, 5, 2) && s[7] == '-' && DigitsAt(s, 8, 2)
  }

  /** The separator and "HH:MM:SS" after the date. */
  predicate TimePart(f: Format, s: string) {
    |s| >= 19 && (if f == SpaceSeparated then s[10] == ' ' else IsT(s[10])) &&
    DigitsAt(s, 11, 2) && s[13] == ':' && DigitsAt(s, 14, 2) && s[16] == ':' && DigitsAt(s, 17, 2)
  }

  function Checked(dt: DateTime): (r: Option<DateTime>)
    ensures r.Some? <==> Valid(dt)
    ensures r.Some? ==> r.value == dt
  {
    if Valid(dt) then Some(dt) else None
  }

  /** `datetime.strptime(s, fmt)` for one format, made naive; None where it
      raises ValueError (text that does not fit, or out-of-range fields). */
  function ParseWith(f: Format, s: string): (r: Option<DateTime>)
    ensures r.Some? ==> Valid(r.value)
  {
    if !DatePart(s) then None
    else
      var y, mo, d := NumberAt(s, 0, 4), NumberAt(s, 5, 2), NumberAt(s, 8, 2);
      if f == DateOnly then
        if |s| == 10 then Checked(DateTime(y, mo, d, 0, 0, 0, 0)) else None
      else if !TimePart(f, s) then None
      else
        match SuffixMicros(f, s[19..])
        case None => None
        case Some(us) => Checked(DateTime(y, mo, d, NumberAt(s, 11, 2), NumberAt(s, 14, 2), NumberAt(s, 17, 2), us))
  }

  /** The parse from the first of fmts that accepts s. */
  function FirstMatch(fmts: seq<Format>, s: string): (r: Option<DateTime>)
    ensures r.Some? ==> Valid(r.value)
  {
    if fmts == [] then None
    else
      match ParseWith(fmts[0], s)
      case Some(dt) => Some(dt)
      case None => FirstMatch(fmts[1..], s)
  }

  /** What `parse_jira_date(v)` returns: None for a falsy value and for a
      value that is not a string; otherwise the first format's parse. */
  function JiraDate(v: Json): (r: Option<DateTime>)
    ensures r.Some? ==> Valid(r.value)
  {
    if Truthy(v) && v.JStr? then FirstMatch(Formats, v.s) else None
  }

  /** `parse_jira_date`: loops over the formats and returns the first parse. */
  method ParseJiraDate(v: Json) returns (r: Option<DateTime>)
    ensures r == JiraDate(v)
  {
    if !Truthy(v) {
      return None;
    }
    if !v.JStr? {
      return None;
    }
    var i := 0;
    while i < |Formats|
      invariant 0 <= i <= |Formats|
      invariant FirstMatch(Formats, v.s) == FirstMatch(Formats[i..], v.s)
    {
      var dt := ParseWith(Formats[i], v.s);
      if dt.Some? {
        return dt;
      }
      assert Formats[i..][1..] == Formats[i + 1..];
      i := i + 1;
    }
    return None;
  }

  /** The result is the parse of the first format that accepts the text, and
      None exactly when no format does. */
  lemma {:induction false} FirstMatchIsFirstAccepting(fmts: seq<Format>, s: string)
    ensures FirstMatch(fmts, s).None? <==> forall i :: 0 <= i < |fmts| ==> ParseWith(fmts[i], s).None?
    ensures forall i :: 0 <= i < |fmts| && ParseWith(fmts[i], s).Some? &&
                        (forall j :: 0 <= j < i ==> ParseWith(fmts[j], s).None?)
                     ==> FirstMatch(fmts, s) == ParseWith(fmts[i], s)
  {
    if fmts != [] {
      FirstMatchIsFirstAccepting(fmts[1..], s);
      assert forall i :: 1 <= i < |fmts| ==> fmts[i] == fmts[1..][i - 1];
    }
  }

  // ---------------------------------------------------------------------
  // Round trips: each format's own rendering of a timestamp parses back to it.

  function DateText(dt: DateTime): (t: string)
    requires Valid(dt)
    ensures |t| == 10
  {
    Padded(dt.year, 4) + "-" + Padded(dt.month, 2) + "-" + Padded(dt.day, 2)
  }

  function TimeText(dt: DateTime): (t: string)
    requires Valid(dt)
    ensures |t| == 8
  {
    Padded(dt.hour, 2) + ":" + Padded(dt.minute, 2) + ":" + Padded(dt.second, 2)
  }

  function SuffixText(f: Format, dt: DateTime, tz: string): string
    requires Valid(dt)
  {
    match f
    case FracOffset => "." + Padded(dt.micro, 6) + tz
    case Offset => tz
    case FracZulu => "." + Padded(dt.micro, 6) + "Z"
    case Zulu => "Z"
    case SpaceSeparated => ""
    case DateOnly => ""
  }

  /** dt written in format f, with offset tz where the format has one. */
  function Render(f: Format, dt: DateTime, tz: string): (s: string)
    requires Valid(dt)
    ensures |s| >= 10
  {
    if f == DateOnly then DateText(dt)
    else DateText(dt) + ([if f == SpaceSeparated then ' ' else 'T'] + TimeText(dt) + SuffixText(f, dt, tz))
  }

  /** The fields a format can carry: no fraction without %f, no time without %H. */
  predicate Representable(f: Format, dt: DateTime) {
    (f == Offset || f == Zulu || f == SpaceSeparated || f == DateOnly ==> dt.micro == 0) &&
    (f == DateOnly ==> dt.hour == 0 && dt.minute == 0 && dt.second == 0)
  }

  lemma PaddedReads(n: nat, width: nat)
    requires n < Pow10(width)
    ensures IsDigits(Padded(n, width)) && Number(Padded(n, width)) == n
  {
    NumberOfPadded(n, width);
  }

  lemma DateTextReads(dt: DateTime, rest: string)
    requires Valid(dt)
    ensures var s := DateText(dt) + rest;
      DatePart(s) && NumberAt(s, 0, 4) == dt.year && NumberAt(s, 5, 2) == dt.month && NumberAt(s, 8, 2) == dt.day
  {
    var s := DateText(dt) + rest;
    PaddedReads(dt.year, 4);
    PaddedReads(dt.month, 2);
    PaddedReads(dt.day, 2);
    assert s[0..4] == Padded(dt.year, 4);
    assert s[5..7] == Padded(dt.month, 2);
    assert s[8..10] == Padded(dt.day, 2);
  }

  lemma TimeTextReads(dt: DateTime, sep: char, suffix: string)
    requires Valid(dt)
    ensures var s := DateText(dt) + ([sep] + TimeText(dt) + suffix);
      |s| == 19 + |suffix| && s[10] == sep && s[19..] == suffix &&
      DigitsAt(s, 11, 2) && s[13] == ':' && DigitsAt(s, 14, 2) && s[16] == ':' && DigitsAt(s, 17, 2) &&
      NumberAt(s, 11, 2) == dt.hour && NumberAt(s, 14, 2) == dt.minute && NumberAt(s, 17, 2) == dt.second
  {
    var s := DateText(dt) + ([sep] + TimeText(dt) + suffix);
    PaddedReads(dt.hour, 2);
    PaddedReads(dt.minute, 2);
    PaddedReads(dt.second, 2);
    assert s[11..13] == Padded(dt.hour, 2);
    assert s[14..16] == Padded(dt.minute, 2);
    assert s[17..19] == Padded(dt.second, 2);
    assert s[19..] == suffix;
  }

  /** Each suffix is accepted by its own format alone, with its microseconds. */
  lemma SuffixReads(f: Format, g: Format, dt: DateTime, tz: string)
    requires Valid(dt) && IsOffset(tz) && Representable(f, dt)
    requires f != DateOnly && g != DateOnly && f != SpaceSeparated && g != SpaceSeparated
    ensures SuffixMicros(g, SuffixText(f, dt, tz)) == if g == f then Some(dt.micro) else None
  {
    match f
    case FracOffset => FracOffsetSuffixReads6(g, dt, tz);
    case FracZulu => FracZuluSuffixReads(g, dt, tz);
    case Offset => assert SuffixText(f, dt, tz) == tz && tz[0] != '.';
    case Zulu => assert SuffixText(f, dt, tz) == "Z";
  }

  lemma FracOffsetSuffixReads6(g: Format, dt: DateTime, tz: string)
    requires Valid(dt) && IsOffset(tz) && g != DateOnly && g != SpaceSeparated
    ensures SuffixMicros(g, SuffixText(FracOffset, dt, tz)) == if g == FracOffset then Some(dt.micro) else None
  {
    var t := SuffixText(FracOffset, dt, tz);
    var p := Padded(dt.micro, 6);
    PaddedReads(dt.micro, 6);
    assert Pow10(0) == 1;
    assert |t| == 12 && t[0] == '.';
    assert t[1..|t| - 5] == p && t[|t| - 5..] == tz;
    assert Fraction(p) == Some(dt.micro);
    assert t[|t| - 1] == tz[1..][3] && IsDigit(tz[1..][3]);
  }

  lemma FracZuluSuffixReads(g: Format, dt: DateTime, tz: string)
    requires Valid(dt) && g != DateOnly && g != SpaceSeparated
    ensures SuffixMicros(g, SuffixText(FracZulu, dt, tz)) == if g == FracZulu then Some(dt.micro) else None
  {
    var t := SuffixText(FracZulu, dt, tz);
    var p := Padded(dt.micro, 6);
    PaddedReads(dt.micro, 6);
    assert Pow10(0) == 1;
    assert |t| == 8 && t[0] == '.' && t[|t| - 1] == 'Z';
    assert t[1..|t| - 1] == p;
    assert Fraction(p) == Some(dt.micro);
    assert t[|t| - 5..][0] == p[2] && IsDigit(p[2]);
  }

  /** A rendering is accepted by its own format and by no other. */
  lemma OnlyOwnFormatAccepts(f: Format, g: Format, dt: DateTime, tz: string)
    requires Valid(dt) && IsOffset(tz) && Representable(f, dt)
    ensures ParseWith(g, Render(f, dt, tz)) == if g == f then Some(dt) else None
  {
    if f == DateOnly {
      DateOnlyAccepts(g, dt, tz);
    } else {
      TimedAccepts(f, g, dt, tz);
    }
  }

  lemma DateOnlyAccepts(g: Format, dt: DateTime, tz: string)
    requires Valid(dt) && Representable(DateOnly, dt)
    ensures ParseWith(g, Render(DateOnly, dt, tz)) == if g == DateOnly then Some(dt) else None
  {
    var s := Render(DateOnly, dt, tz);
    DateTextReads(dt, []);
    assert s == DateText(dt) + [];
  }

  lemma TimedAccepts(f: Format, g: Format, dt: DateTime, tz: string)
    requires Valid(dt) && IsOffset(tz) && Representable(f, dt) && f != DateOnly
    ensures ParseWith(g, Render(f, dt, tz)) == if g == f then Some(dt) else None
  {
    var s := Render(f, dt, tz);
    RenderFields(f, dt, tz);
    if g == DateOnly {
      assert |s| != 10;
    } else if f == SpaceSeparated || g == SpaceSeparated {
      if f != g {
        assert !TimePart(g, s);
      }
    } else {
      SuffixReads(f, g, dt, tz);
      assert TimePart(g, s);
    }
  }

  /** Where the date, the separator, the time and the suffix of a rendering sit. */
  lemma RenderFields(f: Format, dt: DateTime, tz: string)
    requires Valid(dt) && f != DateOnly
    ensures var s := Render(f, dt, tz);
      DatePart(s) && NumberAt(s, 0, 4) == dt.year && NumberAt(s, 5, 2) == dt.month && NumberAt(s, 8, 2) == dt.day &&
      |s| >= 19 && s[10] == (if f == SpaceSeparated then ' ' else 'T') && s[19..] == SuffixText(f, dt, tz) &&
      DigitsAt(s, 11, 2) && s[13] == ':' && DigitsAt(s, 14, 2) && s[16] == ':' && DigitsAt(s, 17, 2) &&
      NumberAt(s, 11, 2) == dt.hour && NumberAt(s, 14, 2) == dt.minute && NumberAt(s, 17, 2) == dt.second
  {
    var s := Render(f, dt, tz);
    var sep := if f == SpaceSeparated then ' ' else 'T';
    DateTextReads(dt, s[10..]);
    assert s == DateText(dt) + s[10..];
    TimeTextReads(dt, sep, SuffixText(f, dt, tz));
  }

  /** FirstMatch over the six formats, written out. */
  lemma FirstMatchOfFormats(s: string)
    ensures FirstMatch(Formats, s) ==
      if ParseWith(FracOffset, s).Some? then ParseWith(FracOffset, s)
      else if ParseWith(Offset, s).Some? then ParseWith(Offset, s)
      else if ParseWith(FracZulu, s).Some? then ParseWith(FracZulu, s)
      else if ParseWith(Zulu, s).Some? then ParseWith(Zulu, s)
      else if ParseWith(SpaceSeparated, s).Some? then ParseWith(SpaceSeparated, s)
      else ParseWith(DateOnly, s)
  {
    var fs := Formats;
    assert fs[1..] == [Offset, FracZulu, Zulu, SpaceSeparated, DateOnly];
    assert fs[1..][1..] == [FracZulu, Zulu, SpaceSeparated, DateOnly];
    assert fs[1..][1..][1..] == [Zulu, SpaceSeparated, DateOnly];
    assert fs[1..][1..][1..][1..] == [SpaceSeparated, DateOnly];
    assert fs[1..][1..][1..][1..][1..] == [DateOnly];
    FirstMatchStep(fs, s);
    FirstMatchStep(fs[1..], s);
    FirstMatchStep(fs[1..][1..], s);
    FirstMatchStep(fs[1..][1..][1..], s);
    FirstMatchStep(fs[1..][1..][1..][1..], s);
    FirstMatchStep(fs[1..][1..][1..][1..][1..], s);
  }

  lemma FirstMatchStep(fmts: seq<Format>, s: string)
    requires fmts != []
    ensures FirstMatch(fmts, s) ==
      if ParseWith(fmts[0], s).Some? then ParseWith(fmts[0], s) else FirstMatch(fmts[1..], s)
  {
  }

  lemma FirstMatchOfRender(f: Format, dt: DateTime, tz: string)
    requires Valid(dt) && IsOffset(tz) && Representable(f, dt)
    ensures FirstMatch(Formats, Render(f, dt, tz)) == Some(dt)
  {
    var s := Render(f, dt, tz);
    FirstMatchOfFormats(s);
    match f
    case FracOffset =>
      OnlyOwnFormatAccepts(f, FracOffset, dt, tz);
    case Offset =>
      OnlyOwnFormatAccepts(f, FracOffset, dt, tz);
      OnlyOwnFormatAccepts(f, Offset, dt, tz);
    case FracZulu =>
      OnlyOwnFormatAccepts(f, FracOffset, dt, tz);
      OnlyOwnFormatAccepts(f, Offset, dt, tz);
      OnlyOwnFormatAccepts(f, FracZulu, dt, tz);
    case Zulu =>
      OnlyOwnFormatAccepts(f, FracOffset, dt, tz);
      OnlyOwnFormatAccepts(f, Offset, dt, tz);
      OnlyOwnFormatAccepts(f, FracZulu, dt, tz);
      OnlyOwnFormatAccepts(f, Zulu, dt, tz);
    case SpaceSeparated =>
      OnlyOwnFormatAccepts(f, FracOffset, dt, tz);
      OnlyOwnFormatAccepts(f, Offset, dt, tz);
      OnlyOwnFormatAccepts(f, FracZulu, dt, tz);
      OnlyOwnFormatAccepts(f, Zulu, dt, tz);
      OnlyOwnFormatAccepts(f, SpaceSeparated, dt, tz);
    case DateOnly =>
      OnlyOwnFormatAccepts(f, FracOffset, dt, tz);
      OnlyOwnFormatAccepts(f, Offset, dt, tz);
      OnlyOwnFormatAccepts(f, FracZulu, dt, tz);
      OnlyOwnFormatAccepts(f, Zulu, dt, tz);
      OnlyOwnFormatAccepts(f, SpaceSeparated, dt, tz);
      OnlyOwnFormatAccepts(f, DateOnly, dt, tz);
  }

  /** Every format's rendering of a timestamp it can carry parses back to that
      timestamp, whatever the offset written with it. */
  lemma ParseRender(f: Format, dt: DateTime, tz: string)
    requires Valid(dt) && IsOffset(tz) && Representable(f, dt)
    ensures JiraDate(JStr(Render(f, dt, tz))) == Some(dt)
  {
    var s := Render(f, dt, tz);
    FirstMatchOfRender(f, dt, tz);
    assert s != [] && Truthy(JStr(s));
  }

  /** `%f` takes one to six digits: a timestamp whose microseconds are a
      multiple of 10^(6-w), written with a w-digit fraction and an offset,
      parses back to that timestamp. */
  lemma ShortFractionReads(dt: DateTime, w: nat, tz: string)
    requires Valid(dt) && 1 <= w <= 6 && dt.micro % Pow10(6 - w) == 0 && IsOffset(tz)
    ensures JiraDate(JStr(DateText(dt) + (['T'] + TimeText(dt) + ("." + Padded(dt.micro / Pow10(6 - w), w) + tz)))) ==
            Some(dt)
  {
    var n := dt.micro / Pow10(6 - w);
    var digits := Padded(n, w);
    var t := "." + digits + tz;
    var s := DateText(dt) + (['T'] + TimeText(dt) + t);
    ShortFractionDigits(dt.micro, w);
    assert t[1..|t| - 5] == digits && t[|t| - 5..] == tz;
    FracOffsetSuffixReads(dt, t);
  }

  /** Text in the first format, whatever suffix gives its microseconds. */
  lemma FracOffsetSuffixReads(dt: DateTime, t: string)
    requires Valid(dt) && SuffixMicros(FracOffset, t) == Some(dt.micro)
    ensures JiraDate(JStr(DateText(dt) + (['T'] + TimeText(dt) + t))) == Some(dt)
  {
    var s := DateText(dt) + (['T'] + TimeText(dt) + t);
    DateTextReads(dt, s[10..]);
    assert s == DateText(dt) + s[10..];
    TimeTextReads(dt, 'T', t);
    assert ParseWith(FracOffset, s) == Some(dt);
    FirstMatchStep(Formats, s);
    assert s != [] && Truthy(JStr(s));
  }

  /** The w leading digits of the microseconds read back, scaled, as the microseconds. */
  lemma ShortFractionDigits(micro: nat, w: nat)
    requires micro < 1000000 && 1 <= w <= 6 && micro % Pow10(6 - w) == 0
    ensures var n := micro / Pow10(6 - w);
      n < Pow10(w) && Fraction(Padded(n, w)) == Some(micro)
  {
    var k := Pow10(6 - w);
    var n := micro / k;
    assert n * k == micro;
    Pow10Add(w, 6 - w);
    assert n * k < Pow10(w) * k;
    PaddedReads(n, w);
  }

  /** A three-digit fraction with a western offset, as the tracker writes it. */
  lemma ReadsMilliseconds()
    ensures JiraDate(JStr("2024-01-15T10:30:05.123-0800")) == Some(DateTime(2024, 1, 15, 10, 30, 5, 123000))
  {
    var dt := DateTime(2024, 1, 15, 10, 30, 5, 123000);
    ExampleOffset();
    assert Pow10(3) == 1000;
    ShortFractionReads(dt, 3, "-0800");
    ExampleSuffixText();
    ExampleTimeText();
    ExampleDateText();
  }

  lemma ExampleOffset()
    ensures IsOffset("-0800")
  {
    var t := "-0800";
    assert t[1..3] == "08" && "08"[..1] == "0";
    assert Number("08") == 8;
  }

  lemma ExampleSuffixText()
    ensures "." + Padded(123, 3) + "-0800" == ".123-0800"
  {
    assert Padded(123, 3) == "123";
  }

  lemma ExampleTimeText()
    ensures ['T'] + TimeText(DateTime(2024, 1, 15, 10, 30, 5, 123000)) + ".123-0800" == "T10:30:05.123-0800"
  {
    ExampleTime();
    ExampleTimeJoin();
  }

  lemma ExampleTime()
    ensures TimeText(DateTime(2024, 1, 15, 10, 30, 5, 123000)) == "10:30:05"
  {
    assert Padded(10, 2) == "10" && Padded(30, 2) == "30" && Padded(5, 2) == "05";
  }

  lemma ExampleTimeJoin()
    ensures ['T'] + "10:30:05" + ".123-0800" == "T10:30:05.123-0800"
  {
  }

  lemma ExampleDateText()
    ensures DateText(DateTime(2024, 1, 15, 10, 30, 5, 123000)) + "T10:30:05.123-0800" == "2024-01-15T10:30:05.123-0800"
  {
    ExampleDate();
    ExampleDateJoin();
  }

  lemma ExampleDateJoin()
    ensures "2024-01-15" + "T10:30:05.123-0800" == "2024-01-15T10:30:05.123-0800"
  {
    assert ("2024-01-15" + "T10:30:05.123-0800")[..10] == "2024-01-15";
  }

  lemma ExampleDate()
    ensures DateText(DateTime(2024, 1, 15, 10, 30, 5, 123000)) == "2024-01-15"
  {
    ExampleYear();
    assert Padded(1, 2) == "01" && Padded(15, 2) == "15";
  }

  lemma ExampleYear()
    ensures Padded(2024, 4) == "2024"
  {
    assert Padded(2, 1) == "2";
    assert Padded(20, 2) == "20";
    assert Padded(202, 3) == "202";
  }

  /** Text that fits none of the formats, and values that are not text, give None. */
  lemma RejectsMalformed()
    ensures JiraDate(JStr("13/40/2024")) == None
    ensures JiraDate(JStr("")) == None && JiraDate(JNull) == None && JiraDate(JNum(20240115)) == None
  {
    var s := "13/40/2024";
    assert !IsDigit(s[2]);
    assert !DigitsAt(s, 0, 4);
    FirstMatchOfFormats(s);
  }

  /** A date that the calendar does not have is refused by every format. */
  lemma RejectsImpossibleDate()
    ensures JiraDate(JStr("2024-02-30")) == None
  {
    var s := "2024-02-30";
    ImpossibleDateOnly();
    NoTimeInDateText(FracOffset, s);
    NoTimeInDateText(Offset, s);
    NoTimeInDateText(FracZulu, s);
    NoTimeInDateText(Zulu, s);
    NoTimeInDateText(SpaceSeparated, s);
    FirstMatchOfFormats(s);
  }

  /** Text shorter than a date and a time fits no format with a time part. */
  lemma NoTimeInDateText(f: Format, s: string)
    requires f != DateOnly && |s| < 19
    ensures ParseWith(f, s) == None
  {
  }

  lemma ImpossibleDateOnly()
    ensures ParseWith(DateOnly, "2024-02-30") == None
  {
    ImpossibleDateFields();
    FebruaryIsShort(NumberAt("2024-02-30", 0, 4));
  }

  lemma FebruaryIsShort(y: int)
    ensures DaysInMonth(y, 2) < 30
  {
  }

  lemma ImpossibleDateFields()
    ensures var s := "2024-02-30"; DatePart(s) && NumberAt(s, 5, 2) == 2 && NumberAt(s, 8, 2) == 30
  {
    var s := "2024-02-30";
    assert s[0..4] == "2024" && IsDigits("2024");
    assert s[5..7] == "02";
    assert s[8..10] == "30";
    assert "02"[..1] == "0" && "0"[..0] == [];
    assert Number("02") == 2;
    assert "30"[..1] == "3" && "3"[..0] == [];
    assert Number("30") == 30;
  }
}
