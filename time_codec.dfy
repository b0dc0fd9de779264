/**
 * Clock strings for the downloader: `format_seconds` renders a duration as
 * `M:SS` or `H:MM:SS`, `timestamp_to_seconds` reads 1 to 3 colon-separated
 * integers back into seconds.
 */
module TimeCodec {
  import opened Wrappers
  import opened Text

  /** `f"{n:02d}"` for a non-negative `n`: at least two digits, zero-padded. */
  function Pad2(n: nat): (r: string)
    ensures n < 100 ==> |r| == 2
    ensures IsDigits(r) && DigitsValue(r) == n
  {
    NatToStringDigits(n);
    if n < 10 then
      var r := "0" + NatToString(n);
      assert r[..1] == "0";
      r
    else NatToString(n)
  }

  /**
   * `format_seconds`: "Unknown" for an absent or zero duration, otherwise
   * hours, minutes and seconds from two divisions by 60, with the hour
   * field only when it is non-zero. The leading field is never padded.
   */
  function FormatSeconds(seconds: Option<nat>): string {
    if seconds.None? || seconds.value == 0 then "Unknown"
    else
      var m, s := seconds.value / 60, seconds.value % 60;
      var h, m := m / 60, m % 60;
      if h > 0 then IntToString(h) + ":" + Pad2(m) + ":" + Pad2(s)
      else IntToString(m) + ":" + Pad2(s)
  }

  /** `list(map(int, parts))`: the integers, or `None` as soon as one token is not an integer. */
  function ParseAll(parts: seq<string>): Option<seq<int>> {
    if |parts| == 0 then Some([])
    else
      match ParseInt(parts[0])
      case None => None
      case Some(v) =>
        match ParseAll(parts[1..])
        case None => None
        case Some(vs) => Some([v] + vs)
  }

  /**
   * `timestamp_to_seconds`: strip the text, split it at ':' and read every
   * piece as an integer. One, two or three values are SS, MM:SS or
   * HH:MM:SS; four or more give 0; any piece that is not an integer gives
   * `None` (the bare `except` of the source).
   */
  function TimestampToSeconds(ts: string): Option<int> {
    match ParseAll(Split(Strip(ts), ':'))
    case None => None
    case Some(v) => Some(ClockValue(v))
  }

  /** The seconds denoted by the integer fields of a timestamp (0 for four fields or more). */
  function ClockValue(v: seq<int>): int {
    if |v| == 3 then v[0] * 3600 + v[1] * 60 + v[2]
    else if |v| == 2 then v[0] * 60 + v[1]
    else if |v| == 1 then v[0]
    else 0
  }

  /** The pieces a clock string is made of: digits only, the leading one unpadded. */
  predicate ClockField(p: string) {
    IsDigits(p) && Unpadded(p)
  }

  predicate TwoDigitField(p: string) {
    IsDigits(p) && |p| == 2 && DigitsValue(p) < 60
  }

  /** Below an hour the rendering is `M:SS`: unpadded minutes, two-digit seconds. */
  lemma FormatSecondsShort(t: nat)
    requires 0 < t < 3600
    ensures var parts := Split(FormatSeconds(Some(t)), ':');
      && |parts| == 2 && ClockField(parts[0]) && TwoDigitField(parts[1])
      && DigitsValue(parts[0]) * 60 + DigitsValue(parts[1]) == t
  {
    var m, s := t / 60, t % 60;
    NatToStringDigits(m);
    var parts := [NatToString(m), Pad2(s)];
    assert FormatSeconds(Some(t)) == Join(parts, ':');
    SplitJoin(parts, ':');
  }

  /** From an hour on it is `H:MM:SS`: unpadded hours, two-digit minutes and seconds. */
  lemma FormatSecondsLong(t: nat)
    requires t >= 3600
    ensures var parts := Split(FormatSeconds(Some(t)), ':');
      && |parts| == 3 && ClockField(parts[0]) && DigitsValue(parts[0]) > 0
      && TwoDigitField(parts[1]) && TwoDigitField(parts[2])
      && DigitsValue(parts[0]) * 3600 + DigitsValue(parts[1]) * 60 + DigitsValue(parts[2]) == t
  {
    var h, m, s := t / 3600, t / 60 % 60, t % 60;
    var parts := [NatToString(h), Pad2(m), Pad2(s)];
    LongRendering(t);
    NatToStringDigits(h);
    SplitJoin(parts, ':');
  }

  /** From an hour on, the rendering joins hours, minutes and seconds with ':'. */
  lemma LongRendering(t: nat)
    requires t >= 3600
    ensures t / 3600 > 0 && t / 60 / 60 == t / 3600 && t / 60 % 60 < 60
    ensures FormatSeconds(Some(t)) == Join([NatToString(t / 3600), Pad2(t / 60 % 60), Pad2(t % 60)], ':')
  {
    var m0, s := t / 60, t % 60;
    var h, m := m0 / 60, m0 % 60;
    assert h == t / 3600 && h >= 1;
    var parts := [NatToString(h), Pad2(m), Pad2(s)];
    assert IntToString(h) == NatToString(h);
    assert FormatSeconds(Some(t)) == NatToString(h) + ":" + Pad2(m) + ":" + Pad2(s);
    assert parts[1..] == [Pad2(m), Pad2(s)];
    assert Join(parts[1..], ':') == Pad2(m) + ":" + Pad2(s);
    assert Join(parts, ':') == parts[0] + ":" + Join(parts[1..], ':');
  }

  /**
   * A string whose ':'-pieces are all digit runs reads as the clock value of
   * those runs: it has no surrounding whitespace to strip and every piece is
   * an integer.
   */
  lemma ReadClock(r: string, parts: seq<string>, v: seq<int>)
    requires |parts| > 0 && Split(r, ':') == parts
    requires forall i :: 0 <= i < |parts| ==> IsDigits(parts[i])
    requires |v| == |parts| && forall i :: 0 <= i < |parts| ==> v[i] == DigitsValue(parts[i])
    ensures TimestampToSeconds(r) == Some(ClockValue(v))
  {
    forall i | 0 <= i < |parts| ensures ParseInt(parts[i]) == Some(v[i]) {
      ParseDigits(parts[i]);
    }
    ParseAllValues(parts, v);
    ClockNotPadded(r, parts);
    ReadParsed(r, r, parts, v);
  }

  /** A clock string has no whitespace at either end. */
  lemma ClockNotPadded(r: string, parts: seq<string>)
    requires |parts| > 0 && Split(r, ':') == parts
    requires forall i :: 0 <= i < |parts| ==> IsDigits(parts[i])
    ensures Strip(r) == r
  {
    JoinFirst(parts, ':');
    JoinLast(parts, ':');
    StripUnchanged(r);
  }

  lemma ReadParsed(r: string, stripped: string, parts: seq<string>, v: seq<int>)
    requires Strip(r) == stripped && Split(stripped, ':') == parts
    requires ParseAll(parts) == Some(v)
    ensures TimestampToSeconds(r) == Some(ClockValue(v))
  {
  }

  lemma {:induction false} ParseAllValues(parts: seq<string>, v: seq<int>)
    requires |v| == |parts| && forall i :: 0 <= i < |parts| ==> ParseInt(parts[i]) == Some(v[i])
    ensures ParseAll(parts) == Some(v)
  {
    if |parts| > 0 {
      ParseAllValues(parts[1..], v[1..]);
      assert v == [v[0]] + v[1..];
    }
  }

  lemma {:induction false} JoinFirst(parts: seq<string>, sep: char)
    requires |parts| > 0 && |parts[0]| > 0
    ensures |Join(parts, sep)| > 0 && Join(parts, sep)[0] == parts[0][0]
  {
  }

  lemma {:induction false} JoinLast(parts: seq<string>, sep: char)
    requires |parts| > 0 && |parts[|parts| - 1]| > 0
    ensures var j := Join(parts, sep); var p := parts[|parts| - 1];
      |j| > 0 && j[|j| - 1] == p[|p| - 1]
  {
    if |parts| > 1 {
      JoinLast(parts[1..], sep);
    }
  }

  /**
   * Every positive duration survives the trip through the clock string,
   * the `H:MM:SS` form included, since it is read back as three fields.
   */
  lemma RoundTrip(t: nat)
    requires t > 0
    ensures TimestampToSeconds(FormatSeconds(Some(t))) == Some(t)
  {
    if t < 3600 {
      RoundTripShort(t);
    } else {
      RoundTripLong(t);
    }
  }

  lemma RoundTripShort(t: nat)
    requires 0 < t < 3600
    ensures TimestampToSeconds(FormatSeconds(Some(t))) == Some(t)
  {
    var r := FormatSeconds(Some(t));
    FormatSecondsShort(t);
    var parts := Split(r, ':');
    ReadTwoFields(r, t, parts, [DigitsValue(parts[0]), DigitsValue(parts[1])]);
  }

  lemma RoundTripLong(t: nat)
    requires t >= 3600
    ensures TimestampToSeconds(FormatSeconds(Some(t))) == Some(t)
  {
    var r := FormatSeconds(Some(t));
    FormatSecondsLong(t);
    var parts := Split(r, ':');
    ReadThreeFields(r, t, parts, [DigitsValue(parts[0]), DigitsValue(parts[1]), DigitsValue(parts[2])]);
  }

  lemma ReadTwoFields(r: string, t: int, parts: seq<string>, v: seq<int>)
    requires parts == Split(r, ':')
    requires |parts| == 2 && IsDigits(parts[0]) && IsDigits(parts[1])
    requires v == [DigitsValue(parts[0]), DigitsValue(parts[1])]
    requires DigitsValue(parts[0]) * 60 + DigitsValue(parts[1]) == t
    ensures TimestampToSeconds(r) == Some(t)
  {
    assert forall i :: 0 <= i < |parts| ==> IsDigits(parts[i]);
    assert forall i :: 0 <= i < |parts| ==> v[i] == DigitsValue(parts[i]);
    ReadClock(r, parts, v);
    assert ClockValue(v) == t;
  }

  lemma ReadThreeFields(r: string, t: int, parts: seq<string>, v: seq<int>)
    requires parts == Split(r, ':')
    requires |parts| == 3 && IsDigits(parts[0]) && IsDigits(parts[1]) && IsDigits(parts[2])
    requires v == [DigitsValue(parts[0]), DigitsValue(parts[1]), DigitsValue(parts[2])]
    requires DigitsValue(parts[0]) * 3600 + DigitsValue(parts[1]) * 60 + DigitsValue(parts[2]) == t
    ensures TimestampToSeconds(r) == Some(t)
  {
    assert forall i :: 0 <= i < |parts| ==> IsDigits(parts[i]);
    assert forall i :: 0 <= i < |parts| ==> v[i] == DigitsValue(parts[i]);
    ReadClock(r, parts, v);
    assert ClockValue(v) == t;
  }

  /** A missing or zero duration renders as "Unknown", which does not parse. */
  lemma UnknownDoesNotParse(seconds: Option<nat>)
    requires seconds.None? || seconds.value == 0
    ensures TimestampToSeconds(FormatSeconds(seconds)).None?
  {
    NotANumber("Unknown");
  }

  /** A single token that is not an integer makes the whole timestamp fail. */
  lemma NotANumber(s: string)
    requires |s| > 0 && !IsSpace(s[0]) && !IsSpace(s[|s| - 1])
    requires NoSep(s, ':') && ParseInt(s).None?
    ensures TimestampToSeconds(s).None?
  {
    StripUnchanged(s);
    SplitJoin([s], ':');
  }

  /** Parse failures: the empty string and a non-numeric token give `None`. */
  lemma ParseFailures()
    ensures TimestampToSeconds("").None?
    ensures TimestampToSeconds("abc").None?
  {
    assert "abc"[0] == 'a' && !IsDigits("abc");
    NotANumber("abc");
    assert Strip("") == "";
    assert ParseInt("").None?;
  }

  /** `list(map(int, parts))` succeeds exactly when every piece is an integer, and keeps their order. */
  lemma {:induction false} ParseAllSpec(parts: seq<string>)
    ensures ParseAll(parts).Some? <==> forall i :: 0 <= i < |parts| ==> ParseInt(parts[i]).Some?
    ensures ParseAll(parts).Some? ==> |ParseAll(parts).value| == |parts|
    ensures ParseAll(parts).Some? ==>
      forall i :: 0 <= i < |parts| ==> ParseAll(parts).value[i] == ParseInt(parts[i]).value
  {
    if |parts| > 0 {
      ParseAllSpec(parts[1..]);
      if ParseInt(parts[0]).Some? && ParseAll(parts[1..]).Some? {
        forall i | 0 <= i < |parts| ensures ParseAll(parts).value[i] == ParseInt(parts[i]).value {
          if i > 0 {
            assert parts[i] == parts[1..][i - 1];
          }
        }
      }
      if ParseInt(parts[0]).Some? && ParseAll(parts[1..]).None? {
        var j :| 0 <= j < |parts[1..]| && ParseInt(parts[1..][j]).None?;
        assert ParseInt(parts[j + 1]).None?;
      }
    }
  }

  /**
   * When every piece is an integer the timestamp is their clock value: one,
   * two or three pieces read as SS, MM:SS or HH:MM:SS, largest unit first,
   * and four or more as 0.
   */
  lemma TimestampFields(ts: string, parts: seq<string>, n: seq<int>)
    requires parts == Split(Strip(ts), ':') && |n| == |parts|
    requires forall i :: 0 <= i < |parts| ==> ParseInt(parts[i]) == Some(n[i])
    ensures TimestampToSeconds(ts) == Some(ClockValue(n))
  {
    ParseAllValues(parts, n);
    ReadParsed(ts, Strip(ts), parts, n);
  }

  /** Any piece that is not an integer makes the whole timestamp `None`. */
  lemma BadFieldFails(ts: string, i: nat)
    requires i < |Split(Strip(ts), ':')| && ParseInt(Split(Strip(ts), ':')[i]).None?
    ensures TimestampToSeconds(ts).None?
  {
    ParseAllSpec(Split(Strip(ts), ':'));
  }

  /** Four or more integer pieces give 0, not `None`. */
  lemma ManyFieldsGiveZero(ts: string)
    requires var parts := Split(Strip(ts), ':');
      |parts| >= 4 && forall i :: 0 <= i < |parts| ==> ParseInt(parts[i]).Some?
    ensures TimestampToSeconds(ts) == Some(0)
  {
    ParseAllSpec(Split(Strip(ts), ':'));
  }

  /** Sample renderings: 312 renders as `5:12`, not the docstring's `05:12`. */
  lemma FormatExamples()
    ensures FormatSeconds(Some(312)) == "5:12"
    ensures FormatSeconds(Some(3661)) == "1:01:01"
    ensures FormatSeconds(Some(0)) == "Unknown" && FormatSeconds(None) == "Unknown"
  {
    FormatFiveTwelve(312);
    FormatOneHourOneMinute(3661);
  }

  lemma FormatFiveTwelve(t: nat)
    requires t == 312
    ensures FormatSeconds(Some(t)) == "5:12"
  {
    assert t / 60 == 5 && t % 60 == 12;
    assert NatToString(12) == NatToString(1) + "2";
    assert Pad2(12) == "12";
  }

  lemma FormatOneHourOneMinute(t: nat)
    requires t == 3661
    ensures FormatSeconds(Some(t)) == "1:01:01"
  {
    assert t / 60 == 61 && t % 60 == 1 && 61 / 60 == 1 && 61 % 60 == 1;
    assert Pad2(1) == "01";
  }

  lemma SplitTwo(a: string, b: string)
    requires NoSep(a, ':') && NoSep(b, ':')
    ensures Split(a + ":" + b, ':') == [a, b]
  {
    var parts := [a, b];
    assert Join(parts, ':') == a + ":" + b;
    SplitJoin(parts, ':');
  }

  lemma SplitThree(a: string, b: string, c: string)
    requires NoSep(a, ':') && NoSep(b, ':') && NoSep(c, ':')
    ensures Split(a + ":" + b + ":" + c, ':') == [a, b, c]
  {
    var parts := [a, b, c];
    assert Join(parts, ':') == a + ":" + b + ":" + c by {
      assert parts[1..] == [b, c];
      assert Join(parts[1..], ':') == b + ":" + c;
      assert Join(parts, ':') == a + ":" + (b + ":" + c);
    }
    SplitJoin(parts, ':');
  }

  /** "1:30" reads as 90 seconds. */
  lemma ParseExampleShort(ts: string)
    requires ts == "1:30"
    ensures TimestampToSeconds(ts) == Some(90)
  {
    assert ts == "1" + ":" + "30";
    SplitTwo("1", "30");
    ReadTwoFields(ts, 90, ["1", "30"], [1, 30]);
  }

  /** "1:00" reads as 60 seconds. */
  lemma ParseOneMinute(ts: string)
    requires ts == "1:00"
    ensures TimestampToSeconds(ts) == Some(60)
  {
    assert ts == "1" + ":" + "00";
    SplitTwo("1", "00");
    ReadTwoFields(ts, 60, ["1", "00"], [1, 0]);
  }

  /** "2:30" reads as 150 seconds. */
  lemma ParseTwoMinutesThirty(ts: string)
    requires ts == "2:30"
    ensures TimestampToSeconds(ts) == Some(150)
  {
    assert ts == "2" + ":" + "30";
    SplitTwo("2", "30");
    ReadTwoFields(ts, 150, ["2", "30"], [2, 30]);
  }

  /** "bad" is not a timestamp. */
  lemma ParseBad(ts: string)
    requires ts == "bad"
    ensures TimestampToSeconds(ts).None?
  {
    assert "bad"[0] == 'b' && !IsDigits("bad");
    NotANumber("bad");
  }

  /** A field separator inside a timestamp is not stripped by `int()`, so the timestamp fails. */
  lemma SeparatorInsideTimestamp(ts: string)
    requires ts == "1:\U{1C}30"
    ensures TimestampToSeconds(ts).None?
  {
    var bad := "\U{1C}30";
    assert ts == "1" + ":" + bad;
    StripUnchanged(ts);
    SplitTwo("1", bad);
    SeparatorFieldFails(bad);
    BadFieldFails(ts, 1);
  }

  lemma SeparatorFieldFails(field: string)
    requires field == "\U{1C}30"
    ensures ParseInt(field).None?
  {
    assert StripNumber(field) == field && !IsDigits(field);
  }

  /** "0:01:30" reads as 90 seconds too. */
  lemma ParseExampleLong(ts: string)
    requires ts == "0:01:30"
    ensures TimestampToSeconds(ts) == Some(90)
  {
    assert ts == "0" + ":" + "01" + ":" + "30";
    SplitThree("0", "01", "30");
    ReadThreeFields(ts, 90, ["0", "01", "30"], [0, 1, 30]);
  }
}
