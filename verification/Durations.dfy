/** Durations of VALARM triggers: the printer of the task writer and the parser of the
  * calendar reader. */
module Durations {
  import opened Wrappers

  const DAY_SECS := 86_400
  const WEEK_SECS := 604_800
  const MICROS := 1_000_000
  const I64_MAX := 0x7FFF_FFFF_FFFF_FFFF

  // ----- decimal numbers -----

  predicate IsDigit(c: char) { '0' <= c <= '9' }

  predicate AllDigits(s: string) { forall i | 0 <= i < |s| :: IsDigit(s[i]) }

  function DigitOf(c: char): nat
    requires IsDigit(c)
  {
    c as int - '0' as int
  }

  function Value(s: string): nat
    requires AllDigits(s)
  {
    if s == "" then 0 else Value(s[..|s| - 1]) * 10 + DigitOf(s[|s| - 1])
  }

  function DigitChar(d: nat): (c: char)
    requires d < 10
    ensures IsDigit(c) && DigitOf(c) == d
  {
    ('0' as int + d) as char
  }

  /** The decimal text of n, without leading zeros. */
  function Digits(n: nat): (s: string)
    ensures s != "" && AllDigits(s) && Value(s) == n
  {
    if n < 10 then [DigitChar(n)] else (
      var rest := Digits(n / 10);
      var s := rest + [DigitChar(n % 10)];
      assert s[..|s| - 1] == rest;
      s)
  }

  /** str::parse::<i64> on a digit string. */
  function ParsedNumber(s: string): Option<int>
    requires AllDigits(s)
  {
    if s == "" || Value(s) > I64_MAX then None else Some(Value(s))
  }

  // ----- parse_ics_duration -----

  function UnitOf(c: char, inTime: bool): Option<int> {
    if c == 'W' then Some(WEEK_SECS)
    else if c == 'D' then Some(DAY_SECS)
    else if c == 'H' && inTime then Some(3600)
    else if c == 'M' && inTime then Some(60)
    else if c == 'S' && inTime then Some(1)
    else None
  }

  /** The rest of the text read with the seconds, the digits and the mode so far. */
  function Read(s: string, seconds: int, number: string, inTime: bool): Option<int>
    requires AllDigits(number)
  {
    if s == "" then (if number == "" then Some(seconds) else None)
    else if s[0] == 'T' then Read(s[1..], seconds, number, true)
    else if IsDigit(s[0]) then Read(s[1..], seconds, number + [s[0]], inTime)
    else
      match UnitOf(s[0], inTime)
      case None => None
      case Some(unit) =>
        match ParsedNumber(number)
        case None => None
        case Some(n) => Read(s[1..], seconds + n * unit, "", inTime)
  }

  function TrimPlus(s: string): string { if s != "" && s[0] == '+' then TrimPlus(s[1..]) else s }

  function ParseDuration(value: string): Option<int> {
    var negative := value != "" && value[0] == '-';
    var body := if negative then value[1..] else TrimPlus(value);
    if body == "" || body[0] != 'P' then None
    else
      match Read(body[1..], 0, "", false)
      case None => None
      case Some(seconds) => Some(if negative then -seconds else seconds)
  }

  method ParseIcsDuration(value: string) returns (r: Option<int>)
    ensures r == ParseDuration(value)
  {
    var negative := value != "" && value[0] == '-';
    var body := if negative then value[1..] else TrimPlus(value);
    if body == "" || body[0] != 'P' {
      return None;
    }
    var text := body[1..];
    var seconds, number, inTime := 0, "", false;
    var k := 0;
    while k < |text|
      invariant 0 <= k <= |text| && AllDigits(number)
      invariant Read(text[k..], seconds, number, inTime) == Read(text, 0, "", false)
    {
      var ch := text[k];
      assert text[k..][0] == ch && text[k..][1..] == text[k + 1..];
      if ch == 'T' {
        inTime := true;
      } else if IsDigit(ch) {
        number := number + [ch];
      } else {
        var unit := UnitOf(ch, inTime);
        if unit == None || ParsedNumber(number) == None {
          return None;
        }
        seconds := seconds + ParsedNumber(number).value * unit.value;
        number := "";
      }
      k := k + 1;
    }
    assert text[k..] == "";
    if number != "" {
      return None;
    }
    r := Some(if negative then -seconds else seconds);
  }

  // ----- format_duration -----

  /** Rust's integer division truncates toward zero. */
  function TruncatedSeconds(micros: int): int { if micros < 0 then -((-micros) / MICROS) else micros / MICROS }

  function Part(n: nat, unit: char): string { if n > 0 then Digits(n) + [unit] else "" }

  function TimePart(rest: nat, days: nat): string {
    var h, m, s := rest / 3600, (rest % 3600) / 60, rest % 60;
    if h > 0 || m > 0 || s > 0 || days == 0 then
      "T" + Part(h, 'H') + Part(m, 'M') + (if s > 0 || (h == 0 && m == 0) then Digits(s) + "S" else "")
    else ""
  }

  function FormatDuration(micros: int): string {
    var secs := TruncatedSeconds(micros);
    var n := if secs < 0 then -secs else secs;
    (if secs < 0 then "-" else "") + "P" + Part(n / DAY_SECS, 'D') + TimePart(n % DAY_SECS, n / DAY_SECS)
  }

  /** push_str of a number and its unit, if the number is not zero. */
  method PushPart(buffer: string, n: nat, unit: char) returns (out: string)
    ensures out == buffer + Part(n, unit)
  {
    hide Digits;
    out := buffer;
    if n > 0 {
      out := out + (Digits(n) + [unit]);
    }
  }

  method PushTime(rest: nat, days: nat) returns (out: string)
    ensures out == TimePart(rest, days)
  {
    hide Digits, Part;
    var h, m, s := rest / 3600, (rest % 3600) / 60, rest % 60;
    if h == 0 && m == 0 && s == 0 && days != 0 {
      return "";
    }
    out := PushPart("T", h, 'H');
    out := PushPart(out, m, 'M');
    if s > 0 || (h == 0 && m == 0) {
      out := out + (Digits(s) + "S");
    }
  }

  method FormatInterval(micros: int) returns (out: string)
    ensures out == FormatDuration(micros)
  {
    hide Digits, TimePart;
    var secs := TruncatedSeconds(micros);
    out := "P";
    if secs < 0 {
      out, secs := "-P", -secs;
    }
    var days, rest := secs / DAY_SECS, secs % DAY_SECS;
    if days > 0 {
      out := out + (Digits(days) + ['D']);
    }
    var time := PushTime(rest, days);
    out := out + time;
  }

  // ----- the round trip -----

  lemma {:induction false} ReadDigits(d: string, rest: string, seconds: int, number: string, inTime: bool)
    requires AllDigits(d) && AllDigits(number)
    ensures AllDigits(number + d) && Read(d + rest, seconds, number, inTime) == Read(rest, seconds, number + d, inTime)
    decreases |d|
  {
    if d == "" {
      assert d + rest == rest && number + d == number;
    } else {
      assert (d + rest)[0] == d[0] && (d + rest)[1..] == d[1..] + rest;
      ReadDigits(d[1..], rest, seconds, number + [d[0]], inTime);
      assert number + [d[0]] + d[1..] == number + d;
    }
  }

  /** A number with its unit adds to the seconds. */
  lemma ReadPart(n: nat, u: char, rest: string, seconds: int, inTime: bool)
    requires n <= I64_MAX && UnitOf(u, inTime).Some?
    ensures Read(Digits(n) + [u] + rest, seconds, "", inTime)
        == Read(rest, seconds + n * UnitOf(u, inTime).value, "", inTime)
  {
    assert Digits(n) + [u] + rest == Digits(n) + ([u] + rest);
    ReadDigits(Digits(n), [u] + rest, seconds, "", inTime);
    assert "" + Digits(n) == Digits(n);
    assert ([u] + rest)[0] == u && ([u] + rest)[1..] == rest;
  }

  lemma ReadOptionalPart(n: nat, u: char, rest: string, seconds: int, inTime: bool)
    requires n <= I64_MAX && UnitOf(u, inTime).Some?
    ensures Read(Part(n, u) + rest, seconds, "", inTime)
        == Read(rest, seconds + n * UnitOf(u, inTime).value, "", inTime)
  {
    if n == 0 {
      assert Part(n, u) + rest == rest;
    } else {
      ReadPart(n, u, rest, seconds, inTime);
    }
  }

  lemma ReadTime(rest: nat, days: nat, seconds: int)
    requires rest < DAY_SECS
    ensures Read(TimePart(rest, days), seconds, "", false) == Some(seconds + rest)
  {
    hide Read, Digits, Part;
    var h, m, s := rest / 3600, (rest % 3600) / 60, rest % 60;
    SplitSeconds(rest);
    if h > 0 || m > 0 || s > 0 || days == 0 {
      var last := if s > 0 || (h == 0 && m == 0) then Digits(s) + "S" else "";
      assert TimePart(rest, days) == "T" + (Part(h, 'H') + (Part(m, 'M') + last));
      ReadT(Part(h, 'H') + (Part(m, 'M') + last), seconds);
      ReadOptionalPart(h, 'H', Part(m, 'M') + last, seconds, true);
      ReadOptionalPart(m, 'M', last, seconds + h * 3600, true);
      ReadLast(s, last, seconds + h * 3600 + m * 60);
    } else {
      ReadEnd(seconds, false);
    }
  }

  lemma SplitSeconds(rest: nat)
    ensures rest == rest / 3600 * 3600 + (rest % 3600) / 60 * 60 + rest % 60
  {
  }

  lemma ReadT(rest: string, seconds: int)
    ensures Read("T" + rest, seconds, "", false) == Read(rest, seconds, "", true)
  {
    assert ("T" + rest)[1..] == rest;
  }

  lemma ReadEnd(seconds: int, inTime: bool)
    ensures Read("", seconds, "", inTime) == Some(seconds)
  {
  }

  lemma ReadLast(s: nat, last: string, seconds: int)
    requires last == Digits(s) + "S" || (s == 0 && last == "")
    requires s < 60
    ensures Read(last, seconds, "", true) == Some(seconds + s)
  {
    ReadEnd(seconds + s, true);
    if last != "" {
      ReadPart(s, 'S', "", seconds, true);
      assert Digits(s) + ['S'] + "" == last;
    }
  }

  /** Every stored interval, negative, zero or of whole days, is read back as its seconds. */
  lemma DurationRoundTrip(micros: int)
    requires -I64_MAX - 1 <= micros <= I64_MAX
    ensures ParseDuration(FormatDuration(micros)) == Some(TruncatedSeconds(micros))
  {
    hide Read, Digits, Part, TimePart;
    var secs := TruncatedSeconds(micros);
    var n := if secs < 0 then -secs else secs;
    var days, rest := n / DAY_SECS, n % DAY_SECS;
    var body := Part(days, 'D') + TimePart(rest, days);
    ReadOptionalPart(days, 'D', TimePart(rest, days), 0, false);
    ReadTime(rest, days, days * DAY_SECS);
    var text := FormatDuration(micros);
    if secs < 0 {
      assert text == ['-'] + (['P'] + body);
      assert text[1..] == ['P'] + body && text[1..][1..] == body;
    } else {
      assert text == ['P'] + body;
      assert text[1..] == body;
      assert TrimPlus(text) == text;
    }
  }

  // ----- what is read, exactly -----

  /** The seconds a unit stands for. */
  function SecondsOf(c: char): int {
    match c
    case 'W' => 7 * 24 * 60 * 60
    case 'D' => 24 * 60 * 60
    case 'H' => 60 * 60
    case 'M' => 60
    case 'S' => 1
    case _ => 0
  }

  /** The digits before place k since the last unit; a T among them counts for nothing. */
  function NumberAt(text: string, k: nat): (d: string)
    requires k <= |text|
    ensures AllDigits(d)
  {
    if k == 0 then ""
    else if IsDigit(text[k - 1]) then NumberAt(text, k - 1) + [text[k - 1]]
    else if text[k - 1] == 'T' then NumberAt(text, k - 1)
    else ""
  }

  /** The numbers before place k times their units, summed up. */
  function Total(text: string, k: nat): int
    requires k <= |text|
  {
    if k == 0 then 0
    else Total(text, k - 1) + Value(NumberAt(text, k - 1)) * SecondsOf(text[k - 1])
  }

  /** A digit, a T, or a unit after a number of 64 bits; hours, minutes and seconds after a T only. */
  predicate PlaceOk(text: string, k: nat)
    requires k < |text|
  {
    || IsDigit(text[k]) || text[k] == 'T'
    || (&& text[k] in "WDHMS" && (text[k] in "HMS" ==> 'T' in text[..k])
        && NumberAt(text, k) != "" && Value(NumberAt(text, k)) <= I64_MAX)
  }

  /** Every place is in order and no number is left without a unit. */
  predicate IsDuration(text: string) {
    (forall k | 0 <= k < |text| :: PlaceOk(text, k)) && NumberAt(text, |text|) == ""
  }

  lemma {:induction false} ReadFrom(text: string, k: nat)
    requires k <= |text| && forall j | 0 <= j < k :: PlaceOk(text, j)
    ensures Read(text[k..], Total(text, k), NumberAt(text, k), 'T' in text[..k])
         == if IsDuration(text) then Some(Total(text, |text|)) else None
    decreases |text| - k
  {
    if k == |text| {
      assert text[k..] == "";
    } else {
      assert text[k..][0] == text[k] && text[k..][1..] == text[k + 1..];
      assert text[..k + 1] == text[..k] + [text[k]];
      if PlaceOk(text, k) {
        PlaceRead(text, k);
        ReadFrom(text, k + 1);
      }
    }
  }

  lemma PlaceRead(text: string, k: nat)
    requires k < |text| && PlaceOk(text, k)
    ensures Read(text[k..], Total(text, k), NumberAt(text, k), 'T' in text[..k])
         == Read(text[k + 1..], Total(text, k + 1), NumberAt(text, k + 1), 'T' in text[..k + 1])
  {
    assert text[k..][0] == text[k] && text[k..][1..] == text[k + 1..];
    assert text[..k + 1] == text[..k] + [text[k]];
  }

  lemma WholeRead(text: string)
    ensures Read(text, 0, "", false) == if IsDuration(text) then Some(Total(text, |text|)) else None
  {
    hide Read, IsDuration;
    ReadFrom(text, 0);
    assert text[0..] == text && 'T' !in text[..0];
  }

  /** The parser exactly: after any number of plus signs, or one minus sign, P and a text of
    * numbers with units, whose sum in seconds is the value. */
  lemma ParsedExactly(value: string)
    ensures value != "" && value[0] == 'P' ==>
              var text := value[1..];
              ParseDuration(value) == if IsDuration(text) then Some(Total(text, |text|)) else None
    ensures |value| >= 2 && value[0] == '-' && value[1] == 'P' ==>
              var text := value[2..];
              ParseDuration(value) == if IsDuration(text) then Some(-Total(text, |text|)) else None
    ensures |value| >= 2 && value[0] == '+' && value[1] != '-' ==> ParseDuration(value) == ParseDuration(value[1..])
    ensures value == "" || value[0] !in "P-+" || (value[0] == '-' && (|value| == 1 || value[1] != 'P'))
              || (value[0] == '+' && (|value| == 1 || value[1] == '-')) ==>
              ParseDuration(value) == None
  {
    hide Read, IsDuration, Total;
    if value != "" {
      WholeRead(value[1..]);
      assert value[0] == '+' ==> TrimPlus(value) == TrimPlus(value[1..]);
      if |value| >= 2 {
        assert value[1] == '-' ==> TrimPlus(value[1..]) == value[1..];
        WholeRead(value[2..]);
        assert value[1..][1..] == value[2..];
      }
    }
  }

  /** n weeks, which the printer never writes. */
  lemma WeeksRead(n: nat)
    requires n <= I64_MAX
    ensures ParseDuration("P" + Digits(n) + "W") == Some(n * 7 * 86_400)
  {
    hide Read, Digits;
    var text := Digits(n) + ['W'];
    assert "P" + Digits(n) + "W" == ['P'] + text;
    assert (['P'] + text)[1..] == text;
    ReadPart(n, 'W', "", 0, false);
    assert text + "" == text;
    ReadEnd(n * WEEK_SECS, false);
  }
}
