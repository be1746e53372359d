/** Lines of a vCard: splitting text into lines, unfolding, and content lines. */
module VCardLines {
  import opened Wrappers

  // ----- characters -----

  /** Unicode White_Space, which trim removes. */
  predicate IsBlank(c: char) {
    var n := c as int;
    || 0x09 <= n <= 0x0D || n == 0x20 || n == 0x85 || n == 0xA0 || n == 0x1680
    || 0x2000 <= n <= 0x200A || n == 0x2028 || n == 0x2029 || n == 0x202F || n == 0x205F || n == 0x3000
  }

  function UpperChar(c: char): char { if 'a' <= c <= 'z' then (c as int - 32) as char else c }

  function LowerChar(c: char): char { if 'A' <= c <= 'Z' then (c as int + 32) as char else c }

  function Upper(s: string): (r: string)
    ensures |r| == |s| && forall i | 0 <= i < |s| :: r[i] == UpperChar(s[i])
  {
    seq(|s|, i requires 0 <= i < |s| => UpperChar(s[i]))
  }

  function Lower(s: string): (r: string)
    ensures |r| == |s| && forall i | 0 <= i < |s| :: r[i] == LowerChar(s[i])
  {
    seq(|s|, i requires 0 <= i < |s| => LowerChar(s[i]))
  }

  /** eq_ignore_ascii_case. */
  predicate SameIgnoringCase(a: string, b: string) { Lower(a) == Lower(b) }

  function TrimStart(s: string): string { if s != "" && IsBlank(s[0]) then TrimStart(s[1..]) else s }

  function TrimEnd(s: string): string { if s != "" && IsBlank(s[|s| - 1]) then TrimEnd(s[..|s| - 1]) else s }

  function Trim(s: string): string { TrimEnd(TrimStart(s)) }

  predicate Trimmed(s: string) { s == "" || (!IsBlank(s[0]) && !IsBlank(s[|s| - 1])) }

  lemma TrimTrimmed(s: string)
    requires Trimmed(s)
    ensures Trim(s) == s
  {
  }

  // ----- splitting -----

  function IndexOf(s: string, c: char): (r: Option<nat>)
    ensures r.Some? ==> r.value < |s| && s[r.value] == c && c !in s[..r.value]
    ensures r == None ==> c !in s
  {
    if s == "" then None
    else if s[0] == c then Some(0)
    else
      match IndexOf(s[1..], c)
      case None => None
      case Some(i) =>
        assert s[..i + 1] == [s[0]] + s[1..][..i];
        Some(i + 1)
  }

  lemma {:induction false} FirstIndex(a: string, c: char, b: string)
    requires c !in a
    ensures IndexOf(a + [c] + b, c) == Some(|a|)
    decreases |a|
  {
    var s := a + [c] + b;
    if a == "" {
      assert s[0] == c;
    } else {
      assert s[0] == a[0] && s[1..] == a[1..] + [c] + b;
      FirstIndex(a[1..], c, b);
    }
  }

  /** str::split on a character: always at least one piece. */
  function SplitOn(s: string, c: char): (r: seq<string>)
    ensures r != []
    decreases |s|
  {
    match IndexOf(s, c)
    case None => [s]
    case Some(i) => [s[..i]] + SplitOn(s[i + 1..], c)
  }

  lemma SplitFirst(a: string, c: char, b: string)
    requires c !in a
    ensures SplitOn(a + [c] + b, c) == [a] + SplitOn(b, c)
  {
    FirstIndex(a, c, b);
    assert (a + [c] + b)[..|a|] == a && (a + [c] + b)[|a| + 1..] == b;
  }

  lemma SplitNone(a: string, c: char)
    requires c !in a
    ensures SplitOn(a, c) == [a]
  {
  }

  function StripCr(s: string): string { if s != "" && s[|s| - 1] == '\r' then s[..|s| - 1] else s }

  /** str::lines: "\n" or "\r\n" ends a line, the last end is optional. */
  function Lines(s: string): seq<string>
    decreases |s|
  {
    if s == "" then []
    else
      match IndexOf(s, '\n')
      case None => [s]
      case Some(i) => [StripCr(s[..i])] + Lines(s[i + 1..])
  }

  // ----- unfolding -----

  function TrimIndent(s: string): string { if s != "" && (s[0] == ' ' || s[0] == '\t') then TrimIndent(s[1..]) else s }

  predicate Continues(line: string) { line != "" && (line[0] == ' ' || line[0] == '\t') }

  function UnfoldStep(out: string, line: string): string {
    if Continues(line) && out != "" then out + TrimIndent(line)
    else if out != "" then out + "\n" + line
    else line
  }

  function UnfoldAll(lines: seq<string>): string {
    if lines == [] then "" else UnfoldStep(UnfoldAll(lines[..|lines| - 1]), lines[|lines| - 1])
  }

  function Unfold(text: string): string { UnfoldAll(Lines(text)) }

  method UnfoldText(text: string) returns (out: string)
    ensures out == Unfold(text)
  {
    var lines := Lines(text);
    out := "";
    var k := 0;
    while k < |lines|
      invariant 0 <= k <= |lines|
      invariant out == UnfoldAll(lines[..k])
    {
      assert lines[..k + 1][..k] == lines[..k];
      var line := lines[k];
      if Continues(line) && out != "" {
        out := out + TrimIndent(line);
      } else {
        if out != "" {
          out := out + "\n";
        }
        out := out + line;
      }
      k := k + 1;
    }
    assert lines[..k] == lines;
  }

  /** A line that reads as itself, but for a carriage return at its end. */
  predicate Sound(line: string) {
    line != "" && line[0] != ' ' && line[0] != '\t' && '\n' !in line
  }

  function Stripped(lines: seq<string>): (r: seq<string>)
    ensures |r| == |lines| && forall i | 0 <= i < |lines| :: r[i] == StripCr(lines[i])
  {
    seq(|lines|, i requires 0 <= i < |lines| => StripCr(lines[i]))
  }

  /** Lines written with CRLF. */
  function Written(lines: seq<string>): string {
    if lines == [] then "" else Written(lines[..|lines| - 1]) + (lines[|lines| - 1] + "\r\n")
  }

  lemma LinesOfOne(line: string, rest: string)
    requires '\n' !in line
    ensures Lines(line + "\r\n" + rest) == [line] + Lines(rest)
  {
    var s := (line + "\r") + ['\n'] + rest;
    assert line + "\r\n" + rest == s;
    FirstIndex(line + "\r", '\n', rest);
    assert s[..|line| + 1] == line + "\r" && s[|line| + 2..] == rest;
  }

  lemma {:induction false} LinesOfWritten(lines: seq<string>, rest: string)
    requires forall i | 0 <= i < |lines| :: '\n' !in lines[i]
    ensures Lines(Written(lines) + rest) == lines + Lines(rest)
    decreases |lines|
  {
    hide Lines;
    if lines == [] {
      assert Written(lines) + rest == rest;
    } else {
      var n := |lines| - 1;
      var tail := lines[n] + "\r\n" + rest;
      assert Written(lines) + rest == Written(lines[..n]) + tail;
      LinesOfWritten(lines[..n], tail);
      LinesOfOne(lines[n], rest);
      assert lines[..n] + ([lines[n]] + Lines(rest)) == lines + Lines(rest);
    }
  }

  /** Lines joined by "\n". */
  function JoinLines(lines: seq<string>): string {
    if lines == [] then ""
    else if |lines| == 1 then lines[0]
    else JoinLines(lines[..|lines| - 1]) + "\n" + lines[|lines| - 1]
  }

  lemma {:induction false} UnfoldSound(lines: seq<string>)
    requires forall i | 0 <= i < |lines| :: Sound(lines[i])
    ensures UnfoldAll(lines) == JoinLines(lines) && (lines != [] ==> JoinLines(lines) != "")
    decreases |lines|
  {
    if |lines| == 1 {
      assert lines[..0] == [];
    } else if lines != [] {
      UnfoldSound(lines[..|lines| - 1]);
    }
  }

  lemma {:induction false} LinesBeforeMore(lines: seq<string>, rest: string)
    requires lines != [] && forall i | 0 <= i < |lines| :: Sound(lines[i])
    ensures Lines(JoinLines(lines) + "\n" + rest) == Stripped(lines) + Lines(rest)
    decreases |lines|
  {
    hide Lines, Sound, StripCr;
    var n := |lines| - 1;
    SoundLine(lines[n], rest);
    if n == 0 {
      assert Stripped(lines) == [StripCr(lines[0])];
    } else {
      LinesBeforeMore(lines[..n], lines[n] + "\n" + rest);
      assert JoinLines(lines) + "\n" + rest == JoinLines(lines[..n]) + "\n" + (lines[n] + "\n" + rest);
      assert Stripped(lines[..n]) + ([StripCr(lines[n])] + Lines(rest)) == Stripped(lines) + Lines(rest);
    }
  }

  lemma JoinedOneMore(before: seq<string>, last: string)
    requires before != []
    ensures JoinLines(before + [last]) == JoinLines(before) + "\n" + last
  {
    assert (before + [last])[..|before|] == before;
  }

  lemma LinesBeforeLast(lines: seq<string>, last: string)
    requires lines != [] && Sound(last) && forall i | 0 <= i < |lines| :: Sound(lines[i])
    ensures Lines(JoinLines(lines) + "\n" + last) == Stripped(lines) + [last]
  {
    hide Lines, Sound, JoinLines, Stripped;
    LinesBeforeMore(lines, last);
    SoundLine(last, "");
  }

  lemma LinesOfJoined(before: seq<string>, last: string)
    requires Sound(last) && StripCr(last) == last && forall i | 0 <= i < |before| :: Sound(before[i])
    ensures Lines(JoinLines(before + [last])) == Stripped(before) + [last]
  {
    hide *;
    if |before| == 0 {
      SoundLine(last, "");
      JoinedOne(before, last);
    } else {
      LinesBeforeLast(before, last);
      JoinedOneMore(before, last);
    }
  }

  lemma JoinedOne(before: seq<string>, last: string)
    requires |before| == 0
    ensures JoinLines(before + [last]) == last && Stripped(before) + [last] == [last]
  {
  }

  lemma SoundLine(line: string, rest: string)
    requires Sound(line)
    ensures Lines(line) == [line] && Lines(line + "\n" + rest) == [StripCr(line)] + Lines(rest)
  {
    FirstIndex(line, '\n', rest);
    var s := line + ['\n'] + rest;
    assert line + "\n" + rest == s;
    assert s[..|line|] == line && s[|line| + 1..] == rest;
  }

  /** Sound lines that are written, split, unfolded and split again lose no more than a
    * carriage return at their ends. */
  lemma WrittenLinesSurvive(before: seq<string>, last: string)
    requires Sound(last) && StripCr(last) == last && forall i | 0 <= i < |before| :: Sound(before[i])
    ensures Lines(Unfold(Written(before + [last]))) == Stripped(before) + [last]
  {
    hide Lines, UnfoldAll, JoinLines, Written, StripCr, Stripped;
    var lines := before + [last];
    LinesOfWritten(lines, "");
    assert Written(lines) + "" == Written(lines);
    NoLines();
    assert lines + [] == lines;
    UnfoldSound(lines);
    LinesOfJoined(before, last);
  }

  lemma NoLines()
    ensures Lines("") == []
  {
  }

  // ----- content lines -----

  datatype Line = Line(name: string, params: seq<(string, string)>, value: string)

  /** The parameters of the segments after the name; a segment without '=' is dropped. */
  function Params(segments: seq<string>): seq<(string, string)> {
    if segments == [] then []
    else
      match IndexOf(segments[0], '=')
      case None => Params(segments[1..])
      case Some(i) =>
        [(Upper(Trim(segments[0][..i])), Trim(segments[0][i + 1..]))] + Params(segments[1..])
  }

  /** The property name: the part after the last '.', in upper case. */
  function NameOf(segment: string): string {
    var groups := SplitOn(Trim(segment), '.');
    Upper(groups[|groups| - 1])
  }

  function ParseLine(raw: string): Option<Line> {
    match IndexOf(raw, ':')
    case None => None
    case Some(i) =>
      var segments := SplitOn(raw[..i], ';');
      Some(Line(NameOf(segments[0]), Params(segments[1..]), raw[i + 1..]))
  }

  /** Upper-case letters and hyphens: a head that reads as itself. */
  predicate Plain(s: string) { s != "" && forall i | 0 <= i < |s| :: 'A' <= s[i] <= 'Z' || s[i] == '-' }

  lemma PlainName(s: string)
    requires Plain(s)
    ensures NameOf(s) == s && Upper(Trim(s)) == s
    ensures ':' !in s && ';' !in s && '=' !in s
  {
    TrimTrimmed(s);
    SplitNone(s, '.');
    assert Upper(s) == s;
  }

  lemma ParseHead(head: string, value: string)
    requires ':' !in head
    ensures var segments := SplitOn(head, ';');
            ParseLine(head + ":" + value) == Some(Line(NameOf(segments[0]), Params(segments[1..]), value))
  {
    hide SplitOn, NameOf, Params;
    FirstIndex(head, ':', value);
    var raw := head + [':'] + value;
    assert head + ":" + value == raw && raw[..|head|] == head && raw[|head| + 1..] == value;
  }

  /** A line without parameters. */
  lemma ParsePlain(name: string, value: string)
    requires Plain(name)
    ensures ParseLine(name + ":" + value) == Some(Line(name, [], value))
  {
    hide NameOf, SplitOn, ParseLine;
    PlainName(name);
    ParseHead(name, value);
    SplitNone(name, ';');
    assert [name][1..] == [];
  }

  lemma ParseParam(key: string, value: string, more: seq<string>)
    requires Plain(key) && Trimmed(value)
    ensures Params([key + "=" + value] + more) == [(key, value)] + Params(more)
  {
    PlainName(key);
    TrimTrimmed(value);
    FirstIndex(key, '=', value);
    var seg := key + ['='] + value;
    assert key + "=" + value == seg && seg[..|key|] == key && seg[|key| + 1..] == value;
    assert ([seg] + more)[1..] == more;
  }
}
