/** Text values of vCards: escaping, unescaping, and structured components. */
module VCardText {
  // ----- escaping -----

  /** str::replace of one character. */
  function Replaced(s: string, c: char, to: string): string {
    if s == "" then "" else (if s[0] == c then to else [s[0]]) + Replaced(s[1..], c, to)
  }

  /** escape_text: four replacements in a row. */
  function Escape(s: string): string {
    Replaced(Replaced(Replaced(Replaced(s, '\\', "\\\\"), ',', "\\,"), ';', "\\;"), '\n', "\\n")
  }

  function EscapedChar(c: char): string {
    if c == '\\' then "\\\\"
    else if c == ',' then "\\,"
    else if c == ';' then "\\;"
    else if c == '\n' then "\\n"
    else [c]
  }

  lemma {:induction false} ReplacedSum(a: string, b: string, c: char, to: string)
    ensures Replaced(a + b, c, to) == Replaced(a, c, to) + Replaced(b, c, to)
    decreases |a|
  {
    if a == "" {
      assert a + b == b;
    } else {
      assert (a + b)[0] == a[0] && (a + b)[1..] == a[1..] + b;
      ReplacedSum(a[1..], b, c, to);
    }
  }

  lemma ReplacedChar(d: char, c: char, to: string)
    ensures Replaced([d], c, to) == if d == c then to else [d]
  {
    assert [d][1..] == "";
  }

  lemma ReplacedPair(d: char, e: char, c: char, to: string)
    requires d != c && e != c
    ensures Replaced([d, e], c, to) == [d, e]
  {
    assert [d, e] == [d] + [e];
    ReplacedSum([d], [e], c, to);
    ReplacedChar(d, c, to);
    ReplacedChar(e, c, to);
  }

  lemma EscapeOfChar(c: char)
    ensures Escape([c]) == EscapedChar(c)
  {
    hide Replaced;
    ReplacedChar(c, '\\', "\\\\");
    if c == '\\' {
      ReplacedPair('\\', '\\', ',', "\\,");
      ReplacedPair('\\', '\\', ';', "\\;");
      ReplacedPair('\\', '\\', '\n', "\\n");
    } else {
      ReplacedChar(c, ',', "\\,");
      if c == ',' {
        ReplacedPair('\\', ',', ';', "\\;");
        ReplacedPair('\\', ',', '\n', "\\n");
      } else {
        ReplacedChar(c, ';', "\\;");
        if c == ';' {
          ReplacedPair('\\', ';', '\n', "\\n");
        } else {
          ReplacedChar(c, '\n', "\\n");
        }
      }
    }
  }

  lemma EscapeSum(a: string, b: string)
    ensures Escape(a + b) == Escape(a) + Escape(b)
  {
    hide Replaced;
    ReplacedSum(a, b, '\\', "\\\\");
    var a1, b1 := Replaced(a, '\\', "\\\\"), Replaced(b, '\\', "\\\\");
    ReplacedSum(a1, b1, ',', "\\,");
    var a2, b2 := Replaced(a1, ',', "\\,"), Replaced(b1, ',', "\\,");
    ReplacedSum(a2, b2, ';', "\\;");
    ReplacedSum(Replaced(a2, ';', "\\;"), Replaced(b2, ';', "\\;"), '\n', "\\n");
  }

  /** The four passes amount to escaping each character on its own. */
  lemma EscapeByChar(c: char, rest: string)
    ensures Escape([c] + rest) == EscapedChar(c) + Escape(rest)
  {
    EscapeOfChar(c);
    EscapeSum([c], rest);
  }

  lemma EscapeEmpty()
    ensures Escape("") == ""
  {
  }

  // ----- unescaping -----

  function Unescape(s: string): string {
    if s == "" then ""
    else if s[0] != '\\' then [s[0]] + Unescape(s[1..])
    else if |s| == 1 then ""
    else [if s[1] == 'n' || s[1] == 'N' then '\n' else s[1]] + Unescape(s[2..])
  }

  lemma UnescapeFrom(value: string, k: nat)
    requires k < |value|
    ensures Unescape(value[k..]) ==
      if value[k] != '\\' then [value[k]] + Unescape(value[k + 1..])
      else if k + 1 == |value| then ""
      else [if value[k + 1] == 'n' || value[k + 1] == 'N' then '\n' else value[k + 1]] + Unescape(value[k + 2..])
  {
    assert value[k..][1..] == value[k + 1..];
    if k + 1 < |value| {
      assert value[k..][2..] == value[k + 2..];
    }
  }

  method UnescapeText(value: string) returns (out: string)
    ensures out == Unescape(value)
  {
    hide Unescape;
    out := "";
    var k := 0;
    assert value[0..] == value;
    while k < |value|
      invariant 0 <= k <= |value|
      invariant out + Unescape(value[k..]) == Unescape(value)
    {
      var c := value[k];
      UnescapeFrom(value, k);
      k := k + 1;
      if c == '\\' {
        if k == |value| {
          return;
        }
        out := out + [if value[k] == 'n' || value[k] == 'N' then '\n' else value[k]];
        k := k + 1;
      } else {
        out := out + [c];
      }
    }
    UnescapeEmpty(value[k..]);
  }

  lemma UnescapeEmpty(s: string)
    requires s == ""
    ensures Unescape(s) == ""
  {
  }

  lemma UnescapeEscapedChar(c: char, rest: string)
    ensures Unescape(EscapedChar(c) + rest) == [c] + Unescape(rest)
  {
    var e := EscapedChar(c);
    if |e| == 1 {
      assert (e + rest)[1..] == rest;
    } else {
      assert (e + rest)[2..] == rest;
    }
  }

  /** unescape_text inverts escape_text on every string. */
  lemma {:induction false} UnescapeInvertsEscape(s: string)
    ensures Unescape(Escape(s)) == s
    decreases |s|
  {
    if s == "" {
      EscapeEmpty();
    } else {
      assert s == [s[0]] + s[1..];
      EscapeByChar(s[0], s[1..]);
      UnescapeEscapedChar(s[0], Escape(s[1..]));
      UnescapeInvertsEscape(s[1..]);
    }
  }

  // ----- structured components -----

  /** The raw pieces between unescaped semicolons. */
  function RawComponents(s: string, current: string, escaped: bool): seq<string> {
    if s == "" then [current]
    else if escaped then RawComponents(s[1..], current + [s[0]], false)
    else if s[0] == '\\' then RawComponents(s[1..], current + [s[0]], true)
    else if s[0] == ';' then [current] + RawComponents(s[1..], "", false)
    else RawComponents(s[1..], current + [s[0]], false)
  }

  function Unescaped(parts: seq<string>): (r: seq<string>)
    ensures |r| == |parts| && forall i | 0 <= i < |parts| :: r[i] == Unescape(parts[i])
  {
    seq(|parts|, i requires 0 <= i < |parts| => Unescape(parts[i]))
  }

  function Components(value: string): seq<string> { Unescaped(RawComponents(value, "", false)) }

  method SplitComponents(value: string) returns (r: seq<string>)
    ensures r == Components(value)
  {
    var parts: seq<string> := [];
    var current := "";
    var escaped := false;
    var k := 0;
    while k < |value|
      invariant 0 <= k <= |value|
      invariant parts + RawComponents(value[k..], current, escaped) == RawComponents(value, "", false)
    {
      var c := value[k];
      assert value[k..][0] == c && value[k..][1..] == value[k + 1..];
      if escaped {
        current, escaped := current + [c], false;
      } else if c == '\\' {
        current, escaped := current + [c], true;
      } else if c == ';' {
        parts, current := parts + [current], "";
      } else {
        current := current + [c];
      }
      k := k + 1;
    }
    assert value[k..] == "";
    parts := parts + [current];
    r := [];
    var i := 0;
    while i < |parts|
      invariant 0 <= i <= |parts| && |r| == i
      invariant forall j | 0 <= j < i :: r[j] == Unescape(parts[j])
    {
      var text := UnescapeText(parts[i]);
      r := r + [text];
      i := i + 1;
    }
    assert r == Unescaped(parts);
  }

  /** Escaped text is passed over whole: none of its semicolons splits. */
  lemma {:induction false} EscapedIsOnePiece(s: string, rest: string, current: string)
    ensures RawComponents(Escape(s) + rest, current, false) == RawComponents(rest, current + Escape(s), false)
    decreases |s|
  {
    if s == "" {
      EscapeEmpty();
      assert Escape(s) + rest == rest && current + Escape(s) == current;
    } else {
      assert s == [s[0]] + s[1..];
      EscapeByChar(s[0], s[1..]);
      var e := EscapedChar(s[0]);
      var tail := Escape(s[1..]) + rest;
      assert Escape(s) + rest == e + tail;
      PieceOfChar(s[0], tail, current);
      EscapedIsOnePiece(s[1..], rest, current + e);
      assert current + e + Escape(s[1..]) == current + Escape(s);
    }
  }

  lemma PieceOfChar(c: char, tail: string, current: string)
    ensures RawComponents(EscapedChar(c) + tail, current, false) == RawComponents(tail, current + EscapedChar(c), false)
  {
    var e := EscapedChar(c);
    if |e| == 1 {
      assert (e + tail)[1..] == tail;
    } else {
      assert (e + tail)[1..] == [e[1]] + tail && ([e[1]] + tail)[1..] == tail;
      assert current + [e[0]] + [e[1]] == current + e;
    }
  }

  /** Parts joined by semicolons, each escaped. */
  function Joined(parts: seq<string>): string
    requires parts != []
  {
    if |parts| == 1 then Escape(parts[0]) else Escape(parts[0]) + ";" + Joined(parts[1..])
  }

  function EscapedAll(parts: seq<string>): (r: seq<string>)
    ensures |r| == |parts| && forall i | 0 <= i < |parts| :: r[i] == Escape(parts[i])
  {
    seq(|parts|, i requires 0 <= i < |parts| => Escape(parts[i]))
  }

  lemma {:induction false} JoinedPieces(parts: seq<string>)
    requires parts != []
    ensures RawComponents(Joined(parts), "", false) == EscapedAll(parts)
    decreases |parts|
  {
    hide Escape;
    var first := Escape(parts[0]);
    if |parts| == 1 {
      EscapedIsOnePiece(parts[0], "", "");
      assert first + "" == first && "" + first == first;
      assert RawComponents("", first, false) == [first];
    } else {
      var rest := ";" + Joined(parts[1..]);
      assert Joined(parts) == first + rest;
      EscapedIsOnePiece(parts[0], rest, "");
      assert rest[0] == ';' && rest[1..] == Joined(parts[1..]);
      assert "" + first == first;
      JoinedPieces(parts[1..]);
    }
  }

  /** split_components inverts the join of escaped parts, whatever the parts hold. */
  lemma ComponentsInvertJoin(parts: seq<string>)
    requires parts != []
    ensures Components(Joined(parts)) == parts
  {
    hide Escape, Unescape, RawComponents;
    JoinedPieces(parts);
    forall i | 0 <= i < |parts| ensures Components(Joined(parts))[i] == parts[i] {
      UnescapeInvertsEscape(parts[i]);
    }
  }
}
