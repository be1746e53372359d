/** Reading back a written vCard: exactly what comes back, for every card. */
module VCardRoundTrip {
  import opened Wrappers
  import opened VCardText
  import opened VCardLines
  import opened VCards

  // ----- what trimming leaves of an escaped text -----

  /** Blanks that trim removes from an escaped text: newlines are escaped, so they stay. */
  predicate Pares(c: char) { IsBlank(c) && c != '\n' }

  function PareStart(f: string): string { if f != "" && Pares(f[0]) then PareStart(f[1..]) else f }

  function PareEnd(f: string): string { if f != "" && Pares(f[|f| - 1]) then PareEnd(f[..|f| - 1]) else f }

  /** f without the blanks at its ends, newlines excepted. */
  function Pared(f: string): string { PareEnd(PareStart(f)) }

  lemma {:induction false} TrimStartEscaped(f: string)
    ensures TrimStart(Escape(f)) == Escape(PareStart(f))
    decreases |f|
  {
    if f == "" {
      EscapeEmpty();
    } else {
      assert f == [f[0]] + f[1..];
      EscapeByChar(f[0], f[1..]);
      if Pares(f[0]) {
        assert Escape(f)[1..] == Escape(f[1..]);
        TrimStartEscaped(f[1..]);
      }
    }
  }

  lemma {:induction false} TrimEndEscaped(f: string)
    ensures TrimEnd(Escape(f)) == Escape(PareEnd(f))
    decreases |f|
  {
    hide Escape;
    if f == "" {
      EscapeEmpty();
    } else {
      var n := |f| - 1;
      assert f == f[..n] + [f[n]];
      EscapeSum(f[..n], [f[n]]);
      EscapeOfChar(f[n]);
      if Pares(f[n]) {
        assert Escape(f)[..|Escape(f)| - 1] == Escape(f[..n]);
        TrimEndEscaped(f[..n]);
      }
    }
  }

  lemma TrimDropsCr(v: string)
    ensures Trim(StripCr(v)) == Trim(v)
  {
    if v != "" && v[|v| - 1] == '\r' {
      DropLastBlank(v);
    }
  }

  lemma {:induction false} DropLastBlank(v: string)
    requires v != "" && IsBlank(v[|v| - 1])
    ensures Trim(v[..|v| - 1]) == Trim(v)
    decreases |v|
  {
    var w := v[..|v| - 1];
    if IsBlank(v[0]) {
      if |v| == 1 {
        assert v[1..] == "" && w == "";
      } else {
        assert w[1..] == v[1..][..|v[1..]| - 1];
        DropLastBlank(v[1..]);
      }
    }
  }

  /** What a text field comes back as: itself without the blanks at its ends. */
  lemma FieldReads(f: string)
    ensures Text(StripCr(Escape(f))) == Pared(f)
  {
    hide Escape, Unescape, TrimStart, TrimEnd, PareStart, PareEnd, StripCr;
    TrimDropsCr(Escape(f));
    TrimStartEscaped(f);
    TrimEndEscaped(PareStart(f));
    UnescapeInvertsEscape(Pared(f));
  }

  /** A field is recovered exactly if neither end is a blank other than a newline. */
  lemma FieldSurvivesExactly(f: string)
    ensures Text(StripCr(Escape(f))) == f <==> f == "" || (!Pares(f[0]) && !Pares(f[|f| - 1]))
  {
    FieldReads(f);
    PareShortens(f);
    PareShortens(PareStart(f));
  }

  lemma {:induction false} PareShortens(f: string)
    ensures |PareStart(f)| <= |f| && |PareEnd(f)| <= |f|
    ensures |PareStart(f)| == |f| <==> f == "" || !Pares(f[0])
    ensures |PareEnd(f)| == |f| <==> f == "" || !Pares(f[|f| - 1])
    ensures f == "" || !Pares(f[0]) ==> PareStart(f) == f
    decreases |f|
  {
    if f != "" {
      PareShortens(f[1..]);
      PareShortens(f[..|f| - 1]);
    }
  }

  // ----- reading back one line -----

  lemma StripAfterHead(head: string, v: string)
    ensures StripCr(head + ":" + v) == head + ":" + StripCr(v)
  {
    var line := head + ":" + v;
    if v != "" && v[|v| - 1] == '\r' {
      assert line[..|line| - 1] == head + ":" + v[..|v| - 1];
    }
  }

  /** A plain line reads as its name and its value, less a carriage return. */
  lemma ReadPlain(card: Card, name: string, v: string)
    requires Plain(name)
    ensures WithRaw(card, StripCr(name + ":" + v)) == WithLine(card, Line(name, [], StripCr(v)))
  {
    hide ParseLine, WithLine, StripCr;
    StripAfterHead(name, v);
    ParsePlain(name, StripCr(v));
  }

  lemma ReadUid(card: Card, f: string)
    ensures WithRaw(card, StripCr("UID:" + Escape(f))) == card.(uid := Pared(f))
  {
    hide Text, Pared, StripCr, ParseLine;
    assert "UID:" + Escape(f) == "UID" + ":" + Escape(f);
    ReadPlain(card, "UID", Escape(f));
    FieldReads(f);
  }

  lemma ReadFullName(card: Card, f: string)
    ensures WithRaw(card, StripCr("FN:" + Escape(f))) == card.(fullName := Pared(f))
  {
    hide Text, Pared, StripCr, ParseLine;
    assert "FN:" + Escape(f) == "FN" + ":" + Escape(f);
    ReadPlain(card, "FN", Escape(f));
    FieldReads(f);
  }

  lemma ReadOrg(card: Card, f: string)
    ensures WithRaw(card, StripCr("ORG:" + Escape(f))) == card.(org := Some(Pared(f)))
  {
    hide Text, Pared, StripCr, ParseLine;
    assert "ORG:" + Escape(f) == "ORG" + ":" + Escape(f);
    ReadPlain(card, "ORG", Escape(f));
    FieldReads(f);
  }

  lemma ReadTitle(card: Card, f: string)
    ensures WithRaw(card, StripCr("TITLE:" + Escape(f))) == card.(title := Some(Pared(f)))
  {
    hide Text, Pared, StripCr, ParseLine;
    assert "TITLE:" + Escape(f) == "TITLE" + ":" + Escape(f);
    ReadPlain(card, "TITLE", Escape(f));
    FieldReads(f);
  }

  lemma ReadMember(card: Card, f: string)
    ensures WithRaw(card, StripCr("MEMBER:" + Escape(f))) == card.(members := card.members + [Pared(f)])
  {
    hide Text, Pared, StripCr, ParseLine;
    assert "MEMBER:" + Escape(f) == "MEMBER" + ":" + Escape(f);
    ReadPlain(card, "MEMBER", Escape(f));
    FieldReads(f);
  }

  lemma ReadVersion(card: Card)
    ensures WithRaw(card, "VERSION:3.0") == card
  {
    hide ParseLine, Values, Text, Components;
    assert "VERSION:3.0" == "VERSION" + ":" + "3.0";
    ParsePlain("VERSION", "3.0");
  }

  lemma ReadKind(card: Card)
    ensures WithRaw(card, "KIND:group") == card.(kind := "group")
  {
    hide ParseLine, Values, Text, Components;
    assert "KIND:group" == "KIND" + ":" + "group";
    ParsePlain("KIND", "group");
    TrimTrimmed("group");
  }

  function NonEmpty(s: string): Option<string> { if s == "" then None else Some(s) }

  lemma NameJoined(family: string, given: string)
    ensures Joined([family, given, "", "", ""]) == Escape(family) + ";" + Escape(given) + ";;;"
  {
    hide Escape;
    EscapeEmpty();
    var tail := ["", "", ""];
    assert Joined([""]) == "";
    assert ["", ""][1..] == [""];
    assert Joined(["", ""]) == ";";
    assert tail[1..] == ["", ""];
    assert Joined(tail) == ";;";
    assert [given, "", "", ""][1..] == tail;
    assert Joined([given, "", "", ""]) == Escape(given) + ";" + ";;";
    assert [family, given, "", "", ""][1..] == [given, "", "", ""];
  }

  lemma ReadName(card: Card, from: Card)
    ensures WithRaw(card, StripCr(NameLine(from)))
         == card.(family := NonEmpty(from.family.GetOr("")), given := NonEmpty(from.given.GetOr("")))
  {
    hide Components, Escape, ParseLine, Joined;
    var family, given := from.family.GetOr(""), from.given.GetOr("");
    var value := Escape(family) + ";" + Escape(given) + ";;;";
    assert NameLine(from) == "N" + ":" + value;
    ReadPlain(card, "N", value);
    assert value[|value| - 1] == ';';
    NameJoined(family, given);
    ComponentsInvertJoin([family, given, "", "", ""]);
  }

  // ----- addresses and their types -----

  /** A kind that can stand in a TYPE parameter: trimmed, and free of separators. */
  predicate KindOk(k: string) { Trimmed(k) && ':' !in k && ';' !in k && ',' !in k && '\n' !in k }

  predicate KindsOk(card: Card) {
    && (forall i | 0 <= i < |card.emails| && card.emails[i].kind.Some? :: KindOk(card.emails[i].kind.value))
    && (forall i | 0 <= i < |card.tels| && card.tels[i].kind.Some? :: KindOk(card.tels[i].kind.value))
  }

  function EmailTypes(e: Email): seq<string> {
    (if e.kind.Some? then [e.kind.value] else []) + (if e.isPrimary then ["pref"] else [])
  }

  function TypeSegments(types: seq<string>): seq<string> {
    if types == [] then [] else ["TYPE=" + types[0]] + TypeSegments(types[1..])
  }

  predicate TypesOk(types: seq<string>) { forall i | 0 <= i < |types| :: KindOk(types[i]) }

  /** Each TYPE parameter with one value gives that value. */
  lemma {:induction false} ValuesOfSegments(types: seq<string>)
    requires TypesOk(types)
    ensures Values(Params(TypeSegments(types)), "TYPE") == types
    decreases |types|
  {
    hide Values, Params, SplitOn;
    if types == [] {
      NoValues("TYPE");
    } else {
      ValuesOfSegments(types[1..]);
      OneMoreType(types[0], TypeSegments(types[1..]));
      assert [types[0]] + types[1..] == types;
    }
  }

  lemma NoValues(key: string)
    ensures Values(Params([]), key) == []
  {
  }

  lemma OneMoreType(t: string, more: seq<string>)
    requires Trimmed(t)
    ensures Values(Params(["TYPE=" + t] + more), "TYPE") == SplitOn(t, ',') + Values(Params(more), "TYPE")
    ensures ',' !in t ==> SplitOn(t, ',') == [t]
  {
    hide Values, Params, SplitOn;
    assert "TYPE=" + t == "TYPE" + "=" + t;
    ParseParam("TYPE", t, more);
    ValuesOneMore("TYPE", t, Params(more));
    if ',' !in t {
      SplitNone(t, ',');
    }
  }

  lemma ValuesOneMore(key: string, value: string, more: seq<(string, string)>)
    ensures Values([(key, value)] + more, key) == SplitOn(value, ',') + Values(more, key)
  {
    assert ([(key, value)] + more)[1..] == more;
  }

  function Semicoloned(segments: seq<string>): string {
    if segments == [] then "" else ";" + segments[0] + Semicoloned(segments[1..])
  }

  lemma {:induction false} SplitSegments(first: string, segments: seq<string>)
    requires ';' !in first && forall i | 0 <= i < |segments| :: ';' !in segments[i]
    ensures SplitOn(first + Semicoloned(segments), ';') == [first] + segments
    decreases |segments|
  {
    if segments == [] {
      assert first + Semicoloned(segments) == first;
      SplitNone(first, ';');
    } else {
      var rest := segments[0] + Semicoloned(segments[1..]);
      assert first + Semicoloned(segments) == first + [';'] + rest;
      SplitFirst(first, ';', rest);
      SplitSegments(segments[0], segments[1..]);
      assert [segments[0]] + segments[1..] == segments;
    }
  }

  /** A line whose head carries segments reads its parameters from them. */
  lemma ReadSegments(card: Card, name: string, segments: seq<string>, v: string)
    requires Plain(name) && ':' !in Semicoloned(segments) && forall i | 0 <= i < |segments| :: ';' !in segments[i]
    ensures WithRaw(card, StripCr(name + Semicoloned(segments) + ":" + v))
         == WithLine(card, Line(name, Params(segments), StripCr(v)))
  {
    hide WithLine, Params, NameOf, SplitOn, StripCr, ParseLine;
    var head := name + Semicoloned(segments);
    PlainName(name);
    StripAfterHead(head, v);
    ParseHead(head, StripCr(v));
    SplitSegments(name, segments);
    assert ([name] + segments)[0] == name && ([name] + segments)[1..] == segments;
  }

  lemma {:induction false} SegmentsHaveNo(types: seq<string>, c: char)
    requires forall i | 0 <= i < |types| :: c !in types[i]
    requires c !in "TYPE="
    ensures forall i | 0 <= i < |TypeSegments(types)| :: c !in TypeSegments(types)[i]
    ensures c != ';' ==> c !in Semicoloned(TypeSegments(types))
    decreases |types|
  {
    if types != [] {
      SegmentsHaveNo(types[1..], c);
      assert TypeSegments(types)[1..] == TypeSegments(types[1..]);
    }
  }

  lemma EmailTypesOk(e: Email)
    requires e.kind.Some? ==> KindOk(e.kind.value)
    ensures TypesOk(EmailTypes(e))
  {
  }

  lemma EmailHeadSegments(e: Email)
    ensures EmailHead(e) == "EMAIL" + Semicoloned(TypeSegments(EmailTypes(e)))
  {
    var types := EmailTypes(e);
    if |types| == 1 {
      assert types[1..] == [];
      assert TypeSegments(types)[1..] == [];
    } else if |types| == 2 {
      assert types[1..] == ["pref"] && ["pref"][1..] == [];
      assert TypeSegments(types)[1..] == TypeSegments(["pref"]);
      assert TypeSegments(["pref"])[1..] == [];
    }
  }

  lemma ReadEmail(card: Card, e: Email)
    requires e.kind.Some? ==> KindOk(e.kind.value)
    ensures WithRaw(card, StripCr(EmailLine(e)))
         == card.(emails := card.emails + [EmailFrom(Pared(e.address), EmailTypes(e), card.emails == [])])
  {
    hide Text, Pared, StripCr, ParseLine, Semicoloned, TypeSegments, Values, Params, Escape, EmailTypes, EmailFrom,
      WithRaw;
    var types := EmailTypes(e);
    EmailTypesOk(e);
    EmailHeadSegments(e);
    SegmentsHaveNo(types, ':');
    SegmentsHaveNo(types, ';');
    ReadSegments(card, "EMAIL", TypeSegments(types), Escape(e.address));
    ValuesOfSegments(types);
    FieldReads(e.address);
  }

  // ----- telephones -----

  lemma {:induction false} CommasSplit(types: seq<string>)
    requires types != [] && TypesOk(types)
    ensures SplitOn(CommaJoined(types), ',') == types
    ensures ':' !in CommaJoined(types) && ';' !in CommaJoined(types) && '\n' !in CommaJoined(types)
    ensures Trimmed(CommaJoined(types))
    decreases |types|
  {
    if |types| == 1 {
      SplitNone(types[0], ',');
    } else {
      var rest := CommaJoined(types[1..]);
      CommasSplit(types[1..]);
      assert CommaJoined(types) == types[0] + [','] + rest;
      SplitFirst(types[0], ',', rest);
      assert [types[0]] + types[1..] == types;
    }
  }

  lemma TelTypesOk(t: Tel)
    requires t.kind.Some? ==> KindOk(t.kind.value)
    ensures TypesOk(TelTypes(t))
  {
  }

  function TelSegments(t: Tel): seq<string> { if TelTypes(t) == [] then [] else ["TYPE=" + CommaJoined(TelTypes(t))] }

  lemma TelHeadSegments(t: Tel)
    ensures TelHead(t) == "TEL" + Semicoloned(TelSegments(t))
  {
    hide CommaJoined;
    if TelTypes(t) != [] {
      assert TelSegments(t)[1..] == [];
    }
  }

  lemma TelValues(t: Tel)
    requires t.kind.Some? ==> KindOk(t.kind.value)
    ensures Values(Params(TelSegments(t)), "TYPE") == TelTypes(t)
    ensures ':' !in Semicoloned(TelSegments(t)) && forall i | 0 <= i < |TelSegments(t)| :: ';' !in TelSegments(t)[i]
  {
    hide CommaJoined, TelTypes, SplitOn, Values, Params;
    TelTypesOk(t);
    NoValues("TYPE");
    var types := TelTypes(t);
    if types != [] {
      CommasSplit(types);
      OneMoreType(CommaJoined(types), []);
      assert TelSegments(t) == ["TYPE=" + CommaJoined(types)] + [];
      assert TelSegments(t)[1..] == [];
    }
  }

  lemma ReadTel(card: Card, t: Tel)
    requires t.kind.Some? ==> KindOk(t.kind.value)
    ensures WithRaw(card, StripCr(TelLine(t)))
         == card.(tels := card.tels + [TelFrom(Pared(t.number), TelTypes(t), card.tels == [])])
  {
    hide Text, Pared, StripCr, ParseLine, Semicoloned, TelSegments, Values, Params, Escape, TelTypes, TelFrom, WithRaw;
    TelHeadSegments(t);
    TelValues(t);
    ReadSegments(card, "TEL", TelSegments(t), Escape(t.number));
    FieldReads(t.number);
  }
}
