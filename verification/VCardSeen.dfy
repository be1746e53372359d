/** What the parser makes of a client's vCard: folded lines, groups, parameters, each property,
  * and several cards in one text. */
module VCardSeen {
  import opened Wrappers
  import opened VCardText
  import opened VCardLines
  import opened VCards
  import opened VCardRoundTrip
  import opened VCardReread

  // ----- folded lines -----

  predicate Indents(c: char) { c == ' ' || c == '\t' }

  lemma {:induction false} IndentTrimmed(ws: string, b: string)
    requires forall i | 0 <= i < |ws| :: Indents(ws[i])
    ensures TrimIndent(ws + b) == TrimIndent(b)
    decreases |ws|
  {
    if ws == "" {
      assert ws + b == b;
    } else {
      assert (ws + b)[0] == ws[0] && (ws + b)[1..] == ws[1..] + b;
      IndentTrimmed(ws[1..], b);
    }
  }

  lemma TrimShortens(b: string)
    ensures |TrimIndent(b)| <= |b|
    ensures TrimIndent(b) == b <==> b == "" || !Indents(b[0])
  {
    if b != "" {
      TrimShortens(b[1..]);
    }
  }

  /** A line broken before b and indented is joined again, less the blanks b begins with. */
  lemma FoldJoined(a: string, ws: string, b: string)
    requires Sound(a) && ws != "" && '\n' !in b && forall i | 0 <= i < |ws| :: Indents(ws[i])
    ensures Unfold(a + "\r\n" + ws + b) == a + TrimIndent(b)
  {
    hide Lines, TrimIndent;
    var line := ws + b;
    assert a + "\r\n" + ws + b == a + "\r\n" + line;
    LinesOfOne(a, line);
    assert Lines(line) == [line] by {
      assert '\n' !in line;
      OneLine(line);
    }
    assert [a, line][..1] == [a] && [a][..0] == [];
    IndentTrimmed(ws, b);
    assert UnfoldAll([a]) == a;
    assert UnfoldAll([a] + [line]) == UnfoldStep(a, line) by {
      assert ([a] + [line])[..1] == [a];
    }
  }

  lemma OneLine(line: string)
    requires line != "" && '\n' !in line
    ensures Lines(line) == [line]
  {
  }

  /** Folding a line at k and unfolding it gives it back exactly if no blank stands at k: a reader
    * that drops one blank would give back every line. */
  lemma FoldSurvivesExactly(s: string, k: nat)
    requires 0 < k < |s| && Sound(s)
    ensures Unfold(s[..k] + "\r\n" + " " + s[k..]) == s <==> s[k] != ' ' && s[k] != '\t'
  {
    hide Unfold, TrimIndent;
    FoldJoined(s[..k], " ", s[k..]);
    TrimShortens(s[k..]);
    assert s == s[..k] + s[k..];
    assert |s[..k] + TrimIndent(s[k..])| == k + |TrimIndent(s[k..])|;
  }

  // ----- names and parameters -----

  lemma {:induction false} SplitLast(a: string, c: char, b: string)
    requires c !in b
    ensures var r := SplitOn(a + [c] + b, c); r[|r| - 1] == b
    decreases |a|
  {
    if c in a {
      var i := IndexOf(a, c).value;
      var (x, y) := (a[..i], a[i + 1..]);
      assert a == x + [c] + y;
      assert a + [c] + b == x + [c] + (y + [c] + b);
      SplitFirst(x, c, y + [c] + b);
      SplitLast(y, c, b);
    } else {
      SplitFirst(a, c, b);
      SplitNone(b, c);
    }
  }

  /** A property under a group, in any case, is the property. */
  lemma GroupDropped(group: string, name: string, value: string)
    requires ':' !in group && ';' !in group && ':' !in name && ';' !in name && '.' !in name
    requires Trimmed(group + "." + name)
    ensures ParseLine(group + "." + name + ":" + value) == Some(Line(Upper(name), [], value))
  {
    hide SplitOn, Upper;
    var head := group + "." + name;
    ParseHead(head, value);
    SplitNone(head, ';');
    assert [head][1..] == [];
    TrimTrimmed(head);
    SplitLast(group, '.', name);
    assert head == group + ['.'] + name;
  }

  /** A parameter is its name in upper case and its value, both trimmed; a segment that is no
    * parameter is passed over. */
  lemma ParamRead(key: string, value: string, more: seq<string>)
    requires '=' !in key
    ensures Params([key + "=" + value] + more) == [(Upper(Trim(key)), Trim(value))] + Params(more)
    ensures Params([key] + more) == Params(more)
  {
    FirstIndex(key, '=', value);
    var seg := key + ['='] + value;
    assert key + "=" + value == seg && seg[..|key|] == key && seg[|key| + 1..] == value;
    assert ([seg] + more)[1..] == more && ([key] + more)[1..] == more;
  }

  /** Only the values of the parameters asked for count, each between commas, in order. */
  lemma ValueRead(key: string, param: (string, string), more: seq<(string, string)>)
    ensures Values([param] + more, key) == (if param.0 == key then SplitOn(param.1, ',') else []) + Values(more, key)
  {
    assert ([param] + more)[1..] == more;
  }

  /** The types of a line: one TYPE parameter of any case, its values between commas. */
  lemma TypesRead(key: string, types: seq<string>)
    requires Upper(Trim(key)) == "TYPE" && '=' !in key && types != [] && TypesOk(types)
    ensures Values(Params([key + "=" + CommaJoined(types)]), "TYPE") == types
  {
    hide SplitOn, Values, Params, CommaJoined;
    ParamRead(key, CommaJoined(types), []);
    CommasSplit(types);
    TrimTrimmed(CommaJoined(types));
    assert [key + "=" + CommaJoined(types)] + [] == [key + "=" + CommaJoined(types)];
    ValueRead("TYPE", ("TYPE", CommaJoined(types)), Params([]));
    NoValues("TYPE");
    assert [("TYPE", CommaJoined(types))] + Params([]) == Params([key + "=" + CommaJoined(types)]);
  }

  // ----- properties -----

  /** A line with a name and no parameters. */
  lemma PlainLine(card: Card, name: string, value: string)
    requires Plain(name)
    ensures WithRaw(card, name + ":" + value) == WithLine(card, Line(name, [], value))
  {
    hide ParseLine, WithLine;
    ParsePlain(name, value);
  }

  /** The address has seven components; the first two, box and extension, are dropped, and an
    * empty one is none. */
  lemma AddressRead(card: Card, parts: seq<string>)
    requires |parts| >= 7
    ensures WithRaw(card, "ADR" + ":" + Joined(parts))
         == card.(street := NonEmpty(parts[2]), locality := NonEmpty(parts[3]), region := NonEmpty(parts[4]),
                  postalCode := NonEmpty(parts[5]), country := NonEmpty(parts[6]))
  {
    hide Components, Joined, WithRaw, WithLine;
    ComponentsInvertJoin(parts);
    PlainLine(card, "ADR", Joined(parts));
    AddressLine(card, Joined(parts), parts);
  }

  lemma AddressLine(card: Card, value: string, parts: seq<string>)
    requires |parts| >= 7 && Components(value) == parts
    ensures WithLine(card, Line("ADR", [], value))
         == card.(street := NonEmpty(parts[2]), locality := NonEmpty(parts[3]), region := NonEmpty(parts[4]),
                  postalCode := NonEmpty(parts[5]), country := NonEmpty(parts[6]))
  {
    hide Components, Text, Values, SameIgnoringCase, EmailFrom, TelFrom;
  }

  /** The name has its family first and its given name second; the rest is dropped. */
  lemma NameRead(card: Card, parts: seq<string>)
    requires |parts| >= 2
    ensures WithRaw(card, "N" + ":" + Joined(parts))
         == card.(family := NonEmpty(parts[0]), given := NonEmpty(parts[1]))
  {
    hide Components, Joined, WithRaw, WithLine;
    ComponentsInvertJoin(parts);
    PlainLine(card, "N", Joined(parts));
    NamePartsLine(card, Joined(parts), parts);
  }

  lemma NamePartsLine(card: Card, value: string, parts: seq<string>)
    requires |parts| >= 2 && Components(value) == parts
    ensures WithLine(card, Line("N", [], value)) == card.(family := NonEmpty(parts[0]), given := NonEmpty(parts[1]))
  {
    hide Components, Text, Values, SameIgnoringCase, EmailFrom, TelFrom;
  }

  /** A card is a group exactly if the last KIND, under either name, is group in any case. */
  lemma KindRead(card: Card, name: string, value: string)
    requires name == "KIND" || name == "X-ADDRESSBOOKSERVER-KIND"
    ensures WithRaw(card, name + ":" + value)
         == card.(kind := if Lower(Trim(value)) == Lower("GROUP") then "group" else "individual")
  {
    hide ParseLine, Values, Text, Components, Lower;
    PlainLine(card, name, value);
    GroupsAlike();
  }

  lemma GroupsAlike()
    ensures Lower("GROUP") == Lower("group")
  {
    assert Lower("GROUP") == "group";
    assert Lower("group") == "group";
  }

  /** A line that carries the types. */
  lemma TypedLine(card: Card, name: string, types: seq<string>, value: string)
    requires Plain(name) && types != [] && TypesOk(types)
    ensures ParseLine(name + ";TYPE=" + CommaJoined(types) + ":" + value).Some?
    ensures var line := ParseLine(name + ";TYPE=" + CommaJoined(types) + ":" + value).value;
            line.name == name && line.value == value && Values(line.params, "TYPE") == types
  {
    hide SplitOn, Values, Params, CommaJoined, NameOf, Trim;
    PlainName(name);
    CommasSplit(types);
    var seg := "TYPE=" + CommaJoined(types);
    var head := name + [';'] + seg;
    assert name + ";TYPE=" + CommaJoined(types) + ":" + value == head + ":" + value;
    ParseHead(head, value);
    assert ';' !in seg && ':' !in seg;
    SplitFirst(name, ';', seg);
    SplitNone(seg, ';');
    assert ([name] + [seg])[0] == name && ([name] + [seg])[1..] == [seg];
    TypeKey();
    TypesRead("TYPE", types);
    assert "TYPE" + "=" + CommaJoined(types) == seg;
  }

  lemma TypeKey()
    ensures Upper(Trim("TYPE")) == "TYPE" && '=' !in "TYPE"
  {
    TrimTrimmed("TYPE");
    assert Upper("TYPE") == "TYPE";
  }

  predicate HasType(types: seq<string>, t: string) { exists i | 0 <= i < |types| :: Lower(types[i]) == Lower(t) }

  /** An address: unescaped, its kind the first type in lower case, primary if it is the first one
    * or one of its types is pref. */
  lemma EmailRead(card: Card, types: seq<string>, value: string)
    requires types != [] && TypesOk(types)
    ensures var r := WithRaw(card, "EMAIL;TYPE=" + CommaJoined(types) + ":" + value);
            && |r.emails| == |card.emails| + 1 && r == card.(emails := r.emails) && card.emails <= r.emails
            && var e := r.emails[|card.emails|];
               && e.address == Unescape(Trim(value)) && e.kind == Some(Lower(types[0]))
               && (e.isPrimary <==> |r.emails| == 1 || HasType(types, "PREF"))
  {
    hide CommaJoined, ParseLine, Values, Unescape, Trim, Lower, HasType, Components;
    assert "EMAIL;TYPE=" + CommaJoined(types) + ":" + value == "EMAIL" + ";TYPE=" + CommaJoined(types) + ":" + value;
    TypedLine(card, "EMAIL", types, value);
    TypesAlike(types);
  }

  lemma TypesAlike(types: seq<string>)
    ensures HasType(types, "PREF") <==> Mentions(types, "pref")
    ensures HasType(types, "CELL") <==> Mentions(types, "cell")
    ensures HasType(types, "MOBILE") <==> Mentions(types, "mobile")
  {
    assert Lower("PREF") == Lower("pref") && Lower("CELL") == Lower("cell") && Lower("MOBILE") == Lower("mobile");
  }

  /** The first type but for pref, in lower case. */
  ghost predicate KindFrom(types: seq<string>, kind: Option<string>) {
    match kind
    case None => forall i | 0 <= i < |types| :: Lower(types[i]) == Lower("PREF")
    case Some(k) =>
      exists i :: 0 <= i < |types| && k == Lower(types[i]) && Lower(types[i]) != Lower("PREF")
        && forall j | 0 <= j < i :: Lower(types[j]) == Lower("PREF")
  }

  lemma {:induction false} FirstKind(types: seq<string>)
    ensures KindFrom(types, LowerOption(FirstNotPref(types)))
    decreases |types|
  {
    hide Lower;
    TypesAlike(types);
    assert Lower("PREF") == Lower("pref") by { PrefAlike(); }
    if types != [] && SameIgnoringCase(types[0], "pref") {
      FirstKind(types[1..]);
      match LowerOption(FirstNotPref(types[1..]))
      case None =>
        forall i | 0 <= i < |types| ensures Lower(types[i]) == Lower("PREF") {
          assert i == 0 || types[i] == types[1..][i - 1];
        }
      case Some(k) =>
        var i :| 0 <= i < |types[1..]| && k == Lower(types[1..][i]) && Lower(types[1..][i]) != Lower("PREF")
          && forall j | 0 <= j < i :: Lower(types[1..][j]) == Lower("PREF");
        assert types[i + 1] == types[1..][i];
        forall j | 0 <= j < i + 1 ensures Lower(types[j]) == Lower("PREF") {
          assert j == 0 || types[j] == types[1..][j - 1];
        }
        assert k == Lower(types[i + 1]);
    }
  }

  lemma PrefAlike()
    ensures Lower("PREF") == Lower("pref")
  {
    assert Lower("PREF") == "pref";
    assert Lower("pref") == "pref";
  }

  /** A number: its kind the first type but for pref, mobile if a type is cell or mobile, primary if
    * it is the first one or one of its types is pref. */
  lemma TelRead(card: Card, types: seq<string>, value: string)
    requires types != [] && TypesOk(types)
    ensures var r := WithRaw(card, "TEL;TYPE=" + CommaJoined(types) + ":" + value);
            && |r.tels| == |card.tels| + 1 && r == card.(tels := r.tels) && card.tels <= r.tels
            && var t := r.tels[|card.tels|];
               && t.number == Unescape(Trim(value)) && KindFrom(types, t.kind)
               && (t.isMobile <==> HasType(types, "CELL") || HasType(types, "MOBILE"))
               && (t.isPrimary <==> |r.tels| == 1 || HasType(types, "PREF"))
  {
    hide CommaJoined, ParseLine, Values, Unescape, Trim, Lower, HasType, Components, KindFrom, FirstNotPref,
      LowerOption;
    assert "TEL;TYPE=" + CommaJoined(types) + ":" + value == "TEL" + ";TYPE=" + CommaJoined(types) + ":" + value;
    TypedLine(card, "TEL", types, value);
    TypesAlike(types);
    FirstKind(types);
  }

  // ----- a whole card -----

  /** A card without a name is called by its given name and its family name, as far as it has
    * them; one without a UID gets the minted one; all else stays as it was read. */
  lemma FinishSeen(card: Card, minted: string)
    ensures var r := Finished(card, minted);
            && r == card.(uid := r.uid, fullName := r.fullName)
            && (card.uid != "" ==> r.uid == card.uid) && (card.uid == "" ==> r.uid == minted)
            && (card.fullName != "" ==> r.fullName == card.fullName)
            && (card.fullName == "" ==>
                  && (card.given.Some? && card.family.Some? ==>
                        r.fullName == card.given.value + " " + card.family.value)
                  && (card.given.Some? && card.family == None ==> r.fullName == card.given.value)
                  && (card.given == None && card.family.Some? ==> r.fullName == card.family.value)
                  && (card.given == None && card.family == None ==> r.fullName == ""))
  {
  }

  lemma {:induction false} BeginSkipped(before: seq<string>, begin: string, rest: seq<string>)
    requires Lower(Trim(begin)) == Lower("Begin:VCard")
    requires forall i | 0 <= i < |before| :: Lower(Trim(before[i])) != Lower("Begin:VCard")
    ensures AfterBegin(before + [begin] + rest) == Some(rest)
    decreases |before|
  {
    hide Lower, Trim;
    FrameCase();
    var all := before + [begin] + rest;
    if before == [] {
      assert all[0] == begin && all[1..] == rest;
    } else {
      assert all[0] == before[0] && all[1..] == before[1..] + [begin] + rest;
      BeginSkipped(before[1..], begin, rest);
    }
  }

  lemma FrameCase()
    ensures Lower("Begin:VCard") == Lower("BEGIN:VCARD") && Lower("End:VCard") == Lower("END:VCARD")
  {
    assert Lower("Begin:VCard") == "begin:vcard" && Lower("BEGIN:VCARD") == "begin:vcard";
    assert Lower("End:VCard") == "end:vcard" && Lower("END:VCARD") == "end:vcard";
  }

  /** One card of a client's text: lines before its BEGIN are passed over, the lines between its
    * BEGIN and its END, each in any case and between blanks, are read one after the other, and
    * what follows is read on from. */
  lemma CardRead(before: seq<string>, begin: string, inner: seq<string>, end: string, rest: seq<string>,
      done: seq<Card>, mint: nat -> string)
    requires Lower(Trim(begin)) == Lower("Begin:VCard") && Lower(Trim(end)) == Lower("End:VCard")
    requires forall i | 0 <= i < |before| :: Lower(Trim(before[i])) != Lower("Begin:VCard")
    requires forall i | 0 <= i < |inner| :: Lower(Trim(inner[i])) != Lower("End:VCard")
    ensures CardsFrom(before + [begin] + (inner + [end] + rest), done, mint)
         == CardsFrom(rest, done + [Finished(Folded(EMPTY, inner), mint(|done|))], mint)
  {
    hide Lower, Trim, Body, AfterBegin, Finished, Folded;
    FrameCase();
    BeginSkipped(before, begin, inner + [end] + rest);
    BodyOfLines(EMPTY, inner, end, rest);
  }

  // ----- several cards in one text -----

  /** The lines of one written card. */
  function Block(card: Card): seq<string> { ["BEGIN:VCARD", "VERSION:3.0"] + CardLines(card) + ["END:VCARD"] }

  function Blocks(cards: seq<Card>): seq<string> {
    if cards == [] then [] else Block(cards[0]) + Blocks(cards[1..])
  }

  /** Cards written one after the other. */
  function WrittenAll(cards: seq<Card>): string {
    if cards == [] then "" else WriteVCard(cards[0]) + WrittenAll(cards[1..])
  }

  function RereadAll(cards: seq<Card>, mint: nat -> string, from: nat): seq<Card> {
    seq(|cards|, i requires 0 <= i < |cards| => Reread(cards[i], mint(from + i)))
  }

  lemma {:induction false} WrittenSum(a: seq<string>, b: seq<string>)
    ensures Written(a + b) == Written(a) + Written(b)
    decreases |b|
  {
    if b == [] {
      assert a + b == a;
    } else {
      var n := |b| - 1;
      assert (a + b)[..|a + b| - 1] == a + b[..n];
      WrittenSum(a, b[..n]);
    }
  }

  lemma {:induction false} BlocksWritten(cards: seq<Card>)
    ensures WrittenAll(cards) == Written(Blocks(cards))
    decreases |cards|
  {
    hide CardLines, Written;
    if cards == [] {
      assert Written([]) == "" by { NothingWritten(); }
    } else {
      BlocksWritten(cards[1..]);
      WrittenSum(Block(cards[0]), Blocks(cards[1..]));
    }
  }

  lemma NothingWritten()
    ensures Written([]) == ""
  {
  }

  predicate AllSound(lines: seq<string>) { forall i | 0 <= i < |lines| :: Sound(lines[i]) }

  lemma BlockSound(card: Card) returns (before: seq<string>)
    requires KindsOk(card)
    ensures Block(card) == before + ["END:VCARD"] && AllSound(before) && AllSound(Block(card))
  {
    hide Sound, Ends, CardLines, Stripped;
    AllLinesSound(card);
    BeginAndEnd();
    before := ["BEGIN:VCARD"] + (["VERSION:3.0"] + CardLines(card));
    assert Block(card) == before + ["END:VCARD"];
  }

  lemma SoundSum(a: seq<string>, b: seq<string>)
    requires AllSound(a) && AllSound(b)
    ensures AllSound(a + b)
  {
    hide Sound;
  }

  /** All lines are sound, and the last one ends a card. */
  lemma {:induction false} BlocksSound(cards: seq<Card>) returns (before: seq<string>)
    requires cards != [] && forall i | 0 <= i < |cards| :: KindsOk(cards[i])
    ensures Blocks(cards) == before + ["END:VCARD"] && AllSound(before)
    decreases |cards|
  {
    hide Sound, KindsOk, CardLines, Block, AllSound;
    before := BlockSound(cards[0]);
    if |cards| == 1 {
      assert Blocks(cards) == Block(cards[0]) + [];
    } else {
      var more := BlocksSound(cards[1..]);
      SoundSum(Block(cards[0]), more);
      before := Block(cards[0]) + more;
    }
  }

  lemma StrippedBlock(card: Card, rest: seq<string>)
    requires KindsOk(card)
    ensures var inner := Stripped(["VERSION:3.0"] + CardLines(card));
            Stripped(Block(card)) + rest == ["BEGIN:VCARD"] + (inner + ["END:VCARD"] + rest)
  {
    hide CardLines, Stripped, Begins, Ends, StripCr, KindsOk;
    var inner := ["VERSION:3.0"] + CardLines(card);
    BeginAndEnd();
    assert Block(card) == ["BEGIN:VCARD"] + inner + ["END:VCARD"];
    StrippedSum(["BEGIN:VCARD"] + inner, ["END:VCARD"]);
    StrippedSum(["BEGIN:VCARD"], inner);
    StrippedOne("BEGIN:VCARD");
    StrippedOne("END:VCARD");
  }

  lemma BlockBody(card: Card, rest: seq<string>)
    requires KindsOk(card)
    ensures Body(Stripped(["VERSION:3.0"] + CardLines(card)) + ["END:VCARD"] + rest, EMPTY)
         == (RereadHead(card).(emails := RereadEmails(card.emails, true), tels := RereadTels(card.tels, true),
                               members := PareAll(card.members)), rest)
  {
    hide Body, CardLines, Stripped, Begins, Ends, Folded, RereadHead, RereadEmails, RereadTels, PareAll, Sound,
      StripCr, KindsOk;
    BeginAndEnd();
    AllLinesSound(card);
    BodyOfLines(EMPTY, Stripped(["VERSION:3.0"] + CardLines(card)), "END:VCARD", rest);
    LinesRead(card);
  }

  lemma CardStep(lines: seq<string>, card: Card, rest: seq<string>, done: seq<Card>, mint: nat -> string)
    requires lines != [] && Begins(lines[0]) && Body(lines[1..], EMPTY) == (card, rest)
    ensures CardsFrom(lines, done, mint) == CardsFrom(rest, done + [Finished(card, mint(|done|))], mint)
  {
    hide Body, Begins, Finished;
    assert AfterBegin(lines) == Some(lines[1..]);
  }

  /** One block more is one card more. */
  lemma BlockRead(card: Card, rest: seq<string>, done: seq<Card>, mint: nat -> string)
    requires KindsOk(card)
    ensures CardsFrom(Stripped(Block(card)) + rest, done, mint)
         == CardsFrom(rest, done + [Reread(card, mint(|done|))], mint)
  {
    hide Body, Block, CardLines, Stripped, Begins, Ends, RereadHead, RereadEmails, RereadTels, PareAll, KindsOk,
      CardsFrom, Finished;
    StrippedBlock(card, rest);
    BlockBody(card, rest);
    BeginAndEnd();
    var lines := Stripped(Block(card)) + rest;
    assert lines[0] == "BEGIN:VCARD";
    assert lines[1..] == Stripped(["VERSION:3.0"] + CardLines(card)) + ["END:VCARD"] + rest;
    var read := Body(lines[1..], EMPTY).0;
    CardStep(lines, read, rest, done, mint);
  }

  lemma NothingReread(mint: nat -> string, from: nat)
    ensures RereadAll([], mint, from) == []
  {
  }

  lemma OneMoreReread(cards: seq<Card>, mint: nat -> string, from: nat)
    requires cards != []
    ensures RereadAll(cards, mint, from) == [Reread(cards[0], mint(from))] + RereadAll(cards[1..], mint, from + 1)
  {
    hide Reread;
  }

  lemma {:induction false} BlocksRead(cards: seq<Card>, done: seq<Card>, mint: nat -> string)
    requires forall i | 0 <= i < |cards| :: KindsOk(cards[i])
    ensures CardsFrom(Stripped(Blocks(cards)), done, mint) == done + RereadAll(cards, mint, |done|)
    decreases |cards|
  {
    hide KindsOk, Block, Stripped, Reread, RereadAll, AfterBegin, Body;
    if cards == [] {
      assert RereadAll(cards, mint, |done|) == [] by { NothingReread(mint, |done|); }
      NothingStripped(Blocks(cards));
      NoBegin([]);
      assert done + RereadAll(cards, mint, |done|) == done;
    } else {
      var one := [Reread(cards[0], mint(|done|))];
      StrippedSum(Block(cards[0]), Blocks(cards[1..]));
      BlockRead(cards[0], Stripped(Blocks(cards[1..])), done, mint);
      BlocksRead(cards[1..], done + one, mint);
      OneMoreReread(cards, mint, |done|);
      assert done + (one + RereadAll(cards[1..], mint, |done| + 1)) == done + RereadAll(cards, mint, |done|);
    }
  }

  lemma BlocksSurvive(cards: seq<Card>)
    requires cards != [] && forall i | 0 <= i < |cards| :: KindsOk(cards[i])
    ensures Lines(Unfold(WrittenAll(cards))) == Stripped(Blocks(cards))
  {
    hide *;
    BlocksWritten(cards);
    var before := BlocksSound(cards);
    LinesSurvive(before);
  }

  lemma LinesSurvive(before: seq<string>)
    requires AllSound(before)
    ensures var lines := before + ["END:VCARD"]; Lines(Unfold(Written(lines))) == Stripped(lines)
  {
    hide Stripped, Lines, Unfold, Written, Sound, StripCr, Begins, Ends;
    BeginAndEnd();
    WrittenLinesSurvive(before, "END:VCARD");
    StrippedSum(before, ["END:VCARD"]);
    StrippedOne("END:VCARD");
  }

  /** A text of cards, each as the writer writes it, is parsed into those cards in order, each the
    * one that its text on its own is parsed into. */
  lemma ManyCards(cards: seq<Card>, mint: nat -> string)
    requires cards != [] && forall i | 0 <= i < |cards| :: KindsOk(cards[i])
    ensures ParseVCard(WrittenAll(cards), mint) == Ok(RereadAll(cards, mint, 0))
    ensures |RereadAll(cards, mint, 0)| == |cards|
    ensures forall i | 0 <= i < |cards| ::
              ParseVCard(WriteVCard(cards[i]), _ => mint(i)) == Ok([RereadAll(cards, mint, 0)[i]])
  {
    hide KindsOk, Blocks, Stripped, Reread, Lines, Unfold, WrittenAll, CardsFrom, WriteVCard;
    BlocksSurvive(cards);
    BlocksRead(cards, [], mint);
    assert [] + RereadAll(cards, mint, 0) == RereadAll(cards, mint, 0);
    forall i | 0 <= i < |cards|
      ensures ParseVCard(WriteVCard(cards[i]), _ => mint(i)) == Ok([RereadAll(cards, mint, 0)[i]])
    {
      RoundTrip(cards[i], _ => mint(i));
    }
  }
}
