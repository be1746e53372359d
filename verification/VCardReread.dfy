/** The whole-card round trip: parsing a written card gives back exactly one card, and
  * which one is known for every card. */
module VCardReread {
  import opened Wrappers
  import opened VCardText
  import opened VCardLines
  import opened VCards
  import opened VCardRoundTrip

  // ----- lines read one after the other -----

  function Folded(card: Card, lines: seq<string>): Card
    decreases |lines|
  {
    if lines == [] then card else Folded(WithRaw(card, lines[0]), lines[1..])
  }

  lemma {:induction false} FoldedSum(card: Card, a: seq<string>, b: seq<string>)
    ensures Folded(card, a + b) == Folded(Folded(card, a), b)
    decreases |a|
  {
    hide WithRaw;
    if a == [] {
      assert a + b == b;
    } else {
      assert (a + b)[0] == a[0] && (a + b)[1..] == a[1..] + b;
      FoldedSum(WithRaw(card, a[0]), a[1..], b);
    }
  }

  lemma FoldedOne(card: Card, line: string)
    ensures Folded(card, [line]) == WithRaw(card, line)
  {
    hide WithRaw;
    assert [line][1..] == [];
    assert Folded(WithRaw(card, line), []) == WithRaw(card, line);
  }

  lemma {:induction false} BodyOfLines(card: Card, lines: seq<string>, end: string, rest: seq<string>)
    requires (forall i | 0 <= i < |lines| :: !Ends(lines[i])) && Ends(end)
    ensures Body(lines + [end] + rest, card) == (Folded(card, lines), rest)
    decreases |lines|
  {
    hide Ends, WithRaw;
    var all := lines + [end] + rest;
    if lines == [] {
      assert all[0] == end && all[1..] == rest;
    } else {
      assert all[0] == lines[0] && all[1..] == lines[1..] + [end] + rest;
      BodyOfLines(WithRaw(card, lines[0]), lines[1..], end, rest);
    }
  }

  // ----- no written line ends the card early -----

  /** The first two characters of END:VCARD. */
  predicate StartsEn(s: string)
    requires |s| >= 2
  {
    LowerChar(s[0]) == 'e' && LowerChar(s[1]) == 'n'
  }

  lemma {:induction false} TrimEndKeeps(s: string, i: nat)
    requires i < |s| && !IsBlank(s[i])
    ensures i < |TrimEnd(s)| && forall j | 0 <= j <= i :: TrimEnd(s)[j] == s[j]
    decreases |s|
  {
    if IsBlank(s[|s| - 1]) {
      TrimEndKeeps(s[..|s| - 1], i);
    }
  }

  lemma NotAnEnd(s: string)
    requires |s| >= 2 && !IsBlank(s[0]) && !IsBlank(s[1]) && !StartsEn(s)
    ensures !Ends(s)
  {
    hide TrimEnd;
    TrimEndKeeps(s, 1);
    assert TrimStart(s) == s;
    var t := Trim(s);
    assert Lower(t)[0] == LowerChar(s[0]) && Lower(t)[1] == LowerChar(s[1]);
    assert Lower("END:VCARD")[0] == 'e' && Lower("END:VCARD")[1] == 'n';
  }

  /** A line the writer may write: sound, and not mistaken for the end. */
  predicate Writable(line: string) {
    |line| >= 3 && !IsBlank(line[0]) && !IsBlank(line[1]) && !StartsEn(line) && '\n' !in line
  }

  lemma WritableLine(line: string)
    requires Writable(line)
    ensures Sound(line) && !Ends(StripCr(line))
  {
    NotAnEnd(StripCr(line));
  }

  lemma {:induction false} EscapeHasNoNewline(f: string)
    ensures '\n' !in Escape(f)
    decreases |f|
  {
    if f == "" {
      EscapeEmpty();
    } else {
      assert f == [f[0]] + f[1..];
      EscapeByChar(f[0], f[1..]);
      EscapeHasNoNewline(f[1..]);
      assert '\n' !in EscapedChar(f[0]);
    }
  }

  lemma HeadWritable(head: string, f: string)
    requires |head| >= 2 && !IsBlank(head[0]) && !IsBlank(head[1]) && !StartsEn(head) && '\n' !in head
    ensures Writable(head + ":" + Escape(f))
  {
    hide Escape;
    EscapeHasNoNewline(f);
    var line := head + ":" + Escape(f);
    assert line[0] == head[0] && line[1] == head[1];
  }

  lemma NameWritable(card: Card)
    ensures Writable(NameLine(card))
  {
    hide Escape;
    EscapeHasNoNewline(card.family.GetOr(""));
    EscapeHasNoNewline(card.given.GetOr(""));
    var line := NameLine(card);
    assert line[0] == 'N' && line[1] == ':';
  }

  lemma HeadLinesWritable(card: Card)
    ensures forall i | 0 <= i < |HeadLines(card)| :: Writable(HeadLines(card)[i])
  {
    hide Escape, NameLine, Writable;
    HeadWritable("UID", card.uid);
    HeadWritable("FN", card.fullName);
    NameWritable(card);
    HeadWritable("ORG", card.org.GetOr(""));
    HeadWritable("TITLE", card.title.GetOr(""));
    KindWritable();
    assert "UID" + ":" + Escape(card.uid) == "UID:" + Escape(card.uid);
    assert "FN" + ":" + Escape(card.fullName) == "FN:" + Escape(card.fullName);
    assert "ORG" + ":" + Escape(card.org.GetOr("")) == "ORG:" + Escape(card.org.GetOr(""));
    assert "TITLE" + ":" + Escape(card.title.GetOr("")) == "TITLE:" + Escape(card.title.GetOr(""));
    forall line | line in HeadLines(card) ensures Writable(line) {
    }
  }

  lemma KindWritable()
    ensures Writable("KIND:group") && Writable("VERSION:3.0")
  {
  }

  lemma EmailWritable(e: Email)
    requires e.kind.Some? ==> KindOk(e.kind.value)
    ensures Writable(EmailLine(e))
  {
    hide Escape;
    HeadWritable(EmailHead(e), e.address);
  }

  lemma TelWritable(t: Tel)
    requires t.kind.Some? ==> KindOk(t.kind.value)
    ensures Writable(TelLine(t))
  {
    hide Escape, CommaJoined;
    TelTypesOk(t);
    if TelTypes(t) != [] {
      CommasSplit(TelTypes(t));
    }
    HeadWritable(TelHead(t), t.number);
  }

  lemma MemberWritable(f: string)
    ensures Writable("MEMBER:" + Escape(f))
  {
    hide Escape, Writable;
    HeadWritable("MEMBER", f);
    assert "MEMBER" + ":" + Escape(f) == "MEMBER:" + Escape(f);
  }

  lemma CardLinesWritable(card: Card)
    requires KindsOk(card)
    ensures forall i | 0 <= i < |CardLines(card)| :: Writable(CardLines(card)[i])
  {
    hide Writable, HeadLines, EmailLine, TelLine, Escape;
    HeadLinesWritable(card);
    forall i | 0 <= i < |card.emails| ensures Writable(EmailLines(card.emails)[i]) {
      EmailWritable(card.emails[i]);
    }
    forall i | 0 <= i < |card.tels| ensures Writable(TelLines(card.tels)[i]) {
      TelWritable(card.tels[i]);
    }
    forall i | 0 <= i < |card.members| ensures Writable(MemberLines(card.members)[i]) {
      MemberWritable(card.members[i]);
    }
  }

  // ----- what comes back -----

  function RereadEmails(es: seq<Email>, first: bool): seq<Email> {
    seq(|es|, i requires 0 <= i < |es| => EmailFrom(Pared(es[i].address), EmailTypes(es[i]), first && i == 0))
  }

  function RereadTels(ts: seq<Tel>, first: bool): seq<Tel> {
    seq(|ts|, i requires 0 <= i < |ts| => TelFrom(Pared(ts[i].number), TelTypes(ts[i]), first && i == 0))
  }

  function PareOption(f: Option<string>): Option<string> { match f case None => None case Some(x) => Some(Pared(x)) }

  function PareAll(fs: seq<string>): seq<string> { seq(|fs|, i requires 0 <= i < |fs| => Pared(fs[i])) }

  /** The card the head lines give. */
  function RereadHead(card: Card): Card {
    EMPTY.(uid := Pared(card.uid), kind := if card.kind == "group" then "group" else "individual",
           fullName := Pared(card.fullName),
           family := NonEmpty(card.family.GetOr("")), given := NonEmpty(card.given.GetOr("")),
           org := PareOption(card.org), title := PareOption(card.title))
  }

  /** The card that a written card reads back as. */
  function Reread(card: Card, minted: string): Card {
    Finished(RereadHead(card).(emails := RereadEmails(card.emails, true), tels := RereadTels(card.tels, true),
                               members := PareAll(card.members)), minted)
  }

  lemma StrippedSum(a: seq<string>, b: seq<string>)
    ensures Stripped(a + b) == Stripped(a) + Stripped(b)
  {
  }

  lemma FoldedStripped(card: Card, a: seq<string>, line: string)
    ensures Folded(card, Stripped(a + [line])) == WithRaw(Folded(card, Stripped(a)), StripCr(line))
  {
    hide WithRaw, Stripped, StripCr;
    StrippedSum(a, [line]);
    StrippedOne(line);
    FoldedSum(card, Stripped(a), [StripCr(line)]);
    FoldedOne(Folded(card, Stripped(a)), StripCr(line));
  }

  lemma StrippedOne(line: string)
    ensures Stripped([line]) == [StripCr(line)]
  {
  }

  lemma {:induction false} EmailsRead(card: Card, es: seq<Email>)
    requires forall i | 0 <= i < |es| && es[i].kind.Some? :: KindOk(es[i].kind.value)
    requires card.emails == []
    ensures Folded(card, Stripped(EmailLines(es))) == card.(emails := RereadEmails(es, true))
    decreases |es|
  {
    hide EmailLine, Pared, EmailTypes, EmailFrom, StripCr, WithRaw, Stripped;
    if es == [] {
      NothingStripped(EmailLines(es));
      assert RereadEmails(es, true) == [];
    } else {
      var n := |es| - 1;
      EmailsRead(card, es[..n]);
      assert EmailLines(es) == EmailLines(es[..n]) + [EmailLine(es[n])];
      FoldedStripped(card, EmailLines(es[..n]), EmailLine(es[n]));
      ReadEmail(card.(emails := RereadEmails(es[..n], true)), es[n]);
      assert RereadEmails(es, true)
          == RereadEmails(es[..n], true) + [EmailFrom(Pared(es[n].address), EmailTypes(es[n]), n == 0)];
    }
  }

  lemma NothingStripped(lines: seq<string>)
    requires lines == []
    ensures Stripped(lines) == []
  {
  }

  lemma {:induction false} TelsRead(card: Card, ts: seq<Tel>)
    requires forall i | 0 <= i < |ts| && ts[i].kind.Some? :: KindOk(ts[i].kind.value)
    requires card.tels == []
    ensures Folded(card, Stripped(TelLines(ts))) == card.(tels := RereadTels(ts, true))
    decreases |ts|
  {
    hide TelLine, Pared, TelTypes, TelFrom, StripCr, WithRaw, Stripped;
    if ts == [] {
      NothingStripped(TelLines(ts));
      assert RereadTels(ts, true) == [];
    } else {
      var n := |ts| - 1;
      TelsRead(card, ts[..n]);
      assert TelLines(ts) == TelLines(ts[..n]) + [TelLine(ts[n])];
      FoldedStripped(card, TelLines(ts[..n]), TelLine(ts[n]));
      ReadTel(card.(tels := RereadTels(ts[..n], true)), ts[n]);
      assert RereadTels(ts, true) == RereadTels(ts[..n], true)
        + [TelFrom(Pared(ts[n].number), TelTypes(ts[n]), n == 0)];
    }
  }

  lemma {:induction false} MembersRead(card: Card, ms: seq<string>)
    requires card.members == []
    ensures Folded(card, Stripped(MemberLines(ms))) == card.(members := PareAll(ms))
    decreases |ms|
  {
    hide Pared, StripCr, WithRaw, Stripped, Escape;
    if ms == [] {
      NothingStripped(MemberLines(ms));
      assert PareAll(ms) == [];
    } else {
      var n := |ms| - 1;
      MembersRead(card, ms[..n]);
      assert MemberLines(ms) == MemberLines(ms[..n]) + ["MEMBER:" + Escape(ms[n])];
      FoldedStripped(card, MemberLines(ms[..n]), "MEMBER:" + Escape(ms[n]));
      ReadMember(card.(members := PareAll(ms[..n])), ms[n]);
      assert PareAll(ms) == PareAll(ms[..n]) + [Pared(ms[n])];
    }
  }

  lemma HeadRead(card: Card)
    ensures Folded(EMPTY, Stripped(HeadLines(card))) == RereadHead(card)
  {
    hide Pared, StripCr, WithRaw, Stripped, Escape, NameLine, Folded;
    var l0 := ["UID:" + Escape(card.uid)];
    NothingStripped([]);
    FoldedNothing(EMPTY);
    FoldedStripped(EMPTY, [], "UID:" + Escape(card.uid));
    assert [] + l0 == l0;
    ReadUid(EMPTY, card.uid);
    var c0 := EMPTY.(uid := Pared(card.uid));
    var l1 := l0 + (if card.kind == "group" then ["KIND:group"] else []);
    var c1 := c0.(kind := if card.kind == "group" then "group" else "individual");
    if card.kind == "group" {
      FoldedStripped(EMPTY, l0, "KIND:group");
      KindHasNoCr();
      ReadKind(c0);
    } else {
      assert l1 == l0;
    }
    assert Folded(EMPTY, Stripped(l1)) == c1;
    FoldedStripped(EMPTY, l1, "FN:" + Escape(card.fullName));
    ReadFullName(c1, card.fullName);
    var l2 := l1 + ["FN:" + Escape(card.fullName)];
    FoldedStripped(EMPTY, l2, NameLine(card));
    ReadName(c1.(fullName := Pared(card.fullName)), card);
    TailRead(card, l2 + [NameLine(card)]);
    assert HeadLines(card) == l2 + [NameLine(card)]
      + (if card.org.Some? then ["ORG:" + Escape(card.org.value)] else [])
      + (if card.title.Some? then ["TITLE:" + Escape(card.title.value)] else []);
  }

  lemma KindHasNoCr()
    ensures StripCr("KIND:group") == "KIND:group" && StripCr("VERSION:3.0") == "VERSION:3.0"
  {
  }

  lemma FoldedNothing(card: Card)
    ensures Folded(card, []) == card
  {
  }

  /** ORG and TITLE after the lines that are always there. */
  lemma TailRead(card: Card, lines: seq<string>)
    requires var c := RereadHead(card); Folded(EMPTY, Stripped(lines)) == c.(org := None, title := None)
    ensures Folded(EMPTY, Stripped(lines
              + (if card.org.Some? then ["ORG:" + Escape(card.org.value)] else [])
              + (if card.title.Some? then ["TITLE:" + Escape(card.title.value)] else []))) == RereadHead(card)
  {
    hide Pared, StripCr, WithRaw, Stripped, Escape, Folded;
    var c := RereadHead(card).(org := None, title := None);
    var l1 := lines + (if card.org.Some? then ["ORG:" + Escape(card.org.value)] else []);
    var c1 := c.(org := PareOption(card.org));
    if card.org.Some? {
      FoldedStripped(EMPTY, lines, "ORG:" + Escape(card.org.value));
      ReadOrg(c, card.org.value);
    } else {
      assert l1 == lines;
    }
    if card.title.Some? {
      FoldedStripped(EMPTY, l1, "TITLE:" + Escape(card.title.value));
      ReadTitle(c1, card.title.value);
    } else {
      assert l1 + [] == l1;
    }
  }

  lemma LinesRead(card: Card)
    requires KindsOk(card)
    ensures Folded(EMPTY, Stripped(["VERSION:3.0"] + CardLines(card)))
         == RereadHead(card).(emails := RereadEmails(card.emails, true), tels := RereadTels(card.tels, true),
                              members := PareAll(card.members))
  {
    hide Pared, StripCr, WithRaw, Stripped, Escape, Folded, HeadLines, EmailLines, TelLines, MemberLines,
      RereadEmails, RereadTels, PareAll;
    var h, e, t, m := HeadLines(card), EmailLines(card.emails), TelLines(card.tels), MemberLines(card.members);
    assert ["VERSION:3.0"] + CardLines(card) == ["VERSION:3.0"] + (h + (e + (t + m)));
    StrippedSum(["VERSION:3.0"], h + (e + (t + m)));
    StrippedSum(h, e + (t + m));
    StrippedSum(e, t + m);
    StrippedSum(t, m);
    StrippedOne("VERSION:3.0");
    KindHasNoCr();
    var rest := Stripped(h) + (Stripped(e) + (Stripped(t) + Stripped(m)));
    FoldedSum(EMPTY, ["VERSION:3.0"], rest);
    FoldedOne(EMPTY, "VERSION:3.0");
    ReadVersion(EMPTY);
    FoldedSum(EMPTY, Stripped(h), Stripped(e) + (Stripped(t) + Stripped(m)));
    HeadRead(card);
    var c := RereadHead(card);
    FoldedSum(c, Stripped(e), Stripped(t) + Stripped(m));
    EmailsRead(c, card.emails);
    var c1 := c.(emails := RereadEmails(card.emails, true));
    FoldedSum(c1, Stripped(t), Stripped(m));
    TelsRead(c1, card.tels);
    MembersRead(c1.(tels := RereadTels(card.tels, true)), card.members);
  }

  lemma BeginAndEnd()
    ensures Begins("BEGIN:VCARD") && Ends("END:VCARD")
    ensures StripCr("BEGIN:VCARD") == "BEGIN:VCARD" && StripCr("END:VCARD") == "END:VCARD"
    ensures Sound("BEGIN:VCARD") && Sound("END:VCARD")
  {
    TrimTrimmed("BEGIN:VCARD");
    TrimTrimmed("END:VCARD");
  }

  lemma AllLinesSound(card: Card)
    requires KindsOk(card)
    ensures var inner := ["VERSION:3.0"] + CardLines(card);
            && (forall i | 0 <= i < |["BEGIN:VCARD"] + inner| :: Sound((["BEGIN:VCARD"] + inner)[i]))
            && (forall i | 0 <= i < |inner| :: !Ends(Stripped(inner)[i]))
  {
    hide Sound, Ends, CardLines, Writable, StripCr;
    BeginAndEnd();
    CardLinesWritable(card);
    KindWritable();
    var inner := ["VERSION:3.0"] + CardLines(card);
    forall i | 0 <= i < |inner| ensures Sound(inner[i]) && !Ends(Stripped(inner)[i]) {
      WritableLine(inner[i]);
    }
  }

  /** Parsing a written card gives back exactly one card: the card itself, with the blanks
    * at the ends of its text fields gone and its types as they were written. */
  lemma RoundTrip(card: Card, mint: nat -> string)
    requires KindsOk(card)
    ensures ParseVCard(WriteVCard(card), mint) == Ok([Reread(card, mint(0))])
  {
    hide Body, CardLines, Stripped, Begins, Ends, Folded, Written, Unfold, Lines, RereadHead, RereadEmails,
      RereadTels, PareAll, Sound, StripCr;
    var inner := ["VERSION:3.0"] + CardLines(card);
    var all := ["BEGIN:VCARD"] + inner + ["END:VCARD"];
    assert all == ["BEGIN:VCARD", "VERSION:3.0"] + CardLines(card) + ["END:VCARD"];
    BeginAndEnd();
    AllLinesSound(card);
    WrittenLinesSurvive(["BEGIN:VCARD"] + inner, "END:VCARD");
    StrippedSum(["BEGIN:VCARD"], inner);
    StrippedOne("BEGIN:VCARD");
    var lines := Stripped(["BEGIN:VCARD"] + inner) + ["END:VCARD"];
    FirstBegins(lines);
    assert lines[0] == "BEGIN:VCARD" && lines[1..] == Stripped(inner) + ["END:VCARD"];
    BodyOfLines(EMPTY, Stripped(inner), "END:VCARD", []);
    assert Stripped(inner) + ["END:VCARD"] + [] == Stripped(inner) + ["END:VCARD"];
    LinesRead(card);
    OneCard(lines, lines[1..], Folded(EMPTY, Stripped(inner)), mint);
  }

  lemma FirstBegins(lines: seq<string>)
    requires lines != [] && Begins(lines[0])
    ensures AfterBegin(lines) == Some(lines[1..])
  {
  }

  lemma OneCard(lines: seq<string>, rest: seq<string>, card: Card, mint: nat -> string)
    requires AfterBegin(lines) == Some(rest) && Body(rest, EMPTY) == (card, [])
    ensures CardsFrom(lines, [], mint) == [Finished(card, mint(0))]
  {
    hide Body, Finished;
    var cards := [Finished(card, mint(0))];
    assert [] + cards == cards;
    assert CardsFrom([], cards, mint) == cards;
  }

  // ----- what is recovered, and what is not -----

  /** Text fields without blanks at their ends. */
  predicate FieldsPared(card: Card) {
    && Pared(card.uid) == card.uid && Pared(card.fullName) == card.fullName
    && PareOption(card.org) == card.org && PareOption(card.title) == card.title
    && (forall i | 0 <= i < |card.emails| :: Pared(card.emails[i].address) == card.emails[i].address)
    && (forall i | 0 <= i < |card.tels| :: Pared(card.tels[i].number) == card.tels[i].number)
    && (forall i | 0 <= i < |card.members| :: Pared(card.members[i]) == card.members[i])
  }

  /** A contact with a UID and a name comes back with its UID, names, organization, title,
    * members, addresses and numbers, in order. */
  lemma ContactRecovered(card: Card, minted: string)
    requires FieldsPared(card) && card.uid != "" && card.fullName != "" && card.kind in {"individual", "group"}
    requires card.given != Some("") && card.family != Some("")
    ensures var r := Reread(card, minted);
            && r.uid == card.uid && r.kind == card.kind && r.fullName == card.fullName
            && r.given == card.given && r.family == card.family && r.org == card.org && r.title == card.title
            && r.members == card.members
            && |r.emails| == |card.emails|
            && (forall i | 0 <= i < |card.emails| :: r.emails[i].address == card.emails[i].address)
            && |r.tels| == |card.tels| && (forall i | 0 <= i < |card.tels| :: r.tels[i].number == card.tels[i].number)
  {
    hide Pared, EmailTypes, TelTypes;
    assert PareAll(card.members) == card.members;
  }

  /** The flags and the kind of an e-mail address: the kind is lost when there is none and
    * the address is primary, and primary is read for the first address and the kind pref. */
  lemma EmailRecovered(e: Email, first: bool)
    requires Pared(e.address) == e.address
    ensures var r := EmailFrom(Pared(e.address), EmailTypes(e), first);
            && (r.isPrimary <==> e.isPrimary || first || (e.kind.Some? && SameIgnoringCase(e.kind.value, "pref")))
            && (r.kind == e.kind <==> if e.kind.Some? then Lower(e.kind.value) == e.kind.value else !e.isPrimary)
  {
    hide Pared;
    PrefIsPref();
    var types := EmailTypes(e);
    assert e.isPrimary ==> types[|types| - 1] == "pref";
    assert e.kind.Some? ==> types[0] == e.kind.value;
  }

  lemma PrefIsPref()
    ensures SameIgnoringCase("pref", "pref") && Lower("pref") == "pref"
    ensures SameIgnoringCase("CELL", "cell") && !SameIgnoringCase("CELL", "pref") && Lower("CELL") == "cell"
    ensures !SameIgnoringCase("pref", "cell") && !SameIgnoringCase("pref", "mobile")
  {
    assert Lower("pref")[0] == 'p' && Lower("cell")[0] == 'c' && Lower("mobile")[0] == 'm' && Lower("CELL")[0] == 'c';
    assert Lower("CELL") == Lower("cell");
    assert Lower("cell") == "cell";
  }

  /** The mobile flag comes back unless the kind itself says cell or mobile; the kind of a
    * mobile number comes back as cell, and any other kind comes back exactly if it is in
    * lower case and is not pref. */
  lemma TelRecovered(t: Tel, first: bool)
    requires Pared(t.number) == t.number
    ensures var r := TelFrom(Pared(t.number), TelTypes(t), first);
            && (r.isMobile <==>
                  t.isMobile
                  || (t.kind.Some? && (SameIgnoringCase(t.kind.value, "cell")
                                      || SameIgnoringCase(t.kind.value, "mobile"))))
            && (t.isMobile ==> r.kind == Some("cell"))
            && (r.kind == t.kind
                <==> if t.isMobile then t.kind == Some("cell")
                     else t.kind.Some? ==>
                       !SameIgnoringCase(t.kind.value, "pref") && Lower(t.kind.value) == t.kind.value)
            && (r.isPrimary <==> t.isPrimary || first || (t.kind.Some? && SameIgnoringCase(t.kind.value, "pref")))
  {
    hide Pared, SameIgnoringCase;
    PrefIsPref();
    var types := TelTypes(t);
    assert t.isMobile ==> types[0] == "CELL";
    assert t.isPrimary ==> types[|types| - 1] == "pref";
    assert t.kind.Some? ==> types[if t.isMobile then 1 else 0] == t.kind.value;
    TelKind(t);
  }

  /** The kind is read from the first type that is not pref. */
  lemma TelKind(t: Tel)
    ensures FirstNotPref(TelTypes(t))
            == if t.isMobile then Some("CELL")
               else if t.kind.Some? && !SameIgnoringCase(t.kind.value, "pref") then t.kind
               else None
  {
    hide SameIgnoringCase;
    PrefIsPref();
    var types := TelTypes(t);
    assert t.isMobile ==> types[0] == "CELL";
    if !t.isMobile {
      match t.kind
      case Some(k) =>
        assert types == [k] + if t.isPrimary then ["pref"] else [];
        assert types[1..] == if t.isPrimary then ["pref"] else [];
      case None =>
        assert types == if t.isPrimary then ["pref"] else [];
    }
    assert |["pref"][1..]| == 0;
  }
}
