/** Whole vCards: the parser of client cards and the writer of vCard 3.0. */
module VCards {
  import opened Wrappers
  import opened VCardText
  import opened VCardLines

  datatype Email = Email(address: string, kind: Option<string>, isPrimary: bool)

  datatype Tel = Tel(number: string, kind: Option<string>, isMobile: bool, isPrimary: bool)

  datatype Card = Card(
    uid: string, kind: string, fullName: string, given: Option<string>, family: Option<string>,
    org: Option<string>, title: Option<string>,
    street: Option<string>, locality: Option<string>, region: Option<string>, postalCode: Option<string>,
    country: Option<string>,
    emails: seq<Email>, tels: seq<Tel>, members: seq<string>)

  datatype VCardError = NotAVCard

  const EMPTY := Card("", "individual", "", None, None, None, None, None, None, None, None, None, [], [], [])

  // ----- reading -----

  function Values(params: seq<(string, string)>, key: string): seq<string> {
    if params == [] then []
    else (if params[0].0 == key then SplitOn(params[0].1, ',') else []) + Values(params[1..], key)
  }

  /** A text value: trimmed, then unescaped. */
  function Text(value: string): string { Unescape(Trim(value)) }

  /** The n-th component, if it is there and not empty. */
  function Component(parts: seq<string>, n: nat): Option<string> {
    if n < |parts| && parts[n] != "" then Some(parts[n]) else None
  }

  predicate Mentions(types: seq<string>, t: string) { exists i | 0 <= i < |types| :: SameIgnoringCase(types[i], t) }

  function FirstNotPref(types: seq<string>): Option<string> {
    if types == [] then None
    else if !SameIgnoringCase(types[0], "pref") then Some(types[0])
    else FirstNotPref(types[1..])
  }

  function LowerOption(t: Option<string>): Option<string> { match t case None => None case Some(x) => Some(Lower(x)) }

  function EmailFrom(address: string, types: seq<string>, first: bool): Email {
    Email(address, if types == [] then None else Some(Lower(types[0])), Mentions(types, "pref") || first)
  }

  function TelFrom(number: string, types: seq<string>, first: bool): Tel {
    Tel(number, LowerOption(FirstNotPref(types)), Mentions(types, "cell") || Mentions(types, "mobile"),
        Mentions(types, "pref") || first)
  }

  function WithLine(card: Card, line: Line): Card {
    if line.name == "UID" then card.(uid := Text(line.value))
    else if line.name == "KIND" || line.name == "X-ADDRESSBOOKSERVER-KIND" then
      card.(kind := if SameIgnoringCase(Trim(line.value), "group") then "group" else "individual")
    else if line.name == "FN" then card.(fullName := Text(line.value))
    else if line.name == "N" then
      var parts := Components(line.value);
      card.(family := Component(parts, 0), given := Component(parts, 1))
    else if line.name == "ORG" then card.(org := Some(Text(line.value)))
    else if line.name == "TITLE" then card.(title := Some(Text(line.value)))
    else if line.name == "ADR" then
      var parts := Components(line.value);
      card.(street := Component(parts, 2), locality := Component(parts, 3), region := Component(parts, 4),
            postalCode := Component(parts, 5), country := Component(parts, 6))
    else if line.name == "EMAIL" then
      card.(emails := card.emails + [EmailFrom(Text(line.value), Values(line.params, "TYPE"), card.emails == [])])
    else if line.name == "TEL" then
      card.(tels := card.tels + [TelFrom(Text(line.value), Values(line.params, "TYPE"), card.tels == [])])
    else if line.name == "MEMBER" then card.(members := card.members + [Text(line.value)])
    else card
  }

  function WithRaw(card: Card, raw: string): Card {
    match ParseLine(raw)
    case None => card
    case Some(line) => WithLine(card, line)
  }

  predicate Begins(raw: string) { SameIgnoringCase(Trim(raw), "BEGIN:VCARD") }

  predicate Ends(raw: string) { SameIgnoringCase(Trim(raw), "END:VCARD") }

  /** The card up to END:VCARD, or to the end of the text, and the lines after it. */
  function Body(lines: seq<string>, card: Card): (r: (Card, seq<string>))
    ensures |r.1| <= |lines|
  {
    if lines == [] then (card, [])
    else if Ends(lines[0]) then (card, lines[1..])
    else Body(lines[1..], WithRaw(card, lines[0]))
  }

  /** The lines after the next BEGIN:VCARD. */
  function AfterBegin(lines: seq<string>): (r: Option<seq<string>>)
    ensures r.Some? ==> |r.value| < |lines|
  {
    if lines == [] then None
    else if Begins(lines[0]) then Some(lines[1..])
    else AfterBegin(lines[1..])
  }

  function SpacedNames(given: Option<string>, family: Option<string>): string {
    match (given, family)
    case (Some(g), Some(f)) => g + " " + f
    case (Some(g), None) => g
    case (None, Some(f)) => f
    case (None, None) => ""
  }

  /** A card without UID gets a minted one, a card without FN the joined names. */
  function Finished(card: Card, minted: string): Card {
    card.(uid := if card.uid == "" then minted else card.uid,
          fullName := if card.fullName == "" then SpacedNames(card.given, card.family) else card.fullName)
  }

  function CardsFrom(lines: seq<string>, cards: seq<Card>, mint: nat -> string): seq<Card>
    decreases |lines|
  {
    match AfterBegin(lines)
    case None => cards
    case Some(rest) =>
      var (card, after) := Body(rest, EMPTY);
      CardsFrom(after, cards + [Finished(card, mint(|cards|))], mint)
  }

  function ParseVCard(text: string, mint: nat -> string): Result<seq<Card>, VCardError> {
    var cards := CardsFrom(Lines(Unfold(text)), [], mint);
    if cards == [] then Err(NotAVCard) else Ok(cards)
  }

  method Parse(text: string, mint: nat -> string) returns (r: Result<seq<Card>, VCardError>)
    ensures r == ParseVCard(text, mint)
  {
    hide Body, AfterBegin, Finished;
    var unfolded := UnfoldText(text);
    var lines := Lines(unfolded);
    var cards: seq<Card> := [];
    var k := 0;
    while k < |lines|
      invariant 0 <= k <= |lines|
      invariant CardsFrom(lines[k..], cards, mint) == CardsFrom(lines, [], mint)
    {
      ghost var start := k;
      while k < |lines| && !Begins(lines[k])
        invariant start <= k <= |lines|
        invariant AfterBegin(lines[start..]) == AfterBegin(lines[k..])
      {
        SkipLine(lines, k);
        k := k + 1;
      }
      if k == |lines| {
        NoBegin(lines[k..]);
        break;
      }
      FoundBegin(lines, k);
      k := k + 1;
      ghost var rest := k;
      var card := EMPTY;
      var done := false;
      while k < |lines| && !done
        invariant rest <= k <= |lines|
        invariant Body(lines[rest..], EMPTY) == if done then (card, lines[k..]) else Body(lines[k..], card)
      {
        BodyStep(lines, k, card);
        if Ends(lines[k]) {
          done := true;
        } else {
          card := WithRaw(card, lines[k]);
        }
        k := k + 1;
      }
      if !done {
        BodyEnd(lines[k..], card);
      }
      assert Body(lines[rest..], EMPTY) == (card, lines[k..]);
      cards := cards + [Finished(card, mint(|cards|))];
    }
    if k == |lines| {
      NoBegin(lines[k..]);
    }
    r := if cards == [] then Err(NotAVCard) else Ok(cards);
  }

  lemma SkipLine(lines: seq<string>, k: nat)
    requires k < |lines| && !Begins(lines[k])
    ensures AfterBegin(lines[k..]) == AfterBegin(lines[k + 1..])
  {
    assert lines[k..][1..] == lines[k + 1..];
  }

  lemma NoBegin(lines: seq<string>)
    requires lines == []
    ensures AfterBegin(lines) == None
  {
  }

  lemma FoundBegin(lines: seq<string>, k: nat)
    requires k < |lines| && Begins(lines[k])
    ensures AfterBegin(lines[k..]) == Some(lines[k + 1..])
  {
    assert lines[k..][1..] == lines[k + 1..];
  }

  lemma BodyStep(lines: seq<string>, k: nat, card: Card)
    requires k < |lines|
    ensures Body(lines[k..], card)
         == if Ends(lines[k]) then (card, lines[k + 1..]) else Body(lines[k + 1..], WithRaw(card, lines[k]))
  {
    assert lines[k..][1..] == lines[k + 1..];
  }

  lemma BodyEnd(lines: seq<string>, card: Card)
    requires lines == []
    ensures Body(lines, card) == (card, lines)
  {
  }

  // ----- writing -----

  function EmailHead(e: Email): string {
    "EMAIL" + (if e.kind.Some? then ";TYPE=" + e.kind.value else "") + (if e.isPrimary then ";TYPE=pref" else "")
  }

  /** The TYPE values of a telephone, in the order they are written. */
  function TelTypes(t: Tel): seq<string> {
    (if t.isMobile then ["CELL"] else []) + (if t.kind.Some? then [t.kind.value] else [])
      + (if t.isPrimary then ["pref"] else [])
  }

  function CommaJoined(types: seq<string>): string {
    if types == [] then ""
    else if |types| == 1 then types[0]
    else types[0] + "," + CommaJoined(types[1..])
  }

  function TelHead(t: Tel): string {
    "TEL" + (if TelTypes(t) == [] then "" else ";TYPE=" + CommaJoined(TelTypes(t)))
  }

  function EmailLine(e: Email): string { EmailHead(e) + ":" + Escape(e.address) }

  function TelLine(t: Tel): string { TelHead(t) + ":" + Escape(t.number) }

  function EmailLines(es: seq<Email>): seq<string> { seq(|es|, i requires 0 <= i < |es| => EmailLine(es[i])) }

  function TelLines(ts: seq<Tel>): seq<string> { seq(|ts|, i requires 0 <= i < |ts| => TelLine(ts[i])) }

  function MemberLines(ms: seq<string>): seq<string> { seq(|ms|,
      i requires 0 <= i < |ms| => "MEMBER:" + Escape(ms[i])) }

  function NameLine(card: Card): string {
    "N:" + Escape(card.family.GetOr("")) + ";" + Escape(card.given.GetOr("")) + ";;;"
  }

  /** The lines before the addresses. */
  function HeadLines(card: Card): seq<string> {
    ["UID:" + Escape(card.uid)]
    + (if card.kind == "group" then ["KIND:group"] else [])
    + ["FN:" + Escape(card.fullName), NameLine(card)]
    + (if card.org.Some? then ["ORG:" + Escape(card.org.value)] else [])
    + (if card.title.Some? then ["TITLE:" + Escape(card.title.value)] else [])
  }

  function CardLines(card: Card): seq<string> {
    HeadLines(card) + EmailLines(card.emails) + TelLines(card.tels) + MemberLines(card.members)
  }

  function WriteVCard(card: Card): string {
    Written(["BEGIN:VCARD", "VERSION:3.0"] + CardLines(card) + ["END:VCARD"])
  }
}
