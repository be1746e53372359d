/** The vCard 3.0 writer, as it builds its buffer. */
module VCardWriter {
  import opened Wrappers
  import opened VCardText
  import opened VCardLines
  import opened VCards

  lemma WrittenOneMore(lines: seq<string>, line: string)
    ensures Written(lines + [line]) == Written(lines) + (line + "\r\n")
  {
    assert (lines + [line])[..|lines|] == lines;
  }

  method PushLine(buffer: string, ghost lines: seq<string>, line: string) returns (out: string)
    requires buffer == Written(lines)
    ensures out == Written(lines + [line])
  {
    WrittenOneMore(lines, line);
    out := buffer + (line + "\r\n");
  }

  method PushEmails(buffer: string, ghost lines: seq<string>, emails: seq<Email>) returns (out: string)
    requires buffer == Written(lines)
    ensures out == Written(lines + EmailLines(emails))
  {
    hide Written, EmailHead;
    out := buffer;
    assert lines + EmailLines(emails[..0]) == lines;
    var k := 0;
    while k < |emails|
      invariant 0 <= k <= |emails|
      invariant out == Written(lines + EmailLines(emails[..k]))
    {
      var e := emails[k];
      var pref := if e.isPrimary then ";TYPE=pref" else "";
      var kind := if e.kind.Some? then ";TYPE=" + e.kind.value else "";
      HeadText(e, kind, pref);
      out := PushLine(out, lines + EmailLines(emails[..k]), "EMAIL" + kind + pref + ":" + Escape(e.address));
      assert lines + EmailLines(emails[..k]) + [EmailLine(e)] == lines + EmailLines(emails[..k + 1]);
      k := k + 1;
    }
    assert emails[..k] == emails;
  }

  lemma HeadText(e: Email, kind: string, pref: string)
    requires pref == (if e.isPrimary then ";TYPE=pref" else "")
    requires kind == (if e.kind.Some? then ";TYPE=" + e.kind.value else "")
    ensures EmailLine(e) == "EMAIL" + kind + pref + ":" + Escape(e.address)
  {
  }

  method PushTels(buffer: string, ghost lines: seq<string>, tels: seq<Tel>) returns (out: string)
    requires buffer == Written(lines)
    ensures out == Written(lines + TelLines(tels))
  {
    hide Written, CommaJoined;
    out := buffer;
    assert lines + TelLines(tels[..0]) == lines;
    var k := 0;
    while k < |tels|
      invariant 0 <= k <= |tels|
      invariant out == Written(lines + TelLines(tels[..k]))
    {
      var t := tels[k];
      var types: seq<string> := [];
      if t.isMobile {
        types := types + ["CELL"];
      }
      if t.kind.Some? {
        types := types + [t.kind.value];
      }
      if t.isPrimary {
        types := types + ["pref"];
      }
      assert types == TelTypes(t);
      var typeParam := if types == [] then "" else ";TYPE=" + CommaJoined(types);
      out := PushLine(out, lines + TelLines(tels[..k]), "TEL" + typeParam + ":" + Escape(t.number));
      assert lines + TelLines(tels[..k]) + [TelLine(t)] == lines + TelLines(tels[..k + 1]);
      k := k + 1;
    }
    assert tels[..k] == tels;
  }

  method PushMembers(buffer: string, ghost lines: seq<string>, members: seq<string>) returns (out: string)
    requires buffer == Written(lines)
    ensures out == Written(lines + MemberLines(members))
  {
    hide Written;
    out := buffer;
    assert lines + MemberLines(members[..0]) == lines;
    var k := 0;
    while k < |members|
      invariant 0 <= k <= |members|
      invariant out == Written(lines + MemberLines(members[..k]))
    {
      out := PushLine(out, lines + MemberLines(members[..k]), "MEMBER:" + Escape(members[k]));
      assert lines + MemberLines(members[..k]) + ["MEMBER:" + Escape(members[k])]
          == lines + MemberLines(members[..k + 1]);
      k := k + 1;
    }
    assert members[..k] == members;
  }

  method PushHead(buffer: string, ghost lines: seq<string>, card: Card) returns (out: string)
    requires buffer == Written(lines)
    ensures out == Written(lines + HeadLines(card))
  {
    hide Written, Escape;
    ghost var done := lines + ["UID:" + Escape(card.uid)];
    out := PushLine(buffer, lines, "UID:" + Escape(card.uid));
    if card.kind == "group" {
      out := PushLine(out, done, "KIND:group");
      done := done + ["KIND:group"];
    }
    out := PushLine(out, done, "FN:" + Escape(card.fullName));
    done := done + ["FN:" + Escape(card.fullName)];
    out := PushLine(out, done, NameLine(card));
    done := done + [NameLine(card)];
    if card.org.Some? {
      out := PushLine(out, done, "ORG:" + Escape(card.org.value));
      done := done + ["ORG:" + Escape(card.org.value)];
    }
    if card.title.Some? {
      out := PushLine(out, done, "TITLE:" + Escape(card.title.value));
      done := done + ["TITLE:" + Escape(card.title.value)];
    }
    assert done == lines + HeadLines(card);
  }

  method Write(card: Card) returns (out: string)
    ensures out == WriteVCard(card)
  {
    hide Written, HeadLines, EmailLines, TelLines, MemberLines;
    ghost var done: seq<string> := [];
    WrittenNothing();
    out := PushLine("", done, "BEGIN:VCARD");
    out := PushLine(out, done + ["BEGIN:VCARD"], "VERSION:3.0");
    done := done + ["BEGIN:VCARD"] + ["VERSION:3.0"];
    out := PushHead(out, done, card);
    out := PushEmails(out, done + HeadLines(card), card.emails);
    out := PushTels(out, done + HeadLines(card) + EmailLines(card.emails), card.tels);
    out := PushMembers(out, done + HeadLines(card) + EmailLines(card.emails) + TelLines(card.tels), card.members);
    done := done + HeadLines(card) + EmailLines(card.emails) + TelLines(card.tels) + MemberLines(card.members);
    out := PushLine(out, done, "END:VCARD");
    assert done + ["END:VCARD"] == ["BEGIN:VCARD", "VERSION:3.0"] + CardLines(card) + ["END:VCARD"];
  }

  lemma WrittenNothing()
    ensures Written([]) == ""
  {
  }
}
