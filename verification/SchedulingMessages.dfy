/** The outbound message log: what every dispatch keeps, and what it guarantees
  * about who has heard of what. */
module SchedulingMessages {
  import opened Wrappers
  import opened EventRows
  import opened Scheduling

  /** Per subject and address the REQUEST sequences strictly increase. */
  predicate RequestsRise(msgs: seq<Message>) {
    forall i, j | 0 <= i < j < |msgs| && msgs[i].verb == Request && msgs[j].verb == Request
        && msgs[i].subject == msgs[j].subject && msgs[i].email == msgs[j].email ::
      msgs[i].sequence < msgs[j].sequence
  }

  /** msgs' is msgs with messages about m added, all at one sequence. */
  predicate Adds(msgs: seq<Message>, msgs': seq<Message>, m: Id, sequence: int) {
    msgs <= msgs' && forall k | |msgs| <= k < |msgs'| :: msgs'[k].subject == m && msgs'[k].sequence == sequence
  }

  // ----- REQUESTs -----

  lemma AskedOnce(msgs: seq<Message>, m: Id, email: string, sequence: int)
    ensures var r := Asked(msgs, m, email, sequence);
            && Adds(msgs, r, m, sequence) && !RequestNeeded(r, m, email, sequence)
            && (forall k | |msgs| <= k < |r| :: r[k] == Message(m, email, Request, sequence))
            && (RequestsRise(msgs) ==> RequestsRise(r))
  {
    if RequestNeeded(msgs, m, email, sequence) {
      var msg := Message(m, email, Request, sequence);
      assert msg !in msgs;
      assert Asked(msgs, m, email, sequence)[|msgs|] == msg;
    }
  }

  lemma NeededLater(msgs: seq<Message>, msgs': seq<Message>, m: Id, email: string, sequence: int)
    requires msgs <= msgs' && !RequestNeeded(msgs, m, email, sequence)
    ensures !RequestNeeded(msgs', m, email, sequence)
  {
    var k :| 0 <= k < |msgs| && msgs[k].subject == m && msgs[k].email == email && msgs[k].verb == Request
          && sequence <= msgs[k].sequence;
    assert msgs'[k] == msgs[k];
  }

  predicate IsExternal(dir: Directory, row: Row, atts: seq<Attendee>, email: string) {
    exists a :: a in atts && RecipientOf(dir, a, row.body.organizerEmail) == External(email)
  }

  lemma {:induction false} RequestedExactly(msgs: seq<Message>, dir: Directory, m: Id, row: Row, atts: seq<Attendee>)
    ensures var r := Requested(msgs, dir, m, row, atts);
            && Adds(msgs, r, m, row.sequence)
            && (forall k | |msgs| <= k < |r| :: r[k].verb == Request && IsExternal(dir, row, atts, r[k].email))
            && (forall e | IsExternal(dir, row, atts, e) :: !RequestNeeded(r, m, e, row.sequence))
            && (RequestsRise(msgs) ==> RequestsRise(r))
    decreases |atts|
  {
    hide RequestsRise, RequestNeeded, RecipientOf, Asked;
    if atts != [] {
      var n := |atts| - 1;
      RequestedExactly(msgs, dir, m, row, atts[..n]);
      var before := Requested(msgs, dir, m, row, atts[..n]);
      var r := Requested(msgs, dir, m, row, atts);
      var to := RecipientOf(dir, atts[n], row.body.organizerEmail);
      if to.External? {
        AskedOnce(before, m, to.email, row.sequence);
      }
      forall k | |msgs| <= k < |r| ensures r[k].verb == Request && IsExternal(dir, row, atts, r[k].email) {
        if k < |before| {
          assert IsExternal(dir, row, atts[..n], before[k].email);
        } else {
          assert atts[n] in atts;
        }
      }
      forall e | IsExternal(dir, row, atts, e) ensures !RequestNeeded(r, m, e, row.sequence) {
        if IsExternal(dir, row, atts[..n], e) {
          NeededLater(before, r, m, e, row.sequence);
        } else {
          var a :| a in atts && RecipientOf(dir, a, row.body.organizerEmail) == External(e);
          assert a == atts[n] || a in atts[..n];
        }
      }
    }
  }

  // ----- CANCELs -----

  lemma {:induction false} PastIsSent(msgs: seq<Message>, m: Id)
    ensures forall e :: e in PastAddresses(msgs, m) <==> Sent(msgs, m, e, Request)
    decreases |msgs|
  {
    if msgs != [] {
      var n := |msgs| - 1;
      PastIsSent(msgs[..n], m);
      forall e ensures Sent(msgs, m, e, Request) <==>
        Sent(msgs[..n], m, e, Request) || (msgs[n].subject == m && msgs[n].email == e && msgs[n].verb == Request)
      {
      }
    }
  }

  predicate Excused(dir: Directory, current: set<string>, email: string) { email in current || email in dir.userOf }

  /** The withdrawals add exactly one CANCEL for every listed address that is not
    * excused and never had one. */
  lemma {:induction false} WithdrawnExactly(msgs: seq<Message>, dir: Directory, m: Id, sequence: int,
      current: set<string>,
      emails: seq<string>)
    ensures var r := Withdrawn(msgs, dir, m, sequence, current, emails);
            && Adds(msgs, r, m, sequence)
            && (forall k | |msgs| <= k < |r| ::
                  && r[k].verb == Cancel && r[k].email in emails
                  && !Excused(dir, current, r[k].email) && !Sent(msgs, m, r[k].email, Cancel))
            && (forall e | e in emails :: Excused(dir, current, e) || Sent(r, m, e, Cancel))
    decreases |emails|
  {
    if emails != [] {
      var n := |emails| - 1;
      WithdrawnExactly(msgs, dir, m, sequence, current, emails[..n]);
      var before := Withdrawn(msgs, dir, m, sequence, current, emails[..n]);
      var r := Withdrawn(msgs, dir, m, sequence, current, emails);
      DismissedOnce(before, dir, m, sequence, current, emails[n]);
      forall e | e in emails ensures Excused(dir, current, e) || Sent(r, m, e, Cancel) {
        if e in emails[..n] && !Excused(dir, current, e) {
          SentLater(before, r, m, e, Cancel);
        }
      }
      forall k | |msgs| <= k < |r|
        ensures r[k].verb == Cancel && r[k].email in emails && !Excused(dir, current, r[k].email)
             && !Sent(msgs, m, r[k].email, Cancel)
      {
        if |before| <= k && Sent(msgs, m, r[k].email, Cancel) {
          SentLater(msgs, before, m, r[k].email, Cancel);
        }
      }
    }
  }

  lemma SentLater(msgs: seq<Message>, msgs': seq<Message>, m: Id, email: string, verb: Method)
    requires msgs <= msgs' && Sent(msgs, m, email, verb)
    ensures Sent(msgs', m, email, verb)
  {
    var k :| 0 <= k < |msgs| && msgs[k].subject == m && msgs[k].email == email && msgs[k].verb == verb;
    assert msgs'[k] == msgs[k];
  }

  lemma DismissedOnce(msgs: seq<Message>, dir: Directory, m: Id, sequence: int, current: set<string>, email: string)
    ensures var r := Dismissed(msgs, dir, m, sequence, current, email);
            && Adds(msgs, r, m, sequence)
            && (forall k | |msgs| <= k < |r| :: r[k] == Message(m, email, Cancel, sequence)
                  && !Excused(dir, current, email) && !Sent(msgs, m, email, Cancel))
            && (Excused(dir, current, email) || Sent(r, m, email, Cancel))
  {
    var r := Dismissed(msgs, dir, m, sequence, current, email);
    var msg := Message(m, email, Cancel, sequence);
    if !Excused(dir, current, email) && !Sent(msgs, m, email, Cancel) {
      assert msg !in msgs;
      assert r == msgs + [msg];
      assert r[|msgs|] == msg;
    }
  }

  // ----- one dispatch -----

  lemma ExternalIsCurrent(dir: Directory, row: Row, atts: seq<Attendee>, email: string)
    requires IsExternal(dir, row, atts, email)
    ensures email in CurrentEmails(atts, row.body.organizerEmail)
  {
  }

  /** A dispatch only adds messages about its subject at the subject's sequence, and
    * keeps the REQUEST sequences strictly increasing. */
  lemma OutboxAdds(msgs: seq<Message>, dir: Directory, m: Id, row: Row)
    ensures var r := Outbox(msgs, dir, m, row);
            Adds(msgs, r, m, row.sequence) && (RequestsRise(msgs) ==> RequestsRise(r))
  {
    hide Requested, Withdrawn, PastAddresses, CurrentEmails, IsExternal, RequestNeeded, Sent;
    var asked := Requested(msgs, dir, m, row, row.attendees);
    RequestedExactly(msgs, dir, m, row, row.attendees);
    WithdrawnExactly(asked, dir, m, row.sequence, CurrentEmails(row.attendees, row.body.organizerEmail),
                     PastAddresses(asked, m));
  }

  /** After a dispatch every external attendee has a REQUEST no older than the
    * subject, and at exactly its sequence if none in the log is newer. */
  lemma ExternalsAsked(msgs: seq<Message>, dir: Directory, m: Id, row: Row, email: string)
    requires IsExternal(dir, row, row.attendees, email)
    ensures var r := Outbox(msgs, dir, m, row);
            && !RequestNeeded(r, m, email, row.sequence)
            && ((forall k | 0 <= k < |msgs| :: msgs[k].subject == m ==> msgs[k].sequence <= row.sequence)
                  ==> Message(m, email, Request, row.sequence) in r)
  {
    hide Requested, Withdrawn, PastAddresses, CurrentEmails, Sent;
    var asked := Requested(msgs, dir, m, row, row.attendees);
    RequestedExactly(msgs, dir, m, row, row.attendees);
    WithdrawnExactly(asked, dir, m, row.sequence, CurrentEmails(row.attendees, row.body.organizerEmail),
                     PastAddresses(asked, m));
    var r := Outbox(msgs, dir, m, row);
    NeededLater(asked, r, m, email, row.sequence);
    var k :| 0 <= k < |r| && r[k].subject == m && r[k].email == email && r[k].verb == Request
      && row.sequence <= r[k].sequence;
    if forall k | 0 <= k < |msgs| :: msgs[k].subject == m ==> msgs[k].sequence <= row.sequence {
      assert r[k] == Message(m, email, Request, row.sequence);
    }
  }

  /** After a dispatch every address ever asked is invited, is a local user's, or has
    * had a CANCEL; no CANCEL goes to the invited or to local users. */
  lemma EveryoneAskedIsAnswerable(msgs: seq<Message>, dir: Directory, m: Id, row: Row, email: string)
    ensures var r := Outbox(msgs, dir, m, row); var current := CurrentEmails(row.attendees, row.body.organizerEmail);
            && (Sent(r, m, email, Request) ==> Excused(dir, current, email) || Sent(r, m, email, Cancel))
            && (Excused(dir, current, email) ==> (Sent(r, m, email, Cancel) <==> Sent(msgs, m, email, Cancel)))
  {
    hide Requested, Withdrawn, PastAddresses, CurrentEmails, RequestNeeded;
    var asked := Requested(msgs, dir, m, row, row.attendees);
    RequestedExactly(msgs, dir, m, row, row.attendees);
    var current := CurrentEmails(row.attendees, row.body.organizerEmail);
    PastIsSent(asked, m);
    WithdrawnExactly(asked, dir, m, row.sequence, current, PastAddresses(asked, m));
    var r := Outbox(msgs, dir, m, row);
    if Sent(r, m, email, Request) {
      assert Sent(asked, m, email, Request);
    }
    if Sent(msgs, m, email, Cancel) {
      SentLater(msgs, r, m, email, Cancel);
    }
    if Sent(r, m, email, Cancel) && Excused(dir, current, email) {
      var k :| 0 <= k < |r| && r[k].subject == m && r[k].email == email && r[k].verb == Cancel;
      assert k < |msgs| && msgs[k] == r[k];
    }
  }

  /** A second dispatch with nothing changed records nothing. */
  lemma RepeatedDispatchIsSilent(msgs: seq<Message>, dir: Directory, m: Id, row: Row)
    ensures var r := Outbox(msgs, dir, m, row); Outbox(r, dir, m, row) == r
  {
    hide Outbox, CurrentEmails, Requested, Withdrawn, PastAddresses;
    var r := Outbox(msgs, dir, m, row);
    var current := CurrentEmails(row.attendees, row.body.organizerEmail);
    forall e | IsExternal(dir, row, row.attendees, e) ensures !RequestNeeded(r, m, e, row.sequence) {
      ExternalsAsked(msgs, dir, m, row, e);
    }
    NobodyToAsk(r, dir, m, row, row.attendees);
    PastIsSent(r, m);
    forall e | e in PastAddresses(r, m) ensures Excused(dir, current, e) || Sent(r, m, e, Cancel) {
      EveryoneAskedIsAnswerable(msgs, dir, m, row, e);
    }
    NobodyToDismiss(r, dir, m, row.sequence, current, PastAddresses(r, m));
    OutboxUnfolds(r, dir, m, row);
  }

  lemma OutboxUnfolds(msgs: seq<Message>, dir: Directory, m: Id, row: Row)
    ensures var asked := Requested(msgs, dir, m, row, row.attendees);
            Outbox(msgs, dir, m, row) == Withdrawn(asked, dir, m, row.sequence,
              CurrentEmails(row.attendees, row.body.organizerEmail), PastAddresses(asked, m))
  {
  }

  lemma {:induction false} NobodyToAsk(msgs: seq<Message>, dir: Directory, m: Id, row: Row, atts: seq<Attendee>)
    requires forall e | IsExternal(dir, row, atts, e) :: !RequestNeeded(msgs, m, e, row.sequence)
    ensures Requested(msgs, dir, m, row, atts) == msgs
    decreases |atts|
  {
    hide RequestNeeded, RecipientOf;
    if atts != [] {
      var n := |atts| - 1;
      forall e | IsExternal(dir, row, atts[..n], e) ensures !RequestNeeded(msgs, m, e, row.sequence) {
        var a :| a in atts[..n] && RecipientOf(dir, a, row.body.organizerEmail) == External(e);
        assert a in atts;
        assert IsExternal(dir, row, atts, e);
      }
      NobodyToAsk(msgs, dir, m, row, atts[..n]);
      var to := RecipientOf(dir, atts[n], row.body.organizerEmail);
      if to.External? {
        assert atts[n] in atts;
        assert IsExternal(dir, row, atts, to.email);
      }
    }
  }

  lemma {:induction false} NobodyToDismiss(msgs: seq<Message>, dir: Directory, m: Id, sequence: int,
      current: set<string>,
      emails: seq<string>)
    requires forall e | e in emails :: Excused(dir, current, e) || Sent(msgs, m, e, Cancel)
    ensures Withdrawn(msgs, dir, m, sequence, current, emails) == msgs
    decreases |emails|
  {
    hide Sent;
    if emails != [] {
      NobodyToDismiss(msgs, dir, m, sequence, current, emails[..|emails| - 1]);
      assert emails[|emails| - 1] in emails;
    }
  }

  // ----- who hears of a removal -----

  /** The last word an address has had about m. */
  function LastWord(msgs: seq<Message>, m: Id, email: string): Option<Method> {
    if msgs == [] then None
    else
      var msg := msgs[|msgs| - 1];
      if msg.subject == m && msg.email == email then Some(msg.verb) else LastWord(msgs[..|msgs| - 1], m, email)
  }

  lemma {:induction false} LastWordAfter(msgs: seq<Message>, msgs': seq<Message>, m: Id, email: string)
    requires msgs <= msgs' && forall k | |msgs| <= k < |msgs'| :: msgs'[k].subject != m || msgs'[k].email != email
    ensures LastWord(msgs', m, email) == LastWord(msgs, m, email)
    decreases |msgs'|
  {
    if |msgs'| == |msgs| {
      assert msgs' == msgs;
    } else {
      var n := |msgs'| - 1;
      assert msgs' == msgs'[..n] + [msgs'[n]];
      LastWordAfter(msgs, msgs'[..n], m, email);
    }
  }

  lemma {:induction false} LastWordIsNewest(msgs: seq<Message>, msgs': seq<Message>, m: Id, email: string)
    requires msgs <= msgs' && exists k :: |msgs| <= k < |msgs'| && msgs'[k].subject == m && msgs'[k].email == email
    requires forall k | |msgs| <= k < |msgs'| :: msgs'[k].verb == Cancel
    ensures LastWord(msgs', m, email) == Some(Cancel)
    decreases |msgs'|
  {
    var n := |msgs'| - 1;
    if !(msgs'[n].subject == m && msgs'[n].email == email) {
      LastWordIsNewest(msgs, msgs'[..n], m, email);
    }
  }

  /** An outside address that was asked and is no longer invited ends on a CANCEL
    * exactly if the log already ended on one or never held one: an address that was
    * cancelled, asked again and removed again hears nothing. */
  lemma RemovalHeardExactly(msgs: seq<Message>, dir: Directory, m: Id, row: Row, email: string)
    requires Sent(msgs, m, email, Request)
    requires !Excused(dir, CurrentEmails(row.attendees, row.body.organizerEmail), email)
    ensures LastWord(Outbox(msgs, dir, m, row), m, email) == Some(Cancel)
       <==> LastWord(msgs, m, email) == Some(Cancel) || !Sent(msgs, m, email, Cancel)
  {
    hide Requested, Withdrawn, PastAddresses, CurrentEmails, RequestNeeded, LastWord;
    var asked := Requested(msgs, dir, m, row, row.attendees);
    RequestedExactly(msgs, dir, m, row, row.attendees);
    forall k | |msgs| <= k < |asked| ensures asked[k].email != email {
      ExternalIsCurrent(dir, row, row.attendees, asked[k].email);
    }
    LastWordAfter(msgs, asked, m, email);
    var current := CurrentEmails(row.attendees, row.body.organizerEmail);
    PastIsSent(asked, m);
    SentLater(msgs, asked, m, email, Request);
    WithdrawnExactly(asked, dir, m, row.sequence, current, PastAddresses(asked, m));
    var r := Outbox(msgs, dir, m, row);
    assert Sent(asked, m, email, Cancel) <==> Sent(msgs, m, email, Cancel);
    if Sent(msgs, m, email, Cancel) {
      LastWordAfter(asked, r, m, email);
    } else {
      var k :| 0 <= k < |r| && r[k].subject == m && r[k].email == email && r[k].verb == Cancel;
      assert |asked| <= k;
      LastWordIsNewest(asked, r, m, email);
    }
  }
}
