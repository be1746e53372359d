/** Scheduling as its users see it: whom a dispatch reaches and whom it mails, what every row
  * and every message is afterwards, said in attendee rows, addresses and columns. */
module SchedulingSeen {
  import opened Wrappers
  import opened EventRows
  import opened EventEffects
  import opened Scheduling
  import opened SchedulingCopies
  import opened SchedulingMessages
  import opened SchedulingDispatch
  import opened SchedulingCommits
  import opened SchedulingRows

  // ----- who is reached -----

  /** The attendee stands for user u, who has the default collection cal: the linked user, or
    * with no link the one the address belongs to; nobody stands for the organizer. */
  predicate Reaches(dir: Directory, a: Attendee, organizer: string, u: User, cal: Cal) {
    && a.email.Some? && a.email.value != organizer
    && (a.user == Some(u) || (a.user == None && a.email.value in dir.userOf && dir.userOf[a.email.value] == u))
    && u in dir.home && dir.home[u] == cal
  }

  /** The attendee is mailed at e: nobody with a default collection stands behind the row. */
  predicate Mailed(dir: Directory, a: Attendee, organizer: string, e: string) {
    && a.email == Some(e) && e != organizer
    && (a.user.Some? ==> a.user.value !in dir.home)
    && (a.user == None && e in dir.userOf ==> dir.userOf[e] !in dir.home)
  }

  lemma RecipientExactly(dir: Directory, a: Attendee, organizer: string)
    ensures forall u, cal :: Reaches(dir, a, organizer, u, cal) <==> RecipientOf(dir, a, organizer) == Local(u, cal)
    ensures forall e :: Mailed(dir, a, organizer, e) <==> RecipientOf(dir, a, organizer) == External(e)
    ensures RecipientOf(dir, a, organizer).Skipped? <==> a.email == None || a.email == Some(organizer)
  {
  }

  /** Some attendee's copy belongs in cal. */
  ghost predicate Serves(dir: Directory, o: Row, cal: Cal) {
    exists a, u :: a in o.attendees && Reaches(dir, a, o.body.organizerEmail, u, cal)
  }

  ghost predicate ServesAnyone(dir: Directory, o: Row) { exists cal :: Serves(dir, o, cal) }

  /** u is on the list: under the user's own address, or as the user an attendee stands for. */
  ghost predicate Invited(dir: Directory, o: Row, u: User) {
    exists a :: a in o.attendees && a.email.Some? && a.email.value != o.body.organizerEmail
      && ((u in dir.emailOf && dir.emailOf[u] == a.email.value)
          || (u in dir.home && Reaches(dir, a, o.body.organizerEmail, u, dir.home[u])))
  }

  /** Someone who owns cal is not on the list. */
  ghost predicate Crashed(dir: Directory, o: Row, cal: Cal) {
    cal in dir.owners && exists u :: u in dir.owners[cal] && !Invited(dir, o, u)
  }

  lemma ServesExactly(dir: Directory, o: Row, cal: Cal)
    ensures Serves(dir, o, cal) <==> cal in Homes(dir, o.attendees, o.body.organizerEmail)
  {
    hide RecipientOf, Reaches, Mailed;
    var (atts, organizer) := (o.attendees, o.body.organizerEmail);
    if Serves(dir, o, cal) {
      var a, u :| a in atts && Reaches(dir, a, organizer, u, cal);
      RecipientExactly(dir, a, organizer);
      assert RecipientOf(dir, a, organizer).cal == cal;
    }
    if cal in Homes(dir, atts, organizer) {
      var a :| a in atts && RecipientOf(dir, a, organizer).Local? && RecipientOf(dir, a, organizer).cal == cal;
      RecipientExactly(dir, a, organizer);
      assert Reaches(dir, a, organizer, RecipientOf(dir, a, organizer).user, cal);
    }
  }

  lemma InvitedExactly(dir: Directory, o: Row, u: User)
    ensures Invited(dir, o, u) <==>
            !Uninvited(dir, CurrentEmails(o.attendees, o.body.organizerEmail),
                       InternalUsers(dir, o.attendees, o.body.organizerEmail), u)
  {
    hide RecipientOf, Mailed;
    var (atts, organizer) := (o.attendees, o.body.organizerEmail);
    forall a | a in atts
      ensures RecipientOf(dir, a, organizer).Local? && RecipientOf(dir, a, organizer).user == u <==>
        u in dir.home && Reaches(dir, a, organizer, u, dir.home[u])
    {
      RecipientExactly(dir, a, organizer);
      if RecipientOf(dir, a, organizer).Local? && RecipientOf(dir, a, organizer).user == u {
        assert Reaches(dir, a, organizer, u, RecipientOf(dir, a, organizer).cal);
      }
    }
    if u in InternalUsers(dir, atts, organizer) {
      var a :| a in atts && RecipientOf(dir, a, organizer).Local? && RecipientOf(dir, a, organizer).user == u;
      assert a.email.Some?;
    }
  }

  lemma CrashedExactly(dir: Directory, o: Row, cal: Cal)
    ensures Crashed(dir, o, cal) <==>
            exists u :: u in Owners(dir, cal)
              && Uninvited(dir, CurrentEmails(o.attendees, o.body.organizerEmail),
                           InternalUsers(dir, o.attendees, o.body.organizerEmail), u)
  {
    hide Invited, Uninvited, CurrentEmails, InternalUsers;
    forall u ensures Invited(dir, o, u) <==>
      !Uninvited(dir, CurrentEmails(o.attendees, o.body.organizerEmail),
                 InternalUsers(dir, o.attendees, o.body.organizerEmail), u)
    {
      InvitedExactly(dir, o, u);
    }
  }

  // ----- the rows after a dispatch -----

  /** The columns a delivery writes; all others stay as they were. */
  predicate OnlyDelivered(row: Row, row': Row) {
    row' == row.(uid := row'.uid, body := row'.body, organizerUser := row'.organizerUser, sequence := row'.sequence,
               attendees := row'.attendees, alarms := row'.alarms, live := row'.live, updatedAt := row'.updatedAt,
               etag := row'.etag)
  }

  /** The row's columns are those of o, as of now. */
  predicate HoldsCopy(row: Row, o: Row, now: int) {
    && row.uid == o.uid && row.body == o.body && row.organizerUser == o.organizerUser && row.sequence == o.sequence
    && row.updatedAt == now && row.etag == Etag(row.cal, o.sequence, now)
  }

  /** As HoldsCopy, but called off: STATUS:CANCELLED and one sequence step more. */
  predicate HoldsCancelled(row: Row, o: Row, now: int) {
    && row.body == o.body.(status := Some("CANCELLED")) && row.sequence == o.sequence + 1
    && row.updatedAt == now && row.etag == Etag(row.cal, o.sequence + 1, now)
  }

  /** A row of the table after a dispatch of m.
    * A live copy of m where an attendee is delivered to takes m's columns, attendees and alarms;
    * where an owner is not invited the copy is called off, visibly. A live copy of a live
    * override of m follows it where an attendee is delivered to; one of a deleted override goes
    * if anybody is delivered to. Every other row stays, a deleted copy of m but for its parts. */
  ghost predicate RowSent(rows: Rows, dir: Directory, m: Id, now: int, i: Id, row': Row)
    requires m in rows && i in rows
  {
    var row := rows[i];
    && OnlyDelivered(row, row')
    && if row.origin == None then row' == row
       else if row.origin == Some(m) then
         && row'.live == row.live
         && (row'.attendees, row'.alarms) == (if Serves(dir, rows[m], row.cal) then (rows[m].attendees, rows[m].alarms)
                                          else (row.attendees, row.alarms))
         && if !row.live then row' == row.(attendees := row'.attendees, alarms := row'.alarms)
            else if Crashed(dir, rows[m], row.cal) then
              HoldsCancelled(row', if Serves(dir, rows[m], row.cal) then rows[m] else row, now)
            else if Serves(dir, rows[m], row.cal) then HoldsCopy(row', rows[m], now)
            else row' == row
       else if row.live && row.origin.value in rows && rows[row.origin.value].master == Some(m) then
         if !rows[row.origin.value].live then
           if ServesAnyone(dir, rows[m]) then row' == row.(live := false) else row' == row
         else if Serves(dir, rows[m], row.cal) then
           && HoldsCopy(row', rows[row.origin.value], now) && row'.live
           && row'.attendees == row.attendees && row'.alarms == row.alarms
         else row' == row
       else row' == row
  }

  lemma AnywhereExactly(dir: Directory, o: Row)
    ensures ServesAnyone(dir, o) <==> Homes(dir, o.attendees, o.body.organizerEmail) != {}
  {
    hide Homes, Serves;
    var homes := Homes(dir, o.attendees, o.body.organizerEmail);
    if ServesAnyone(dir, o) {
      var cal :| Serves(dir, o, cal);
      ServesExactly(dir, o, cal);
    }
    if homes != {} {
      var cal :| cal in homes;
      ServesExactly(dir, o, cal);
    }
  }

  lemma SentRowSeen(rows: Rows, dir: Directory, m: Id, now: int, i: Id)
    requires Structure(rows) && IsSubject(rows, m) && rows[m].live && i in rows
    ensures RowSent(rows, dir, m, now, i, SentRow(rows, dir, m, now, i))
  {
    hide Structure, Homes, CurrentEmails, InternalUsers, Uninvited, Serves, Crashed, ServesAnyone, Owners;
    NoCopyUnderOrigin(rows, m);
    ServesExactly(dir, rows[m], rows[i].cal);
    AnywhereExactly(dir, rows[m]);
    CrashedExactly(dir, rows[m], rows[i].cal);
  }

  /** Every row of the table after the organizer's dispatch. */
  lemma DispatchRowSeen(s: Sched, dir: Directory, m: Id, actor: User, now: int, i: Id)
    requires Wf(s.db) && Structure(s.db.rows) && s.db.clock <= now && Dispatch(s, dir, m, actor, now).Ok?
    requires IsOrganizer(dir, s.db.rows[m], actor) && i in s.db.rows
    ensures m in s.db.rows
    ensures var d := Dispatch(s, dir, m, actor, now).value.db;
            i in d.rows && RowSent(s.db.rows, dir, m, now, i, d.rows[i])
  {
    hide Wf, Structure, Dispatch, SentRow, RowSent, IsOrganizer, Kept, Records, Mentioned, Rewritten;
    SentExactly(s, dir, m, actor, now, i);
    SentRowSeen(s.db.rows, dir, m, now, i);
  }

  // ----- the copies after a dispatch -----

  lemma MirroredInvited(dir: Directory, o: Row, cal: Cal)
    ensures AllOwnersInvited(dir, o, cal) <==> !Crashed(dir, o, cal)
  {
    hide Crashed, Uninvited, CurrentEmails, InternalUsers;
    CrashedExactly(dir, o, cal);
  }

  /** One live copy of o in cal, the only one. */
  predicate OnlyCopy(rows: Rows, o: Id, cal: Cal, c: Id) {
    && c in rows && rows[c].live && rows[c].origin == Some(o) && rows[c].cal == cal
    && forall x | x in rows && rows[x].live && rows[x].origin == Some(o) && rows[x].cal == cal :: x == c
  }

  lemma OnlyOneCopy(rows: Rows, o: Id, cal: Cal, c: Id)
    requires Structure(rows) && IsLiveCopy(rows, o, cal, c)
    ensures OnlyCopy(rows, o, cal, c)
  {
    hide CopyOk;
  }

  /** After the organizer's dispatch every attendee served has one live copy of m, with the
    * organizer's attendees and alarms; it has every other delivered column of m, unless an
    * owner of the collection is not invited, when it is there but called off. */
  lemma MasterCopySeen(s: Sched, dir: Directory, m: Id, actor: User, now: int, cal: Cal) returns (c: Id)
    requires Wf(s.db) && Structure(s.db.rows) && s.db.clock <= now && Dispatch(s, dir, m, actor, now).Ok?
    requires IsOrganizer(dir, s.db.rows[m], actor) && Serves(dir, s.db.rows[m], cal)
    ensures m in s.db.rows && cal != s.db.rows[m].cal
    ensures var rows := Dispatch(s, dir, m, actor, now).value.db.rows; var o := s.db.rows[m];
            && OnlyCopy(rows, m, cal, c)
            && rows[c].attendees == o.attendees && rows[c].alarms == o.alarms && rows[c].rid == o.rid
            && (if Crashed(dir, o, cal)
                then rows[c].body.status == Some("CANCELLED") && rows[c].sequence == o.sequence + 1
                else rows[c].uid == o.uid && rows[c].body == o.body && rows[c].organizerUser == o.organizerUser
                     && rows[c].sequence == o.sequence)
  {
    hide Wf, Structure, Dispatch, IsOrganizer, RecipientOf, Crashed, AllOwnersInvited, LiveOverrides, HasMirror,
      Reaches, Kept, Progress;
    CommittedDispatch(s, dir, m, actor, now);
    var o := s.db.rows[m];
    var a, u :| a in o.attendees && Reaches(dir, a, o.body.organizerEmail, u, cal);
    RecipientExactly(dir, a, o.body.organizerEmail);
    c := DispatchMirrors(s, dir, m, actor, now, a);
    MirroredInvited(dir, o, cal);
    DispatchKeeps(s, dir, m, actor, now);
    var rows := Dispatch(s, dir, m, actor, now).value.db.rows;
    OnlyOneCopy(rows, m, cal, c);
    SameRid(rows, m, c);
  }

  /** Every attendee served has one live copy of each live override, with its columns. */
  lemma OverrideCopySeen(s: Sched, dir: Directory, m: Id, actor: User, now: int, cal: Cal, o: Id) returns (c: Id)
    requires Wf(s.db) && Structure(s.db.rows) && s.db.clock <= now && Dispatch(s, dir, m, actor, now).Ok?
    requires IsOrganizer(dir, s.db.rows[m], actor) && Serves(dir, s.db.rows[m], cal)
    requires o in s.db.rows && s.db.rows[o].live && s.db.rows[o].master == Some(m)
    ensures var rows := Dispatch(s, dir, m, actor, now).value.db.rows; var row := s.db.rows[o];
            && OnlyCopy(rows, o, cal, c)
            && rows[c].rid == row.rid && rows[c].uid == row.uid && rows[c].body == row.body
            && rows[c].organizerUser == row.organizerUser && rows[c].sequence == row.sequence
  {
    hide Wf, Structure, Dispatch, IsOrganizer, RecipientOf, AllOwnersInvited, LiveOverrides, Reaches, Kept, Mirrors,
      Progress;
    CommittedDispatch(s, dir, m, actor, now);
    var row := s.db.rows[m];
    var a, u :| a in row.attendees && Reaches(dir, a, row.body.organizerEmail, u, cal);
    RecipientExactly(dir, a, row.body.organizerEmail);
    OverridesListed(s.db.rows, m, o);
    OverridesAreOrigins(s.db, m);
    var _ := DispatchMirrors(s, dir, m, actor, now, a);
    DispatchKeeps(s, dir, m, actor, now);
    var rows := Dispatch(s, dir, m, actor, now).value.db.rows;
    assert HasMirror(rows, o, cal);
    c :| IsLiveCopy(rows, o, cal, c) && Mirrors(rows[c], rows[o]);
    OriginStays(s, dir, m, actor, now, o);
    MirrorColumns(rows[c], rows[o]);
    OnlyOneCopy(rows, o, cal, c);
    SameRid(rows, o, c);
  }

  lemma MirrorColumns(copy: Row, o: Row)
    requires Mirrors(copy, o)
    ensures copy.uid == o.uid && copy.body == o.body && copy.organizerUser == o.organizerUser
         && copy.sequence == o.sequence
  {
  }

  lemma OriginStays(s: Sched, dir: Directory, m: Id, actor: User, now: int, o: Id)
    requires Wf(s.db) && Structure(s.db.rows) && s.db.clock <= now && Dispatch(s, dir, m, actor, now).Ok?
    requires o in s.db.rows && s.db.rows[o].origin == None
    ensures var rows := Dispatch(s, dir, m, actor, now).value.db.rows; o in rows && rows[o] == s.db.rows[o]
  {
    hide Wf, Structure, Dispatch, Kept;
    DispatchKeeps(s, dir, m, actor, now);
  }

  /** Every row a dispatch adds is a copy of m, or of a live override of m, in a collection
    * served where that row had no live copy; it is no name's and no floating one. */
  lemma NewRowSeen(s: Sched, dir: Directory, m: Id, actor: User, now: int, i: Id)
    requires Wf(s.db) && Structure(s.db.rows) && s.db.clock <= now && Dispatch(s, dir, m, actor, now).Ok?
    requires IsOrganizer(dir, s.db.rows[m], actor)
    requires i in Dispatch(s, dir, m, actor, now).value.db.rows && i !in s.db.rows
    ensures m in s.db.rows
    ensures var row := Dispatch(s, dir, m, actor, now).value.db.rows[i]; var rows := s.db.rows;
            && row.origin.Some? && row.origin.value in rows && rows[row.origin.value].live
            && (row.origin == Some(m) || rows[row.origin.value].master == Some(m))
            && (row.master == None <==> row.origin == Some(m))
            && Serves(dir, rows[m], row.cal) && row.href == None && !row.floating && row.updatedAt == now
            && forall x | x in rows && rows[x].live && rows[x].cal == row.cal :: rows[x].origin != row.origin
  {
    hide Wf, Structure, Dispatch, IsOrganizer, Kept, LiveOverrides, Homes, Serves, Mentioned, Records;
    SentNew(s, dir, m, actor, now);
    var d := Dispatch(s, dir, m, actor, now).value.db;
    var row := d.rows[i];
    SentExactly(s, dir, m, actor, now, m);
    ServesExactly(dir, s.db.rows[m], row.cal);
    OverridesListed(s.db.rows, m, row.origin.value);
    forall x | x in s.db.rows && s.db.rows[x].live && s.db.rows[x].cal == row.cal
      ensures s.db.rows[x].origin != row.origin
    {
      assert !IsLiveCopy(s.db.rows, row.origin.value, row.cal, x);
    }
  }

  // ----- who dispatches, and what others get -----

  /** A dispatch needs a live row that is no copy; by anyone but the row's organizer, by link or
    * by address, it does nothing. */
  lemma DispatchRefused(s: Sched, dir: Directory, m: Id, actor: User, now: int)
    ensures !(m in s.db.rows && s.db.rows[m].origin == None && s.db.rows[m].live) ==>
              Dispatch(s, dir, m, actor, now) == Err(NotFound)
    ensures m in s.db.rows ==>
              var row := s.db.rows[m];
              (IsOrganizer(dir, row, actor) <==>
               row.organizerUser == Some(actor)
               || (actor in dir.emailOf && dir.emailOf[actor] == row.body.organizerEmail))
    ensures m in s.db.rows && s.db.rows[m].origin == None && s.db.rows[m].live
              && !IsOrganizer(dir, s.db.rows[m], actor) ==>
              Dispatch(s, dir, m, actor, now) == Ok(s)
  {
  }

  // ----- messages -----

  /** The address stands on the list, the organizer's aside. */
  predicate Listed(o: Row, e: string) {
    e != o.body.organizerEmail && exists a :: a in o.attendees && a.email == Some(e)
  }

  ghost predicate MailedBy(dir: Directory, o: Row, e: string) {
    exists a :: a in o.attendees && Mailed(dir, a, o.body.organizerEmail, e)
  }

  lemma MailedExactly(dir: Directory, o: Row, e: string)
    ensures MailedBy(dir, o, e) <==> IsExternal(dir, o, o.attendees, e)
    ensures Listed(o, e) <==> e in CurrentEmails(o.attendees, o.body.organizerEmail)
    ensures MailedBy(dir, o, e) ==> Listed(o, e)
  {
    hide RecipientOf, Reaches;
    forall a | a in o.attendees ensures Mailed(dir, a, o.body.organizerEmail, e) <==>
      RecipientOf(dir, a, o.body.organizerEmail) == External(e)
    {
      RecipientExactly(dir, a, o.body.organizerEmail);
    }
    if e in CurrentEmails(o.attendees, o.body.organizerEmail) {
      var a :| a in o.attendees && a.email.Some? && a.email.value != o.body.organizerEmail && a.email.value == e;
      assert a.email == Some(e);
    }
  }

  /** A message about m with this verb went to e. */
  predicate Told(msgs: seq<Message>, m: Id, e: string, verb: Method) {
    exists msg :: msg in msgs && msg.subject == m && msg.email == e && msg.verb == verb
  }

  /** The messages the organizer's dispatch adds, each at m's sequence: a REQUEST to an attendee
    * who is mailed; a CANCEL to someone asked before who is off the list, is no local user, and
    * never had one. */
  predicate NewMessage(msgs: seq<Message>, dir: Directory, m: Id, o: Row, msg: Message) {
    && msg.subject == m && msg.sequence == o.sequence
    && (msg.verb == Request ==> exists a :: a in o.attendees && Mailed(dir, a, o.body.organizerEmail, msg.email))
    && (msg.verb == Cancel ==>
          && Told(msgs, m, msg.email, Request) && !Told(msgs, m, msg.email, Cancel)
          && !Listed(o, msg.email) && msg.email !in dir.userOf)
  }

  lemma ToldExactly(msgs: seq<Message>, m: Id, e: string, verb: Method)
    ensures Told(msgs, m, e, verb) <==> Sent(msgs, m, e, verb)
  {
    if Sent(msgs, m, e, verb) {
      var k :| 0 <= k < |msgs| && msgs[k].subject == m && msgs[k].email == e && msgs[k].verb == verb;
      assert msgs[k] in msgs;
    }
  }

  lemma OutboxSeen(msgs: seq<Message>, dir: Directory, m: Id, o: Row)
    ensures var r := Outbox(msgs, dir, m, o);
            && msgs <= r && forall k | |msgs| <= k < |r| :: NewMessage(msgs, dir, m, o, r[k])
  {
    hide Requested, Withdrawn, PastAddresses, CurrentEmails, IsExternal, RequestNeeded, Told, Listed, Mailed;
    var asked := Requested(msgs, dir, m, o, o.attendees);
    var current := CurrentEmails(o.attendees, o.body.organizerEmail);
    RequestedExactly(msgs, dir, m, o, o.attendees);
    PastIsSent(asked, m);
    WithdrawnExactly(asked, dir, m, o.sequence, current, PastAddresses(asked, m));
    var r := Outbox(msgs, dir, m, o);
    forall k | |msgs| <= k < |r| ensures NewMessage(msgs, dir, m, o, r[k]) {
      var e := r[k].email;
      MailedExactly(dir, o, e);
      ToldExactly(msgs, m, e, Request);
      ToldExactly(msgs, m, e, Cancel);
      if |asked| <= k {
        AskedBefore(msgs, asked, dir, m, o, e);
        NotDismissedBefore(msgs, asked, m, e);
      } else {
        assert r[k] == asked[k];
        assert MailedBy(dir, o, e);
      }
    }
  }

  lemma AskedBefore(msgs: seq<Message>, asked: seq<Message>, dir: Directory, m: Id, o: Row, e: string)
    requires msgs <= asked && Sent(asked, m, e, Request) && !Listed(o, e)
    requires forall k | |msgs| <= k < |asked| ::
               asked[k].verb == Request && IsExternal(dir, o, o.attendees, asked[k].email)
    ensures Sent(msgs, m, e, Request)
  {
    hide IsExternal, Listed, MailedBy;
    MailedExactly(dir, o, e);
    var k :| 0 <= k < |asked| && asked[k].subject == m && asked[k].email == e && asked[k].verb == Request;
    assert k < |msgs| && msgs[k] == asked[k];
  }

  lemma NotDismissedBefore(msgs: seq<Message>, asked: seq<Message>, m: Id, e: string)
    requires msgs <= asked && !Sent(asked, m, e, Cancel)
    ensures !Sent(msgs, m, e, Cancel)
  {
    if Sent(msgs, m, e, Cancel) {
      SentLater(msgs, asked, m, e, Cancel);
    }
  }

  /** What the organizer's dispatch does to the log: only such messages are added; everyone
    * mailed has then been asked at m's sequence or a later one, and everyone asked before who
    * is off the list and no local user has had a CANCEL. */
  lemma DispatchMessagesSeen(s: Sched, dir: Directory, m: Id, actor: User, now: int)
    requires Dispatch(s, dir, m, actor, now).Ok? && IsOrganizer(dir, s.db.rows[m], actor)
    ensures m in s.db.rows
    ensures var o := s.db.rows[m]; var r := Dispatch(s, dir, m, actor, now).value.messages;
            && s.messages <= r
            && (forall k | |s.messages| <= k < |r| :: NewMessage(s.messages, dir, m, o, r[k]))
            && (forall a, e | a in o.attendees && Mailed(dir, a, o.body.organizerEmail, e) ::
                  exists msg :: msg in r && msg.subject == m && msg.email == e && msg.verb == Request
                             && o.sequence <= msg.sequence)
            && (forall e | Told(s.messages, m, e, Request) && !Listed(o, e) && e !in dir.userOf ::
                  Told(r, m, e, Cancel))
  {
    hide Dispatch, Outbox, NewMessage, IsOrganizer, Told, Mailed, IsExternal;
    CommittedDispatch(s, dir, m, actor, now);
    var o := s.db.rows[m];
    OutboxSeen(s.messages, dir, m, o);
    forall a, e | a in o.attendees && Mailed(dir, a, o.body.organizerEmail, e)
      ensures exists msg :: msg in Dispatch(s, dir, m, actor, now).value.messages && msg.subject == m && msg.email == e
                         && msg.verb == Request && o.sequence <= msg.sequence
    {
      assert MailedBy(dir, o, e);
      MailedExactly(dir, o, e);
      ExternalsAsked(s.messages, dir, m, o, e);
      var r := Outbox(s.messages, dir, m, o);
      var k :| 0 <= k < |r| && r[k].subject == m && r[k].email == e && r[k].verb == Request
        && o.sequence <= r[k].sequence;
      assert r[k] in r;
    }
    forall e | Told(s.messages, m, e, Request) && !Listed(o, e) && e !in dir.userOf
      ensures Told(Outbox(s.messages, dir, m, o), m, e, Cancel)
    {
      EveryoneToldAnswered(s.messages, dir, m, o, e);
    }
  }

  lemma EveryoneToldAnswered(msgs: seq<Message>, dir: Directory, m: Id, o: Row, e: string)
    requires Told(msgs, m, e, Request) && !Listed(o, e) && e !in dir.userOf
    ensures Told(Outbox(msgs, dir, m, o), m, e, Cancel)
  {
    hide Outbox, Told, CurrentEmails, Listed, IsExternal, MailedBy, Sent;
    MailedExactly(dir, o, e);
    ToldExactly(msgs, m, e, Request);
    EveryoneAskedIsAnswerable(msgs, dir, m, o, e);
    OutboxAdds(msgs, dir, m, o);
    SentLater(msgs, Outbox(msgs, dir, m, o), m, e, Request);
    ToldExactly(Outbox(msgs, dir, m, o), m, e, Cancel);
  }

  // ----- calling off -----

  lemma {:induction false} CallOffMessages(s: Sched, dir: Directory, m: Id, o: Row, atts: seq<Attendee>, now: int)
    ensures var r := CalledOff(s, dir, m, o, atts, now).messages;
            && s.messages <= r
            && forall k | |s.messages| <= k < |r| ::
                 && r[k].subject == m && r[k].sequence == o.sequence && r[k].verb == Cancel
                 && exists a :: a in atts && Mailed(dir, a, o.body.organizerEmail, r[k].email)
    decreases |atts|
  {
    hide RecipientOf, CancelAll, CopiesIn, Mailed;
    if atts != [] {
      var n := |atts| - 1;
      CallOffMessages(s, dir, m, o, atts[..n], now);
      RecipientExactly(dir, atts[n], o.body.organizerEmail);
      var before := CalledOff(s, dir, m, o, atts[..n], now).messages;
      var r := CalledOff(s, dir, m, o, atts, now).messages;
      forall k | |s.messages| <= k < |r|
        ensures r[k].subject == m && r[k].sequence == o.sequence && r[k].verb == Cancel
             && exists a :: a in atts && Mailed(dir, a, o.body.organizerEmail, r[k].email)
      {
        if k < |before| {
          var a :| a in atts[..n] && Mailed(dir, a, o.body.organizerEmail, before[k].email);
          assert a in atts;
        } else {
          assert atts[n] in atts;
        }
      }
    }
  }

  lemma ReachedExactly(rows: Rows, dir: Directory, m: Id, o: Row, i: Id)
    ensures Reached(rows, dir, m, o, o.attendees, i) <==>
            && i in rows && rows[i].live && (rows[i].origin == Some(m) || rows[i].master == Some(m))
            && Serves(dir, o, rows[i].cal)
  {
    hide RecipientOf, Reaches, Serves;
    if i in rows {
      ServesExactly(dir, o, rows[i].cal);
      var (atts, organizer) := (o.attendees, o.body.organizerEmail);
      if rows[i].cal in Homes(dir, atts, organizer) {
        var a :| a in atts && RecipientOf(dir, a, organizer).Local?
          && RecipientOf(dir, a, organizer).cal == rows[i].cal;
        var k :| 0 <= k < |atts| && atts[k] == a;
      }
    }
  }

  /** A row after m is called off: in a collection served, a live row of the series is
    * cancelled and stays visible; no other row is written. */
  ghost predicate RowCalledOff(dir: Directory, m: Id, o: Row, row: Row, row': Row, now: int) {
    if row.live && (row.origin == Some(m) || row.master == Some(m)) && Serves(dir, o, row.cal)
    then row'.live && row'.body.status == Some("CANCELLED") && row.sequence < row'.sequence
         && row'.updatedAt == now && row'.attendees == row.attendees
    else row' == row
  }

  lemma CallOffRow(s: Sched, dir: Directory, m: Id, o: Row, now: int, i: Id)
    requires i in s.db.rows
    ensures var t := CalledOff(s, dir, m, o, o.attendees, now);
            i in t.db.rows && RowCalledOff(dir, m, o, s.db.rows[i], t.db.rows[i], now)
  {
    hide CalledOff, Reached, Serves;
    CalledOffExactly(s, dir, m, o, o.attendees, now, i);
    ReachedExactly(s.db.rows, dir, m, o, i);
  }

  /** The messages of calling off: a CANCEL at m's sequence to everyone mailed, to nobody else. */
  ghost predicate ToldOff(msgs: seq<Message>, msgs': seq<Message>, dir: Directory, m: Id, o: Row) {
    && msgs <= msgs'
    && (forall k | |msgs| <= k < |msgs'| ::
          && msgs'[k].subject == m && msgs'[k].sequence == o.sequence && msgs'[k].verb == Cancel
          && MailedBy(dir, o, msgs'[k].email))
    && (forall e | MailedBy(dir, o, e) :: Message(m, e, Cancel, o.sequence) in msgs')
  }

  lemma CallOffTold(s: Sched, dir: Directory, m: Id, o: Row, now: int)
    requires Wf(s.db) && Structure(s.db.rows) && s.db.clock == now
    ensures var t := CalledOff(s, dir, m, o, o.attendees, now);
            t.db.rows.Keys == s.db.rows.Keys && ToldOff(s.messages, t.messages, dir, m, o)
  {
    hide Wf, Structure, CalledOff, Kept, RequestsRise, IsExternal, Mailed;
    CalledOffKeeps(s, dir, m, o, o.attendees, now);
    CallOffMessages(s, dir, m, o, o.attendees, now);
    forall e | MailedBy(dir, o, e)
      ensures Message(m, e, Cancel, o.sequence) in CalledOff(s, dir, m, o, o.attendees, now).messages
    {
      MailedExactly(dir, o, e);
    }
  }

  /** Calling off a row that is no copy, deleted or not, does this if the actor is its organizer,
    * by link or by address, and else nothing. */
  lemma CallOffSeen(s: Sched, dir: Directory, m: Id, actor: User, now: int)
    requires Wf(s.db) && Structure(s.db.rows) && s.db.clock <= now
    ensures CancelDispatch(s, dir, m, actor, now).Ok? <==> m in s.db.rows && s.db.rows[m].origin == None
    ensures CancelDispatch(s, dir, m, actor, now).Ok? ==>
              var (o, t) := (s.db.rows[m], CancelDispatch(s, dir, m, actor, now).value);
              if o.organizerUser == Some(actor)
                 || (actor in dir.emailOf && dir.emailOf[actor] == o.body.organizerEmail)
              then
                && t.db.rows.Keys == s.db.rows.Keys
                && (forall i | i in s.db.rows :: RowCalledOff(dir, m, o, s.db.rows[i], t.db.rows[i], now))
                && ToldOff(s.messages, t.messages, dir, m, o)
              else t == s
  {
    hide Wf, Structure, CalledOff, RowCalledOff, ToldOff;
    if m in s.db.rows && s.db.rows[m].origin == None && IsOrganizer(dir, s.db.rows[m], actor) {
      var (o, s0) := (s.db.rows[m], s.(db := s.db.(clock := now)));
      LaterKeepsWf(s.db, s0.db);
      CallOffTold(s0, dir, m, o, now);
      forall i | i in s.db.rows
        ensures var t := CalledOff(s0, dir, m, o, o.attendees, now);
                i in t.db.rows && RowCalledOff(dir, m, o, s.db.rows[i], t.db.rows[i], now)
      {
        CallOffRow(s0, dir, m, o, now, i);
      }
    }
  }

  // ----- declines -----

  /** Who may decline what: an owner of its collection a live copy; of any other row a decline is
    * ignored. */
  lemma DeclineAccepted(db: Db, dir: Directory, c: Id, actor: User, now: int)
    ensures !(c in db.rows && db.rows[c].live && db.rows[c].origin.Some?) ==>
              Decline(db, dir, c, actor, now) == Ok(db)
    ensures c in db.rows && db.rows[c].live && db.rows[c].origin.Some? ==>
              (Decline(db, dir, c, actor, now).Ok? <==>
               db.rows[c].cal in dir.owners && actor in dir.owners[db.rows[c].cal])
  {
  }
}
