/** The scheduler: dispatch, cancel, reply and decline as transactions over the
  * event store's tables and the message log. */
module Scheduler {
  import opened Wrappers
  import opened EventRows
  import opened EventEffects
  import opened EventStore
  import opened Scheduling
  import opened SchedulingCopies
  import opened SchedulingDispatch

  // ----- delivered copies, on an open transaction -----

  method UpsertCopyRow(tx: Transaction, o: Id, cal: Cal, master: Option<Id>) returns (r: Result<Option<Id>, DbError>)
    modifies tx
    ensures match UpsertCopy(old(tx.View()), o, cal, master, tx.now)
      case Ok((d, copy)) => r == Ok(copy) && tx.View() == d
      case Err(e) => r == Err(e)
  {
    hide Fits, InsertError;
    match LiveCopy(tx.rows, o, cal)
    case Some(c) =>
      if o in tx.rows && tx.rows[o].live {
        var from := tx.rows[o];
        var row := tx.rows[c].(uid := from.uid, body := from.body, organizerUser := from.organizerUser,
                               sequence := from.sequence, updatedAt := tx.now);
        row := row.(etag := EtagOf(row));
        if !Fits(tx.rows, c, row) {
          return Err(Database);
        }
        tx.rows := tx.rows[c := row];
        tx.RecordChange(row.cal, c, Updated);
      }
      r := Ok(Some(c));
    case None =>
      if o !in tx.rows || !tx.rows[o].live {
        return Ok(None);
      }
      var c := FreshId(tx.rows);
      var error := tx.Insert(c, NewCopy(tx.rows[o], o, cal, master, tx.now));
      if error.Some? {
        return Err(Database);
      }
      tx.RecordChange(cal, c, Created);
      r := Ok(Some(c));
  }

  lemma {:induction false} FirstFailureStands(db: Db, os: seq<Id>, cal: Cal, mc: Id, k: nat, now: int)
    requires k <= |os| && UpsertAll(db, os[..k], cal, mc, now).Err?
    ensures UpsertAll(db, os, cal, mc, now) == UpsertAll(db, os[..k], cal, mc, now)
    decreases |os|
  {
    hide UpsertCopy;
    if k == |os| {
      assert os[..k] == os;
    } else {
      var n := |os| - 1;
      assert os[..n][..k] == os[..k];
      FirstFailureStands(db, os[..n], cal, mc, k, now);
    }
  }

  method UpsertOverrides(tx: Transaction, os: seq<Id>, cal: Cal, mc: Id) returns (error: Option<DbError>)
    modifies tx
    ensures match UpsertAll(old(tx.View()), os, cal, mc, tx.now)
      case Ok(d) => error == None && tx.View() == d
      case Err(e) => error == Some(e)
  {
    hide UpsertCopy;
    var k := 0;
    while k < |os|
      invariant 0 <= k <= |os|
      invariant UpsertAll(old(tx.View()), os[..k], cal, mc, tx.now) == Ok(tx.View())
    {
      assert os[..k + 1][..k] == os[..k];
      var r := UpsertCopyRow(tx, os[k], cal, Some(mc));
      if r.Err? {
        FirstFailureStands(old(tx.View()), os, cal, mc, k + 1, tx.now);
        return Some(r.error);
      }
      k := k + 1;
    }
    assert os[..k] == os;
    error := None;
  }

  method DropCopies(tx: Transaction, stale: seq<Id>)
    modifies tx
    ensures tx.View() == DropAll(old(tx.View()), stale)
  {
    var k := 0;
    while k < |stale|
      invariant 0 <= k <= |stale|
      invariant tx.View() == DropAll(old(tx.View()), stale[..k])
    {
      assert stale[..k + 1][..k] == stale[..k];
      var c := stale[k];
      if c in tx.rows {
        tx.rows := tx.rows[c := tx.rows[c].(live := false)];
        tx.RecordChange(tx.rows[c].cal, c, Deleted);
      }
      k := k + 1;
    }
    assert stale[..k] == stale;
  }

  method Rebuild(tx: Transaction, m: Id, cal: Cal) returns (error: Option<DbError>)
    modifies tx
    ensures match RebuildCopy(old(tx.View()), m, cal, tx.now)
      case Ok(d) => error == None && tx.View() == d
      case Err(e) => error == Some(e)
  {
    hide UpsertCopy, UpsertAll, DropAll, DeadCopies, LiveOverrides, ClearedParts, FilledParts;
    var r := UpsertCopyRow(tx, m, cal, None);
    if r.Err? {
      return Some(r.error);
    }
    if r.value == None {
      return None;
    }
    error := UpsertOverrides(tx, LiveOverrides(tx.rows, m), cal, r.value.value);
    if error.Some? {
      return;
    }
    DropCopies(tx, DeadCopies(tx.rows, m));
    tx.rows := ClearedParts(tx.rows, m, cal);
    tx.rows := FilledParts(tx.rows, m, cal);
  }

  method CancelRows(tx: Transaction, cs: seq<Id>)
    modifies tx
    ensures tx.View() == CancelAll(old(tx.View()), cs, tx.now)
  {
    var k := 0;
    while k < |cs|
      invariant 0 <= k <= |cs|
      invariant tx.View() == CancelAll(old(tx.View()), cs[..k], tx.now)
    {
      assert cs[..k + 1][..k] == cs[..k];
      CancelOne(tx, cs[k]);
      k := k + 1;
    }
    assert cs[..k] == cs;
  }

  method CancelOne(tx: Transaction, c: Id)
    modifies tx
    ensures tx.View() == CancelRow(old(tx.View()), c, tx.now)
  {
    if c in tx.rows && tx.rows[c].live {
      var row := tx.rows[c].(body := tx.rows[c].body.(status := Some("CANCELLED")),
                             sequence := tx.rows[c].sequence + 1, updatedAt := tx.now);
      row := row.(etag := EtagOf(row));
      assert row == CancelledCopy(tx.rows[c], tx.now);
      tx.rows := tx.rows[c := row];
      tx.RecordChange(row.cal, c, Updated);
    }
  }

  // ----- the message log -----

  /** SELECT MAX(sequence), then the comparison with the subject's. */
  method NeedsRequest(msgs: seq<Message>, m: Id, email: string, sequence: int) returns (needed: bool)
    ensures needed == RequestNeeded(msgs, m, email, sequence)
  {
    var last: Option<int> := None;
    var k := 0;
    while k < |msgs|
      invariant 0 <= k <= |msgs|
      invariant RequestNeeded(msgs[..k], m, email, sequence) == (last == None || last.value < sequence)
      invariant forall i | 0 <= i < k && msgs[i].subject == m && msgs[i].email == email && msgs[i].verb == Request ::
                  last.Some? && msgs[i].sequence <= last.value
      invariant last.Some? ==> exists i :: 0 <= i < k && msgs[i].subject == m && msgs[i].email == email
                                        && msgs[i].verb == Request && msgs[i].sequence == last.value
    {
      if msgs[k].subject == m && msgs[k].email == email && msgs[k].verb == Request {
        if last == None || last.value < msgs[k].sequence {
          last := Some(msgs[k].sequence);
        }
      }
      k := k + 1;
    }
    assert msgs[..k] == msgs;
    needed := last == None || last.value < sequence;
  }

  /** SELECT DISTINCT attendee_email of the REQUESTs. */
  method PastRecipients(msgs: seq<Message>, m: Id) returns (emails: seq<string>)
    ensures emails == PastAddresses(msgs, m)
  {
    emails := [];
    var k := 0;
    while k < |msgs|
      invariant 0 <= k <= |msgs|
      invariant emails == PastAddresses(msgs[..k], m)
    {
      assert msgs[..k + 1][..k] == msgs[..k];
      if msgs[k].subject == m && msgs[k].verb == Request && msgs[k].email !in emails {
        emails := emails + [msgs[k].email];
      }
      k := k + 1;
    }
    assert msgs[..k] == msgs;
  }

  method Withdraw(msgs: seq<Message>, dir: Directory, m: Id, sequence: int, current: set<string>, emails: seq<string>)
    returns (r: seq<Message>)
    ensures r == Withdrawn(msgs, dir, m, sequence, current, emails)
  {
    r := msgs;
    var k := 0;
    while k < |emails|
      invariant 0 <= k <= |emails|
      invariant r == Withdrawn(msgs, dir, m, sequence, current, emails[..k])
    {
      assert emails[..k + 1][..k] == emails[..k];
      if emails[k] !in current && emails[k] !in dir.userOf && !Sent(r, m, emails[k], Cancel) {
        r := Queued(r, Message(m, emails[k], Cancel, sequence));
      }
      k := k + 1;
    }
    assert emails[..k] == emails;
  }

  // ----- the attendee loop of a dispatch -----

  lemma {:induction false} FirstRebuildFailureStands(db: Db, dir: Directory, m: Id, organizer: string,
      atts: seq<Attendee>,
      k: nat, now: int)
    requires k <= |atts| && Delivered(db, dir, m, organizer, atts[..k], now).Err?
    ensures Delivered(db, dir, m, organizer, atts, now) == Delivered(db, dir, m, organizer, atts[..k], now)
    decreases |atts|
  {
    hide RebuildCopy, RecipientOf;
    if k == |atts| {
      assert atts[..k] == atts;
    } else {
      var n := |atts| - 1;
      assert atts[..n][..k] == atts[..k];
      FirstRebuildFailureStands(db, dir, m, organizer, atts[..n], k, now);
    }
  }

  lemma CurrentGrows(atts: seq<Attendee>, organizer: string, k: nat)
    requires k < |atts|
    ensures var a := atts[k];
            CurrentEmails(atts[..k + 1], organizer)
            == CurrentEmails(atts[..k], organizer)
               + (if a.email.Some? && a.email.value != organizer then {a.email.value} else {})
  {
    assert atts[..k + 1] == atts[..k] + [atts[k]];
  }

  lemma InternalGrows(dir: Directory, atts: seq<Attendee>, organizer: string, k: nat)
    requires k < |atts|
    ensures var r := RecipientOf(dir, atts[k], organizer);
            InternalUsers(dir, atts[..k + 1], organizer)
            == InternalUsers(dir, atts[..k], organizer) + (if r.Local? then {r.user} else {})
  {
    hide RecipientOf;
    assert atts[..k + 1] == atts[..k] + [atts[k]];
  }

  /** Delivery and REQUESTs, attendee by attendee, gathering who is still invited. */
  method DeliverAndAsk(tx: Transaction, dir: Directory, m: Id, row: Row, msgs: seq<Message>)
    returns (error: Option<DbError>, asked: seq<Message>, current: set<string>, internal: set<User>)
    modifies tx
    ensures match Delivered(old(tx.View()), dir, m, row.body.organizerEmail, row.attendees, tx.now)
      case Err(e) => error == Some(e)
      case Ok(d) =>
        && error == None && tx.View() == d
        && asked == Requested(msgs, dir, m, row, row.attendees)
        && current == CurrentEmails(row.attendees, row.body.organizerEmail)
        && internal == InternalUsers(dir, row.attendees, row.body.organizerEmail)
  {
    hide RebuildCopy, Queued, RequestNeeded, CurrentEmails, InternalUsers;
    var organizer := row.body.organizerEmail;
    var atts := row.attendees;
    current, internal, asked := {}, {}, msgs;
    NobodyYet(dir, organizer);
    var k := 0;
    while k < |atts|
      invariant 0 <= k <= |atts|
      invariant Delivered(old(tx.View()), dir, m, organizer, atts[..k], tx.now) == Ok(tx.View())
      invariant asked == Requested(msgs, dir, m, row, atts[..k])
      invariant current == CurrentEmails(atts[..k], organizer) && internal == InternalUsers(dir, atts[..k], organizer)
    {
      var a := atts[k];
      assert atts[..k + 1][..k] == atts[..k];
      CurrentGrows(atts, organizer, k);
      InternalGrows(dir, atts, organizer, k);
      k := k + 1;
      if a.email == None || a.email.value == organizer {
        continue;
      }
      current := current + {a.email.value};
      var user := if a.user.Some? then a.user else Lookup(dir, a.email.value);
      if user.Some? && user.value in dir.home {
        internal := internal + {user.value};
        error := Rebuild(tx, m, dir.home[user.value]);
        if error.Some? {
          FirstRebuildFailureStands(old(tx.View()), dir, m, organizer, atts, k, tx.now);
          return;
        }
        continue;
      }
      var needed := NeedsRequest(asked, m, a.email.value, row.sequence);
      if needed {
        asked := Queued(asked, Message(m, a.email.value, Request, row.sequence));
      }
    }
    assert atts[..k] == atts;
    error := None;
  }

  lemma NobodyYet(dir: Directory, organizer: string)
    ensures CurrentEmails([], organizer) == {} && InternalUsers(dir, [], organizer) == {}
  {
  }

  /** Cancels the copies of local attendees and queues a CANCEL for each external one. */
  method CallOffAll(tx: Transaction, dir: Directory, m: Id, row: Row, msgs: seq<Message>) returns (queue: seq<Message>)
    modifies tx
    ensures Sched(tx.View(), queue) == CalledOff(Sched(old(tx.View()), msgs), dir, m, row, row.attendees, tx.now)
  {
    hide CancelAll, CopiesIn, Queued;
    queue := msgs;
    var k := 0;
    while k < |row.attendees|
      invariant 0 <= k <= |row.attendees|
      invariant Sched(tx.View(), queue)
             == CalledOff(Sched(old(tx.View()), msgs), dir, m, row, row.attendees[..k], tx.now)
    {
      var a := row.attendees[k];
      assert row.attendees[..k + 1][..k] == row.attendees[..k];
      k := k + 1;
      if a.email == None || a.email.value == row.body.organizerEmail {
        continue;
      }
      var user := if a.user.Some? then a.user else Lookup(dir, a.email.value);
      if user.Some? && user.value in dir.home {
        CancelRows(tx, CopiesIn(tx.rows, m, dir.home[user.value]));
      } else {
        queue := Queued(queue, Message(m, a.email.value, Cancel, row.sequence));
      }
    }
    assert row.attendees[..k] == row.attendees;
  }

  /** The three writes of a reply: the master's time and etag, the PARTSTAT, the journal. */
  method SetPartstat(tx: Transaction, m: Id, email: string, partstat: string)
    requires m in tx.rows && tx.rows[m].master.GetOr(m) in tx.rows
    modifies tx
    ensures var o := old(tx.View()); var touched := o.rows[m].master.GetOr(m);
            var rows := o.rows[touched := Touched(o.rows[touched], tx.now)];
            tx.View() == Recorded(
              o.(rows := rows[m := rows[m].(attendees := Answered(rows[m].attendees, email, partstat))]),
                                  o.rows[m].cal, touched, Updated)
  {
    hide Answered;
    var cal := tx.rows[m].cal;
    var touched := tx.rows[m].master.GetOr(m);
    tx.rows := tx.rows[touched := tx.rows[touched].(updatedAt := tx.now)];
    tx.RefreshEtag(touched);
    assert tx.rows == old(tx.rows)[touched := Touched(old(tx.rows)[touched], tx.now)];
    tx.rows := tx.rows[m := tx.rows[m].(attendees := Answered(tx.rows[m].attendees, email, partstat))];
    tx.RecordChange(cal, touched, Updated);
  }

  // ----- the public operations -----

  class Service {
    const dir: Directory
    const store: Store
    var messages: seq<Message>

    ghost function View(): Sched reads this, store { Sched(store.View(), messages) }

    ghost predicate Valid() reads this, store { Wf(store.View()) && Structure(store.rows) }

    constructor (dir: Directory, store: Store)
      requires Wf(store.View()) && Structure(store.rows)
      ensures Valid() && this.store == store && this.dir == dir && messages == []
    {
      this.dir, this.store, messages := dir, store, [];
    }

    method DispatchSubject(m: Id, actor: User, now: int) returns (error: Option<DbError>)
      requires Valid() && store.clock <= now
      modifies this, store
      ensures Valid()
      ensures match Dispatch(old(View()), dir, m, actor, now)
        case Ok(s) => error == None && View() == s
        case Err(e) => error == Some(e) && View() == old(View())
    {
      hide Wf, Structure, Delivered, Requested, Withdrawn, CancelAll, Strays, CurrentEmails, InternalUsers,
        PastAddresses, IsOrganizer;
      if m !in store.rows || store.rows[m].origin.Some? || !store.rows[m].live {
        return Some(NotFound);
      }
      var row := store.rows[m];
      if !IsOrganizer(dir, row, actor) {
        return None;
      }
      var tx := new Transaction.Begin(store.rows, store.log, store.ctag, now);
      var asked, current, internal;
      error, asked, current, internal := DeliverAndAsk(tx, dir, m, row, messages);
      if error.Some? {
        return;
      }
      var past := PastRecipients(asked, m);
      var outbox := Withdraw(asked, dir, m, row.sequence, current, past);
      CancelRows(tx, Strays(tx.rows, dir, m, current, internal));
      DispatchKeeps(View(), dir, m, actor, now);
      store.Commit(tx);
      messages := outbox;
    }

    method CancelSubject(m: Id, actor: User, now: int) returns (error: Option<DbError>)
      requires Valid() && store.clock <= now
      modifies this, store
      ensures Valid()
      ensures match CancelDispatch(old(View()), dir, m, actor, now)
        case Ok(s) => error == None && View() == s
        case Err(e) => error == Some(e) && View() == old(View())
    {
      hide Wf, Structure, CalledOff, IsOrganizer;
      if m !in store.rows || store.rows[m].origin.Some? {
        return Some(NotFound);
      }
      var row := store.rows[m];
      if !IsOrganizer(dir, row, actor) {
        return None;
      }
      CancelDispatchKeeps(View(), dir, m, actor, now);
      var tx := new Transaction.Begin(store.rows, store.log, store.ctag, now);
      var queue := CallOffAll(tx, dir, m, row, messages);
      store.Commit(tx);
      messages := queue;
      error := None;
    }

    method ReplyTo(m: Id, email: string, partstat: string, now: int) returns (error: Option<DbError>)
      requires Valid() && store.clock <= now
      modifies store
      ensures Valid()
      ensures match Reply(old(View()).db, m, email, partstat, now)
        case Ok(d) => error == None && store.View() == d
        case Err(e) => error == Some(e) && store.View() == old(store.View())
    {
      hide Wf, Structure, Answered, Touched;
      if partstat !in PARTSTATS {
        return Some(Conflict);
      }
      if m !in store.rows || store.rows[m].origin.Some? || !store.rows[m].live {
        return Some(NotFound);
      }
      var touched := store.rows[m].master.GetOr(m);
      var tx := new Transaction.Begin(store.rows, store.log, store.ctag, now);
      if touched !in tx.rows {
        return Some(Database);
      }
      SetPartstat(tx, m, email, partstat);
      ReplyKeeps(store.View(), m, email, partstat, now);
      store.Commit(tx);
      error := None;
    }

    method DeclineCopy(c: Id, actor: User, now: int) returns (error: Option<DbError>)
      requires Valid() && store.clock <= now
      modifies store
      ensures Valid()
      ensures match Decline(old(View()).db, dir, c, actor, now)
        case Ok(d) => error == None && store.View() == d
        case Err(e) => error == Some(e) && store.View() == old(store.View())
    {
      hide Wf, Structure, Reply, EmailFor, Owners;
      if c !in store.rows || !store.rows[c].live || store.rows[c].origin == None {
        return None;
      }
      if actor !in Owners(dir, store.rows[c].cal) {
        return Some(NotFound);
      }
      var o := store.rows[c].origin.value;
      DeclineKeeps(store.View(), dir, c, actor, now);
      if o in store.rows {
        var email := EmailFor(dir, store.rows[o].attendees, actor);
        if email.Some? {
          var ignored := ReplyTo(o, email.value, "DECLINED", now);
        }
      }
      if c in store.rows {
        var tx := new Transaction.Begin(store.rows, store.log, store.ctag, now);
        tx.rows := tx.rows[c := tx.rows[c].(live := false)];
        store.Commit(tx);
      }
      error := None;
    }
  }
}
