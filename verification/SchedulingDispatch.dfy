/** Whole dispatches: what they keep, and what every invited user finds afterwards. */
module SchedulingDispatch {
  import opened Wrappers
  import opened EventRows
  import opened EventEffects
  import opened Scheduling
  import opened SchedulingCopies
  import opened SchedulingMessages

  /** What a dispatch does at most: no row changes identity, no organizer's row is
    * written, deleted rows keep their keys, and copies of other origins, the copies
    * of m's overrides among them, get no attendees and no alarms. */
  predicate Progress(db: Db, d: Db, m: Id) {
    && Kept(db.rows, d.rows) && OriginsKept(db.rows, d.rows) && DeadKept(db.rows, d.rows)
    && d.clock == db.clock && d.ctag.Keys == db.ctag.Keys && db.log <= d.log
    && (forall c | c in d.rows && d.rows[c].origin.Some? && d.rows[c].origin != Some(m) ::
          Parts(d.rows, c) == Parts(db.rows, c))
  }

  lemma ProgressTransitive(a: Db, b: Db, c: Db, m: Id)
    requires Progress(a, b, m) && Progress(b, c, m)
    ensures Progress(a, c, m)
  {
    hide SameIdentity;
    KeptTransitive(a.rows, b.rows, c.rows);
    OriginsKeptTransitive(a.rows, b.rows, c.rows);
    DeadKeptTransitive(a.rows, b.rows, c.rows);
    forall i | i in c.rows && c.rows[i].origin.Some? && c.rows[i].origin != Some(m)
      ensures Parts(c.rows, i) == Parts(a.rows, i)
    {
      if i in b.rows {
        KeptRow(b.rows, c.rows, i);
      } else {
        assert i !in a.rows;
      }
    }
  }

  lemma SubjectAfter(db: Db, d: Db, m: Id, o: Id)
    requires Progress(db, d, m) && IsSubject(db.rows, o)
    ensures o in d.rows && d.rows[o] == db.rows[o]
  {
  }

  // ----- delivering to every local attendee -----

  /** m and its live overrides are mirrored in cal. */
  ghost predicate SeriesMirrored(rows: Rows, m: Id, overrides: seq<Id>, cal: Cal) {
    (exists c :: FullMirror(rows, m, cal, c)) && forall o | o in overrides :: HasMirror(rows, o, cal)
  }

  lemma RebuildProgress(db: Db, d: Db, m: Id, cal: Cal)
    requires Delivers(db, d, m, cal)
    ensures Progress(db, d, m)
  {
  }

  lemma MirrorElsewhere(db: Db, d: Db, m: Id, overrides: seq<Id>, cal: Cal, other: Cal)
    requires Delivers(db, d, m, cal) && other != cal && IsSubject(db.rows, m) && db.rows[m].live
    requires forall o | o in overrides :: IsSubject(db.rows, o) && db.rows[o].live
    requires SeriesMirrored(db.rows, m, overrides, other)
    ensures SeriesMirrored(d.rows, m, overrides, other)
  {
    hide Mirrors, Kept;
    var c :| FullMirror(db.rows, m, other, c);
    assert LiveOrigin(db.rows, c);
    assert FullMirror(d.rows, m, other, c);
    forall o | o in overrides ensures HasMirror(d.rows, o, other) {
      var x :| IsLiveCopy(db.rows, o, other, x) && Mirrors(db.rows[x], db.rows[o]);
      assert LiveOrigin(db.rows, x);
      assert IsLiveCopy(d.rows, o, other, x) && Mirrors(d.rows[x], d.rows[o]);
    }
  }

  lemma {:induction false} DeliveredKeeps(db: Db, dir: Directory, m: Id, organizer: string, atts: seq<Attendee>,
      now: int)
    requires Wf(db) && Structure(db.rows) && db.clock == now && IsSubject(db.rows, m) && db.rows[m].live
    requires Delivered(db, dir, m, organizer, atts, now).Ok?
    ensures var d := Delivered(db, dir, m, organizer, atts, now).value;
            && Wf(d) && Structure(d.rows) && Progress(db, d, m)
            && forall a | a in atts && RecipientOf(dir, a, organizer).Local? ::
                 && RecipientOf(dir, a, organizer).cal != db.rows[m].cal
                 && SeriesMirrored(d.rows, m, LiveOverrides(db.rows, m), RecipientOf(dir, a, organizer).cal)
    decreases |atts|
  {
    hide Wf, Structure, Progress, Delivers, SeriesMirrored, LiveOverrides, RebuildCopy, RecipientOf;
    if atts == [] {
      NoProgress(db, m);
    } else {
      var n := |atts| - 1;
      DeliveredKeeps(db, dir, m, organizer, atts[..n], now);
      var d := Delivered(db, dir, m, organizer, atts[..n], now).value;
      var e := Delivered(db, dir, m, organizer, atts, now).value;
      var r := RecipientOf(dir, atts[n], organizer);
      if r.Local? {
        OneMoreRebuilt(db, d, m, r.cal, now);
      }
      forall a | a in atts && RecipientOf(dir, a, organizer).Local?
        ensures RecipientOf(dir, a, organizer).cal != db.rows[m].cal
             && SeriesMirrored(e.rows, m, LiveOverrides(db.rows, m), RecipientOf(dir, a, organizer).cal)
      {
        assert a == atts[n] || a in atts[..n];
        if r.Local? && RecipientOf(dir, a, organizer).cal != r.cal {
          MirrorStaysElsewhere(db, d, m, r.cal, now, RecipientOf(dir, a, organizer).cal);
        }
      }
    }
  }

  lemma NoProgress(db: Db, m: Id)
    ensures Progress(db, db, m)
  {
  }

  lemma OneMoreRebuilt(db: Db, d: Db, m: Id, cal: Cal, now: int)
    requires Wf(db) && Structure(db.rows)
    requires Wf(d) && Structure(d.rows) && Progress(db, d, m) && db.clock == now && IsSubject(db.rows, m)
    requires db.rows[m].live
    requires RebuildCopy(d, m, cal, now).Ok?
    ensures var e := RebuildCopy(d, m, cal, now).value;
            && Wf(e) && Structure(e.rows) && Progress(db, e, m) && Delivers(d, e, m, cal)
            && cal != db.rows[m].cal && SeriesMirrored(e.rows, m, LiveOverrides(db.rows, m), cal)
  {
    hide Wf, Structure, Kept, OriginsKept, Delivers, LiveOverrides, RebuildCopy, FullMirror, HasMirror;
    ProgressClock(db, d, m);
    SubjectAfter(db, d, m, m);
    RebuildKeeps(d, m, cal, now);
    SameOverrides(db.rows, d.rows, m);
    var e := RebuildCopy(d, m, cal, now).value;
    RebuildProgress(d, e, m, cal);
    ProgressTransitive(db, d, e, m);
  }

  lemma ProgressClock(db: Db, d: Db, m: Id)
    requires Progress(db, d, m)
    ensures d.clock == db.clock
  {
  }

  lemma MirrorStaysElsewhere(db: Db, d: Db, m: Id, cal: Cal, now: int, other: Cal)
    requires Wf(db) && Structure(db.rows)
    requires Wf(d) && Structure(d.rows) && Progress(db, d, m) && db.clock == now && IsSubject(db.rows, m)
    requires db.rows[m].live
    requires RebuildCopy(d, m, cal, now).Ok? && other != cal
    requires SeriesMirrored(d.rows, m, LiveOverrides(db.rows, m), other)
    ensures SeriesMirrored(RebuildCopy(d, m, cal, now).value.rows, m, LiveOverrides(db.rows, m), other)
  {
    hide Wf, Structure, Kept, OriginsKept, Delivers, LiveOverrides, RebuildCopy, SeriesMirrored;
    ProgressClock(db, d, m);
    SubjectAfter(db, d, m, m);
    RebuildKeeps(d, m, cal, now);
    SameOverrides(db.rows, d.rows, m);
    OverridesAreOrigins(d, m);
    MirrorElsewhere(d, RebuildCopy(d, m, cal, now).value, m, LiveOverrides(db.rows, m), cal, other);
  }

  // ----- cancelling copies -----

  lemma CancelledFacts(row: Row, now: int)
    ensures var c := CancelledCopy(row, now);
            && SameKeys(row, c) && SameIdentity(row, c) && c.live == row.live
            && c.attendees == row.attendees && c.alarms == row.alarms
            && c.etag == EtagOf(c) && c.updatedAt == now && c.body.rrule == row.body.rrule
            && c.sequence == row.sequence + 1 && c.body.status == Some("CANCELLED")
  {
  }

  lemma CancelKeepsWf(db: Db, c: Id, now: int)
    requires Wf(db) && db.clock == now
    ensures Wf(CancelRow(db, c, now))
  {
    hide Unique, Fits, CancelledCopy;
    if c in db.rows && db.rows[c].live {
      var row := CancelledCopy(db.rows[c], now);
      CancelledFacts(db.rows[c], now);
      assert RowOk(db, c);
      FitsWithSameKeys(db.rows, c, row);
      WriteKeepsWf(db, c, row);
      LaterKeepsWf(db.(rows := db.rows[c := row]), CancelRow(db, c, now));
    }
  }

  predicate Distinct(cs: seq<Id>) { forall i, j | 0 <= i < j < |cs| :: cs[i] != cs[j] }

  /** The live rows in cs are cancelled, each once; all others stay. */
  predicate CancelledExactly(rows: Rows, rows': Rows, cs: seq<Id>, now: int) {
    && rows'.Keys == rows.Keys
    && forall i | i in rows :: rows'[i] == if i in cs && rows[i].live then CancelledCopy(rows[i], now) else rows[i]
  }

  lemma {:induction false} CancelAllKeeps(db: Db, cs: seq<Id>, now: int)
    requires Wf(db) && db.clock == now && Distinct(cs)
    ensures var d := CancelAll(db, cs, now);
            && Wf(d) && d.clock == now && d.ctag.Keys == db.ctag.Keys && db.log <= d.log
            && CancelledExactly(db.rows, d.rows, cs, now)
    decreases |cs|
  {
    hide Wf, CancelledCopy;
    if cs != [] {
      var n := |cs| - 1;
      CancelAllKeeps(db, cs[..n], now);
      var d := CancelAll(db, cs[..n], now);
      CancelKeepsWf(d, cs[n], now);
      assert cs[n] !in cs[..n];
      assert cs == cs[..n] + [cs[n]];
    }
  }

  lemma CancelledKeepsStructure(rows: Rows, rows': Rows, cs: seq<Id>, now: int)
    requires Structure(rows) && CancelledExactly(rows, rows', cs, now)
    ensures Structure(rows') && Kept(rows, rows')
    ensures (forall c | c in cs && c in rows :: rows[c].origin.Some?) ==> OriginsKept(rows, rows')
  {
    hide Structure, CancelledCopy, SameIdentity;
    forall i | i in rows ensures SameIdentity(rows[i], rows'[i]) {
      CancelledFacts(rows[i], now);
      SameIdentitySelf(rows[i]);
    }
    KeptStructure(rows, rows');
  }

  lemma SameIdentitySelf(row: Row)
    ensures SameIdentity(row, row)
  {
  }

  lemma StraysAreCopiesOfSubject(rows: Rows, dir: Directory, m: Id, current: set<string>, internal: set<User>)
    requires Structure(rows) && IsSubject(rows, m)
    ensures var cs := Strays(rows, dir, m, current, internal);
            && Distinct(cs)
            && (forall c :: c in cs <==> IsStray(rows, dir, m, current, internal, c))
            && (forall c | c in cs :: c in rows && rows[c].origin == Some(m))
  {
    hide Structure;
    NoCopyUnderOrigin(rows, m);
  }

  // ----- a whole dispatch -----

  /** Every owner of the collection is still invited. */
  predicate AllOwnersInvited(dir: Directory, row: Row, cal: Cal) {
    forall u | u in Owners(dir, cal) ::
      !Uninvited(dir, CurrentEmails(row.attendees, row.body.organizerEmail),
                 InternalUsers(dir, row.attendees, row.body.organizerEmail), u)
  }

  lemma CommittedDispatch(s: Sched, dir: Directory, m: Id, actor: User, now: int)
    requires Dispatch(s, dir, m, actor, now).Ok?
    ensures IsSubject(s.db.rows, m) && s.db.rows[m].live
    ensures var row := s.db.rows[m]; var organizer := row.body.organizerEmail;
            if !IsOrganizer(dir, row, actor) then Dispatch(s, dir, m, actor, now) == Ok(s)
            else
              var delivered := Delivered(s.db.(clock := now), dir, m, organizer, row.attendees, now);
              && delivered.Ok?
              && Dispatch(s, dir, m, actor, now).value.messages == Outbox(s.messages, dir, m, row)
              && Dispatch(s, dir, m, actor, now).value.db
                 == CancelAll(delivered.value, Strays(delivered.value.rows, dir, m,
                      CurrentEmails(row.attendees, organizer), InternalUsers(dir, row.attendees, organizer)), now)
  {
    hide Delivered, CancelAll, Strays, Outbox;
  }

  lemma StraysCancelled(db: Db, d: Db, dir: Directory, m: Id, current: set<string>, internal: set<User>, now: int)
    requires Wf(d) && Structure(d.rows) && Progress(db, d, m) && db.clock == now && IsSubject(db.rows, m)
    ensures var cs := Strays(d.rows, dir, m, current, internal); var e := CancelAll(d, cs, now);
            && Wf(e) && Structure(e.rows) && Progress(db, e, m) && CancelledExactly(d.rows, e.rows, cs, now)
            && (forall c :: c in cs <==> IsStray(d.rows, dir, m, current, internal, c))
            && (forall c | c in cs :: c in d.rows && d.rows[c].origin == Some(m))
  {
    hide Wf, Structure, Strays, CancelAll, CancelledCopy, Kept, OriginsKept, IsStray;
    SubjectAfter(db, d, m, m);
    var cs := Strays(d.rows, dir, m, current, internal);
    StraysAreCopiesOfSubject(d.rows, dir, m, current, internal);
    CancelAllKeeps(d, cs, now);
    var e := CancelAll(d, cs, now);
    CancelledKeepsStructure(d.rows, e.rows, cs, now);
    forall c | c in e.rows && e.rows[c].origin.Some? && e.rows[c].origin != Some(m)
      ensures Parts(e.rows, c) == Parts(d.rows, c)
    {
      KeptRow(d.rows, e.rows, c);
    }
    ProgressTransitive(db, d, e, m);
  }

  /** A dispatch keeps the invariants and writes no organizer's row. */
  lemma DispatchKeeps(s: Sched, dir: Directory, m: Id, actor: User, now: int)
    requires Wf(s.db) && Structure(s.db.rows) && s.db.clock <= now && Dispatch(s, dir, m, actor, now).Ok?
    ensures var t := Dispatch(s, dir, m, actor, now).value;
            Wf(t.db) && Structure(t.db.rows) && (t == s || Progress(s.db.(clock := now), t.db, m))
  {
    hide Wf, Structure, Progress, Dispatch, Delivered, Strays, CancelAll, CancelledExactly, SeriesMirrored,
      LiveOverrides, IsStray;
    CommittedDispatch(s, dir, m, actor, now);
    var row := s.db.rows[m];
    if IsOrganizer(dir, row, actor) {
      var db := s.db.(clock := now);
      LaterKeepsWf(s.db, db);
      DeliveredKeeps(db, dir, m, row.body.organizerEmail, row.attendees, now);
      var d := Delivered(db, dir, m, row.body.organizerEmail, row.attendees, now).value;
      StraysCancelled(db, d, dir, m, CurrentEmails(row.attendees, row.body.organizerEmail),
                      InternalUsers(dir, row.attendees, row.body.organizerEmail), now);
    }
  }

  /** What a local attendee finds after a dispatch: a live copy with the organizer's
    * attendees and alarms, mirroring every copied field exactly if all owners of the
    * collection are invited, and cancelled otherwise; and a copy that mirrors each
    * live override. */
  lemma DispatchMirrors(s: Sched, dir: Directory, m: Id, actor: User, now: int, a: Attendee) returns (c: Id)
    requires Wf(s.db) && Structure(s.db.rows) && s.db.clock <= now && Dispatch(s, dir, m, actor, now).Ok?
    requires IsOrganizer(dir, s.db.rows[m], actor) && a in s.db.rows[m].attendees
    requires RecipientOf(dir, a, s.db.rows[m].body.organizerEmail).Local?
    ensures var rows := Dispatch(s, dir, m, actor, now).value.db.rows; var row := s.db.rows[m];
            var cal := RecipientOf(dir, a, row.body.organizerEmail).cal;
            && m in rows && rows[m] == row && cal != row.cal
            && IsLiveCopy(rows, m, cal, c) && rows[c].attendees == row.attendees && rows[c].alarms == row.alarms
            && (Mirrors(rows[c], row) <==> AllOwnersInvited(dir, row, cal))
            && (!AllOwnersInvited(dir, row, cal) ==>
                  rows[c].body.status == Some("CANCELLED") && rows[c].sequence == row.sequence + 1)
            && forall o | o in LiveOverrides(s.db.rows, m) :: HasMirror(rows, o, cal)
  {
    hide Wf, Structure, Progress, Dispatch, Delivered, CancelAll, LiveOverrides, RecipientOf, CurrentEmails,
      InternalUsers,
      Strays, CancelledCopy, Uninvited, Owners, HasMirror;
    CommittedDispatch(s, dir, m, actor, now);
    var row := s.db.rows[m];
    var db := s.db.(clock := now);
    LaterKeepsWf(s.db, db);
    DeliveredKeeps(db, dir, m, row.body.organizerEmail, row.attendees, now);
    var d := Delivered(db, dir, m, row.body.organizerEmail, row.attendees, now).value;
    var current := CurrentEmails(row.attendees, row.body.organizerEmail);
    var internal := InternalUsers(dir, row.attendees, row.body.organizerEmail);
    StraysCancelled(db, d, dir, m, current, internal, now);
    SubjectAfter(db, d, m, m);
    var cal := RecipientOf(dir, a, row.body.organizerEmail).cal;
    c :| FullMirror(d.rows, m, cal, c);
    var cs := Strays(d.rows, dir, m, current, internal);
    var rows := CancelAll(d, cs, now).rows;
    assert c in cs <==> IsStray(d.rows, dir, m, current, internal, c);
    CancelledFacts(d.rows[c], now);
    OverridesAreOrigins(db, m);
    forall o | o in LiveOverrides(s.db.rows, m) ensures HasMirror(rows, o, cal) {
      SubjectAfter(db, d, m, o);
      MirrorNotCancelled(d.rows, rows, m, o, cal, cs, now);
    }
  }

  lemma MirrorNotCancelled(rows: Rows, rows': Rows, m: Id, o: Id, cal: Cal, cs: seq<Id>, now: int)
    requires CancelledExactly(rows, rows', cs, now) && o != m && IsSubject(rows, o) && HasMirror(rows, o, cal)
    requires forall c | c in cs :: c in rows && rows[c].origin == Some(m)
    ensures HasMirror(rows', o, cal)
  {
    var x :| IsLiveCopy(rows, o, cal, x) && Mirrors(rows[x], rows[o]);
    assert rows'[x] == rows[x] && rows'[o] == rows[o];
    assert IsLiveCopy(rows', o, cal, x);
  }

  // ----- calling off -----

  /** Identities stay; rows are only cancelled. */
  lemma CopiesInDistinct(rows: Rows, m: Id, cal: Cal)
    ensures Distinct(CopiesIn(rows, m, cal))
    ensures forall c :: c in CopiesIn(rows, m, cal) <==>
              c in rows && rows[c].live && rows[c].cal == cal && (rows[c].origin == Some(m) || OverrideOf(rows[c], m))
  {
  }

  lemma {:induction false} CalledOffKeeps(s: Sched, dir: Directory, m: Id, row: Row, atts: seq<Attendee>, now: int)
    requires Wf(s.db) && Structure(s.db.rows) && s.db.clock == now
    ensures var t := CalledOff(s, dir, m, row, atts, now);
            && Wf(t.db) && Structure(t.db.rows) && Kept(s.db.rows, t.db.rows) && t.db.rows.Keys == s.db.rows.Keys
            && t.db.clock == now && t.db.ctag.Keys == s.db.ctag.Keys
            && (forall i | i in s.db.rows :: s.db.rows[i].sequence <= t.db.rows[i].sequence)
            && Adds(s.messages, t.messages, m, row.sequence)
            && (RequestsRise(s.messages) ==> RequestsRise(t.messages))
            && (forall e | IsExternal(dir, row, atts, e) :: Message(m, e, Cancel, row.sequence) in t.messages)
    decreases |atts|
  {
    hide Wf, Structure, Kept, RecipientOf, CopiesIn, CancelAll, IsExternal, Queued, RequestsRise, CancelledCopy;
    if atts == [] {
      NothingKept(s.db.rows);
      NobodyExternal(dir, row);
    } else {
      var n := |atts| - 1;
      CalledOffKeeps(s, dir, m, row, atts[..n], now);
      var t := CalledOff(s, dir, m, row, atts[..n], now);
      var r := RecipientOf(dir, atts[n], row.body.organizerEmail);
      if r.Local? {
        var cs := CopiesIn(t.db.rows, m, r.cal);
        CopiesInDistinct(t.db.rows, m, r.cal);
        CancelAllKeeps(t.db, cs, now);
        CancelledKeepsStructure(t.db.rows, CancelAll(t.db, cs, now).rows, cs, now);
        KeptTransitive(s.db.rows, t.db.rows, CancelAll(t.db, cs, now).rows);
        forall i | i in t.db.rows ensures t.db.rows[i].sequence <= CancelAll(t.db, cs, now).rows[i].sequence {
          CancelledFacts(t.db.rows[i], now);
        }
      }
      var u := CalledOff(s, dir, m, row, atts, now);
      QueuedCancel(t.messages, m, r, row.sequence);
      forall e | IsExternal(dir, row, atts, e) ensures Message(m, e, Cancel, row.sequence) in u.messages {
        OneMoreExternal(dir, row, atts, e);
      }
    }
  }

  lemma NobodyExternal(dir: Directory, row: Row)
    ensures forall e :: !IsExternal(dir, row, [], e)
  {
  }

  lemma OneMoreExternal(dir: Directory, row: Row, atts: seq<Attendee>, e: string)
    requires atts != [] && IsExternal(dir, row, atts, e)
    ensures IsExternal(dir, row, atts[..|atts| - 1], e)
         || RecipientOf(dir, atts[|atts| - 1], row.body.organizerEmail) == External(e)
  {
    hide RecipientOf;
    var a :| a in atts && RecipientOf(dir, a, row.body.organizerEmail) == External(e);
    assert a == atts[|atts| - 1] || a in atts[..|atts| - 1];
  }

  lemma QueuedCancel(msgs: seq<Message>, m: Id, r: Recipient, sequence: int)
    ensures r.External? ==>
              var q := Queued(msgs, Message(m, r.email, Cancel, sequence));
              && Adds(msgs, q, m, sequence) && Message(m, r.email, Cancel, sequence) in q
              && (RequestsRise(msgs) ==> RequestsRise(q))
  {
    if r.External? {
      var msg := Message(m, r.email, Cancel, sequence);
      assert (msgs + [msg])[|msgs|] == msg;
    }
  }

  /** A live row the calling off of m reaches through one of the attendees: a copy of m,
    * or an override of m, in a local attendee's collection. */
  predicate Reached(rows: Rows, dir: Directory, m: Id, row: Row, atts: seq<Attendee>, i: Id) {
    && i in rows && rows[i].live && (rows[i].origin == Some(m) || OverrideOf(rows[i], m))
    && exists k | 0 <= k < |atts| ::
         var r := RecipientOf(dir, atts[k], row.body.organizerEmail); r.Local? && r.cal == rows[i].cal
  }

  /** Cancelled, once or more: the status set, the sequence raised, the row still visible. */
  predicate IsCancelled(row: Row, row': Row) {
    && row'.body.status == Some("CANCELLED") && row.sequence < row'.sequence && row'.live == row.live
    && SameIdentity(row, row') && row'.attendees == row.attendees
  }

  /** Calling off cancels exactly the rows it reaches; every other row stays. */
  lemma {:induction false} CalledOffExactly(s: Sched, dir: Directory, m: Id, row: Row, atts: seq<Attendee>, now: int,
      i: Id)
    requires i in s.db.rows
    ensures var t := CalledOff(s, dir, m, row, atts, now);
            && i in t.db.rows && t.db.rows[i].live == s.db.rows[i].live && SameIdentity(s.db.rows[i], t.db.rows[i])
            && (if Reached(s.db.rows, dir, m, row, atts, i)
                then IsCancelled(s.db.rows[i], t.db.rows[i]) && t.db.rows[i].updatedAt == now
                else t.db.rows[i] == s.db.rows[i])
    decreases |atts|
  {
    hide RecipientOf, CancelledCopy, CancelAll, Queued;
    if atts == [] {
      SameIdentitySelf(s.db.rows[i]);
    } else {
      var n := |atts| - 1;
      CalledOffExactly(s, dir, m, row, atts[..n], now, i);
      var t := CalledOff(s, dir, m, row, atts[..n], now);
      var r := RecipientOf(dir, atts[n], row.body.organizerEmail);
      assert Reached(s.db.rows, dir, m, row, atts, i) <==>
        (Reached(s.db.rows, dir, m, row, atts[..n], i)
         || (r.Local? && r.cal == s.db.rows[i].cal && s.db.rows[i].live
             && (s.db.rows[i].origin == Some(m) || OverrideOf(s.db.rows[i], m))));
      if r.Local? {
        CopiesInDistinct(t.db.rows, m, r.cal);
        CancelAllRow(t.db, CopiesIn(t.db.rows, m, r.cal), now, i);
        CancelledFacts(t.db.rows[i], now);
      }
    }
  }

  lemma {:induction false} CancelAllRow(db: Db, cs: seq<Id>, now: int, i: Id)
    requires i in db.rows && Distinct(cs)
    ensures i in CancelAll(db, cs, now).rows
         && CancelAll(db, cs, now).rows[i] 
            == if i in cs && db.rows[i].live then CancelledCopy(db.rows[i], now) else db.rows[i]
    decreases |cs|
  {
    hide CancelledCopy;
    if cs != [] {
      var n := |cs| - 1;
      CancelAllRow(db, cs[..n], now, i);
      assert cs[n] !in cs[..n];
      assert cs == cs[..n] + [cs[n]];
    }
  }

  /** Calling off keeps the invariants and tells every external attendee. */
  lemma CancelDispatchKeeps(s: Sched, dir: Directory, m: Id, actor: User, now: int)
    requires Wf(s.db) && Structure(s.db.rows) && s.db.clock <= now && CancelDispatch(s, dir, m, actor, now).Ok?
    ensures var t := CancelDispatch(s, dir, m, actor, now).value;
            && Wf(t.db) && Structure(t.db.rows) && Kept(s.db.rows, t.db.rows) && s.db.clock <= t.db.clock
            && (forall i | i in s.db.rows :: i in t.db.rows && s.db.rows[i].sequence <= t.db.rows[i].sequence)
            && (t == s || (m in s.db.rows && Adds(s.messages, t.messages, m, s.db.rows[m].sequence)))
            && (RequestsRise(s.messages) ==> RequestsRise(t.messages))
            && (IsOrganizer(dir, s.db.rows[m], actor) ==>
                  forall e | IsExternal(dir, s.db.rows[m], s.db.rows[m].attendees, e) ::
                    Message(m, e, Cancel, s.db.rows[m].sequence) in t.messages)
  {
    hide Wf, Structure, Kept, CalledOff, RequestsRise, IsOrganizer, IsExternal;
    NothingKept(s.db.rows);
    if IsOrganizer(dir, s.db.rows[m], actor) {
      var db := s.db.(clock := now);
      LaterKeepsWf(s.db, db);
      CalledOffKeeps(s.(db := db), dir, m, s.db.rows[m], s.db.rows[m].attendees, now);
    }
  }

  // ----- replies and declines -----

  /** The row a reply leaves: its own PARTSTAT set, and its etag refreshed if it is the master. */
  function RepliedRow(row: Row, email: string, partstat: string, now: int): Row {
    var r := if row.master == None then Touched(row, now) else row;
    r.(attendees := Answered(r.attendees, email, partstat))
  }

  /** A reply sets the PARTSTAT on the origin row, refreshes and logs its master, and
    * touches nothing else; sequences stay. */
  lemma ReplyExactly(db: Db, m: Id, email: string, partstat: string, now: int)
    requires Wf(db) && db.clock <= now && Reply(db, m, email, partstat, now).Ok?
    ensures var d := Reply(db, m, email, partstat, now).value; var touched := db.rows[m].master.GetOr(m);
            && IsSubject(db.rows, m) && d.rows.Keys == db.rows.Keys && d.clock == now
            && d.rows[m] == RepliedRow(db.rows[m], email, partstat, now)
            && (touched != m ==> d.rows[touched] == Touched(db.rows[touched], now))
            && (forall i | i in db.rows && i != m && i != touched :: d.rows[i] == db.rows[i])
            && d.log == db.log + [Entry(db.rows[m].cal, touched, Updated)]
  {
    hide Unique;
    assert RowOk(db, m);
  }

  /** A reply is accepted exactly with a known PARTSTAT, on a live origin row. */
  lemma ReplyAccepted(db: Db, m: Id, email: string, partstat: string, now: int)
    requires Wf(db)
    ensures Reply(db, m, email, partstat, now).Ok? <==>
            && partstat in ["NEEDS-ACTION", "ACCEPTED", "DECLINED", "TENTATIVE", "DELEGATED", "COMPLETED", "IN-PROCESS"]
            && m in db.rows && db.rows[m].origin == None && db.rows[m].live
  {
    hide Unique;
    if m in db.rows {
      assert RowOk(db, m);
    }
  }

  lemma ReplyKeepsWf(db: Db, m: Id, email: string, partstat: string, now: int)
    requires Wf(db) && db.clock <= now && Reply(db, m, email, partstat, now).Ok?
    ensures Wf(Reply(db, m, email, partstat, now).value)
  {
    hide Wf, Touched, Answered;
    ReplyExactly(db, m, email, partstat, now);
    var d := Reply(db, m, email, partstat, now).value;
    var touched := db.rows[m].master.GetOr(m);
    ReplyTouchesMaster(db, m);
    var d0 := db.(clock := now);
    LaterKeepsWf(db, d0);
    TouchedIsWritable(d0, touched);
    TouchedRow(db.rows[touched], now);
    WriteKeepsWf(d0, touched, Touched(db.rows[touched], now));
    var d1 := d0.(rows := d0.rows[touched := Touched(db.rows[touched], now)]);
    var d2 := d1.(rows := d1.rows[m := d1.rows[m].(attendees := Answered(d1.rows[m].attendees, email, partstat))]);
    AlikeKeepsWf(d1, d2.rows);
    LaterKeepsWf(d2, d);
  }

  lemma ReplyKeeps(db: Db, m: Id, email: string, partstat: string, now: int)
    requires Wf(db) && Structure(db.rows) && db.clock <= now && Reply(db, m, email, partstat, now).Ok?
    ensures var d := Reply(db, m, email, partstat, now).value; Wf(d) && Structure(d.rows) && Kept(db.rows, d.rows)
  {
    hide Wf, Structure, Touched, Answered, Reply;
    ReplyKeepsWf(db, m, email, partstat, now);
    ReplyExactly(db, m, email, partstat, now);
    ReplyTouchesMaster(db, m);
    TouchedIdentity(db.rows[db.rows[m].master.GetOr(m)], now);
    KeptStructure(db.rows, Reply(db, m, email, partstat, now).value.rows);
  }

  lemma ReplyTouchesMaster(db: Db, m: Id)
    requires Wf(db) && m in db.rows
    ensures IsMaster(db.rows, db.rows[m].master.GetOr(m))
  {
    assert RowOk(db, m);
  }

  lemma TouchedIdentity(row: Row, now: int)
    ensures SameIdentity(row, Touched(row, now))
  {
  }

  lemma DeclineKeeps(db: Db, dir: Directory, c: Id, actor: User, now: int)
    requires Wf(db) && Structure(db.rows) && db.clock <= now && Decline(db, dir, c, actor, now).Ok?
    ensures var d := Decline(db, dir, c, actor, now).value;
            Wf(d) && Structure(d.rows) && Kept(db.rows, d.rows) && db.clock <= d.clock
  {
    hide Wf, Structure, Kept, Reply, EmailFor, Owners;
    NothingKept(db.rows);
    if c in db.rows && db.rows[c].live && db.rows[c].origin.Some? {
      var o := db.rows[c].origin.value;
      var email := if o in db.rows then EmailFor(dir, db.rows[o].attendees, actor) else None;
      if email.Some? && Reply(db, o, email.value, "DECLINED", now).Ok? {
        ReplyKeeps(db, o, email.value, "DECLINED", now);
        ReplyExactly(db, o, email.value, "DECLINED", now);
        var d := Reply(db, o, email.value, "DECLINED", now).value;
        BuryKeeps(d, c, now);
        KeptTransitive(db.rows, d.rows, Decline(db, dir, c, actor, now).value.rows);
      } else {
        BuryKeeps(db, c, now);
      }
    }
  }

  lemma BuryKeepsWf(db: Db, c: Id, now: int)
    requires Wf(db) && db.clock <= now && c in db.rows
    ensures Wf(db.(rows := db.rows[c := db.rows[c].(live := false)], clock := now))
  {
    hide Wf;
    var rows := db.rows[c := db.rows[c].(live := false)];
    AlikeKeepsWf(db, rows);
    LaterKeepsWf(db.(rows := rows), db.(rows := rows, clock := now));
  }

  lemma BuryKeeps(db: Db, c: Id, now: int)
    requires Wf(db) && Structure(db.rows) && db.clock <= now && c in db.rows
    ensures var d := db.(rows := db.rows[c := db.rows[c].(live := false)], clock := now);
            Wf(d) && Structure(d.rows) && Kept(db.rows, d.rows)
  {
    hide Wf, Structure;
    BuryKeepsWf(db, c, now);
    KeptStructure(db.rows, db.rows[c := db.rows[c].(live := false)]);
  }
}
