/** Scheduling of events: dispatch, cancel, reply and decline over origin rows,
  * delivered copies and the outbound message log. */
module Scheduling {
  import opened Wrappers
  import opened EventRows
  import opened EventSpec

  type User = nat

  /** Users, their addresses, the collections they own and each user's default one. */
  datatype Directory = Directory(
    userOf: map<string, User>, emailOf: map<User, string>, home: map<User, Cal>, owners: map<Cal, set<User>>)

  datatype Method = Request | Cancel

  datatype Message = Message(subject: Id, email: string, verb: Method, sequence: int)

  datatype Sched = Sched(db: Db, messages: seq<Message>)

  function Lookup(dir: Directory, email: string): Option<User> {
    if email in dir.userOf then Some(dir.userOf[email]) else None
  }

  // ----- recipients -----

  /** How an attendee is reached: not at all, by a copy, or by mail. */
  datatype Recipient = Skipped | Local(user: User, cal: Cal) | External(email: string)

  function UserOf(dir: Directory, a: Attendee): Option<User>
    requires a.email.Some?
  {
    if a.user.Some? then a.user else Lookup(dir, a.email.value)
  }

  function RecipientOf(dir: Directory, a: Attendee, organizer: string): Recipient {
    if a.email == None || a.email.value == organizer then Skipped
    else
      var user := UserOf(dir, a);
      if user.Some? && user.value in dir.home then Local(user.value, dir.home[user.value]) else External(a.email.value)
  }

  function CurrentEmails(atts: seq<Attendee>, organizer: string): set<string> {
    set a | a in atts && a.email.Some? && a.email.value != organizer :: a.email.value
  }

  function InternalUsers(dir: Directory, atts: seq<Attendee>, organizer: string): set<User> {
    set a | a in atts && RecipientOf(dir, a, organizer).Local? :: RecipientOf(dir, a, organizer).user
  }

  predicate IsOrganizer(dir: Directory, row: Row, actor: User) {
    row.organizerUser == Some(actor) || (actor in dir.emailOf && dir.emailOf[actor] == row.body.organizerEmail)
  }

  // ----- the message log -----

  predicate Sent(msgs: seq<Message>, m: Id, email: string, verb: Method) {
    exists k | 0 <= k < |msgs| :: msgs[k].subject == m && msgs[k].email == email && msgs[k].verb == verb
  }

  /** No REQUEST at this sequence or a later one went to the address. */
  predicate RequestNeeded(msgs: seq<Message>, m: Id, email: string, sequence: int) {
    forall k | 0 <= k < |msgs| ::
      msgs[k].subject == m && msgs[k].email == email && msgs[k].verb == Request ==> msgs[k].sequence < sequence
  }

  /** INSERT ... ON CONFLICT DO NOTHING. */
  function Queued(msgs: seq<Message>, msg: Message): seq<Message> { if msg in msgs then msgs else msgs + [msg] }

  function Asked(msgs: seq<Message>, m: Id, email: string, sequence: int): seq<Message> {
    if RequestNeeded(msgs, m, email, sequence) then Queued(msgs, Message(m, email, Request, sequence)) else msgs
  }

  /** The REQUESTs of one dispatch, attendee by attendee. */
  function Requested(msgs: seq<Message>, dir: Directory, m: Id, row: Row, atts: seq<Attendee>): seq<Message> {
    if atts == [] then msgs
    else
      var before := Requested(msgs, dir, m, row, atts[..|atts| - 1]);
      var r := RecipientOf(dir, atts[|atts| - 1], row.body.organizerEmail);
      if r.External? then Asked(before, m, r.email, row.sequence) else before
  }

  /** Every address a REQUEST for m went to, once. */
  function PastAddresses(msgs: seq<Message>, m: Id): seq<string> {
    if msgs == [] then []
    else
      var before := PastAddresses(msgs[..|msgs| - 1], m);
      var msg := msgs[|msgs| - 1];
      if msg.subject == m && msg.verb == Request && msg.email !in before then before + [msg.email] else before
  }

  function Dismissed(msgs: seq<Message>, dir: Directory, m: Id, sequence: int, current: set<string>, email: string)
    : seq<Message>
  {
    if email in current || email in dir.userOf || Sent(msgs, m, email, Cancel) then msgs
    else Queued(msgs, Message(m, email, Cancel, sequence))
  }

  /** The CANCELs to addresses no longer invited. */
  function Withdrawn(msgs: seq<Message>, dir: Directory, m: Id, sequence: int, current: set<string>,
      emails: seq<string>)
    : seq<Message>
  {
    if emails == [] then msgs
    else
      var before := Withdrawn(msgs, dir, m, sequence, current, emails[..|emails| - 1]);
      Dismissed(before, dir, m, sequence, current, emails[|emails| - 1])
  }

  /** The log after a dispatch of m. */
  function Outbox(msgs: seq<Message>, dir: Directory, m: Id, row: Row): seq<Message> {
    var asked := Requested(msgs, dir, m, row, row.attendees);
    var current := CurrentEmails(row.attendees, row.body.organizerEmail);
    Withdrawn(asked, dir, m, row.sequence, current, PastAddresses(asked, m))
  }

  // ----- delivered copies -----

  lemma HasMax(s: set<Id>)
    requires s != {}
    ensures exists x :: x in s && forall y | y in s :: y <= x
  {
    var x :| x in s;
    if s - {x} != {} {
      HasMax(s - {x});
      var z :| z in s - {x} && forall y | y in s - {x} :: y <= z;
      assert forall y | y in s :: y == x || y in s - {x};
      var top := if z < x then x else z;
      assert top in s && forall y | y in s :: y <= top;
    } else {
      assert s == {x};
      assert x in s && forall y | y in s :: y <= x;
    }
  }

  /** The ids of rows and the ids that a stored name spells. */
  function UsedIds(rows: Rows): set<Id> {
    rows.Keys + set i | i in rows && rows[i].href.Some? && rows[i].href.value.IdName? :: rows[i].href.value.id
  }

  /** A minted row id: no row has it and no name spells it. */
  function FreshId(rows: Rows): (id: Id)
    ensures id !in rows && forall i | i in rows :: rows[i].href != Some(IdName(id))
  {
    var used := UsedIds(rows);
    if used == {} then 0
    else
      HasMax(used);
      var x :| x in used && forall y | y in used :: y <= x;
      assert forall y | y in used :: y != x + 1;
      x + 1
  }

  /** The elements of a set in some fixed order. */
  function Listed(s: set<Id>): (r: seq<Id>)
    ensures forall x :: x in r <==> x in s
    ensures forall i, j | 0 <= i < j < |r| :: r[i] != r[j]
  {
    if s == {} then []
    else
      HasMax(s);
      var x :| x in s && forall y | y in s :: y <= x;
      Listed(s - {x}) + [x]
  }

  predicate IsLiveCopy(rows: Rows, o: Id, cal: Cal, c: Id) {
    c in rows && rows[c].live && rows[c].origin == Some(o) && rows[c].cal == cal
  }

  /** SELECT ... LIMIT 1. */
  function LiveCopy(rows: Rows, o: Id, cal: Cal): (r: Option<Id>)
    ensures r.Some? ==> IsLiveCopy(rows, o, cal, r.value)
    ensures r == None ==> forall c :: !IsLiveCopy(rows, o, cal, c)
  {
    var cs := Listed(set c | c in rows && IsLiveCopy(rows, o, cal, c));
    assert forall c :: IsLiveCopy(rows, o, cal, c) <==> c in cs;
    if cs == [] then None else (assert cs[0] in cs; Some(cs[0]))
  }

  /** update_copy_from_origin, with the etag written after it. */
  function Recopied(copy: Row, o: Row, now: int): Row {
    Touched(copy.(uid := o.uid, body := o.body, organizerUser := o.organizerUser, sequence := o.sequence), now)
  }

  /** insert_copy, with the etag written after it. */
  function NewCopy(o: Row, oid: Id, cal: Cal, master: Option<Id>, now: int): Row {
    Touched(Row(cal, o.uid, None, master, o.rid, o.body, o.organizerUser, false, [], [], Some(oid),
                o.sequence, Unset, true, now), now)
  }

  /** upsert_copy: the copy's id, or None when the origin is gone. */
  function UpsertCopy(db: Db, o: Id, cal: Cal, master: Option<Id>, now: int): (r: Result<(Db, Option<Id>), DbError>)
    ensures r.Ok? && r.value.1.Some? ==> r.value.1.value in r.value.0.rows
  {
    match LiveCopy(db.rows, o, cal)
    case Some(c) =>
      if o !in db.rows || !db.rows[o].live then Ok((db, Some(c)))
      else
        var row := Recopied(db.rows[c], db.rows[o], now);
        if !Fits(db.rows, c, row) then Err(Database)
        else Ok((Recorded(db.(rows := db.rows[c := row]), row.cal, c, Updated), Some(c)))
    case None =>
      if o !in db.rows || !db.rows[o].live then Ok((db, None))
      else
        var c := FreshId(db.rows);
        var row := NewCopy(db.rows[o], o, cal, master, now);
        if InsertError(db, c, row).Some? then Err(Database)
        else Ok((Recorded(db.(rows := db.rows[c := row]), cal, c, Created), Some(c)))
  }

  function OverrideSet(rows: Rows, m: Id): set<Id> { set i | i in rows && rows[i].live && OverrideOf(rows[i], m) }

  function LiveOverrides(rows: Rows, m: Id): seq<Id> { Listed(OverrideSet(rows, m)) }

  function UpsertAll(db: Db, os: seq<Id>, cal: Cal, mc: Id, now: int): Result<Db, DbError> {
    if os == [] then Ok(db)
    else
      match UpsertAll(db, os[..|os| - 1], cal, mc, now)
      case Err(e) => Err(e)
      case Ok(d) =>
        match UpsertCopy(d, os[|os| - 1], cal, Some(mc), now)
        case Err(e) => Err(e)
        case Ok((d2, _)) => Ok(d2)
  }

  /** Live copies whose origin, m or an override of it, is deleted. */
  function DeadCopies(rows: Rows, m: Id): seq<Id> {
    Listed(set c | c in rows && rows[c].live && rows[c].origin.Some? && rows[c].origin.value in rows
              && !rows[rows[c].origin.value].live
              && (rows[c].origin.value == m || OverrideOf(rows[rows[c].origin.value], m)))
  }

  function DropAll(db: Db, cs: seq<Id>): Db {
    if cs == [] then db
    else
      var d := DropAll(db, cs[..|cs| - 1]);
      var c := cs[|cs| - 1];
      if c !in d.rows then d
      else Recorded(d.(rows := d.rows[c := d.rows[c].(live := false)]), d.rows[c].cal, c, Deleted)
  }

  /** The rows whose attendees and alarms a rebuild replaces. */
  predicate Replaceable(rows: Rows, m: Id, cal: Cal, c: Id)
    requires c in rows
  {
    rows[c].cal == cal && (rows[c].origin == Some(m) || OverrideOf(rows[c], m))
  }

  function ClearedParts(rows: Rows, m: Id, cal: Cal): Rows {
    map c | c in rows :: if Replaceable(rows, m, cal, c) then rows[c].(attendees := [], alarms := []) else rows[c]
  }

  function FilledParts(rows: Rows, m: Id, cal: Cal): Rows {
    map c | c in rows ::
      if Replaceable(rows, m, cal, c) && rows[c].origin.Some? && rows[c].origin.value in rows
      then var o := rows[rows[c].origin.value];
           rows[c].(attendees := rows[c].attendees + o.attendees, alarms := rows[c].alarms + o.alarms)
      else rows[c]
  }

  function RebuildCopy(db: Db, m: Id, cal: Cal, now: int): Result<Db, DbError> {
    match UpsertCopy(db, m, cal, None, now)
    case Err(e) => Err(e)
    case Ok((d, None)) => Ok(d)
    case Ok((d, Some(mc))) =>
      match UpsertAll(d, LiveOverrides(d.rows, m), cal, mc, now)
      case Err(e) => Err(e)
      case Ok(d2) =>
        var d3 := DropAll(d2, DeadCopies(d2.rows, m));
        Ok(d3.(rows := FilledParts(ClearedParts(d3.rows, m, cal), m, cal)))
  }

  /** The copies of one dispatch, attendee by attendee. */
  function Delivered(db: Db, dir: Directory, m: Id, organizer: string, atts: seq<Attendee>, now: int): Result<Db,
      DbError> {
    if atts == [] then Ok(db)
    else
      match Delivered(db, dir, m, organizer, atts[..|atts| - 1], now)
      case Err(e) => Err(e)
      case Ok(d) =>
        var r := RecipientOf(dir, atts[|atts| - 1], organizer);
        if r.Local? then RebuildCopy(d, m, r.cal, now) else Ok(d)
  }

  /** cancel_copy_row: STATUS:CANCELLED, the sequence bumped, the row still visible. */
  function CancelledCopy(row: Row, now: int): Row {
    Touched(row.(body := row.body.(status := Some("CANCELLED")), sequence := row.sequence + 1), now)
  }

  function CancelRow(db: Db, c: Id, now: int): Db {
    if c !in db.rows || !db.rows[c].live then db
    else Recorded(db.(rows := db.rows[c := CancelledCopy(db.rows[c], now)]), db.rows[c].cal, c, Updated)
  }

  function CancelAll(db: Db, cs: seq<Id>, now: int): Db {
    if cs == [] then db else CancelRow(CancelAll(db, cs[..|cs| - 1], now), cs[|cs| - 1], now)
  }

  /** An owner of a copy's collection who is no longer invited. */
  predicate Uninvited(dir: Directory, current: set<string>, internal: set<User>, u: User) {
    u !in internal && !(u in dir.emailOf && dir.emailOf[u] in current)
  }

  function Owners(dir: Directory, cal: Cal): set<User> { if cal in dir.owners then dir.owners[cal] else {} }

  predicate IsStray(rows: Rows, dir: Directory, m: Id, current: set<string>, internal: set<User>, c: Id) {
    && c in rows && rows[c].live && rows[c].origin.Some?
    && (rows[c].origin == Some(m) || OverrideOf(rows[c], m))
    && exists u | u in Owners(dir, rows[c].cal) :: Uninvited(dir, current, internal, u)
  }

  function Strays(rows: Rows, dir: Directory, m: Id, current: set<string>, internal: set<User>): seq<Id> {
    Listed(set c | c in rows && IsStray(rows, dir, m, current, internal, c))
  }

  // ----- the four operations -----

  predicate IsSubject(rows: Rows, m: Id) { m in rows && rows[m].origin == None }

  function Dispatch(s: Sched, dir: Directory, m: Id, actor: User, now: int): Result<Sched, DbError> {
    if !IsSubject(s.db.rows, m) || !s.db.rows[m].live then Err(NotFound)
    else
      var row := s.db.rows[m];
      var organizer := row.body.organizerEmail;
      if !IsOrganizer(dir, row, actor) then Ok(s)
      else
        match Delivered(s.db.(clock := now), dir, m, organizer, row.attendees, now)
        case Err(e) => Err(e)
        case Ok(d) =>
          var current := CurrentEmails(row.attendees, organizer);
          var internal := InternalUsers(dir, row.attendees, organizer);
          Ok(Sched(CancelAll(d, Strays(d.rows, dir, m, current, internal), now), Outbox(s.messages, dir, m, row)))
  }

  /** The live rows of the series in one collection. */
  function CopiesIn(rows: Rows, m: Id, cal: Cal): seq<Id> {
    Listed(set c | c in rows && rows[c].live && rows[c].cal == cal
      && (rows[c].origin == Some(m) || OverrideOf(rows[c], m)))
  }

  function CalledOff(s: Sched, dir: Directory, m: Id, row: Row, atts: seq<Attendee>, now: int): Sched {
    if atts == [] then s
    else
      var before := CalledOff(s, dir, m, row, atts[..|atts| - 1], now);
      match RecipientOf(dir, atts[|atts| - 1], row.body.organizerEmail)
      case Skipped => before
      case Local(_, cal) => before.(db := CancelAll(before.db, CopiesIn(before.db.rows, m, cal), now))
      case External(email) => before.(messages := Queued(before.messages, Message(m, email, Cancel, row.sequence)))
  }

  function CancelDispatch(s: Sched, dir: Directory, m: Id, actor: User, now: int): Result<Sched, DbError> {
    if !IsSubject(s.db.rows, m) then Err(NotFound)
    else if !IsOrganizer(dir, s.db.rows[m], actor) then Ok(s)
    else Ok(CalledOff(s.(db := s.db.(clock := now)), dir, m, s.db.rows[m], s.db.rows[m].attendees, now))
  }

  const PARTSTATS := {"NEEDS-ACTION", "ACCEPTED", "DECLINED", "TENTATIVE", "DELEGATED", "COMPLETED", "IN-PROCESS"}

  function Answered(atts: seq<Attendee>, email: string, partstat: string): (r: seq<Attendee>)
    ensures |r| == |atts|
    ensures forall i | 0 <= i < |r| ::
              r[i] == if atts[i].email == Some(email) then atts[i].(partstat := partstat) else atts[i]
  {
    seq(|atts|, i requires 0 <= i < |atts| =>
      if atts[i].email == Some(email) then atts[i].(partstat := partstat) else atts[i])
  }

  function Reply(db: Db, m: Id, email: string, partstat: string, now: int): Result<Db, DbError> {
    if partstat !in PARTSTATS then Err(Conflict)
    else if !IsSubject(db.rows, m) || !db.rows[m].live then Err(NotFound)
    else
      var touched := db.rows[m].master.GetOr(m);
      if touched !in db.rows then Err(Database)
      else
        var rows := db.rows[touched := Touched(db.rows[touched], now)];
        Ok(Recorded(db.(rows := rows[m := rows[m].(attendees := Answered(rows[m].attendees, email, partstat))],
                        clock := now),
                    db.rows[m].cal, touched, Updated))
  }

  /** The attendee row of a user: by link or by address. */
  predicate Identity(dir: Directory, a: Attendee, u: User) {
    a.email.Some? && (a.user == Some(u) || (u in dir.emailOf && dir.emailOf[u] == a.email.value))
  }

  function EmailFor(dir: Directory, atts: seq<Attendee>, u: User): Option<string> {
    if atts == [] || u !in dir.emailOf then None
    else if Identity(dir, atts[0], u) then atts[0].email
    else EmailFor(dir, atts[1..], u)
  }

  /** decline_copy: the reply commits on its own and its failure is ignored. */
  function Decline(db: Db, dir: Directory, c: Id, actor: User, now: int): Result<Db, DbError> {
    if c !in db.rows || !db.rows[c].live || db.rows[c].origin == None then Ok(db)
    else if actor !in Owners(dir, db.rows[c].cal) then Err(NotFound)
    else
      var o := db.rows[c].origin.value;
      var email := if o in db.rows then EmailFor(dir, db.rows[o].attendees, actor) else None;
      var replied := if email == None then Ok(db) else Reply(db, o, email.value, "DECLINED", now);
      var d := if replied.Ok? then replied.value else db;
      Ok(if c in d.rows then d.(rows := d.rows[c := d.rows[c].(live := false)], clock := now) else d)
  }
}
