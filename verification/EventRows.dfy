/** The events table, its unique indexes, entity tags and the change journal. */
module EventRows {
  import opened Wrappers
  import opened Civil

  type Id = nat
  type Cal = nat

  datatype DbError = NotFound | Conflict | Database

  /** A resource filename: "{id}.ics", or one the client chose. */
  datatype Name = IdName(id: Id) | Chosen(text: string)

  /** RECURRENCE-ID: a wall clock in ticks or an all-day date. */
  datatype Rid = AtWall(wall: int) | OnDate(date: int)

  /** An entity tag, injective in what the hash is taken over; Unset is the column default ''. */
  datatype Etag = Unset | Etag(cal: Cal, sequence: int, millis: int)

  datatype Moment = Instant(at: int) | AllDay(date: int)

  datatype Attendee = Attendee(email: Option<string>, user: Option<nat>, partstat: string)

  datatype Body = Body(
    start: Moment,
    end: Option<Moment>,
    allDay: bool,
    tzid: Option<string>,
    rrule: Option<string>,
    rdate: seq<string>,
    exdate: seq<string>,
    status: Option<string>,
    organizerEmail: string,
    fields: map<string, string>)

  datatype Row = Row(
    cal: Cal,
    uid: string,
    href: Option<Name>,
    master: Option<Id>,
    rid: Option<Rid>,
    body: Body,
    organizerUser: Option<nat>,
    floating: bool,
    attendees: seq<Attendee>,
    alarms: seq<string>,
    origin: Option<Id>,
    sequence: int,
    etag: Etag,
    live: bool,
    updatedAt: int)

  type Rows = map<Id, Row>

  datatype Operation = Created | Updated | Deleted

  datatype Entry = Entry(cal: Cal, id: Id, op: Operation)

  /** The part of the database events live in; clock is the time of the last commit. */
  datatype Db = Db(rows: Rows, log: seq<Entry>, ctag: map<Cal, nat>, clock: int)

  function ResourceName(id: Id, row: Row): Name { row.href.GetOr(IdName(id)) }

  function EtagOf(row: Row): Etag { Etag(row.cal, row.sequence, row.updatedAt) }

  /** The timestamp RECURRENCE-ID is indexed under; None is the index's -infinity. */
  function RidKey(rid: Option<Rid>): Option<int> {
    match rid
    case None => None
    case Some(AtWall(wall)) => Some(wall)
    case Some(OnDate(date)) => Some(date * DAY)
  }

  // ----- the unique indexes, which cover deleted rows too -----

  predicate SameUidKey(a: Row, b: Row) { a.cal == b.cal && a.uid == b.uid && RidKey(a.rid) == RidKey(b.rid) }

  predicate SameNameKey(i: Id, a: Row, j: Id, b: Row) { a.cal == b.cal && ResourceName(i, a) == ResourceName(j, b) }

  /** Writing row under id violates neither unique index. */
  predicate Fits(rows: Rows, id: Id, row: Row) {
    forall j | j in rows && j != id :: !SameUidKey(rows[j], row) && !SameNameKey(j, rows[j], id, row)
  }

  predicate Unique(rows: Rows) { forall i | i in rows :: Fits(rows, i, rows[i]) }

  /** What an INSERT of this row needs: a free id, both indexes, an existing
    * calendar and master, and an override without RRULE. */
  function InsertError(db: Db, id: Id, row: Row): Option<DbError> {
    if id in db.rows || !Fits(db.rows, id, row) then Some(Conflict)
    else if row.cal !in db.ctag || (row.master.Some? && row.master.value !in db.rows) then Some(Database)
    else if row.master.Some? && row.body.rrule.Some? then Some(Database)
    else None
  }

  // ----- the change journal -----

  /** record_change: one log entry, one CTag step. */
  function Recorded(db: Db, cal: Cal, id: Id, op: Operation): Db {
    db.(log := db.log + [Entry(cal, id, op)],
        ctag := if cal in db.ctag then db.ctag[cal := db.ctag[cal] + 1] else db.ctag)
  }

  /** A row whose update time, and so whose etag, is refreshed. */
  function Touched(row: Row, now: int): Row {
    var t := row.(updatedAt := now);
    t.(etag := EtagOf(t))
  }

  /** append_change: an override's change refreshes its master and is logged as the master's. */
  function Appended(db: Db, cal: Cal, id: Id, op: Operation, now: int): Db {
    if id in db.rows && db.rows[id].master.Some? && db.rows[id].master.value in db.rows then
      var m := db.rows[id].master.value;
      Recorded(db.(rows := db.rows[m := Touched(db.rows[m], now)]), cal, m, Updated)
    else Recorded(db, cal, id, op)
  }

  predicate OverrideOf(row: Row, m: Id) { row.master == Some(m) }
}
