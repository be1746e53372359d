/** What each event mutation does to the database, as one transaction. */
module EventSpec {
  import opened Wrappers
  import opened EventRows

  /** NewEventData: a master, or an override when master is set. */
  datatype NewEvent = NewEvent(
    master: Option<Id>, rid: Option<Rid>, uid: string, body: Body, organizerUser: Option<nat>, attendees: seq<Attendee>)

  function NewRow(cal: Cal, data: NewEvent, now: int): Row {
    Row(cal, data.uid, None, data.master, data.rid, data.body, data.organizerUser, false,
        data.attendees, [], None, 0, Unset, true, now)
  }

  /** create_event: the row with its etag, journalled. */
  function CreateTx(db: Db, cal: Cal, id: Id, data: NewEvent, now: int): Result<Db, DbError> {
    var row := NewRow(cal, data, now);
    match InsertError(db, id, row)
    case Some(e) => Err(e)
    case None =>
      var rows := db.rows[id := row.(etag := EtagOf(row))];
      Ok(Appended(db.(rows := rows, clock := now), cal, id, Created, now))
  }

  datatype Patch = Patch(
    startsAt: Option<int>, startDate: Option<int>, endsAt: Option<int>, endDate: Option<int>,
    allDay: Option<bool>, tzid: Option<string>, status: Option<string>,
    fields: map<string, string>, attendees: Option<seq<Attendee>>)

  /** Timed and all-day columns exclude each other; a date in the patch wins. */
  function PatchedBody(b: Body, p: Patch): Body {
    b.(start := if p.startDate.Some? then AllDay(p.startDate.value)
                else if p.startsAt.Some? then Instant(p.startsAt.value) else b.start,
       end := if p.endDate.Some? then Some(AllDay(p.endDate.value))
              else if p.endsAt.Some? then Some(Instant(p.endsAt.value)) else b.end,
       allDay := p.allDay.GetOr(b.allDay),
       tzid := if p.tzid.Some? then p.tzid else b.tzid,
       status := if p.status.Some? then p.status else b.status,
       fields := b.fields + p.fields)
  }

  function PatchedRow(row: Row, p: Patch, now: int): Row {
    Touched(row.(body := PatchedBody(row.body, p), attendees := p.attendees.GetOr(row.attendees),
                 sequence := row.sequence + 1), now)
  }

  predicate Accepts(row: Row, ifMatch: Option<Etag>) { ifMatch.Some? ==> ifMatch.value == row.etag }

  function UpdateTx(db: Db, id: Id, ifMatch: Option<Etag>, p: Patch, now: int): Result<Db, DbError> {
    if id !in db.rows || !db.rows[id].live then Err(NotFound)
    else if !Accepts(db.rows[id], ifMatch) then Err(Conflict)
    else
      var row := PatchedRow(db.rows[id], p, now);
      Ok(Appended(db.(rows := db.rows[id := row], clock := now), row.cal, id, Updated, now))
  }

  function DeleteTx(db: Db, id: Id, ifMatch: Option<Etag>, now: int): Result<Db, DbError> {
    if id !in db.rows || !db.rows[id].live then Err(NotFound)
    else if !Accepts(db.rows[id], ifMatch) then Err(Conflict)
    else
      var row := db.rows[id].(live := false);
      Ok(Appended(db.(rows := db.rows[id := row], clock := now), row.cal, id, Deleted, now))
  }

  /** get_event: the row and the etag derived from it. */
  function Get(db: Db, id: Id): Result<(Row, Etag), DbError> {
    if id in db.rows && db.rows[id].live then Ok((db.rows[id], EtagOf(db.rows[id]))) else Err(NotFound)
  }

  // ----- split_event -----

  datatype SeriesSplit = SeriesSplit(
    wall: Option<int>, wallDate: Option<int>,
    rrule: Option<string>, rdate: seq<string>, exdate: seq<string>,
    continuation: Option<NewEvent>)
  {
    predicate At(rid: Option<Rid>) {
      match rid
      case Some(AtWall(w)) => wall == Some(w)
      case Some(OnDate(d)) => wallDate == Some(d)
      case None => false
    }

    predicate After(rid: Option<Rid>) {
      match rid
      case Some(AtWall(w)) => wall.Some? && wall.value < w
      case Some(OnDate(d)) => wallDate.Some? && wallDate.value < d
      case None => false
    }
  }

  function TruncatedMaster(row: Row, s: SeriesSplit, now: int): Row {
    Touched(row.(body := row.body.(rrule := s.rrule, rdate := s.rdate, exdate := s.exdate),
                 sequence := row.sequence + 1), now)
  }

  /** The live overrides of m that p selects are soft-deleted. */
  function Buried(rows: Rows, m: Id, p: Option<Rid> -> bool): Rows {
    map i | i in rows ::
      if OverrideOf(rows[i], m) && rows[i].live && p(rows[i].rid) then rows[i].(live := false) else rows[i]
  }

  /** The live overrides of m after the wall move to c and take its UID. */
  function Reparented(rows: Rows, m: Id, s: SeriesSplit, c: Id, uid: string, now: int): Rows {
    map i | i in rows ::
      if OverrideOf(rows[i], m) && rows[i].live && s.After(rows[i].rid)
      then rows[i].(master := Some(c), uid := uid, updatedAt := now) else rows[i]
  }

  function Bumped(row: Row, now: int): Row { Touched(row.(sequence := row.sequence + 1), now) }

  /** The database once the master is truncated and the override at the wall is gone. */
  function SplitMaster(db: Db, m: Id, s: SeriesSplit, now: int): Db
    requires m in db.rows
  {
    var rows := db.rows[m := TruncatedMaster(db.rows[m], s, now)];
    var d := Appended(db.(rows := rows, clock := now), rows[m].cal, m, Updated, now);
    d.(rows := Buried(d.rows, m, rid => s.At(rid)))
  }

  function SplitTx(db: Db, m: Id, s: SeriesSplit, c: Id, now: int): Result<Db, DbError> {
    if m !in db.rows || !db.rows[m].live then Err(NotFound)
    else if db.rows[m].body.rrule == None then Err(Conflict)
    else
      var d := SplitMaster(db, m, s, now);
      match s.continuation
      case None => Ok(d.(rows := Buried(d.rows, m, rid => s.At(rid) || s.After(rid))))
      case Some(data) =>
        match CreateTx(d, db.rows[m].cal, c, data, now)
        case Err(e) => Err(e)
        case Ok(d2) =>
          var rows := Reparented(d2.rows, m, s, c, data.uid, now);
          if !Unique(rows) then Err(Database)
          else Ok(d2.(rows := rows[c := Bumped(rows[c], now)]))
  }

  // ----- put_series -----

  datatype PutData = PutData(
    uid: string, rid: Option<Rid>, body: Body, organizerUser: Option<nat>, floating: bool,
    attendees: seq<Attendee>, alarms: seq<string>, sequence: Option<int>)

  datatype Precondition = NoCondition | MatchEtag(etag: Etag) | NotExists

  /** A put's target: which row it replaces, whether that row is brought back, or a new row. */
  datatype Target = Replace(id: Id) | Revive(id: Id) | Fresh

  predicate PlainMaster(row: Row) { row.master == None && row.rid == None }

  predicate ServedAt(rows: Rows, cal: Cal, href: Name, i: Id) {
    i in rows && rows[i].live && PlainMaster(rows[i]) && rows[i].cal == cal && ResourceName(i, rows[i]) == href
  }

  predicate HasUid(rows: Rows, cal: Cal, uid: string, i: Id) {
    i in rows && PlainMaster(rows[i]) && rows[i].cal == cal && rows[i].uid == uid
  }

  ghost function AtHref(rows: Rows, cal: Cal, href: Name): (r: Option<Id>)
    ensures r.Some? ==> ServedAt(rows, cal, href, r.value)
    ensures r == None ==> forall i :: !ServedAt(rows, cal, href, i)
  {
    if exists i :: ServedAt(rows, cal, href, i) then
      var i :| ServedAt(rows, cal, href, i); Some(i)
    else None
  }

  ghost function ByUid(rows: Rows, cal: Cal, uid: string): (r: Option<Id>)
    ensures r.Some? ==> HasUid(rows, cal, uid, r.value)
    ensures r == None ==> forall i :: !HasUid(rows, cal, uid, i)
  {
    if exists i :: HasUid(rows, cal, uid, i) then
      var i :| HasUid(rows, cal, uid, i); Some(i)
    else None
  }

  predicate MeetsPrecondition(rows: Rows, at: Option<Id>, pre: Precondition)
    requires at.Some? ==> at.value in rows
  {
    match pre
    case NoCondition => true
    case NotExists => at == None
    case MatchEtag(e) => at.Some? && rows[at.value].etag == e
  }

  ghost function PutTarget(rows: Rows, cal: Cal, href: Name, uid: string, pre: Precondition)
    : (r: Result<Target, DbError>)
    ensures r.Ok? && !r.value.Fresh? ==> r.value.id in rows && PlainMaster(rows[r.value.id])
  {
    var at := AtHref(rows, cal, href);
    var same := ByUid(rows, cal, uid);
    if !MeetsPrecondition(rows, at, pre) then Err(Conflict)
    else if at.Some? then Ok(Replace(at.value))
    else if same == None then Ok(Fresh)
    else if rows[same.value].live then Err(Conflict)
    else Ok(Revive(same.value))
  }

  function Max(a: int, b: int): int { if a < b then b else a }

  /** update_master: the whole content replaced, the sequence raised past both counters. */
  function ReplacedMaster(row: Row, href: Option<Name>, data: PutData, now: int): Row {
    row.(uid := data.uid, body := data.body, floating := data.floating, attendees := data.attendees,
         alarms := data.alarms, sequence := Max(data.sequence.GetOr(0), row.sequence) + 1,
         href := if href.Some? then href else row.href, live := true, updatedAt := now)
  }

  /** insert_row: a stray RRULE on an override is dropped. */
  function PutRow(cal: Cal, href: Option<Name>, master: Option<Id>, data: PutData, now: int): Row {
    Row(cal, data.uid, href, master, data.rid,
        if master.Some? then data.body.(rrule := None) else data.body,
        data.organizerUser, data.floating, data.attendees, data.alarms, None, 0, Unset, true, now)
  }

  /** A canonical "{uuid}.ics" keeps its uuid as row id unless that id is taken. */
  function PutId(rows: Rows, href: Name, minted: Id): Id {
    if href.IdName? && href.id !in rows then href.id else minted
  }

  function PutHref(rows: Rows, href: Name): Option<Name> {
    if href.IdName? && href.id !in rows then None else Some(href)
  }

  function WriteMaster(db: Db, cal: Cal, href: Name, target: Target, data: PutData, minted: Id, now: int)
    : (r: Result<(Rows, Id), DbError>)
    requires !target.Fresh? ==> target.id in db.rows && PlainMaster(db.rows[target.id])
    ensures r.Ok? ==> r.value.1 in r.value.0 && r.value.0[r.value.1].master == None
  {
    match target
    case Fresh =>
      var id := PutId(db.rows, href, minted);
      var row := PutRow(cal, PutHref(db.rows, href), None, data, now);
      (match InsertError(db, id, row)
       case Some(e) => Err(e)
       case None => Ok((db.rows[id := row], id)))
    case Replace(id) =>
      var row := ReplacedMaster(db.rows[id], None, data, now);
      if Fits(db.rows, id, row) then Ok((db.rows[id := row], id)) else Err(Conflict)
    case Revive(id) =>
      var row := ReplacedMaster(db.rows[id], Some(href), data, now);
      if Fits(db.rows, id, row) then Ok((db.rows[id := row], id)) else Err(Conflict)
  }

  /** Hard-deleting m's overrides clears the origin of anything delivered from them. */
  function WithoutOverrides(rows: Rows, m: Id): Rows {
    map i | i in rows && !OverrideOf(rows[i], m) ::
      if rows[i].origin.Some? && rows[i].origin.value in rows && OverrideOf(rows[rows[i].origin.value], m)
      then rows[i].(origin := None) else rows[i]
  }

  /** The overrides inserted in order, or the first error. */
  function WithOverrides(db: Db, cal: Cal, m: Id, overrides: seq<PutData>, ids: seq<Id>, now: int)
    : (r: Result<Db, DbError>)
    requires |ids| == |overrides|
    ensures r.Ok? ==> db.rows.Keys <= r.value.rows.Keys
  {
    if overrides == [] then Ok(db)
    else
      var n := |overrides| - 1;
      match WithOverrides(db, cal, m, overrides[..n], ids[..n], now)
      case Err(e) => Err(e)
      case Ok(d) =>
        var row := PutRow(cal, None, Some(m), overrides[n], now);
        match InsertError(d, ids[n], row)
        case Some(e) => Err(e)
        case None => Ok(d.(rows := d.rows[ids[n] := row]))
  }

  predicate KnownZone(data: PutData, zones: set<string>) {
    data.body.tzid.Some? ==> data.body.tzid.value in zones
  }

  datatype Put = Put(
    cal: Cal, href: Name, master: PutData, overrides: seq<PutData>, zones: set<string>, pre: Precondition,
    minted: Id, ids: seq<Id>)
  {
    predicate Valid() { |ids| == |overrides| }

    predicate ZonesKnown() {
      KnownZone(master, zones) && forall i | 0 <= i < |overrides| :: KnownZone(overrides[i], zones)
    }
  }

  /** put_series: the database after it, the id of the master, and whether the resource is new to the client. */
  ghost function PutTx(db: Db, p: Put, now: int): Result<(Db, Id, bool), DbError>
    requires p.Valid()
  {
    if !p.ZonesKnown() then Err(Conflict)
    else
      match PutTarget(db.rows, p.cal, p.href, p.master.uid, p.pre)
      case Err(e) => Err(e)
      case Ok(target) =>
        match WriteMaster(db, p.cal, p.href, target, p.master, p.minted, now)
        case Err(e) => Err(e)
        case Ok((rows, m)) =>
          var d := db.(rows := WithoutOverrides(rows, m), clock := now);
          match WithOverrides(d, p.cal, m, p.overrides, p.ids, now)
          case Err(e) => Err(e)
          case Ok(d2) =>
            var row := d2.rows[m];
            var d3 := d2.(rows := d2.rows[m := row.(etag := EtagOf(row))]);
            var op := if target.Replace? then Updated else Created;
            Ok((Appended(d3, p.cal, m, op, now), m, !target.Replace?))
  }
}
