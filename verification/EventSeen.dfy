/** What is in the database after each event transaction, column by column: what a client
  * wrote, and that all else is as it was. */
module EventSeen {
  import opened Wrappers
  import opened EventRows
  import opened EventSpec
  import opened EventEffects
  import opened EventSplit
  import opened EventPut

  // ----- what a transaction leaves besides the row it is about -----

  /** One entry was added for the resource j, and its calendar's CTag is one further. */
  predicate LoggedOnce(db: Db, d: Db, cal: Cal, j: Id, op: Operation, now: int) {
    && d.log == db.log + [Entry(cal, j, op)] && d.clock == now
    && d.ctag.Keys == db.ctag.Keys
    && forall c | c in db.ctag :: d.ctag[c] == if c == cal then db.ctag[c] + 1 else db.ctag[c]
  }

  /** A master whose override was written has a new time and etag, and nothing else new. */
  predicate Refreshed(row: Row, row': Row, now: int) {
    row' == row.(updatedAt := now, etag := Etag(row.cal, row.sequence, now))
  }

  /** Of the other rows only the master of the written one, if it has one, is refreshed. */
  predicate OthersAsBefore(rows: Rows, rows': Rows, id: Id, master: Option<Id>, now: int) {
    && rows'.Keys == rows.Keys + {id}
    && forall i | i in rows && i != id ::
         if master == Some(i) then Refreshed(rows[i], rows'[i], now) else rows'[i] == rows[i]
  }

  // ----- create -----

  /** The new row holds what was asked for, and nothing a creation has no part for. */
  predicate HoldsNew(row: Row, cal: Cal, data: NewEvent, now: int) {
    && row.cal == cal && row.uid == data.uid && row.master == data.master && row.rid == data.rid
    && row.body == data.body && row.organizerUser == data.organizerUser && row.attendees == data.attendees
    && row.href == None && row.origin == None && row.alarms == [] && !row.floating && row.live
    && row.updatedAt == now
  }

  lemma CreateSeen(db: Db, cal: Cal, id: Id, data: NewEvent, now: int)
    requires Wf(db) && GoodMaster(db, cal, data) && CreateTx(db, cal, id, data, now).Ok?
    ensures var d := CreateTx(db, cal, id, data, now).value;
            && id !in db.rows && id in d.rows && HoldsNew(d.rows[id], cal, data, now) && d.rows[id].sequence == 0
            && Get(d, id) == Ok((d.rows[id], Etag(cal, 0, now))) && d.rows[id].etag == Etag(cal, 0, now)
            && OthersAsBefore(db.rows, d.rows, id, data.master, now)
            && LoggedOnce(db, d, cal, if data.master.Some? then data.master.value else id,
                          if data.master.Some? then Updated else Created, now)
  {
    hide Unique, Fits, RowOk;
  }

  // ----- update -----

  /** Each part given is stored, a date winning over an instant, and each part not given stays. */
  predicate BodyTook(b: Body, b': Body, p: Patch) {
    && (p.startDate.Some? ==> b'.start == AllDay(p.startDate.value))
    && (p.startDate == None && p.startsAt.Some? ==> b'.start == Instant(p.startsAt.value))
    && (p.startDate == None && p.startsAt == None ==> b'.start == b.start)
    && (p.endDate.Some? ==> b'.end == Some(AllDay(p.endDate.value)))
    && (p.endDate == None && p.endsAt.Some? ==> b'.end == Some(Instant(p.endsAt.value)))
    && (p.endDate == None && p.endsAt == None ==> b'.end == b.end)
    && b'.allDay == (match p.allDay case Some(x) => x case None => b.allDay)
    && b'.tzid == (match p.tzid case Some(x) => Some(x) case None => b.tzid)
    && b'.status == (match p.status case Some(x) => Some(x) case None => b.status)
    && b'.fields.Keys == b.fields.Keys + p.fields.Keys
    && (forall k | k in p.fields :: b'.fields[k] == p.fields[k])
    && (forall k | k in b.fields && k !in p.fields :: b'.fields[k] == b.fields[k])
    && b'.rrule == b.rrule && b'.rdate == b.rdate && b'.exdate == b.exdate && b'.organizerEmail == b.organizerEmail
  }

  /** The row after an update: the patch taken, one sequence step, a new time and etag. */
  predicate RowTook(row: Row, row': Row, p: Patch, now: int) {
    && BodyTook(row.body, row'.body, p)
    && row'.attendees == (match p.attendees case Some(x) => x case None => row.attendees)
    && row'.sequence == row.sequence + 1 && row'.updatedAt == now
    && row'.etag == Etag(row.cal, row.sequence + 1, now)
    && row' == row.(body := row'.body, attendees := row'.attendees, sequence := row'.sequence,
                    updatedAt := row'.updatedAt, etag := row'.etag)
  }

  lemma PatchSeen(row: Row, p: Patch, now: int)
    ensures RowTook(row, PatchedRow(row, p, now), p, now)
  {
  }

  /** A write is accepted exactly for a live row whose stored etag is the one given, if one is given. */
  predicate Writes(rows: Rows, id: Id, e: Option<Etag>) {
    id in rows && rows[id].live && (e == None || e == Some(rows[id].etag))
  }

  /** What an accepted update stores, the row aside. */
  lemma UpdatedTable(db: Db, id: Id, e: Option<Etag>, p: Patch, now: int)
    requires Wf(db)
    ensures UpdateTx(db, id, e, p, now).Ok? <==> Writes(db.rows, id, e)
    ensures UpdateTx(db, id, e, p, now).Ok? ==>
              var d := UpdateTx(db, id, e, p, now).value; var row := db.rows[id];
              && id in d.rows && d.rows[id] == PatchedRow(row, p, now)
              && OthersAsBefore(db.rows, d.rows, id, row.master, now)
              && LoggedOnce(db, d, row.cal, if row.master.Some? then row.master.value else id, Updated, now)
  {
    hide Unique, PatchedBody;
    if id in db.rows {
      assert RowOk(db, id);
    }
  }

  /** After an accepted update a get returns the row with every part of the patch in its column. */
  lemma UpdateSeen(db: Db, id: Id, e: Option<Etag>, p: Patch, now: int)
    requires Wf(db) && UpdateTx(db, id, e, p, now).Ok?
    ensures Writes(db.rows, id, e)
    ensures var d := UpdateTx(db, id, e, p, now).value; var row := db.rows[id];
            && Get(d, id).Ok? && RowTook(row, Get(d, id).value.0, p, now)
            && Get(d, id).value.1 == Etag(row.cal, row.sequence + 1, now)
            && OthersAsBefore(db.rows, d.rows, id, row.master, now)
            && LoggedOnce(db, d, row.cal, if row.master.Some? then row.master.value else id, Updated, now)
  {
    hide Wf, UpdateTx, PatchedRow, OthersAsBefore, LoggedOnce, BodyTook;
    UpdatedTable(db, id, e, p, now);
    PatchSeen(db.rows[id], p, now);
  }

  // ----- delete -----

  /** A deletion hides the row and keeps it, keys and all. */
  lemma DeleteSeen(db: Db, id: Id, e: Option<Etag>, now: int)
    requires Wf(db)
    ensures DeleteTx(db, id, e, now).Ok? <==> Writes(db.rows, id, e)
    ensures DeleteTx(db, id, e, now).Ok? ==>
              var d := DeleteTx(db, id, e, now).value; var row := db.rows[id];
              && Get(d, id) == Err(NotFound) && id in d.rows && d.rows[id] == row.(live := false)
              && OthersAsBefore(db.rows, d.rows, id, row.master, now)
              && LoggedOnce(db, d, row.cal, if row.master.Some? then row.master.value else id,
                            if row.master.Some? then Updated else Deleted, now)
  {
    hide Unique;
    if id in db.rows {
      assert RowOk(db, id);
    }
  }

  // ----- split -----

  /** Where a RECURRENCE-ID lies to the wall; one of the other form lies nowhere. */
  datatype Side = Before | OnWall | Behind | Nowhere

  function SideOf(s: SeriesSplit, rid: Option<Rid>): Side {
    match (rid, s.wall, s.wallDate)
    case (Some(AtWall(w)), Some(wall), _) => if w < wall then Before else if w == wall then OnWall else Behind
    case (Some(OnDate(d)), _, Some(date)) => if d < date then Before else if d == date then OnWall else Behind
    case _ => Nowhere
  }

  /** A live override of the split series: before the wall it stays as it is, on the wall it
    * dies, behind it it moves to the continuation and takes its UID, or dies if there is none. */
  predicate OverrideSplit(row: Row, row': Row, s: SeriesSplit, c: Id, now: int) {
    match SideOf(s, row.rid)
    case Before | Nowhere => row' == row
    case OnWall => row' == row.(live := false)
    case Behind =>
      if s.continuation == None then row' == row.(live := false)
      else row' == row.(master := Some(c), uid := s.continuation.value.uid, updatedAt := now)
  }

  /** The truncated master: the split's rule and dates in place of its own, one sequence step. */
  predicate MasterSplit(row: Row, row': Row, s: SeriesSplit, now: int) {
    && row'.body.rrule == s.rrule && row'.body.rdate == s.rdate && row'.body.exdate == s.exdate
    && row'.body == row.body.(rrule := row'.body.rrule, rdate := row'.body.rdate, exdate := row'.body.exdate)
    && row'.sequence == row.sequence + 1 && row'.updatedAt == now
    && row'.etag == Etag(row.cal, row.sequence + 1, now)
    && row' == row.(body := row'.body, sequence := row'.sequence, updatedAt := row'.updatedAt, etag := row'.etag)
  }

  lemma FateSeen(row: Row, s: SeriesSplit, c: Id, now: int)
    ensures OverrideSplit(row, Fate(row, s, c, now), s, c, now)
  {
  }

  lemma TruncatedSeen(row: Row, s: SeriesSplit, now: int)
    ensures MasterSplit(row, TruncatedMaster(row, s, now), s, now)
  {
  }

  lemma ContinuedSeen(cal: Cal, data: NewEvent, now: int)
    ensures var row := ContinuationRow(cal, data, now);
            HoldsNew(row, cal, data, now) && row.sequence == 1 && row.etag == Etag(cal, 1, now)
  {
  }

  /** The table after a split: the master truncated, each live override on its side of the wall,
    * the continuation as it was asked for, every other row untouched. */
  lemma SplitSeen(db: Db, m: Id, s: SeriesSplit, c: Id, now: int)
    requires Wf(db) && SplitTx(db, m, s, c, now).Ok?
    requires s.continuation.Some? ==> s.continuation.value.master == None
    ensures m in db.rows && db.rows[m].live && db.rows[m].body.rrule.Some?
    ensures var d := SplitTx(db, m, s, c, now).value;
            && d.rows.Keys == db.rows.Keys + (if s.continuation.Some? then {c} else {})
            && MasterSplit(db.rows[m], d.rows[m], s, now)
            && (forall i | i in db.rows && i != m ::
                  if db.rows[i].live && db.rows[i].master == Some(m)
                  then OverrideSplit(db.rows[i], d.rows[i], s, c, now) else d.rows[i] == db.rows[i])
            && (s.continuation.Some? ==>
                  && c !in db.rows && HoldsNew(d.rows[c], db.rows[m].cal, s.continuation.value, now)
                  && d.rows[c].sequence == 1 && d.rows[c].etag == Etag(db.rows[m].cal, 1, now))
  {
    hide Wf, SplitTx, Fate, TruncatedMaster, ContinuationRow, OverrideSplit, MasterSplit, HoldsNew;
    SplitCommitted(db, m, s, c, now);
    SplitPartition(db, m, s, c, now);
    TruncatedSeen(db.rows[m], s, now);
    forall i | i in db.rows ensures OverrideSplit(db.rows[i], Fate(db.rows[i], s, c, now), s, c, now) {
      FateSeen(db.rows[i], s, c, now);
    }
    if s.continuation.Some? {
      ContinuedSeen(db.rows[m].cal, s.continuation.value, now);
    }
  }

  lemma SplitCommitted(db: Db, m: Id, s: SeriesSplit, c: Id, now: int)
    requires SplitTx(db, m, s, c, now).Ok?
    ensures m in db.rows && db.rows[m].live && db.rows[m].body.rrule.Some?
  {
  }

  // ----- put -----

  /** An override as it was put: its own columns, but no rule, under the master. */
  predicate HoldsOverride(row: Row, m: Id, cal: Cal, data: PutData, now: int) {
    && row.cal == cal && row.uid == data.uid && row.rid == data.rid && row.master == Some(m)
    && row.floating == data.floating && row.organizerUser == data.organizerUser
    && row.attendees == data.attendees && row.alarms == data.alarms
    && row.body.rrule == None && row.body == data.body.(rrule := None)
    && row.href == None && row.origin == None && row.sequence == 0 && row.live && row.updatedAt == now
  }

  lemma PutRowSeen(m: Id, cal: Cal, data: PutData, now: int)
    ensures HoldsOverride(PutRow(cal, None, Some(m), data, now), m, cal, data, now)
  {
  }

  /** The resource after a committed put: the master and each override hold, column by column,
    * what was put; there are no other overrides; every row outside it is as it was. */
  lemma PutSeen(db: Db, p: Put, now: int)
    requires Wf(db) && WellFormedPut(p) && PutTx(db, p, now).Ok?
    ensures var (d, m, created) := PutTx(db, p, now).value;
            && m in d.rows && PutMaster(d.rows[m], m, p.cal, p.href, p.master, now)
            && d.rows[m].rid == None && d.rows[m].etag == Etag(p.cal, d.rows[m].sequence, now)
            && (forall k | 0 <= k < |p.ids| ::
                  p.ids[k] in d.rows && HoldsOverride(d.rows[p.ids[k]], m, p.cal, p.overrides[k], now))
            && (forall i | i in d.rows && d.rows[i].master == Some(m) :: i in p.ids)
            && (forall i | i in db.rows && i != m && db.rows[i].master != Some(m) ::
                  i in d.rows && d.rows[i] == db.rows[i].(origin := d.rows[i].origin))
            && (forall i | i in d.rows && i != m && i !in p.ids :: i in db.rows)
  {
    hide Wf, PutTx, Unique, PutMaster, PutRow, HoldsOverride;
    PutStores(db, p, now);
    var (d, m, _) := PutTx(db, p, now).value;
    PutPlace(d.rows[m], m, p, now);
    forall k | 0 <= k < |p.ids| ensures HoldsOverride(PutRow(p.cal, None, Some(m), p.overrides[k], now), m, p.cal,
                                                      p.overrides[k], now) {
      PutRowSeen(m, p.cal, p.overrides[k], now);
    }
    forall i | i in db.rows && i != m && db.rows[i].master != Some(m)
      ensures i in d.rows && d.rows[i] == db.rows[i].(origin := d.rows[i].origin)
    {
      assert Visible(d.rows[i]) == Visible(db.rows[i]);
    }
    forall i | i in d.rows && i != m && i !in p.ids ensures d.rows[i].master != Some(m) {
      assert Visible(d.rows[i]) == Visible(db.rows[i]);
    }
  }

  /** The sequence of a put master: past its own and past the client's, or 0 for a new row. */
  lemma WrittenSequence(db: Db, p: Put, target: Target, now: int)
    requires Fitting(db, p, target) && WriteMaster(db, p.cal, p.href, target, p.master, p.minted, now).Ok?
    ensures var (rows, m) := WriteMaster(db, p.cal, p.href, target, p.master, p.minted, now).value;
            && (target.Fresh? ==>
                  m !in db.rows && rows[m].sequence == 0 && rows[m].organizerUser == p.master.organizerUser)
            && (!target.Fresh? ==>
                  && m == target.id && m in db.rows && rows[m].organizerUser == db.rows[m].organizerUser
                  && db.rows[m].sequence < rows[m].sequence
                  && (p.master.sequence.Some? ==> p.master.sequence.value < rows[m].sequence)
                  && (rows[m].sequence == db.rows[m].sequence + 1 || rows[m].sequence == 1
                      || p.master.sequence == Some(rows[m].sequence - 1)))
  {
    hide Fits;
  }

  /** Which row a put goes to: the one served at its name; else a deleted one with its UID, which
    * comes back; else a new one. The client is told of a new resource in the last two cases. */
  lemma PutGoesTo(db: Db, p: Put, now: int)
    requires Wf(db) && WellFormedPut(p) && PutTx(db, p, now).Ok?
    ensures var (d, m, created) := PutTx(db, p, now).value;
            && m in d.rows
            && (!created <==> ServedAt(db.rows, p.cal, p.href, m))
            && (created <==> forall i :: !ServedAt(db.rows, p.cal, p.href, i))
            && (created && m in db.rows ==> HasUid(db.rows, p.cal, p.master.uid, m) && !db.rows[m].live)
            && (m !in db.rows ==>
                  && d.rows[m].sequence == 0 && d.rows[m].organizerUser == p.master.organizerUser
                  && forall i :: !HasUid(db.rows, p.cal, p.master.uid, i))
            && (m in db.rows ==>
                  && d.rows[m].organizerUser == db.rows[m].organizerUser && db.rows[m].sequence < d.rows[m].sequence
                  && (p.master.sequence.Some? ==> p.master.sequence.value < d.rows[m].sequence)
                  && (d.rows[m].sequence == db.rows[m].sequence + 1 || d.rows[m].sequence == 1
                      || p.master.sequence == Some(d.rows[m].sequence - 1)))
            && LoggedOnce(db, d, p.cal, m, if created then Created else Updated, now)
  {
    hide Unique, RowOk, WithOverrides, WithoutOverrides, WriteMaster, PutMaster, Fits, Inserted, OthersStay;
    TargetFits(db, p);
    var target := PutTarget(db.rows, p.cal, p.href, p.master.uid, p.pre).value;
    MasterWritten(db, p, target, now);
    WrittenSequence(db, p, target, now);
    var (rows, m) := WriteMaster(db, p.cal, p.href, target, p.master, p.minted, now).value;
    ClearedRows(rows, m);
    var d0 := db.(rows := WithoutOverrides(rows, m), clock := now);
    OverridesInserted(d0, p.cal, m, p.overrides, p.ids, now);
    var d2 := WithOverrides(d0, p.cal, m, p.overrides, p.ids, now).value;
    KeptByInsertion(d0, d2, p, m, now);
  }

  lemma PutPlace(row: Row, m: Id, p: Put, now: int)
    requires PutMaster(row, m, p.cal, p.href, p.master, now)
    ensures row.cal == p.cal && row.updatedAt == now && row.master == None
  {
  }
}
