/** When a dispatch commits: exactly if, in every local attendee's collection, the place
  * of each delivered row is free or taken by that row's own live copy. */
module SchedulingCommits {
  import opened Wrappers
  import opened EventRows
  import opened EventEffects
  import opened Scheduling
  import opened SchedulingCopies
  import opened SchedulingDispatch

  /** The rows a dispatch of m delivers: m and its live overrides. */
  predicate InSeries(rows: Rows, m: Id, r: Id) { r == m || r in LiveOverrides(rows, m) }

  /** x occupies, in cal, the index key a copy of r needs. */
  predicate HoldsKey(rows: Rows, r: Id, cal: Cal, x: Id) {
    && r in rows && x in rows && rows[x].cal == cal && rows[x].uid == rows[r].uid
    && RidKey(rows[x].rid) == RidKey(rows[r].rid)
  }

  /** In cal the place of r's copy is free, or taken by that copy. */
  predicate Open(rows: Rows, r: Id, cal: Cal) {
    forall x | x in rows && HoldsKey(rows, r, cal, x) :: IsLiveCopy(rows, r, cal, x)
  }

  /** Every local attendee's collection is open to m and its live overrides. */
  ghost predicate Unobstructed(rows: Rows, dir: Directory, m: Id, organizer: string, atts: seq<Attendee>) {
    forall a, r | a in atts && RecipientOf(dir, a, organizer).Local? && InSeries(rows, m, r) ::
      Open(rows, r, RecipientOf(dir, a, organizer).cal)
  }

  /** The live overrides carry the UID of m. */
  predicate OneSeriesUid(rows: Rows, m: Id)
    requires m in rows
  {
    forall o | o in LiveOverrides(rows, m) :: o in rows && rows[o].uid == rows[m].uid
  }

  /** Every user's default collection exists. */
  predicate HomesExist(dir: Directory, db: Db) { forall u | u in dir.home :: dir.home[u] in db.ctag }

  // ----- what delivery does to keys -----

  predicate SeriesCopy(rows: Rows, m: Id, row: Row) {
    row.origin.Some? && row.origin.value in rows && InSeries(rows, m, row.origin.value)
  }

  /** x has the UID it had, or is a live copy that took its series row's. */
  predicate KeyTraced(rows: Rows, m: Id, x: Id, row: Row) {
    || (x in rows && row.uid == rows[x].uid)
    || (row.live && SeriesCopy(rows, m, row) && row.uid == rows[row.origin.value].uid)
  }

  /** Every key of rows' is accounted for, and the live copies of the series stay live. */
  predicate Traced(rows: Rows, rows': Rows, m: Id) {
    && (forall x | x in rows' :: KeyTraced(rows, m, x, rows'[x]))
    && (forall x | x in rows && rows[x].live && SeriesCopy(rows, m, rows[x]) :: x in rows' && rows'[x].live)
  }

  /** How far a dispatch of m, begun at rows, has come at d. */
  predicate Underway(rows: Rows, d: Db, m: Id, now: int) {
    && Wf(d) && Structure(d.rows) && d.clock == now
    && Kept(rows, d.rows) && OriginsKept(rows, d.rows) && Traced(rows, d.rows, m)
  }

  /** What is known where a dispatch begins. */
  predicate Ready(db: Db, m: Id, now: int) {
    Wf(db) && Structure(db.rows) && db.clock == now && IsSubject(db.rows, m) && db.rows[m].live
  }

  lemma Begun(db: Db, m: Id, now: int)
    requires Ready(db, m, now)
    ensures Underway(db.rows, db, m, now)
  {
    hide Wf, Structure, LiveOverrides;
  }

  lemma SeriesRow(db: Db, m: Id, now: int, r: Id)
    requires Ready(db, m, now) && InSeries(db.rows, m, r)
    ensures IsSubject(db.rows, r) && db.rows[r].live && db.rows[r].cal == db.rows[m].cal
    ensures r != m ==> OverrideOf(db.rows[r], m)
  {
    hide Structure, LiveOverrides, Unique;
    OverridesAreOrigins(db, m);
    if r != m {
      assert RowOk(db, r);
    }
  }

  /** Two rows of a series never share a key. */
  lemma SeriesKeysDiffer(db: Db, m: Id, now: int, r: Id, q: Id)
    requires Ready(db, m, now) && InSeries(db.rows, m, r) && InSeries(db.rows, m, q)
    requires db.rows[r].uid == db.rows[q].uid && RidKey(db.rows[r].rid) == RidKey(db.rows[q].rid)
    ensures r == q
  {
    hide Structure, LiveOverrides, InSeries;
    SeriesRow(db, m, now, r);
    SeriesRow(db, m, now, q);
    assert Fits(db.rows, r, db.rows[r]);
  }

  lemma SubjectUnderway(db: Db, d: Db, m: Id, now: int, r: Id)
    requires Ready(db, m, now) && Underway(db.rows, d, m, now) && InSeries(db.rows, m, r)
    ensures r in d.rows && IsSubject(db.rows, r) && d.rows[r] == db.rows[r] && db.rows[r].live
  {
    hide Wf, Structure, InSeries, Traced;
    SeriesRow(db, m, now, r);
  }

  // ----- an open place fits -----

  /** Whoever holds r's key in cal while the dispatch is under way is r's live copy there. */
  lemma HolderIsCopy(db: Db, d: Db, m: Id, now: int, r: Id, cal: Cal, x: Id)
    requires Ready(db, m, now) && Underway(db.rows, d, m, now) && InSeries(db.rows, m, r) && Open(db.rows, r, cal)
    requires HoldsKey(d.rows, r, cal, x)
    ensures IsLiveCopy(d.rows, r, cal, x)
  {
    hide Wf, Structure, InSeries, Ready;
    assert Ready(db, m, now);
    SubjectUnderway(db, d, m, now, r);
    assert KeyTraced(db.rows, m, x, d.rows[x]);
    if x in db.rows && d.rows[x].uid == db.rows[x].uid {
      assert SameIdentity(db.rows[x], d.rows[x]);
      assert HoldsKey(db.rows, r, cal, x);
      assert SeriesCopy(db.rows, m, db.rows[x]);
    } else {
      var q := d.rows[x].origin.value;
      SubjectUnderway(db, d, m, now, q);
      SameRid(d.rows, q, x);
      SeriesKeysDiffer(db, m, now, r, q);
    }
  }

  /** The row an upsert writes for r in cal, at id c. */
  predicate CopyRow(rows: Rows, r: Id, cal: Cal, c: Id, row: Row)
    requires r in rows
  {
    && row.cal == cal && row.uid == rows[r].uid && row.rid == rows[r].rid
    && (if c in rows then IsLiveCopy(rows, r, cal, c) && row.href == rows[c].href
        else row.href == None && (forall x | x in rows :: !IsLiveCopy(rows, r, cal, x))
             && forall i | i in rows :: rows[i].href != Some(IdName(c)))
  }

  lemma OpenFits(db: Db, d: Db, m: Id, now: int, r: Id, cal: Cal, c: Id, row: Row)
    requires Ready(db, m, now) && Underway(db.rows, d, m, now) && InSeries(db.rows, m, r) && Open(db.rows, r, cal)
    requires r in d.rows && CopyRow(d.rows, r, cal, c, row)
    ensures Fits(d.rows, c, row)
  {
    hide Wf, InSeries, Ready, Traced, Open, Kept, OriginsKept;
    forall j | j in d.rows && j != c ensures !SameUidKey(d.rows[j], row) && !SameNameKey(j, d.rows[j], c, row) {
      if SameUidKey(d.rows[j], row) {
        HolderIsCopy(db, d, m, now, r, cal, j);
      }
      NameFree(d, c, row, j);
    }
  }

  lemma NameFree(d: Db, c: Id, row: Row, j: Id)
    requires Wf(d) && j in d.rows && j != c
    requires if c in d.rows then row.href == d.rows[c].href && row.cal == d.rows[c].cal
             else row.href == None && d.rows[j].href != Some(IdName(c))
    ensures !SameNameKey(j, d.rows[j], c, row)
  {
    if c in d.rows {
      assert Fits(d.rows, c, d.rows[c]);
    }
  }

  /** The write keeps every key accounted for. */
  lemma WriteTraced(rows: Rows, rows': Rows, m: Id, r: Id, c: Id, row: Row)
    requires Traced(rows, rows', m) && InSeries(rows, m, r) && r in rows
    requires row.live && row.origin == Some(r) && row.uid == rows[r].uid
    ensures Traced(rows, rows'[c := row], m)
  {
    hide InSeries;
  }

  /** Into an open place every upsert of the dispatch commits. */
  lemma UpsertCommits(db: Db, d: Db, m: Id, now: int, r: Id, cal: Cal, master: Option<Id>)
    requires Ready(db, m, now) && Underway(db.rows, d, m, now) && InSeries(db.rows, m, r) && Open(db.rows, r, cal)
    requires Deliverable(d.rows, r, cal, master) && cal in d.ctag
    requires master.Some? ==> d.rows[r].body.rrule == None
    ensures UpsertCopy(d, r, cal, master, now).Ok?
  {
    hide Wf, InSeries, Ready, Structure, Traced, Open, Kept, OriginsKept, Fits, Recopied, NewCopy;
    SubjectUnderway(db, d, m, now, r);
    match LiveCopy(d.rows, r, cal)
    case Some(c) =>
      SameRid(d.rows, r, c);
      RecopiedPlace(d.rows[c], d.rows[r], now);
      OpenFits(db, d, m, now, r, cal, c, Recopied(d.rows[c], d.rows[r], now));
    case None =>
      var c := FreshId(d.rows);
      NewCopyPlace(d.rows[r], r, cal, master, now);
      OpenFits(db, d, m, now, r, cal, c, NewCopy(d.rows[r], r, cal, master, now));
  }

  lemma RecopiedPlace(copy: Row, o: Row, now: int)
    ensures var row := Recopied(copy, o, now);
            row.cal == copy.cal && row.uid == o.uid && row.rid == copy.rid && row.href == copy.href
  {
  }

  lemma NewCopyPlace(o: Row, oid: Id, cal: Cal, master: Option<Id>, now: int)
    ensures var row := NewCopy(o, oid, cal, master, now);
            && row.cal == cal && row.uid == o.uid && row.rid == o.rid && row.href == None && row.master == master
            && row.body == o.body
  {
  }

  /** An upsert of a series row keeps the dispatch under way. */
  lemma UpsertUnderway(db: Db, d: Db, m: Id, now: int, r: Id, cal: Cal, master: Option<Id>)
    requires Ready(db, m, now) && Underway(db.rows, d, m, now) && InSeries(db.rows, m, r)
    requires Deliverable(d.rows, r, cal, master) && UpsertCopy(d, r, cal, master, now).Ok?
    ensures var (e, copy) := UpsertCopy(d, r, cal, master, now).value;
            && Underway(db.rows, e, m, now) && e.ctag.Keys == d.ctag.Keys
            && copy.Some? && IsLiveCopy(e.rows, r, cal, copy.value)
            && (copy.value in d.rows ==> e.rows[copy.value].master == d.rows[copy.value].master)
            && (copy.value !in d.rows ==> e.rows[copy.value].master == master)
  {
    hide Wf, InSeries, Ready, Structure, Traced, Kept, OriginsKept, Fits, Recopied, NewCopy, UpsertCopy, InsertError;
    SubjectUnderway(db, d, m, now, r);
    UpsertKeeps(d, r, cal, master, now);
    var (e, copy) := UpsertCopy(d, r, cal, master, now).value;
    KeptTransitive(db.rows, d.rows, e.rows);
    OriginsKeptTransitive(db.rows, d.rows, e.rows);
    var c := copy.value;
    WriteTraced(db.rows, d.rows, m, r, c, e.rows[c]);
    UpsertedMaster(d, r, cal, master, now);
    assert e.rows == d.rows[c := e.rows[c]];
  }

  lemma UpsertedMaster(d: Db, r: Id, cal: Cal, master: Option<Id>, now: int)
    requires r in d.rows && d.rows[r].live && UpsertCopy(d, r, cal, master, now).Ok?
    ensures var (e, copy) := UpsertCopy(d, r, cal, master, now).value;
            && copy.Some?
            && e.rows[copy.value].master == if copy.value in d.rows then d.rows[copy.value].master else master
  {
    hide Fits, InsertError;
  }

  // ----- one rebuild -----

  lemma NoRule(db: Db, r: Id)
    requires Wf(db) && r in db.rows && db.rows[r].master.Some?
    ensures db.rows[r].body.rrule == None
  {
    assert RowOk(db, r);
  }

  predicate OverridesOfSeries(rows: Rows, m: Id, os: seq<Id>) { forall o | o in os :: o != m && InSeries(rows, m, o) }

  lemma {:induction false} UpsertAllUnderway(db: Db, d: Db, m: Id, now: int, os: seq<Id>, cal: Cal, mc: Id)
    requires Ready(db, m, now) && Underway(db.rows, d, m, now) && MasterCopy(d.rows, m, cal, mc)
    requires OverridesOfSeries(db.rows, m, os) && UpsertAll(d, os, cal, mc, now).Ok?
    ensures var e := UpsertAll(d, os, cal, mc, now).value;
            Underway(db.rows, e, m, now) && MasterCopy(e.rows, m, cal, mc) && e.ctag.Keys == d.ctag.Keys
    decreases |os|
  {
    hide Ready, Underway, InSeries, UpsertCopy, LiveOverrides;
    if os != [] {
      var n := |os| - 1;
      assert forall o | o in os[..n] :: o in os;
      UpsertAllUnderway(db, d, m, now, os[..n], cal, mc);
      var e := UpsertAll(d, os[..n], cal, mc, now).value;
      assert os[n] in os;
      OverrideDeliverable(db, e, m, now, os[n], cal, mc);
      UpsertUnderway(db, e, m, now, os[n], cal, Some(mc));
      MasterCopyStays(db, e, m, now, os[n], cal, mc);
    }
  }

  lemma {:induction false} UpsertAllCommits(db: Db, d: Db, m: Id, now: int, os: seq<Id>, cal: Cal, mc: Id)
    requires Ready(db, m, now) && Underway(db.rows, d, m, now) && MasterCopy(d.rows, m, cal, mc)
    requires cal in d.ctag && OverridesOfSeries(db.rows, m, os) && forall o | o in os :: Open(db.rows, o, cal)
    ensures UpsertAll(d, os, cal, mc, now).Ok?
    decreases |os|
  {
    hide Ready, Underway, InSeries, Open, UpsertCopy, LiveOverrides;
    if os != [] {
      var n := |os| - 1;
      assert forall o | o in os[..n] :: o in os;
      UpsertAllCommits(db, d, m, now, os[..n], cal, mc);
      UpsertAllUnderway(db, d, m, now, os[..n], cal, mc);
      var e := UpsertAll(d, os[..n], cal, mc, now).value;
      assert os[n] in os;
      OverrideDeliverable(db, e, m, now, os[n], cal, mc);
      UpsertCommits(db, e, m, now, os[n], cal, Some(mc));
    }
  }

  lemma OverrideDeliverable(db: Db, d: Db, m: Id, now: int, o: Id, cal: Cal, mc: Id)
    requires Ready(db, m, now) && Underway(db.rows, d, m, now) && MasterCopy(d.rows, m, cal, mc)
    requires o != m && InSeries(db.rows, m, o)
    ensures Deliverable(d.rows, o, cal, Some(mc)) && d.rows[o].body.rrule == None
  {
    hide Wf, Structure, Traced, LiveOverrides, Kept;
    SeriesRow(db, m, now, o);
    SubjectUnderway(db, d, m, now, o);
    NoRule(d, o);
  }

  lemma MasterCopyStays(db: Db, d: Db, m: Id, now: int, o: Id, cal: Cal, mc: Id)
    requires Ready(db, m, now) && Underway(db.rows, d, m, now) && MasterCopy(d.rows, m, cal, mc)
    requires Deliverable(d.rows, o, cal, Some(mc)) && UpsertCopy(d, o, cal, Some(mc), now).Ok?
    ensures MasterCopy(UpsertCopy(d, o, cal, Some(mc), now).value.0.rows, m, cal, mc)
  {
    hide Wf, Structure, Traced, UpsertCopy, OriginsKept, Ready, Deliverable;
    var e := UpsertCopy(d, o, cal, Some(mc), now).value.0;
    UpsertKeeps(d, o, cal, Some(mc), now);
    KeptRow(d.rows, e.rows, mc);
    KeptRow(d.rows, e.rows, m);
  }

  /** Dropping copies of deleted rows and replacing attendees and alarms. */
  lemma FinishUnderway(db: Db, d: Db, m: Id, now: int, cal: Cal)
    requires Ready(db, m, now) && Underway(db.rows, d, m, now) && db.rows[m].cal != cal
    ensures var d3 := DropAll(d, DeadCopies(d.rows, m));
            var e := d3.(rows := FilledParts(ClearedParts(d3.rows, m, cal), m, cal));
            Underway(db.rows, e, m, now) && e.ctag.Keys == d.ctag.Keys
  {
    hide Wf, Structure, DropAll, DeadCopies, FilledParts, ClearedParts, Traced, Kept, OriginsKept, InSeries,
      LiveOrigin, Parts, DeadKept;
    MasterInSeries(db.rows, m);
    SubjectUnderway(db, d, m, now, m);
    DropDelivers(d, m, cal);
    var d3 := DropAll(d, DeadCopies(d.rows, m));
    OriginAfter(d, d3, m, cal, m);
    PartsDeliver(d3, m, cal);
    var e := d3.(rows := FilledParts(ClearedParts(d3.rows, m, cal), m, cal));
    KeptTransitive(db.rows, d.rows, d3.rows);
    KeptTransitive(db.rows, d3.rows, e.rows);
    OriginsKeptTransitive(db.rows, d.rows, d3.rows);
    OriginsKeptTransitive(db.rows, d3.rows, e.rows);
    DropTraced(db, d, d3, m, now);
    PartsTraced(db.rows, d3.rows, e.rows, m, cal);
  }

  lemma MasterInSeries(rows: Rows, m: Id)
    ensures InSeries(rows, m, m)
  {
  }

  lemma DropTraced(db: Db, d: Db, e: Db, m: Id, now: int)
    requires Ready(db, m, now) && Underway(db.rows, d, m, now) && e == DropAll(d, DeadCopies(d.rows, m))
    ensures Traced(db.rows, e.rows, m)
  {
    hide Structure, InSeries, Ready, Wf, DropAll, OriginsKept, DeadCopies;
    DropAllKeeps(d, DeadCopies(d.rows, m));
    forall x | x in d.rows && SeriesCopy(db.rows, m, d.rows[x]) ensures e.rows[x] == d.rows[x] {
      SubjectUnderway(db, d, m, now, d.rows[x].origin.value);
      NotDead(d.rows, m, x);
    }
    forall x | x in e.rows ensures KeyTraced(db.rows, m, x, e.rows[x]) {
      assert KeyTraced(db.rows, m, x, d.rows[x]);
    }
    forall x | x in db.rows && db.rows[x].live && SeriesCopy(db.rows, m, db.rows[x])
      ensures x in e.rows && e.rows[x].live
    {
      assert SameIdentity(db.rows[x], d.rows[x]);
    }
  }

  lemma NotDead(rows: Rows, m: Id, x: Id)
    requires x in rows && rows[x].origin.Some? && rows[x].origin.value in rows && rows[rows[x].origin.value].live
    ensures x !in DeadCopies(rows, m)
  {
  }

  lemma PartsTraced(rows: Rows, d: Rows, e: Rows, m: Id, cal: Cal)
    requires Traced(rows, d, m) && PartsReplaced(d, e, m, cal)
    ensures Traced(rows, e, m)
  {
    hide InSeries;
    forall x | x in e ensures KeyTraced(rows, m, x, e[x]) {
      assert KeyTraced(rows, m, x, d[x]);
    }
  }

  /** A rebuild that commits keeps the dispatch under way. */
  lemma RebuildUnderway(db: Db, d: Db, m: Id, now: int, cal: Cal)
    requires Ready(db, m, now) && Underway(db.rows, d, m, now) && RebuildCopy(d, m, cal, now).Ok?
    ensures var e := RebuildCopy(d, m, cal, now).value; Underway(db.rows, e, m, now) && e.ctag.Keys == d.ctag.Keys
  {
    hide Ready, Underway, UpsertCopy, UpsertAll, LiveOverrides, DropAll, FilledParts, ClearedParts, DeadCopies;
    SubjectUnderway(db, d, m, now, m);
    UpsertUnderway(db, d, m, now, m, cal, None);
    UpsertedElsewhere(db, d, m, now, cal);
    var (d1, copy) := UpsertCopy(d, m, cal, None, now).value;
    SeriesUnderway(db, d1, m, now);
    var os := LiveOverrides(d1.rows, m);
    if os == [] {
      NothingUpserted(d1, cal, copy.value, now);
    } else {
      RebuiltMasterCopy(db, d1, m, now, cal, copy.value);
      UpsertAllUnderway(db, d1, m, now, os, cal, copy.value);
    }
    FinishUnderway(db, UpsertAll(d1, os, cal, copy.value, now).value, m, now, cal);
  }

  lemma UpsertedElsewhere(db: Db, d: Db, m: Id, now: int, cal: Cal)
    requires Ready(db, m, now) && Underway(db.rows, d, m, now) && UpsertCopy(d, m, cal, None, now).Ok?
    ensures db.rows[m].cal != cal
  {
    hide Wf, Structure, UpsertCopy, Traced, Kept, OriginsKept, Mirrors;
    MasterInSeries(db.rows, m);
    SubjectUnderway(db, d, m, now, m);
    UpsertKeeps(d, m, cal, None, now);
  }

  /** A rebuild into an open collection commits. */
  lemma RebuildCommits(db: Db, d: Db, m: Id, now: int, cal: Cal)
    requires Ready(db, m, now) && Underway(db.rows, d, m, now) && cal in d.ctag
    requires forall r | InSeries(db.rows, m, r) :: Open(db.rows, r, cal)
    ensures RebuildCopy(d, m, cal, now).Ok?
  {
    hide Ready, Underway, Open, UpsertCopy, UpsertAll, LiveOverrides, DropAll, FilledParts, ClearedParts, DeadCopies;
    SubjectUnderway(db, d, m, now, m);
    UpsertCommits(db, d, m, now, m, cal, None);
    UpsertUnderway(db, d, m, now, m, cal, None);
    var (d1, copy) := UpsertCopy(d, m, cal, None, now).value;
    SeriesUnderway(db, d1, m, now);
    var os := LiveOverrides(d1.rows, m);
    if os == [] {
      NothingUpserted(d1, cal, copy.value, now);
    } else {
      RebuiltMasterCopy(db, d1, m, now, cal, copy.value);
      UpsertAllCommits(db, d1, m, now, os, cal, copy.value);
    }
  }

  lemma SeriesUnderway(db: Db, d: Db, m: Id, now: int)
    requires Ready(db, m, now) && Underway(db.rows, d, m, now)
    ensures LiveOverrides(d.rows, m) == LiveOverrides(db.rows, m)
    ensures forall o | o in LiveOverrides(db.rows, m) :: o != m && InSeries(db.rows, m, o)
    ensures LiveOverrides(db.rows, m) != [] ==> db.rows[m].master == None
  {
    hide Wf, Structure, LiveOverrides, Traced, Kept, OriginsKept;
    SameOverrides(db.rows, d.rows, m);
    OverridesAreOrigins(db, m);
  }

  lemma RebuiltMasterCopy(db: Db, d: Db, m: Id, now: int, cal: Cal, mc: Id)
    requires Ready(db, m, now) && Underway(db.rows, d, m, now) && IsLiveCopy(d.rows, m, cal, mc)
    requires db.rows[m].master == None
    ensures MasterCopy(d.rows, m, cal, mc)
  {
    hide Wf, Structure, Traced, Kept;
    MasterInSeries(db.rows, m);
    SubjectUnderway(db, d, m, now, m);
    CopyOfMaster(d.rows, m, mc);
  }

  // ----- a whole delivery -----

  lemma {:induction false} DeliveryUnderway(db: Db, dir: Directory, m: Id, organizer: string, atts: seq<Attendee>,
      now: int)
    requires Ready(db, m, now) && Delivered(db, dir, m, organizer, atts, now).Ok?
    ensures var d := Delivered(db, dir, m, organizer, atts, now).value;
            Underway(db.rows, d, m, now) && d.ctag.Keys == db.ctag.Keys
    decreases |atts|
  {
    hide Ready, Underway, RebuildCopy, RecipientOf;
    if atts == [] {
      Begun(db, m, now);
    } else {
      var n := |atts| - 1;
      DeliveryUnderway(db, dir, m, organizer, atts[..n], now);
      var r := RecipientOf(dir, atts[n], organizer);
      if r.Local? {
        RebuildUnderway(db, Delivered(db, dir, m, organizer, atts[..n], now).value, m, now, r.cal);
      }
    }
  }

  lemma {:induction false} DeliveryCommits(db: Db, dir: Directory, m: Id, organizer: string, atts: seq<Attendee>,
      now: int)
    requires Ready(db, m, now) && HomesExist(dir, db) && Unobstructed(db.rows, dir, m, organizer, atts)
    ensures Delivered(db, dir, m, organizer, atts, now).Ok?
    decreases |atts|
  {
    hide Ready, Underway, Open, RebuildCopy, InSeries;
    if atts != [] {
      var n := |atts| - 1;
      assert forall a | a in atts[..n] :: a in atts;
      DeliveryCommits(db, dir, m, organizer, atts[..n], now);
      DeliveryUnderway(db, dir, m, organizer, atts[..n], now);
      var r := RecipientOf(dir, atts[n], organizer);
      if r.Local? {
        assert atts[n] in atts;
        RebuildCommits(db, Delivered(db, dir, m, organizer, atts[..n], now).value, m, now, r.cal);
      }
    }
  }

  // ----- what a committed delivery shows -----

  /** A row that keeps its key whatever is delivered. */
  predicate Unwritten(rows: Rows, x: Id) { x in rows && (rows[x].origin == None || !rows[x].live) }

  /** Where r ended up delivered, nothing else held its key. */
  lemma DeliveredWasOpen(db: Db, d: Db, m: Id, now: int, r: Id, cal: Cal, x: Id)
    requires Ready(db, m, now) && Underway(db.rows, d, m, now) && InSeries(db.rows, m, r) && HasMirror(d.rows, r, cal)
    requires HoldsKey(db.rows, r, cal, x) && (OneSeriesUid(db.rows, m) || Unwritten(db.rows, x))
    ensures IsLiveCopy(db.rows, r, cal, x)
  {
    hide Wf, Structure, LiveOverrides, Ready, OriginsKept;
    SubjectUnderway(db, d, m, now, r);
    var y :| IsLiveCopy(d.rows, r, cal, y) && Mirrors(d.rows[y], d.rows[r]);
    SameRid(d.rows, r, y);
    assert SameIdentity(db.rows[x], d.rows[x]);
    assert KeyTraced(db.rows, m, x, d.rows[x]);
    assert SameUidKey(d.rows[x], d.rows[y]);
    KeyIsUnique(d, x, y);
  }

  lemma KeyIsUnique(d: Db, x: Id, y: Id)
    requires Wf(d) && x in d.rows && y in d.rows && SameUidKey(d.rows[x], d.rows[y])
    ensures x == y
  {
    assert Fits(d.rows, y, d.rows[y]);
  }

  /** A dispatch of a series with one UID commits exactly if no local attendee's collection
    * holds the key of m or of a live override in a row other than that row's own live copy. */
  lemma DispatchCommitsExactly(s: Sched, dir: Directory, m: Id, actor: User, now: int)
    requires Wf(s.db) && Structure(s.db.rows) && s.db.clock <= now && HomesExist(dir, s.db)
    requires m in s.db.rows ==> OneSeriesUid(s.db.rows, m)
    ensures Dispatch(s, dir, m, actor, now).Ok?
       <==> (&& IsSubject(s.db.rows, m) && s.db.rows[m].live
             && (IsOrganizer(dir, s.db.rows[m], actor) ==>
                   Unobstructed(s.db.rows, dir, m, s.db.rows[m].body.organizerEmail, s.db.rows[m].attendees)))
  {
    hide Wf, Structure, Delivered, RecipientOf, IsOrganizer, Open, LiveOverrides, OneSeriesUid, InSeries, Strays,
      CancelAll;
    if IsSubject(s.db.rows, m) && s.db.rows[m].live && IsOrganizer(dir, s.db.rows[m], actor) {
      var db := s.db.(clock := now);
      LaterKeepsWf(s.db, db);
      var (organizer, atts) := (s.db.rows[m].body.organizerEmail, s.db.rows[m].attendees);
      if Unobstructed(db.rows, dir, m, organizer, atts) {
        DeliveryCommits(db, dir, m, organizer, atts, now);
      }
      if Delivered(db, dir, m, organizer, atts, now).Ok? {
        DeliveryWasUnobstructed(db, dir, m, organizer, atts, now);
      }
    }
  }

  lemma DeliveryWasUnobstructed(db: Db, dir: Directory, m: Id, organizer: string, atts: seq<Attendee>, now: int)
    requires Ready(db, m, now) && Delivered(db, dir, m, organizer, atts, now).Ok? && OneSeriesUid(db.rows, m)
    ensures Unobstructed(db.rows, dir, m, organizer, atts)
  {
    hide Wf, Structure, Delivered, RecipientOf, LiveOverrides, OneSeriesUid, Progress, SeriesMirrored, Underway,
      HoldsKey, HasMirror;
    DeliveredKeeps(db, dir, m, organizer, atts, now);
    DeliveryUnderway(db, dir, m, organizer, atts, now);
    var d := Delivered(db, dir, m, organizer, atts, now).value;
    forall a, r | a in atts && RecipientOf(dir, a, organizer).Local? && InSeries(db.rows, m, r)
      ensures Open(db.rows, r, RecipientOf(dir, a, organizer).cal)
    {
      var cal := RecipientOf(dir, a, organizer).cal;
      SeriesHasMirror(d.rows, m, LiveOverrides(db.rows, m), cal, r);
      forall x | x in db.rows && HoldsKey(db.rows, r, cal, x) ensures IsLiveCopy(db.rows, r, cal, x) {
        DeliveredWasOpen(db, d, m, now, r, cal, x);
      }
    }
  }

  lemma SeriesHasMirror(rows: Rows, m: Id, overrides: seq<Id>, cal: Cal, r: Id)
    requires SeriesMirrored(rows, m, overrides, cal) && (r == m || r in overrides)
    ensures HasMirror(rows, r, cal)
  {
    if r == m {
      var c :| FullMirror(rows, m, cal, c);
    }
  }

  /** Whatever the UIDs, a deleted copy or an organizer's own row with such a key rolls every
    * dispatch back. */
  lemma BlockedDispatch(s: Sched, dir: Directory, m: Id, actor: User, now: int, a: Attendee, r: Id, x: Id)
    requires Wf(s.db) && Structure(s.db.rows) && s.db.clock <= now
    requires IsSubject(s.db.rows, m) && s.db.rows[m].live && IsOrganizer(dir, s.db.rows[m], actor)
    requires a in s.db.rows[m].attendees && RecipientOf(dir, a, s.db.rows[m].body.organizerEmail).Local?
    requires InSeries(s.db.rows, m, r) && Unwritten(s.db.rows, x)
    requires HoldsKey(s.db.rows, r, RecipientOf(dir, a, s.db.rows[m].body.organizerEmail).cal, x)
    ensures Dispatch(s, dir, m, actor, now) == Err(Database)
  {
    hide Wf, Structure, Delivered, RecipientOf, Progress, SeriesMirrored, LiveOverrides, IsOrganizer, Underway,
      HoldsKey, HasMirror, OneSeriesUid;
    var db := s.db.(clock := now);
    var organizer := s.db.rows[m].body.organizerEmail;
    var atts := s.db.rows[m].attendees;
    LaterKeepsWf(s.db, db);
    if Delivered(db, dir, m, organizer, atts, now).Ok? {
      DeliveredKeeps(db, dir, m, organizer, atts, now);
      DeliveryUnderway(db, dir, m, organizer, atts, now);
      var d := Delivered(db, dir, m, organizer, atts, now).value;
      var cal := RecipientOf(dir, a, organizer).cal;
      SeriesHasMirror(d.rows, m, LiveOverrides(db.rows, m), cal, r);
      DeliveredWasOpen(db, d, m, now, r, cal, x);
    } else {
      DeliveryErrs(db, dir, m, organizer, atts, now);
    }
  }

  lemma {:induction false} DeliveryErrs(db: Db, dir: Directory, m: Id, organizer: string, atts: seq<Attendee>, now: int)
    requires Delivered(db, dir, m, organizer, atts, now).Err?
    ensures Delivered(db, dir, m, organizer, atts, now) == Err(Database)
    decreases |atts|
  {
    hide RecipientOf, RebuildCopy;
    if Delivered(db, dir, m, organizer, atts[..|atts| - 1], now).Err? {
      DeliveryErrs(db, dir, m, organizer, atts[..|atts| - 1], now);
    } else {
      RebuildErrs(Delivered(db, dir, m, organizer, atts[..|atts| - 1], now).value, m,
                  RecipientOf(dir, atts[|atts| - 1], organizer).cal, now);
    }
  }

  lemma RebuildErrs(db: Db, m: Id, cal: Cal, now: int)
    ensures RebuildCopy(db, m, cal, now).Err? ==> RebuildCopy(db, m, cal, now) == Err(Database)
  {
    hide UpsertCopy, DropAll, FilledParts, LiveOverrides;
    UpsertErrs(db, m, cal, None, now);
    var u := UpsertCopy(db, m, cal, None, now);
    if u.Ok? && u.value.1.Some? {
      UpsertAllErrs(u.value.0, LiveOverrides(u.value.0.rows, m), cal, u.value.1.value, now);
    }
  }

  lemma UpsertErrs(db: Db, o: Id, cal: Cal, master: Option<Id>, now: int)
    ensures UpsertCopy(db, o, cal, master, now).Err? ==> UpsertCopy(db, o, cal, master, now) == Err(Database)
  {
  }

  lemma {:induction false} UpsertAllErrs(db: Db, os: seq<Id>, cal: Cal, mc: Id, now: int)
    ensures UpsertAll(db, os, cal, mc, now).Err? ==> UpsertAll(db, os, cal, mc, now) == Err(Database)
    decreases |os|
  {
    hide UpsertCopy;
    if os != [] {
      UpsertAllErrs(db, os[..|os| - 1], cal, mc, now);
      var u := UpsertAll(db, os[..|os| - 1], cal, mc, now);
      if u.Ok? {
        UpsertErrs(u.value, os[|os| - 1], cal, Some(mc), now);
      }
    }
  }
}
