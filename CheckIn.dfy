/** The check-in desk of `CheckInController`: `checkin` records that an
    attendee arrived and `undo` takes it back. The database is abstracted
    to the three tables the two handlers read and write: attendees by id,
    the check-in rows in insertion order, and the event settings by event
    id. */
module CheckIn {
  import opened Wrappers

  type Uuid = string

  datatype Status = Registered | CheckedIn | Cancelled | NoShow

  /** The attendee columns the two handlers read or write. */
  datatype Attendee = Attendee(
    eventId: Uuid,
    status: Status,
    checkedInAt: Option<int>,
    checkedInBy: Option<Uuid>,
    updatedAt: int)

  datatype Method = Qr | Manual | Kiosk

  datatype CheckInRow = CheckInRow(
    attendeeId: Uuid,
    eventId: Uuid,
    via: Method,
    checkedInAt: int,
    checkedInBy: Uuid,
    createdAt: int)

  datatype Settings = Settings(allowDuplicateCheckin: bool)

  /** The three tables. */
  datatype Db = Db(
    attendees: map<Uuid, Attendee>,
    checkIns: seq<CheckInRow>,
    settings: map<Uuid, Settings>)

  /** How a request ends: success, the login redirect, or one of the
      rejections (each answered without touching the tables). */
  datatype Outcome = Success | LoginRequired | NotFound | AlreadyCheckedIn | DuplicateNotAllowed | NotCheckedIn

  datatype Step = Step(outcome: Outcome, db: Db)

  // ---------------------------------------------------------------- queries

  /** The attendee lookup both handlers make: the id must exist AND belong
      to the event in the URL. */
  predicate Found(db: Db, eventId: Uuid, attendeeId: Uuid) {
    attendeeId in db.attendees && db.attendees[attendeeId].eventId == eventId
  }

  /** How many check-in rows name the attendee. */
  function CountRows(rows: seq<CheckInRow>, attendeeId: Uuid): nat
    decreases |rows|
  {
    if rows == [] then 0
    else CountRows(rows[..|rows| - 1], attendeeId) + (if rows[|rows| - 1].attendeeId == attendeeId then 1 else 0)
  }

  /** Whether some check-in row names the attendee (in any event). */
  function HasRow(rows: seq<CheckInRow>, attendeeId: Uuid): (has: bool)
    ensures has <==> exists k :: 0 <= k < |rows| && rows[k].attendeeId == attendeeId
    decreases |rows|
  {
    if rows == [] then false
    else rows[|rows| - 1].attendeeId == attendeeId || HasRow(rows[..|rows| - 1], attendeeId)
  }

  /** The rows left once every row of the attendee is deleted, in their
      original order: no more rows than before, and exactly the other
      attendees' rows. */
  function RowsWithout(rows: seq<CheckInRow>, attendeeId: Uuid): (kept: seq<CheckInRow>)
    ensures |kept| <= |rows|
    ensures forall r :: r in kept <==> r in rows && r.attendeeId != attendeeId
    decreases |rows|
  {
    if rows == [] then []
    else
      var last := rows[|rows| - 1];
      RowsWithout(rows[..|rows| - 1], attendeeId) + (if last.attendeeId == attendeeId then [] else [last])
  }

  /** The event has a settings row that forbids a second check-in. */
  predicate StrictDuplicates(db: Db, eventId: Uuid) {
    eventId in db.settings && !db.settings[eventId].allowDuplicateCheckin
  }

  // ---------------------------------------------------------------- operations

  /** `checkin`: the guards in the handler's order, then one new `qr` row
      and the attendee marked checked in by the user at `now`. */
  function AfterCheckin(db: Db, user: Option<Uuid>, eventId: Uuid, attendeeId: Uuid, now: int): (r: Step)
    ensures r.outcome != Success ==> r.db == db
    ensures r.outcome == LoginRequired <==> user.None?
    ensures r.outcome == NotFound <==> user.Some? && !Found(db, eventId, attendeeId)
    ensures r.outcome == AlreadyCheckedIn <==>
      user.Some? && Found(db, eventId, attendeeId) && db.attendees[attendeeId].status == CheckedIn
    ensures r.outcome == DuplicateNotAllowed <==>
      user.Some? && Found(db, eventId, attendeeId) && db.attendees[attendeeId].status != CheckedIn &&
      StrictDuplicates(db, eventId) && HasRow(db.checkIns, attendeeId)
  {
    if user.None? then Step(LoginRequired, db)
    else if !Found(db, eventId, attendeeId) then Step(NotFound, db)
    else if db.attendees[attendeeId].status == CheckedIn then Step(AlreadyCheckedIn, db)
    else if StrictDuplicates(db, eventId) && HasRow(db.checkIns, attendeeId) then Step(DuplicateNotAllowed, db)
    else
      var row := CheckInRow(attendeeId, eventId, Qr, now, user.value, now);
      var a := db.attendees[attendeeId];
      var a' := a.(status := CheckedIn, checkedInAt := Some(now), checkedInBy := user, updatedAt := now);
      Step(Success, db.(checkIns := db.checkIns + [row], attendees := db.attendees[attendeeId := a']))
  }

  /** `undo`: the guards, then every row of the attendee deleted and the
      attendee back to registered with the check-in columns cleared. */
  function AfterUndo(db: Db, user: Option<Uuid>, eventId: Uuid, attendeeId: Uuid, now: int): (r: Step)
    ensures r.outcome != Success ==> r.db == db
    ensures r.outcome == LoginRequired <==> user.None?
    ensures r.outcome == NotFound <==> user.Some? && !Found(db, eventId, attendeeId)
    ensures r.outcome == NotCheckedIn <==>
      user.Some? && Found(db, eventId, attendeeId) && db.attendees[attendeeId].status != CheckedIn
  {
    if user.None? then Step(LoginRequired, db)
    else if !Found(db, eventId, attendeeId) then Step(NotFound, db)
    else if db.attendees[attendeeId].status != CheckedIn then Step(NotCheckedIn, db)
    else
      var a := db.attendees[attendeeId];
      var a' := a.(status := Registered, checkedInAt := None, checkedInBy := None, updatedAt := now);
      Step(Success, db.(checkIns := RowsWithout(db.checkIns, attendeeId), attendees := db.attendees[attendeeId := a']))
  }

  // ---------------------------------------------------------------- tables

  /** The three tables as mutable state; each handler updates them in
      place. */
  class CheckInTables {
    var attendees: map<Uuid, Attendee>
    var checkIns: seq<CheckInRow>
    var settings: map<Uuid, Settings>

    function Snapshot(): Db
      reads this
    {
      Db(attendees, checkIns, settings)
    }

    constructor(attendees: map<Uuid, Attendee>, checkIns: seq<CheckInRow>, settings: map<Uuid, Settings>)
      ensures Snapshot() == Db(attendees, checkIns, settings)
    {
      this.attendees := attendees;
      this.checkIns := checkIns;
      this.settings := settings;
    }

    /** `checkin`: guard by guard; on success insert the row, then update
        the attendee. */
    method Checkin(user: Option<Uuid>, eventId: Uuid, attendeeId: Uuid, now: int) returns (outcome: Outcome)
      modifies this
      ensures Step(outcome, Snapshot()) == AfterCheckin(old(Snapshot()), user, eventId, attendeeId, now)
    {
      if user.None? {
        return LoginRequired;
      }
      if !(attendeeId in attendees && attendees[attendeeId].eventId == eventId) {
        return NotFound;
      }
      var attendee := attendees[attendeeId];
      if attendee.status == CheckedIn {
        return AlreadyCheckedIn;
      }
      if eventId in settings && !settings[eventId].allowDuplicateCheckin {
        if HasRow(checkIns, attendeeId) {
          return DuplicateNotAllowed;
        }
      }
      checkIns := checkIns + [CheckInRow(attendeeId, eventId, Qr, now, user.value, now)];
      attendees := attendees[attendeeId := attendee.(status := CheckedIn, checkedInAt := Some(now), checkedInBy := user, updatedAt := now)];
      outcome := Success;
    }

    /** `undo`: guard by guard; on success delete the attendee's rows, then
        reset the attendee. */
    method Undo(user: Option<Uuid>, eventId: Uuid, attendeeId: Uuid, now: int) returns (outcome: Outcome)
      modifies this
      ensures Step(outcome, Snapshot()) == AfterUndo(old(Snapshot()), user, eventId, attendeeId, now)
    {
      if user.None? {
        return LoginRequired;
      }
      if !(attendeeId in attendees && attendees[attendeeId].eventId == eventId) {
        return NotFound;
      }
      var attendee := attendees[attendeeId];
      if attendee.status != CheckedIn {
        return NotCheckedIn;
      }
      checkIns := RowsWithout(checkIns, attendeeId);
      attendees := attendees[attendeeId := attendee.(status := Registered, checkedInAt := None, checkedInBy := None, updatedAt := now)];
      outcome := Success;
    }
  }

  // ---------------------------------------------------------------- properties

  /** A successful check-in appends exactly one row, a `qr` row for this
      attendee and event by this user; it changes this attendee's status
      and check-in columns only, and no other attendee or setting. */
  lemma CheckinEffect(db: Db, user: Option<Uuid>, eventId: Uuid, attendeeId: Uuid, now: int)
    requires AfterCheckin(db, user, eventId, attendeeId, now).outcome == Success
    ensures var db' := AfterCheckin(db, user, eventId, attendeeId, now).db;
      |db'.checkIns| == |db.checkIns| + 1 &&
      db'.checkIns[..|db.checkIns|] == db.checkIns &&
      db'.checkIns[|db.checkIns|] == CheckInRow(attendeeId, eventId, Qr, now, user.value, now) &&
      db'.attendees.Keys == db.attendees.Keys &&
      db'.attendees[attendeeId].status == CheckedIn &&
      db'.attendees[attendeeId].checkedInBy == user &&
      db'.attendees[attendeeId].eventId == db.attendees[attendeeId].eventId &&
      (forall id :: id in db.attendees && id != attendeeId ==> db'.attendees[id] == db.attendees[id]) &&
      db'.settings == db.settings
  {
    var db' := AfterCheckin(db, user, eventId, attendeeId, now).db;
    assert (db.checkIns + [db'.checkIns[|db.checkIns|]])[..|db.checkIns|] == db.checkIns;
  }

  /** A successful undo deletes every row of the attendee and no other
      row, and resets this attendee alone. */
  lemma UndoEffect(db: Db, user: Option<Uuid>, eventId: Uuid, attendeeId: Uuid, now: int)
    requires AfterUndo(db, user, eventId, attendeeId, now).outcome == Success
    ensures var db' := AfterUndo(db, user, eventId, attendeeId, now).db;
      CountRows(db'.checkIns, attendeeId) == 0 &&
      (forall id :: id != attendeeId ==> CountRows(db'.checkIns, id) == CountRows(db.checkIns, id)) &&
      db'.attendees.Keys == db.attendees.Keys &&
      db'.attendees[attendeeId].status == Registered &&
      db'.attendees[attendeeId].checkedInAt.None? &&
      db'.attendees[attendeeId].checkedInBy.None? &&
      (forall id :: id in db.attendees && id != attendeeId ==> db'.attendees[id] == db.attendees[id]) &&
      db'.settings == db.settings
  {
    forall id
      ensures CountRows(RowsWithout(db.checkIns, attendeeId), id) == if id == attendeeId then 0 else CountRows(db.checkIns, id)
    {
      CountWithout(db.checkIns, attendeeId, id);
    }
  }

  lemma {:induction false} CountWithout(rows: seq<CheckInRow>, removed: Uuid, id: Uuid)
    ensures CountRows(RowsWithout(rows, removed), id) == if id == removed then 0 else CountRows(rows, id)
    decreases |rows|
  {
    if rows != [] {
      var init, last := rows[..|rows| - 1], rows[|rows| - 1];
      CountWithout(init, removed, id);
      var kept := RowsWithout(init, removed);
      if last.attendeeId != removed {
        assert (kept + [last])[..|kept|] == kept;
      } else {
        assert kept + [] == kept;
      }
    }
  }

  lemma CountAppend(rows: seq<CheckInRow>, row: CheckInRow, id: Uuid)
    ensures CountRows(rows + [row], id) == CountRows(rows, id) + (if row.attendeeId == id then 1 else 0)
  {
    assert (rows + [row])[..|rows|] == rows;
  }

  lemma {:induction false} HasRowCount(rows: seq<CheckInRow>, id: Uuid)
    ensures HasRow(rows, id) <==> CountRows(rows, id) > 0
    decreases |rows|
  {
    if rows != [] {
      HasRowCount(rows[..|rows| - 1], id);
    }
  }

  /** For a registered attendee with no check-in rows and empty check-in
      columns, a check-in followed by an undo gives back the original
      tables, apart from the attendee's `updated_at`. */
  lemma CheckinThenUndo(db: Db, user: Uuid, eventId: Uuid, attendeeId: Uuid, t1: int, t2: int)
    requires Found(db, eventId, attendeeId)
    requires db.attendees[attendeeId].status == Registered
    requires db.attendees[attendeeId].checkedInAt.None? && db.attendees[attendeeId].checkedInBy.None?
    requires !HasRow(db.checkIns, attendeeId)
    ensures var s1 := AfterCheckin(db, Some(user), eventId, attendeeId, t1);
      var s2 := AfterUndo(s1.db, Some(user), eventId, attendeeId, t2);
      s1.outcome == Success && s2.outcome == Success &&
      s2.db == db.(attendees := db.attendees[attendeeId := db.attendees[attendeeId].(updatedAt := t2)])
  {
    var a := db.attendees[attendeeId];
    var row := CheckInRow(attendeeId, eventId, Qr, t1, user, t1);
    var a1 := a.(status := CheckedIn, checkedInAt := Some(t1), checkedInBy := Some(user), updatedAt := t1);
    var db1 := db.(checkIns := db.checkIns + [row], attendees := db.attendees[attendeeId := a1]);
    assert AfterCheckin(db, Some(user), eventId, attendeeId, t1) == Step(Success, db1);
    UndoAppended(db.checkIns, row);
    var a2 := a1.(status := Registered, checkedInAt := None, checkedInBy := None, updatedAt := t2);
    assert Found(db1, eventId, attendeeId) && db1.attendees[attendeeId].status == CheckedIn;
    assert AfterUndo(db1, Some(user), eventId, attendeeId, t2) == Step(Success, db1.(checkIns := db.checkIns, attendees := db1.attendees[attendeeId := a2]));
    assert a2 == a.(updatedAt := t2);
    assert db1.attendees[attendeeId := a2] == db.attendees[attendeeId := a.(updatedAt := t2)];
  }

  /** Undoing right after a check-in removes exactly the row it appended,
      when the attendee had no earlier row. */
  lemma UndoAppended(rows: seq<CheckInRow>, row: CheckInRow)
    requires !HasRow(rows, row.attendeeId)
    ensures RowsWithout(rows + [row], row.attendeeId) == rows
  {
    assert (rows + [row])[..|rows|] == rows;
    RowsWithoutAbsent(rows, row.attendeeId);
  }

  /** Deleting the rows of an attendee that has none changes nothing. */
  lemma {:induction false} RowsWithoutAbsent(rows: seq<CheckInRow>, id: Uuid)
    requires !HasRow(rows, id)
    ensures RowsWithout(rows, id) == rows
    decreases |rows|
  {
    if rows != [] {
      RowsWithoutAbsent(rows[..|rows| - 1], id);
    }
  }

  /** After a successful undo the attendee can be checked in again. */
  lemma UndoThenCheckin(db: Db, user: Uuid, eventId: Uuid, attendeeId: Uuid, t1: int, t2: int)
    requires AfterUndo(db, Some(user), eventId, attendeeId, t1).outcome == Success
    ensures AfterCheckin(AfterUndo(db, Some(user), eventId, attendeeId, t1).db, Some(user), eventId, attendeeId, t2).outcome == Success
  {
    var db' := AfterUndo(db, Some(user), eventId, attendeeId, t1).db;
    CountWithout(db.checkIns, attendeeId, attendeeId);
    HasRowCount(db'.checkIns, attendeeId);
  }

  // ---------------------------------------------------------------- invariant

  /** The tables agree with each other: every row belongs to an attendee
      of the same event; an attendee has one row exactly when checked in
      and none otherwise; and the check-in columns are set exactly when
      checked in. */
  ghost predicate Consistent(db: Db) {
    (forall k :: 0 <= k < |db.checkIns| ==>
      db.checkIns[k].attendeeId in db.attendees &&
      db.attendees[db.checkIns[k].attendeeId].eventId == db.checkIns[k].eventId) &&
    (forall id :: id in db.attendees ==>
      CountRows(db.checkIns, id) == (if db.attendees[id].status == CheckedIn then 1 else 0) &&
      (db.attendees[id].status == CheckedIn <==> db.attendees[id].checkedInAt.Some?) &&
      (db.attendees[id].status == CheckedIn <==> db.attendees[id].checkedInBy.Some?))
  }

  /** Every row belongs to some attendee. */
  lemma RowsBelong(db: Db, id: Uuid)
    requires Consistent(db) && id !in db.attendees
    ensures CountRows(db.checkIns, id) == 0
  {
    RowsBelongHelper(db.checkIns, db.attendees.Keys, id);
  }

  lemma {:induction false} RowsBelongHelper(rows: seq<CheckInRow>, ids: set<Uuid>, id: Uuid)
    requires forall k :: 0 <= k < |rows| ==> rows[k].attendeeId in ids
    requires id !in ids
    ensures CountRows(rows, id) == 0
    decreases |rows|
  {
    if rows != [] {
      RowsBelongHelper(rows[..|rows| - 1], ids, id);
    }
  }

  lemma CheckinPreservesConsistent(db: Db, user: Option<Uuid>, eventId: Uuid, attendeeId: Uuid, now: int)
    requires Consistent(db)
    ensures Consistent(AfterCheckin(db, user, eventId, attendeeId, now).db)
  {
    var r := AfterCheckin(db, user, eventId, attendeeId, now);
    if r.outcome == Success {
      var row := CheckInRow(attendeeId, eventId, Qr, now, user.value, now);
      var db' := r.db;
      forall id | id in db'.attendees
        ensures CountRows(db'.checkIns, id) == (if db'.attendees[id].status == CheckedIn then 1 else 0)
      {
        CountAppend(db.checkIns, row, id);
      }
      forall k | 0 <= k < |db'.checkIns|
        ensures db'.checkIns[k].attendeeId in db'.attendees
        ensures db'.attendees[db'.checkIns[k].attendeeId].eventId == db'.checkIns[k].eventId
      {
        if k < |db.checkIns| {
          assert db'.checkIns[k] == db.checkIns[k];
        }
      }
    }
  }

  lemma UndoPreservesConsistent(db: Db, user: Option<Uuid>, eventId: Uuid, attendeeId: Uuid, now: int)
    requires Consistent(db)
    ensures Consistent(AfterUndo(db, user, eventId, attendeeId, now).db)
  {
    var r := AfterUndo(db, user, eventId, attendeeId, now);
    if r.outcome == Success {
      var db' := r.db;
      forall id | id in db'.attendees
        ensures CountRows(db'.checkIns, id) == (if db'.attendees[id].status == CheckedIn then 1 else 0)
      {
        CountWithout(db.checkIns, attendeeId, id);
      }
      forall k | 0 <= k < |db'.checkIns|
        ensures db'.checkIns[k].attendeeId in db'.attendees
        ensures db'.attendees[db'.checkIns[k].attendeeId].eventId == db'.checkIns[k].eventId
      {
        assert db'.checkIns[k] in db.checkIns;
      }
    }
  }

  /** In consistent tables the duplicate-check-in rejection never fires:
      an attendee that is not checked in has no rows, so the status guard
      just before it already covers every repeat. */
  lemma DuplicateRejectionUnreachable(db: Db, user: Option<Uuid>, eventId: Uuid, attendeeId: Uuid, now: int)
    requires Consistent(db)
    ensures AfterCheckin(db, user, eventId, attendeeId, now).outcome != DuplicateNotAllowed
  {
    if user.Some? && Found(db, eventId, attendeeId) {
      HasRowCount(db.checkIns, attendeeId);
    }
  }
}
