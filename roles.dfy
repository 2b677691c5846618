/**
 * What updating a user does to the volunteer table and to the relief
 * centers' volunteer counts when the role changes, and why the incremental
 * +1/-1 updates keep every count equal to its recount when the record
 * involved is Active.
 */
module Roles {
  import opened Wrappers
  import opened Entities
  import opened Schema
  import Capacity
  import Integrity

  /** The effect of a role change on the volunteer record of the user. */
  datatype Change =
    | AddRecord                   // the user becomes a Volunteer with a center
    | MoveRecord(k: int)          // the Volunteer's record `k` moves to another center
    | DropRecord(k: int)          // the user leaves the role; record `k` goes
    | KeepRecord                  // nothing to do for the volunteer table

  /**
   * `record` is the volunteer record looked up for user `id`: one is looked
   * up only when the user had the role Volunteer, it belongs to the user,
   * and none is reported only when the user has no record at all.
   */
  ghost predicate RecordOf(db: Db, id: int, record: Option<int>)
    requires id in db.users
  {
    && (record.Some? ==>
          db.users[id].role == RoleVolunteer
          && record.value in db.volunteers && db.volunteers[record.value].userId == id)
    && (record.None? && db.users[id].role == RoleVolunteer ==>
          forall k :: k in db.volunteers ==> db.volunteers[k].userId != id)
  }

  /** The user exists and the looked-up record, if any, is in the table. */
  predicate Looked(db: Db, id: int, record: Option<int>) {
    id in db.users && (record.Some? ==> record.value in db.volunteers)
  }

  /**
   * The case analysis of UpdateUser: a non-Volunteer becoming a Volunteer
   * with a center gets a record; a Volunteer with a record staying one with
   * a center has it moved when the center differs; a Volunteer with a record
   * leaving the role loses it; anything else leaves the volunteers alone.
   */
  function Classify(db: Db, id: int, update: User, center: Option<int>, record: Option<int>): (c: Change)
    requires Looked(db, id, record)
    ensures c.MoveRecord? || c.DropRecord? ==> record == Some(c.k)
    ensures c.AddRecord? <==> db.users[id].role != RoleVolunteer && update.role == RoleVolunteer && center.Some?
    ensures c.MoveRecord? ==> update.role == RoleVolunteer && center.Some? && db.volunteers[c.k].assignedCenter != center
    ensures c.DropRecord? ==> update.role != RoleVolunteer
  {
    if db.users[id].role != RoleVolunteer && update.role == RoleVolunteer && center.Some? then AddRecord
    else if record.Some? && update.role == RoleVolunteer && center.Some? then
      (if db.volunteers[record.value].assignedCenter == center then KeepRecord else MoveRecord(record.value))
    else if record.Some? && update.role != RoleVolunteer then DropRecord(record.value)
    else KeepRecord
  }

  /** The volunteer table after the change; a new record takes identity `n0`. */
  function VolunteersAfter(db: Db, n0: int, id: int, update: User, center: Option<int>, c: Change): map<int, Volunteer>
    requires c.MoveRecord? || c.DropRecord? ==> c.k in db.volunteers
  {
    match c
    case AddRecord => db.volunteers[n0 := Volunteer(update.name, update.phone, center, StatusActive, id)]
    case MoveRecord(k) => db.volunteers[k := db.volunteers[k].(assignedCenter := center)]
    case DropRecord(k) => db.volunteers - {k}
    case KeepRecord => db.volunteers
  }

  /** The centers after the change: +1 where a record arrives, -1 (clamped) where one leaves. */
  function CentersAfter(db: Db, center: Option<int>, c: Change): map<int, ReliefCenter>
    requires c.MoveRecord? || c.DropRecord? ==> c.k in db.volunteers
    requires c.AddRecord? || c.MoveRecord? ==> center.Some?
  {
    match c
    case AddRecord => Capacity.WithAdjusted(db.centers, center.value, 1)
    case MoveRecord(k) =>
      Capacity.WithAdjusted(Capacity.Released(db.centers, db.volunteers[k].assignedCenter), center.value, 1)
    case DropRecord(k) => Capacity.Released(db.centers, db.volunteers[k].assignedCenter)
    case KeepRecord => db.centers
  }

  /** A dropped record takes its skill pairs with it. */
  function PairsAfter(db: Db, c: Change): set<VolunteerSkill> {
    if c.DropRecord? then PairsOffVolunteers(db.volunteerSkills, {c.k}) else db.volunteerSkills
  }

  /** The database after user `id` is overwritten with `update` and the role change is followed through. */
  function ChangeRole(db: Db, n0: int, id: int, update: User, center: Option<int>, record: Option<int>): Db
    requires Looked(db, id, record)
  {
    var c := Classify(db, id, update, center, record);
    db.(users := db.users[id := update],
        volunteers := VolunteersAfter(db, n0, id, update, center, c),
        centers := CentersAfter(db, center, c),
        volunteerSkills := PairsAfter(db, c))
  }

  /**
   * The steps of UpdateUser after the user row is overwritten, on a copy of
   * the tables; a new volunteer record takes identity `n0`.
   */
  method FollowRoleChange(db: Db, n0: int, id: int, update: User, center: Option<int>, record: Option<int>)
    returns (d: Db)
    requires Looked(db, id, record)
    ensures d == ChangeRole(db, n0, id, update, center, record)
  {
    d := db.(users := db.users[id := update]);
    match Classify(db, id, update, center, record)
    case AddRecord =>
      d := d.(volunteers := d.volunteers[n0 := Volunteer(update.name, update.phone, center, StatusActive, id)],
              centers := Capacity.WithAdjusted(d.centers, center.value, 1));
    case MoveRecord(k) =>
      var v := d.volunteers[k];
      d := d.(volunteers := d.volunteers[k := v.(assignedCenter := center)],
              centers := Capacity.WithAdjusted(Capacity.Released(d.centers, v.assignedCenter), center.value, 1));
    case DropRecord(k) =>
      var from := d.volunteers[k].assignedCenter;
      d := DeleteVolunteers(d, {k});
      d := d.(centers := Capacity.Released(d.centers, from));
    case KeepRecord =>
  }

  /** A role change keeps every generated key below the next identity, which moves on by one for a new record. */
  lemma ChangeRoleKeepsKeysBelow(db: Db, n0: int, id: int, update: User, center: Option<int>, record: Option<int>)
    requires Looked(db, id, record)
    requires Integrity.KeysBelow(db, n0)
    ensures Integrity.KeysBelow(ChangeRole(db, n0, id, update, center, record),
                                if Classify(db, id, update, center, record).AddRecord? then n0 + 1 else n0)
  {
  }

  /**
   * Each kind of change keeps the counts in sync when the record it moves or
   * drops is Active and a new record takes an unused identity.
   */
  lemma ChangeKeepsInSync(db: Db, n0: int, id: int, update: User, center: Option<int>, c: Change)
    requires c.MoveRecord? || c.DropRecord? ==> c.k in db.volunteers && db.volunteers[c.k].status == StatusActive
    requires c.AddRecord? || c.MoveRecord? ==> center.Some?
    requires c.MoveRecord? ==> db.volunteers[c.k].assignedCenter != center
    requires c.AddRecord? ==> n0 !in db.volunteers
    requires Capacity.InSync(db.centers, db.volunteers)
    ensures Capacity.InSync(CentersAfter(db, center, c), VolunteersAfter(db, n0, id, update, center, c))
  {
    match c
    case AddRecord =>
      Capacity.AddActiveKeepsInSync(db.centers, db.volunteers, n0,
                                    Volunteer(update.name, update.phone, center, StatusActive, id));
    case MoveRecord(k) =>
      Capacity.MoveKeepsInSync(db.centers, db.volunteers, k, center.value);
    case DropRecord(k) =>
      Capacity.RemoveKeepsInSync(db.centers, db.volunteers, k);
    case KeepRecord =>
  }

  /**
   * When the record involved is Active and the new identity is unused, a
   * role change keeps every center's count equal to its recount.
   */
  lemma ChangeRoleKeepsInSync(db: Db, n0: int, id: int, update: User, center: Option<int>, record: Option<int>)
    requires Looked(db, id, record)
    requires forall k :: k in db.volunteers ==> k < n0
    ensures var r := ChangeRole(db, n0, id, update, center, record);
      Capacity.InSync(db.centers, db.volunteers) && (record.Some? ==> db.volunteers[record.value].status == StatusActive)
      ==> Capacity.InSync(r.centers, r.volunteers)
  {
    if Capacity.InSync(db.centers, db.volunteers) && (record.Some? ==> db.volunteers[record.value].status == StatusActive) {
      ChangeKeepsInSync(db, n0, id, update, center, Classify(db, id, update, center, record));
    }
  }

  /**
   * UpdateUser as the source has it: the +1/-1 change only the tracked
   * center and no save follows them, so the user and the volunteer table
   * change as in ChangeRole while every center keeps its stored count.
   */
  function ChangeRoleUnsaved(db: Db, n0: int, id: int, update: User, center: Option<int>, record: Option<int>)
    : (r: Db)
    requires Looked(db, id, record)
    ensures r.centers == db.centers
    ensures r == ChangeRole(db, n0, id, update, center, record).(centers := r.centers)
  {
    var c := Classify(db, id, update, center, record);
    db.(users := db.users[id := update],
        volunteers := VolunteersAfter(db, n0, id, update, center, c),
        volunteerSkills := PairsAfter(db, c))
  }

  /**
   * The unsaved counts drift from counts that were in sync: a new record
   * leaves its center one below the recount; a moved Active record leaves
   * the new center one below and the old one one above; a dropped Active
   * record leaves its center one above.
   */
  lemma UnsavedChangeDrifts(db: Db, n0: int, id: int, update: User, center: Option<int>, record: Option<int>)
    requires Looked(db, id, record) && n0 !in db.volunteers
    requires Capacity.InSync(db.centers, db.volunteers)
    ensures var c := Classify(db, id, update, center, record);
      var r := ChangeRoleUnsaved(db, n0, id, update, center, record);
      match c
      case AddRecord =>
        center.value in r.centers ==>
          r.centers[center.value].volunteersWorking == Capacity.Recount(r.volunteers, center.value) - 1
      case MoveRecord(k) =>
        var from := db.volunteers[k].assignedCenter;
        db.volunteers[k].status == StatusActive ==>
          && (center.value in r.centers ==>
                r.centers[center.value].volunteersWorking == Capacity.Recount(r.volunteers, center.value) - 1)
          && (from.Some? && from.value in r.centers ==>
                r.centers[from.value].volunteersWorking == Capacity.Recount(r.volunteers, from.value) + 1)
      case DropRecord(k) =>
        var from := db.volunteers[k].assignedCenter;
        db.volunteers[k].status == StatusActive && from.Some? && from.value in r.centers ==>
          r.centers[from.value].volunteersWorking == Capacity.Recount(r.volunteers, from.value) + 1
      case KeepRecord => r.centers == db.centers
  {
    var c := Classify(db, id, update, center, record);
    var vols := ChangeRoleUnsaved(db, n0, id, update, center, record).volunteers;
    assert vols == VolunteersAfter(db, n0, id, update, center, c);
    match c
    case AddRecord =>
      var v := Volunteer(update.name, update.phone, center, StatusActive, id);
      assert vols == db.volunteers[n0 := v];
      if center.value in db.centers {
        Capacity.UnsavedAddDrifts(db.centers, db.volunteers, n0, v);
      }
    case MoveRecord(k) =>
      assert vols == db.volunteers[k := db.volunteers[k].(assignedCenter := center)];
      if db.volunteers[k].status == StatusActive {
        Capacity.UnsavedMoveDrifts(db.centers, db.volunteers, k, center.value);
      }
    case DropRecord(k) =>
      assert vols == db.volunteers - {k};
      var from := db.volunteers[k].assignedCenter;
      if db.volunteers[k].status == StatusActive && from.Some? && from.value in db.centers {
        Capacity.UnsavedRemoveDrifts(db.centers, db.volunteers, k);
      }
    case KeepRecord =>
  }

  /**
   * `record` is the volunteer record DeleteUser removes first: one only for
   * a user with the role Volunteer, it belongs to the user and has a center;
   * none for such a user means no record, or the one found has no center.
   */
  ghost predicate CenteredRecordOf(db: Db, id: int, record: Option<int>)
    requires id in db.users
  {
    && (record.Some? ==>
          db.users[id].role == RoleVolunteer
          && record.value in db.volunteers && db.volunteers[record.value].userId == id
          && db.volunteers[record.value].assignedCenter.Some?)
    && (record.None? && db.users[id].role == RoleVolunteer ==>
          || (forall k :: k in db.volunteers ==> db.volunteers[k].userId != id)
          || (exists k :: k in db.volunteers && db.volunteers[k].userId == id && db.volunteers[k].assignedCenter.None?))
  }

  /** The center a user's deletion releases: the one of the record removed first, if any. */
  function Released(db: Db, record: Option<int>): Option<int>
    requires record.Some? ==> record.value in db.volunteers
  {
    if record.Some? then db.volunteers[record.value].assignedCenter else None
  }

  /**
   * The steps of DeleteUser on a copy of the tables: the volunteer record
   * `record` (if any) goes first and its center's count goes one down, then
   * the user's donations, then the user with everything that cascades from
   * it. The outcome is the cascade delete of the user after the -1.
   */
  method RemoveUser(db: Db, id: int, record: Option<int>) returns (d: Db)
    requires record.Some? ==> record.value in db.volunteers && db.volunteers[record.value].userId == id
    ensures d == DeleteUser(db.(centers := Capacity.Released(db.centers, Released(db, record))), id)
  {
    d := db;
    if record.Some? {
      var from := d.volunteers[record.value].assignedCenter;
      DeleteUserAfterVolunteers(db.(centers := Capacity.Released(db.centers, from)), id, {record.value});
      d := DeleteVolunteers(d, {record.value});
      d := d.(centers := Capacity.Released(d.centers, from));
    }
    DeleteUserAfterDonations(d, id);
    d := DeleteDonations(d, DonationsBy(d.donations, id));
    d := DeleteUser(d, id);
  }
}
