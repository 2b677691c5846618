/**
 * Integrity of the database value: generated keys stay below the next id,
 * every cascaded foreign key names an existing row, and each cascade delete
 * keeps both while taking rows away and changing none.
 */
module Integrity {
  import opened Wrappers
  import opened Entities
  import opened Schema

  /** Every key of `m` is below `n`. */
  ghost predicate Below<T>(m: map<int, T>, n: int) {
    forall k :: k in m ==> k < n
  }

  /** `small` keeps some of the rows of `big`, unchanged. */
  ghost predicate SubTable<T>(small: map<int, T>, big: map<int, T>) {
    forall k :: k in small ==> k in big && small[k] == big[k]
  }

  /** Every generated key is below `n`, and so is every volunteer's user id. */
  ghost predicate KeysBelow(db: Db, n: int) {
    && Below(db.users, n) && Below(db.centers, n) && Below(db.volunteers, n)
    && Below(db.resources, n) && Below(db.donations, n) && Below(db.requests, n)
    && Below(db.preparations, n) && Below(db.usages, n) && Below(db.prepVolunteers, n)
    && Below(db.trackings, n) && Below(db.trackingVolunteers, n) && Below(db.skills, n)
    && (forall k :: k in db.volunteers ==> db.volunteers[k].userId < n)
  }

  /** Db `r` has no row that `db` lacks, and the rows it keeps are unchanged. */
  ghost predicate Shrinks(db: Db, r: Db) {
    && SubTable(r.users, db.users) && SubTable(r.centers, db.centers)
    && SubTable(r.volunteers, db.volunteers) && SubTable(r.resources, db.resources)
    && SubTable(r.donations, db.donations) && SubTable(r.requests, db.requests)
    && SubTable(r.preparations, db.preparations) && SubTable(r.usages, db.usages)
    && SubTable(r.prepVolunteers, db.prepVolunteers) && SubTable(r.trackings, db.trackings)
    && SubTable(r.trackingVolunteers, db.trackingVolunteers) && SubTable(r.skills, db.skills)
    && r.volunteerSkills <= db.volunteerSkills
  }

  /** Removing rows keeps every key below the bound. */
  lemma ShrinksKeepsKeysBelow(db: Db, r: Db, n: int)
    requires KeysBelow(db, n) && Shrinks(db, r)
    ensures KeysBelow(r, n)
  {
  }

  /**
   * Every cascaded foreign key names an existing row. (AidRequest.AreaID is
   * left out with the affected-area table; the volunteer ids of the two
   * assignment tables are not foreign keys.)
   */
  ghost predicate Referential(db: Db) {
    && (forall k :: k in db.usages ==>
          db.usages[k].resourceId in db.resources && db.usages[k].preparationId in db.preparations)
    && (forall k :: k in db.prepVolunteers ==> db.prepVolunteers[k].preparationId in db.preparations)
    && (forall k :: k in db.trackingVolunteers ==> db.trackingVolunteers[k].trackingId in db.trackings)
    && (forall p :: p in db.volunteerSkills ==> p.skillId in db.skills && p.volunteerId in db.volunteers)
    && (forall k :: k in db.resources ==> db.resources[k].centerId in db.centers)
    && (forall k :: k in db.volunteers ==>
          db.volunteers[k].userId in db.users
          && (db.volunteers[k].assignedCenter.Some? ==> db.volunteers[k].assignedCenter.value in db.centers))
    && (forall k :: k in db.preparations ==> db.preparations[k].requestId in db.requests)
    && (forall k :: k in db.trackings ==> db.trackings[k].requestId in db.requests)
    && (forall k :: k in db.donations ==> db.donations[k].centerId in db.centers && db.donations[k].userId in db.users)
    && (forall k :: k in db.requests ==> db.requests[k].userId in db.users)
  }

  lemma DeleteResourcesShrinks(db: Db, ids: set<int>)
    ensures Shrinks(db, DeleteResources(db, ids))
  {
  }

  lemma DeleteVolunteersShrinks(db: Db, ids: set<int>)
    ensures Shrinks(db, DeleteVolunteers(db, ids))
  {
  }

  lemma DeleteTrackingsShrinks(db: Db, ids: set<int>)
    ensures Shrinks(db, DeleteTrackings(db, ids))
  {
  }

  lemma DeleteSkillsShrinks(db: Db, ids: set<int>)
    ensures Shrinks(db, DeleteSkills(db, ids))
  {
  }

  lemma DeleteResourcesKeepsIntegrity(db: Db, ids: set<int>)
    requires Referential(db)
    ensures Referential(DeleteResources(db, ids)) && Shrinks(db, DeleteResources(db, ids))
  {
  }

  lemma DeletePreparationsKeepsIntegrity(db: Db, ids: set<int>)
    requires Referential(db)
    ensures Referential(DeletePreparations(db, ids)) && Shrinks(db, DeletePreparations(db, ids))
  {
  }

  lemma DeleteTrackingsKeepsIntegrity(db: Db, ids: set<int>)
    requires Referential(db)
    ensures Referential(DeleteTrackings(db, ids)) && Shrinks(db, DeleteTrackings(db, ids))
  {
  }

  lemma DeleteVolunteersKeepsIntegrity(db: Db, ids: set<int>)
    requires Referential(db)
    ensures Referential(DeleteVolunteers(db, ids)) && Shrinks(db, DeleteVolunteers(db, ids))
  {
  }

  lemma DeleteSkillsKeepsIntegrity(db: Db, ids: set<int>)
    requires Referential(db)
    ensures Referential(DeleteSkills(db, ids)) && Shrinks(db, DeleteSkills(db, ids))
  {
  }

  lemma DeleteDonationsKeepsIntegrity(db: Db, ids: set<int>)
    requires Referential(db)
    ensures Referential(DeleteDonations(db, ids)) && Shrinks(db, DeleteDonations(db, ids))
  {
  }

  lemma ShrinksTransitive(a: Db, b: Db, c: Db)
    requires Shrinks(a, b) && Shrinks(b, c)
    ensures Shrinks(a, c)
  {
  }

  /** Deleting requests only takes rows away. */
  lemma DeleteRequestsShrinks(db: Db, ids: set<int>)
    ensures Shrinks(db, DeleteRequests(db, ids))
  {
  }

  /** Deleting requests keeps every foreign key resolved and only takes rows away. */
  lemma DeleteRequestsKeepsIntegrity(db: Db, ids: set<int>)
    requires Referential(db)
    ensures Referential(DeleteRequests(db, ids)) && Shrinks(db, DeleteRequests(db, ids))
  {
    var d1 := DeletePreparations(db, PreparationsFor(db.preparations, ids));
    DeletePreparationsKeepsIntegrity(db, PreparationsFor(db.preparations, ids));
    DeleteTrackingsKeepsIntegrity(d1, TrackingsFor(db.trackings, ids));
    DeleteRequestsShrinks(db, ids);
  }

  /** A center row nothing refers to can go. */
  lemma UnreferencedCenterGoes(d: Db, c: int)
    requires Referential(d)
    requires forall k :: k in d.resources ==> d.resources[k].centerId != c
    requires forall k :: k in d.volunteers ==> d.volunteers[k].assignedCenter != Some(c)
    requires forall k :: k in d.donations ==> d.donations[k].centerId != c
    ensures Referential(d.(centers := d.centers - {c}))
  {
  }

  /** Deleting a center keeps every foreign key resolved. */
  lemma DeleteCenterKeepsReferential(db: Db, c: int)
    requires Referential(db)
    ensures Referential(DeleteCenter(db, c))
  {
    var d1 := DeleteResources(db, ResourcesAt(db.resources, c));
    DeleteResourcesKeepsIntegrity(db, ResourcesAt(db.resources, c));
    var d2 := DeleteVolunteers(d1, VolunteersAt(db.volunteers, c));
    DeleteVolunteersKeepsIntegrity(d1, VolunteersAt(db.volunteers, c));
    var d3 := DeleteDonations(d2, DonationsAt(db.donations, c));
    DeleteDonationsKeepsIntegrity(d2, DonationsAt(db.donations, c));
    UnreferencedCenterGoes(d3, c);
  }

  /** Deleting a center only takes rows away. */
  lemma DeleteCenterShrinks(db: Db, c: int)
    ensures Shrinks(db, DeleteCenter(db, c))
  {
  }

  /** A user row nothing refers to can go. */
  lemma UnreferencedUserGoes(d: Db, u: int)
    requires Referential(d)
    requires forall k :: k in d.volunteers ==> d.volunteers[k].userId != u
    requires forall k :: k in d.donations ==> d.donations[k].userId != u
    requires forall k :: k in d.requests ==> d.requests[k].userId != u
    ensures Referential(d.(users := d.users - {u}))
  {
  }

  /** Deleting a user keeps every foreign key resolved. */
  lemma DeleteUserKeepsReferential(db: Db, u: int)
    requires Referential(db)
    ensures Referential(DeleteUser(db, u))
  {
    var d1 := DeleteRequests(db, RequestsBy(db.requests, u));
    DeleteRequestsKeepsIntegrity(db, RequestsBy(db.requests, u));
    var d2 := DeleteDonations(d1, DonationsBy(db.donations, u));
    DeleteDonationsKeepsIntegrity(d1, DonationsBy(db.donations, u));
    var d3 := DeleteVolunteers(d2, VolunteersOf(db.volunteers, u));
    DeleteVolunteersKeepsIntegrity(d2, VolunteersOf(db.volunteers, u));
    UnreferencedUserGoes(d3, u);
  }

  /** Deleting a user only takes rows away. */
  lemma DeleteUserShrinks(db: Db, u: int)
    ensures Shrinks(db, DeleteUser(db, u))
  {
    var d1 := DeleteRequests(db, RequestsBy(db.requests, u));
    DeleteRequestsShrinks(db, RequestsBy(db.requests, u));
  }
}
