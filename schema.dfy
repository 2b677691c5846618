/**
 * The database of DrcsContext as one value: a map per table, keyed by the
 * table's primary key (VolunteerSkill is keyed by the pair itself, so it is a
 * set). The delete functions follow the cascade-delete relationships the
 * context configures, so each says exactly what one Remove takes with it.
 */
module Schema {
  import opened Wrappers
  import opened Entities

  datatype Db = Db(
    users: map<int, User>,
    centers: map<int, ReliefCenter>,
    volunteers: map<int, Volunteer>,
    resources: map<int, Resource>,
    donations: map<int, Donation>,
    requests: map<int, AidRequest>,
    preparations: map<int, AidPreparation>,
    usages: map<int, ResourceUsage>,
    prepVolunteers: map<int, PreparationVolunteer>,
    trackings: map<int, RescueTracking>,
    trackingVolunteers: map<int, TrackingVolunteer>,
    skills: map<int, Skill>,
    volunteerSkills: set<VolunteerSkill>)

  /** The usage rows that draw on none of the given resources. */
  function UsagesOffResources(m: map<int, ResourceUsage>, resources: set<int>): (r: map<int, ResourceUsage>)
    ensures forall k :: k in r <==> k in m && m[k].resourceId !in resources
    ensures forall k :: k in r ==> r[k] == m[k]
  {
    map k | k in m && m[k].resourceId !in resources :: m[k]
  }

  /** The usage rows that belong to none of the given preparations. */
  function UsagesOffPreparations(m: map<int, ResourceUsage>, preparations: set<int>): (r: map<int, ResourceUsage>)
    ensures forall k :: k in r <==> k in m && m[k].preparationId !in preparations
    ensures forall k :: k in r ==> r[k] == m[k]
  {
    map k | k in m && m[k].preparationId !in preparations :: m[k]
  }

  /** The preparation-volunteer rows that belong to none of the given preparations. */
  function CrewOffPreparations(m: map<int, PreparationVolunteer>, preparations: set<int>)
    : (r: map<int, PreparationVolunteer>)
    ensures forall k :: k in r <==> k in m && m[k].preparationId !in preparations
    ensures forall k :: k in r ==> r[k] == m[k]
  {
    map k | k in m && m[k].preparationId !in preparations :: m[k]
  }

  /** The tracking-volunteer rows that belong to none of the given trackings. */
  function CrewOffTrackings(m: map<int, TrackingVolunteer>, trackings: set<int>): (r: map<int, TrackingVolunteer>)
    ensures forall k :: k in r <==> k in m && m[k].trackingId !in trackings
    ensures forall k :: k in r ==> r[k] == m[k]
  {
    map k | k in m && m[k].trackingId !in trackings :: m[k]
  }

  /** The volunteer-skill pairs of none of the given volunteers. */
  function PairsOffVolunteers(s: set<VolunteerSkill>, volunteers: set<int>): (r: set<VolunteerSkill>)
    ensures forall p :: p in r <==> p in s && p.volunteerId !in volunteers
  {
    set p | p in s && p.volunteerId !in volunteers
  }

  /** The volunteer-skill pairs of none of the given skills. */
  function PairsOffSkills(s: set<VolunteerSkill>, skills: set<int>): (r: set<VolunteerSkill>)
    ensures forall p :: p in r <==> p in s && p.skillId !in skills
  {
    set p | p in s && p.skillId !in skills
  }

  /** The preparations made for any of the given requests. */
  function PreparationsFor(m: map<int, AidPreparation>, requests: set<int>): (r: set<int>)
    ensures forall k :: k in r <==> k in m && m[k].requestId in requests
  {
    set k | k in m && m[k].requestId in requests
  }

  /** The trackings of any of the given requests. */
  function TrackingsFor(m: map<int, RescueTracking>, requests: set<int>): (r: set<int>)
    ensures forall k :: k in r <==> k in m && m[k].requestId in requests
  {
    set k | k in m && m[k].requestId in requests
  }

  /** The resources stocked at center `c`. */
  function ResourcesAt(m: map<int, Resource>, c: int): (r: set<int>)
    ensures forall k :: k in r <==> k in m && m[k].centerId == c
  {
    set k | k in m && m[k].centerId == c
  }

  /** The volunteers assigned to center `c`. */
  function VolunteersAt(m: map<int, Volunteer>, c: int): (r: set<int>)
    ensures forall k :: k in r <==> k in m && m[k].assignedCenter == Some(c)
  {
    set k | k in m && m[k].assignedCenter == Some(c)
  }

  /** The donations received by center `c`. */
  function DonationsAt(m: map<int, Donation>, c: int): (r: set<int>)
    ensures forall k :: k in r <==> k in m && m[k].centerId == c
  {
    set k | k in m && m[k].centerId == c
  }

  /** The aid requests made by user `u`. */
  function RequestsBy(m: map<int, AidRequest>, u: int): (r: set<int>)
    ensures forall k :: k in r <==> k in m && m[k].userId == u
  {
    set k | k in m && m[k].userId == u
  }

  /** The donations made by user `u`. */
  function DonationsBy(m: map<int, Donation>, u: int): (r: set<int>)
    ensures forall k :: k in r <==> k in m && m[k].userId == u
  {
    set k | k in m && m[k].userId == u
  }

  /** The volunteer records of user `u`. */
  function VolunteersOf(m: map<int, Volunteer>, u: int): (r: set<int>)
    ensures forall k :: k in r <==> k in m && m[k].userId == u
  {
    set k | k in m && m[k].userId == u
  }

  /** Deleting resources takes their usage rows. */
  function DeleteResources(db: Db, ids: set<int>): (r: Db)
    ensures r == db.(resources := r.resources, usages := r.usages)
    ensures forall k :: k in r.resources <==> k in db.resources && k !in ids
    ensures forall k :: k in r.usages <==> k in db.usages && db.usages[k].resourceId !in ids
    ensures forall k :: k in r.resources ==> r.resources[k] == db.resources[k]
    ensures forall k :: k in r.usages ==> r.usages[k] == db.usages[k]
  {
    db.(resources := db.resources - ids, usages := UsagesOffResources(db.usages, ids))
  }

  /** Deleting preparations takes their usage rows and their volunteer rows. */
  function DeletePreparations(db: Db, ids: set<int>): (r: Db)
    ensures r == db.(preparations := r.preparations, usages := r.usages, prepVolunteers := r.prepVolunteers)
    ensures forall k :: k in r.preparations <==> k in db.preparations && k !in ids
    ensures forall k :: k in r.usages <==> k in db.usages && db.usages[k].preparationId !in ids
    ensures forall k :: k in r.prepVolunteers <==> k in db.prepVolunteers && db.prepVolunteers[k].preparationId !in ids
    ensures forall k :: k in r.preparations ==> r.preparations[k] == db.preparations[k]
  {
    db.(preparations := db.preparations - ids,
        usages := UsagesOffPreparations(db.usages, ids),
        prepVolunteers := CrewOffPreparations(db.prepVolunteers, ids))
  }

  /** Deleting trackings takes their volunteer rows. */
  function DeleteTrackings(db: Db, ids: set<int>): (r: Db)
    ensures r == db.(trackings := r.trackings, trackingVolunteers := r.trackingVolunteers)
    ensures forall k :: k in r.trackings <==> k in db.trackings && k !in ids
    ensures forall k :: k in r.trackingVolunteers <==>
      k in db.trackingVolunteers && db.trackingVolunteers[k].trackingId !in ids
    ensures forall k :: k in r.trackings ==> r.trackings[k] == db.trackings[k]
  {
    db.(trackings := db.trackings - ids, trackingVolunteers := CrewOffTrackings(db.trackingVolunteers, ids))
  }

  /**
   * Deleting volunteers takes their skill pairs only: preparation and tracking
   * assignment rows that name them stay.
   */
  function DeleteVolunteers(db: Db, ids: set<int>): (r: Db)
    ensures r == db.(volunteers := r.volunteers, volunteerSkills := r.volunteerSkills)
    ensures forall k :: k in r.volunteers <==> k in db.volunteers && k !in ids
    ensures forall p :: p in r.volunteerSkills <==> p in db.volunteerSkills && p.volunteerId !in ids
    ensures forall k :: k in r.volunteers ==> r.volunteers[k] == db.volunteers[k]
  {
    db.(volunteers := db.volunteers - ids, volunteerSkills := PairsOffVolunteers(db.volunteerSkills, ids))
  }

  /** Deleting skills takes their volunteer pairs. */
  function DeleteSkills(db: Db, ids: set<int>): (r: Db)
    ensures r == db.(skills := r.skills, volunteerSkills := r.volunteerSkills)
    ensures forall k :: k in r.skills <==> k in db.skills && k !in ids
    ensures forall p :: p in r.volunteerSkills <==> p in db.volunteerSkills && p.skillId !in ids
    ensures forall k :: k in r.skills ==> r.skills[k] == db.skills[k]
  {
    db.(skills := db.skills - ids, volunteerSkills := PairsOffSkills(db.volunteerSkills, ids))
  }

  /** Donations cascade nothing. */
  function DeleteDonations(db: Db, ids: set<int>): (r: Db)
    ensures r == db.(donations := r.donations)
    ensures forall k :: k in r.donations <==> k in db.donations && k !in ids
    ensures forall k :: k in r.donations ==> r.donations[k] == db.donations[k]
  {
    db.(donations := db.donations - ids)
  }

  /** Deleting aid requests takes their preparations and trackings, and what those take. */
  function DeleteRequests(db: Db, ids: set<int>): (r: Db)
    ensures r == db.(requests := r.requests, preparations := r.preparations, usages := r.usages,
                     prepVolunteers := r.prepVolunteers, trackings := r.trackings,
                     trackingVolunteers := r.trackingVolunteers)
  {
    var d := DeleteTrackings(DeletePreparations(db, PreparationsFor(db.preparations, ids)),
                             TrackingsFor(db.trackings, ids));
    d.(requests := db.requests - ids)
  }

  /** Deleting a relief center takes its resources, its volunteers and its donations, and what those take. */
  function DeleteCenter(db: Db, c: int): (r: Db)
    ensures r == db.(centers := r.centers, resources := r.resources, usages := r.usages,
                     volunteers := r.volunteers, volunteerSkills := r.volunteerSkills, donations := r.donations)
  {
    var d := DeleteVolunteers(DeleteResources(db, ResourcesAt(db.resources, c)), VolunteersAt(db.volunteers, c));
    DeleteDonations(d, DonationsAt(db.donations, c)).(centers := db.centers - {c})
  }

  /** Deleting a user takes the user's aid requests, donations and volunteers, and what those take. */
  function DeleteUser(db: Db, u: int): (r: Db)
    ensures r.centers == db.centers && r.resources == db.resources && r.skills == db.skills
  {
    var d := DeleteDonations(DeleteRequests(db, RequestsBy(db.requests, u)), DonationsBy(db.donations, u));
    DeleteVolunteers(d, VolunteersOf(db.volunteers, u)).(users := db.users - {u})
  }

  /** Deleting requests takes exactly their preparations and trackings. */
  lemma DeleteRequestsTakes(db: Db, ids: set<int>)
    ensures var r := DeleteRequests(db, ids);
      && (forall k :: k in r.requests <==> k in db.requests && k !in ids)
      && (forall k :: k in r.preparations <==> k in db.preparations && db.preparations[k].requestId !in ids)
      && (forall k :: k in r.trackings <==> k in db.trackings && db.trackings[k].requestId !in ids)
  {
  }

  /** Deleting a center takes exactly its resources, assigned volunteers and donations. */
  lemma DeleteCenterTakes(db: Db, c: int)
    ensures var r := DeleteCenter(db, c);
      && (forall k :: k in r.centers <==> k in db.centers && k != c)
      && (forall k :: k in r.resources <==> k in db.resources && db.resources[k].centerId != c)
      && (forall k :: k in r.volunteers <==> k in db.volunteers && db.volunteers[k].assignedCenter != Some(c))
      && (forall k :: k in r.donations <==> k in db.donations && db.donations[k].centerId != c)
  {
  }

  /** Deleting a user takes exactly the user's requests, donations and volunteer records. */
  lemma DeleteUserTakes(db: Db, u: int)
    ensures var r := DeleteUser(db, u);
      && (forall k :: k in r.users <==> k in db.users && k != u)
      && (forall k :: k in r.requests <==> k in db.requests && db.requests[k].userId != u)
      && (forall k :: k in r.donations <==> k in db.donations && db.donations[k].userId != u)
      && (forall k :: k in r.volunteers <==> k in db.volunteers && db.volunteers[k].userId != u)
  {
  }

  /** Deleting a user leaves no donation and no aid request of that user. */
  lemma DeleteUserLeavesNone(db: Db, u: int)
    ensures forall k :: k in DeleteUser(db, u).donations ==> DeleteUser(db, u).donations[k].userId != u
    ensures forall k :: k in DeleteUser(db, u).requests ==> DeleteUser(db, u).requests[k].userId != u
  {
    DeleteUserTakes(db, u);
  }

  /** Removing some of a user's volunteer records first changes nothing about what deleting the user leaves. */
  lemma DeleteUserAfterVolunteers(db: Db, u: int, ids: set<int>)
    requires forall k :: k in ids ==> k in db.volunteers && db.volunteers[k].userId == u
    ensures DeleteUser(DeleteVolunteers(db, ids), u) == DeleteUser(db, u)
  {
    var d0 := DeleteVolunteers(db, ids);
    var mine := VolunteersOf(db.volunteers, u);
    var rest := VolunteersOf(d0.volunteers, u);
    var requests, donations := RequestsBy(db.requests, u), DonationsBy(db.donations, u);
    assert RequestsBy(d0.requests, u) == requests;
    assert DonationsBy(d0.donations, u) == donations;
    var e0 := DeleteDonations(DeleteRequests(d0, requests), donations);
    var e := DeleteDonations(DeleteRequests(db, requests), donations);
    assert e0 == e.(volunteers := d0.volunteers, volunteerSkills := d0.volunteerSkills);
    forall k
      ensures k in d0.volunteers - rest <==> k in db.volunteers - mine
    {
      assert k in ids ==> k in mine;
    }
    assert d0.volunteers - rest == db.volunteers - mine;
    assert PairsOffVolunteers(d0.volunteerSkills, rest) == PairsOffVolunteers(db.volunteerSkills, mine);
  }

  /** Removing a user's donations first changes nothing about what deleting the user leaves. */
  lemma DeleteUserAfterDonations(db: Db, u: int)
    ensures DeleteUser(DeleteDonations(db, DonationsBy(db.donations, u)), u) == DeleteUser(db, u)
  {
    var d0 := DeleteDonations(db, DonationsBy(db.donations, u));
    assert DonationsBy(d0.donations, u) == {};
    assert d0.donations - DonationsBy(d0.donations, u) == db.donations - DonationsBy(db.donations, u);
  }
}
