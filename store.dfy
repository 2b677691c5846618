/**
 * The service layer over DrcsContext: one store object holding every table as
 * a map keyed by its generated id, and one method per service operation. Each
 * operation is one transaction: its failure paths leave the store unchanged.
 */
module DrcsStore {
  import opened Wrappers
  import opened Entities
  import opened Schema
  import Integrity
  import Ledger
  import Capacity
  import Lifecycle
  import Checks
  import Staff
  import Roles
  import Text

  class Store {
    /** The tables of the context, one map per DbSet. */
    var db: Db
    /** The next value of the identity columns. */
    var nextId: int

    /** Every stored key was generated before `nextId`. */
    ghost predicate Valid()
      reads this
    {
      Integrity.KeysBelow(db, nextId)
    }

    constructor ()
      ensures Valid()
      ensures db == Db(map[], map[], map[], map[], map[], map[], map[], map[], map[], map[], map[], map[], {})
    {
      db := Db(map[], map[], map[], map[], map[], map[], map[], map[], map[], map[], map[], map[], {});
      nextId := 1;
    }

    /** Takes the next identity value. */
    method NewId() returns (id: int)
      modifies this
      ensures id == old(nextId) && nextId == id + 1 && db == old(db)
    {
      id := nextId;
      nextId := nextId + 1;
    }

    // ----- AidPreparationService -----

    /**
     * The preparation of a request: an existing one is returned as it is;
     * otherwise a new one in status Preparing with minimal times.
     */
    method CreateAidPreparation(requestId: int) returns (id: int, prep: AidPreparation)
      requires Valid()
      modifies this
      ensures Valid()
      ensures id in db.preparations && db.preparations[id] == prep && prep.requestId == requestId
      ensures (exists k :: k in old(db.preparations) && old(db.preparations)[k].requestId == requestId) ==>
        id in old(db.preparations) && unchanged(this)
      ensures (forall k :: k in old(db.preparations) ==> old(db.preparations)[k].requestId != requestId) ==>
        && id == old(nextId) && nextId == id + 1
        && prep == AidPreparation(requestId, Some(MinTime), Some(MinTime), StatusPreparing)
        && db == old(db).(preparations := old(db.preparations)[id := prep])
        && (forall k :: k in db.preparations && db.preparations[k].requestId == requestId ==> k == id)
      ensures Lifecycle.OnePreparationPerRequest(old(db.preparations)) ==> Lifecycle.OnePreparationPerRequest(db.preparations)
    {
      if k :| k in db.preparations && db.preparations[k].requestId == requestId {
        return k, db.preparations[k];
      }
      id := NewId();
      prep := AidPreparation(requestId, Some(MinTime), Some(MinTime), StatusPreparing);
      Lifecycle.AddPreparationKeepsOnePerRequest(db.preparations, id, prep);
      db := db.(preparations := db.preparations[id := prep]);
    }

    /** Overwrites both times of a preparation. */
    method UpdateAidPreparationTimes(id: int, departure: Time, arrival: Time) returns (r: Outcome<Error>)
      requires Valid()
      modifies this
      ensures Valid()
      ensures r == (if id in old(db.preparations) then Pass else Fail(PreparationNotFound))
      ensures r.Fail? ==> unchanged(this)
      ensures r.Pass? ==>
        && db == old(db).(preparations := old(db.preparations)[id := old(db.preparations)[id]
                                                      .(departure := Some(departure), arrival := Some(arrival))])
        && nextId == old(nextId)
    {
      if id !in db.preparations {
        return Fail(PreparationNotFound);
      }
      db := db.(preparations := db.preparations[id := db.preparations[id].(departure := Some(departure), arrival := Some(arrival))]);
      return Pass;
    }

    /** Overwrites the status of a preparation with any string. */
    method UpdateAidPrepStatus(id: int, status: string) returns (r: Outcome<Error>)
      requires Valid()
      modifies this
      ensures Valid()
      ensures r == (if id in old(db.preparations) then Pass else Fail(PreparationNotFound))
      ensures r.Fail? ==> unchanged(this)
      ensures r.Pass? ==>
        && db == old(db).(preparations := old(db.preparations)[id := old(db.preparations)[id].(status := status)])
        && nextId == old(nextId)
    {
      if id !in db.preparations {
        return Fail(PreparationNotFound);
      }
      db := db.(preparations := db.preparations[id := db.preparations[id].(status := status)]);
      return Pass;
    }

    /**
     * Puts a volunteer on a preparation. An unknown volunteer fails; an
     * existing pair is returned instead of a second one.
     */
    method AddVolunteer(preparationId: int, volunteerId: int) returns (r: Result<int, Error>)
      requires Valid()
      modifies this
      ensures Valid()
      ensures r.Err? <==> volunteerId !in old(db.volunteers)
      ensures r.Err? ==> r.error == VolunteerNotFound && unchanged(this)
      ensures r.Ok? ==>
        r.value in db.prepVolunteers && db.prepVolunteers[r.value] == PreparationVolunteer(preparationId, volunteerId)
      ensures r.Ok? && r.value in old(db.prepVolunteers) ==> unchanged(this)
      ensures r.Ok? && r.value !in old(db.prepVolunteers) ==>
        && (forall k :: k in old(db.prepVolunteers) ==>
              old(db.prepVolunteers)[k] != PreparationVolunteer(preparationId, volunteerId))
        && r.value == old(nextId) && nextId == r.value + 1
        && db == old(db).(prepVolunteers := old(db.prepVolunteers)[r.value :=
                                         PreparationVolunteer(preparationId, volunteerId)])
    {
      if volunteerId !in db.volunteers {
        return Err(VolunteerNotFound);
      }
      var pair := PreparationVolunteer(preparationId, volunteerId);
      if k :| k in db.prepVolunteers && db.prepVolunteers[k] == pair {
        return Ok(k);
      }
      var id := NewId();
      db := db.(prepVolunteers := db.prepVolunteers[id := pair]);
      return Ok(id);
    }

    /** Re-points a preparation-volunteer row at another existing volunteer; duplicates are not checked. */
    method UpdateVolunteer(recordId: int, volunteerId: int) returns (r: Outcome<Error>)
      requires Valid()
      modifies this
      ensures Valid()
      ensures r == (if recordId !in old(db.prepVolunteers) then Fail(VolunteerRecordNotFound)
                    else if volunteerId !in old(db.volunteers) then Fail(VolunteerNotFound)
                    else Pass)
      ensures r.Fail? ==> unchanged(this)
      ensures r.Pass? ==>
        && db == old(db).(prepVolunteers := old(db.prepVolunteers)[recordId :=
                                         old(db.prepVolunteers)[recordId].(volunteerId := volunteerId)])
        && nextId == old(nextId)
    {
      if recordId !in db.prepVolunteers {
        return Fail(VolunteerRecordNotFound);
      }
      if volunteerId !in db.volunteers {
        return Fail(VolunteerNotFound);
      }
      db := db.(prepVolunteers := db.prepVolunteers[recordId := db.prepVolunteers[recordId].(volunteerId := volunteerId)]);
      return Pass;
    }

    /** Removes a preparation-volunteer row. */
    method DeleteVolunteer(recordId: int) returns (r: Outcome<Error>)
      requires Valid()
      modifies this
      ensures Valid()
      ensures r == (if recordId in old(db.prepVolunteers) then Pass else Fail(VolunteerRecordNotFound))
      ensures r.Fail? ==> unchanged(this)
      ensures r.Pass? ==>
        db == old(db).(prepVolunteers := old(db.prepVolunteers) - {recordId}) && nextId == old(nextId)
    {
      if recordId !in db.prepVolunteers {
        return Fail(VolunteerRecordNotFound);
      }
      db := db.(prepVolunteers := db.prepVolunteers - {recordId});
      return Pass;
    }

    /**
     * Takes `quantity` of a resource for a preparation: the debit and the new
     * usage row commit together, or nothing changes.
     */
    method AddResourceUsage(preparationId: int, resourceId: int, quantity: int) returns (r: Result<int, Error>)
      requires Valid()
      modifies this
      ensures Valid()
      ensures r.Err? <==> Ledger.DebitResource(old(db.resources), resourceId, quantity).Err?
      ensures r.Err? ==> r.error == Ledger.DebitResource(old(db.resources), resourceId, quantity).error && unchanged(this)
      ensures r.Ok? ==>
        && r.value == old(nextId) && nextId == r.value + 1
        && db == old(db).(resources := Ledger.DebitResource(old(db.resources), resourceId, quantity).value,
                                      usages := old(db.usages)[r.value := ResourceUsage(preparationId, resourceId, quantity)])
      ensures r.Ok? ==>
        GetResources(preparationId) == old(GetResources(preparationId))[r.value := ResourceUsage(preparationId, resourceId, quantity)]
    {
      var debit := Ledger.DebitResource(db.resources, resourceId, quantity);
      if debit.Err? {
        return Err(debit.error);
      }
      var id := NewId();
      db := db.(resources := debit.value, usages := db.usages[id := ResourceUsage(preparationId, resourceId, quantity)]);
      return Ok(id);
    }

    /** The usage rows of a preparation. */
    function GetResources(preparationId: int): (r: map<int, ResourceUsage>)
      reads this
      ensures forall k :: k in r <==> k in db.usages && db.usages[k].preparationId == preparationId
      ensures forall k :: k in r ==> r[k] == db.usages[k]
    {
      map k | k in db.usages && db.usages[k].preparationId == preparationId :: db.usages[k]
    }

    /** Rewrites a usage row's resource and quantity; no stock moves. */
    method UpdateResourceUsage(usageId: int, resourceId: int, quantity: int) returns (r: Outcome<Error>)
      requires Valid()
      modifies this
      ensures Valid()
      ensures r == (if usageId in old(db.usages) then Pass else Fail(UsageNotFound))
      ensures r.Fail? ==> unchanged(this)
      ensures r.Pass? ==>
        && db == old(db).(usages := old(db.usages)[usageId := ResourceUsage(
                                         old(db.usages)[usageId].preparationId, resourceId, quantity)])
        && nextId == old(nextId)
      ensures db.resources == old(db.resources)
    {
      if usageId !in db.usages {
        return Fail(UsageNotFound);
      }
      db := db.(usages := db.usages[usageId := ResourceUsage(db.usages[usageId].preparationId, resourceId, quantity)]);
      return Pass;
    }

    /** Removes a usage row; the stock it took is not credited back. */
    method DeleteResourceUsage(usageId: int) returns (r: Outcome<Error>)
      requires Valid()
      modifies this
      ensures Valid()
      ensures r == (if usageId in old(db.usages) then Pass else Fail(UsageNotFound))
      ensures r.Fail? ==> unchanged(this)
      ensures r.Pass? ==> db == old(db).(usages := old(db.usages) - {usageId}) && nextId == old(nextId)
      ensures r.Pass? ==> forall p :: usageId !in GetResources(p)
      ensures db.resources == old(db.resources)
    {
      if usageId !in db.usages {
        return Fail(UsageNotFound);
      }
      db := db.(usages := db.usages - {usageId});
      return Pass;
    }

    // ----- ResourceService -----

    /** Adds a resource row as given. */
    method CreateResource(resource: Resource) returns (id: int)
      requires Valid()
      modifies this
      ensures Valid()
      ensures id == old(nextId) && nextId == id + 1
      ensures db == old(db).(resources := old(db.resources)[id := resource])
      ensures GetResourceById(id) == Ok(resource)
    {
      id := NewId();
      db := db.(resources := db.resources[id := resource]);
    }

    /**
     * Overwrites a resource: a null type keeps the old one; quantity, expiry
     * and center are written as given, with no check on the quantity.
     */
    method UpdateResource(id: int, resourceType: Option<string>, quantity: int, expiration: Option<Time>, centerId: int)
      returns (r: Result<Resource, Error>)
      requires Valid()
      modifies this
      ensures Valid()
      ensures r.Err? <==> id !in old(db.resources)
      ensures r.Err? ==> r.error == ResourceNotFound && unchanged(this)
      ensures r.Ok? ==>
        && r.value.resourceType == (if resourceType.Some? then resourceType.value else old(db.resources)[id].resourceType)
        && r.value.quantity == quantity && r.value.expiration == expiration && r.value.centerId == centerId
        && db == old(db).(resources := old(db.resources)[id := r.value])
        && nextId == old(nextId)
      ensures r.Ok? ==> GetResourceById(id) == r
    {
      if id !in db.resources {
        return Err(ResourceNotFound);
      }
      var kept := if resourceType.Some? then resourceType.value else db.resources[id].resourceType;
      var updated := Resource(kept, quantity, expiration, centerId);
      db := db.(resources := db.resources[id := updated]);
      return Ok(updated);
    }

    /** Deletes a resource and, by cascade, its usage rows. */
    method DeleteResource(id: int) returns (r: Outcome<Error>)
      requires Valid()
      modifies this
      ensures Valid()
      ensures r == (if id in old(db.resources) then Pass else Fail(ResourceNotFound))
      ensures r.Fail? ==> unchanged(this)
      ensures r.Pass? ==> db == DeleteResources(old(db), {id}) && nextId == old(nextId)
      ensures r.Pass? ==> GetResourceById(id) == Err(ResourceNotFound)
      ensures r.Pass? ==> forall p, k :: k in GetResources(p) ==> GetResources(p)[k].resourceId != id
    {
      if id !in db.resources {
        return Fail(ResourceNotFound);
      }
      var d := DeleteResources(db, {id});
      Integrity.DeleteResourcesShrinks(db, {id});
      db := d;
      return Pass;
    }

    /** One resource, or ResourceNotFound. */
    function GetResourceById(id: int): (r: Result<Resource, Error>)
      reads this
      ensures r.Ok? <==> id in db.resources
      ensures r.Ok? ==> r.value == db.resources[id]
      ensures r.Err? ==> r.error == ResourceNotFound
    {
      if id in db.resources then Ok(db.resources[id]) else Err(ResourceNotFound)
    }

    /**
     * The credit of donated stock: a row of center `c` with exactly type `t`
     * (case-sensitive) gains `quantity`; failing that, a new row is added.
     */
    method CreditStock(c: int, t: string, quantity: int, expiry: Option<Time>) returns (id: int)
      requires Valid()
      modifies this
      ensures Valid()
      ensures Ledger.Credited(old(db.resources), db.resources, id, old(nextId), c, t, quantity, expiry)
      ensures db == old(db).(resources := db.resources)
      ensures nextId == old(nextId) + (if Ledger.HasExactMatch(old(db.resources), c, t) then 0 else 1)
    {
      if k :| k in db.resources && Ledger.ExactMatch(db.resources, k, c, t) {
        id := k;
        db := db.(resources := Ledger.CreditResource(db.resources, id, quantity));
      } else {
        id := NewId();
        db := db.(resources := db.resources[id := Resource(t, quantity, expiry, c)]);
      }
    }

    /**
     * UpdateResourceFromDonationAsync: the donation's quantity credited to its
     * center under its type. `expiry` is the date six months after the
     * donation's receipt date, or after now when it has none; only a new row
     * takes it.
     */
    method UpdateResourceFromDonation(donation: Donation, expiry: Time) returns (id: int)
      requires Valid()
      modifies this
      ensures Valid()
      ensures Ledger.Credited(old(db.resources), db.resources, id, old(nextId),
                              donation.centerId, donation.donationType, donation.quantity, Some(expiry))
      ensures db == old(db).(resources := db.resources)
      ensures nextId == old(nextId) + (if Ledger.HasExactMatch(old(db.resources), donation.centerId,
                                                               donation.donationType) then 0 else 1)
    {
      id := CreditStock(donation.centerId, donation.donationType, donation.quantity, Some(expiry));
    }

    /** Debits the stock a usage row names, without adding the row. */
    method DeductResourceForAidPreparation(usage: ResourceUsage) returns (r: Result<Resource, Error>)
      requires Valid()
      modifies this
      ensures Valid()
      ensures var debit := Ledger.DebitResource(old(db.resources), usage.resourceId, usage.quantityUsed);
        && (r.Err? <==> debit.Err?)
        && (r.Err? ==> r.error == debit.error && unchanged(this))
        && (r.Ok? ==>
              && r.value == debit.value[usage.resourceId]
              && db == old(db).(resources := debit.value)
              && nextId == old(nextId))
      ensures r.Ok? ==> GetResourceById(usage.resourceId) == r
    {
      var debit := Ledger.DebitResource(db.resources, usage.resourceId, usage.quantityUsed);
      if debit.Err? {
        return Err(debit.error);
      }
      db := db.(resources := debit.value);
      return Ok(db.resources[usage.resourceId]);
    }

    // ----- DonationService -----

    /**
     * A donation by a known user to a known center, dated `now`, and its
     * credit: the center's row with exactly that type gains the quantity, or a
     * new row without expiry is added. Both commit or neither. `credited` is
     * the resource row that took the quantity.
     */
    method CreateDonation(userId: int, donationType: string, quantity: int, centerId: int, now: Time)
      returns (r: Result<int, Error>, credited: int)
      requires Valid()
      modifies this
      ensures Valid()
      ensures r == (if userId !in old(db.users) then Err(UserNotFound)
                    else if centerId !in old(db.centers) then Err(CenterNotFound)
                    else Ok(old(nextId)))
      ensures r.Err? ==> unchanged(this)
      ensures r.Ok? ==>
        && db.donations == old(db.donations)[r.value :=
             Donation(old(db.users)[userId].name, donationType, quantity, Some(now), centerId, userId)]
        && db == old(db).(donations := db.donations, resources := db.resources)
      ensures r.Ok? ==> GetUserDonations(userId) == old(GetUserDonations(userId))[r.value :=
        Donation(old(db.users)[userId].name, donationType, quantity, Some(now), centerId, userId)]
      ensures r.Ok? ==>
        && Ledger.Credited(old(db.resources), db.resources, credited, old(nextId) + 1,
                           centerId, donationType, quantity, None)
        && nextId == old(nextId) + (if Ledger.HasExactMatch(old(db.resources), centerId, donationType) then 1 else 2)
    {
      credited := 0;
      if userId !in db.users {
        r := Err(UserNotFound);
      } else if centerId !in db.centers {
        r := Err(CenterNotFound);
      } else {
        var id := AddDonationRow(Donation(db.users[userId].name, donationType, quantity, Some(now), centerId, userId));
        credited := CreditStock(centerId, donationType, quantity, None);
        r := Ok(id);
      }
    }

    /** Adds a donation row. */
    method AddDonationRow(donation: Donation) returns (id: int)
      requires Valid()
      modifies this
      ensures Valid()
      ensures id == old(nextId) && nextId == id + 1
      ensures db == old(db).(donations := old(db.donations)[id := donation])
    {
      id := NewId();
      db := db.(donations := db.donations[id := donation]);
    }

    /** The donations of one user. */
    function GetUserDonations(userId: int): (r: map<int, Donation>)
      reads this
      ensures forall k :: k in r <==> k in db.donations && db.donations[k].userId == userId
      ensures forall k :: k in r ==> r[k] == db.donations[k]
    {
      map k | k in db.donations && db.donations[k].userId == userId :: db.donations[k]
    }

    // ----- ResourceController: the admin paths -----

    /**
     * Store: only an Admin may create; a row of the same center whose
     * lower-cased type equals the trimmed, lower-cased request is a duplicate;
     * the stored type is the trimmed input.
     */
    method StoreResource(role: string, resourceType: string, quantity: int, expiration: Option<Time>, centerId: int)
      returns (r: Result<int, Error>)
      requires Valid()
      modifies this
      ensures Valid()
      ensures r == Err(Forbidden) <==> role != RoleAdmin
      ensures r == Err(DuplicateResourceType) <==>
        role == RoleAdmin && Ledger.DuplicateType(old(db.resources), centerId, resourceType, None)
      ensures r.Err? ==> unchanged(this)
      ensures r.Ok? ==>
        && r.value == old(nextId) && nextId == r.value + 1
        && db == old(db).(resources := old(db.resources)[r.value :=
             Resource(Text.Trim(resourceType), quantity, expiration, centerId)])
    {
      if role != RoleAdmin {
        return Err(Forbidden);
      }
      if Ledger.DuplicateType(db.resources, centerId, resourceType, None) {
        return Err(DuplicateResourceType);
      }
      var id := CreateResource(Resource(Text.Trim(resourceType), quantity, expiration, centerId));
      return Ok(id);
    }

    /** Update: the role gate, the duplicate check excluding the row itself, then UpdateResource. */
    method UpdateResourceAsAdmin(role: string, id: int, resourceType: string, quantity: int,
                                 expiration: Option<Time>, centerId: int)
      returns (r: Result<Resource, Error>)
      requires Valid()
      modifies this
      ensures Valid()
      ensures r == Err(Forbidden) <==> role != RoleAdmin
      ensures r == Err(DuplicateResourceType) <==>
        role == RoleAdmin && Ledger.DuplicateType(old(db.resources), centerId, resourceType, Some(id))
      ensures r == Err(ResourceNotFound) <==>
        role == RoleAdmin && !Ledger.DuplicateType(old(db.resources), centerId, resourceType, Some(id))
        && id !in old(db.resources)
      ensures r.Err? ==> unchanged(this)
      ensures r.Ok? ==>
        && r.value == Resource(Text.Trim(resourceType), quantity, expiration, centerId)
        && db == old(db).(resources := old(db.resources)[id := r.value])
        && nextId == old(nextId)
    {
      if role != RoleAdmin {
        return Err(Forbidden);
      }
      if Ledger.DuplicateType(db.resources, centerId, resourceType, Some(id)) {
        return Err(DuplicateResourceType);
      }
      r := UpdateResource(id, Some(Text.Trim(resourceType)), quantity, expiration, centerId);
    }

    /** Destroy: the role gate, then DeleteResource. */
    method DestroyResource(role: string, id: int) returns (r: Outcome<Error>)
      requires Valid()
      modifies this
      ensures Valid()
      ensures r == (if role != RoleAdmin then Fail(Forbidden)
                    else if id !in old(db.resources) then Fail(ResourceNotFound)
                    else Pass)
      ensures r.Fail? ==> unchanged(this)
      ensures r.Pass? ==> db == DeleteResources(old(db), {id}) && nextId == old(nextId)
      ensures r.Pass? ==> GetResourceById(id) == Err(ResourceNotFound)
      ensures r.Pass? ==> forall p, k :: k in GetResources(p) ==> GetResources(p)[k].resourceId != id
    {
      if role != RoleAdmin {
        return Fail(Forbidden);
      }
      r := DeleteResource(id);
    }

    // ----- RelifCenterService -----

    /** The recount: the center's count becomes the number of its Active volunteers; an unknown center is a no-op. */
    method UpdateVolunteerCount(centerId: int)
      requires Valid()
      modifies this
      ensures Valid()
      ensures db == old(db).(centers := Capacity.WithRecount(old(db.centers), old(db.volunteers), centerId))
      ensures nextId == old(nextId)
      ensures centerId in db.centers ==> db.centers[centerId].volunteersWorking == Capacity.Recount(db.volunteers, centerId)
    {
      db := db.(centers := Capacity.WithRecount(db.centers, db.volunteers, centerId));
    }

    /** A new center, unless another's name equals its name ignoring case; the count starts at 0. */
    method CreateReliefCenter(center: ReliefCenter) returns (r: Result<int, Error>)
      requires Valid()
      modifies this
      ensures Valid()
      ensures r.Err? <==> Checks.CenterNameTaken(old(db.centers), center.name, None)
      ensures r.Err? ==> r.error == DuplicateCenterName && unchanged(this)
      ensures r.Ok? ==>
        && r.value == old(nextId) && nextId == r.value + 1
        && db == old(db).(centers := old(db.centers)[r.value := center.(volunteersWorking := 0)])
      ensures r.Ok? ==> GetReliefCenterById(r.value) == Ok(center.(volunteersWorking := 0))
    {
      if Checks.CenterNameTaken(db.centers, center.name, None) {
        return Err(DuplicateCenterName);
      }
      var id := NewId();
      db := db.(centers := db.centers[id := center.(volunteersWorking := 0)]);
      return Ok(id);
    }

    /**
     * Overwrites name, location, capacity and manager of a center, unless
     * another center has the new name ignoring case; the count is kept.
     */
    method UpdateReliefCenter(id: int, update: ReliefCenter) returns (r: Result<ReliefCenter, Error>)
      requires Valid()
      modifies this
      ensures Valid()
      ensures r == Err(CenterNotFound) <==> id !in old(db.centers)
      ensures r == Err(DuplicateCenterName) <==>
        id in old(db.centers) && Checks.CenterNameTaken(old(db.centers), update.name, Some(id))
      ensures r.Err? ==> unchanged(this)
      ensures r.Ok? ==>
        && r.value == update.(volunteersWorking := old(db.centers)[id].volunteersWorking)
        && db == old(db).(centers := old(db.centers)[id := r.value])
        && nextId == old(nextId)
      ensures r.Ok? ==> GetReliefCenterById(id) == r
    {
      if id !in db.centers {
        return Err(CenterNotFound);
      }
      if Checks.CenterNameTaken(db.centers, update.name, Some(id)) {
        return Err(DuplicateCenterName);
      }
      var updated := db.centers[id].(name := update.name, location := update.location,
                                  maxCapacity := update.maxCapacity, managerId := update.managerId);
      db := db.(centers := db.centers[id := updated]);
      return Ok(updated);
    }

    /**
     * Deletes a center: first every user behind one of its volunteers who has
     * the role Volunteer becomes a User, then the center goes with its
     * resources, volunteers and donations.
     */
    method DeleteReliefCenter(centerId: int) returns (r: Outcome<Error>)
      requires Valid()
      modifies this
      ensures Valid()
      ensures r == (if centerId in old(db.centers) then Pass else Fail(CenterNotFound))
      ensures r.Fail? ==> unchanged(this)
      ensures r.Pass? ==>
        && db == DeleteCenter(old(db).(users := Staff.Downgrade(old(db.users),
             Staff.UsersBehind(old(db.volunteers), VolunteersAt(old(db.volunteers), centerId)))), centerId)
        && nextId == old(nextId)
      ensures r.Pass? ==> GetReliefCenterById(centerId) == Err(CenterNotFound)
    {
      if centerId !in db.centers {
        return Fail(CenterNotFound);
      }
      var users := Staff.DowngradeAll(db.users, db.volunteers, VolunteersAt(db.volunteers, centerId));
      db := db.(users := users);
      var d := DeleteCenter(db, centerId);
      Integrity.DeleteCenterShrinks(db, centerId);
      Integrity.ShrinksKeepsKeysBelow(db, d, nextId);
      db := d;
      return Pass;
    }

    /** One center, or CenterNotFound. */
    function GetReliefCenterById(id: int): (r: Result<ReliefCenter, Error>)
      reads this
      ensures r.Ok? <==> id in db.centers
      ensures r.Ok? ==> r.value == db.centers[id]
      ensures r.Err? ==> r.error == CenterNotFound
    {
      if id in db.centers then Ok(db.centers[id]) else Err(CenterNotFound)
    }

    // ----- UserService -----

    /** The incremental count update: add `change` and clamp at zero; an unknown center is a no-op. */
    method AdjustVolunteerCount(centerId: int, change: int)
      requires Valid()
      modifies this
      ensures Valid()
      ensures db == old(db).(centers := Capacity.WithAdjusted(old(db.centers), centerId, change))
      ensures nextId == old(nextId)
    {
      db := db.(centers := Capacity.WithAdjusted(db.centers, centerId, change));
    }

    /**
     * The volunteer record of a user, if any (the first match, when the
     * table holds several).
     */
    method VolunteerIdOf(userId: int) returns (record: Option<int>)
      ensures record.Some? ==> record.value in db.volunteers && db.volunteers[record.value].userId == userId
      ensures record.None? ==> forall k :: k in db.volunteers ==> db.volunteers[k].userId != userId
    {
      if k :| k in db.volunteers && db.volunteers[k].userId == userId {
        return Some(k);
      }
      return None;
    }

    /** The volunteer record of a user with the role Volunteer, when the one found has a center. */
    method CenteredVolunteerOf(id: int) returns (record: Option<int>)
      requires id in db.users
      ensures Roles.CenteredRecordOf(db, id, record)
    {
      if db.users[id].role == RoleVolunteer {
        var found := VolunteerIdOf(id);
        if found.Some? {
          var k := found.value;
          if db.volunteers[k].assignedCenter.Some? {
            return found;
          }
          assert db.volunteers[k].userId == id && db.volunteers[k].assignedCenter.None?;
        }
      }
      return None;
    }

    /** Adds a user row. */
    method AddUserRow(u: User) returns (id: int)
      requires Valid()
      modifies this
      ensures Valid()
      ensures id == old(nextId) && nextId == id + 1
      ensures db == old(db).(users := old(db.users)[id := u])
    {
      id := NewId();
      db := db.(users := db.users[id := u]);
    }

    /** Adds volunteer-skill pairs. */
    method AddSkillPairs(pairs: set<VolunteerSkill>)
      requires Valid()
      modifies this
      ensures Valid()
      ensures nextId == old(nextId)
      ensures db == old(db).(volunteerSkills := old(db.volunteerSkills) + pairs)
    {
      db := db.(volunteerSkills := db.volunteerSkills + pairs);
    }

    /** Adds a volunteer row. */
    method AddVolunteerRow(v: Volunteer) returns (id: int)
      requires Valid() && v.userId < nextId
      modifies this
      ensures Valid()
      ensures id == old(nextId) && nextId == id + 1
      ensures db == old(db).(volunteers := old(db.volunteers)[id := v])
    {
      id := NewId();
      db := db.(volunteers := db.volunteers[id := v]);
    }

    /**
     * Adds a user; a user with the role Volunteer and a center also gets an
     * Active volunteer record there, and the center's count goes up by one.
     */
    method CreateUser(user: User, center: Option<int>) returns (id: int)
      requires Valid()
      modifies this
      ensures Valid()
      ensures id == old(nextId)
      ensures user.role == RoleVolunteer && center.Some? ==>
        && nextId == old(nextId) + 2
        && db == old(db).(users := old(db.users)[id := user],
                          volunteers := old(db.volunteers)[id + 1 := Volunteer(user.name, user.phone, center, StatusActive, id)],
                          centers := Capacity.WithAdjusted(old(db.centers), center.value, 1))
      ensures !(user.role == RoleVolunteer && center.Some?) ==>
        nextId == old(nextId) + 1 && db == old(db).(users := old(db.users)[id := user])
      ensures Capacity.InSync(old(db.centers), old(db.volunteers)) ==> Capacity.InSync(db.centers, db.volunteers)
    {
      id := AddUserRow(user);
      if user.role == RoleVolunteer && center.Some? {
        var v := Volunteer(user.name, user.phone, center, StatusActive, id);
        if Capacity.InSync(db.centers, db.volunteers) {
          Capacity.AddActiveKeepsInSync(db.centers, db.volunteers, nextId, v);
        }
        var _ := AddVolunteerRow(v);
        AdjustVolunteerCount(center.value, 1);
      }
    }

    /**
     * Overwrites a user's e-mail, name, role and phone, then follows the role
     * change: a user becoming a Volunteer with a center gets an Active
     * volunteer record (+1 there); a Volunteer staying one with a center moves
     * its record when the center differs (-1 at the old center if any, +1 at
     * the new); a Volunteer leaving the role loses its record (-1 at its
     * center if any). `record` is the volunteer record found for a user who was
     * a Volunteer.
     */
    method UpdateUser(id: int, update: User, center: Option<int>) returns (r: Result<User, Error>, record: Option<int>)
      requires Valid()
      modifies this
      ensures Valid()
      ensures r == (if id in old(db.users) then Ok(update) else Err(UserNotFound))
      ensures r.Err? ==> unchanged(this)
      ensures r.Ok? ==>
        && Roles.Looked(old(db), id, record) && Roles.RecordOf(old(db), id, record)
        && db == Roles.ChangeRole(old(db), old(nextId), id, update, center, record)
        && nextId == old(nextId) + if Roles.Classify(old(db), id, update, center, record).AddRecord? then 1 else 0
      ensures r.Ok? && Capacity.InSync(old(db.centers), old(db.volunteers))
              && (record.Some? ==> old(db.volunteers)[record.value].status == StatusActive) ==>
        Capacity.InSync(db.centers, db.volunteers)
    {
      record := None;
      if id !in db.users {
        return Err(UserNotFound), record;
      }
      var oldRole := db.users[id].role;
      if oldRole == RoleVolunteer {
        record := VolunteerIdOf(id);
      }
      var d := Roles.FollowRoleChange(db, nextId, id, update, center, record);
      Roles.ChangeRoleKeepsKeysBelow(db, nextId, id, update, center, record);
      Roles.ChangeRoleKeepsInSync(db, nextId, id, update, center, record);
      if Roles.Classify(db, id, update, center, record).AddRecord? {
        var _ := NewId();
      }
      db := d;
      return Ok(update), record;
    }

    /**
     * Deletes a user: a Volunteer's record with a center goes first (-1
     * there), then the user's donations, then the user with everything that
     * cascades from it. `record` is the volunteer record removed first.
     */
    method DeleteUser(id: int) returns (r: Outcome<Error>, record: Option<int>)
      requires Valid()
      modifies this
      ensures Valid()
      ensures r == (if id in old(db.users) then Pass else Fail(UserNotFound))
      ensures r.Fail? ==> unchanged(this)
      ensures r.Pass? ==> Roles.CenteredRecordOf(old(db), id, record)
      ensures r.Pass? ==>
        && nextId == old(nextId)
        && db == Schema.DeleteUser(old(db).(centers := Capacity.Released(old(db.centers), Roles.Released(old(db), record))), id)
      ensures r.Pass? ==> GetUserDonations(id) == map[] && GetRequestsByUser(id) == map[]
    {
      record := None;
      if id !in db.users {
        return Fail(UserNotFound), record;
      }
      record := CenteredVolunteerOf(id);
      var d := Roles.RemoveUser(db, id, record);
      ghost var start := db.(centers := Capacity.Released(db.centers, Roles.Released(db, record)));
      Integrity.DeleteUserShrinks(start, id);
      Integrity.ShrinksKeepsKeysBelow(start, d, nextId);
      Schema.DeleteUserLeavesNone(start, id);
      db := d;
      NothingLeftOf(id);
      return Pass, record;
    }

    /** With no row of the user left, neither query lists anything for the user. */
    lemma NothingLeftOf(id: int)
      requires forall k :: k in db.donations ==> db.donations[k].userId != id
      requires forall k :: k in db.requests ==> db.requests[k].userId != id
      ensures GetUserDonations(id) == map[] && GetRequestsByUser(id) == map[]
    {
      assert forall k :: k !in GetUserDonations(id);
      assert GetUserDonations(id).Keys == {};
      assert forall k :: k !in GetRequestsByUser(id);
    }

    // ----- AuthService -----

    /** A new user, unless the e-mail is taken; an empty role becomes User. */
    method RegisterUser(user: User) returns (r: Result<int, Error>)
      requires Valid()
      modifies this
      ensures Valid()
      ensures r == if Checks.EmailTaken(old(db.users), user.email) then Err(EmailExists) else Ok(old(nextId))
      ensures r.Err? ==> unchanged(this)
      ensures r.Ok? ==>
        && nextId == old(nextId) + 1
        && db == old(db).(users := old(db.users)[r.value := Checks.WithDefaultRole(user)])
      ensures Checks.UniqueEmails(old(db.users)) ==> Checks.UniqueEmails(db.users)
    {
      if Checks.EmailTaken(db.users, user.email) {
        return Err(EmailExists);
      }
      Checks.AddUserKeepsEmailsUnique(db.users, nextId, Checks.WithDefaultRole(user));
      var id := AddUserRow(Checks.WithDefaultRole(user));
      return Ok(id);
    }

    /**
     * Registers a volunteer: every check runs before the first write; then
     * the user (role Volunteer, the given phone), its Active volunteer
     * record at the center, one skill pair per distinct requested skill, and
     * a recount of the center. `vid` is the new record and `pairs` the skill
     * pairs in the order they are added.
     */
    method RegisterVolunteer(user: User, center: int, phone: string, skillIds: seq<int>)
      returns (r: Result<int, Error>, vid: int, pairs: seq<VolunteerSkill>)
      requires Valid()
      modifies this
      ensures Valid()
      ensures var check := Checks.CheckRegistration(old(db.skills), old(db.centers), old(db.users), user.email, center, skillIds);
        r == if check.Fail? then Err(check.error) else Ok(old(nextId))
      ensures r.Err? ==> unchanged(this)
      ensures r.Ok? ==>
        && vid == old(nextId) + 1 && nextId == old(nextId) + 2
        && |pairs| == |Checks.Distinct(skillIds)|
        && (forall i :: 0 <= i < |pairs| ==> pairs[i] == VolunteerSkill(vid, Checks.Distinct(skillIds)[i]))
        && var vols := old(db.volunteers)[vid := Volunteer(user.name, phone, Some(center), StatusActive, r.value)];
           db == old(db).(users := old(db.users)[r.value := user.(role := RoleVolunteer, phone := phone)],
                          volunteers := vols,
                          volunteerSkills := old(db.volunteerSkills) + (set p | p in pairs),
                          centers := Capacity.WithRecount(old(db.centers), vols, center))
      ensures r.Ok? && Capacity.InSync(old(db.centers), old(db.volunteers)) ==> Capacity.InSync(db.centers, db.volunteers)
      ensures Checks.UniqueEmails(old(db.users)) ==> Checks.UniqueEmails(db.users)
    {
      pairs := [];
      vid := 0;
      var check := Checks.CheckRegistration(db.skills, db.centers, db.users, user.email, center, skillIds);
      if check.Fail? {
        return Err(check.error), vid, pairs;
      }
      ghost var before := db;
      Checks.AddUserKeepsEmailsUnique(db.users, nextId, user.(role := RoleVolunteer, phone := phone));
      var uid := AddUserRow(user.(role := RoleVolunteer, phone := phone));
      var v := Volunteer(user.name, phone, Some(center), StatusActive, uid);
      vid := AddVolunteerRow(v);
      pairs := Checks.SkillPairs(vid, Checks.Distinct(skillIds));
      AddSkillPairs(set p | p in pairs);
      UpdateVolunteerCount(center);
      if Capacity.InSync(before.centers, before.volunteers) {
        Capacity.RecountKeepsInSync(before.centers, before.volunteers, vid, v, center);
      }
      return Ok(uid), vid, pairs;
    }

    /**
     * Removes a volunteer record and its user (with everything that cascades
     * from the user), then recounts the record's center; an unknown id is a
     * no-op.
     */
    method DeleteVolunteerCompletely(vid: int)
      requires Valid()
      modifies this
      ensures Valid()
      ensures vid !in old(db.volunteers) ==> unchanged(this)
      ensures vid in old(db.volunteers) ==>
        var v := old(db.volunteers)[vid];
        var d := if v.userId in old(db.users) then Schema.DeleteUser(old(db), v.userId)
                 else DeleteVolunteers(old(db), {vid});
        && nextId == old(nextId)
        && db == d.(centers := if v.assignedCenter.Some? then Capacity.WithRecount(d.centers, d.volunteers, v.assignedCenter.value)
                               else d.centers)
      ensures vid in old(db.volunteers) && old(db.volunteers)[vid].assignedCenter.Some? ==>
        var c := old(db.volunteers)[vid].assignedCenter.value;
        c in db.centers ==> db.centers[c].volunteersWorking == Capacity.Recount(db.volunteers, c)
    {
      if vid !in db.volunteers {
        return;
      }
      var v := db.volunteers[vid];
      var d := DeleteVolunteers(db, {vid});
      Integrity.DeleteVolunteersShrinks(db, {vid});
      if v.userId in d.users {
        Schema.DeleteUserAfterVolunteers(db, v.userId, {vid});
        Integrity.DeleteUserShrinks(d, v.userId);
        Integrity.ShrinksTransitive(db, d, Schema.DeleteUser(d, v.userId));
        d := Schema.DeleteUser(d, v.userId);
      }
      Integrity.ShrinksKeepsKeysBelow(db, d, nextId);
      db := d;
      if v.assignedCenter.Some? {
        UpdateVolunteerCount(v.assignedCenter.value);
      }
    }

    /**
     * Sets a volunteer's status and recounts its center; an unknown id is a
     * no-op. Counts in sync before stay in sync.
     */
    method UpdateVolunteerStatus(vid: int, status: string)
      requires Valid()
      modifies this
      ensures Valid()
      ensures vid !in old(db.volunteers) ==> unchanged(this)
      ensures vid in old(db.volunteers) ==>
        var v := old(db.volunteers)[vid];
        var vols := old(db.volunteers)[vid := v.(status := status)];
        && nextId == old(nextId)
        && db == old(db).(volunteers := vols,
                          centers := if v.assignedCenter.Some? then Capacity.WithRecount(old(db.centers), vols, v.assignedCenter.value)
                                     else old(db.centers))
      ensures Capacity.InSync(old(db.centers), old(db.volunteers)) ==> Capacity.InSync(db.centers, db.volunteers)
    {
      if vid !in db.volunteers {
        return;
      }
      var v := db.volunteers[vid];
      var w := v.(status := status);
      if v.assignedCenter.Some? && Capacity.InSync(db.centers, db.volunteers) {
        Capacity.RecountKeepsInSync(db.centers, db.volunteers, vid, w, v.assignedCenter.value);
      }
      if v.assignedCenter.None? && Capacity.InSync(db.centers, db.volunteers) {
        Capacity.UnassignedKeepsInSync(db.centers, db.volunteers, vid, w);
      }
      db := db.(volunteers := db.volunteers[vid := w]);
      if v.assignedCenter.Some? {
        UpdateVolunteerCount(v.assignedCenter.value);
      }
    }

    // ----- RescueTrackingService -----

    /**
     * A tracking for an aid request: the request must exist and not be
     * Completed and the status must be In Progress or Pending; then an
     * existing tracking of the request is returned as it is, or the new one
     * is added.
     */
    method CreateTracking(t: RescueTracking) returns (r: Result<int, Error>)
      requires Valid()
      modifies this
      ensures Valid()
      ensures var check := Lifecycle.CheckTrackingCreate(
                if t.requestId in old(db.requests) then Some(old(db.requests)[t.requestId]) else None, t.status);
        && (check.Fail? ==> r == Err(check.error) && unchanged(this))
        && (check.Pass? ==> r.Ok?)
      ensures r.Ok? && Lifecycle.HasTracking(old(db.trackings), t.requestId) ==>
        && r.value in old(db.trackings) && old(db.trackings)[r.value].requestId == t.requestId
        && unchanged(this)
      ensures r.Ok? && !Lifecycle.HasTracking(old(db.trackings), t.requestId) ==>
        && r.value == old(nextId) && nextId == r.value + 1
        && db == old(db).(trackings := old(db.trackings)[r.value := t])
      ensures Lifecycle.OneTrackingPerRequest(old(db.trackings)) ==> Lifecycle.OneTrackingPerRequest(db.trackings)
      ensures Lifecycle.AllCompletedHaveTime(old(db.trackings)) ==> Lifecycle.AllCompletedHaveTime(db.trackings)
    {
      var request := if t.requestId in db.requests then Some(db.requests[t.requestId]) else None;
      var check := Lifecycle.CheckTrackingCreate(request, t.status);
      if check.Fail? {
        return Err(check.error);
      }
      var existing := TrackingOf(t.requestId);
      if existing.Some? {
        return Ok(existing.value);
      }
      Lifecycle.CreatedHasTime(t);
      var id := AddTrackingRow(t);
      return Ok(id);
    }

    /** Adds a tracking for a request that has none. */
    method AddTrackingRow(t: RescueTracking) returns (id: int)
      requires Valid()
      requires !Lifecycle.HasTracking(db.trackings, t.requestId) && Lifecycle.CompletedHasTime(t)
      modifies this
      ensures Valid()
      ensures id == old(nextId) && nextId == id + 1
      ensures db == old(db).(trackings := old(db.trackings)[id := t])
      ensures Lifecycle.OneTrackingPerRequest(old(db.trackings)) ==> Lifecycle.OneTrackingPerRequest(db.trackings)
      ensures Lifecycle.AllCompletedHaveTime(old(db.trackings)) ==> Lifecycle.AllCompletedHaveTime(db.trackings)
    {
      id := NewId();
      Lifecycle.AddTrackingKeepsOnePerRequest(db.trackings, id, t);
      Lifecycle.AddKeepsAllCompletedHaveTime(db.trackings, id, t);
      db := db.(trackings := db.trackings[id := t]);
    }

    /** A tracking of the request, if any. */
    method TrackingOf(requestId: int) returns (found: Option<int>)
      ensures found.Some? ==> found.value in db.trackings && db.trackings[found.value].requestId == requestId
      ensures found.None? <==> !Lifecycle.HasTracking(db.trackings, requestId)
    {
      if k :| k in db.trackings && db.trackings[k].requestId == requestId {
        return Some(k);
      }
      return None;
    }

    /**
     * Updates a tracking's supplied fields after the status checks; an
     * unknown id gives no tracking and changes nothing.
     */
    method UpdateTrackingRecord(id: int, status: Option<string>, people: Option<int>, completion: Option<Time>)
      returns (r: Result<Option<RescueTracking>, Error>)
      requires Valid()
      modifies this
      ensures Valid()
      ensures id !in old(db.trackings) ==> r == Ok(None) && unchanged(this)
      ensures id in old(db.trackings) ==>
        var u := Lifecycle.UpdateTracking(old(db.trackings)[id], status, people, completion);
        && (u.Err? ==> r == Err(u.error) && unchanged(this))
        && (u.Ok? ==> r == Ok(Some(u.value)) && nextId == old(nextId)
                      && db == old(db).(trackings := old(db.trackings)[id := u.value]))
      ensures Lifecycle.AllCompletedHaveTime(old(db.trackings)) ==> Lifecycle.AllCompletedHaveTime(db.trackings)
    {
      if id !in db.trackings {
        return Ok(None);
      }
      match Lifecycle.UpdateTracking(db.trackings[id], status, people, completion)
      case Err(e) =>
        return Err(e);
      case Ok(t) =>
        if Lifecycle.AllCompletedHaveTime(db.trackings) {
          Lifecycle.UpdateKeepsCompletedHasTime(db.trackings[id], status, people, completion);
        }
        db := db.(trackings := db.trackings[id := t]);
        return Ok(Some(t));
    }

    /** Deletes a tracking with its volunteer assignments; false for an unknown id. */
    method DeleteTracking(id: int) returns (deleted: bool)
      requires Valid()
      modifies this
      ensures Valid()
      ensures deleted == (id in old(db.trackings))
      ensures !deleted ==> unchanged(this)
      ensures deleted ==> db == DeleteTrackings(old(db), {id}) && nextId == old(nextId)
    {
      if id !in db.trackings {
        return false;
      }
      var d := DeleteTrackings(db, {id});
      Integrity.DeleteTrackingsShrinks(db, {id});
      Integrity.ShrinksKeepsKeysBelow(db, d, nextId);
      db := d;
      return true;
    }

    // ----- RescueTrackingVolunteerService -----

    /**
     * Assigns a volunteer to a tracking that exists and is not Completed; the
     * volunteer must exist and the pair must be new.
     */
    method AssignTrackingVolunteer(trackingId: int, volunteerId: int) returns (r: Result<int, Error>)
      requires Valid()
      modifies this
      ensures Valid()
      ensures r == if trackingId !in old(db.trackings) then Err(TrackingNotFound)
                   else if old(db.trackings)[trackingId].status == StatusCompleted then Err(TrackingCompleted)
                   else if volunteerId !in old(db.volunteers) then Err(VolunteerNotFound)
                   else if Lifecycle.Assigned(old(db.trackingVolunteers), TrackingVolunteer(trackingId, volunteerId))
                   then Err(AlreadyAssigned)
                   else Ok(old(nextId))
      ensures r.Err? ==> unchanged(this)
      ensures r.Ok? ==>
        && nextId == old(nextId) + 1
        && db == old(db).(trackingVolunteers := old(db.trackingVolunteers)[r.value := TrackingVolunteer(trackingId, volunteerId)])
      ensures Lifecycle.UniqueAssignments(old(db.trackingVolunteers)) ==> Lifecycle.UniqueAssignments(db.trackingVolunteers)
    {
      if trackingId !in db.trackings {
        return Err(TrackingNotFound);
      }
      if db.trackings[trackingId].status == StatusCompleted {
        return Err(TrackingCompleted);
      }
      if volunteerId !in db.volunteers {
        return Err(VolunteerNotFound);
      }
      var pair := TrackingVolunteer(trackingId, volunteerId);
      if Lifecycle.Assigned(db.trackingVolunteers, pair) {
        return Err(AlreadyAssigned);
      }
      var id := NewId();
      Lifecycle.AddAssignmentKeepsUnique(db.trackingVolunteers, id, pair);
      db := db.(trackingVolunteers := db.trackingVolunteers[id := pair]);
      return Ok(id);
    }

    // ----- VolunteerSkillService -----

    /** The skills paired with a volunteer. */
    function SkillsForVolunteer(volunteerId: int): (r: map<int, Skill>)
      reads this
      ensures forall s :: s in r <==> s in db.skills && VolunteerSkill(volunteerId, s) in db.volunteerSkills
      ensures forall s :: s in r ==> r[s] == db.skills[s]
    {
      map s | s in db.skills && VolunteerSkill(volunteerId, s) in db.volunteerSkills :: db.skills[s]
    }

    /** Adds a (volunteer, skill) pair; a pair already present is refused. */
    method AssignSkill(volunteerId: int, skillId: int) returns (r: Result<VolunteerSkill, Error>)
      requires Valid()
      modifies this
      ensures Valid()
      ensures r == if VolunteerSkill(volunteerId, skillId) in old(db.volunteerSkills) then Err(SkillAlreadyAssigned)
                   else Ok(VolunteerSkill(volunteerId, skillId))
      ensures r.Err? ==> unchanged(this)
      ensures r.Ok? ==> db.volunteerSkills - {r.value} == old(db.volunteerSkills) && r.value in db.volunteerSkills
      ensures r.Ok? ==> db == old(db).(volunteerSkills := db.volunteerSkills) && nextId == old(nextId)
      ensures r.Ok? && skillId in db.skills ==>
        SkillsForVolunteer(volunteerId) == old(SkillsForVolunteer(volunteerId))[skillId := db.skills[skillId]]
    {
      var pair := VolunteerSkill(volunteerId, skillId);
      if pair in db.volunteerSkills {
        return Err(SkillAlreadyAssigned);
      }
      AddSkillPairs({pair});
      return Ok(pair);
    }

    /** Removes a (volunteer, skill) pair; false when it is absent. */
    method RemoveSkill(volunteerId: int, skillId: int) returns (removed: bool)
      requires Valid()
      modifies this
      ensures Valid()
      ensures removed == (VolunteerSkill(volunteerId, skillId) in old(db.volunteerSkills))
      ensures !removed ==> unchanged(this)
      ensures removed ==>
        && db.volunteerSkills + {VolunteerSkill(volunteerId, skillId)} == old(db.volunteerSkills)
        && VolunteerSkill(volunteerId, skillId) !in db.volunteerSkills
        && db == old(db).(volunteerSkills := db.volunteerSkills) && nextId == old(nextId)
      ensures removed ==> SkillsForVolunteer(volunteerId) == old(SkillsForVolunteer(volunteerId)) - {skillId}
    {
      var pair := VolunteerSkill(volunteerId, skillId);
      if pair !in db.volunteerSkills {
        return false;
      }
      db := db.(volunteerSkills := db.volunteerSkills - {pair});
      return true;
    }

    // ----- AidRequestService -----

    /** The requests of a user. */
    function GetRequestsByUser(userId: int): (r: map<int, AidRequest>)
      reads this
      ensures forall k :: k in r <==> k in db.requests && db.requests[k].userId == userId
      ensures forall k :: k in r ==> r[k] == db.requests[k]
    {
      map k | k in db.requests && db.requests[k].userId == userId :: db.requests[k]
    }

    /**
     * A new Pending request of a known user, with the requester's name and
     * phone copied from the user; refused while the user has a Pending
     * request for the same area.
     */
    method CreateAidRequest(userId: int, areaId: int, requestType: string, description: string,
                            urgency: string, people: int, now: Time) returns (r: Result<int, Error>)
      requires Valid()
      modifies this
      ensures Valid()
      ensures r == if userId !in old(db.users) then Err(UserNotFound)
                   else if Lifecycle.HasPending(old(db.requests), userId, areaId) then Err(PendingRequestExists)
                   else Ok(old(nextId))
      ensures r.Err? ==> unchanged(this)
      ensures r.Ok? ==>
        var u := old(db.users)[userId];
        && nextId == old(nextId) + 1
        && db == old(db).(requests := old(db.requests)[r.value :=
             AidRequest(userId, areaId, u.name, u.phone, requestType, description, urgency, StatusPending, people, Some(now))])
      ensures r.Ok? ==> var u := old(db.users)[userId];
        GetRequestsByUser(userId) == old(GetRequestsByUser(userId))[r.value :=
          AidRequest(userId, areaId, u.name, u.phone, requestType, description, urgency, StatusPending, people, Some(now))]
      ensures Lifecycle.OnePendingPerUserArea(old(db.requests)) ==> Lifecycle.OnePendingPerUserArea(db.requests)
    {
      if userId !in db.users {
        return Err(UserNotFound);
      }
      if Lifecycle.HasPending(db.requests, userId, areaId) {
        return Err(PendingRequestExists);
      }
      var u := db.users[userId];
      var req := AidRequest(userId, areaId, u.name, u.phone, requestType, description, urgency, StatusPending, people, Some(now));
      var id := NewId();
      Lifecycle.AddPendingKeepsOnePerUserArea(db.requests, id, req);
      db := db.(requests := db.requests[id := req]);
      return Ok(id);
    }

    /** Overwrites a request's status with any string: 1 row saved, or 0 for an unknown id. */
    method UpdateRequestStatus(id: int, status: string) returns (saved: int)
      requires Valid()
      modifies this
      ensures Valid()
      ensures saved == if id in old(db.requests) then 1 else 0
      ensures saved == 0 ==> unchanged(this)
      ensures saved == 1 ==>
        && db == old(db).(requests := old(db.requests)[id := old(db.requests)[id].(status := status)])
        && nextId == old(nextId)
    {
      if id !in db.requests {
        return 0;
      }
      db := db.(requests := db.requests[id := db.requests[id].(status := status)]);
      return 1;
    }

    /** Overwrites every field of a request; false for an unknown id. */
    method UpdateRequest(id: int, request: AidRequest) returns (updated: bool)
      requires Valid()
      modifies this
      ensures Valid()
      ensures updated == (id in old(db.requests))
      ensures !updated ==> unchanged(this)
      ensures updated ==> db == old(db).(requests := old(db.requests)[id := request]) && nextId == old(nextId)
    {
      if id !in db.requests {
        return false;
      }
      db := db.(requests := db.requests[id := request]);
      return true;
    }

    /** Deletes a request with its preparation and tracking; false for an unknown id. */
    method DeleteRequest(id: int) returns (deleted: bool)
      requires Valid()
      modifies this
      ensures Valid()
      ensures deleted == (id in old(db.requests))
      ensures !deleted ==> unchanged(this)
      ensures deleted ==> db == DeleteRequests(old(db), {id}) && nextId == old(nextId)
      ensures deleted ==> forall u :: id !in GetRequestsByUser(u)
    {
      if id !in db.requests {
        return false;
      }
      var d := DeleteRequests(db, {id});
      Integrity.DeleteRequestsShrinks(db, {id});
      Integrity.ShrinksKeepsKeysBelow(db, d, nextId);
      db := d;
      return true;
    }

    // ----- SkillService -----

    /** Adds a skill; the service itself checks nothing. */
    method CreateSkill(skill: Skill) returns (id: int)
      requires Valid()
      modifies this
      ensures Valid()
      ensures id == old(nextId) && nextId == id + 1
      ensures db == old(db).(skills := old(db.skills)[id := skill])
    {
      id := NewId();
      db := db.(skills := db.skills[id := skill]);
    }

    /** Renames a skill; no skill for an unknown id. */
    method UpdateSkill(id: int, update: Skill) returns (r: Option<Skill>)
      requires Valid()
      modifies this
      ensures Valid()
      ensures r == if id in old(db.skills) then Some(Skill(update.name)) else None
      ensures r.None? ==> unchanged(this)
      ensures r.Some? ==> db == old(db).(skills := old(db.skills)[id := r.value]) && nextId == old(nextId)
    {
      if id !in db.skills {
        return None;
      }
      var s := db.skills[id].(name := update.name);
      db := db.(skills := db.skills[id := s]);
      return Some(s);
    }

    /** Deletes a skill with its volunteer pairs; false for an unknown id. */
    method DeleteSkill(id: int) returns (deleted: bool)
      requires Valid()
      modifies this
      ensures Valid()
      ensures deleted == (id in old(db.skills))
      ensures !deleted ==> unchanged(this)
      ensures deleted ==> db == DeleteSkills(old(db), {id}) && nextId == old(nextId)
      ensures deleted ==> forall v :: id !in SkillsForVolunteer(v)
    {
      if id !in db.skills {
        return false;
      }
      var d := DeleteSkills(db, {id});
      Integrity.DeleteSkillsShrinks(db, {id});
      Integrity.ShrinksKeepsKeysBelow(db, d, nextId);
      db := d;
      return true;
    }

    /** ExistsByNameAsync: some skill other than `excludeId` has the same trimmed, lower-cased name. */
    function SkillExistsByName(name: string, excludeId: Option<int>): (r: bool)
      reads this
      ensures r <==> exists s :: s in db.skills && excludeId != Some(s)
                                 && Text.Normalize(db.skills[s].name) == Text.Normalize(name)
    {
      Checks.SkillNameExists(db.skills, name, excludeId)
    }
  }
}
