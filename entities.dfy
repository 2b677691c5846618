/**
 * The rows of the relief-coordination database. Every table is a map from
 * its integer key to one of these records, so no record carries its own id.
 * Creation and update timestamps carry no invariant and are not modelled.
 */
module Entities {
  import opened Wrappers

  /** A DateTime value; the model only stores and compares them. */
  type Time = int

  /** DateTime.MinValue, the placeholder a new preparation gets for its times. */
  const MinTime: Time := 0

  // Role names
  const RoleAdmin := "Admin"
  const RoleVolunteer := "Volunteer"
  const RoleUser := "User"

  // Volunteer, request, preparation and tracking status strings
  const StatusActive := "Active"
  const StatusPending := "Pending"
  const StatusPreparing := "Preparing"
  const StatusInProgress := "In Progress"
  const StatusCompleted := "Completed"

  datatype User = User(email: string, name: string, role: string, phone: string)

  datatype ReliefCenter = ReliefCenter(
    name: string,
    location: string,
    volunteersWorking: int,
    maxCapacity: int,
    managerId: int)

  datatype Volunteer = Volunteer(
    name: string,
    contactInfo: string,
    assignedCenter: Option<int>,
    status: string,
    userId: int)

  datatype Resource = Resource(
    resourceType: string,
    quantity: int,
    expiration: Option<Time>,
    centerId: int)

  datatype Donation = Donation(
    donorName: string,
    donationType: string,
    quantity: int,
    dateReceived: Option<Time>,
    centerId: int,
    userId: int)

  datatype AidRequest = AidRequest(
    userId: int,
    areaId: int,
    requesterName: string,
    contactInfo: string,
    requestType: string,
    description: string,
    urgency: string,
    status: string,
    numberOfPeople: int,
    requestDate: Option<Time>)

  datatype AidPreparation = AidPreparation(
    requestId: int,
    departure: Option<Time>,
    arrival: Option<Time>,
    status: string)

  /** An AidPreparationResource row: stock taken from a resource for a preparation. */
  datatype ResourceUsage = ResourceUsage(preparationId: int, resourceId: int, quantityUsed: int)

  /** An AidPreparationVolunteer row. */
  datatype PreparationVolunteer = PreparationVolunteer(preparationId: int, volunteerId: int)

  datatype RescueTracking = RescueTracking(
    requestId: int,
    status: string,
    startTime: Option<Time>,
    peopleHelped: int,
    completionTime: Option<Time>)

  /** A RescueTrackingVolunteer row. */
  datatype TrackingVolunteer = TrackingVolunteer(trackingId: int, volunteerId: int)

  datatype Skill = Skill(name: string)

  /** A VolunteerSkill row; the pair itself is the table's key. */
  datatype VolunteerSkill = VolunteerSkill(volunteerId: int, skillId: int)

  /** The exceptions the services throw, one per distinct failure. */
  datatype Error =
    | Forbidden
    | UserNotFound
    | EmailExists
    | CenterNotFound
    | DuplicateCenterName
    | VolunteerNotFound
    | VolunteerRecordNotFound
    | ResourceNotFound
    | NotEnoughResource
    | DuplicateResourceType
    | UsageNotFound
    | PreparationNotFound
    | RequestNotFound
    | RequestCompleted
    | PendingRequestExists
    | InvalidTrackingStatus
    | CompletionTimeRequired
    | TrackingNotFound
    | TrackingCompleted
    | AlreadyAssigned
    | SkillAlreadyAssigned
    | NoSkillsDefined
    | SkillNotFound(skillId: int)
}
