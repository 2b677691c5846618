/**
 * The aid lifecycle rules: the status checks of rescue tracking, and the
 * one-row-per-key properties the creation paths keep. Statuses are free
 * strings; only tracking statuses are checked, against a fixed set of
 * literals, and no order among them is enforced.
 */
module Lifecycle {
  import opened Wrappers
  import opened Entities

  /** The statuses a new tracking may start in. */
  predicate CreatableStatus(s: string) {
    s == StatusInProgress || s == StatusPending
  }

  /** The statuses an update may write. */
  predicate KnownTrackingStatus(s: string) {
    s == StatusInProgress || s == StatusPending || s == StatusCompleted
  }

  /** A status argument that is neither null nor empty, so it is checked and written. */
  predicate Supplied(status: Option<string>) {
    status.Some? && status.value != ""
  }

  /** The checks of tracking creation, in the source's order; `request` is the looked-up aid request. */
  function CheckTrackingCreate(request: Option<AidRequest>, status: string): (r: Outcome<Error>)
    ensures r.Pass? <==> request.Some? && request.value.status != StatusCompleted && CreatableStatus(status)
    ensures request.None? ==> r == Fail(RequestNotFound)
    ensures request.Some? && request.value.status == StatusCompleted ==> r == Fail(RequestCompleted)
  {
    if request.None? then Fail(RequestNotFound)
    else if request.value.status == StatusCompleted then Fail(RequestCompleted)
    else if !CreatableStatus(status) then Fail(InvalidTrackingStatus)
    else Pass
  }

  /** A tracking update: validate the status, require a completion time for Completed, write supplied fields. */
  function UpdateTracking(t: RescueTracking, status: Option<string>, people: Option<int>, completion: Option<Time>)
    : (r: Result<RescueTracking, Error>)
    ensures r.Ok? <==>
      && (Supplied(status) ==> KnownTrackingStatus(status.value))
      && (status == Some(StatusCompleted) ==> completion.Some? || t.completionTime.Some?)
    ensures r.Ok? ==>
      && r.value.requestId == t.requestId
      && r.value.startTime == t.startTime
      && r.value.status == (if Supplied(status) then status.value else t.status)
      && r.value.peopleHelped == (if people.Some? then people.value else t.peopleHelped)
      && r.value.completionTime == (if completion.Some? then completion else t.completionTime)
  {
    if Supplied(status) && !KnownTrackingStatus(status.value) then Err(InvalidTrackingStatus)
    else if status == Some(StatusCompleted) && completion.None? && t.completionTime.None? then Err(CompletionTimeRequired)
    else Ok(t.(status := if Supplied(status) then status.value else t.status,
               peopleHelped := if people.Some? then people.value else t.peopleHelped,
               completionTime := if completion.Some? then completion else t.completionTime))
  }

  /** A Completed tracking carries a completion time. */
  predicate CompletedHasTime(t: RescueTracking) {
    t.status == StatusCompleted ==> t.completionTime.Some?
  }

  /** Creation and update both keep "a Completed tracking carries a completion time". */
  lemma UpdateKeepsCompletedHasTime(t: RescueTracking, status: Option<string>, people: Option<int>, completion: Option<Time>)
    requires CompletedHasTime(t)
    ensures var r := UpdateTracking(t, status, people, completion);
      r.Ok? ==> CompletedHasTime(r.value)
  {
  }

  lemma CreatedHasTime(t: RescueTracking)
    requires CreatableStatus(t.status)
    ensures CompletedHasTime(t)
  {
  }

  /** There is no order among the statuses: a Completed tracking may be set back to Pending. */
  lemma CompletedCanReopen(t: RescueTracking)
    requires t.status == StatusCompleted
    ensures UpdateTracking(t, Some(StatusPending), None, None) == Ok(t.(status := StatusPending))
  {
  }

  /** Every Completed tracking carries a completion time. */
  ghost predicate AllCompletedHaveTime(ts: map<int, RescueTracking>) {
    forall k :: k in ts ==> CompletedHasTime(ts[k])
  }

  /** Adding a tracking that satisfies the rule keeps it for the whole table. */
  lemma AddKeepsAllCompletedHaveTime(ts: map<int, RescueTracking>, k: int, t: RescueTracking)
    requires CompletedHasTime(t)
    ensures AllCompletedHaveTime(ts) ==> AllCompletedHaveTime(ts[k := t])
  {
  }

  // One row per key

  /** Some tracking follows the request. */
  predicate HasTracking(ts: map<int, RescueTracking>, requestId: int) {
    exists k :: k in ts && ts[k].requestId == requestId
  }

  /** The (tracking, volunteer) pair is already a row. */
  predicate Assigned(tvs: map<int, TrackingVolunteer>, p: TrackingVolunteer) {
    exists k :: k in tvs && tvs[k] == p
  }

  /** The user has a Pending request for the area. */
  predicate HasPending(reqs: map<int, AidRequest>, userId: int, areaId: int) {
    exists k :: k in reqs && IsPendingFor(reqs[k], userId, areaId)
  }

  ghost predicate OnePreparationPerRequest(preps: map<int, AidPreparation>) {
    forall a, b :: a in preps && b in preps && preps[a].requestId == preps[b].requestId ==> a == b
  }

  ghost predicate OneTrackingPerRequest(ts: map<int, RescueTracking>) {
    forall a, b :: a in ts && b in ts && ts[a].requestId == ts[b].requestId ==> a == b
  }

  /** No (tracking, volunteer) pair appears in two rows. */
  ghost predicate UniqueAssignments(tvs: map<int, TrackingVolunteer>) {
    forall a, b :: a in tvs && b in tvs && tvs[a] == tvs[b] ==> a == b
  }

  predicate IsPendingFor(r: AidRequest, userId: int, areaId: int) {
    r.userId == userId && r.areaId == areaId && r.status == StatusPending
  }

  ghost predicate OnePendingPerUserArea(reqs: map<int, AidRequest>) {
    forall a, b ::
      (a in reqs && b in reqs && reqs[a].status == StatusPending
       && IsPendingFor(reqs[b], reqs[a].userId, reqs[a].areaId)) ==> a == b
  }

  /** Adding a preparation for a request that has none keeps one preparation per request. */
  lemma AddPreparationKeepsOnePerRequest(preps: map<int, AidPreparation>, k: int, p: AidPreparation)
    requires k !in preps
    requires forall j :: j in preps ==> preps[j].requestId != p.requestId
    ensures OnePreparationPerRequest(preps) ==> OnePreparationPerRequest(preps[k := p])
  {
  }

  /** Adding a tracking for a request that has none keeps one tracking per request. */
  lemma AddTrackingKeepsOnePerRequest(ts: map<int, RescueTracking>, k: int, t: RescueTracking)
    requires k !in ts && !HasTracking(ts, t.requestId)
    ensures OneTrackingPerRequest(ts) ==> OneTrackingPerRequest(ts[k := t])
  {
  }

  /** Adding a pair not yet present keeps pairs unique. */
  lemma AddAssignmentKeepsUnique(tvs: map<int, TrackingVolunteer>, k: int, p: TrackingVolunteer)
    requires k !in tvs && !Assigned(tvs, p)
    ensures UniqueAssignments(tvs) ==> UniqueAssignments(tvs[k := p])
  {
  }

  /** Adding a Pending request for a (user, area) with none keeps one Pending request per (user, area). */
  lemma AddPendingKeepsOnePerUserArea(reqs: map<int, AidRequest>, k: int, r: AidRequest)
    requires k !in reqs && !HasPending(reqs, r.userId, r.areaId)
    ensures OnePendingPerUserArea(reqs) ==> OnePendingPerUserArea(reqs[k := r])
  {
  }
}
