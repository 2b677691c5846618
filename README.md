# DRCS service layer in Dafny

The DRCS backend coordinates disaster relief. Users register, and some of them
become volunteers at relief centers. Donations add stock to the centers'
resources. Aid requests lead to aid preparations, which use that stock, and to
rescue trackings, which volunteers are assigned to.

This project models the backend's service layer as an in-memory relational
store. `Schema.Db` holds one map per table, keyed by the table's generated id.
The volunteer-skill table is keyed by the (volunteer, skill) pair itself, so it
is a set. `DrcsStore.Store` is a class with one `db` field and an identity
counter `nextId`. It has one method per service operation.

Each operation is one atomic transaction. Every failure path (an exception in
the source, a `null` or `false` result) is a `Result`/`Outcome` error or a
flag, and the method's contract states that the store is then unchanged.

The logic that carries invariants lives in value-level modules:

- `Ledger`: the credit and debit of resource stock. It covers the exact,
  case-sensitive type match of the donation path, the lower-cased duplicate
  check of the admin path, and the replay of a history of movements.
- `Capacity`: a center's `NumberOfVolunteersWorking`. It covers the full
  recount used by the authentication service and the incremental, clamped
  +1/-1 used by the user service. It proves when the incremental updates keep
  every count equal to its recount, and when they drift.
- `Lifecycle`: the tracking status rules, and the one-row-per-key properties
  that the creation paths keep.
- `Checks`: the e-mail, center-name and skill-name checks, and the
  validation that volunteer registration runs before its first write.
- `Schema` and `Integrity`: the cascade deletes configured in
  `Database/DrcsContext.cs`. `Integrity` proves that every delete only takes
  rows away and leaves every foreign key resolved.
- `Roles`: what updating and deleting a user does to the volunteer table
  and to the counts.
- `Staff`: the role downgrade run before a relief center is deleted.
- `Text`: `Trim()` and `ToLower()`. Both are modelled on ASCII only: `Trim`
  removes the ASCII white-space characters, and `ToLower` folds 'A'..'Z' and
  nothing else.

Ids are map keys. A new row takes `nextId`, and `Store.Valid()` keeps every
key (and every volunteer's user id) below `nextId`. `FirstOrDefault` over
rows that may match several times is modelled as "any matching row".
Timestamps are plain integers (`Time`). "Now" and the six-month expiry date
are parameters.

## Model

| member | source | states |
|---|---|---|
| DrcsStore.Store.CreateAidPreparation | Services/AidPreparationService.cs:18-39 | An existing preparation for the request is returned and nothing changes. Otherwise exactly one row (status Preparing, both times MinValue) is added, and it is then the only preparation of its request. One preparation per request is kept. |
| DrcsStore.Store.UpdateAidPreparationTimes | Services/AidPreparationService.cs:41-53 | An unknown id fails and changes nothing. Otherwise only that row's departure and arrival are overwritten. |
| DrcsStore.Store.UpdateAidPrepStatus | Services/AidPreparationService.cs:66-76 | An unknown id fails and changes nothing. Otherwise only that row's status is overwritten, with any string. |
| DrcsStore.Store.AddVolunteer | Services/AidPreparationService.cs:89-113 | Fails exactly when the volunteer is unknown, and then changes nothing. An existing (preparation, volunteer) row is returned without adding a row. Otherwise one new row is added, so this path never duplicates a pair. |
| DrcsStore.Store.UpdateVolunteer | Services/AidPreparationService.cs:122-135 | An unknown record fails, then an unknown volunteer fails, each changing nothing. Otherwise only the record's volunteer id changes, with no duplicate check. |
| DrcsStore.Store.DeleteVolunteer | Services/AidPreparationService.cs:137-145 | An unknown record fails and changes nothing. Otherwise exactly that row is removed. |
| DrcsStore.Store.AddResourceUsage | Services/AidPreparationService.cs:149-191 | Fails exactly when the debit fails (unknown resource, or stock below the quantity), and then changes nothing. Otherwise the debited stock and one usage row (preparation, resource, quantity) commit together, and nothing else changes. |
| DrcsStore.Store.GetResources | Services/AidPreparationService.cs:194-199 | The usage rows of one preparation. AddResourceUsage adds exactly its new row to this listing, DeleteResourceUsage removes the row from every listing, and DeleteResource leaves no row of the resource in any listing (their ensures). |
| DrcsStore.Store.UpdateResourceUsage | Services/AidPreparationService.cs:201-212 | An unknown usage fails. Otherwise only its resource and quantity are rewritten. No resource quantity changes on either path. |
| DrcsStore.Store.DeleteResourceUsage | Services/AidPreparationService.cs:214-222 | An unknown usage fails. Otherwise only that row is removed. Stock is never credited back. |
| DrcsStore.Store.CreateResource | Services/ResourceService.cs:17-25 | Adds exactly one row, as given, with no check. |
| DrcsStore.Store.UpdateResource | Services/ResourceService.cs:28-41 | An unknown id is ResourceNotFound and changes nothing. Otherwise a null type keeps the old type, and quantity (with no non-negativity check), expiry and center are written as given. |
| DrcsStore.Store.DeleteResource | Services/ResourceService.cs:44-51 | An unknown id is ResourceNotFound. Otherwise the resource and, by cascade, its usage rows are deleted. |
| DrcsStore.Store.GetResourceById | Services/ResourceService.cs:54-59 | One resource or ResourceNotFound. CreateResource makes it return the row as created, UpdateResource and DeductResourceForAidPreparation make it return their result, and DeleteResource makes it ResourceNotFound (their ensures). |
| DrcsStore.Store.CreditStock | Services/ResourceService.cs:74-95 | If a row of the center has exactly the type, that row gains the quantity and no id is used. Otherwise exactly one new row with that type, quantity, expiry and center is added. No other table changes. |
| DrcsStore.Store.UpdateResourceFromDonation | Services/ResourceService.cs:68-99 | The donation's quantity is credited to its center under its exact type. Only a new row takes the expiry date. |
| DrcsStore.Store.DeductResourceForAidPreparation | Services/ResourceService.cs:102-115 | An unknown id or stock below the amount fails and changes nothing. Otherwise the row loses exactly the amount, the result is the updated row, and nothing else changes. |
| DrcsStore.Store.CreateDonation | Services/DonationService.cs:18-85 | An unknown user, then an unknown center, fails and commits nothing. Otherwise one donation (donor name = the user's name) and the credit of the same type commit together. |
| DrcsStore.Store.GetUserDonations | Services/DonationService.cs:90-93 | The donations of one user. CreateDonation adds exactly the new donation to the donor's listing, and DeleteUser leaves it empty (their ensures). |
| DrcsStore.Store.StoreResource | Controllers/ResourceController.cs:55-88 | Forbidden exactly for a non-Admin role. It is a duplicate exactly when a row of the center has a lower-cased type equal to the trimmed, lower-cased input. Both change nothing. Otherwise the trimmed type is stored in a new row. |
| DrcsStore.Store.UpdateResourceAsAdmin | Controllers/ResourceController.cs:92-125 | The same role gate, then the duplicate check with the resource itself excluded, then UpdateResource with the trimmed type. |
| DrcsStore.Store.DestroyResource | Controllers/ResourceController.cs:129-144 | Forbidden for a non-Admin role, with nothing written. Otherwise DeleteResource. |
| DrcsStore.Store.UpdateVolunteerCount | Services/RelifCenterService.cs:19-32 | A known center's count becomes the number of its Active volunteers. An unknown center is a no-op. Nothing else changes. |
| DrcsStore.Store.CreateReliefCenter | Services/RelifCenterService.cs:37-52 | Refused exactly when another center's name equals it ignoring case. Otherwise one center is added with count 0. |
| DrcsStore.Store.UpdateReliefCenter | Services/RelifCenterService.cs:58-80 | An unknown id is CenterNotFound. A name taken by another center is refused. Otherwise name, location, capacity and manager are overwritten, and the volunteer count is kept. |
| DrcsStore.Store.DeleteReliefCenter | Services/RelifCenterService.cs:84-113 | An unknown id is CenterNotFound. Otherwise the users behind the center's volunteers who have the role Volunteer become User, then the center is deleted with its resources, volunteers and donations. |
| DrcsStore.Store.GetReliefCenterById | Services/RelifCenterService.cs:119-124 | One center or CenterNotFound. CreateReliefCenter makes it return the new center with count 0, UpdateReliefCenter makes it return the updated center, and DeleteReliefCenter makes it CenterNotFound (their ensures). |
| DrcsStore.Store.AdjustVolunteerCount | Services/UserService.cs:217-228 | The center's count plus the change, clamped at 0. An unknown center is a no-op. |
| DrcsStore.Store.VolunteerIdOf | Services/VolunteerSkillService.cs:60-64 | A volunteer record of the user, or none exactly when the user has no record. |
| DrcsStore.Store.CenteredVolunteerOf | Services/UserService.cs:191-194 | For a user with the role Volunteer: a record of the user that has a center. None means no record, or the record found has no center. |
| DrcsStore.Store.CreateUser | Services/UserService.cs:88-112 | Role Volunteer with a center: the user, one Active volunteer record at the center, and +1 (clamped) on that center. Any other call adds only the user. Counts in sync with the recount stay in sync. |
| DrcsStore.Store.UpdateUser | Services/UserService.cs:115-184 | An unknown id is UserNotFound and changes nothing. Otherwise e-mail, name, role and phone are overwritten, and the role change is followed through as in Roles.ChangeRole. Counts in sync stay in sync when the record involved is Active. |
| DrcsStore.Store.DeleteUser | Services/UserService.cs:187-214 | An unknown id is UserNotFound. Otherwise a Volunteer's record that has a center goes with a -1 there, then the user's donations, then the user with its cascades. |
| DrcsStore.Store.RegisterUser | Services/AuthService.cs:28-42 | A taken e-mail is refused and adds nothing. Otherwise exactly one user is added, with an empty role defaulting to User. Unique e-mails stay unique. |
| DrcsStore.Store.RegisterVolunteer | Services/AuthService.cs:47-127 | Every check fails before any write. On success: the user (role Volunteer, given phone), one Active record at the center, exactly one skill pair per distinct requested id, and the center's recount. Counts in sync stay in sync. Unique e-mails stay unique. |
| DrcsStore.Store.DeleteVolunteerCompletely | Services/AuthService.cs:133-156 | An unknown id is a no-op. Otherwise the record and its user (with the user's cascades) go, then the record's center is recounted. |
| DrcsStore.Store.UpdateVolunteerStatus | Services/AuthService.cs:164-178 | An unknown id is a no-op. Otherwise only the status changes and the assigned center (if any) is recounted. Counts in sync stay in sync. |
| DrcsStore.Store.CreateTracking | Services/RescueTrackingService.cs:17-47 | Fails, changing nothing, when the request is unknown, Completed, or the status is not In Progress/Pending. An existing tracking of the request is returned unchanged. Otherwise one row is added. One tracking per request, and a completion time on every Completed tracking, are kept. |
| DrcsStore.Store.TrackingOf | Services/RescueTrackingService.cs:34-38 | A tracking of the request, or none exactly when the request has none. |
| DrcsStore.Store.UpdateTrackingRecord | Services/RescueTrackingService.cs:50-72 | An unknown id gives no tracking and changes nothing. A rejected update changes nothing. Otherwise only that row is replaced, by Lifecycle.UpdateTracking. Completed-has-time is kept. |
| DrcsStore.Store.DeleteTracking | Services/RescueTrackingService.cs:87-95 | False exactly for an unknown id, changing nothing. Otherwise the tracking and its volunteer rows are deleted. |
| DrcsStore.Store.AssignTrackingVolunteer | Services/RescueTrackingVolunteerService.cs:23-58 | TrackingNotFound, TrackingCompleted, VolunteerNotFound and AlreadyAssigned are checked in that order, each changing nothing. Otherwise exactly one (tracking, volunteer) row is added. Unique pairs are kept. |
| DrcsStore.Store.SkillsForVolunteer | Services/VolunteerSkillService.cs:17-25 | The skills paired with one volunteer. AssignSkill adds exactly the assigned skill, RemoveSkill takes exactly the removed one away, and DeleteSkill removes the skill from every volunteer's listing (their ensures). |
| DrcsStore.Store.AssignSkill | Services/VolunteerSkillService.cs:28-46 | An existing pair is refused and changes nothing. Otherwise exactly that pair is added. |
| DrcsStore.Store.RemoveSkill | Services/VolunteerSkillService.cs:49-59 | False exactly when the pair is absent, changing nothing. Otherwise exactly that pair is removed. |
| DrcsStore.Store.GetRequestsByUser | Services/AidRequestService.cs:22-27 | The requests of one user. CreateAidRequest adds exactly the new Pending request, DeleteRequest removes it from every listing, and DeleteUser leaves the listing empty (their ensures). |
| DrcsStore.Store.CreateAidRequest | Services/AidRequestService.cs:39-72 | An unknown user, then an existing Pending request for the same (user, area), fails and changes nothing. Otherwise one Pending request with the user's name and phone is added. One Pending request per (user, area) is kept. |
| DrcsStore.Store.UpdateRequestStatus | Services/AidRequestService.cs:96-104 | 0 and no change for an unknown id. Otherwise 1, and only the status changes, to any string. |
| DrcsStore.Store.UpdateRequest | Services/AidRequestService.cs:74-84 | False for an unknown id. Otherwise the whole row is overwritten. |
| DrcsStore.Store.DeleteRequest | Services/AidRequestService.cs:86-94 | False for an unknown id. Otherwise the request goes with its preparations and trackings, and what those take. |
| DrcsStore.Store.CreateSkill | Services/SkillService.cs:29-34 | Adds exactly one skill with no check. |
| DrcsStore.Store.UpdateSkill | Services/SkillService.cs:37-46 | None for an unknown id. Otherwise only the name changes. |
| DrcsStore.Store.DeleteSkill | Services/SkillService.cs:49-57 | False for an unknown id. Otherwise the skill and its volunteer pairs are deleted. |
| DrcsStore.Store.SkillExistsByName | Services/SkillService.cs:59-68 | True exactly when a skill other than the excluded one has the same trimmed, lower-cased name. |
| Ledger.CreditResource | Services/ResourceService.cs:78-82 | The row gains exactly the amount. Every other row and every key is unchanged. |
| Ledger.DebitResource | Services/ResourceService.cs:104-110 | ResourceNotFound exactly for an unknown id. NotEnoughResource exactly when stock is below the amount. Otherwise the row loses exactly the amount, stays >= 0, and no other row changes. |
| Ledger.CreditThenDebitRestores | Services/ResourceService.cs:78-110 | Crediting x and then debiting x restores the table, for non-negative stock. |
| Ledger.DebitBoundary | Services/AidPreparationService.cs:157-161 | Taking exactly the stock succeeds and leaves 0. Taking one more is refused. |
| Ledger.CaseSplitsDonationRows | Services/ResourceService.cs:74-82 | For every credit: a row whose type differs from the donated type, even only in case, keeps its stock, although the admin path counts it as a duplicate of that type. |
| Ledger.ReplayNonNegative | Services/ResourceService.cs:104-110 | Stock that starts non-negative and only gets non-negative credits never goes negative. |
| Ledger.ReplayConserves | Services/ResourceService.cs:78-110 | When no debit is refused, the final stock is the initial stock plus credits minus debits. |
| Ledger.DebitIsStep | Services/ResourceService.cs:107-110 | The table-level debit moves the quantity exactly as one history step. |
| Capacity.Adjusted | Services/UserService.cs:222-224 | The result is never negative, never below count + change, and equals count + change when that is >= 0. |
| Capacity.WithRecount | Services/RelifCenterService.cs:21-26 | Only the named center changes, to its recount. An unknown center changes nothing. |
| Capacity.WithAdjusted | Services/UserService.cs:219-224 | Only the named center changes, to the clamped sum. An unknown center changes nothing. |
| Capacity.RecountIdempotent | Services/RelifCenterService.cs:25-30 | Two recounts equal one. |
| Capacity.RecountAfterPut | Services/RelifCenterService.cs:25-26 | Writing a volunteer row changes the recount by the old row's share and the new row's share. |
| Capacity.RecountAfterRemove | Services/RelifCenterService.cs:25-26 | Removing a row lowers the recount by that row's share. |
| Capacity.IncrementMatchesRecount | Services/UserService.cs:93-108 | +1 for a new Active volunteer matches the recount. |
| Capacity.DecrementMatchesRecount | Services/UserService.cs:172-181 | -1 for a removed Active volunteer matches the recount. |
| Capacity.MoveMatchesRecount | Services/UserService.cs:154-169 | -1 and +1 for a moved Active volunteer match both recounts. |
| Capacity.InactiveMoveDrifts | Services/UserService.cs:154-169 | Moving a volunteer that is not Active leaves the new center one above its recount. |
| Capacity.UnsavedAddDrifts | Services/UserService.cs:93-108 | Adding an Active volunteer while the center keeps its count leaves that center one below its recount. |
| Capacity.UnsavedMoveDrifts | Services/UserService.cs:154-169 | Moving an Active volunteer while both centers keep their counts leaves the new center one below its recount and the old one one above. |
| Capacity.UnsavedRemoveDrifts | Services/UserService.cs:172-181 | Removing an Active volunteer while its center keeps its count leaves the center one above its recount. |
| Capacity.AddActiveKeepsInSync | Services/UserService.cs:136-151 | Adding an Active volunteer with +1 keeps every count in sync. |
| Capacity.RemoveKeepsInSync | Services/UserService.cs:172-181 | Removing with -1 keeps every count in sync for an Active volunteer. For a volunteer that is not Active, its center drifts one below. |
| Capacity.UnassignedKeepsInSync | Services/AuthService.cs:164-177 | A status change of a volunteer without a center keeps every count in sync. |
| Capacity.RecountKeepsInSync | Services/AuthService.cs:164-177 | A change at one center followed by its recount keeps every count in sync. |
| Capacity.MoveKeepsInSync | Services/UserService.cs:154-169 | A center change of an Active volunteer with -1/+1 keeps every count in sync. |
| Lifecycle.CheckTrackingCreate | Services/RescueTrackingService.cs:20-32 | Passes exactly when the request exists, is not Completed, and the status is In Progress or Pending. The request errors come first. |
| Lifecycle.UpdateTracking | Services/RescueTrackingService.cs:52-66 | Succeeds exactly when a supplied status is known and Completed has a time. Only supplied fields change, and an empty status keeps the old one. |
| Lifecycle.UpdateKeepsCompletedHasTime | Services/RescueTrackingService.cs:60-66 | Every accepted update keeps "a Completed tracking has a completion time". |
| Lifecycle.CompletedCanReopen | Services/RescueTrackingService.cs:56-64 | There is no order among statuses: Completed may go back to Pending. |
| Lifecycle.AddKeepsAllCompletedHaveTime | Services/RescueTrackingService.cs:29-44 | Adding a conforming tracking keeps the rule for the whole table. |
| Lifecycle.AddPreparationKeepsOnePerRequest | Services/AidPreparationService.cs:20-36 | Adding a preparation for a request that has none keeps one per request. |
| Lifecycle.AddTrackingKeepsOnePerRequest | Services/RescueTrackingService.cs:34-43 | Adding a tracking for a request that has none keeps one per request. |
| Lifecycle.AddAssignmentKeepsUnique | Services/RescueTrackingVolunteerService.cs:40-54 | Adding an unassigned pair keeps the pairs unique. |
| Lifecycle.AddPendingKeepsOnePerUserArea | Services/AidRequestService.cs:46-69 | Adding a request when the (user, area) has no Pending one keeps at most one Pending request per (user, area). |
| Checks.AddUserKeepsEmailsUnique | Services/AuthService.cs:30-39 | A user added under a fresh key with a free e-mail keeps e-mails unique. RegisterUser and RegisterVolunteer use it. |
| Checks.WithDefaultRole | Services/AuthService.cs:34-35 | The role is never empty. A non-empty role is kept, and nothing else changes. |
| Checks.SkillNameExcludeIsRemoval | Services/SkillService.cs:63-64 | Excluding an id equals checking the table without that skill. |
| Checks.SkillNameCheckNormalises | Services/SkillService.cs:66 | Checking a normalised name answers as checking the raw one. |
| Checks.SkillNameFindsItself | Services/SkillService.cs:66 | A stored name, normalised, is always found. |
| Checks.Distinct | Services/AuthService.cs:67 | The same elements, each once, in the order of their first occurrence. |
| Checks.SkillPairs | Services/AuthService.cs:105-112 | One (volunteer, skill) pair per id, in order. |
| Checks.FirstMissingSkill | Services/AuthService.cs:68-73 | None exactly when every id names a skill. Otherwise the first id that names no skill: every id before its first occurrence names one. |
| Checks.DistinctKeepsFirstMissing | Services/AuthService.cs:67-73 | The first missing id of the distinct ids is the first missing id of the requested ids. |
| Checks.CheckRegistration | Services/AuthService.cs:53-73 | Passes exactly when some skill exists, the center exists, the e-mail is free and every requested skill exists. Otherwise the first failing check reports, in the order NoSkillsDefined, CenterNotFound, EmailExists, then SkillNotFound with the first requested id that names no skill. |
| Text.Lower | Controllers/ResourceController.cs:64-68 | Same length, with each character ASCII-folded. |
| Text.TrimStart | Services/SkillService.cs:66 | The longest suffix that does not start with white space. |
| Text.TrimEnd | Services/SkillService.cs:66 | The longest prefix that does not end with white space. |
| Text.NormalizeIdempotent | Services/SkillService.cs:66 | Trim-then-lower is idempotent. |
| Text.PaddingAndCaseIgnored | Controllers/ResourceController.cs:64-68 | A trimmed word with a space on each side normalises as its lower-cased form, so padding and case never separate two names in the duplicate checks. |
| Staff.UsersBehind | Services/RelifCenterService.cs:92-98 | Exactly the users of the given volunteer records. |
| Staff.DowngradeEffect | Services/RelifCenterService.cs:99-101 | Only the role changes, only from Volunteer to User, and only for the given users. |
| Staff.DowngradeIdempotent | Services/RelifCenterService.cs:96-105 | Downgrading twice equals once. |
| Staff.DowngradeAll | Services/RelifCenterService.cs:96-105 | The loop leaves exactly Downgrade of the users behind the records. |
| Schema.DeleteResources | Database/DrcsContext.cs:95-100 | Exactly the given resources and the usage rows that draw on them go. Every other row stays as it was, and no other table changes. |
| Schema.DeletePreparations | Database/DrcsContext.cs:102-114 | Exactly the given preparations, their usage rows and their volunteer rows go. Every other table stays as it was. |
| Schema.DeleteTrackings | Database/DrcsContext.cs:116-121 | Exactly the given trackings and their volunteer rows go. Every other table stays as it was. |
| Schema.DeleteVolunteers | Database/DrcsContext.cs:109-135 | Exactly the given volunteers and their skill pairs go. Preparation and tracking assignment rows that name them stay, since no cascade is configured from Volunteer to them. |
| Schema.DeleteSkills | Database/DrcsContext.cs:123-128 | Exactly the given skills and their volunteer pairs go. Every other table stays as it was. |
| Schema.DeleteDonations | Database/DrcsContext.cs:186-191 | Exactly the given donations go, and nothing cascades from them. |
| Schema.DeleteRequestsTakes | Database/DrcsContext.cs:151-163 | Deleting requests takes exactly them, their preparations and their trackings. |
| Schema.DeleteCenterTakes | Database/DrcsContext.cs:137-149 | Deleting a center takes exactly it, its resources, its assigned volunteers and its donations. |
| Schema.DeleteUserTakes | Database/DrcsContext.cs:179-198 | Deleting a user takes exactly it, its requests, its donations and its volunteer records. |
| Schema.DeleteUser | Database/DrcsContext.cs:179-198 | Centers, resources and skills are untouched. |
| Schema.DeleteUserAfterVolunteers | Services/UserService.cs:191-213 | Removing some of a user's records first does not change what deleting the user leaves. |
| Schema.DeleteUserAfterDonations | Services/UserService.cs:204-213 | Removing the user's donations first does not change what deleting the user leaves. |
| Integrity.DeleteResourcesKeepsIntegrity | Database/DrcsContext.cs:95-100 | Deleting resources keeps every foreign key resolved and only takes rows away. |
| Integrity.DeletePreparationsKeepsIntegrity | Database/DrcsContext.cs:102-114 | The same for preparations. |
| Integrity.DeleteTrackingsKeepsIntegrity | Database/DrcsContext.cs:116-121 | The same for trackings. |
| Integrity.DeleteVolunteersKeepsIntegrity | Database/DrcsContext.cs:130-135 | The same for volunteers. |
| Integrity.DeleteSkillsKeepsIntegrity | Database/DrcsContext.cs:123-128 | The same for skills. |
| Integrity.DeleteDonationsKeepsIntegrity | Database/DrcsContext.cs:186-191 | The same for donations. |
| Integrity.DeleteRequestsKeepsIntegrity | Database/DrcsContext.cs:151-163 | The same for requests, through their preparations and trackings. |
| Integrity.DeleteCenterKeepsReferential | Database/DrcsContext.cs:137-149 | Deleting a center keeps every foreign key resolved. |
| Integrity.DeleteUserKeepsReferential | Database/DrcsContext.cs:179-198 | Deleting a user keeps every foreign key resolved. |
| Integrity.DeleteCenterShrinks | Database/DrcsContext.cs:137-149 | Deleting a center only takes rows away. |
| Integrity.DeleteUserShrinks | Database/DrcsContext.cs:179-198 | Deleting a user only takes rows away. |
| Roles.Classify | Services/UserService.cs:130-181 | A record is added exactly when a non-Volunteer becomes a Volunteer with a center. A move needs a different center, and a drop means leaving the role. Both act on the looked-up record. |
| Roles.FollowRoleChange | Services/UserService.cs:115-184 | The branch-by-branch steps of UpdateUser yield ChangeRole. |
| Roles.ChangeKeepsInSync | Services/UserService.cs:136-181 | Each kind of change keeps every count in sync when its record is Active. |
| Roles.ChangeRoleKeepsInSync | Services/UserService.cs:115-184 | UpdateUser keeps every count in sync when the record involved is Active. |
| Roles.ChangeRoleUnsaved | Services/UserService.cs:115-184 | UpdateUser as written: the user and volunteer tables change as in ChangeRole, and every center keeps its stored count. |
| Roles.UnsavedChangeDrifts | Services/UserService.cs:136-181 | From counts in sync, UpdateUser as written leaves a center one below its recount when it gains an Active volunteer and one above when it loses one. |
| Roles.RemoveUser | Services/UserService.cs:189-213 | The steps of DeleteUser yield the cascade delete of the user after the -1. |

## Left out

- Password hashing, login, JWT and cookies. The role is an argument of the admin resource paths.
- All HTTP controllers except the role gate and duplicate-type check of `Controllers/ResourceController.cs`. The MVC view controllers, `Program.cs` and the service registration are also out.
- Both migration files. Cascades follow `Database/DrcsContext.cs`. The lack of a unique index on AidPreparations.RequestID is reflected: only the service's check keeps one preparation per request.
- `Services/AffectedAreaService.cs` and `Services/VolunteerTaskService.cs`, which are read-only projections or plain CRUD with no invariant.
- The list and lookup queries other than the six modelled ones: every `GetAll…` list, `UserService.GetUserWithVolunteerInfo`, `AidRequestService.GetByIdAsync`, `SkillService.GetByIdAsync`, `RescueTrackingService.GetTrackingAsync`, and `AidPreparationService.GetFullAidPrepDetailsAsync`, `GetAidPrepStatusAsync` and `GetVolunteersAsync`. Each returns stored rows as they are and has no invariant of its own.
- Unique e-mails are not an invariant of the store. RegisterUser and RegisterVolunteer keep them unique, but UserService.UpdateUser overwrites `Email` without a check (Services/UserService.cs:120), and no unique index backs the column, so an update can make two users share an e-mail.
- The AidRequest → AffectedArea foreign key and its cascade, because the affected-area table is not modelled.
- Foreign-key violations on insert. The database would reject a row naming a missing parent, but the model inserts it as the service passes it.
- `CreatedAt`/`UpdatedAt`, `DateTime.UtcNow` and `SpecifyKind`. "Now" and the six-month expiry date (`AddMonths(6)`) are parameters.
- 32-bit integer overflow on quantities, counts and ids. Integers are unbounded.
- Culture-sensitive `ToLower()` and Unicode white space in `Trim()`, because both are modelled on ASCII only.
- Concurrency and isolation. Each transaction is one atomic method, and races on Quantity or the volunteer count are out of scope.
- The unsaved count adjustments. `UpdateReliefCenterVolunteerCount` only mutates the tracked center. In CreateUser and UpdateUser no `SaveChangesAsync` follows it (Services/UserService.cs:108, 151, 166-168, 180), and nothing later in the request saves the context, so as written these two operations never change a center's count. The store models the adjustment as saved; the gap is recorded under Findings.
- AddResourceUsage decrements the tracked resource before its transaction begins (Services/AidPreparationService.cs:161-175). The model treats the debit and the usage row as one atomic step.
- Null strings. `CenterName ?? …`, `Location ?? …` and a null `TrackingStatus` are not modelled. Strings are never null, except that a tracking status or resource type argument may be absent (`Option`).
- `SetValues` in AidRequestService.UpdateAsync copies every property of the argument. The model overwrites the row at the given key and does not model a change of the key itself.
- DrcsStore.Store.DeleteUser: no statement that counts stay in sync. A user with several volunteer records loses the others by cascade without any count update, so in general they do not stay in sync.
- DrcsStore.Store.UpdateUser: counts are stated to stay in sync only when the record involved is Active. The source's ±1 ignores status, and Capacity.InactiveMoveDrifts and Capacity.RemoveKeepsInSync state the drift otherwise.
- DrcsStore.Store.DeleteVolunteerCompletely: states the recount of the record's own center, but not that every count stays in sync. The user's other volunteer records go by cascade without a recount of their centers.

## Findings

| source | as written | input that shows it | evidently intended | confidence | as-written member | corrected member |
|---|---|---|---|---|---|---|
| Services/UserService.cs:115-184 | The ±1 of `UpdateReliefCenterVolunteerCount` is applied to the tracked center after the last `SaveChangesAsync`, so it is never saved and UpdateUser leaves every count as it was. | Counts in sync; an admin moves an Active volunteer from center A to center B. A stays one above its recount and B one below. | The counts follow the role change: the center that gains an Active volunteer goes up by one, and the one that loses it goes down by one. | high, not executed | Roles.UnsavedChangeDrifts | Roles.ChangeRoleKeepsInSync |
| Services/UserService.cs:88-112 | CreateUser's +1 for a new Volunteer with a center comes after the last `SaveChangesAsync` and is never saved. | Counts in sync; CreateUser with role Volunteer and a center. That center ends one below its recount. | The center gains one for the new Active volunteer. | high, not executed | Capacity.UnsavedAddDrifts | Capacity.AddActiveKeepsInSync |
