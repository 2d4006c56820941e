/**
 * The administrator's user update: a request is checked (authorization header, signed-in caller,
 * administrator role, target user) before anything is written; then the supplied profile fields
 * are patched, and a supplied role replaces all of the user's roles by exactly one.
 */
module UserAdmin {
  import opened Wrappers
  import opened Seqs
  import opened Schema
  import opened Store

  /** A field of the JSON request body: left out, `null`, or a string. */
  datatype Field = Missing | Null | Given(s: string)

  /** The request body; `userId` is `None` when it is missing, `null` or empty. */
  datatype UpdateRequest = UpdateRequest(
    userId: Option<Id>,
    fullName: Field,
    employeeId: Field,
    cohort: Field,
    department: Field,
    role: Field)

  /** Why the request failed, in the order the handler checks. */
  datatype UpdateError =
    | NoAuthorizationHeader
    | Unauthorized
    | AdminRequired
    | UserIdRequired
    | ProfileWriteFailed
    | RoleFetchFailed
    | RoleDeleteFailed
    | RoleInsertFailed

  /** The failures of the database calls, which the model takes as given. */
  datatype Faults = Faults(roleCheck: bool, profileWrite: bool, roleFetch: bool, roleDelete: bool, roleInsert: bool)

  /** The HTTP status of a reply. */
  function Status(outcome: Result<(), UpdateError>): (code: int)
    ensures code == 200 <==> outcome.Success?
    ensures code == 401 <==> outcome == Failure(NoAuthorizationHeader) || outcome == Failure(Unauthorized)
    ensures code == 403 <==> outcome == Failure(AdminRequired)
    ensures code == 400 <==> outcome == Failure(UserIdRequired)
    ensures code == 500 <==> outcome.Failure? && outcome.error in {ProfileWriteFailed, RoleFetchFailed, RoleDeleteFailed, RoleInsertFailed}
  {
    match outcome
    case Success(_) => 200
    case Failure(NoAuthorizationHeader) => 401
    case Failure(Unauthorized) => 401
    case Failure(AdminRequired) => 403
    case Failure(UserIdRequired) => 400
    case Failure(_) => 500
  }

  function RoleOfUser(userId: Id): UserRole -> bool { (u: UserRole) => u.userId == userId }
  function RoleOfOtherUser(userId: Id): UserRole -> bool { (u: UserRole) => u.userId != userId }

  /** `has_role(user, role)`: the user holds the role. */
  predicate HasRole(roles: seq<UserRole>, userId: Id, role: AppRole)
  {
    exists u :: u in roles && u.userId == userId && u.role == role
  }

  /** A column of the profile patch: `None` when the key is absent, `Some(None)` when it is set to null. */
  type Column = Option<Option<string>>

  /** The profile columns the request sets. */
  datatype ProfilePatch = ProfilePatch(fullName: Column, employeeId: Column, cohort: Column, department: Column)

  /** A field copied as given: absent stays absent, null stays null. */
  function AsGiven(f: Field): (c: Column)
    ensures f.Missing? <==> c.None?
    ensures f.Given? ==> c == Some(Some(f.s))
    ensures f.Null? ==> c == Some(None)
  {
    match f
    case Missing => None
    case Null => Some(None)
    case Given(s) => Some(Some(s))
  }

  /** `field || null`: a present field whose value is empty or null becomes null. */
  function EmptyAsNull(f: Field): (c: Column)
    ensures f.Missing? <==> c.None?
    ensures c == Some(None) <==> f.Null? || f == Given("")
    ensures f.Given? && f.s != "" ==> c == Some(Some(f.s))
  {
    match f
    case Missing => None
    case Null => Some(None)
    case Given(s) => if s == "" then Some(None) else Some(Some(s))
  }

  /** `profileUpdate`: exactly the fields the request supplies. */
  function BuildPatch(req: UpdateRequest): (p: ProfilePatch)
    ensures p.fullName == AsGiven(req.fullName) && p.employeeId == AsGiven(req.employeeId)
    ensures p.cohort == EmptyAsNull(req.cohort) && p.department == EmptyAsNull(req.department)
  {
    ProfilePatch(AsGiven(req.fullName), AsGiven(req.employeeId), EmptyAsNull(req.cohort), EmptyAsNull(req.department))
  }

  /** `Object.keys(profileUpdate).length > 0`. */
  predicate HasFields(p: ProfilePatch)
  {
    p.fullName.Some? || p.employeeId.Some? || p.cohort.Some? || p.department.Some?
  }

  /** `full_name` and `employee_id` cannot be null: a patch setting them to null is refused by the table. */
  predicate Storable(p: ProfilePatch)
  {
    p.fullName != Some(None) && p.employeeId != Some(None)
  }

  /** A profile with the patch applied and `updated_at` set to `now`. */
  function Patched(pr: Profile, p: ProfilePatch, now: Timestamp): (r: Profile)
    requires Storable(p)
    ensures r.id == pr.id && r.updatedAt == Some(now)
    ensures r.fullName == (if p.fullName.Some? then p.fullName.value.value else pr.fullName)
    ensures r.employeeId == (if p.employeeId.Some? then p.employeeId.value.value else pr.employeeId)
    ensures r.cohort == (if p.cohort.Some? then p.cohort.value else pr.cohort)
    ensures r.department == (if p.department.Some? then p.department.value else pr.department)
  {
    Profile(
      pr.id,
      if p.fullName.Some? then p.fullName.value.value else pr.fullName,
      if p.employeeId.Some? then p.employeeId.value.value else pr.employeeId,
      if p.cohort.Some? then p.cohort.value else pr.cohort,
      if p.department.Some? then p.department.value else pr.department,
      Some(now))
  }

  /** `update(patch).eq("id", userId)` on `profiles`. */
  function PatchProfiles(profiles: seq<Profile>, userId: Id, p: ProfilePatch, now: Timestamp): (r: seq<Profile>)
    requires Storable(p)
    ensures |r| == |profiles|
    ensures forall i :: 0 <= i < |profiles| ==> r[i] == if profiles[i].id == userId then Patched(profiles[i], p, now) else profiles[i]
  {
    seq(|profiles|, i requires 0 <= i < |profiles| => if profiles[i].id == userId then Patched(profiles[i], p, now) else profiles[i])
  }

  /** The tables the handler writes. */
  datatype Tables = Tables(profiles: seq<Profile>, roles: seq<UserRole>, nextId: Id)

  /** `role` as an `app_role`: `None` for null or a string outside the enum, which the insert rejects. */
  function RoleValue(f: Field): (r: Option<AppRole>)
    ensures r.Some? <==> f.Given? && ParseRole(f.s).Some?
  {
    if f.Given? then ParseRole(f.s) else None
  }

  /**
   * What the handler does to the tables and what it replies: the checks in order, then the
   * profile patch, then the role replacement, each failed write ending the request.
   */
  function UpdateUser(t: Tables, hasHeader: bool, caller: Option<Id>, req: UpdateRequest, now: Timestamp, faults: Faults)
    : (r: (Result<(), UpdateError>, Tables))
    ensures r.0 == Failure(NoAuthorizationHeader) <==> !hasHeader
    ensures r.0 == Failure(Unauthorized) <==> hasHeader && caller.None?
    ensures r.0 == Failure(AdminRequired) <==>
      hasHeader && caller.Some? && (faults.roleCheck || !HasRole(t.roles, caller.value, Admin))
    ensures r.0 == Failure(UserIdRequired) <==>
      hasHeader && caller.Some? && !faults.roleCheck && HasRole(t.roles, caller.value, Admin) && req.userId.None?
    ensures Status(r.0) < 500 && r.0.Failure? ==> r.1 == t
  {
    if !hasHeader then (Failure(NoAuthorizationHeader), t)
    else if caller.None? then (Failure(Unauthorized), t)
    else if faults.roleCheck || !HasRole(t.roles, caller.value, Admin) then (Failure(AdminRequired), t)
    else if req.userId.None? then (Failure(UserIdRequired), t)
    else
      var userId := req.userId.value;
      var patch := BuildPatch(req);
      if HasFields(patch) && (faults.profileWrite || !Storable(patch)) then (Failure(ProfileWriteFailed), t)
      else
        var profiles := if HasFields(patch) then PatchProfiles(t.profiles, userId, patch, now) else t.profiles;
        ReplaceRole(t.(profiles := profiles), userId, req.role, caller.value, now, faults)
  }

  /** The role step: a supplied role deletes the user's roles (if any) and inserts exactly one, granted by the caller. */
  function ReplaceRole(t: Tables, userId: Id, role: Field, callerId: Id, now: Timestamp, faults: Faults)
    : (r: (Result<(), UpdateError>, Tables))
    ensures r.1.profiles == t.profiles
    ensures r.0.Failure? ==> r.0.error in {RoleFetchFailed, RoleDeleteFailed, RoleInsertFailed}
  {
    if role.Missing? then (Success(()), t)
    else if faults.roleFetch then (Failure(RoleFetchFailed), t)
    else if Count(t.roles, RoleOfUser(userId)) > 0 && faults.roleDelete then (Failure(RoleDeleteFailed), t)
    else
      var kept := Filter(t.roles, RoleOfOtherUser(userId));
      var value := RoleValue(role);
      if value.None? || faults.roleInsert then (Failure(RoleInsertFailed), t.(roles := kept))
      else
        var granted := UserRole(t.nextId, userId, value.value, Some(callerId), Some(now));
        (Success(()), t.(roles := kept + [granted], nextId := t.nextId + 1))
  }

  /**
   * How the role step can end: without a role field nothing happens; a failed fetch or delete
   * leaves the tables as they were; a failed insert leaves the user's roles deleted.
   */
  lemma {:induction false} ReplaceRoleOutcomes(t: Tables, userId: Id, role: Field, callerId: Id, now: Timestamp, faults: Faults)
    ensures var r := ReplaceRole(t, userId, role, callerId, now, faults);
      && (role.Missing? ==> r == (Success(()), t))
      && (r.0 == Failure(RoleFetchFailed) || r.0 == Failure(RoleDeleteFailed) ==> r.1 == t)
      && (r.0 == Failure(RoleInsertFailed) ==> r.1.roles == Filter(t.roles, RoleOfOtherUser(userId)) && r.1.nextId == t.nextId)
  {
  }

  /** Only a request that passed every check can succeed; it names its target user. */
  predicate Authorized(t: Tables, hasHeader: bool, caller: Option<Id>, req: UpdateRequest, faults: Faults)
  {
    hasHeader && caller.Some? && !faults.roleCheck && HasRole(t.roles, caller.value, Admin) && req.userId.Some?
  }

  /** Failures raised before the role step: a rejected check or a failed profile write. */
  predicate BeforeRoleStep(e: UpdateError)
  {
    e == NoAuthorizationHeader || e == Unauthorized || e == AdminRequired || e == UserIdRequired || e == ProfileWriteFailed
  }

  /**
   * A rejected check, or a failed profile write, leaves every table as it was; the profile write
   * fails exactly when the request passed every check, supplies some field, and the write is
   * refused (an injected fault, or a value the table does not accept).
   */
  lemma {:induction false} FailedProfileWriteChangesNothing(t: Tables, hasHeader: bool, caller: Option<Id>, req: UpdateRequest, now: Timestamp, faults: Faults)
    requires UpdateUser(t, hasHeader, caller, req, now, faults).0.Failure?
    requires BeforeRoleStep(UpdateUser(t, hasHeader, caller, req, now, faults).0.error)
    ensures UpdateUser(t, hasHeader, caller, req, now, faults).1 == t
    ensures UpdateUser(t, hasHeader, caller, req, now, faults).0 == Failure(ProfileWriteFailed) <==>
      Authorized(t, hasHeader, caller, req, faults) && HasFields(BuildPatch(req))
      && (faults.profileWrite || !Storable(BuildPatch(req)))
  {
  }

  /**
   * After a successful update the target's profile holds exactly the supplied fields (empty cohort
   * and department as null) and a new `updated_at`, when some field was supplied; every other
   * profile is unchanged, and with no field supplied nothing is written at all.
   */
  lemma {:induction false} SuccessPatchesSuppliedFields(t: Tables, hasHeader: bool, caller: Option<Id>, req: UpdateRequest, now: Timestamp, faults: Faults)
    requires UpdateUser(t, hasHeader, caller, req, now, faults).0.Success?
    ensures Authorized(t, hasHeader, caller, req, faults)
    ensures var after := UpdateUser(t, hasHeader, caller, req, now, faults).1.profiles;
      && |after| == |t.profiles|
      && (!HasFields(BuildPatch(req)) ==> after == t.profiles)
      && (HasFields(BuildPatch(req)) ==> PatchedTarget(t.profiles, after, req.userId.value, BuildPatch(req), now))
  {
  }

  /** `after` is `before` with the target's profile patched. */
  predicate PatchedTarget(before: seq<Profile>, after: seq<Profile>, userId: Id, p: ProfilePatch, now: Timestamp)
  {
    Storable(p) && |after| == |before| &&
    forall i :: 0 <= i < |after| ==> after[i] == if before[i].id == userId then Patched(before[i], p, now) else before[i]
  }

  /** A successful update with a role leaves the user holding exactly that role, granted by the caller; other users keep theirs. */
  lemma {:induction false} SuccessLeavesExactlyOneRole(t: Tables, hasHeader: bool, caller: Option<Id>, req: UpdateRequest, now: Timestamp, faults: Faults)
    requires UpdateUser(t, hasHeader, caller, req, now, faults).0.Success?
    requires !req.role.Missing?
    ensures req.role.Given? && ParseRole(req.role.s).Some? && caller.Some? && req.userId.Some?
    ensures var after := UpdateUser(t, hasHeader, caller, req, now, faults).1;
      && Filter(after.roles, RoleOfUser(req.userId.value))
           == [UserRole(t.nextId, req.userId.value, ParseRole(req.role.s).value, Some(caller.value), Some(now))]
      && Filter(after.roles, RoleOfOtherUser(req.userId.value)) == Filter(t.roles, RoleOfOtherUser(req.userId.value))
      && after.nextId == t.nextId + 1
  {
    var userId := req.userId.value;
    var kept := Filter(t.roles, RoleOfOtherUser(userId));
    var granted := UserRole(t.nextId, userId, ParseRole(req.role.s).value, Some(caller.value), Some(now));
    FilterSnoc(kept, granted, RoleOfUser(userId));
    FilterSnoc(kept, granted, RoleOfOtherUser(userId));
    NoneOfUserKept(t.roles, userId);
    FilterOfFilter(t.roles, RoleOfOtherUser(userId), RoleOfOtherUser(userId));
  }

  /** After the delete, none of the user's roles remain. */
  lemma {:induction false} NoneOfUserKept(roles: seq<UserRole>, userId: Id)
    ensures Filter(Filter(roles, RoleOfOtherUser(userId)), RoleOfUser(userId)) == []
  {
    if roles != [] {
      NoneOfUserKept(roles[1..], userId);
      var head := if roles[0].userId != userId then [roles[0]] else [];
      FilterAppend(head, Filter(roles[1..], RoleOfOtherUser(userId)), RoleOfUser(userId));
    }
  }

  /** A request without a role leaves `user_roles` as it was. */
  lemma {:induction false} NoRoleKeepsRoles(t: Tables, hasHeader: bool, caller: Option<Id>, req: UpdateRequest, now: Timestamp, faults: Faults)
    requires req.role.Missing?
    ensures UpdateUser(t, hasHeader, caller, req, now, faults).1.roles == t.roles
    ensures UpdateUser(t, hasHeader, caller, req, now, faults).1.nextId == t.nextId
  {
  }

  /**
   * A role that is null or not one of the four is only refused by the insert, after the user's
   * roles were deleted: the request fails with status 500 and leaves the user without any role.
   */
  lemma {:induction false} InvalidRoleLeavesNoRole(t: Tables, caller: Id, req: UpdateRequest, now: Timestamp)
    requires HasRole(t.roles, caller, Admin) && req.userId.Some? && !HasFields(BuildPatch(req))
    requires req.role.Null? || (req.role.Given? && ParseRole(req.role.s).None?)
    ensures var r := UpdateUser(t, true, Some(caller), req, now, Faults(false, false, false, false, false));
      && Status(r.0) == 500
      && Count(r.1.roles, RoleOfUser(req.userId.value)) == 0
  {
    NoneOfUserKept(t.roles, req.userId.value);
  }

  /**
   * The request handler, step by step on the database. `hasHeader` says whether an
   * `Authorization` header came with the request and `caller` is the user its token resolves to.
   */
  method HandleUpdateUser(db: Database, hasHeader: bool, caller: Option<Id>, req: UpdateRequest, now: Timestamp, faults: Faults)
    returns (outcome: Result<(), UpdateError>)
    requires db.Valid()
    modifies db`profiles, db`userRoles, db`nextId
    ensures db.Valid()
    ensures (outcome, Tables(db.profiles, db.userRoles, db.nextId))
      == UpdateUser(Tables(old(db.profiles), old(db.userRoles), old(db.nextId)), hasHeader, caller, req, now, faults)
  {
    if !hasHeader {
      return Failure(NoAuthorizationHeader);
    }
    if caller.None? {
      return Failure(Unauthorized);
    }
    if faults.roleCheck || !HasRole(db.userRoles, caller.value, Admin) {
      return Failure(AdminRequired);
    }
    if req.userId.None? {
      return Failure(UserIdRequired);
    }
    var userId := req.userId.value;

    var patch := BuildPatch(req);
    if HasFields(patch) {
      if faults.profileWrite || !Storable(patch) {
        return Failure(ProfileWriteFailed);
      }
      db.profiles := PatchProfiles(db.profiles, userId, patch, now);
    }

    outcome := ChangeRole(db, userId, req.role, caller.value, now, faults);
  }

  /** The role step on the database. */
  method ChangeRole(db: Database, userId: Id, role: Field, callerId: Id, now: Timestamp, faults: Faults)
    returns (outcome: Result<(), UpdateError>)
    requires db.Valid()
    modifies db`userRoles, db`nextId
    ensures db.Valid()
    ensures (outcome, Tables(db.profiles, db.userRoles, db.nextId))
      == ReplaceRole(Tables(db.profiles, old(db.userRoles), old(db.nextId)), userId, role, callerId, now, faults)
  {
    if role.Missing? {
      return Success(());
    }
    if faults.roleFetch {
      return Failure(RoleFetchFailed);
    }
    var existing := Filter(db.userRoles, RoleOfUser(userId));
    if |existing| > 0 {
      if faults.roleDelete {
        return Failure(RoleDeleteFailed);
      }
      db.DeleteRoles(RoleOfOtherUser(userId));
    } else {
      NothingToDelete(db.userRoles, userId);
    }
    var value := RoleValue(role);
    if value.None? || faults.roleInsert {
      return Failure(RoleInsertFailed);
    }
    db.InsertRole(UserRole(db.nextId, userId, value.value, Some(callerId), Some(now)));
    return Success(());
  }

  /** When the user holds no role, the delete would remove nothing. */
  lemma {:induction false} NothingToDelete(roles: seq<UserRole>, userId: Id)
    requires Count(roles, RoleOfUser(userId)) == 0
    ensures Filter(roles, RoleOfOtherUser(userId)) == roles
  {
    if roles != [] {
      assert roles[0] in Filter(roles, RoleOfUser(userId)) <==> roles[0].userId == userId;
      FilterAppend([roles[0]], roles[1..], RoleOfUser(userId));
      assert roles == [roles[0]] + roles[1..];
      NothingToDelete(roles[1..], userId);
    }
  }
}
