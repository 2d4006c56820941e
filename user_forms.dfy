/**
 * The administrator's two user forms: the edit dialog, which is filled from the user, checks its
 * required fields in order and sends a trimmed update request; and the create form, which checks
 * its required fields and the employee id format and clears itself after a successful create.
 */
module UserForms {
  import opened Wrappers
  import opened Seqs
  import opened Schema
  import opened Text
  import opened UserAdmin

  /** The user the edit dialog is opened on, with the role names it holds. */
  datatype UserData = UserData(
    id: Id,
    fullName: string,
    employeeId: string,
    cohort: Option<string>,
    department: Option<string>,
    roles: seq<string>)

  /** The edit dialog's fields. */
  datatype EditForm = EditForm(fullName: string, employeeId: string, cohort: string, department: string, role: string)

  /** Filling the dialog from the user: null columns become empty fields, the role is the first one held or empty. */
  function OpenEditForm(user: Option<UserData>, current: EditForm): (f: EditForm)
    ensures user.None? ==> f == current
    ensures user.Some? ==>
      && f.fullName == user.value.fullName && f.employeeId == user.value.employeeId
      && f.cohort == user.value.cohort.GetOr("") && f.department == user.value.department.GetOr("")
      && (f.role == "" <==> |user.value.roles| == 0 || user.value.roles[0] == "")
      && (|user.value.roles| > 0 ==> f.role == user.value.roles[0])
  {
    match user
    case None => current
    case Some(u) =>
      EditForm(u.fullName, u.employeeId, u.cohort.GetOr(""), u.department.GetOr(""), if |u.roles| > 0 then u.roles[0] else "")
  }

  /** What submitting the dialog does. */
  datatype EditSubmit = NoUser | Rejected(message: string) | Send(request: UpdateRequest)

  const FullNameRequired := "Full name is required"
  const EmployeeIdRequired := "Employee ID is required"
  const RoleRequired := "Role is required"

  /** `text.trim() || null`. */
  function TrimmedOrNull(s: string): (f: Field)
    ensures f.Null? <==> IsBlank(s)
    ensures f.Given? ==> f.s == Trim(s) && f.s != ""
    ensures !f.Missing?
  {
    if Trim(s) == "" then Null else Given(Trim(s))
  }

  /** `handleSubmit` of the edit dialog: the first missing field is reported and nothing is sent. */
  function SubmitEdit(user: Option<UserData>, f: EditForm): (r: EditSubmit)
    ensures r == NoUser <==> user.None?
    ensures user.Some? ==>
      && (r == Rejected(FullNameRequired) <==> IsBlank(f.fullName))
      && (r == Rejected(EmployeeIdRequired) <==> !IsBlank(f.fullName) && IsBlank(f.employeeId))
      && (r == Rejected(RoleRequired) <==> !IsBlank(f.fullName) && !IsBlank(f.employeeId) && f.role == "")
    ensures r.Send? ==>
      && r.request.userId == Some(user.value.id)
      && r.request.fullName == Given(Trim(f.fullName)) && r.request.employeeId == Given(Trim(f.employeeId))
      && r.request.cohort == TrimmedOrNull(f.cohort) && r.request.department == TrimmedOrNull(f.department)
      && r.request.role == Given(f.role)
  {
    if user.None? then NoUser
    else if Trim(f.fullName) == "" then Rejected(FullNameRequired)
    else if Trim(f.employeeId) == "" then Rejected(EmployeeIdRequired)
    else if f.role == "" then Rejected(RoleRequired)
    else Send(UpdateRequest(
      Some(user.value.id),
      Given(Trim(f.fullName)),
      Given(Trim(f.employeeId)),
      TrimmedOrNull(f.cohort),
      TrimmedOrNull(f.department),
      Given(f.role)))
  }

  /** The dialog already sends null for an empty cohort or department, so the handler's `|| null` changes nothing. */
  lemma {:induction false} EditRequestNeedsNoNulling(user: Option<UserData>, f: EditForm)
    requires SubmitEdit(user, f).Send?
    ensures var req := SubmitEdit(user, f).request;
      EmptyAsNull(req.cohort) == AsGiven(req.cohort) && EmptyAsNull(req.department) == AsGiven(req.department)
    ensures HasFields(BuildPatch(SubmitEdit(user, f).request)) && Storable(BuildPatch(SubmitEdit(user, f).request))
  {
  }

  /** A text without surrounding white space that is not empty. */
  predicate Tidy(s: string)
  {
    s != "" && Trim(s) == s
  }

  /**
   * Opening the dialog on a user whose data is already tidy and saving it unchanged sends the
   * user's own data back: the same name, employee id, cohort and department (null stays null),
   * and the first role.
   */
  lemma {:induction false} SaveUnchangedSendsSameData(u: UserData, current: EditForm)
    requires Tidy(u.fullName) && Tidy(u.employeeId)
    requires u.cohort.None? || Tidy(u.cohort.value)
    requires u.department.None? || Tidy(u.department.value)
    requires |u.roles| > 0 && u.roles[0] != ""
    ensures SubmitEdit(Some(u), OpenEditForm(Some(u), current)) == Send(UpdateRequest(
      Some(u.id),
      Given(u.fullName),
      Given(u.employeeId),
      if u.cohort.Some? then Given(u.cohort.value) else Null,
      if u.department.Some? then Given(u.department.value) else Null,
      Given(u.roles[0])))
  {
    TidyOrNull(u.cohort);
    TidyOrNull(u.department);
  }

  /** An optional column that is null or tidy comes back from its field unchanged. */
  lemma {:induction false} TidyOrNull(c: Option<string>)
    requires c.None? || Tidy(c.value)
    ensures TrimmedOrNull(c.GetOr("")) == if c.Some? then Given(c.value) else Null
  {
    assert Trim("") == "";
  }

  /**
   * A sent edit that the handler carries out for an administrator leaves the user holding
   * exactly the chosen role.
   */
  lemma {:induction false} SavedEditLeavesChosenRole(
    user: Option<UserData>, f: EditForm, t: Tables, caller: Option<Id>, now: Timestamp, faults: Faults)
    requires SubmitEdit(user, f).Send?
    requires UpdateUser(t, true, caller, SubmitEdit(user, f).request, now, faults).0.Success?
    ensures ParseRole(f.role).Some? && caller.Some?
    ensures Filter(UpdateUser(t, true, caller, SubmitEdit(user, f).request, now, faults).1.roles, RoleOfUser(user.value.id))
      == [UserRole(t.nextId, user.value.id, ParseRole(f.role).value, Some(caller.value), Some(now))]
  {
    SuccessLeavesExactlyOneRole(t, true, caller, SubmitEdit(user, f).request, now, faults);
  }

  /** `text || fallback`. */
  function OrElse(s: Option<string>, fallback: string): (r: string)
    requires fallback != ""
    ensures r != ""
    ensures s.Some? && s.value != "" ==> r == s.value
  {
    if s.Some? && s.value != "" then s.value else fallback
  }

  /**
   * The dialog's handling of the call: no session, an invocation error or a reply without
   * `success` is a failure with a message; only `success` closes the dialog.
   */
  function EditReply(hasSession: bool, invokeError: Option<string>, success: bool, replyError: Option<string>): (r: Result<(), string>)
    ensures r.Success? <==> hasSession && invokeError.None? && success
    ensures r.Failure? ==> r.error != ""
    ensures !hasSession ==> r == Failure("Not authenticated")
    ensures hasSession && invokeError.None? && !success ==> r == Failure(OrElse(replyError, "Update failed"))
  {
    if !hasSession then Failure("Not authenticated")
    else if invokeError.Some? then Failure(OrElse(invokeError, "Failed to update user"))
    else if success then Success(())
    else Failure(OrElse(replyError, "Update failed"))
  }

  /** The create form's fields. */
  datatype CreateForm = CreateForm(fullName: string, employeeId: string, email: string, password: string, role: string)

  const EmptyCreateForm := CreateForm("", "", "", "", "")
  const FieldsRequired := "Full Name, Email, Password, and Role are required"
  const EmployeeIdFormat := "Employee ID must be in format MSWIL_XXX (e.g., MSWIL_001)"
  const EmployeeIdPrefix := "MSWIL_"

  /** `/^MSWIL_\d{3}$/`: the prefix followed by exactly three decimal digits. */
  predicate IsEmployeeId(s: string)
  {
    |s| == 9 && s[..6] == EmployeeIdPrefix && AllDigits(s[6..])
  }

  /** The value of three decimal digits. */
  lemma {:induction false} ThreeDigits(d: string)
    requires |d| == 3 && AllDigits(d)
    ensures DigitsValue(d) ==
      (d[0] as int - '0' as int) * 100 + (d[1] as int - '0' as int) * 10 + (d[2] as int - '0' as int)
  {
    var two, one := d[..2], d[..1];
    assert two[..1] == one && one[..0] == [];
    assert DigitsValue(one) == d[0] as int - '0' as int;
    assert DigitsValue(two) == DigitsValue(one) * 10 + (d[1] as int - '0' as int);
    assert DigitsValue(d) == DigitsValue(two) * 10 + (d[2] as int - '0' as int);
  }

  /** The number an employee id carries. */
  function EmployeeNumber(s: string): (n: nat)
    requires IsEmployeeId(s)
    ensures n < 1000
  {
    ThreeDigits(s[6..]);
    DigitsValue(s[6..])
  }

  /** The employee id of a number below 1000, padded to three digits. */
  function EmployeeIdOf(n: nat): (s: string)
    requires n < 1000
    ensures IsEmployeeId(s)
  {
    var s := EmployeeIdPrefix + [DigitChar(n / 100), DigitChar(n / 10 % 10), DigitChar(n % 10)];
    assert s[..6] == EmployeeIdPrefix;
    s
  }

  /** The number of a padded id is the number it was padded from. */
  lemma {:induction false} EmployeeNumberOfId(n: nat)
    requires n < 1000
    ensures EmployeeNumber(EmployeeIdOf(n)) == n
  {
    var d := EmployeeIdOf(n)[6..];
    assert d == [DigitChar(n / 100), DigitChar(n / 10 % 10), DigitChar(n % 10)];
    ThreeDigits(d);
  }

  /** Every accepted employee id is the padded form of its number, so the accepted ids are exactly 000 to 999. */
  lemma {:induction false} EmployeeIdOfNumber(s: string)
    requires IsEmployeeId(s)
    ensures EmployeeIdOf(EmployeeNumber(s)) == s
  {
    var e := s[6..];
    ThreeDigits(e);
    var a, b, c := e[0] as int - '0' as int, e[1] as int - '0' as int, e[2] as int - '0' as int;
    var m := EmployeeNumber(s);
    assert m == a * 100 + b * 10 + c;
    SplitThreeDigits(a, b, c);
    assert DigitChar(a) == e[0] && DigitChar(b) == e[1] && DigitChar(c) == e[2];
    var t := EmployeeIdOf(m);
    assert t[6..] == [DigitChar(m / 100), DigitChar(m / 10 % 10), DigitChar(m % 10)];
    assert t[6..] == e;
    assert t == t[..6] + t[6..];
    assert s == s[..6] + s[6..];
  }

  /** Three decimal digits are recovered from their value by division and remainder. */
  lemma {:induction false} SplitThreeDigits(a: int, b: int, c: int)
    requires 0 <= a < 10 && 0 <= b < 10 && 0 <= c < 10
    ensures (a * 100 + b * 10 + c) / 100 == a
    ensures (a * 100 + b * 10 + c) / 10 % 10 == b
    ensures (a * 100 + b * 10 + c) % 10 == c
  {
    var n := a * 100 + b * 10 + c;
    assert n / 10 == a * 10 + b;
  }

  /** Two, four or lower-case-prefixed digits are refused. */
  lemma {:induction false} EmployeeIdExamples()
    ensures IsEmployeeId("MSWIL_001")
    ensures !IsEmployeeId("MSWIL_01") && !IsEmployeeId("MSWIL_0001") && !IsEmployeeId("mswil_001")
  {
    assert "MSWIL_001"[..6] == EmployeeIdPrefix;
    assert "MSWIL_001"[6..] == "001";
    assert "mswil_001"[0] != EmployeeIdPrefix[0];
  }

  /** `handleSubmit` of the create form, up to the call: the required fields first, then the employee id format. */
  function CheckCreate(f: CreateForm): (r: Result<(), string>)
    ensures r == Failure(FieldsRequired) <==> f.fullName == "" || f.email == "" || f.password == "" || f.role == ""
    ensures r == Failure(EmployeeIdFormat) <==>
      f.fullName != "" && f.email != "" && f.password != "" && f.role != "" && f.employeeId != "" && !IsEmployeeId(f.employeeId)
    ensures r.Success? <==>
      f.fullName != "" && f.email != "" && f.password != "" && f.role != "" && (f.employeeId == "" || IsEmployeeId(f.employeeId))
  {
    if f.fullName == "" || f.email == "" || f.password == "" || f.role == "" then Failure(FieldsRequired)
    else if f.employeeId != "" && !IsEmployeeId(f.employeeId) then Failure(EmployeeIdFormat)
    else Success(())
  }

  /**
   * The create call's reply: an invocation error or an `error` in the reply is a failure. An
   * invocation error with an empty message is reported with the page's fallback text, where the
   * page itself would show the empty message.
   */
  function CreateReply(invokeError: Option<string>, replyError: Option<string>): (r: Result<(), string>)
    ensures r.Success? <==> invokeError.None? && (replyError.None? || replyError.value == "")
    ensures r.Failure? ==> r.error != ""
    ensures invokeError.None? && replyError.Some? && replyError.value != "" ==> r == Failure(replyError.value)
  {
    if invokeError.Some? then Failure(OrElse(invokeError, "Failed to create user"))
    else if replyError.Some? && replyError.value != "" then Failure(replyError.value)
    else Success(())
  }

  /** The form after the call: cleared on success, kept as typed on failure. */
  function FormAfterCreate(f: CreateForm, reply: Result<(), string>): (r: CreateForm)
    ensures reply.Success? ==> r == EmptyCreateForm
    ensures reply.Failure? ==> r == f
  {
    if reply.Success? then EmptyCreateForm else f
  }

  /** A cleared form cannot be sent again without retyping: it fails the required-field check. */
  lemma {:induction false} ClearedFormIsRejected(f: CreateForm, reply: Result<(), string>)
    requires reply.Success?
    ensures CheckCreate(FormAfterCreate(f, reply)) == Failure(FieldsRequired)
  {
  }
}
