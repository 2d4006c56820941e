/**
 * The rows of the portal's database tables and the three enumerations of its schema:
 * `app_role`, `question_type` and `test_status`. Ids (uuids in the database) are natural
 * numbers, timestamps are milliseconds since the epoch, and a nullable column is an `Option`.
 * Columns no model operation reads (`created_at` and friends) are left out.
 */
module Schema {
  import opened Wrappers

  type Id = nat
  type Timestamp = int

  /** `app_role`. */
  datatype AppRole = Admin | Evaluator | Manager | NewJoinee

  /** `question_type`. */
  datatype QuestionType = Mcq | Text

  /** `test_status`. */
  datatype TestStatus = Locked | Available | InProgress | Submitted | Evaluated | Graded

  /** The enumeration values as the `Constants` object lists them, in the same order. */
  const AppRoleValues: seq<string> := ["admin", "evaluator", "manager", "new_joinee"]
  const QuestionTypeValues: seq<string> := ["mcq", "text"]
  const TestStatusValues: seq<string> := ["locked", "available", "in_progress", "submitted", "evaluated", "graded"]

  /** The database spelling of a role: its entry in `AppRoleValues`. */
  function RoleName(r: AppRole): (s: string)
    ensures s in AppRoleValues
  {
    match r
    case Admin => "admin"
    case Evaluator => "evaluator"
    case Manager => "manager"
    case NewJoinee => "new_joinee"
  }

  /** Reads a role back from its database spelling; any other string is no role. */
  function ParseRole(s: string): (r: Option<AppRole>)
    ensures forall x :: r == Some(x) <==> RoleName(x) == s
    ensures r.None? <==> s !in AppRoleValues
  {
    if s == "admin" then Some(Admin)
    else if s == "evaluator" then Some(Evaluator)
    else if s == "manager" then Some(Manager)
    else if s == "new_joinee" then Some(NewJoinee)
    else None
  }

  /** The database spelling of a question type. */
  function QuestionTypeName(t: QuestionType): (s: string)
    ensures s in QuestionTypeValues
  {
    match t
    case Mcq => "mcq"
    case Text => "text"
  }

  /** Reads a question type back; only "mcq" and "text" are question types. */
  function ParseQuestionType(s: string): (r: Option<QuestionType>)
    ensures forall x :: r == Some(x) <==> QuestionTypeName(x) == s
    ensures r.None? <==> s !in QuestionTypeValues
  {
    if s == "mcq" then Some(Mcq) else if s == "text" then Some(Text) else None
  }

  /** The database spelling of a status. */
  function StatusName(st: TestStatus): (s: string)
    ensures s in TestStatusValues
  {
    match st
    case Locked => "locked"
    case Available => "available"
    case InProgress => "in_progress"
    case Submitted => "submitted"
    case Evaluated => "evaluated"
    case Graded => "graded"
  }

  /** Reads a status back; exactly the six listed strings are statuses. */
  function ParseStatus(s: string): (r: Option<TestStatus>)
    ensures forall x :: r == Some(x) <==> StatusName(x) == s
    ensures r.None? <==> s !in TestStatusValues
  {
    if s == "locked" then Some(Locked)
    else if s == "available" then Some(Available)
    else if s == "in_progress" then Some(InProgress)
    else if s == "submitted" then Some(Submitted)
    else if s == "evaluated" then Some(Evaluated)
    else if s == "graded" then Some(Graded)
    else None
  }

  /** The `Constants` arrays are in one-to-one correspondence with the enumerations: no duplicates, nothing missing. */
  lemma {:induction false} ConstantsMatchEnums()
    ensures |TestStatusValues| == 6 && |QuestionTypeValues| == 2 && |AppRoleValues| == 4
    ensures forall i, j :: 0 <= i < j < |TestStatusValues| ==> TestStatusValues[i] != TestStatusValues[j]
    ensures forall i, j :: 0 <= i < j < |AppRoleValues| ==> AppRoleValues[i] != AppRoleValues[j]
    ensures QuestionTypeValues[0] != QuestionTypeValues[1]
    ensures forall s :: s in TestStatusValues ==> ParseStatus(s).Some?
    ensures forall s :: s in AppRoleValues ==> ParseRole(s).Some?
    ensures forall s :: s in QuestionTypeValues ==> ParseQuestionType(s).Some?
  {
  }

  /** A row of `tests`. */
  datatype Test = Test(
    id: Id,
    title: string,
    description: Option<string>,
    testNumber: int,
    timeLimitMinutes: Option<int>,
    passingScore: int,
    isActive: Option<bool>)

  /** A row of `test_questions`; `options` is the JSON array of an MCQ's choices. */
  datatype Question = Question(
    id: Id,
    testId: Id,
    questionNumber: int,
    questionText: string,
    questionType: QuestionType,
    maxPoints: int,
    correctAnswer: Option<string>,
    options: Option<seq<string>>)

  /** A row of `test_attempts`: `score` and `passed` stay null until an evaluation is saved. */
  datatype Attempt = Attempt(
    id: Id,
    userId: Id,
    testId: Id,
    status: TestStatus,
    startedAt: Option<Timestamp>,
    submittedAt: Option<Timestamp>,
    score: Option<int>,
    passed: Option<bool>,
    isLocked: Option<bool>,
    lockedAt: Option<Timestamp>,
    lockedBy: Option<Id>)

  /** A row of `test_responses`: `points_awarded` and `auto_scored` are nullable. */
  datatype Response = Response(
    id: Id,
    attemptId: Id,
    questionId: Id,
    answerText: Option<string>,
    pointsAwarded: Option<int>,
    autoScored: Option<bool>)

  /** A row of `evaluations`: the points are never null, and the row names both its response and its attempt. */
  datatype Evaluation = Evaluation(
    id: Id,
    attemptId: Id,
    responseId: Id,
    evaluatorId: Id,
    pointsAwarded: int,
    feedback: Option<string>,
    isFinal: Option<bool>,
    evaluatedAt: Option<Timestamp>)

  /** A row of `profiles`. */
  datatype Profile = Profile(
    id: Id,
    fullName: string,
    employeeId: string,
    cohort: Option<string>,
    department: Option<string>,
    updatedAt: Option<Timestamp>)

  /** A row of `user_roles`. */
  datatype UserRole = UserRole(
    id: Id,
    userId: Id,
    role: AppRole,
    assignedBy: Option<Id>,
    assignedAt: Option<Timestamp>)

  /**
   * The columns an insert into `test_attempts` must supply: the test and the user. Every other
   * column takes its database default; the schema types do not state those defaults, so the
   * default status and the start time are parameters of `InsertedAttempt`.
   */
  datatype AttemptInsert = AttemptInsert(testId: Id, userId: Id, status: Option<TestStatus>)

  /** The row an attempt insert creates under the id the database assigns. */
  function InsertedAttempt(id: Id, ins: AttemptInsert, defaultStatus: TestStatus, now: Timestamp): (a: Attempt)
    ensures a.id == id && a.testId == ins.testId && a.userId == ins.userId
    ensures a.status == (if ins.status.Some? then ins.status.value else defaultStatus)
    ensures a.startedAt == Some(now) && a.submittedAt.None?
    ensures a.score.None? && a.passed.None?
  {
    Attempt(id, ins.userId, ins.testId, ins.status.GetOr(defaultStatus), Some(now), None, None, None, None, None, None)
  }
}
