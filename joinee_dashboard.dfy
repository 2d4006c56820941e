/**
 * The new joinee's list of tests: each active test gets a card whose status follows from the
 * user's attempts and from the test numbered just before it, which must be completed first.
 */
module JoineeDashboard {
  import opened Wrappers
  import opened Seqs
  import opened Schema
  import opened Store
  import TestTaking

  /** The status shown on a test's card. */
  datatype CardStatus = CardCompleted | CardInProgress | CardLocked | CardAvailable

  /** Submitted, evaluated and graded attempts count as completed. */
  predicate IsCompleted(s: TestStatus)
  {
    s == Submitted || s == Evaluated || s == Graded
  }

  function AttemptOnTest(testId: Id): Attempt -> bool { (a: Attempt) => a.testId == testId }
  function NumberedTest(n: int): Test -> bool { (t: Test) => t.testNumber == n }
  function CompletedAttempt(a: Attempt): bool { IsCompleted(a.status) }
  function OpenOrNotStarted(a: Attempt): bool { !IsCompleted(a.status) }

  /** `attempts.find(a => a.test_id === test.id)`: the first attempt on the test. */
  function AttemptFor(attempts: seq<Attempt>, testId: Id): (r: Option<Attempt>)
    ensures r.Some? ==> r.value in attempts && r.value.testId == testId
    ensures r.None? ==> forall a :: a in attempts ==> a.testId != testId
  {
    Find(attempts, AttemptOnTest(testId))
  }

  /** The previous test exists among the listed tests and the user's first attempt on it is missing or not completed. */
  predicate BlockedByPrevious(tests: seq<Test>, attempts: seq<Attempt>, test: Test)
  {
    test.testNumber > 1 &&
    match Find(tests, NumberedTest(test.testNumber - 1))
    case None => false
    case Some(prev) =>
      var prevAttempt := AttemptFor(attempts, prev.id);
      !(prevAttempt.Some? && IsCompleted(prevAttempt.value.status))
  }

  /** `getTestStatus`. */
  function GetTestStatus(tests: seq<Test>, attempts: seq<Attempt>, test: Test): (r: CardStatus)
    ensures var a := AttemptFor(attempts, test.id);
      && (r == CardCompleted <==> a.Some? && IsCompleted(a.value.status))
      && (r == CardInProgress <==> a.Some? && a.value.status == InProgress)
      && (r == CardLocked <==>
            !(a.Some? && (IsCompleted(a.value.status) || a.value.status == InProgress)) && BlockedByPrevious(tests, attempts, test))
  {
    var a := AttemptFor(attempts, test.id);
    if a.Some? && IsCompleted(a.value.status) then CardCompleted
    else if a.Some? && a.value.status == InProgress then CardInProgress
    else if BlockedByPrevious(tests, attempts, test) then CardLocked
    else CardAvailable
  }

  /** The first test, or any test whose predecessor number is not listed, is never locked. */
  lemma {:induction false} NeverLockedWithoutPredecessor(tests: seq<Test>, attempts: seq<Attempt>, test: Test)
    requires test.testNumber <= 1 || forall t :: t in tests ==> t.testNumber != test.testNumber - 1
    ensures GetTestStatus(tests, attempts, test) != CardLocked
  {
  }

  predicate PendingPredecessor(tests: seq<Test>, attempts: seq<Attempt>, test: Test, prev: Test)
  {
    prev in tests && prev.testNumber == test.testNumber - 1 &&
    !(AttemptFor(attempts, prev.id).Some? && IsCompleted(AttemptFor(attempts, prev.id).value.status))
  }

  /** A locked test has a listed predecessor whose first attempt is not completed; completing it unlocks the test. */
  lemma {:induction false} LockedMeansPredecessorPending(tests: seq<Test>, attempts: seq<Attempt>, test: Test)
    requires GetTestStatus(tests, attempts, test) == CardLocked
    ensures exists prev :: PendingPredecessor(tests, attempts, test, prev)
  {
    var prev := Find(tests, NumberedTest(test.testNumber - 1)).value;
    assert PendingPredecessor(tests, attempts, test, prev);
  }

  /** A test without any attempt whose listed predecessor has a completed first attempt is available. */
  lemma {:induction false} AvailableAfterPredecessor(tests: seq<Test>, attempts: seq<Attempt>, test: Test)
    requires AttemptFor(attempts, test.id).None?
    requires var prev := Find(tests, NumberedTest(test.testNumber - 1));
      prev.Some? && AttemptFor(attempts, prev.value.id).Some? && IsCompleted(AttemptFor(attempts, prev.value.id).value.status)
    ensures GetTestStatus(tests, attempts, test) == CardAvailable
  {
  }

  /**
   * Submitting an attempt (as the test page does) makes its test show as completed, provided it is the
   * first attempt on that test.
   */
  lemma {:induction false} SubmittedTestShowsCompleted(tests: seq<Test>, attempts: seq<Attempt>, test: Test, now: Timestamp)
    requires AttemptFor(attempts, test.id).Some?
    ensures GetTestStatus(tests, UpdateAttempt(attempts, AttemptFor(attempts, test.id).value.id, TestTaking.SubmittedWith(now)), test)
      == CardCompleted
  {
    var a := AttemptFor(attempts, test.id).value;
    var after := UpdateAttempt(attempts, a.id, TestTaking.SubmittedWith(now));
    var p := AttemptOnTest(test.id);
    FindIndexPointwise(attempts, after, p);
    var i := FindIndex(attempts, p).value;
    assert attempts[i] == a;
  }

  /** What pressing a card's button does. */
  datatype StartOutcome = RefusedLocked | RefusedCompleted | OpenTest(testId: Id)

  /** `handleStartTest`: locked and completed tests are refused; otherwise the test page opens. */
  function HandleStartTest(tests: seq<Test>, attempts: seq<Attempt>, test: Test): (r: StartOutcome)
    ensures r == RefusedLocked <==> GetTestStatus(tests, attempts, test) == CardLocked
    ensures r == RefusedCompleted <==> GetTestStatus(tests, attempts, test) == CardCompleted
    ensures r.OpenTest? ==> r.testId == test.id
  {
    var status := GetTestStatus(tests, attempts, test);
    if status == CardLocked then RefusedLocked
    else if status == CardCompleted then RefusedCompleted
    else OpenTest(test.id)
  }

  /** A test with an attempt in progress can always be reopened, whatever its predecessor. */
  lemma {:induction false} InProgressCanResume(tests: seq<Test>, attempts: seq<Attempt>, test: Test)
    requires AttemptFor(attempts, test.id).Some? && AttemptFor(attempts, test.id).value.status == InProgress
    ensures HandleStartTest(tests, attempts, test) == OpenTest(test.id)
  {
  }

  /** `completedTests`: the attempts with a completed status. */
  function CompletedTests(attempts: seq<Attempt>): (n: nat)
    ensures n <= |attempts|
    ensures n == |attempts| - Count(attempts, OpenOrNotStarted)
  {
    CountSplit(attempts, CompletedAttempt, OpenOrNotStarted);
    Count(attempts, CompletedAttempt)
  }

  /** Submitting an in-progress attempt adds one to the completed count. */
  lemma {:induction false} SubmitAddsCompleted(attempts: seq<Attempt>, id: Id, now: Timestamp)
    requires DistinctIds(attempts, AttemptKey)
    requires exists i :: 0 <= i < |attempts| && attempts[i].id == id && attempts[i].status == InProgress
    ensures CompletedTests(UpdateAttempt(attempts, id, TestTaking.SubmittedWith(now))) == CompletedTests(attempts) + 1
  {
    var k :| 0 <= k < |attempts| && attempts[k].id == id && attempts[k].status == InProgress;
    SubmitOneMore(attempts, id, now, k);
  }

  lemma {:induction false} SubmitOneMore(attempts: seq<Attempt>, id: Id, now: Timestamp, k: nat)
    requires DistinctIds(attempts, AttemptKey)
    requires k < |attempts| && attempts[k].id == id && attempts[k].status == InProgress
    ensures Count(UpdateAttempt(attempts, id, TestTaking.SubmittedWith(now)), CompletedAttempt) == Count(attempts, CompletedAttempt) + 1
  {
    var after := UpdateAttempt(attempts, id, TestTaking.SubmittedWith(now));
    forall i | 0 <= i < |attempts| && i != k ensures CompletedAttempt(attempts[i]) == CompletedAttempt(after[i]) {
      assert AttemptKey(attempts[i]) != AttemptKey(attempts[k]);
    }
    CountOneChange(attempts, after, k, CompletedAttempt);
  }
}
