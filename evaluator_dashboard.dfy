/**
 * The evaluator's dashboard: the submitted attempts waiting for evaluation (oldest submission
 * first), the evaluated attempts (newest submission first) with their evaluations, the count of
 * evaluated attempts, and the search of both lists by employee id.
 */
module EvaluatorDashboard {
  import opened Wrappers
  import opened Seqs
  import opened Schema
  import opened Text
  import opened Store
  import Grading

  // Ordering by a nullable column, as PostgreSQL does it: nulls come after every value in
  // ascending order and before every value in descending order. Rows with equal keys come in
  // an order the database does not fix; the model fixes one.

  function IsSet<T>(t: T -> Option<int>): T -> bool { (x: T) => t(x).Some? }
  function IsNull<T>(t: T -> Option<int>): T -> bool { (x: T) => t(x).None? }
  function ValueOf<T>(t: T -> Option<int>): T -> int { (x: T) => t(x).GetOr(0) }
  function NegatedValueOf<T>(t: T -> Option<int>): T -> int { (x: T) => -t(x).GetOr(0) }

  /** `x` may come before `y` in ascending order, nulls last. */
  function AscendingBefore<T>(t: T -> Option<int>): (T, T) -> bool
  {
    (x: T, y: T) => t(y).Some? ==> t(x).Some? && t(x).value <= t(y).value
  }

  /** `x` may come before `y` in descending order, nulls first. */
  function DescendingBefore<T>(t: T -> Option<int>): (T, T) -> bool
  {
    (x: T, y: T) => t(x).Some? ==> t(y).Some? && t(y).value <= t(x).value
  }

  /** `.order(column, { ascending: true })`. */
  function OrderAscending<T(!new)>(s: seq<T>, t: T -> Option<int>): (r: seq<T>)
    ensures multiset(r) == multiset(s)
    ensures Pairwise(r, AscendingBefore(t))
  {
    var values := SortByKey(Filter(s, IsSet(t)), ValueOf(t));
    var nulls := Filter(s, IsNull(t));
    FilterSplitMultiset(s, IsSet(t), IsNull(t));
    AscendingParts(values, nulls, t, Filter(s, IsSet(t)));
    values + nulls
  }

  lemma {:induction false} AscendingParts<T>(values: seq<T>, nulls: seq<T>, t: T -> Option<int>, set_: seq<T>)
    requires SortedBy(values, ValueOf(t)) && multiset(values) == multiset(set_)
    requires forall x :: x in set_ ==> t(x).Some?
    requires forall x :: x in nulls ==> t(x).None?
    ensures Pairwise(values + nulls, AscendingBefore(t))
  {
    var r := values + nulls;
    forall i, j | 0 <= i < j < |r| ensures AscendingBefore(t)(r[i], r[j]) {
      if j < |values| {
        assert r[i] in multiset(set_) && r[j] in multiset(set_);
      } else {
        assert r[j] in nulls;
      }
    }
  }

  /** `.order(column, { ascending: false })`. */
  function OrderDescending<T(!new)>(s: seq<T>, t: T -> Option<int>): (r: seq<T>)
    ensures multiset(r) == multiset(s)
    ensures Pairwise(r, DescendingBefore(t))
  {
    var nulls := Filter(s, IsNull(t));
    var values := SortByKey(Filter(s, IsSet(t)), NegatedValueOf(t));
    FilterSplitMultiset(s, IsSet(t), IsNull(t));
    DescendingParts(nulls, values, t, Filter(s, IsSet(t)));
    nulls + values
  }

  lemma {:induction false} DescendingParts<T>(nulls: seq<T>, values: seq<T>, t: T -> Option<int>, set_: seq<T>)
    requires SortedBy(values, NegatedValueOf(t)) && multiset(values) == multiset(set_)
    requires forall x :: x in set_ ==> t(x).Some?
    requires forall x :: x in nulls ==> t(x).None?
    ensures Pairwise(nulls + values, DescendingBefore(t))
  {
    var r := nulls + values;
    forall i, j | 0 <= i < j < |r| ensures DescendingBefore(t)(r[i], r[j]) {
      if i >= |nulls| {
        assert r[i] == values[i - |nulls|] && r[j] == values[j - |nulls|];
        assert r[i] in multiset(set_) && r[j] in multiset(set_);
      } else {
        assert r[i] in nulls;
      }
    }
  }

  function SubmittedAtOf(a: Attempt): Option<int> { a.submittedAt }
  function EvaluatedAtOf(e: Evaluation): Option<int> { e.evaluatedAt }
  function WithStatus(s: TestStatus): Attempt -> bool { (a: Attempt) => a.status == s }
  function UserOf(a: Attempt): Id { a.userId }
  function TestOf(a: Attempt): Id { a.testId }
  function IdOf(a: Attempt): Id { a.id }
  function ProfileIdIn(ids: seq<Id>): Profile -> bool { (p: Profile) => p.id in ids }
  function TestIdIn(ids: seq<Id>): Test -> bool { (t: Test) => t.id in ids }
  function AttemptIdIn(ids: seq<Id>): Evaluation -> bool { (e: Evaluation) => e.attemptId in ids }
  function ProfileWithId(id: Id): Profile -> bool { (p: Profile) => p.id == id }
  function TestWithId(id: Id): Test -> bool { (t: Test) => t.id == id }
  function EvaluationOf(attemptId: Id): Evaluation -> bool { (e: Evaluation) => e.attemptId == attemptId }

  /** The joinee shown on a row. */
  datatype Person = Person(fullName: string, employeeId: string)

  /** The test shown on a row. */
  datatype TestLabel = TestLabel(title: string, testNumber: int)

  const UnknownPerson := Person("Unknown", "N/A")
  const UnknownTest := TestLabel("Unknown", 0)
  const DefaultPassingScore := 70

  /** The first profile with the given id, or the placeholder joinee when there is none. */
  function PersonFor(profiles: seq<Profile>, userId: Id): (r: Person)
    ensures (forall p :: p in profiles ==> p.id != userId) ==> r == UnknownPerson
    ensures forall i :: 0 <= i < |profiles| && profiles[i].id == userId && (forall j :: 0 <= j < i ==> profiles[j].id != userId) ==>
      r == Person(profiles[i].fullName, profiles[i].employeeId)
  {
    match FindIndex(profiles, ProfileWithId(userId))
    case None => UnknownPerson
    case Some(i) => Person(profiles[i].fullName, profiles[i].employeeId)
  }

  /** The first test with the given id, or the placeholder test when there is none. */
  function TestFor(tests: seq<Test>, testId: Id): (r: TestLabel)
    ensures (forall t :: t in tests ==> t.id != testId) ==> r == UnknownTest
    ensures forall i :: 0 <= i < |tests| && tests[i].id == testId && (forall j :: 0 <= j < i ==> tests[j].id != testId) ==>
      r == TestLabel(tests[i].title, tests[i].testNumber)
  {
    match FindIndex(tests, TestWithId(testId))
    case None => UnknownTest
    case Some(i) => TestLabel(tests[i].title, tests[i].testNumber)
  }

  /** The passing score of the first test with the given id, or 70 when there is none. */
  function PassingScoreFor(tests: seq<Test>, testId: Id): (r: int)
    ensures (forall t :: t in tests ==> t.id != testId) ==> r == DefaultPassingScore
    ensures forall i :: 0 <= i < |tests| && tests[i].id == testId && (forall j :: 0 <= j < i ==> tests[j].id != testId) ==>
      r == tests[i].passingScore
  {
    match FindIndex(tests, TestWithId(testId))
    case None => DefaultPassingScore
    case Some(i) => tests[i].passingScore
  }

  /** Fetching only the profiles whose id is among the attempts' user ids changes no lookup of those ids. */
  lemma {:induction false} NarrowedProfiles(profiles: seq<Profile>, ids: seq<Id>, userId: Id)
    requires userId in ids
    ensures PersonFor(Filter(profiles, ProfileIdIn(ids)), userId) == PersonFor(profiles, userId)
  {
    FindInFiltered(profiles, ProfileIdIn(ids), ProfileWithId(userId));
    FindIndexOfFind(Filter(profiles, ProfileIdIn(ids)), ProfileWithId(userId));
    FindIndexOfFind(profiles, ProfileWithId(userId));
  }

  /** Fetching only the tests whose id is among the attempts' test ids changes no lookup of those ids. */
  lemma {:induction false} NarrowedTests(tests: seq<Test>, ids: seq<Id>, testId: Id)
    requires testId in ids
    ensures TestFor(Filter(tests, TestIdIn(ids)), testId) == TestFor(tests, testId)
    ensures PassingScoreFor(Filter(tests, TestIdIn(ids)), testId) == PassingScoreFor(tests, testId)
  {
    FindInFiltered(tests, TestIdIn(ids), TestWithId(testId));
    FindIndexOfFind(Filter(tests, TestIdIn(ids)), TestWithId(testId));
    FindIndexOfFind(tests, TestWithId(testId));
  }

  /** The lookups above depend only on the element `find` returns. */
  lemma {:induction false} FindIndexOfFind<T>(s: seq<T>, p: T -> bool)
    ensures FindIndex(s, p).None? <==> Find(s, p).None?
    ensures FindIndex(s, p).Some? ==> Find(s, p) == Some(s[FindIndex(s, p).value])
  {
  }

  /** Every attempt of `ordered` finds, among the fetched profiles and tests, what it would find in the whole tables. */
  lemma {:induction false} FetchedJoinsAgree(ordered: seq<Attempt>, profiles: seq<Profile>, tests: seq<Test>)
    ensures forall i :: 0 <= i < |ordered| ==>
      && PersonFor(Filter(profiles, ProfileIdIn(Dedupe(Map(ordered, UserOf)))), ordered[i].userId) == PersonFor(profiles, ordered[i].userId)
      && TestFor(Filter(tests, TestIdIn(Dedupe(Map(ordered, TestOf)))), ordered[i].testId) == TestFor(tests, ordered[i].testId)
      && PassingScoreFor(Filter(tests, TestIdIn(Dedupe(Map(ordered, TestOf)))), ordered[i].testId) == PassingScoreFor(tests, ordered[i].testId)
  {
    forall i | 0 <= i < |ordered|
      ensures PersonFor(Filter(profiles, ProfileIdIn(Dedupe(Map(ordered, UserOf)))), ordered[i].userId) == PersonFor(profiles, ordered[i].userId)
      ensures TestFor(Filter(tests, TestIdIn(Dedupe(Map(ordered, TestOf)))), ordered[i].testId) == TestFor(tests, ordered[i].testId)
      ensures PassingScoreFor(Filter(tests, TestIdIn(Dedupe(Map(ordered, TestOf)))), ordered[i].testId) == PassingScoreFor(tests, ordered[i].testId)
    {
      assert Map(ordered, UserOf)[i] == ordered[i].userId;
      assert Map(ordered, TestOf)[i] == ordered[i].testId;
      NarrowedProfiles(profiles, Dedupe(Map(ordered, UserOf)), ordered[i].userId);
      NarrowedTests(tests, Dedupe(Map(ordered, TestOf)), ordered[i].testId);
    }
  }

  /** A row of the pending list. */
  datatype PendingRow = PendingRow(attempt: Attempt, person: Person, test: TestLabel)

  function PendingAttempt(row: PendingRow): Attempt { row.attempt }

  /** `attempts.map(...)` of the pending list: each attempt with its joinee and its test. */
  function PendingJoin(ordered: seq<Attempt>, profilesFetched: seq<Profile>, testsFetched: seq<Test>): (r: seq<PendingRow>)
    ensures Map(r, PendingAttempt) == ordered
    ensures forall i :: 0 <= i < |r| ==>
      r[i].person == PersonFor(profilesFetched, ordered[i].userId) && r[i].test == TestFor(testsFetched, ordered[i].testId)
  {
    seq(|ordered|, i requires 0 <= i < |ordered| =>
      PendingRow(ordered[i], PersonFor(profilesFetched, ordered[i].userId), TestFor(testsFetched, ordered[i].testId)))
  }

  /** The submitted attempts, oldest submission first. */
  function PendingOrder(attempts: seq<Attempt>): (r: seq<Attempt>)
    ensures multiset(r) == multiset(Filter(attempts, WithStatus(Submitted)))
    ensures Pairwise(r, AscendingBefore(SubmittedAtOf))
  {
    OrderAscending(Filter(attempts, WithStatus(Submitted)), SubmittedAtOf)
  }

  /**
   * `fetchPendingAttempts`: every submitted attempt, oldest submission first, joined with the
   * profiles and tests fetched for the attempts' (deduplicated) user and test ids.
   */
  function PendingEvaluations(attempts: seq<Attempt>, profiles: seq<Profile>, tests: seq<Test>): (r: seq<PendingRow>)
    ensures |r| == Count(attempts, WithStatus(Submitted))
    ensures multiset(Map(r, PendingAttempt)) == multiset(Filter(attempts, WithStatus(Submitted)))
    ensures Pairwise(Map(r, PendingAttempt), AscendingBefore(SubmittedAtOf))
    ensures forall i :: 0 <= i < |r| ==>
      r[i].person == PersonFor(profiles, r[i].attempt.userId) && r[i].test == TestFor(tests, r[i].attempt.testId)
  {
    var ordered := PendingOrder(attempts);
    if ordered == [] then []
    else
      FetchedJoinsAgree(ordered, profiles, tests);
      PendingJoin(ordered,
        Filter(profiles, ProfileIdIn(Dedupe(Map(ordered, UserOf)))),
        Filter(tests, TestIdIn(Dedupe(Map(ordered, TestOf)))))
  }

  /** A row of the evaluated list, with the attempt's evaluations newest first. */
  datatype EvaluatedRow = EvaluatedRow(
    attempt: Attempt, person: Person, test: TestLabel, passingScore: int, evaluations: seq<Evaluation>)

  function EvaluatedAttempt(row: EvaluatedRow): Attempt { row.attempt }

  /** The evaluations fetched for the listed attempts, newest first. */
  function FetchedEvaluations(evaluations: seq<Evaluation>, attemptIds: seq<Id>): (r: seq<Evaluation>)
    ensures multiset(r) == multiset(Filter(evaluations, AttemptIdIn(attemptIds)))
    ensures Pairwise(r, DescendingBefore(EvaluatedAtOf))
  {
    OrderDescending(Filter(evaluations, AttemptIdIn(attemptIds)), EvaluatedAtOf)
  }

  /** `evaluations.filter(e => e.attempt_id === attempt.id)`: one attempt's evaluations, in the fetched order. */
  function EvaluationsFor(all: seq<Evaluation>, ids: seq<Id>, attemptId: Id): (r: seq<Evaluation>)
    requires attemptId in ids
    ensures multiset(r) == multiset(Filter(all, EvaluationOf(attemptId)))
    ensures Pairwise(r, DescendingBefore(EvaluatedAtOf))
  {
    var fetched := FetchedEvaluations(all, ids);
    FilterPermutation(fetched, Filter(all, AttemptIdIn(ids)), EvaluationOf(attemptId));
    FilterOfFilter(all, AttemptIdIn(ids), EvaluationOf(attemptId));
    FilterKeepsPairwise(fetched, EvaluationOf(attemptId), DescendingBefore(EvaluatedAtOf));
    Filter(fetched, EvaluationOf(attemptId))
  }

  /** The evaluations of each listed attempt, newest first. */
  function EvaluationLists(ordered: seq<Attempt>, evaluations: seq<Evaluation>): (r: seq<seq<Evaluation>>)
    ensures |r| == |ordered|
    ensures forall i :: 0 <= i < |r| ==>
      && multiset(r[i]) == multiset(Filter(evaluations, EvaluationOf(ordered[i].id)))
      && Pairwise(r[i], DescendingBefore(EvaluatedAtOf))
  {
    var attemptIds := Map(ordered, IdOf);
    assert forall i :: 0 <= i < |ordered| ==> ordered[i].id in attemptIds by {
      forall i | 0 <= i < |ordered| ensures ordered[i].id in attemptIds {
        assert attemptIds[i] == ordered[i].id;
      }
    }
    seq(|ordered|, i requires 0 <= i < |ordered| => EvaluationsFor(evaluations, attemptIds, ordered[i].id))
  }

  /** `attempts.map(...)` of the evaluated list. */
  function EvaluatedJoin(ordered: seq<Attempt>, profilesFetched: seq<Profile>, testsFetched: seq<Test>, evaluations: seq<Evaluation>)
    : (r: seq<EvaluatedRow>)
    ensures Map(r, EvaluatedAttempt) == ordered
    ensures forall i :: 0 <= i < |r| ==>
      && r[i].person == PersonFor(profilesFetched, ordered[i].userId)
      && r[i].test == TestFor(testsFetched, ordered[i].testId)
      && r[i].passingScore == PassingScoreFor(testsFetched, ordered[i].testId)
    ensures forall i :: 0 <= i < |r| ==>
      && multiset(r[i].evaluations) == multiset(Filter(evaluations, EvaluationOf(ordered[i].id)))
      && Pairwise(r[i].evaluations, DescendingBefore(EvaluatedAtOf))
  {
    var lists := EvaluationLists(ordered, evaluations);
    seq(|ordered|, i requires 0 <= i < |ordered| =>
      EvaluatedRow(
        ordered[i],
        PersonFor(profilesFetched, ordered[i].userId),
        TestFor(testsFetched, ordered[i].testId),
        PassingScoreFor(testsFetched, ordered[i].testId),
        lists[i]))
  }

  /** The evaluated attempts, newest submission first. */
  function EvaluatedOrder(attempts: seq<Attempt>): (r: seq<Attempt>)
    ensures multiset(r) == multiset(Filter(attempts, WithStatus(Evaluated)))
    ensures Pairwise(r, DescendingBefore(SubmittedAtOf))
  {
    OrderDescending(Filter(attempts, WithStatus(Evaluated)), SubmittedAtOf)
  }

  /**
   * `fetchEvaluatedAttempts`: every evaluated attempt, newest submission first, joined with its
   * profile, its test (title, number and passing score) and its evaluations, newest first.
   */
  function EvaluatedTests(attempts: seq<Attempt>, profiles: seq<Profile>, tests: seq<Test>, evaluations: seq<Evaluation>)
    : (r: seq<EvaluatedRow>)
    ensures |r| == Count(attempts, WithStatus(Evaluated))
    ensures multiset(Map(r, EvaluatedAttempt)) == multiset(Filter(attempts, WithStatus(Evaluated)))
    ensures Pairwise(Map(r, EvaluatedAttempt), DescendingBefore(SubmittedAtOf))
    ensures forall i :: 0 <= i < |r| ==>
      && r[i].person == PersonFor(profiles, r[i].attempt.userId)
      && r[i].test == TestFor(tests, r[i].attempt.testId)
      && r[i].passingScore == PassingScoreFor(tests, r[i].attempt.testId)
    ensures forall i :: 0 <= i < |r| ==>
      && multiset(r[i].evaluations) == multiset(Filter(evaluations, EvaluationOf(r[i].attempt.id)))
      && Pairwise(r[i].evaluations, DescendingBefore(EvaluatedAtOf))
  {
    var ordered := EvaluatedOrder(attempts);
    if ordered == [] then []
    else
      FetchedJoinsAgree(ordered, profiles, tests);
      EvaluatedJoin(ordered,
        Filter(profiles, ProfileIdIn(Dedupe(Map(ordered, UserOf)))),
        Filter(tests, TestIdIn(Dedupe(Map(ordered, TestOf)))),
        evaluations)
  }

  /** The "Evaluated On" cell: the first evaluation's date, or `-` (here `None`) when it has none. */
  function EvaluatedOn(row: EvaluatedRow): Option<Timestamp>
  {
    if |row.evaluations| > 0 then row.evaluations[0].evaluatedAt else None
  }

  /**
   * The date shown is the latest evaluation date of the attempt; the cell shows `-` exactly when
   * the attempt has no evaluation or one of its evaluations carries no date.
   */
  lemma {:induction false} EvaluatedOnIsLatest(attempts: seq<Attempt>, profiles: seq<Profile>, tests: seq<Test>, evaluations: seq<Evaluation>, i: nat)
    requires i < |EvaluatedTests(attempts, profiles, tests, evaluations)|
    ensures var row := EvaluatedTests(attempts, profiles, tests, evaluations)[i];
      EvaluatedOn(row).Some? ==>
        forall e :: e in evaluations && e.attemptId == row.attempt.id ==> e.evaluatedAt.Some? && e.evaluatedAt.value <= EvaluatedOn(row).value
    ensures var row := EvaluatedTests(attempts, profiles, tests, evaluations)[i];
      EvaluatedOn(row).Some? ==> exists e :: e in evaluations && e.attemptId == row.attempt.id && e.evaluatedAt == EvaluatedOn(row)
    ensures var row := EvaluatedTests(attempts, profiles, tests, evaluations)[i];
      EvaluatedOn(row).None? <==> ShowsNoDate(evaluations, row.attempt.id)
  {
    var row := EvaluatedTests(attempts, profiles, tests, evaluations)[i];
    FirstIsLatest(row, evaluations);
  }

  lemma {:induction false} FirstIsLatest(row: EvaluatedRow, evaluations: seq<Evaluation>)
    requires multiset(row.evaluations) == multiset(Filter(evaluations, EvaluationOf(row.attempt.id)))
    requires Pairwise(row.evaluations, DescendingBefore(EvaluatedAtOf))
    ensures EvaluatedOn(row).Some? ==>
      forall e :: e in evaluations && e.attemptId == row.attempt.id ==> e.evaluatedAt.Some? && e.evaluatedAt.value <= EvaluatedOn(row).value
    ensures EvaluatedOn(row).Some? ==> exists e :: e in evaluations && e.attemptId == row.attempt.id && e.evaluatedAt == EvaluatedOn(row)
    ensures EvaluatedOn(row).None? <==> ShowsNoDate(evaluations, row.attempt.id)
  {
    SameElements(row.evaluations, Filter(evaluations, EvaluationOf(row.attempt.id)));
    FirstDateIsLatest(row.evaluations, evaluations, row.attempt.id);
  }

  /** Permutations of each other hold the same elements. */
  lemma {:induction false} SameElements<T>(a: seq<T>, b: seq<T>)
    requires multiset(a) == multiset(b)
    ensures forall x :: x in a <==> x in b
  {
    forall x ensures x in a <==> x in b {
      assert x in a <==> x in multiset(a);
      assert x in b <==> x in multiset(b);
    }
  }

  lemma {:induction false} FirstDateIsLatest(evs: seq<Evaluation>, evaluations: seq<Evaluation>, attemptId: Id)
    requires forall e :: e in evs <==> e in evaluations && e.attemptId == attemptId
    requires Pairwise(evs, DescendingBefore(EvaluatedAtOf))
    ensures |evs| > 0 && evs[0].evaluatedAt.Some? ==>
      forall e :: e in evaluations && e.attemptId == attemptId ==> e.evaluatedAt.Some? && e.evaluatedAt.value <= evs[0].evaluatedAt.value
    ensures |evs| > 0 ==> evs[0] in evaluations && evs[0].attemptId == attemptId
    ensures (|evs| == 0 || evs[0].evaluatedAt.None?) <==> ShowsNoDate(evaluations, attemptId)
  {
    if |evs| > 0 {
      assert evs[0] in evs;
      if evs[0].evaluatedAt.Some? {
        forall e | e in evaluations && e.attemptId == attemptId
          ensures e.evaluatedAt.Some? && e.evaluatedAt.value <= evs[0].evaluatedAt.value
        {
          assert e in evs;
          var k :| 0 <= k < |evs| && evs[k] == e;
          if k > 0 {
            assert DescendingBefore(EvaluatedAtOf)(evs[0], evs[k]);
            assert EvaluatedAtOf(evs[0]) == evs[0].evaluatedAt && EvaluatedAtOf(e) == e.evaluatedAt;
          }
        }
      }
    } else {
      assert forall e :: e in evaluations ==> e.attemptId != attemptId;
    }
  }

  /** The attempt has no evaluation, or one without a date. */
  predicate ShowsNoDate(evaluations: seq<Evaluation>, attemptId: Id)
  {
    (forall e :: e in evaluations ==> e.attemptId != attemptId) ||
    (exists e :: e in evaluations && e.attemptId == attemptId && e.evaluatedAt.None?)
  }

  /** The pass badge: a `passed` that is null counts as a fail. */
  predicate ShowsPass(row: EvaluatedRow)
  {
    row.attempt.passed == Some(true)
  }

  /** `fetchCompletedCount`: the number of evaluated attempts. */
  function CompletedCount(attempts: seq<Attempt>): (n: nat)
    ensures forall profiles, tests, evaluations :: n == |EvaluatedTests(attempts, profiles, tests, evaluations)|
  {
    Count(attempts, WithStatus(Evaluated))
  }

  /** The employee id of a row contains the search term, ignoring case; an empty term keeps every row. */
  function SearchByEmployeeId<R(!new)>(rows: seq<R>, employeeIdOf: R -> string, term: string): (r: seq<R>)
    ensures term == "" ==> r == rows
    ensures forall x :: x in r <==> x in rows && (term == "" || ContainsIgnoringCase(employeeIdOf(x), term))
    ensures |r| <= |rows|
  {
    if term == "" then rows else Filter(rows, (x: R) => ContainsIgnoringCase(employeeIdOf(x), term))
  }

  function PendingEmployeeId(row: PendingRow): string { row.person.employeeId }
  function EvaluatedEmployeeId(row: EvaluatedRow): string { row.person.employeeId }

  /** `filteredPendingAttempts`. */
  function SearchPending(rows: seq<PendingRow>, term: string): (r: seq<PendingRow>)
    ensures forall x :: x in r <==> x in rows && (term == "" || ContainsIgnoringCase(x.person.employeeId, term))
  {
    SearchByEmployeeId(rows, PendingEmployeeId, term)
  }

  /** `filteredEvaluatedAttempts`. */
  function SearchEvaluated(rows: seq<EvaluatedRow>, term: string): (r: seq<EvaluatedRow>)
    ensures forall x :: x in r <==> x in rows && (term == "" || ContainsIgnoringCase(x.person.employeeId, term))
  {
    SearchByEmployeeId(rows, EvaluatedEmployeeId, term)
  }

  /** Searching keeps the order of the list. */
  lemma {:induction false} SearchKeepsOrder<R(!new)>(rows: seq<R>, employeeIdOf: R -> string, term: string, before: (R, R) -> bool)
    requires Pairwise(rows, before)
    ensures Pairwise(SearchByEmployeeId(rows, employeeIdOf, term), before)
  {
    if term != "" {
      FilterKeepsPairwise(rows, (x: R) => ContainsIgnoringCase(employeeIdOf(x), term), before);
    }
  }

  /** A joinee whose profile is missing shows as "N/A" and is found by searching for "n/a". */
  lemma {:induction false} UnknownJoineeFoundByNa(rows: seq<PendingRow>, row: PendingRow)
    requires row in rows && row.person == UnknownPerson
    ensures row in SearchPending(rows, "n/a")
  {
    assert ToLower("N/A") == "n/a";
    assert ToLower("n/a") == "n/a";
    assert OccursAt(ToLower("N/A"), ToLower("n/a"), 0);
  }

  /**
   * Saving an evaluation of a submitted attempt moves it from the pending list to the evaluated
   * list: one fewer pending row, one more evaluated row and one more in the completed count.
   */
  lemma {:induction false} SavedEvaluationMovesAttempt(
    attempts: seq<Attempt>, profiles: seq<Profile>, tests: seq<Test>, evaluations: seq<Evaluation>,
    k: nat, score: int, passed: bool)
    requires DistinctIds(attempts, AttemptKey)
    requires k < |attempts| && attempts[k].status == Submitted
    ensures var after := Grading.MarkEvaluated(attempts, attempts[k].id, score, passed);
      && |PendingEvaluations(after, profiles, tests)| + 1 == |PendingEvaluations(attempts, profiles, tests)|
      && |EvaluatedTests(after, profiles, tests, evaluations)| == |EvaluatedTests(attempts, profiles, tests, evaluations)| + 1
      && CompletedCount(after) == CompletedCount(attempts) + 1
  {
    var after := Grading.MarkEvaluated(attempts, attempts[k].id, score, passed);
    CountAfterUpdate(attempts, after, k, WithStatus(Submitted));
    CountAfterUpdate(attempts, after, k, WithStatus(Evaluated));
  }

  /** Two sequences that differ only at position `k` differ in their count only by what happens at `k`. */
  lemma {:induction false} CountAfterUpdate<T(!new)>(before: seq<T>, after: seq<T>, k: nat, p: T -> bool)
    requires |before| == |after| && k < |before|
    requires forall i :: 0 <= i < |before| && i != k ==> after[i] == before[i]
    ensures Count(after, p) + (if p(before[k]) then 1 else 0) == Count(before, p) + (if p(after[k]) then 1 else 0)
  {
    assert before == before[..k] + [before[k]] + before[k + 1..];
    assert after == after[..k] + [after[k]] + after[k + 1..];
    assert after[..k] == before[..k];
    assert after[k + 1..] == before[k + 1..];
    FilterAppend(before[..k] + [before[k]], before[k + 1..], p);
    FilterAppend(before[..k], [before[k]], p);
    FilterAppend(after[..k] + [after[k]], after[k + 1..], p);
    FilterAppend(after[..k], [after[k]], p);
  }
}
