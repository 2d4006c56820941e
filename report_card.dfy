/**
 * The report cards: for each selected profile, one row per evaluated or graded attempt with
 * the marks scored on it and the marks the test was worth, sorted by test number, and the
 * totals over those rows. The per-test and per-attempt totals are dictionaries filled in place
 * by a loop over the rows (`AccumulateByKey`), whose result is the group sum `Accumulated`.
 */
module ReportCard {
  import opened Wrappers
  import opened Seqs
  import opened Schema
  import opened Store
  import opened Text
  import opened Scoring

  /** `(m[k] || 0)`: the entry, or 0 when the key is absent. */
  function Lookup(m: map<Id, int>, k: Id): int
  {
    if k in m then m[k] else 0
  }

  /** The rows whose key is `k`. */
  function KeyIs<T>(key: T -> Id, k: Id): T -> bool { (x: T) => key(x) == k }

  /**
   * The dictionary a `rows.forEach(x => m[key(x)] = (m[key(x)] || 0) + value(x))` leaves,
   * starting from `{}`.
   */
  function Accumulated<T>(rows: seq<T>, key: T -> Id, value: T -> int): map<Id, int>
  {
    if rows == [] then map[]
    else
      var m := Accumulated(rows[..|rows| - 1], key, value);
      var x := rows[|rows| - 1];
      m[key(x) := Lookup(m, key(x)) + value(x)]
  }

  /** Each key of the dictionary is the key of some row, and each row's key is in the dictionary. */
  lemma {:induction false} AccumulatedKeys<T>(rows: seq<T>, key: T -> Id, value: T -> int, k: Id)
    ensures k in Accumulated(rows, key, value) <==> exists i :: 0 <= i < |rows| && key(rows[i]) == k
  {
    if rows != [] {
      var init := rows[..|rows| - 1];
      AccumulatedKeys(init, key, value, k);
      assert forall i :: 0 <= i < |init| ==> init[i] == rows[i];
    }
  }

  /** The entry of each key is the sum of the values of the rows with that key (0 for a key no row has). */
  lemma {:induction false} AccumulatedIsGroupSum<T(!new)>(rows: seq<T>, key: T -> Id, value: T -> int, k: Id)
    ensures Lookup(Accumulated(rows, key, value), k) == SumOf(Filter(rows, KeyIs(key, k)), value)
  {
    var p := KeyIs(key, k);
    if rows != [] {
      var init := rows[..|rows| - 1];
      var x := rows[|rows| - 1];
      var m := Accumulated(init, key, value);
      assert rows == init + [x];
      AccumulatedIsGroupSum(init, key, value, k);
      FilterAppend(init, [x], p);
      SumOfAppend(Filter(init, p), Filter([x], p), value);
      if key(x) == k {
        assert Filter([x], p) == [x];
        assert SumOf([x], value) == value(x) by {
          assert [x][..0] == [];
        }
        assert Lookup(Accumulated(rows, key, value), k) == Lookup(m, k) + value(x);
      } else {
        assert Filter([x], p) == [];
        assert Lookup(Accumulated(rows, key, value), k) == Lookup(m, k);
      }
    }
  }

  /** The `forEach` loop that fills a dictionary of sums. */
  method AccumulateByKey<T>(rows: seq<T>, key: T -> Id, value: T -> int) returns (m: map<Id, int>)
    ensures m == Accumulated(rows, key, value)
  {
    m := map[];
    for i := 0 to |rows|
      invariant m == Accumulated(rows[..i], key, value)
    {
      var x := rows[i];
      assert rows[..i + 1][..i] == rows[..i];
      m := m[key(x) := Lookup(m, key(x)) + value(x)];
    }
    assert rows[..|rows|] == rows;
  }

  function QuestionTest(q: Question): Id { q.testId }
  function QuestionPoints(q: Question): int { q.maxPoints }
  function ResponseAttempt(r: Response): Id { r.attemptId }
  function ResponsePoints(r: Response): int { r.pointsAwarded.GetOr(0) }

  /** `testTotalMarks[t] || 0`: the sum of the maximum points of the test's questions. */
  lemma {:induction false} TotalMarksIsSum(questions: seq<Question>, testId: Id)
    ensures Lookup(Accumulated(questions, QuestionTest, QuestionPoints), testId)
      == SumOf(Filter(questions, KeyIs(QuestionTest, testId)), QuestionPoints)
  {
    AccumulatedIsGroupSum(questions, QuestionTest, QuestionPoints, testId);
  }

  /** `attemptScoredMarks[a] || 0`: the sum of the points of the attempt's responses, null as 0. */
  lemma {:induction false} ScoredMarksIsSum(responses: seq<Response>, attemptId: Id)
    ensures Lookup(Accumulated(responses, ResponseAttempt, ResponsePoints), attemptId)
      == SumOf(Filter(responses, KeyIs(ResponseAttempt, attemptId)), ResponsePoints)
  {
    AccumulatedIsGroupSum(responses, ResponseAttempt, ResponsePoints, attemptId);
  }

  /** One row of a report card. */
  datatype TestResult = TestResult(testName: string, testNumber: int, scoredMarks: int, totalMarks: int, passed: bool)

  /** A profile's report card. */
  datatype UserReport = UserReport(profile: Profile, tests: seq<TestResult>, totalScored: int, totalPossible: int)

  function TestNumberOf(t: TestResult): int { t.testNumber }
  function ScoredOf(t: TestResult): int { t.scoredMarks }
  function PossibleOf(t: TestResult): int { t.totalMarks }

  /** The dictionaries and the test rows the report rows are built from. */
  datatype Lookups = Lookups(tests: seq<Test>, totalMarks: map<Id, int>, scoredMarks: map<Id, int>)

  function TestWithId(id: Id): Test -> bool { (t: Test) => t.id == id }

  /** The row of an attempt: an unknown test is "Unknown Test" numbered 0, an empty title also shows as "Unknown Test". */
  function ResultFor(l: Lookups, a: Attempt): (r: TestResult)
    ensures r.scoredMarks == Lookup(l.scoredMarks, a.id) && r.totalMarks == Lookup(l.totalMarks, a.testId)
    ensures r.passed <==> a.passed == Some(true)
    ensures Find(l.tests, TestWithId(a.testId)).None? ==> r.testName == "Unknown Test" && r.testNumber == 0
    ensures Find(l.tests, TestWithId(a.testId)).Some? ==>
      r.testNumber == Find(l.tests, TestWithId(a.testId)).value.testNumber &&
      r.testName == (if Find(l.tests, TestWithId(a.testId)).value.title == "" then "Unknown Test"
                     else Find(l.tests, TestWithId(a.testId)).value.title)
  {
    var test := Find(l.tests, TestWithId(a.testId));
    TestResult(
      if test.Some? && test.value.title != "" then test.value.title else "Unknown Test",
      if test.Some? then test.value.testNumber else 0,
      Lookup(l.scoredMarks, a.id),
      Lookup(l.totalMarks, a.testId),
      a.passed == Some(true))
  }

  function ResultOf(l: Lookups): Attempt -> TestResult { (a: Attempt) => ResultFor(l, a) }
  function OfUser(userId: Id): Attempt -> bool { (a: Attempt) => a.userId == userId }
  function ScoredOfAttempt(l: Lookups): Attempt -> int { (a: Attempt) => Lookup(l.scoredMarks, a.id) }
  function PossibleOfAttempt(l: Lookups): Attempt -> int { (a: Attempt) => Lookup(l.totalMarks, a.testId) }

  /** A profile's report: its attempts' rows by ascending test number, and the totals of the rows. */
  function BuildReport(l: Lookups, attempts: seq<Attempt>, profile: Profile): (r: UserReport)
    ensures r.profile == profile
    ensures |r.tests| == Count(attempts, OfUser(profile.id))
    ensures SortedBy(r.tests, TestNumberOf)
    ensures multiset(r.tests) == multiset(Map(Filter(attempts, OfUser(profile.id)), ResultOf(l)))
    ensures r.totalScored == SumOf(Filter(attempts, OfUser(profile.id)), ScoredOfAttempt(l))
    ensures r.totalPossible == SumOf(Filter(attempts, OfUser(profile.id)), PossibleOfAttempt(l))
  {
    var userAttempts := Filter(attempts, OfUser(profile.id));
    var unsorted := Map(userAttempts, ResultOf(l));
    var results := SortByKey(unsorted, TestNumberOf);
    SumOfPermutation(results, unsorted, ScoredOf);
    SumOfPermutation(results, unsorted, PossibleOf);
    SumOfMap(userAttempts, ResultOf(l), ScoredOf, ScoredOfAttempt(l));
    SumOfMap(userAttempts, ResultOf(l), PossibleOf, PossibleOfAttempt(l));
    UserReport(profile, results, SumOf(results, ScoredOf), SumOf(results, PossibleOf))
  }

  /** When no attempt on the card scores above its test's worth, and none scores below 0, the overall percentage is within 0..100. */
  lemma {:induction false} OverallWithinBounds(l: Lookups, attempts: seq<Attempt>, profile: Profile)
    requires forall a :: a in attempts ==> 0 <= Lookup(l.scoredMarks, a.id) <= Lookup(l.totalMarks, a.testId)
    ensures 0 <= BuildReport(l, attempts, profile).totalScored <= BuildReport(l, attempts, profile).totalPossible
    ensures 0 <= OverallPercentage(BuildReport(l, attempts, profile)) <= 100
  {
    var userAttempts := Filter(attempts, OfUser(profile.id));
    SumOfNonNegative(userAttempts, ScoredOfAttempt(l));
    SumOfMonotonic(userAttempts, ScoredOfAttempt(l), PossibleOfAttempt(l));
    var r := BuildReport(l, attempts, profile);
    PercentageBounds(r.totalScored, r.totalPossible);
  }

  /** The "Overall" figure: `round(100 * scored / possible)`, 0 when nothing is possible. */
  function OverallPercentage(r: UserReport): (p: int)
    ensures r.totalPossible <= 0 ==> p == 0
    ensures r.totalPossible > 0 ==> r.totalPossible * (2 * p - 1) <= 200 * r.totalScored < r.totalPossible * (2 * p + 1)
  {
    Percentage(r.totalScored, r.totalPossible)
  }

  /** The cohort drop-down: "all" (or nothing) keeps every profile, "unassigned" those without a cohort, any other value that cohort. */
  function InCohort(selected: string): Profile -> bool
  {
    (p: Profile) =>
      if selected == "" || selected == "all" then true
      else if selected == "unassigned" then p.cohort.None?
      else p.cohort == Some(selected)
  }

  /**
   * The user-id search. A profile row has no `user_id` column, so that half of the test is
   * always false and only the employee id is searched, ignoring case.
   */
  function MatchesUserId(term: string): Profile -> bool
  {
    (p: Profile) => ContainsIgnoringCase(p.employeeId, term)
  }

  /** The profiles shown: those of the selected cohort that match the search, when there is one. */
  function SelectedProfiles(profiles: seq<Profile>, selectedCohort: string, userIdFilter: string): (r: seq<Profile>)
    ensures userIdFilter == "" ==> r == Filter(profiles, InCohort(selectedCohort))
    ensures forall p :: p in r <==>
      p in profiles && InCohort(selectedCohort)(p) && (userIdFilter == "" || ContainsIgnoringCase(p.employeeId, userIdFilter))
  {
    var inCohort := Filter(profiles, InCohort(selectedCohort));
    if userIdFilter == "" then inCohort else Filter(inCohort, MatchesUserId(userIdFilter))
  }

  /** An empty search and the "all" cohort keep every profile. */
  lemma {:induction false} EmptySearchKeepsAll(profiles: seq<Profile>)
    ensures forall p :: p in SelectedProfiles(profiles, "all", "") <==> p in profiles
  {
  }

  /** The attempts that enter reports: those of the selected users that are evaluated or graded. */
  function Reportable(userIds: set<Id>): Attempt -> bool
  {
    (a: Attempt) => a.userId in userIds && (a.status == Evaluated || a.status == Graded)
  }

  function ProfileId(p: Profile): Id { p.id }
  function AttemptTest(a: Attempt): Id { a.testId }
  function AttemptIdOf(a: Attempt): Id { a.id }

  function TestIn(ids: seq<Id>): Test -> bool { (t: Test) => t.id in ids }
  function QuestionIn(ids: seq<Id>): Question -> bool { (q: Question) => q.testId in ids }
  function ResponseIn(ids: seq<Id>): Response -> bool { (r: Response) => r.attemptId in ids }

  /** An empty report card. */
  function EmptyReport(p: Profile): UserReport { UserReport(p, [], 0, 0) }

  /**
   * `fetchReports`, but for the final ordering by full name: the selected profiles' report
   * cards, empty ones when none of them has a reportable attempt.
   */
  function Reports(profiles: seq<Profile>, attempts: seq<Attempt>, tests: seq<Test>, questions: seq<Question>,
                   responses: seq<Response>, selectedCohort: string, userIdFilter: string): (r: seq<UserReport>)
    ensures var selected := SelectedProfiles(profiles, selectedCohort, userIdFilter);
      && |r| == |selected|
      && forall i :: 0 <= i < |r| ==> r[i].profile == selected[i]
  {
    var selected := SelectedProfiles(profiles, selectedCohort, userIdFilter);
    if selected == [] then []
    else
      var userIds := set p | p in selected :: p.id;
      var reportable := Filter(attempts, Reportable(userIds));
      if reportable == [] then Map(selected, EmptyReport)
      else
        var l := Fetched(tests, questions, responses, reportable);
        Map(selected, (p: Profile) => BuildReport(l, reportable, p))
  }

  /**
   * The second round of fetches: the reportable attempts' tests, the per-test total marks over
   * those tests' questions, and the per-attempt scored marks over those attempts' responses.
   */
  function Fetched(tests: seq<Test>, questions: seq<Question>, responses: seq<Response>, reportable: seq<Attempt>): Lookups
  {
    var testIds := Dedupe(Map(reportable, AttemptTest));
    var attemptIds := Map(reportable, AttemptIdOf);
    Lookups(
      Filter(tests, TestIn(testIds)),
      Accumulated(Filter(questions, QuestionIn(testIds)), QuestionTest, QuestionPoints),
      Accumulated(Filter(responses, ResponseIn(attemptIds)), ResponseAttempt, ResponsePoints))
  }

  /** Without a reportable attempt among the selected users every card is empty, with zero totals. */
  lemma {:induction false} NoAttemptsGiveEmptyReports(profiles: seq<Profile>, attempts: seq<Attempt>, tests: seq<Test>, questions: seq<Question>,
                                   responses: seq<Response>, selectedCohort: string, userIdFilter: string)
    requires forall a :: a in attempts ==> a.status != Evaluated && a.status != Graded
    ensures forall r :: r in Reports(profiles, attempts, tests, questions, responses, selectedCohort, userIdFilter) ==>
      r.tests == [] && r.totalScored == 0 && r.totalPossible == 0
  {
    var selected := SelectedProfiles(profiles, selectedCohort, userIdFilter);
    if selected != [] {
      var userIds := set p | p in selected :: p.id;
      NoMatchFilter(attempts, Reportable(userIds));
    }
  }

  /** A card has one row for each of its user's evaluated and graded attempts, in test-number order. */
  lemma {:induction false} ReportCountsReportableAttempts(profiles: seq<Profile>, attempts: seq<Attempt>, tests: seq<Test>, questions: seq<Question>,
                                       responses: seq<Response>, selectedCohort: string, userIdFilter: string, i: nat)
    requires i < |SelectedProfiles(profiles, selectedCohort, userIdFilter)|
    ensures var r := Reports(profiles, attempts, tests, questions, responses, selectedCohort, userIdFilter)[i];
      && |r.tests| == Count(attempts, (a: Attempt) => a.userId == r.profile.id && (a.status == Evaluated || a.status == Graded))
      && SortedBy(r.tests, TestNumberOf)
  {
    var selected := SelectedProfiles(profiles, selectedCohort, userIdFilter);
    var p := selected[i];
    var userIds := set q | q in selected :: q.id;
    var reportable := Filter(attempts, Reportable(userIds));
    var mine := (a: Attempt) => a.userId == p.id && (a.status == Evaluated || a.status == Graded);
    assert p in selected;
    FilterTwice(attempts, Reportable(userIds), OfUser(p.id), mine);
    if reportable == [] {
      NoMatchFilter(attempts, mine);
    }
  }

  /** A user's evaluated and graded attempts. */
  function FinishedBy(userId: Id): Attempt -> bool
  {
    (a: Attempt) => a.userId == userId && (a.status == Evaluated || a.status == Graded)
  }

  /** The marks scored on an attempt: the points of all its responses, null as 0. */
  function ScoredOn(responses: seq<Response>): Attempt -> int
  {
    (a: Attempt) => SumOf(Filter(responses, KeyIs(ResponseAttempt, a.id)), ResponsePoints)
  }

  /** The marks an attempt's test is worth: the maximum points of all its questions. */
  function WorthOf(questions: seq<Question>): Attempt -> int
  {
    (a: Attempt) => SumOf(Filter(questions, KeyIs(QuestionTest, a.testId)), QuestionPoints)
  }

  /**
   * A card's totals are the sums, over its user's evaluated and graded attempts, of the points
   * of each attempt's responses and of the maximum points of each attempt's test's questions:
   * narrowing the fetched questions and responses to the reportable tests and attempts loses none.
   */
  lemma {:induction false} ReportTotalsAreSums(profiles: seq<Profile>, attempts: seq<Attempt>, tests: seq<Test>, questions: seq<Question>,
                                               responses: seq<Response>, selectedCohort: string, userIdFilter: string, i: nat)
    requires i < |SelectedProfiles(profiles, selectedCohort, userIdFilter)|
    ensures var r := Reports(profiles, attempts, tests, questions, responses, selectedCohort, userIdFilter)[i];
      && r.totalScored == SumOf(Filter(attempts, FinishedBy(r.profile.id)), ScoredOn(responses))
      && r.totalPossible == SumOf(Filter(attempts, FinishedBy(r.profile.id)), WorthOf(questions))
  {
    var selected := SelectedProfiles(profiles, selectedCohort, userIdFilter);
    var p := selected[i];
    var userIds := set q | q in selected :: q.id;
    var reportable := Filter(attempts, Reportable(userIds));
    assert p in selected;
    FilterTwice(attempts, Reportable(userIds), OfUser(p.id), FinishedBy(p.id));
    if reportable == [] {
      NoMatchFilter(attempts, FinishedBy(p.id));
    } else {
      FetchedTotals(tests, questions, responses, reportable, Filter(attempts, FinishedBy(p.id)));
    }
  }

  /** Summed over reportable attempts, the looked-up marks are the marks over all questions and responses. */
  lemma {:induction false} FetchedTotals(tests: seq<Test>, questions: seq<Question>, responses: seq<Response>,
                                         reportable: seq<Attempt>, mine: seq<Attempt>)
    requires forall a :: a in mine ==> a in reportable
    ensures SumOf(mine, ScoredOfAttempt(Fetched(tests, questions, responses, reportable)))
      == SumOf(mine, ScoredOn(responses))
    ensures SumOf(mine, PossibleOfAttempt(Fetched(tests, questions, responses, reportable)))
      == SumOf(mine, WorthOf(questions))
  {
    var l := Fetched(tests, questions, responses, reportable);
    forall a | a in mine
      ensures ScoredOfAttempt(l)(a) == ScoredOn(responses)(a)
      ensures PossibleOfAttempt(l)(a) == WorthOf(questions)(a)
    {
      FetchedMarks(tests, questions, responses, reportable, a);
    }
    SumOfCongruent(mine, ScoredOfAttempt(l), ScoredOn(responses));
    SumOfCongruent(mine, PossibleOfAttempt(l), WorthOf(questions));
  }

  /** A reportable attempt's looked-up marks are its marks over all questions and responses. */
  lemma {:induction false} FetchedMarks(tests: seq<Test>, questions: seq<Question>, responses: seq<Response>,
                                        reportable: seq<Attempt>, a: Attempt)
    requires a in reportable
    ensures Lookup(Fetched(tests, questions, responses, reportable).scoredMarks, a.id) == ScoredOn(responses)(a)
    ensures Lookup(Fetched(tests, questions, responses, reportable).totalMarks, a.testId) == WorthOf(questions)(a)
  {
    var testIds := Dedupe(Map(reportable, AttemptTest));
    var attemptIds := Map(reportable, AttemptIdOf);
    var k :| 0 <= k < |reportable| && reportable[k] == a;
    assert attemptIds[k] == a.id;
    assert Map(reportable, AttemptTest)[k] == a.testId;
    assert a.id in attemptIds && a.testId in testIds;
    forall x | KeyIs(ResponseAttempt, a.id)(x) ensures ResponseIn(attemptIds)(x) {
      assert ResponseAttempt(x) == a.id;
    }
    forall x | KeyIs(QuestionTest, a.testId)(x) ensures QuestionIn(testIds)(x) {
      assert QuestionTest(x) == a.testId;
    }
    ScoredMarksIsSum(Filter(responses, ResponseIn(attemptIds)), a.id);
    FilterOfFilter(responses, ResponseIn(attemptIds), KeyIs(ResponseAttempt, a.id));
    TotalMarksIsSum(Filter(questions, QuestionIn(testIds)), a.testId);
    FilterOfFilter(questions, QuestionIn(testIds), KeyIs(QuestionTest, a.testId));
  }

  /** Filtering by `p` and then by `q` is filtering by their conjunction. */
  lemma {:induction false} FilterTwice<T(!new)>(s: seq<T>, p: T -> bool, q: T -> bool, pq: T -> bool)
    requires forall x :: pq(x) <==> p(x) && q(x)
    ensures Filter(Filter(s, p), q) == Filter(s, pq)
  {
    if s != [] {
      var head := if p(s[0]) then [s[0]] else [];
      assert Filter(s, p) == head + Filter(s[1..], p);
      FilterAppend(head, Filter(s[1..], p), q);
      FilterTwice(s[1..], p, q, pq);
    }
  }
}
