/**
 * The manager's dashboard: the headline statistics over evaluated and graded attempts, the
 * roll-up by cohort (a dictionary updated in place, profile by profile and then attempt by
 * attempt), the per-employee performance rows, and the search over them.
 */
module ManagerDashboard {
  import opened Wrappers
  import opened Seqs
  import opened Schema
  import opened Text
  import opened Scoring
  import opened Store

  /** Evaluated and graded attempts are the ones the dashboard counts. */
  predicate Finished(a: Attempt)
  {
    a.status == Evaluated || a.status == Graded
  }

  /** `a.score || 0`. */
  function ScoreOrZero(a: Attempt): int { a.score.GetOr(0) }

  /** `a.passed` is truthy. */
  function PassedAttempt(a: Attempt): bool { a.passed == Some(true) }

  /** `!a.passed`: false or null. */
  function NotPassedAttempt(a: Attempt): bool { a.passed != Some(true) }

  function TopScore(a: Attempt): bool { a.score.GetOr(0) >= 90 }
  function JoineeRole(r: UserRole): bool { r.role == NewJoinee }

  /** `xs.length > 0 ? Math.round(sum / xs.length) : 0`. */
  function RoundedMean(total: int, count: int): (r: int)
    ensures count <= 0 ==> r == 0
    ensures count > 0 ==> count * (2 * r - 1) <= 2 * total < count * (2 * r + 1)
  {
    if count > 0 then RoundDiv(total, count) else 0
  }

  /** The mean of values within 0..k lies within 0..k. */
  lemma {:induction false} RoundedMeanBounds(total: int, count: int, k: int)
    requires count > 0 && 0 <= total <= k * count
    ensures 0 <= RoundedMean(total, count) <= k
  {
    RoundDivBounds(total, count, k);
  }

  /** The four headline figures. */
  datatype Stats = Stats(totalEmployees: int, averageScore: int, completionRate: int, topPerformers: int)

  /** `fetchStats`: the employees are the `new_joinee` role rows; the figures are over the finished attempts. */
  function ComputeStats(userRoles: seq<UserRole>, attempts: seq<Attempt>): (s: Stats)
    ensures s.totalEmployees == Count(userRoles, JoineeRole)
    ensures s.topPerformers == Count(Filter(attempts, Finished), TopScore)
    ensures s.averageScore == RoundedMean(SumOf(Filter(attempts, Finished), ScoreOrZero), |Filter(attempts, Finished)|)
    ensures s.completionRate == Percentage(Count(Filter(attempts, Finished), PassedAttempt), s.totalEmployees)
  {
    var finished := Filter(attempts, Finished);
    var totalEmployees := Count(userRoles, JoineeRole);
    Stats(
      totalEmployees,
      RoundedMean(SumOf(finished, ScoreOrZero), |finished|),
      Percentage(Count(finished, PassedAttempt), totalEmployees),
      Count(finished, TopScore))
  }

  /** With every finished score within 0..100 (as the attempt percentage always is), the average is a percentage too, and the top performers are among the finished attempts. */
  lemma {:induction false} StatsBounds(userRoles: seq<UserRole>, attempts: seq<Attempt>)
    requires forall a :: a in attempts && Finished(a) ==> 0 <= ScoreOrZero(a) <= 100
    ensures 0 <= ComputeStats(userRoles, attempts).averageScore <= 100
    ensures 0 <= ComputeStats(userRoles, attempts).topPerformers <= |Filter(attempts, Finished)|
  {
    var finished := Filter(attempts, Finished);
    if finished != [] {
      SumOfNonNegative(finished, ScoreOrZero);
      SumOfMonotonic(finished, ScoreOrZero, (a: Attempt) => 100);
      SumOfConstant(finished, 100);
      RoundedMeanBounds(SumOf(finished, ScoreOrZero), |finished|, 100);
    }
  }

  lemma {:induction false} SumOfConstant(s: seq<Attempt>, k: int)
    ensures SumOf(s, (a: Attempt) => k) == k * |s|
  {
    if s != [] {
      SumOfConstant(s[..|s| - 1], k);
    }
  }

  /** `profile.cohort || "Unassigned"`: a null or empty cohort is the "Unassigned" group. */
  function CohortOf(p: Profile): (c: string)
    ensures c != ""
    ensures p.cohort.Some? && p.cohort.value != "" ==> c == p.cohort.value
    ensures p.cohort.None? || p.cohort.value == "" ==> c == "Unassigned"
  {
    if p.cohort.Some? && p.cohort.value != "" then p.cohort.value else "Unassigned"
  }

  function ProfileWithId(id: Id): Profile -> bool { (p: Profile) => p.id == id }

  /** The cohort an attempt is counted in: its user's (first) profile's, or "Unassigned" when the user has no profile. */
  function AttemptCohort(profiles: seq<Profile>, a: Attempt): string
  {
    match Find(profiles, ProfileWithId(a.userId))
    case Some(p) => CohortOf(p)
    case None => "Unassigned"
  }

  /** One cohort's entry while the roll-up runs: its profiles, its attempts' scores, and how many of them passed. */
  datatype Tally = Tally(total: int, scores: seq<int>, passed: int)

  /** The roll-up after the profile loop: every profile adds one to its cohort's total. */
  function ProfilesTally(profiles: seq<Profile>): map<string, Tally>
  {
    if profiles == [] then map[]
    else
      var m := ProfilesTally(profiles[..|profiles| - 1]);
      var c := CohortOf(profiles[|profiles| - 1]);
      var t := if c in m then m[c] else Tally(0, [], 0);
      m[c := t.(total := t.total + 1)]
  }

  /** One attempt of the attempt loop: if its cohort has an entry, add its score, and a pass; otherwise drop it. */
  function AddAttempt(m: map<string, Tally>, profiles: seq<Profile>, a: Attempt): map<string, Tally>
  {
    var c := AttemptCohort(profiles, a);
    if c in m then
      m[c := Tally(m[c].total, m[c].scores + [ScoreOrZero(a)], m[c].passed + (if PassedAttempt(a) then 1 else 0))]
    else m
  }

  /** The roll-up after the attempt loop. */
  function AttemptsTally(m: map<string, Tally>, profiles: seq<Profile>, attempts: seq<Attempt>): map<string, Tally>
  {
    if attempts == [] then m
    else AddAttempt(AttemptsTally(m, profiles, attempts[..|attempts| - 1]), profiles, attempts[|attempts| - 1])
  }

  /**
   * The cohort roll-up of `fetchCohortData`: only evaluated and graded attempts are fetched,
   * then the two `forEach` loops fill the dictionary.
   */
  method RollUpCohorts(profiles: seq<Profile>, attempts: seq<Attempt>) returns (cohorts: map<string, Tally>)
    ensures cohorts == Rollup(profiles, attempts)
  {
    var fetched := Filter(attempts, Finished);
    cohorts := CountProfiles(profiles);
    cohorts := AddAttempts(cohorts, profiles, fetched);
  }

  /** `profiles.forEach(...)`: create the cohort's entry if needed, then add one to its total. */
  method CountProfiles(profiles: seq<Profile>) returns (cohorts: map<string, Tally>)
    ensures cohorts == ProfilesTally(profiles)
  {
    cohorts := map[];
    for i := 0 to |profiles|
      invariant cohorts == ProfilesTally(profiles[..i])
    {
      assert profiles[..i + 1][..i] == profiles[..i];
      var c := CohortOf(profiles[i]);
      if c !in cohorts {
        cohorts := cohorts[c := Tally(0, [], 0)];
      }
      cohorts := cohorts[c := cohorts[c].(total := cohorts[c].total + 1)];
    }
    assert profiles[..|profiles|] == profiles;
  }

  /** `attempts.forEach(...)`: each attempt in turn goes through `AddOne`. */
  method AddAttempts(byProfile: map<string, Tally>, profiles: seq<Profile>, attempts: seq<Attempt>) returns (cohorts: map<string, Tally>)
    ensures cohorts == AttemptsTally(byProfile, profiles, attempts)
  {
    cohorts := byProfile;
    for i := 0 to |attempts|
      invariant cohorts == AttemptsTally(byProfile, profiles, attempts[..i])
    {
      assert attempts[..i + 1][..i] == attempts[..i] && attempts[..i + 1][i] == attempts[i];
      cohorts := AddOne(cohorts, profiles, attempts[i]);
    }
    assert attempts[..|attempts|] == attempts;
  }

  /** The `forEach` callback: push the score into the attempt's cohort entry, if there is one, and count a pass. */
  method AddOne(cohorts: map<string, Tally>, profiles: seq<Profile>, a: Attempt) returns (next: map<string, Tally>)
    ensures next == AddAttempt(cohorts, profiles, a)
  {
    var profile := Find(profiles, ProfileWithId(a.userId));
    var c := if profile.Some? then CohortOf(profile.value) else "Unassigned";
    next := cohorts;
    if c in cohorts {
      var t := cohorts[c];
      var passed := if a.passed == Some(true) then t.passed + 1 else t.passed;
      next := cohorts[c := Tally(t.total, t.scores + [ScoreOrZero(a)], passed)];
    }
  }

  function InCohort(c: string): Profile -> bool { (p: Profile) => CohortOf(p) == c }
  function AttemptInCohort(profiles: seq<Profile>, c: string): Attempt -> bool
  {
    (a: Attempt) => AttemptCohort(profiles, a) == c
  }

  /** After the profile loop, the cohorts are those of the profiles, each counting its profiles once, with no scores yet. */
  lemma {:induction false} ProfilesTallyCounts(profiles: seq<Profile>, c: string)
    ensures c in ProfilesTally(profiles) <==> exists i :: 0 <= i < |profiles| && CohortOf(profiles[i]) == c
    ensures c in ProfilesTally(profiles) ==> ProfilesTally(profiles)[c] == Tally(Count(profiles, InCohort(c)), [], 0)
    ensures c !in ProfilesTally(profiles) ==> Count(profiles, InCohort(c)) == 0
  {
    if profiles != [] {
      var init := profiles[..|profiles| - 1];
      var x := profiles[|profiles| - 1];
      ProfilesTallyCounts(init, c);
      CountInCohortLast(profiles, c);
      if c in ProfilesTally(profiles) && CohortOf(x) != c {
        var i :| 0 <= i < |init| && CohortOf(init[i]) == c;
        assert profiles[i] == init[i];
      }
      if exists i :: 0 <= i < |profiles| && CohortOf(profiles[i]) == c {
        var i :| 0 <= i < |profiles| && CohortOf(profiles[i]) == c;
        if i < |init| {
          assert init[i] == profiles[i];
        }
      }
    }
  }

  /** The last profile adds one to its own cohort's count and nothing to the others'. */
  lemma {:induction false} CountInCohortLast(profiles: seq<Profile>, c: string)
    requires profiles != []
    ensures Count(profiles, InCohort(c))
      == Count(profiles[..|profiles| - 1], InCohort(c)) + (if CohortOf(profiles[|profiles| - 1]) == c then 1 else 0)
  {
    var init := profiles[..|profiles| - 1];
    var x := profiles[|profiles| - 1];
    assert profiles == init + [x];
    FilterAppend(init, [x], InCohort(c));
    if CohortOf(x) == c {
      assert Filter([x], InCohort(c)) == [x];
    } else {
      assert Filter([x], InCohort(c)) == [];
    }
  }

  /** The attempt loop adds no cohort and removes none. */
  lemma {:induction false} AttemptsTallyKeys(m: map<string, Tally>, profiles: seq<Profile>, attempts: seq<Attempt>)
    ensures AttemptsTally(m, profiles, attempts).Keys == m.Keys
  {
    if attempts != [] {
      AttemptsTallyKeys(m, profiles, attempts[..|attempts| - 1]);
    }
  }

  /** The scores (null as 0) of the attempts counted in cohort `c`, in order. */
  function CohortScores(profiles: seq<Profile>, attempts: seq<Attempt>, c: string): seq<int>
  {
    if attempts == [] then []
    else
      var a := attempts[|attempts| - 1];
      CohortScores(profiles, attempts[..|attempts| - 1], c) + (if AttemptCohort(profiles, a) == c then [ScoreOrZero(a)] else [])
  }

  /** The passed attempts counted in cohort `c`. */
  function CohortPasses(profiles: seq<Profile>, attempts: seq<Attempt>, c: string): int
  {
    if attempts == [] then 0
    else
      var a := attempts[|attempts| - 1];
      CohortPasses(profiles, attempts[..|attempts| - 1], c) + (if AttemptCohort(profiles, a) == c && PassedAttempt(a) then 1 else 0)
  }

  /** The attempt loop keeps each cohort's total, and adds to it the scores and passes of its attempts, in order. */
  lemma {:induction false} AttemptsTallyAdds(m: map<string, Tally>, profiles: seq<Profile>, attempts: seq<Attempt>, c: string)
    requires c in m
    ensures c in AttemptsTally(m, profiles, attempts)
    ensures AttemptsTally(m, profiles, attempts)[c]
      == Tally(m[c].total, m[c].scores + CohortScores(profiles, attempts, c), m[c].passed + CohortPasses(profiles, attempts, c))
  {
    AttemptsTallyKeys(m, profiles, attempts);
    if attempts == [] {
      assert m[c].scores + [] == m[c].scores;
    } else {
      AttemptsTallyAdds(m, profiles, attempts[..|attempts| - 1], c);
    }
  }

  /** The scores collected for a cohort are those of its attempts. */
  lemma {:induction false} CohortScoresAreFiltered(profiles: seq<Profile>, attempts: seq<Attempt>, c: string)
    ensures CohortScores(profiles, attempts, c) == Map(Filter(attempts, AttemptInCohort(profiles, c)), ScoreOrZero)
  {
    if attempts != [] {
      var init := attempts[..|attempts| - 1];
      var a := attempts[|attempts| - 1];
      assert attempts == init + [a];
      CohortScoresAreFiltered(profiles, init, c);
      FilterSnoc(init, a, AttemptInCohort(profiles, c));
      var mine := Filter(init, AttemptInCohort(profiles, c));
      if AttemptCohort(profiles, a) == c {
        assert Map(mine + [a], ScoreOrZero) == Map(mine, ScoreOrZero) + [ScoreOrZero(a)];
      } else {
        assert mine + [] == mine;
      }
    }
  }

  /** The passes counted for a cohort are its passed attempts. */
  lemma {:induction false} CohortPassesAreCounted(profiles: seq<Profile>, attempts: seq<Attempt>, c: string)
    ensures CohortPasses(profiles, attempts, c) == Count(Filter(attempts, AttemptInCohort(profiles, c)), PassedAttempt)
  {
    if attempts != [] {
      var init := attempts[..|attempts| - 1];
      var a := attempts[|attempts| - 1];
      assert attempts == init + [a];
      CohortPassesAreCounted(profiles, init, c);
      FilterSnoc(init, a, AttemptInCohort(profiles, c));
      var mine := Filter(init, AttemptInCohort(profiles, c));
      if AttemptCohort(profiles, a) == c {
        FilterSnoc(mine, a, PassedAttempt);
      } else {
        assert mine + [] == mine;
      }
    }
  }

  /** The cohort roll-up over the finished attempts. */
  function Rollup(profiles: seq<Profile>, attempts: seq<Attempt>): map<string, Tally>
  {
    AttemptsTally(ProfilesTally(profiles), profiles, Filter(attempts, Finished))
  }

  /**
   * Every profile is counted once, in its cohort; each cohort holds the scores (null as 0) of
   * exactly its finished attempts, and its passes among them. Unfinished attempts, and the
   * attempts of a cohort with no profile, are dropped.
   */
  lemma {:induction false} RollupCounts(profiles: seq<Profile>, attempts: seq<Attempt>, c: string)
    ensures c in Rollup(profiles, attempts) <==> exists i :: 0 <= i < |profiles| && CohortOf(profiles[i]) == c
    ensures c in Rollup(profiles, attempts) ==>
      var mine := Filter(Filter(attempts, Finished), AttemptInCohort(profiles, c));
      && Rollup(profiles, attempts)[c].total == Count(profiles, InCohort(c)) >= 1
      && Rollup(profiles, attempts)[c].scores == Map(mine, ScoreOrZero)
      && Rollup(profiles, attempts)[c].passed == Count(mine, PassedAttempt) <= |mine|
  {
    var finished := Filter(attempts, Finished);
    ProfilesTallyCounts(profiles, c);
    AttemptsTallyKeys(ProfilesTally(profiles), profiles, finished);
    if c in ProfilesTally(profiles) {
      AttemptsTallyAdds(ProfilesTally(profiles), profiles, finished, c);
      CohortScoresAreFiltered(profiles, finished, c);
      CohortPassesAreCounted(profiles, finished, c);
    }
    var mine := Filter(finished, AttemptInCohort(profiles, c));
    assert [] + Map(mine, ScoreOrZero) == Map(mine, ScoreOrZero);
    if c in Rollup(profiles, attempts) {
      var i :| 0 <= i < |profiles| && CohortOf(profiles[i]) == c;
      CountPositive(profiles, InCohort(c), i);
    }
  }

  /** An attempt that is neither evaluated nor graded is not fetched, so it changes no cohort. */
  lemma {:induction false} UnfinishedAttemptIgnored(profiles: seq<Profile>, attempts: seq<Attempt>, a: Attempt)
    requires !Finished(a)
    ensures Rollup(profiles, attempts + [a]) == Rollup(profiles, attempts)
  {
    FilterSnoc(attempts, a, Finished);
    assert Filter(attempts + [a], Finished) == Filter(attempts, Finished) + [];
    assert Filter(attempts, Finished) + [] == Filter(attempts, Finished);
  }

  /** A row of the cohort table. */
  datatype CohortRow = CohortRow(cohort: string, employeeCount: int, averageScore: int, completionRate: int, passRate: int)

  function SumInts(xs: seq<int>): int
  {
    if xs == [] then 0 else SumInts(xs[..|xs| - 1]) + xs[|xs| - 1]
  }

  /** The figures of one cohort, each a zero-guarded rounded ratio. */
  function CohortFigures(c: string, t: Tally): (r: CohortRow)
    ensures r.cohort == c && r.employeeCount == t.total
    ensures r.averageScore == RoundedMean(SumInts(t.scores), |t.scores|)
    ensures r.completionRate == Percentage(|t.scores|, t.total)
    ensures r.passRate == Percentage(t.passed, |t.scores|)
  {
    CohortRow(c, t.total, RoundedMean(SumInts(t.scores), |t.scores|), Percentage(|t.scores|, t.total), Percentage(t.passed, |t.scores|))
  }

  /** A cohort's pass rate is a percentage: no more of its attempts pass than it has. */
  lemma {:induction false} PassRateBounded(profiles: seq<Profile>, attempts: seq<Attempt>, c: string)
    requires c in Rollup(profiles, attempts)
    ensures 0 <= CohortFigures(c, Rollup(profiles, attempts)[c]).passRate <= 100
  {
    RollupCounts(profiles, attempts, c);
    var t := Rollup(profiles, attempts)[c];
    PercentageBounds(t.passed, |t.scores|);
  }

  /**
   * The completion rate counts attempts, not employees: one employee of a cohort with two
   * finished attempts makes the cohort 200% complete.
   */
  lemma {:induction false} CompletionCountsAttempts()
    ensures CohortFigures("A", Tally(1, [80, 90], 2)).completionRate == 200
  {
    RoundDivUnique(200, 1, 200);
  }

  /** A row of the employee table. */
  datatype EmployeeRow = EmployeeRow(id: Id, fullName: string, employeeId: string, cohort: string,
                                     testsCompleted: int, averageScore: int, passed: int, failed: int)

  function OfUser(userId: Id): Attempt -> bool { (a: Attempt) => a.userId == userId }

  /** One employee's performance over the finished attempts of the new joinees. */
  function EmployeeFigures(p: Profile, attempts: seq<Attempt>): (r: EmployeeRow)
    ensures r.id == p.id && r.fullName == p.fullName && r.employeeId == p.employeeId && r.cohort == CohortOf(p)
    ensures r.testsCompleted == Count(attempts, OfUser(p.id))
    ensures r.passed == Count(Filter(attempts, OfUser(p.id)), PassedAttempt)
    ensures r.failed == Count(Filter(attempts, OfUser(p.id)), NotPassedAttempt)
    ensures r.averageScore == RoundedMean(SumOf(Filter(attempts, OfUser(p.id)), ScoreOrZero), r.testsCompleted)
  {
    var mine := Filter(attempts, OfUser(p.id));
    EmployeeRow(p.id, p.fullName, p.employeeId, CohortOf(p), |mine|,
                RoundedMean(SumOf(mine, ScoreOrZero), |mine|), Count(mine, PassedAttempt), Count(mine, NotPassedAttempt))
  }

  /** Every finished test is either passed or failed: `passed + failed = testsCompleted`. */
  lemma {:induction false} PassedPlusFailed(p: Profile, attempts: seq<Attempt>)
    ensures EmployeeFigures(p, attempts).passed + EmployeeFigures(p, attempts).failed
      == EmployeeFigures(p, attempts).testsCompleted
  {
    CountSplit(Filter(attempts, OfUser(p.id)), PassedAttempt, NotPassedAttempt);
  }

  function JoineeUserId(r: UserRole): Id { r.userId }
  function ProfileIn(ids: seq<Id>): Profile -> bool { (p: Profile) => p.id in ids }
  function FinishedBy(ids: seq<Id>): Attempt -> bool { (a: Attempt) => a.userId in ids && Finished(a) }

  /** `fetchEmployeeData`, but for the final ordering by name: a row for each profile of a new joinee. */
  function EmployeeData(userRoles: seq<UserRole>, profiles: seq<Profile>, attempts: seq<Attempt>): (r: seq<EmployeeRow>)
    ensures var ids := Map(Filter(userRoles, JoineeRole), JoineeUserId);
      && |r| == Count(profiles, ProfileIn(ids))
      && forall i :: 0 <= i < |r| ==> r[i] == EmployeeFigures(Filter(profiles, ProfileIn(ids))[i], Filter(attempts, FinishedBy(ids)))
  {
    var ids := Map(Filter(userRoles, JoineeRole), JoineeUserId);
    if ids == [] then
      NoIdsNoProfiles(profiles, ids);
      []
    else
      var finished := Filter(attempts, FinishedBy(ids));
      Map(Filter(profiles, ProfileIn(ids)), (p: Profile) => EmployeeFigures(p, finished))
  }

  lemma {:induction false} NoIdsNoProfiles(profiles: seq<Profile>, ids: seq<Id>)
    requires ids == []
    ensures Filter(profiles, ProfileIn(ids)) == []
  {
    NoMatchFilter(profiles, ProfileIn(ids));
  }

  predicate EmployeeMatches(e: EmployeeRow, term: string)
  {
    ContainsIgnoringCase(e.fullName, term) || ContainsIgnoringCase(e.employeeId, term) || ContainsIgnoringCase(e.cohort, term)
  }

  /** `filteredEmployeeData`: an empty search keeps every row; otherwise the name, employee id or cohort must contain it, ignoring case. */
  function SearchEmployees(rows: seq<EmployeeRow>, term: string): (r: seq<EmployeeRow>)
    ensures term == "" ==> r == rows
    ensures forall e :: e in r <==> e in rows && (term == "" || EmployeeMatches(e, term))
  {
    if term == "" then rows else Filter(rows, (e: EmployeeRow) => EmployeeMatches(e, term))
  }

  /** Searching for a row's exact employee id keeps that row. */
  lemma {:induction false} SearchFindsEmployeeId(rows: seq<EmployeeRow>, e: EmployeeRow)
    requires e in rows
    ensures e in SearchEmployees(rows, e.employeeId)
  {
    SelfMatches(e.employeeId);
  }
}
