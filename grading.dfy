/**
 * Grading a submitted attempt, as the evaluator's page and the manager's re-evaluation page do
 * it: load the attempt with its responses, let the evaluator type a score and feedback per
 * response, then save — one points update and one final evaluation row per response, in order,
 * and last the attempt's status, percentage and verdict.
 */
module Grading {
  import opened Wrappers
  import opened Seqs
  import opened Schema
  import opened Scoring
  import opened Store

  /** A response as the pages load it: the row joined with its question. */
  datatype ResponseView = ResponseView(response: Response, question: Question)

  function ViewId(v: ResponseView): Id { v.response.id }
  function QuestionNumber(v: ResponseView): int { v.question.questionNumber }
  function MaxPoints(v: ResponseView): int { v.question.maxPoints }

  /** `id` is the id of one of the loaded responses. */
  predicate IsResponseId(vs: seq<ResponseView>, id: Id)
  {
    exists i :: 0 <= i < |vs| && vs[i].response.id == id
  }

  function HasId(id: Id): Attempt -> bool { (a: Attempt) => a.id == id }
  function HasProfileId(id: Id): Profile -> bool { (p: Profile) => p.id == id }
  function HasTestId(id: Id): Test -> bool { (t: Test) => t.id == id }
  function OfAttempt(id: Id): Response -> bool { (r: Response) => r.attemptId == id }
  function QuestionFor(qs: seq<Question>, id: Id): Option<Question> { Find(qs, (q: Question) => q.id == id) }

  /** The embedded `test_questions(...)` join: each response with the question it answers. */
  function Joined(rows: seq<Response>, qs: seq<Question>): (r: seq<ResponseView>)
    ensures |r| <= |rows|
    ensures forall v :: v in r ==> v.response in rows && v.question in qs && v.question.id == v.response.questionId
    ensures forall x :: x in rows && QuestionFor(qs, x.questionId).Some? ==> exists v :: v in r && v.response == x
  {
    if rows == [] then []
    else
      var rest := Joined(rows[1..], qs);
      assert forall x :: x in rows ==> x == rows[0] || x in rows[1..];
      match QuestionFor(qs, rows[0].questionId)
      case Some(q) => [ResponseView(rows[0], q)] + rest
      case None => rest
  }

  /** Joining responses with distinct ids gives views with distinct response ids. */
  lemma {:induction false} JoinedIdsDistinct(rows: seq<Response>, qs: seq<Question>)
    requires DistinctIds(rows, ResponseKey)
    ensures DistinctIds(Joined(rows, qs), ViewId)
  {
    if rows != [] {
      DistinctTail(rows, ResponseKey);
      JoinedIdsDistinct(rows[1..], qs);
      var rest := Joined(rows[1..], qs);
      forall w | w in rest ensures w.response.id != rows[0].id {
        var k :| 0 <= k < |rows[1..]| && rows[1..][k] == w.response;
        assert ResponseKey(rows[0]) != ResponseKey(rows[k + 1]);
      }
      match QuestionFor(qs, rows[0].questionId)
      case Some(q) => DistinctCons(ResponseView(rows[0], q), rest);
      case None =>
    }
  }

  /** A view whose id no other view has can go in front of views with distinct ids. */
  lemma {:induction false} DistinctCons(v: ResponseView, rest: seq<ResponseView>)
    requires DistinctIds(rest, ViewId) && forall w :: w in rest ==> w.response.id != v.response.id
    ensures DistinctIds([v] + rest, ViewId)
  {
    var all := [v] + rest;
    forall i, j | 0 <= i < j < |all| ensures ViewId(all[i]) != ViewId(all[j]) {
      assert all[j] == rest[j - 1] && all[j] in rest;
      if i > 0 {
        assert all[i] == rest[i - 1];
      }
    }
  }

  datatype LoadError = AttemptMissing | ProfileMissing | TestMissing

  /** What the page holds once loading succeeded. */
  datatype Loaded = Loaded(attempt: Attempt, profile: Profile, test: Test, responses: seq<ResponseView>)

  /**
   * `fetchAttemptData`: the attempt, its user's profile and its test, each with `single()`,
   * then the attempt's responses with their questions in ascending question number.
   */
  function Load(attempts: seq<Attempt>, profiles: seq<Profile>, tests: seq<Test>,
                responses: seq<Response>, questions: seq<Question>, attemptId: Id): (r: Result<Loaded, LoadError>)
    ensures r == Failure(AttemptMissing) <==> Count(attempts, HasId(attemptId)) != 1
    ensures Count(attempts, HasId(attemptId)) == 1 ==>
      var a := SingleMatch(attempts, HasId(attemptId)).value;
      && (r == Failure(ProfileMissing) <==> Count(profiles, HasProfileId(a.userId)) != 1)
      && (r == Failure(TestMissing) <==> Count(profiles, HasProfileId(a.userId)) == 1 && Count(tests, HasTestId(a.testId)) != 1)
      && (r.Success? <==> Count(profiles, HasProfileId(a.userId)) == 1 && Count(tests, HasTestId(a.testId)) == 1)
      && (r.Success? ==> r.value.attempt == a)
    ensures r.Success? ==>
      && r.value.attempt in attempts && r.value.attempt.id == attemptId
      && r.value.profile in profiles && r.value.profile.id == r.value.attempt.userId
      && r.value.test in tests && r.value.test.id == r.value.attempt.testId
      && SortedBy(r.value.responses, QuestionNumber)
      && multiset(r.value.responses) == multiset(Joined(Filter(responses, OfAttempt(attemptId)), questions))
  {
    match SingleMatch(attempts, HasId(attemptId))
    case None => Failure(AttemptMissing)
    case Some(a) =>
      match SingleMatch(profiles, HasProfileId(a.userId))
      case None => Failure(ProfileMissing)
      case Some(p) =>
        match SingleMatch(tests, HasTestId(a.testId))
        case None => Failure(TestMissing)
        case Some(t) =>
          Success(Loaded(a, p, t, SortByKey(Joined(Filter(responses, OfAttempt(attemptId)), questions), QuestionNumber)))
  }

  /** Over a response table with distinct ids, the loaded responses have distinct ids. */
  lemma {:induction false} LoadedResponsesDistinct(attempts: seq<Attempt>, profiles: seq<Profile>, tests: seq<Test>,
                                                   responses: seq<Response>, questions: seq<Question>, attemptId: Id)
    requires DistinctIds(responses, ResponseKey)
    requires Load(attempts, profiles, tests, responses, questions, attemptId).Success?
    ensures DistinctIds(Load(attempts, profiles, tests, responses, questions, attemptId).value.responses, ViewId)
  {
    var mine := Filter(responses, OfAttempt(attemptId));
    FilteredIdsDistinct(responses, OfAttempt(attemptId), ResponseKey);
    JoinedIdsDistinct(mine, questions);
    var joined := Joined(mine, questions);
    PermutedIdsDistinct(joined, SortByKey(joined, QuestionNumber), ViewId);
  }

  /**
   * The scores the page starts from: each response's stored `points_awarded`, 0 when it is
   * null. A later response with the same id overrides an earlier one, as in the `forEach`.
   */
  function InitialScores(vs: seq<ResponseView>): map<Id, int>
  {
    if vs == [] then map[]
    else
      var v := vs[|vs| - 1];
      InitialScores(vs[..|vs| - 1])[v.response.id := v.response.pointsAwarded.GetOr(0)]
  }

  /** The initial scores hold a key exactly for each response id. */
  lemma {:induction false} InitialScoresKeys(vs: seq<ResponseView>, id: Id)
    ensures id in InitialScores(vs) <==> IsResponseId(vs, id)
  {
    if vs != [] {
      var prefix := vs[..|vs| - 1];
      InitialScoresKeys(prefix, id);
      if IsResponseId(vs, id) && id != vs[|vs| - 1].response.id {
        var i :| 0 <= i < |vs| && vs[i].response.id == id;
        assert prefix[i] == vs[i];
      }
      if IsResponseId(prefix, id) {
        var i :| 0 <= i < |prefix| && prefix[i].response.id == id;
        assert vs[i] == prefix[i];
      }
    }
  }

  /** The score of a response id is the stored points of the last response with that id, null as 0. */
  lemma {:induction false} InitialScoresLatest(vs: seq<ResponseView>, i: nat)
    requires i < |vs| && LastWithId(vs, i)
    ensures vs[i].response.id in InitialScores(vs)
    ensures InitialScores(vs)[vs[i].response.id] == vs[i].response.pointsAwarded.GetOr(0)
  {
    var n := |vs| - 1;
    if i < n {
      var prefix := vs[..n];
      assert prefix[i] == vs[i];
      assert LastWithId(prefix, i) by {
        forall j | i < j < |prefix| ensures prefix[j].response.id != prefix[i].response.id {
          assert prefix[j] == vs[j];
        }
      }
      InitialScoresLatest(prefix, i);
    }
  }

  /** No later response in `vs` has the id of the `i`-th one. */
  predicate LastWithId(vs: seq<ResponseView>, i: nat)
    requires i < |vs|
  {
    forall j :: i < j < |vs| ==> vs[j].response.id != vs[i].response.id
  }

  /** `scores[id] || 0`. */
  function ScoreIn(scores: map<Id, int>, id: Id): int
  {
    if id in scores then scores[id] else 0
  }

  /** `feedback[id] || null`: missing or empty feedback is stored as null. */
  function FeedbackIn(feedback: map<Id, string>, id: Id): (r: Option<string>)
    ensures r.Some? <==> id in feedback && feedback[id] != ""
    ensures r.Some? ==> r.value == feedback[id]
  {
    if id in feedback && feedback[id] != "" then Some(feedback[id]) else None
  }

  /** The sum of the scores of the loaded responses. */
  function TotalOf(vs: seq<ResponseView>, scores: map<Id, int>): int
  {
    SumOf(vs, (v: ResponseView) => ScoreIn(scores, v.response.id))
  }

  /** `maxScore`: the sum of the questions' `max_points`. */
  function MaxScore(vs: seq<ResponseView>): int
  {
    SumOf(vs, MaxPoints)
  }

  /** Every loaded response's score lies between 0 and its question's maximum. */
  predicate ScoresInRange(vs: seq<ResponseView>, scores: map<Id, int>)
  {
    forall v :: v in vs ==> 0 <= ScoreIn(scores, v.response.id) <= v.question.maxPoints
  }

  /** A key of a non-empty map. */
  ghost function PickKey(m: map<Id, int>): (k: Id)
    requires m != map[]
    ensures k in m
  {
    var k :| k in m; k
  }

  /** `Object.values(m).reduce((sum, x) => sum + x, 0)`: the sum of all the map's values. */
  ghost function MapTotal(m: map<Id, int>): int
    decreases |m.Keys|
  {
    if m == map[] then 0
    else
      var k := PickKey(m);
      assert |(m - {k}).Keys| < |m.Keys| by {
        assert (m - {k}).Keys == m.Keys - {k};
      }
      m[k] + MapTotal(m - {k})
  }

  /** The value total does not depend on which key is taken out first. */
  lemma {:induction false} MapTotalRemove(m: map<Id, int>, k: Id)
    requires k in m
    ensures MapTotal(m) == m[k] + MapTotal(m - {k})
    decreases |m.Keys|
  {
    var j := PickKey(m);
    if j != k {
      assert (m - {j}).Keys == m.Keys - {j};
      assert (m - {k}).Keys == m.Keys - {k};
      MapTotalRemove(m - {j}, k);
      MapTotalRemove(m - {k}, j);
      assert m - {j} - {k} == m - {k} - {j};
    }
  }

  /** A map whose values are all 0 totals 0. */
  lemma {:induction false} MapTotalZero(m: map<Id, int>)
    requires forall k :: k in m ==> m[k] == 0
    ensures MapTotal(m) == 0
    decreases |m.Keys|
  {
    if m != map[] {
      var k := PickKey(m);
      assert (m - {k}).Keys == m.Keys - {k};
      MapTotalZero(m - {k});
    }
  }

  /**
   * The total the page saves, `Object.values(scores)` summed, equals the sum of the loaded
   * responses' scores when the response ids are distinct, every response has a score and
   * every other key holds 0.
   */
  lemma {:induction false} ObjectValuesTotal(vs: seq<ResponseView>, scores: map<Id, int>)
    requires DistinctIds(vs, ViewId)
    requires forall v :: v in vs ==> v.response.id in scores
    requires forall id :: id in scores && !IsResponseId(vs, id) ==> scores[id] == 0
    ensures MapTotal(scores) == TotalOf(vs, scores)
    decreases |vs|
  {
    if vs == [] {
      MapTotalZero(scores);
    } else {
      var v := vs[|vs| - 1];
      var prefix := vs[..|vs| - 1];
      var id := v.response.id;
      var rest := scores - {id};
      MapTotalRemove(scores, id);
      DropLastView(vs);
      ObjectValuesTotal(prefix, rest);
      SumOfCongruent(prefix, (w: ResponseView) => ScoreIn(rest, w.response.id), (w: ResponseView) => ScoreIn(scores, w.response.id));
    }
  }

  /** Dropping the last of distinct responses keeps the rest distinct and leaves its id to it alone. */
  lemma {:induction false} DropLastView(vs: seq<ResponseView>)
    requires vs != [] && DistinctIds(vs, ViewId)
    ensures DistinctIds(vs[..|vs| - 1], ViewId)
    ensures forall w :: w in vs[..|vs| - 1] ==> w.response.id != vs[|vs| - 1].response.id
    ensures forall x :: IsResponseId(vs, x) && x != vs[|vs| - 1].response.id ==> IsResponseId(vs[..|vs| - 1], x)
  {
    var prefix := vs[..|vs| - 1];
    forall w | w in prefix ensures w.response.id != vs[|vs| - 1].response.id {
      var i :| 0 <= i < |prefix| && prefix[i] == w;
      assert vs[i] == w && ViewId(vs[i]) != ViewId(vs[|vs| - 1]);
    }
    forall x | IsResponseId(vs, x) && x != vs[|vs| - 1].response.id ensures IsResponseId(prefix, x) {
      var i :| 0 <= i < |vs| && vs[i].response.id == x;
      assert prefix[i] == vs[i];
    }
    forall i, j | 0 <= i < j < |prefix| ensures ViewId(prefix[i]) != ViewId(prefix[j]) {
      assert prefix[i] == vs[i] && prefix[j] == vs[j];
    }
  }

  /**
   * When every score is within its question's bounds, the saved percentage is between 0 and 100.
   */
  lemma {:induction false} PercentageInRange(vs: seq<ResponseView>, scores: map<Id, int>)
    requires ScoresInRange(vs, scores)
    ensures 0 <= TotalOf(vs, scores) <= MaxScore(vs)
    ensures 0 <= Percentage(TotalOf(vs, scores), MaxScore(vs)) <= 100
  {
    SumOfNonNegative(vs, (v: ResponseView) => ScoreIn(scores, v.response.id));
    SumOfMonotonic(vs, (v: ResponseView) => ScoreIn(scores, v.response.id), MaxPoints);
    PercentageBounds(TotalOf(vs, scores), MaxScore(vs));
  }

  /** The response table after the points of the responses `vs` are written one after the other. */
  function AwardPoints(rows: seq<Response>, vs: seq<ResponseView>, scores: map<Id, int>): (r: seq<Response>)
    ensures |r| == |rows|
    ensures forall i :: 0 <= i < |rows| ==> r[i].id == rows[i].id
  {
    if vs == [] then rows
    else
      var v := vs[|vs| - 1];
      SetResponsePoints(AwardPoints(rows, vs[..|vs| - 1], scores), v.response.id, ScoreIn(scores, v.response.id))
  }

  /**
   * The effect of writing the points: a row whose id is one of the written responses holds
   * that response's score, every other row is unchanged, and only `points_awarded` changes.
   */
  lemma {:induction false} AwardPointsEffect(rows: seq<Response>, vs: seq<ResponseView>, scores: map<Id, int>, i: nat)
    requires i < |rows|
    ensures IsResponseId(vs, rows[i].id) ==>
      AwardPoints(rows, vs, scores)[i] == rows[i].(pointsAwarded := Some(ScoreIn(scores, rows[i].id)))
    ensures !IsResponseId(vs, rows[i].id) ==> AwardPoints(rows, vs, scores)[i] == rows[i]
  {
    if vs != [] {
      var prefix := vs[..|vs| - 1];
      AwardPointsEffect(rows, prefix, scores, i);
      assert IsResponseId(vs, rows[i].id) <==> IsResponseId(prefix, rows[i].id) || vs[|vs| - 1].response.id == rows[i].id by {
        if IsResponseId(vs, rows[i].id) {
          var j :| 0 <= j < |vs| && vs[j].response.id == rows[i].id;
          assert j == |vs| - 1 || prefix[j] == vs[j];
        }
        if IsResponseId(prefix, rows[i].id) {
          var j :| 0 <= j < |prefix| && prefix[j].response.id == rows[i].id;
          assert vs[j] == prefix[j];
        }
      }
    }
  }

  /** Writing the points of one more response extends `AwardPoints` by one update. */
  lemma {:induction false} AwardPointsStep(rows: seq<Response>, vs: seq<ResponseView>, i: nat, scores: map<Id, int>)
    requires i < |vs|
    ensures AwardPoints(rows, vs[..i + 1], scores) ==
      SetResponsePoints(AwardPoints(rows, vs[..i], scores), vs[i].response.id, ScoreIn(scores, vs[i].response.id))
  {
    assert vs[..i + 1][..i] == vs[..i];
  }

  /** The evaluation row written for the response `v`. */
  function EvaluationFor(v: ResponseView, id: Id, attemptId: Id, evaluatorId: Id,
                         scores: map<Id, int>, feedback: map<Id, string>, now: Timestamp): Evaluation
  {
    Evaluation(id, attemptId, v.response.id, evaluatorId, ScoreIn(scores, v.response.id),
               FeedbackIn(feedback, v.response.id), Some(true), Some(now))
  }

  /**
   * The evaluation rows appended for the responses `vs`, in order, under consecutive ids from
   * `firstId`: one final row per response, carrying the response's score and feedback.
   */
  function EvaluationRows(vs: seq<ResponseView>, firstId: Id, attemptId: Id, evaluatorId: Id,
                          scores: map<Id, int>, feedback: map<Id, string>, now: Timestamp): (r: seq<Evaluation>)
    ensures |r| == |vs|
  {
    if vs == [] then []
    else
      var n := |vs| - 1;
      EvaluationRows(vs[..n], firstId, attemptId, evaluatorId, scores, feedback, now)
        + [EvaluationFor(vs[n], firstId + n, attemptId, evaluatorId, scores, feedback, now)]
  }

  /** The `i`-th appended row is the final row of the `i`-th response, under the `i`-th id from `firstId`. */
  lemma {:induction false} EvaluationRowsContent(vs: seq<ResponseView>, firstId: Id, attemptId: Id, evaluatorId: Id,
                                                 scores: map<Id, int>, feedback: map<Id, string>, now: Timestamp, i: nat)
    requires i < |vs|
    ensures var r := EvaluationRows(vs, firstId, attemptId, evaluatorId, scores, feedback, now);
      && r[i].id == firstId + i && r[i].attemptId == attemptId && r[i].responseId == vs[i].response.id
      && r[i].evaluatorId == evaluatorId && r[i].pointsAwarded == ScoreIn(scores, vs[i].response.id)
      && r[i].feedback == FeedbackIn(feedback, vs[i].response.id) && r[i].isFinal == Some(true)
  {
    var n := |vs| - 1;
    if i < n {
      EvaluationRowsContent(vs[..n], firstId, attemptId, evaluatorId, scores, feedback, now, i);
    }
  }

  /** Appending the row of one more response extends `EvaluationRows` by that row. */
  lemma {:induction false} EvaluationRowsStep(vs: seq<ResponseView>, i: nat, firstId: Id, attemptId: Id, evaluatorId: Id,
                           scores: map<Id, int>, feedback: map<Id, string>, now: Timestamp)
    requires i < |vs|
    ensures EvaluationRows(vs[..i + 1], firstId, attemptId, evaluatorId, scores, feedback, now) ==
      EvaluationRows(vs[..i], firstId, attemptId, evaluatorId, scores, feedback, now)
        + [EvaluationFor(vs[i], firstId + i, attemptId, evaluatorId, scores, feedback, now)]
  {
    assert vs[..i + 1][..i] == vs[..i];
  }

  /** The update of the attempt when the save completes. */
  function MarkEvaluated(rows: seq<Attempt>, attemptId: Id, score: int, passed: bool): (r: seq<Attempt>)
    ensures |r| == |rows|
    ensures forall i :: 0 <= i < |rows| && rows[i].id == attemptId ==>
      r[i] == rows[i].(status := Evaluated, score := Some(score), passed := Some(passed))
    ensures forall i :: 0 <= i < |rows| && rows[i].id != attemptId ==> r[i] == rows[i]
  {
    UpdateAttempt(rows, attemptId, EvaluatedWith(score, passed))
  }

  /** The attempt columns the save sets. */
  function EvaluatedWith(score: int, passed: bool): Attempt -> Attempt
  {
    (a: Attempt) => a.(status := Evaluated, score := Some(score), passed := Some(passed))
  }

  /** A re-evaluation leaves no trace of the earlier score and verdict on the attempt row. */
  lemma {:induction false} ReEvaluationOverrides(rows: seq<Attempt>, attemptId: Id, s1: int, p1: bool, s2: int, p2: bool)
    ensures MarkEvaluated(MarkEvaluated(rows, attemptId, s1, p1), attemptId, s2, p2) == MarkEvaluated(rows, attemptId, s2, p2)
  {
    var a := MarkEvaluated(MarkEvaluated(rows, attemptId, s1, p1), attemptId, s2, p2);
    var b := MarkEvaluated(rows, attemptId, s2, p2);
    assert forall i :: 0 <= i < |rows| ==> a[i] == b[i];
  }

  /** Which write of the save fails, if any: the database answers each write with an error or not. */
  datatype SaveFault =
    | NoFault
    | PointsUpdateFails(at: nat)
    | EvaluationInsertFails(at: nat)
    | AttemptUpdateFails

  /** How a save ends. */
  datatype SaveOutcome = NotAuthenticated | WriteFailed | Saved(score: int, passed: bool)

  /** How many responses get their points written before the loop stops. */
  function PointsWritten(fault: SaveFault, n: nat): (k: nat)
    ensures k <= n
  {
    match fault
    case PointsUpdateFails(at) => if at < n then at else n
    case EvaluationInsertFails(at) => if at < n then at + 1 else n
    case _ => n
  }

  /** How many evaluation rows get appended before the loop stops. */
  function EvaluationsWritten(fault: SaveFault, n: nat): (k: nat)
    ensures k <= PointsWritten(fault, n) <= n
    ensures k == n <==> LoopCompletes(fault, n)
  {
    match fault
    case PointsUpdateFails(at) => if at < n then at else n
    case EvaluationInsertFails(at) => if at < n then at else n
    case _ => n
  }

  /** The loop over the responses runs to its end. */
  predicate LoopCompletes(fault: SaveFault, n: nat)
  {
    match fault
    case PointsUpdateFails(at) => at >= n
    case EvaluationInsertFails(at) => at >= n
    case _ => true
  }

  /** The page state of one evaluation: the loaded responses, the typed scores and feedback. */
  class GradingSession {
    const attemptId: Id
    const passingScore: int
    const responses: seq<ResponseView>
    var scores: map<Id, int>
    var feedback: map<Id, string>

    /** The responses have distinct ids, every response has a score, and a key that is no response's id holds 0. */
    ghost predicate Valid()
      reads this
    {
      && DistinctIds(responses, ViewId)
      && (forall v :: v in responses ==> v.response.id in scores)
      && (forall id :: id in scores && !IsResponseId(responses, id) ==> scores[id] == 0)
    }

    /**
     * The page after `fetchAttemptData` succeeded; response ids are primary keys, so the loaded
     * responses have distinct ids (`LoadedResponsesDistinct`).
     */
    constructor (loaded: Loaded)
      requires DistinctIds(loaded.responses, ViewId)
      ensures attemptId == loaded.attempt.id && passingScore == loaded.test.passingScore
      ensures responses == loaded.responses
      ensures scores == InitialScores(loaded.responses) && feedback == map[]
      ensures Valid()
    {
      attemptId := loaded.attempt.id;
      passingScore := loaded.test.passingScore;
      responses := loaded.responses;
      scores := InitialScores(loaded.responses);
      feedback := map[];
      new;
      forall v | v in responses ensures v.response.id in scores {
        var i :| 0 <= i < |responses| && responses[i] == v;
        InitialScoresKeys(responses, v.response.id);
      }
      forall id | id in scores ensures IsResponseId(responses, id) {
        InitialScoresKeys(responses, id);
      }
    }

    /** `response?.test_questions.max_points || 0`: the maximum of the first response with this id, 0 for an unknown id. */
    function MaxPointsOf(responseId: Id): (m: int)
      reads this
      ensures IsResponseId(responses, responseId) ==> exists v :: v in responses && v.response.id == responseId && m == v.question.maxPoints
      ensures !IsResponseId(responses, responseId) ==> m == 0
    {
      match Find(responses, (v: ResponseView) => v.response.id == responseId)
      case Some(v) => v.question.maxPoints
      case None => 0
    }

    /** `handleScoreChange`: the typed number, clamped to the question's range, replaces the response's score. */
    method ChangeScore(responseId: Id, input: Option<int>)
      requires Valid()
      modifies this`scores
      ensures Valid()
      ensures scores == old(scores)[responseId := ClampScore(input, MaxPointsOf(responseId))]
      ensures 0 <= MaxPointsOf(responseId) ==> 0 <= scores[responseId] <= MaxPointsOf(responseId)
      ensures !IsResponseId(responses, responseId) ==> scores[responseId] == 0
    {
      scores := scores[responseId := ClampScore(input, MaxPointsOf(responseId))];
    }

    /** `handleFeedbackChange`. */
    method ChangeFeedback(responseId: Id, text: string)
      modifies this`feedback
      ensures feedback == old(feedback)[responseId := text]
    {
      feedback := feedback[responseId := text];
    }

    /** The percentage the save computes from the current scores. */
    function SavedScore(): int
      reads this
    {
      Percentage(TotalOf(responses, scores), MaxScore(responses))
    }

    /**
     * The save sums `Object.values(scores)`: that is the same percentage as the sum over the
     * loaded responses.
     */
    lemma SavedScoreSumsObjectValues()
      requires Valid()
      ensures SavedScore() == Percentage(MapTotal(scores), MaxScore(responses))
    {
      ObjectValuesTotal(responses, scores);
    }

    /** The points write of the `i`-th response, one step further along `AwardPoints`. */
    method WritePoints(db: Database, i: nat, ghost rows: seq<Response>)
      requires db.Valid() && i < |responses|
      requires db.responses == AwardPoints(rows, responses[..i], scores)
      modifies db`responses
      ensures db.Valid()
      ensures db.responses == AwardPoints(rows, responses[..i + 1], scores)
    {
      var v := responses[i];
      AwardPointsStep(rows, responses, i, scores);
      db.UpdateResponsePoints(v.response.id, ScoreIn(scores, v.response.id));
    }

    /** The evaluation insert of the `i`-th response, one step further along `EvaluationRows`. */
    method WriteEvaluation(db: Database, i: nat, evaluatorId: Id, now: Timestamp, ghost before: seq<Evaluation>, ghost firstId: Id)
      requires db.Valid() && i < |responses| && db.nextId == firstId + i
      requires db.evaluations == before + EvaluationRows(responses[..i], firstId, attemptId, evaluatorId, scores, feedback, now)
      modifies db`evaluations, db`nextId
      ensures db.Valid() && db.nextId == firstId + i + 1
      ensures db.evaluations == before + EvaluationRows(responses[..i + 1], firstId, attemptId, evaluatorId, scores, feedback, now)
    {
      var row := EvaluationFor(responses[i], db.nextId, attemptId, evaluatorId, scores, feedback, now);
      EvaluationRowsStep(responses, i, firstId, attemptId, evaluatorId, scores, feedback, now);
      db.InsertEvaluation(row);
    }

    /**
     * The loop of `handleSaveEvaluation`: each response in turn gets its points written and
     * one final evaluation row appended; a failed write stops the loop and keeps what was
     * already written. `completed` tells whether the loop ran to its end.
     */
    method WriteResponses(db: Database, evaluatorId: Id, fault: SaveFault, now: Timestamp) returns (completed: bool)
      requires db.Valid()
      modifies db`responses, db`evaluations, db`nextId
      ensures db.Valid()
      ensures completed <==> LoopCompletes(fault, |responses|)
      ensures db.responses == AwardPoints(old(db.responses), responses[..PointsWritten(fault, |responses|)], scores)
      ensures db.evaluations == old(db.evaluations) + EvaluationRows(responses[..EvaluationsWritten(fault, |responses|)],
                                                                    old(db.nextId), attemptId, evaluatorId, scores, feedback, now)
      ensures db.nextId == old(db.nextId) + EvaluationsWritten(fault, |responses|)
    {
      var i := 0;
      while i < |responses|
        invariant 0 <= i <= |responses|
        invariant fault.PointsUpdateFails? ==> fault.at >= i
        invariant fault.EvaluationInsertFails? ==> fault.at >= i
        invariant db.responses == AwardPoints(old(db.responses), responses[..i], scores)
        invariant db.evaluations == old(db.evaluations) + EvaluationRows(responses[..i], old(db.nextId), attemptId, evaluatorId, scores, feedback, now)
        invariant db.nextId == old(db.nextId) + i
        invariant db.Valid()
      {
        if fault == PointsUpdateFails(i) {
          return false;
        }
        WritePoints(db, i, old(db.responses));
        if fault == EvaluationInsertFails(i) {
          return false;
        }
        WriteEvaluation(db, i, evaluatorId, now, old(db.evaluations), old(db.nextId));
        i := i + 1;
      }
      assert responses[..i] == responses;
      return true;
    }

    /**
     * `handleSaveEvaluation`. Without a signed-in user nothing is written. Otherwise the
     * responses are written as `WriteResponses` says; only when that loop completes is the
     * attempt set to evaluated, with the rounded percentage of the scores and the verdict, and
     * a failure of that last write leaves the attempt as it was.
     */
    method Save(db: Database, user: Option<Id>, fault: SaveFault, now: Timestamp) returns (outcome: SaveOutcome)
      requires db.Valid()
      modifies db`responses, db`evaluations, db`attempts, db`nextId
      ensures db.Valid()
      ensures user.None? ==> outcome == NotAuthenticated && unchanged(db)
      ensures user.Some? ==>
        && db.responses == AwardPoints(old(db.responses), responses[..PointsWritten(fault, |responses|)], scores)
        && db.evaluations == old(db.evaluations) + EvaluationRows(responses[..EvaluationsWritten(fault, |responses|)],
                                                                  old(db.nextId), attemptId, user.value, scores, feedback, now)
        && db.nextId == old(db.nextId) + EvaluationsWritten(fault, |responses|)
      ensures user.Some? && (!LoopCompletes(fault, |responses|) || fault == AttemptUpdateFails) ==>
        outcome == WriteFailed && db.attempts == old(db.attempts)
      ensures user.Some? && LoopCompletes(fault, |responses|) && fault != AttemptUpdateFails ==>
        && outcome == Saved(SavedScore(), Passed(SavedScore(), passingScore))
        && db.attempts == MarkEvaluated(old(db.attempts), attemptId, SavedScore(), Passed(SavedScore(), passingScore))
    {
      if user.None? {
        return NotAuthenticated;
      }
      var completed := WriteResponses(db, user.value, fault, now);
      if !completed {
        return WriteFailed;
      }
      var totalScore := TotalOf(responses, scores);
      var maxScore := MaxScore(responses);
      var percentage := Percentage(totalScore, maxScore);
      var passed := Passed(percentage, passingScore);
      if fault == AttemptUpdateFails {
        return WriteFailed;
      }
      db.ApplyToAttempt(attemptId, EvaluatedWith(percentage, passed));
      return Saved(percentage, passed);
    }
  }
}
