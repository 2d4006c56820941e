/**
 * What the manager's re-evaluation page adds to grading: the filter of the responses answered
 * wrongly (judged on the points stored when the page loaded, not on the scores being edited),
 * the list it displays, and the Correct/Incorrect badge of an auto-scored multiple-choice
 * answer. Saving a re-evaluation is `Grading.GradingSession.Save`.
 */
module ManagerReview {
  import opened Wrappers
  import opened Seqs
  import opened Schema
  import opened Text
  import opened Grading

  /** A response counts as wrong when its stored points (null as 0) are below its question's maximum. */
  predicate IsWrong(v: ResponseView)
  {
    v.response.pointsAwarded.GetOr(0) < v.question.maxPoints
  }

  /** The negation of `IsWrong`: full marks or more. */
  predicate IsRight(v: ResponseView)
  {
    !IsWrong(v)
  }

  /** `questionsAnsweredWrong`. */
  function WrongAnswers(vs: seq<ResponseView>): (r: seq<ResponseView>)
    ensures |r| <= |vs|
    ensures forall v :: v in r <==> v in vs && IsWrong(v)
  {
    Filter(vs, IsWrong)
  }

  /** The number of responses the page reports as answered correctly: all minus the wrong ones. */
  function CorrectCount(vs: seq<ResponseView>): (n: int)
    ensures n == Count(vs, IsRight)
    ensures 0 <= n <= |vs|
  {
    CountSplit(vs, IsWrong, IsRight);
    |vs| - |WrongAnswers(vs)|
  }

  /** `displayedResponses`: every response, or only the wrong ones. */
  function Displayed(vs: seq<ResponseView>, showAllQuestions: bool): (r: seq<ResponseView>)
    ensures showAllQuestions ==> r == vs
    ensures !showAllQuestions ==> forall v :: v in r <==> v in vs && IsWrong(v)
  {
    if showAllQuestions then vs else WrongAnswers(vs)
  }

  /** The filtered list keeps the order of the question numbers. */
  lemma {:induction false} WrongAnswersKeepOrder(vs: seq<ResponseView>)
    requires SortedBy(vs, QuestionNumber)
    ensures SortedBy(WrongAnswers(vs), QuestionNumber)
  {
    FilterKeepsSorted(vs, IsWrong, QuestionNumber);
  }

  /** `a?.trim() === b?.trim()`: two nulls compare equal, a null never equals a string. */
  predicate TrimmedEqual(a: Option<string>, b: Option<string>)
  {
    if a.None? then b.None? else b.Some? && Trim(a.value) == Trim(b.value)
  }

  /**
   * The badge next to a response: shown only for an auto-scored multiple-choice response,
   * `Some(true)` for "Correct" and `Some(false)` for "Incorrect".
   */
  function McqBadge(v: ResponseView): (b: Option<bool>)
    ensures b.Some? <==> v.response.autoScored == Some(true) && v.question.questionType == Mcq
    ensures b.Some? ==> (b.value <==> TrimmedEqual(v.response.answerText, v.question.correctAnswer))
  {
    if v.response.autoScored == Some(true) && v.question.questionType == Mcq then
      Some(TrimmedEqual(v.response.answerText, v.question.correctAnswer))
    else None
  }

  /** Comparing an answer or its trimmed form gives the same verdict. */
  lemma {:induction false} TrimmedEqualOfTrimmed(a: string, b: Option<string>)
    ensures TrimmedEqual(Some(Trim(a)), b) == TrimmedEqual(Some(a), b)
  {
    TrimIdempotent(a);
  }

  /** White space around the answer never changes the badge. */
  lemma {:induction false} BadgeIgnoresSurroundingSpace(v: ResponseView, a: string)
    requires v.response.answerText == Some(a)
    ensures McqBadge(v.(response := v.response.(answerText := Some(Trim(a))))) == McqBadge(v)
  {
    TrimmedEqualOfTrimmed(a, v.question.correctAnswer);
  }
}
