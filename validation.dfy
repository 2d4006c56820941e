/**
 * The content rules for tests and questions: the bounds the test and question forms enforce
 * (all inclusive, on trimmed text) and the extra well-formedness check of a multiple-choice
 * question, which reports the first of its three failures.
 */
module Validation {
  import opened Wrappers
  import opened Seqs
  import opened Schema
  import opened Text

  /** The input of the test form; `None` is a field left undefined. */
  datatype TestForm = TestForm(
    title: string,
    description: Option<string>,
    testNumber: int,
    timeLimitMinutes: Option<int>,
    passingScore: int)

  /** The input of the question form; `questionType` is still the raw string. */
  datatype QuestionForm = QuestionForm(
    questionText: string,
    questionType: string,
    questionNumber: int,
    maxPoints: int,
    correctAnswer: Option<string>,
    options: Option<seq<string>>,
    imageUrl: Option<string>)

  /** An optional trimmed text of at most `n` characters (`.optional().or(z.literal(""))`): the trimmed value, if it fits. */
  function OptionalTrimmed(s: Option<string>, n: nat): (r: Option<Option<string>>)
    ensures s.None? ==> r == Some(None)
    ensures s.Some? ==> (r.Some? <==> |Trim(s.value)| <= n)
    ensures r.Some? && s.Some? ==> r.value == Some(Trim(s.value))
  {
    if s.None? then Some(None)
    else if |Trim(s.value)| <= n then Some(Some(Trim(s.value)))
    else None
  }

  /** `time_limit_minutes`: null, undefined, or a whole number from 1 to 300. */
  predicate TimeLimitOk(t: Option<int>)
  {
    t.None? || 1 <= t.value <= 300
  }

  /** `testSchema`: the trimmed form when every field is within its bounds. */
  function ParseTestForm(f: TestForm): (r: Option<TestForm>)
    ensures r.Some? <==>
      && 3 <= |Trim(f.title)| <= 200
      && (f.description.None? || |Trim(f.description.value)| <= 1000)
      && 1 <= f.testNumber <= 9999
      && TimeLimitOk(f.timeLimitMinutes)
      && 0 <= f.passingScore <= 100
    ensures r.Some? ==>
      && r.value.title == Trim(f.title)
      && r.value.description == (if f.description.Some? then Some(Trim(f.description.value)) else None)
      && r.value.testNumber == f.testNumber && r.value.timeLimitMinutes == f.timeLimitMinutes
      && r.value.passingScore == f.passingScore
  {
    var title := Trim(f.title);
    var description := OptionalTrimmed(f.description, 1000);
    if 3 <= |title| <= 200 && description.Some? && 1 <= f.testNumber <= 9999
       && TimeLimitOk(f.timeLimitMinutes) && 0 <= f.passingScore <= 100
    then Some(f.(title := title, description := description.value))
    else None
  }

  /** Parsing a parsed test form changes nothing: its text is already trimmed. */
  lemma {:induction false} ParseTestFormIdempotent(f: TestForm)
    requires ParseTestForm(f).Some?
    ensures ParseTestForm(ParseTestForm(f).value) == ParseTestForm(f)
  {
    var g := ParseTestForm(f).value;
    TrimIdempotent(f.title);
    if f.description.Some? {
      TrimIdempotent(f.description.value);
    }
    TrimmedFormParses(g);
  }

  /** A form whose text is already trimmed and within bounds parses to itself. */
  lemma {:induction false} TrimmedFormParses(g: TestForm)
    requires Trim(g.title) == g.title && 3 <= |g.title| <= 200
    requires g.description.Some? ==> Trim(g.description.value) == g.description.value && |g.description.value| <= 1000
    requires 1 <= g.testNumber <= 9999 && TimeLimitOk(g.timeLimitMinutes) && 0 <= g.passingScore <= 100
    ensures ParseTestForm(g) == Some(g)
  {
    assert OptionalTrimmed(g.description, 1000) == Some(g.description);
  }

  /** The bounds are inclusive at both ends: 1 and 9999, 1 and 300, 0 and 100 pass; one step beyond fails. */
  lemma {:induction false} TestBoundsInclusive(f: TestForm)
    requires 3 <= |Trim(f.title)| <= 200 && f.description.None? && f.timeLimitMinutes.None?
    ensures ParseTestForm(f.(testNumber := 1, passingScore := 0)).Some?
    ensures ParseTestForm(f.(testNumber := 9999, passingScore := 100, timeLimitMinutes := Some(300))).Some?
    ensures ParseTestForm(f.(testNumber := 10000, passingScore := 0)).None?
    ensures ParseTestForm(f.(testNumber := 1, passingScore := 101)).None?
    ensures ParseTestForm(f.(testNumber := 1, passingScore := 0, timeLimitMinutes := Some(0))).None?
    ensures ParseTestForm(f.(testNumber := 1, passingScore := 0, timeLimitMinutes := Some(301))).None?
  {
  }

  /** `questionSchema`, with the URL check of `image_url` given as `isUrl`: the trimmed form when every field is within its bounds. */
  function ParseQuestionForm(f: QuestionForm, isUrl: string -> bool): (r: Option<QuestionForm>)
    ensures r.Some? <==>
      && 5 <= |Trim(f.questionText)| <= 2000
      && ParseQuestionType(f.questionType).Some?
      && 1 <= f.questionNumber <= 9999
      && 1 <= f.maxPoints <= 1000
      && (f.correctAnswer.None? || |Trim(f.correctAnswer.value)| <= 500)
      && (f.options.None? || forall o :: o in f.options.value ==> |Trim(o)| <= 500)
      && (f.imageUrl.None? || f.imageUrl.value == "" || (isUrl(f.imageUrl.value) && |f.imageUrl.value| <= 2000))
    ensures r.Some? ==>
      && r.value.questionText == Trim(f.questionText)
      && (r.value.questionType == "mcq" || r.value.questionType == "text")
      && r.value.questionNumber == f.questionNumber && r.value.maxPoints == f.maxPoints
      && (f.options.Some? ==>
            && r.value.options.Some? && |r.value.options.value| == |f.options.value|
            && forall i :: 0 <= i < |f.options.value| ==> r.value.options.value[i] == Trim(f.options.value[i]))
      && (f.options.None? ==> r.value.options.None?)
      && r.value.correctAnswer == (if f.correctAnswer.Some? then Some(Trim(f.correctAnswer.value)) else None)
      && r.value.questionType == f.questionType && r.value.imageUrl == f.imageUrl
  {
    var text := Trim(f.questionText);
    var answer := OptionalTrimmed(f.correctAnswer, 500);
    var urlOk := f.imageUrl.None? || f.imageUrl.value == "" || (isUrl(f.imageUrl.value) && |f.imageUrl.value| <= 2000);
    var optionsOk := f.options.None? || forall o :: o in f.options.value ==> |Trim(o)| <= 500;
    if 5 <= |text| <= 2000 && ParseQuestionType(f.questionType).Some? && 1 <= f.questionNumber <= 9999
       && 1 <= f.maxPoints <= 1000 && answer.Some? && optionsOk && urlOk
    then
      var options := if f.options.None? then None else Some(TrimAll(f.options.value));
      Some(f.(questionText := text, correctAnswer := answer.value, options := options))
    else None
  }

  function TrimAll(xs: seq<string>): (r: seq<string>)
    ensures |r| == |xs| && forall i :: 0 <= i < |xs| ==> r[i] == Trim(xs[i])
  {
    seq(|xs|, i requires 0 <= i < |xs| => Trim(xs[i]))
  }

  /** An accepted question is worth between 1 and 1000 points, so every accepted question adds to a test's maximum. */
  lemma {:induction false} AcceptedQuestionScores(f: QuestionForm, isUrl: string -> bool)
    requires ParseQuestionForm(f, isUrl).Some?
    ensures 1 <= ParseQuestionForm(f, isUrl).value.maxPoints <= 1000
    ensures ParseQuestionType(ParseQuestionForm(f, isUrl).value.questionType).Some?
  {
  }

  /** Why a multiple-choice question is refused, in the order the checks run. */
  datatype McqError = TooFewOptions | NoCorrectAnswer | AnswerNotAnOption

  /** `o.trim()` is truthy: the option is not blank. */
  function NotBlank(o: string): bool { !IsBlank(o) }

  /** `data.options?.filter(o => o.trim()) || []`. */
  function ValidOptions(options: Option<seq<string>>): (r: seq<string>)
    ensures forall o :: o in r <==> options.Some? && o in options.value && !IsBlank(o)
  {
    if options.None? then [] else Filter(options.value, NotBlank)
  }

  /** `validateMCQQuestion`: only "mcq" questions are checked, and the first failing check is reported. */
  function ValidateMcqQuestion(questionType: string, options: Option<seq<string>>, correctAnswer: string): (r: Result<bool, McqError>)
    ensures questionType != "mcq" ==> r == Success(true)
    ensures questionType == "mcq" ==>
      && (r == Failure(TooFewOptions) <==> |ValidOptions(options)| < 2)
      && (r == Failure(NoCorrectAnswer) <==> |ValidOptions(options)| >= 2 && IsBlank(correctAnswer))
      && (r == Failure(AnswerNotAnOption) <==>
            |ValidOptions(options)| >= 2 && !IsBlank(correctAnswer) && correctAnswer !in ValidOptions(options))
    ensures r.Success? ==> r.value
  {
    if questionType == "mcq" then
      var valid := ValidOptions(options);
      if |valid| < 2 then Failure(TooFewOptions)
      else if IsBlank(correctAnswer) then Failure(NoCorrectAnswer)
      else if correctAnswer !in valid then Failure(AnswerNotAnOption)
      else Success(true)
    else Success(true)
  }

  /** An accepted multiple-choice question has at least two non-blank options, one of which is, character for character, its answer. */
  lemma {:induction false} AcceptedMcqWellFormed(options: Option<seq<string>>, correctAnswer: string)
    requires ValidateMcqQuestion("mcq", options, correctAnswer).Success?
    ensures options.Some? && correctAnswer in options.value && !IsBlank(correctAnswer)
    ensures Count(options.value, NotBlank) >= 2
  {
  }

  /** The answer is compared untrimmed: surrounding space makes a listed option fail the membership check. */
  lemma {:induction false} PaddedAnswerRejected()
    ensures ValidateMcqQuestion("mcq", Some(["A", "B"]), " A") == Failure(AnswerNotAnOption)
  {
    var valid := ValidOptions(Some(["A", "B"]));
    assert !IsWhitespace('A') && !IsWhitespace('B');
    assert "A"[0] == 'A' && "B"[0] == 'B' && " A"[1] == 'A';
    assert !IsBlank("A") && !IsBlank("B") && !IsBlank(" A");
    assert "A" in valid && "B" in valid;
    assert ["A", "B"][1..] == ["B"];
    assert valid == ["A", "B"];
    assert " A" != "A" && " A" != "B";
  }
}
