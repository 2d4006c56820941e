/**
 * The page on which a new joinee takes a test: opening it resumes the user's in-progress
 * attempt or creates one, every answer is saved as it is typed (an upsert keyed on attempt and
 * question), a countdown submits the attempt when it runs out, and the user moves between the
 * questions and submits.
 */
module TestTaking {
  import opened Wrappers
  import opened Seqs
  import opened Schema
  import opened Store
  import opened Text

  function OfTest(id: Id): Question -> bool { (q: Question) => q.testId == id }
  function TestWithId(id: Id): Test -> bool { (t: Test) => t.id == id }
  function ResponsesOf(attemptId: Id): Response -> bool { (r: Response) => r.attemptId == attemptId }
  function QuestionNumberOf(q: Question): int { q.questionNumber }

  /** The in-progress attempts of a user on a test. */
  function OpenAttemptOf(userId: Id, testId: Id): Attempt -> bool
  {
    (a: Attempt) => a.testId == testId && a.userId == userId && a.status == InProgress
  }

  /** The response rows of one question in one attempt. */
  function PairOf(attemptId: Id, questionId: Id): Response -> bool
  {
    (r: Response) => r.attemptId == attemptId && r.questionId == questionId
  }

  /** A user has at most one in-progress attempt on a test. */
  predicate OpenAttemptsUnique(rows: seq<Attempt>)
  {
    forall i, j :: 0 <= i < j < |rows| && rows[i].status == InProgress && rows[j].status == InProgress ==>
      rows[i].userId != rows[j].userId || rows[i].testId != rows[j].testId
  }

  /** An attempt holds at most one response per question. */
  predicate ResponsePairsUnique(rows: seq<Response>)
  {
    forall i, j :: 0 <= i < j < |rows| ==>
      rows[i].attemptId != rows[j].attemptId || rows[i].questionId != rows[j].questionId
  }

  /** `if (testData.time_limit_minutes)`: a limit that is present and not 0. */
  predicate HasTimeLimit(t: Test)
  {
    t.timeLimitMinutes.Some? && t.timeLimitMinutes.value != 0
  }

  /**
   * The seconds left when an attempt is resumed: the limit in seconds minus the whole seconds
   * elapsed since the start (`new Date(null)` is the epoch), never below 0.
   */
  function RemainingOnResume(limitMinutes: int, startedAt: Option<Timestamp>, now: Timestamp): (r: int)
    ensures r >= 0
    ensures r == 0 <==> limitMinutes * 60 <= (now - startedAt.GetOr(0)) / 1000
    ensures r > 0 ==> r == limitMinutes * 60 - (now - startedAt.GetOr(0)) / 1000
  {
    var elapsed := (now - startedAt.GetOr(0)) / 1000;
    var total := limitMinutes * 60;
    if total - elapsed > 0 then total - elapsed else 0
  }

  /** Resuming at the very moment the attempt started leaves the whole limit, as for a new attempt. */
  lemma {:induction false} ResumeAtStartIsFresh(limitMinutes: int, startedAt: Timestamp)
    requires limitMinutes >= 0
    ensures RemainingOnResume(limitMinutes, Some(startedAt), startedAt) == limitMinutes * 60
  {
  }

  /** Resuming later never leaves more time. */
  lemma {:induction false} RemainingDecreases(limitMinutes: int, startedAt: Option<Timestamp>, now1: Timestamp, now2: Timestamp)
    requires now1 <= now2
    ensures RemainingOnResume(limitMinutes, startedAt, now2) <= RemainingOnResume(limitMinutes, startedAt, now1)
  {
  }

  /**
   * The answers loaded on resume: each response's `answer_text`, "" when null, keyed by its
   * question; a later row of the same question overrides an earlier one.
   */
  function AnswersFrom(rows: seq<Response>): map<Id, string>
  {
    if rows == [] then map[]
    else
      var last := rows[|rows| - 1];
      AnswersFrom(rows[..|rows| - 1])[last.questionId := last.answerText.GetOr("")]
  }

  /** The loaded answers are keyed by exactly the questions that have a response row. */
  lemma {:induction false} AnswersFromKeys(rows: seq<Response>, q: Id)
    ensures q in AnswersFrom(rows) <==> exists i :: 0 <= i < |rows| && rows[i].questionId == q
  {
    if rows != [] {
      var prefix := rows[..|rows| - 1];
      AnswersFromKeys(prefix, q);
      if q in AnswersFrom(rows) && rows[|rows| - 1].questionId != q {
        var i :| 0 <= i < |prefix| && prefix[i].questionId == q;
        assert rows[i] == prefix[i];
      }
      if exists i :: 0 <= i < |rows| && rows[i].questionId == q {
        var i :| 0 <= i < |rows| && rows[i].questionId == q;
        if i < |prefix| {
          assert prefix[i] == rows[i];
        }
      }
    }
  }

  /** A question's loaded answer is that of its last response row, with null read as "". */
  lemma {:induction false} AnswersFromLatest(rows: seq<Response>, i: nat)
    requires i < |rows|
    requires forall j :: i < j < |rows| ==> rows[j].questionId != rows[i].questionId
    ensures rows[i].questionId in AnswersFrom(rows)
    ensures AnswersFrom(rows)[rows[i].questionId] == rows[i].answerText.GetOr("")
  {
    if i < |rows| - 1 {
      var prefix := rows[..|rows| - 1];
      assert prefix[i] == rows[i];
      forall j | i < j < |prefix|
        ensures prefix[j].questionId != prefix[i].questionId
      {
        assert prefix[j] == rows[j];
      }
      AnswersFromLatest(prefix, i);
    }
  }

  /** The number of tick steps after which the countdown value `prev` is replaced, and whether it expires. */
  function NextRemaining(prev: int): (r: int)
    ensures prev <= 1 ==> r == 0
    ensures prev > 1 ==> r == prev - 1
  {
    if prev <= 1 then 0 else prev - 1
  }

  /** The countdown after `n` ticks from `t`. */
  function AfterTicks(t: int, n: nat): int
  {
    if n == 0 then t else NextRemaining(AfterTicks(t, n - 1))
  }

  /** Counting down from `t` seconds, each tick takes one second off. */
  lemma {:induction false} CountdownSteps(t: int, k: nat)
    requires k < t
    ensures AfterTicks(t, k) == t - k
  {
    if k > 0 {
      CountdownSteps(t, k - 1);
    }
  }

  /**
   * A countdown from `t >= 1` ticks `t - 1` times without expiring (each of those ticks starts
   * from a value above 1) and expires on tick `t`, landing on 0.
   */
  lemma {:induction false} CountdownExpiresOnTime(t: int)
    requires t >= 1
    ensures forall k: nat :: k < t - 1 ==> AfterTicks(t, k) > 1
    ensures AfterTicks(t, (t - 1) as nat) == 1
    ensures AfterTicks(t, t as nat) == 0
  {
    forall k: nat | k < t
      ensures AfterTicks(t, k) == t - k
    {
      CountdownSteps(t, k);
    }
  }

  /** JavaScript's `%` for a positive divisor: the remainder takes the sign of the dividend. */
  function JsRem(a: int, b: int): (r: int)
    requires b > 0
    ensures a >= 0 ==> r == a % b
    ensures a < 0 ==> r == -((-a) % b)
  {
    if a >= 0 then a % b else -((-a) % b)
  }

  /** `s.padStart(2, "0")`. */
  function PadStart2(s: string): (r: string)
    ensures |s| >= 2 ==> r == s
    ensures |s| < 2 ==> |r| == 2 && r[2 - |s|..] == s && forall i :: 0 <= i < 2 - |s| ==> r[i] == '0'
  {
    if |s| >= 2 then s else if |s| == 1 then "0" + s else "00"
  }

  /** `formatTime`: whole minutes, a colon, and the remaining seconds on two digits. */
  function FormatTime(seconds: int): string
  {
    IntToString(seconds / 60) + ":" + PadStart2(IntToString(JsRem(seconds, 60)))
  }

  function IsColon(c: char): bool { c == ':' }

  /** Reads a `minutes:seconds` display back into seconds; `None` for anything else. */
  function ParseClock(t: string): (r: Option<int>)
  {
    match FindIndex(t, IsColon)
    case None => None
    case Some(i) => ClockFromParts(t[..i], t[i + 1..])
  }

  /** The minutes before the colon and the two-digit seconds after it, in seconds. */
  function ClockFromParts(mins: string, secs: string): Option<int>
  {
    if mins != [] && AllDigits(mins) && |secs| == 2 && AllDigits(secs) then
      Some(DigitsValue(mins) * 60 + DigitsValue(secs))
    else None
  }

  /** The display of a non-negative number of seconds reads back as that number: `mins * 60 + secs == s`. */
  lemma {:induction false} FormatTimeRoundTrip(s: int)
    requires s >= 0
    ensures ParseClock(FormatTime(s)) == Some(s)
  {
    FormatTimeIsDisplay(s);
    DisplayReadsBack(s / 60, s % 60);
  }

  /** A countdown that is not negative is shown as its whole minutes and its remaining seconds. */
  lemma {:induction false} FormatTimeIsDisplay(s: int)
    requires s >= 0
    ensures FormatTime(s) == Display(s / 60, s % 60)
  {
  }

  /** Minutes and seconds as `formatTime` shows them when the countdown is not negative. */
  function Display(mins: nat, secs: nat): string
  {
    NatToString(mins) + ":" + PadStart2(NatToString(secs))
  }

  /** A display of minutes and seconds reads back as the seconds it stands for. */
  lemma {:induction false} DisplayReadsBack(mins: nat, secs: nat)
    requires secs < 60
    ensures ParseClock(Display(mins, secs)) == Some(mins * 60 + secs)
  {
    var m := NatToString(mins);
    var p := PadStart2(NatToString(secs));
    DigitsRoundTrip(mins);
    SecondsRoundTrip(secs);
    ClockReadsBack(m, p);
  }

  /** The seconds, padded to two digits, are two digits that denote them. */
  lemma {:induction false} SecondsRoundTrip(sec: nat)
    requires sec < 60
    ensures |PadStart2(NatToString(sec))| == 2
    ensures AllDigits(PadStart2(NatToString(sec))) && DigitsValue(PadStart2(NatToString(sec))) == sec
  {
    DigitsRoundTrip(sec);
    if sec < 10 {
      LeadingZero(NatToString(sec));
    } else {
      assert NatToString(sec) == NatToString(sec / 10) + [DigitChar(sec % 10)];
    }
  }

  /** Digits, a colon and two digits read back as minutes and seconds. */
  lemma {:induction false} ClockReadsBack(m: string, p: string)
    requires m != [] && AllDigits(m) && |p| == 2 && AllDigits(p)
    ensures ParseClock(m + ":" + p) == Some(DigitsValue(m) * 60 + DigitsValue(p))
  {
    var t := m + ":" + p;
    FirstColon(m, p);
    var mins, secs := t[..|m|], t[|m| + 1..];
    assert ParseClock(t) == ClockFromParts(mins, secs);
    assert mins == m && secs == p;
    assert ClockFromParts(m, p) == Some(DigitsValue(m) * 60 + DigitsValue(p));
  }

  /** The first colon of digits, a colon and more is the one after the digits. */
  lemma {:induction false} FirstColon(m: string, p: string)
    requires AllDigits(m)
    ensures FindIndex(m + ":" + p, IsColon) == Some(|m|)
  {
    var t := m + ":" + p;
    assert IsColon(t[|m|]);
    forall j | 0 <= j < |m| ensures !IsColon(t[j]) {
      assert t[j] == m[j];
    }
  }

  /** `Object.keys(answers).filter((k) => answers[k]).length`: the questions with a non-empty answer. */
  function AnsweredCount(answers: map<Id, string>): (n: nat)
    ensures n <= |answers|
  {
    SubsetCardinality(Answered(answers), answers.Keys);
    |Answered(answers)|
  }

  /** The questions whose answer is not empty. */
  function Answered(answers: map<Id, string>): (r: set<Id>)
    ensures r <= answers.Keys
  {
    set k | k in answers && answers[k] != ""
  }

  lemma {:induction false} SubsetCardinality(a: set<Id>, b: set<Id>)
    requires a <= b
    ensures |a| <= |b|
  {
    assert b == a + (b - a);
  }

  /** Typing a non-empty answer counts the question as answered, once. */
  lemma {:induction false} AnsweringCounts(answers: map<Id, string>, q: Id, value: string)
    requires value != ""
    ensures AnsweredCount(answers[q := value]) == AnsweredCount(answers) + (if q in answers && answers[q] != "" then 0 else 1)
  {
    AnsweredAfterAnswer(answers, q, value);
    if q in answers && answers[q] != "" {
      assert q in Answered(answers);
      assert Answered(answers) + {q} == Answered(answers);
    } else {
      assert q !in Answered(answers);
    }
  }

  /** Typing a non-empty answer adds the question to the answered ones. */
  lemma {:induction false} AnsweredAfterAnswer(answers: map<Id, string>, q: Id, value: string)
    requires value != ""
    ensures Answered(answers[q := value]) == Answered(answers) + {q}
  {
    var updated := answers[q := value];
    forall k ensures k in Answered(updated) <==> k in Answered(answers) + {q} {
      if k != q {
        assert k in updated <==> k in answers;
      }
    }
  }

  /** Clearing an answer uncounts the question if it was answered. */
  lemma {:induction false} ClearingUncounts(answers: map<Id, string>, q: Id)
    ensures AnsweredCount(answers[q := ""]) == AnsweredCount(answers) - (if q in answers && answers[q] != "" then 1 else 0)
  {
    AnsweredAfterClear(answers, q);
  }

  /** Clearing an answer takes the question out of the answered ones. */
  lemma {:induction false} AnsweredAfterClear(answers: map<Id, string>, q: Id)
    ensures Answered(answers[q := ""]) == Answered(answers) - {q}
  {
    var updated := answers[q := ""];
    forall k ensures k in Answered(updated) <==> k in Answered(answers) - {q} {
      if k != q {
        assert k in updated <==> k in answers;
      }
    }
  }

  /** The attempt columns set on submit. */
  function SubmittedWith(now: Timestamp): Attempt -> Attempt
  {
    (a: Attempt) => a.(status := Submitted, submittedAt := Some(now))
  }

  /** Submitting only takes attempts out of progress, so it keeps the in-progress attempts unique. */
  lemma {:induction false} SubmitKeepsOpenUnique(rows: seq<Attempt>, id: Id, now: Timestamp)
    requires OpenAttemptsUnique(rows)
    ensures OpenAttemptsUnique(UpdateAttempt(rows, id, SubmittedWith(now)))
  {
    var r := UpdateAttempt(rows, id, SubmittedWith(now));
    assert forall i :: 0 <= i < |rows| && r[i].status == InProgress ==> r[i] == rows[i];
  }

  /** The page state and the tables the attempt step of opening the page leaves. */
  datatype Opening = Opening(
    outcome: OpenOutcome, attempts: seq<Attempt>, nextId: Id,
    answers: map<Id, string>, timeRemaining: Option<int>, attemptId: Option<Id>)

  /**
   * The attempt step of opening the page, from the attempts, responses and id counter before:
   * either the user's single in-progress attempt is resumed, or a new one is inserted, or the
   * insert fails and nothing changes.
   */
  function OpenAttempt(
    attempts: seq<Attempt>, responses: seq<Response>, nextId: Id,
    userId: Id, t: Test, now: Timestamp, insertFails: bool,
    answers: map<Id, string>, timeRemaining: Option<int>, attemptId: Option<Id>): Opening
  {
    match SingleMatch(attempts, OpenAttemptOf(userId, t.id))
    case Some(a) =>
      Opening(Resumed, attempts, nextId, AnswersFrom(Filter(responses, ResponsesOf(a.id))),
              if HasTimeLimit(t) then Some(RemainingOnResume(t.timeLimitMinutes.value, a.startedAt, now)) else timeRemaining,
              Some(a.id))
    case None =>
      if insertFails then Opening(LoadFailed, attempts, nextId, answers, timeRemaining, attemptId)
      else
        Opening(Created,
                attempts + [InsertedAttempt(nextId, AttemptInsert(t.id, userId, Some(InProgress)), InProgress, now)],
                nextId + 1, answers,
                if HasTimeLimit(t) then Some(t.timeLimitMinutes.value * 60) else timeRemaining,
                Some(nextId))
  }

  /**
   * Opening keeps each user's in-progress attempt on a test unique, and when the page ends
   * up with an attempt it is that user's single in-progress attempt on the test.
   */
  lemma {:induction false} OpenAttemptKeepsUnique(
    attempts: seq<Attempt>, responses: seq<Response>, nextId: Id,
    userId: Id, t: Test, now: Timestamp, insertFails: bool,
    answers: map<Id, string>, timeRemaining: Option<int>, attemptId: Option<Id>)
    requires OpenAttemptsUnique(attempts)
    ensures var o := OpenAttempt(attempts, responses, nextId, userId, t, now, insertFails, answers, timeRemaining, attemptId);
      && OpenAttemptsUnique(o.attempts)
      && (o.outcome == Resumed || o.outcome == Created ==>
            && SingleMatch(o.attempts, OpenAttemptOf(userId, t.id)).Some?
            && o.attemptId == Some(SingleMatch(o.attempts, OpenAttemptOf(userId, t.id)).value.id))
  {
    if SingleMatch(attempts, OpenAttemptOf(userId, t.id)).None? && !insertFails {
      var row := InsertedAttempt(nextId, AttemptInsert(t.id, userId, Some(InProgress)), InProgress, now);
      CreatedAttemptIsTheOpenOne(attempts, row, userId, t.id);
    }
  }

  /** How opening the page ends. */
  datatype OpenOutcome = NotSignedIn | LoadFailed | Resumed | Created

  /** The state of the test page. */
  class TestSession {
    var test: Option<Test>
    var questions: seq<Question>
    var answers: map<Id, string>
    var attemptId: Option<Id>
    var timeRemaining: Option<int>
    var index: int

    /** The index of the shown question is within the questions (once there are any). */
    ghost predicate IndexInRange()
      reads this
    {
      0 <= index && (questions != [] ==> index < |questions|)
    }

    /** The countdown runs while the remaining time is set and positive. */
    predicate TimerRunning()
      reads this
    {
      timeRemaining.Some? && timeRemaining.value > 0
    }

    /** The page as first rendered: nothing loaded, no attempt, no timer, the first question. */
    constructor ()
      ensures test.None? && questions == [] && answers == map[] && attemptId.None? && timeRemaining.None? && index == 0
      ensures IndexInRange()
    {
      test, questions, answers, attemptId, timeRemaining, index := None, [], map[], None, None, 0;
    }

    /**
     * `initializeTest`. Without a user nothing happens. The test is read with `single()` and
     * its questions in ascending question number; then `ResumeOrCreate` finds or makes the
     * attempt.
     */
    method Open(db: Database, user: Option<Id>, testId: Id, now: Timestamp, insertFails: bool) returns (outcome: OpenOutcome)
      requires db.Valid()
      modifies this`test, this`questions, this`answers, this`timeRemaining, this`attemptId, db`attempts, db`nextId
      ensures db.Valid()
      ensures db.responses == old(db.responses) && index == old(index)
      ensures user.None? ==> outcome == NotSignedIn && unchanged(this) && unchanged(db)
      ensures user.Some? && SingleMatch(old(db.tests), TestWithId(testId)).None? ==>
        outcome == LoadFailed && unchanged(this) && unchanged(db)
      ensures user.Some? && SingleMatch(old(db.tests), TestWithId(testId)).Some? ==>
        && test == SingleMatch(old(db.tests), TestWithId(testId))
        && questions == SortByKey(Filter(old(db.questions), OfTest(testId)), QuestionNumberOf)
        && Opening(outcome, db.attempts, db.nextId, answers, timeRemaining, attemptId)
           == OpenAttempt(old(db.attempts), old(db.responses), old(db.nextId), user.value, test.value, now, insertFails,
                          old(answers), old(timeRemaining), old(attemptId))
    {
      if user.None? {
        outcome := NotSignedIn;
      } else {
        var loaded := LoadTest(db, testId);
        if loaded {
          outcome := ResumeOrCreate(db, user.value, test.value, now, insertFails);
        } else {
          outcome := LoadFailed;
        }
      }
    }

    /** Reads the test with `single()` and its questions in ascending question number; nothing is set when the test is not found. */
    method LoadTest(db: Database, testId: Id) returns (loaded: bool)
      modifies this`test, this`questions
      ensures loaded <==> SingleMatch(db.tests, TestWithId(testId)).Some?
      ensures !loaded ==> test == old(test) && questions == old(questions)
      ensures loaded ==>
        && test == SingleMatch(db.tests, TestWithId(testId))
        && test.value.id == testId
        && questions == SortByKey(Filter(db.questions, OfTest(testId)), QuestionNumberOf)
    {
      var found := SingleMatch(db.tests, TestWithId(testId));
      if found.None? {
        return false;
      }
      test := found;
      questions := SortByKey(Filter(db.questions, OfTest(testId)), QuestionNumberOf);
      return true;
    }

    /**
     * The attempt half of `initializeTest`. An in-progress attempt of this user on this test,
     * found with `maybeSingle()`, is resumed with its saved answers and the remaining time;
     * otherwise a new in-progress attempt is inserted (`insertFails` says whether the database
     * refuses it) and the timer starts from the whole limit. Without a time limit the timer is
     * left as it was.
     */
    method ResumeOrCreate(db: Database, userId: Id, t: Test, now: Timestamp, insertFails: bool) returns (outcome: OpenOutcome)
      requires db.Valid()
      modifies this`answers, this`timeRemaining, this`attemptId, db`attempts, db`nextId
      ensures db.Valid()
      ensures Opening(outcome, db.attempts, db.nextId, answers, timeRemaining, attemptId)
        == OpenAttempt(old(db.attempts), old(db.responses), old(db.nextId), userId, t, now, insertFails,
                       old(answers), old(timeRemaining), old(attemptId))
    {
      var p := OpenAttemptOf(userId, t.id);
      var existing := SingleMatch(db.attempts, p);
      if existing.Some? {
        var a := existing.value;
        attemptId := Some(a.id);
        answers := AnswersFrom(Filter(db.responses, ResponsesOf(a.id)));
        if HasTimeLimit(t) {
          timeRemaining := Some(RemainingOnResume(t.timeLimitMinutes.value, a.startedAt, now));
        }
        return Resumed;
      }
      if insertFails {
        return LoadFailed;
      }
      var row := InsertedAttempt(db.nextId, AttemptInsert(t.id, userId, Some(InProgress)), InProgress, now);
      ghost var before := db.attempts;
      db.InsertAttempt(row);
      attemptId := Some(row.id);
      if HasTimeLimit(t) {
        timeRemaining := Some(t.timeLimitMinutes.value * 60);
      }
      return Created;
    }
    /**
     * `handleAnswerChange`. The local answer always changes. With an attempt, the response row
     * of this question is looked up with `maybeSingle()`: a single row gets the new text, and
     * otherwise a new row is inserted. A failed write is swallowed (`writeFails`). Nothing
     * checks whether the attempt was already submitted.
     */
    method AnswerChange(db: Database, questionId: Id, value: string, writeFails: bool)
      requires db.Valid()
      modifies this`answers, db`responses, db`nextId
      ensures db.Valid()
      ensures answers == old(answers)[questionId := value]
      ensures attemptId.None? || writeFails ==> unchanged(db)
      ensures attemptId.Some? && !writeFails ==>
        match SingleMatch(old(db.responses), PairOf(attemptId.value, questionId))
        case Some(r) =>
          db.responses == SetResponseAnswer(old(db.responses), r.id, value) && db.nextId == old(db.nextId)
        case None =>
          && db.responses == old(db.responses) + [Response(old(db.nextId), attemptId.value, questionId, Some(value), None, None)]
          && db.nextId == old(db.nextId) + 1
      ensures ResponsePairsUnique(old(db.responses)) ==> ResponsePairsUnique(db.responses)
      ensures attemptId.Some? && !writeFails && ResponsePairsUnique(old(db.responses)) ==>
        && Count(db.responses, PairOf(attemptId.value, questionId)) == 1
        && forall i :: 0 <= i < |db.responses| && PairOf(attemptId.value, questionId)(db.responses[i]) ==>
             db.responses[i].answerText == Some(value)
    {
      answers := answers[questionId := value];
      if attemptId.None? || writeFails {
        return;
      }
      var aid := attemptId.value;
      var p := PairOf(aid, questionId);
      ghost var before := db.responses;
      var existing := SingleMatch(db.responses, p);
      if existing.Some? {
        db.UpdateResponseAnswer(existing.value.id, value);
        UpdatedAnswerStaysSingle(before, aid, questionId, existing.value, value);
      } else {
        var row := Response(db.nextId, aid, questionId, Some(value), None, None);
        db.InsertResponse(row);
        InsertedAnswerIsSingle(before, aid, questionId, row);
      }
    }

    /** `submitTest`: without an attempt nothing happens; otherwise the attempt is marked submitted, unless the write fails. */
    method Submit(db: Database, now: Timestamp, writeFails: bool)
      requires db.Valid()
      modifies db`attempts
      ensures db.Valid()
      ensures attemptId.None? || writeFails ==> db.attempts == old(db.attempts)
      ensures attemptId.Some? && !writeFails ==> db.attempts == UpdateAttempt(old(db.attempts), attemptId.value, SubmittedWith(now))
      ensures OpenAttemptsUnique(old(db.attempts)) ==> OpenAttemptsUnique(db.attempts)
    {
      if attemptId.None? || writeFails {
        return;
      }
      if OpenAttemptsUnique(db.attempts) {
        SubmitKeepsOpenUnique(db.attempts, attemptId.value, now);
      }
      db.ApplyToAttempt(attemptId.value, SubmittedWith(now));
    }

    /**
     * One second of the countdown: the remaining time goes down by one, or, from 1 (or less),
     * drops to 0 and submits the attempt (`handleAutoSubmit`), after which the timer stops.
     */
    method Tick(db: Database, now: Timestamp, writeFails: bool) returns (expired: bool)
      requires db.Valid() && TimerRunning()
      modifies this`timeRemaining, db`attempts
      ensures db.Valid()
      ensures expired <==> old(timeRemaining.value) <= 1
      ensures timeRemaining == Some(NextRemaining(old(timeRemaining.value)))
      ensures expired <==> !TimerRunning()
      ensures !expired ==> db.attempts == old(db.attempts)
      ensures expired && attemptId.Some? && !writeFails ==>
        db.attempts == UpdateAttempt(old(db.attempts), attemptId.value, SubmittedWith(now))
      ensures OpenAttemptsUnique(old(db.attempts)) ==> OpenAttemptsUnique(db.attempts)
    {
      var prev := timeRemaining.value;
      timeRemaining := Some(NextRemaining(prev));
      expired := prev <= 1;
      if expired {
        Submit(db, now, writeFails);
      }
    }

    /** The Previous button: one question back, never before the first. */
    method Previous()
      requires IndexInRange()
      modifies this`index
      ensures IndexInRange()
      ensures index == if old(index) > 0 then old(index) - 1 else 0
    {
      index := if index - 1 > 0 then index - 1 else 0;
    }

    /** The Next button is offered only before the last question; on the last one the Submit button takes its place. */
    predicate NextOffered()
      reads this
    {
      index < |questions| - 1
    }

    /** The Next button: one question forward. */
    method Next()
      requires IndexInRange() && NextOffered()
      modifies this`index
      ensures IndexInRange()
      ensures index == old(index) + 1
    {
      index := index + 1;
    }
  }

  /** After inserting the new in-progress attempt where there was none, it is the only one. */
  lemma {:induction false} CreatedAttemptIsTheOpenOne(before: seq<Attempt>, row: Attempt, userId: Id, testId: Id)
    requires SingleMatch(before, OpenAttemptOf(userId, testId)).None?
    requires OpenAttemptsUnique(before) ==> AtMostOne(before, OpenAttemptOf(userId, testId))
    requires row.status == InProgress && row.userId == userId && row.testId == testId
    ensures OpenAttemptsUnique(before) ==> OpenAttemptsUnique(before + [row])
    ensures OpenAttemptsUnique(before) ==> SingleMatch(before + [row], OpenAttemptOf(userId, testId)) == Some(row)
  {
    var p := OpenAttemptOf(userId, testId);
    if OpenAttemptsUnique(before) {
      AtMostOneCount(before, p);
      assert forall j :: 0 <= j < |before| ==> !p(before[j]) by {
        forall j | 0 <= j < |before| ensures !p(before[j]) {
          assert before[j] in before;
        }
      }
      var all := before + [row];
      assert forall j :: 0 <= j < |all| && j != |before| ==> !p(all[j]) by {
        forall j | 0 <= j < |all| && j != |before| ensures !p(all[j]) {
          assert all[j] == before[j];
        }
      }
      OnlyMatchIsSingle(all, p, |before|);
    }
  }

  /** Updating the only row of a question keeps it the only row, now with the new text. */
  lemma {:induction false} UpdatedAnswerStaysSingle(before: seq<Response>, aid: Id, qid: Id, r: Response, value: string)
    requires SingleMatch(before, PairOf(aid, qid)) == Some(r)
    requires DistinctIds(before, ResponseKey)
    ensures ResponsePairsUnique(before) ==> ResponsePairsUnique(SetResponseAnswer(before, r.id, value))
    ensures Count(SetResponseAnswer(before, r.id, value), PairOf(aid, qid)) == 1
    ensures forall i :: 0 <= i < |before| && PairOf(aid, qid)(SetResponseAnswer(before, r.id, value)[i]) ==>
      SetResponseAnswer(before, r.id, value)[i].answerText == Some(value)
  {
    var p := PairOf(aid, qid);
    var after := SetResponseAnswer(before, r.id, value);
    CountPointwise(before, after, p);
    forall i | 0 <= i < |before| && p(after[i]) ensures after[i].answerText == Some(value) {
      var k :| 0 <= k < |before| && before[k] == r;
      if k != i {
        if k < i {
          TwoMatchesNoSingle(before, p, k, i);
        } else {
          TwoMatchesNoSingle(before, p, i, k);
        }
      }
    }
  }

  /** Inserting the row of a question that had none makes it the only row, with the new text. */
  lemma {:induction false} InsertedAnswerIsSingle(before: seq<Response>, aid: Id, qid: Id, row: Response)
    requires SingleMatch(before, PairOf(aid, qid)).None?
    requires row.attemptId == aid && row.questionId == qid
    ensures ResponsePairsUnique(before) ==> ResponsePairsUnique(before + [row])
    ensures ResponsePairsUnique(before) ==> Count(before + [row], PairOf(aid, qid)) == 1
    ensures ResponsePairsUnique(before) ==> forall i :: 0 <= i < |before| + 1 && PairOf(aid, qid)((before + [row])[i]) ==>
      (before + [row])[i] == row
  {
    var p := PairOf(aid, qid);
    if ResponsePairsUnique(before) {
      NoPairBefore(before, aid, qid);
      var after := before + [row];
      forall i, j | 0 <= i < j < |after|
        ensures after[i].attemptId != after[j].attemptId || after[i].questionId != after[j].questionId
      {
        assert after[i] == before[i];
        if j < |before| {
          assert after[j] == before[j];
        } else {
          assert !p(before[i]);
        }
      }
      FilterSnoc(before, row, p);
      NoMatchFilter(before, p);
      forall i | 0 <= i < |before| ensures !p(after[i]) {
        assert after[i] == before[i];
      }
    }
  }

  /** With unique pairs and no single match, no row holds the pair. */
  lemma {:induction false} NoPairBefore(before: seq<Response>, aid: Id, qid: Id)
    requires SingleMatch(before, PairOf(aid, qid)).None? && ResponsePairsUnique(before)
    ensures forall j :: 0 <= j < |before| ==> !PairOf(aid, qid)(before[j])
  {
    var p := PairOf(aid, qid);
    assert AtMostOne(before, p);
    AtMostOneCount(before, p);
    forall j | 0 <= j < |before| ensures !p(before[j]) {
      assert before[j] in before;
    }
  }
}
