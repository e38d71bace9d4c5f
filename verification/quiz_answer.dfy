/** What MathQuiz.tsx does when an option is clicked (`handleAnswerClick`): the guard against
    double processing, the XP award, the immediate state update, and the stats request sent
    to the server; and the auto-advance that re-arms the guard. The delayed popups are
    separate animation actions and are not part of this step. */
module QuizAnswer {
  import opened Wrappers
  import opened JsText
  import opened Users
  import opened QuizGen
  import opened Animation

  /** XP for an answer: 15 for a right geometry answer, 10 for a right arithmetic one,
      nothing for a wrong one. */
  function XpEarned(correct: bool, kind: Kind): (xp: int)
    ensures xp > 0 <==> correct
    ensures correct && kind == Geometry ==> xp == 15
    ensures correct && kind == Arithmetic ==> xp == 10
    ensures !correct ==> xp == 0
  {
    if !correct then 0 else if kind == Geometry then 15 else 10
  }

  /** The quiz state the click handler reads and writes. `processing` is the
      `isProcessingAnswer` ref. */
  datatype QuizState = QuizState(
    question: Option<Question>,
    user: Option<User>,
    selectedAnswer: Option<int>,
    processing: bool,
    showResult: bool,
    score: int,
    questionsAnswered: int,
    animation: AnimationState)

  /** The arguments of `userManager.updateUserStats`. */
  datatype StatsRequest = StatsRequest(correct: bool, xpGained: int)

  /** A click is ignored while an answer is selected, without a question or user, or while
      an earlier click is still being processed. */
  predicate Blocked(s: QuizState) {
    s.selectedAnswer.Some? || s.question.None? || s.user.None? || s.processing
  }

  /** `handleAnswerClick(optionIndex)` up to the stats request it sends. */
  function AnswerClick(s: QuizState, optionIndex: int): (r: (QuizState, Option<StatsRequest>))
    ensures Blocked(s) <==> r.1.None?
    ensures Blocked(s) ==> r.0 == s
    ensures !Blocked(s) ==>
              var q := s.question.value;
              var correct := optionIndex == q.correctAnswer;
              && r.0.processing && r.0.showResult
              && r.0.selectedAnswer == Some(optionIndex)
              && r.0.questionsAnswered == s.questionsAnswered + 1
              && r.0.score == s.score + (if correct then 1 else 0)
              && r.0.question == s.question && r.0.user == s.user
              && r.0.animation.showCelebration == (correct || s.animation.showCelebration)
              && r.0.animation.showWrongPopup == (!correct || s.animation.showWrongPopup)
              && r.0.animation == Reduce(s.animation, if correct then ShowCelebration else ShowWrong)
              && r.1 == Some(StatsRequest(correct, XpEarned(correct, q.kind)))
  {
    if Blocked(s) then (s, None)
    else
      var q := s.question.value;
      var correct := optionIndex == q.correctAnswer;
      var s' := s.(processing := true, selectedAnswer := Some(optionIndex), showResult := true,
                   questionsAnswered := s.questionsAnswered + 1,
                   score := s.score + (if correct then 1 else 0),
                   animation := Reduce(s.animation, if correct then ShowCelebration else ShowWrong));
      assert FlagValue(s'.animation, Celebration) == s'.animation.showCelebration;
      assert FlagValue(s'.animation, WrongPopup) == s'.animation.showWrongPopup;
      (s', Some(StatsRequest(correct, XpEarned(correct, q.kind))))
  }

  /** The auto-advance timeout: the next question, nothing selected, the XP popup hidden,
      and the processing flag cleared. */
  function Advance(s: QuizState, next: Question): (r: QuizState)
    ensures r.question == Some(next) && r.selectedAnswer.None? && !r.processing
    ensures !r.showResult && !r.animation.showXpGain
    ensures r.score == s.score && r.questionsAnswered == s.questionsAnswered && r.user == s.user
    ensures r.animation == Reduce(s.animation, HideXp)
  {
    s.(question := Some(next), selectedAnswer := None, showResult := false,
       animation := Reduce(s.animation, HideXp), processing := false)
  }

  /** A second click before the advance is ignored: one answer per question. */
  lemma SecondClickIgnored(s: QuizState, i: int, j: int)
    requires !Blocked(s)
    ensures AnswerClick(AnswerClick(s, i).0, j) == (AnswerClick(s, i).0, None)
  {
  }

  /** After the advance, a user can answer the new question. */
  lemma AdvanceReenablesClick(s: QuizState, next: Question, i: int)
    requires s.user.Some?
    ensures AnswerClick(Advance(s, next), i).1.Some?
  {
  }

  /** The score never overtakes the number of questions answered. */
  lemma ClickKeepsScoreBounded(s: QuizState, i: int)
    requires 0 <= s.score <= s.questionsAnswered
    ensures 0 <= AnswerClick(s, i).0.score <= AnswerClick(s, i).0.questionsAnswered
  {
  }

  /** Clicking an option is right exactly when it shows the answer's numeral, since the
      options are distinct. */
  lemma CorrectIffAnswerShown(q: Question, answer: int, k: int)
    requires WellFormedOptions(q.options, q.correctAnswer, answer) && 0 <= k < 4
    ensures k == q.correctAnswer <==> q.options[k] == IntToString(answer)
  {
    if k != q.correctAnswer {
      var i, j := if k < q.correctAnswer then k else q.correctAnswer,
                  if k < q.correctAnswer then q.correctAnswer else k;
      assert q.options[i] != q.options[j];
    }
  }

  /** The request the click sends is always well-typed for the stats endpoint: sent as a
      JSON boolean and number it never draws the 400 answer, and with the user's row present
      and the database up the server applies it and credits exactly the awarded XP. */
  lemma RequestNeverRejected(t: Table, s: QuizState, i: int, now: string,
                             readOk: bool, writeOk: bool)
    requires AnswerClick(s, i).1.Some?
    ensures var req := AnswerClick(s, i).1.value;
            var id := s.user.value.id;
            var reply := UpdateStats(t, id, Bool(req.correct), Number(req.xpGained), now,
                                     readOk, writeOk);
            && !(reply.result.Err? && reply.result.error.status == 400)
            && (readOk && writeOk && HasId(t, id) ==>
                  reply.result.Ok?
                  && reply.result.value.xp == FindById(t, id).value.xp + req.xpGained
                  && reply.result.value.xp - FindById(t, id).value.xp
                     == XpEarned(i == s.question.value.correctAnswer, s.question.value.kind))
  {
  }
}
