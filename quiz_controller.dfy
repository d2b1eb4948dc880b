/**
 * server/controllers/quizController.js: scoring a submission (`submitQuiz`),
 * the answer-free projection of a new quiz (`createQuiz`) and the attempt
 * history (`getQuizAttempts`). The database is a map from ids to documents
 * (quizzes) or the list of stored attempts in insertion order.
 */
module QuizController {
  import opened Wrappers
  import opened Text
  import opened Models
  import opened QuizService
  import Ranking

  /** One element of the submitted `answers` array. */
  datatype SubmittedAnswer = SubmittedAnswer(questionId: string, answer: string)

  /** `quiz.questions.id(id)`: the first question with that id, if any. */
  function FindQuestion(questions: seq<Question>, id: string): (r: Option<Question>)
    ensures r.Some? ==> r.value in questions && r.value.id == id
    ensures r.None? <==> forall k :: 0 <= k < |questions| ==> questions[k].id != id
    decreases |questions|
  {
    if questions == [] then None
    else if questions[0].id == id then Some(questions[0])
    else FindQuestion(questions[1..], id)
  }

  /** The question found is the first one carrying the id. */
  lemma {:induction false} FindQuestionFirst(questions: seq<Question>, id: string)
    requires FindQuestion(questions, id).Some?
    ensures exists k :: (0 <= k < |questions| && questions[k] == FindQuestion(questions, id).value
      && forall j :: 0 <= j < k ==> questions[j].id != id)
    decreases |questions|
  {
    if questions[0].id != id {
      FindQuestionFirst(questions[1..], id);
      var k :| 0 <= k < |questions[1..]| && questions[1..][k] == FindQuestion(questions, id).value
        && (forall j :: 0 <= j < k ==> questions[1..][j].id != id);
      assert questions[k + 1] == FindQuestion(questions, id).value;
      forall j | 0 <= j < k + 1 ensures questions[j].id != id {
        if j > 0 { assert questions[j] == questions[1..][j - 1]; }
      }
    } else {
      assert questions[0] == FindQuestion(questions, id).value;
    }
  }

  /** The normal form answers are compared in: `s.trim().toLowerCase()`. */
  function Normalize(s: string): string
  {
    ToLower(Trim(s))
  }

  /** An answer is correct when it equals the stored one after trimming and lowering. */
  predicate Correct(userAnswer: string, correctAnswer: string)
  {
    Normalize(userAnswer) == Normalize(correctAnswer)
  }

  /** Surrounding white space never changes a grade. */
  lemma CorrectIgnoresPadding(p: string, answer: string, q: string, correctAnswer: string)
    requires Blank(p) && Blank(q)
    ensures Correct(p + answer + q, correctAnswer) <==> Correct(answer, correctAnswer)
  {
    TrimIgnoresPadding(p, answer, q);
  }

  /** Upper or lower case never changes a grade. */
  lemma CorrectIgnoresCase(answer: string, correctAnswer: string)
    ensures Correct(ToLower(answer), correctAnswer) <==> Correct(answer, correctAnswer)
  {
    TrimLowerCommute(answer);
    var t := Trim(answer);
    assert ToLower(ToLower(t)) == ToLower(t);
  }

  /** One element of `results`: the question as stored, the submitted answer and its grade. */
  datatype QuestionResult = QuestionResult(
    questionId: string,
    question: string,
    qtype: QuestionType,
    options: seq<string>,
    userAnswer: string,
    correctAnswer: string,
    explanation: string,
    isCorrect: bool)

  /** The result record for one resolved answer. */
  function Grade(q: Question, a: SubmittedAnswer): (r: QuestionResult)
    ensures r.isCorrect <==> Correct(a.answer, q.correctAnswer)
    ensures r.questionId == q.id && r.userAnswer == a.answer && r.correctAnswer == q.correctAnswer
  {
    QuestionResult(q.id, q.question, q.qtype, q.options, a.answer, q.correctAnswer, q.explanation,
                   Normalize(a.answer) == Normalize(q.correctAnswer))
  }

  /** `answers.map(...).filter(r => r !== null)`: grades every answer whose question exists,
      in submission order, and drops the others. */
  function Results(questions: seq<Question>, answers: seq<SubmittedAnswer>): (r: seq<QuestionResult>)
    ensures |r| <= |answers|
  {
    if answers == [] then []
    else ResultOf(questions, answers[0]) + Results(questions, answers[1..])
  }

  /** The mapped value of one answer: its result, or nothing (`null`, filtered out) when the
      quiz has no question with its id. */
  function ResultOf(questions: seq<Question>, a: SubmittedAnswer): (r: seq<QuestionResult>)
    ensures |r| == if FindQuestion(questions, a.questionId).Some? then 1 else 0
  {
    match FindQuestion(questions, a.questionId)
    case None => []
    case Some(q) => [Grade(q, a)]
  }

  /** The submitted answers whose question exists, in submission order. */
  function Resolved(questions: seq<Question>, answers: seq<SubmittedAnswer>): (r: seq<SubmittedAnswer>)
    ensures forall k :: 0 <= k < |r| ==> FindQuestion(questions, r[k].questionId).Some?
    ensures |r| <= |answers|
  {
    if answers == [] then []
    else
      (if FindQuestion(questions, answers[0].questionId).Some? then [answers[0]] else [])
      + Resolved(questions, answers[1..])
  }

  /** The results are exactly the resolved answers, each graded against its question. */
  lemma {:induction false} ResultsGradeResolved(questions: seq<Question>, answers: seq<SubmittedAnswer>)
    ensures |Results(questions, answers)| == |Resolved(questions, answers)|
    ensures forall k :: 0 <= k < |Results(questions, answers)| ==>
      Results(questions, answers)[k]
      == Grade(FindQuestion(questions, Resolved(questions, answers)[k].questionId).value,
               Resolved(questions, answers)[k])
    decreases |answers|
  {
    if answers != [] {
      ResultsGradeResolved(questions, answers[1..]);
      var r, tail := Results(questions, answers), Results(questions, answers[1..]);
      var s, stail := Resolved(questions, answers), Resolved(questions, answers[1..]);
      var h := |r| - |tail|;
      assert |s| - |stail| == h;
      forall k | h <= k < |r|
        ensures r[k] == Grade(FindQuestion(questions, s[k].questionId).value, s[k])
      {
        assert r[k] == tail[k - h] && s[k] == stail[k - h];
      }
    }
  }

  /** Scoring works answer by answer: the results of two batches are the results of each. */
  lemma {:induction false} ResultsAppend(questions: seq<Question>, a: seq<SubmittedAnswer>, b: seq<SubmittedAnswer>)
    ensures Results(questions, a + b) == Results(questions, a) + Results(questions, b)
    decreases |a|
  {
    if a == [] {
      assert a + b == b;
    } else {
      assert (a + b)[0] == a[0] && (a + b)[1..] == a[1..] + b;
      ResultsAppend(questions, a[1..], b);
      var h := ResultOf(questions, a[0]);
      assert Results(questions, a + b) == h + Results(questions, a[1..] + b);
      assert h + (Results(questions, a[1..]) + Results(questions, b))
          == (h + Results(questions, a[1..])) + Results(questions, b);
    }
  }

  /** An answer to a question the quiz does not have is dropped without a trace. */
  lemma UnresolvedDropped(questions: seq<Question>, before: seq<SubmittedAnswer>, a: SubmittedAnswer,
                          after: seq<SubmittedAnswer>)
    requires FindQuestion(questions, a.questionId).None?
    ensures Results(questions, before + [a] + after) == Results(questions, before + after)
  {
    ResultsAppend(questions, before + [a], after);
    ResultsAppend(questions, before, [a]);
    ResultsAppend(questions, before, after);
    assert Results(questions, [a]) == [] by {
      assert [a][1..] == [];
    }
  }

  /** `results.filter(r => r.isCorrect).length`. */
  function CorrectCount(results: seq<QuestionResult>): (n: nat)
    ensures n <= |results|
    ensures n == |results| <==> forall k :: 0 <= k < |results| ==> results[k].isCorrect
    ensures n == 0 <==> forall k :: 0 <= k < |results| ==> !results[k].isCorrect
  {
    if results == [] then 0
    else
      var rest := CorrectCount(results[1..]);
      assert forall k :: 1 <= k < |results| ==> results[k] == results[1..][k - 1];
      (if results[0].isCorrect then 1 else 0) + rest
  }

  /** `Math.round(correct / total * 100)` in exact arithmetic: the nearest integer, halves
      rounded up; `None` where JavaScript computes `NaN` (no resolved answer). */
  function Percentage(correct: nat, total: nat): (p: Option<nat>)
    ensures p.None? <==> total == 0
    ensures p.Some? ==> 2 * total * p.value <= 200 * correct + total < 2 * total * p.value + 2 * total
  {
    if total == 0 then None
    else
      var p := (200 * correct + total) / (2 * total);
      assert 2 * total * p <= 200 * correct + total < 2 * total * p + 2 * total by {
        var d := 2 * total;
        var n := 200 * correct + total;
        assert n == d * (n / d) + n % d;
      }
      Some(p)
  }

  // MulLe and LtFromMul are arithmetic helpers serving only PercentageBounds.

  /** Multiplying by a natural number keeps order. */
  lemma MulLe(d: nat, a: nat, b: nat)
    requires a <= b
    ensures d * a <= d * b
  {
    var e := b - a;
    assert d * b == d * a + d * e;
  }

  /** Order of products with a common factor is order of the other factors. */
  lemma LtFromMul(d: nat, a: nat, b: nat)
    requires d * a < d * b
    ensures a < b
  {
    if a >= b {
      MulLe(d, b, a);
      assert false;
    }
  }

  /** A score never exceeds 100 percent; all correct is exactly 100 and none correct is 0. */
  lemma PercentageBounds(correct: nat, total: nat)
    requires 0 < total && correct <= total
    ensures Percentage(correct, total).value <= 100
    ensures correct == total ==> Percentage(correct, total).value == 100
    ensures correct == 0 ==> Percentage(correct, total).value == 0
  {
    var p := Percentage(correct, total).value;
    var d := 2 * total;
    assert d * p <= 200 * correct + total < d * p + d;
    assert d * p < d * 101;
    LtFromMul(d, p, 101);
    if correct == total {
      assert d * 99 < d * p;
      LtFromMul(d, 99, p);
    }
    if correct == 0 {
      assert d * p < d * 1;
      LtFromMul(d, p, 1);
    }
  }

  /** Two of three correct rounds to 67 percent, one of eight (12.5) rounds up to 13. */
  lemma PercentageExamples()
    ensures Percentage(2, 3) == Some(67)
    ensures Percentage(1, 8) == Some(13)
    ensures Percentage(0, 0) == None
  {
  }

  /** The answer records kept in the attempt: one per result, copying four fields. */
  function AnswerRecords(results: seq<QuestionResult>): (r: seq<AnswerRecord>)
    ensures |r| == |results|
    ensures forall k :: 0 <= k < |r| ==>
      r[k].questionId == results[k].questionId && r[k].userAnswer == results[k].userAnswer
      && r[k].correctAnswer == results[k].correctAnswer && r[k].isCorrect == results[k].isCorrect
  {
    seq(|results|, k requires 0 <= k < |results| =>
      AnswerRecord(results[k].questionId, results[k].userAnswer, results[k].correctAnswer, results[k].isCorrect))
  }

  /** The reply of `submitQuiz`. */
  datatype SubmitReply =
    | QuizNotFound(error: string)
    | Submitted(attempt: QuizAttempt, results: seq<QuestionResult>)

  /** The reply of `submitQuiz` and the attempt collection after it. */
  datatype SubmitOutcome = SubmitOutcome(reply: SubmitReply, attempts: seq<QuizAttempt>)

  const QuizNotFoundMessage: string := "Quiz not found"

  /** `submitQuiz({quizId, answers})` against the stored quizzes, at time `now`: an unknown
      quiz is refused and nothing is stored; otherwise the attempt is graded and appended to
      the stored attempts (`attempt.save()`). */
  function SubmitQuiz(quizzes: map<string, Quiz>, attempts: seq<QuizAttempt>, quizId: string,
                      answers: seq<SubmittedAnswer>, now: int): (r: SubmitOutcome)
    ensures r.reply.QuizNotFound? <==> quizId !in quizzes
    ensures r.reply.QuizNotFound? ==> r.reply.error == QuizNotFoundMessage && r.attempts == attempts
    ensures r.reply.Submitted? ==> r.reply.results == Results(quizzes[quizId].questions, answers)
    ensures r.reply.Submitted? ==>
      r.reply.attempt.score == CorrectCount(r.reply.results) && r.reply.attempt.totalQuestions == |r.reply.results|
    ensures r.reply.Submitted? ==> r.attempts == attempts + [r.reply.attempt]
  {
    if quizId !in quizzes then SubmitOutcome(QuizNotFound(QuizNotFoundMessage), attempts)
    else
      var quiz := quizzes[quizId];
      var results := Results(quiz.questions, answers);
      var score := CorrectCount(results);
      var attempt := QuizAttempt(quiz.id, quiz.pdfId, AnswerRecords(results), score, |results|,
                                 Percentage(score, |results|), now);
      SubmitOutcome(Submitted(attempt, results), attempts + [attempt])
  }

  /** What the stored attempt says about a submission: the quiz and PDF it belongs to, one
      record per resolved answer in order, the count of correct ones as score, the number
      of resolved answers (not the quiz length) as total, and the rounded percentage. */
  lemma SubmittedAttempt(quizzes: map<string, Quiz>, attempts: seq<QuizAttempt>, quizId: string,
                         answers: seq<SubmittedAnswer>, now: int)
    requires quizId in quizzes
    ensures var r := SubmitQuiz(quizzes, attempts, quizId, answers, now).reply;
      var quiz := quizzes[quizId];
      var resolved := Resolved(quiz.questions, answers);
      r.Submitted?
      && r.results == Results(quiz.questions, answers)
      && r.attempt.quizId == quiz.id && r.attempt.pdfId == quiz.pdfId
      && r.attempt.score == CorrectCount(r.results)
      && r.attempt.totalQuestions == |resolved|
      && r.attempt.score <= r.attempt.totalQuestions
      && r.attempt.percentage == Percentage(r.attempt.score, r.attempt.totalQuestions)
      && |r.attempt.answers| == |resolved|
      && forall k :: 0 <= k < |resolved| ==>
           var q := FindQuestion(quiz.questions, resolved[k].questionId).value;
           r.attempt.answers[k].questionId == q.id
           && r.attempt.answers[k].userAnswer == resolved[k].answer
           && r.attempt.answers[k].correctAnswer == q.correctAnswer
           && (r.attempt.answers[k].isCorrect <==> Correct(resolved[k].answer, q.correctAnswer))
  {
    var quiz := quizzes[quizId];
    ResultsGradeResolved(quiz.questions, answers);
  }

  /** The question as the client sees it before answering. */
  datatype ClientQuestion = ClientQuestion(id: string, qtype: QuestionType, question: string, options: seq<string>)

  /** The quiz as the client sees it before answering. */
  datatype ClientQuiz = ClientQuiz(id: string, pdfId: string, pdfName: string, questions: seq<ClientQuestion>, createdAt: int)

  /** The answer-free projection of a stored quiz, questions in order. */
  function ForClient(quiz: Quiz): (c: ClientQuiz)
    ensures c.id == quiz.id && c.pdfId == quiz.pdfId && c.pdfName == quiz.pdfName && c.createdAt == quiz.createdAt
    ensures |c.questions| == |quiz.questions|
    ensures forall k :: 0 <= k < |c.questions| ==>
      c.questions[k].id == quiz.questions[k].id && c.questions[k].qtype == quiz.questions[k].qtype
      && c.questions[k].question == quiz.questions[k].question && c.questions[k].options == quiz.questions[k].options
  {
    ClientQuiz(quiz.id, quiz.pdfId, quiz.pdfName,
      seq(|quiz.questions|, k requires 0 <= k < |quiz.questions| =>
        ClientQuestion(quiz.questions[k].id, quiz.questions[k].qtype, quiz.questions[k].question, quiz.questions[k].options)),
      quiz.createdAt)
  }

  /** Two quizzes that differ only in their answers and explanations look the same to the
      client, so the projection reveals nothing about either. */
  lemma ForClientHidesAnswers(a: Quiz, b: Quiz)
    requires a.id == b.id && a.pdfId == b.pdfId && a.pdfName == b.pdfName && a.createdAt == b.createdAt
    requires |a.questions| == |b.questions|
    requires forall k :: 0 <= k < |a.questions| ==>
      a.questions[k].(correctAnswer := "", explanation := "") == b.questions[k].(correctAnswer := "", explanation := "")
    ensures ForClient(a) == ForClient(b)
  {
    var ca, cb := ForClient(a), ForClient(b);
    forall k | 0 <= k < |ca.questions| ensures ca.questions[k] == cb.questions[k] {
      var qa, qb := a.questions[k].(correctAnswer := "", explanation := ""), b.questions[k].(correctAnswer := "", explanation := "");
      assert qa.id == qb.id && qa.qtype == qb.qtype && qa.question == qb.question && qa.options == qb.options;
    }
  }

  /** The reply of `createQuiz`. */
  datatype CreateReply = Created(quiz: ClientQuiz) | CreateFailed(error: string)

  /** The reply of `createQuiz` and the quiz collection after it. */
  datatype CreateOutcome = CreateOutcome(reply: CreateReply, quizzes: map<string, Quiz>)

  const CreateFailedMessage: string := "Failed to generate quiz"

  /** `createQuiz`: stores the generated quiz under the fresh id `quizId` at time `now`
      (`quiz.save()`) and returns its projection, or stores nothing and reports the error
      message (a generic one when the message is empty). */
  function CreateQuiz(quizzes: map<string, Quiz>, generated: Result<GeneratedQuiz>, quizId: string, now: int)
    : (r: CreateOutcome)
    requires quizId !in quizzes
    ensures generated.Ok? ==>
      var quiz := Quiz(quizId, generated.value.pdfId, generated.value.pdfName, generated.value.questions, now);
      r.reply == Created(ForClient(quiz)) && r.quizzes == quizzes[quizId := quiz]
    ensures generated.Err? ==> r.quizzes == quizzes
    ensures generated.Err? && generated.error != "" ==> r.reply == CreateFailed(generated.error)
    ensures generated.Err? && generated.error == "" ==> r.reply == CreateFailed(CreateFailedMessage)
  {
    match generated
    case Ok(g) =>
      var quiz := Quiz(quizId, g.pdfId, g.pdfName, g.questions, now);
      CreateOutcome(Created(ForClient(quiz)), quizzes[quizId := quiz])
    case Err(e) => CreateOutcome(CreateFailed(if e != "" then e else CreateFailedMessage), quizzes)
  }

  /** A created quiz can be submitted at once under the id the client was given: the
      answers are graded against the generated questions, the client's question ids are
      those of the stored questions, and every quiz stored before is kept. */
  lemma CreatedQuizGradable(quizzes: map<string, Quiz>, attempts: seq<QuizAttempt>, g: GeneratedQuiz,
                            quizId: string, created: int, answers: seq<SubmittedAnswer>, now: int)
    requires quizId !in quizzes
    ensures var c := CreateQuiz(quizzes, Ok(g), quizId, created);
      var r := SubmitQuiz(c.quizzes, attempts, c.reply.quiz.id, answers, now).reply;
      r.Submitted? && r.results == Results(g.questions, answers)
      && r.attempt.pdfId == g.pdfId
      && |c.reply.quiz.questions| == |g.questions|
      && (forall k :: 0 <= k < |g.questions| ==> c.reply.quiz.questions[k].id == g.questions[k].id)
      && (forall id :: id in quizzes ==> id in c.quizzes && c.quizzes[id] == quizzes[id])
  {
  }

  /** Generation errors always carry their own message, so the generic fallback is never
      used for them. */
  lemma CreateQuizReportsGenerationError(
    quizzes: map<string, Quiz>, pdfs: PdfStore, pdfId: string, questionTypes: Option<QuestionCounts>, groqKeySet: bool, clientError: string,
    llm: seq<PromptMessage> -> Result<string>, parse: string -> Result<seq<Question>>,
    quizId: string, now: int)
    requires quizId !in quizzes
    ensures var g := GenerateQuiz(pdfs, pdfId, questionTypes, groqKeySet, clientError, llm, parse);
      g.Err? ==> CreateQuiz(quizzes, g, quizId, now) == CreateOutcome(CreateFailed(g.error), quizzes)
                 && ErrorPrefix <= g.error
  {
  }

  /** The attempts of one PDF, in stored order. */
  function ForPdf(attempts: seq<QuizAttempt>, pdfId: string): (r: seq<QuizAttempt>)
    ensures forall k :: 0 <= k < |r| ==> r[k] in attempts && r[k].pdfId == pdfId
    ensures forall k :: 0 <= k < |attempts| && attempts[k].pdfId == pdfId ==> attempts[k] in r
  {
    if attempts == [] then []
    else
      var rest := ForPdf(attempts[1..], pdfId);
      assert forall k :: 1 <= k < |attempts| ==> attempts[k] == attempts[1..][k - 1];
      (if attempts[0].pdfId == pdfId then [attempts[0]] else []) + rest
  }

  /** Filtering works attempt by attempt: the attempts of two stretches of the collection
      are those of the first followed by those of the second, so the stored order is kept. */
  lemma {:induction false} ForPdfAppend(a: seq<QuizAttempt>, b: seq<QuizAttempt>, pdfId: string)
    ensures ForPdf(a + b, pdfId) == ForPdf(a, pdfId) + ForPdf(b, pdfId)
    decreases |a|
  {
    if a == [] {
      assert a + b == b;
    } else {
      assert (a + b)[0] == a[0] && (a + b)[1..] == a[1..] + b;
      ForPdfAppend(a[1..], b, pdfId);
    }
  }

  /** A single attempt is kept, once, exactly when it belongs to the PDF. */
  lemma ForPdfSingle(a: QuizAttempt, pdfId: string)
    ensures ForPdf([a], pdfId) == if a.pdfId == pdfId then [a] else []
  {
    assert [a][1..] == [];
  }

  /** Each stored attempt of the PDF appears in the filtered list as often as it is
      stored, and no other attempt appears at all. */
  lemma {:induction false} ForPdfCounts(attempts: seq<QuizAttempt>, pdfId: string, x: QuizAttempt)
    ensures multiset(ForPdf(attempts, pdfId))[x] == if x.pdfId == pdfId then multiset(attempts)[x] else 0
    decreases |attempts|
  {
    if attempts != [] {
      ForPdfCounts(attempts[1..], pdfId, x);
      assert attempts == [attempts[0]] + attempts[1..];
    }
  }

  /** At most this many attempts are listed. */
  const HistoryLimit: nat := 50

  /** The attempts the query matches: those of `pdfId` when one is given, else all. */
  function HistoryPool(attempts: seq<QuizAttempt>, pdfId: Option<string>): (r: seq<QuizAttempt>)
    ensures forall k :: 0 <= k < |r| ==> r[k] in attempts
    ensures Truthy(pdfId) ==> forall k :: 0 <= k < |r| ==> r[k].pdfId == pdfId.value
  {
    if Truthy(pdfId) then ForPdf(attempts, pdfId.value) else attempts
  }

  /** The sort keys of `sort({completedAt: -1})`. */
  function CompletedKeys(attempts: seq<QuizAttempt>): (keys: seq<real>)
    ensures |keys| == |attempts|
    ensures forall k :: 0 <= k < |keys| ==> keys[k] == attempts[k].completedAt as real
  {
    seq(|attempts|, k requires 0 <= k < |attempts| => attempts[k].completedAt as real)
  }

  /** Positions (in the pool) of the listed attempts. */
  function HistoryPositions(pool: seq<QuizAttempt>): seq<nat>
  {
    Ranking.Top(CompletedKeys(pool), HistoryLimit)
  }

  /** `getQuizAttempts`: the matching attempts, newest first, at most 50; equal times keep
      their stored order. */
  function AttemptHistory(attempts: seq<QuizAttempt>, pdfId: Option<string>): (r: seq<QuizAttempt>)
    ensures |r| == |HistoryPositions(HistoryPool(attempts, pdfId))|
    ensures |r| == Min(|HistoryPool(attempts, pdfId)|, HistoryLimit)
    ensures forall a, b :: 0 <= a < b < |r| ==> r[a].completedAt >= r[b].completedAt
  {
    var pool := HistoryPool(attempts, pdfId);
    var top := HistoryPositions(pool);
    assert Ranking.Ranked(CompletedKeys(pool), top);
    var r := seq(|top|, k requires 0 <= k < |top| => pool[top[k]]);
    assert forall a, b :: 0 <= a < b < |r| ==> Ranking.Before(CompletedKeys(pool), top[a], top[b]);
    r
  }

  /** The `k`-th listed attempt is the pool's attempt at the `k`-th ranked position. */
  lemma HistoryAt(attempts: seq<QuizAttempt>, pdfId: Option<string>, k: nat)
    requires k < |AttemptHistory(attempts, pdfId)|
    ensures var pool := HistoryPool(attempts, pdfId);
      HistoryPositions(pool)[k] < |pool| && AttemptHistory(attempts, pdfId)[k] == pool[HistoryPositions(pool)[k]]
  {
    var pool := HistoryPool(attempts, pdfId);
    assert Ranking.InRange(CompletedKeys(pool), HistoryPositions(pool));
  }

  /** Every listed attempt is a stored one, of the requested PDF when one is given, and the
      list runs from the newest `completedAt` to the oldest. */
  lemma HistoryShape(attempts: seq<QuizAttempt>, pdfId: Option<string>)
    ensures var r := AttemptHistory(attempts, pdfId);
      (forall k :: 0 <= k < |r| ==> r[k] in attempts)
      && (Truthy(pdfId) ==> forall k :: 0 <= k < |r| ==> r[k].pdfId == pdfId.value)
      && (forall a, b :: 0 <= a < b < |r| ==> r[a].completedAt >= r[b].completedAt)
  {
    var r := AttemptHistory(attempts, pdfId);
    forall k | 0 <= k < |r|
      ensures r[k] in attempts
      ensures Truthy(pdfId) ==> r[k].pdfId == pdfId.value
    {
      HistoryAt(attempts, pdfId, k);
    }
  }

  /** An attempt of the pool that is not listed is no newer than any listed one. */
  lemma HistoryKeepsNewest(attempts: seq<QuizAttempt>, pdfId: Option<string>, j: nat, k: nat)
    requires j < |HistoryPool(attempts, pdfId)| && j !in HistoryPositions(HistoryPool(attempts, pdfId))
    requires k < |AttemptHistory(attempts, pdfId)|
    ensures AttemptHistory(attempts, pdfId)[k].completedAt >= HistoryPool(attempts, pdfId)[j].completedAt
  {
    var pool := HistoryPool(attempts, pdfId);
    var top := HistoryPositions(pool);
    HistoryAt(attempts, pdfId, k);
    Ranking.TopBeatsRest(CompletedKeys(pool), HistoryLimit, top[k], j);
  }

  /** An attempt completed after every other stored one heads the history, whether all
      attempts are listed or only those of its PDF. */
  lemma LatestHeadsHistory(attempts: seq<QuizAttempt>, a: QuizAttempt, pdfId: Option<string>)
    requires forall k :: 0 <= k < |attempts| ==> attempts[k].completedAt < a.completedAt
    requires Truthy(pdfId) ==> pdfId.value == a.pdfId
    ensures |AttemptHistory(attempts + [a], pdfId)| > 0 && AttemptHistory(attempts + [a], pdfId)[0] == a
  {
    var after := attempts + [a];
    assert after[|attempts|] == a;
    var pool := HistoryPool(after, pdfId);
    assert a in pool;
    var j :| 0 <= j < |pool| && pool[j] == a;
    var h := AttemptHistory(after, pdfId);
    if h[0] != a {
      HistoryShape(after, pdfId);
      var m :| 0 <= m < |after| && after[m] == h[0];
      assert m != |attempts|;
      assert h[0] == attempts[m];
      if j !in HistoryPositions(pool) {
        HistoryKeepsNewest(after, pdfId, j, 0);
      }
    }
  }

  /** A submission completed after every stored attempt heads the history that follows it. */
  lemma NewestSubmissionHeadsHistory(quizzes: map<string, Quiz>, attempts: seq<QuizAttempt>, quizId: string,
                                     answers: seq<SubmittedAnswer>, now: int, pdfId: Option<string>)
    requires quizId in quizzes
    requires forall k :: 0 <= k < |attempts| ==> attempts[k].completedAt < now
    requires Truthy(pdfId) ==> pdfId.value == quizzes[quizId].pdfId
    ensures var r := SubmitQuiz(quizzes, attempts, quizId, answers, now);
      r.reply.Submitted? && |AttemptHistory(r.attempts, pdfId)| > 0 && AttemptHistory(r.attempts, pdfId)[0] == r.reply.attempt
  {
    var r := SubmitQuiz(quizzes, attempts, quizId, answers, now);
    LatestHeadsHistory(attempts, r.reply.attempt, pdfId);
  }
}
