/**
 * The timed quiz (src/components/QuizView.tsx): loading a topic's MCQs at
 * one difficulty, recording answers, counting correct answers and building
 * the session and per-question attempt records that a submission writes.
 */
module QuizView {
  import opened Wrappers
  import opened Schema
  import opened Replies

  // ---------------------------------------------------------------------------
  // Scoring (lines 77-79, 85-104)
  // ---------------------------------------------------------------------------

  /** The indices whose answer equals that MCQ's correct answer. */
  function MatchingIndices(answers: seq<string>, mcqs: seq<McqRow>): set<nat>
    requires |answers| <= |mcqs|
  {
    set i: nat | i < |answers| && answers[i] == mcqs[i].correctAnswer
  }

  /** `userAnswers.reduce((count, answer, index) => count + (answer === mcqs[index].correct_answer ? 1 : 0), 0)`. */
  function CorrectCount(answers: seq<string>, mcqs: seq<McqRow>): (c: nat)
    requires |answers| <= |mcqs|
    ensures c <= |answers|
  {
    if answers == [] then 0
    else
      var n := |answers| - 1;
      CorrectCount(answers[..n], mcqs) + (if answers[n] == mcqs[n].correctAnswer then 1 else 0)
  }

  /** The count is the number of indices where the answer is correct. */
  lemma {:induction false} CorrectCountIsMatchCount(answers: seq<string>, mcqs: seq<McqRow>)
    requires |answers| <= |mcqs|
    ensures CorrectCount(answers, mcqs) == |MatchingIndices(answers, mcqs)|
  {
    if answers != [] {
      var n := |answers| - 1;
      CorrectCountIsMatchCount(answers[..n], mcqs);
      var prev := MatchingIndices(answers[..n], mcqs);
      assert n !in prev;
      if answers[n] == mcqs[n].correctAnswer {
        assert MatchingIndices(answers, mcqs) == prev + {n};
      } else {
        assert MatchingIndices(answers, mcqs) == prev;
      }
    }
  }

  /** Line 99-104: one attempt record per MCQ, each judged by the same comparison. */
  function BuildAttempts(user: Id, mcqs: seq<McqRow>, answers: seq<string>): (r: seq<McqAttemptInsert>)
    requires |answers| == |mcqs|
    ensures |r| == |mcqs|
    ensures forall i :: 0 <= i < |r| ==>
      r[i].userId == Some(user) && r[i].mcqId == Some(mcqs[i].id) && r[i].selectedAnswer == answers[i]
      && (r[i].isCorrect <==> answers[i] == mcqs[i].correctAnswer)
  {
    seq(|mcqs|, i requires 0 <= i < |mcqs| =>
      McqAttemptInsert(answers[i] == mcqs[i].correctAnswer, Some(mcqs[i].id), answers[i], Some(user)))
  }

  /** The number of attempt records marked correct. */
  function CorrectAttempts(attempts: seq<McqAttemptInsert>): nat {
    |set i: nat | i < |attempts| && attempts[i].isCorrect|
  }

  /** The attempts marked correct are exactly as many as the count the session records. */
  lemma AttemptsAgreeWithCount(user: Id, mcqs: seq<McqRow>, answers: seq<string>)
    requires |answers| == |mcqs|
    ensures CorrectAttempts(BuildAttempts(user, mcqs, answers)) == CorrectCount(answers, mcqs)
  {
    var attempts := BuildAttempts(user, mcqs, answers);
    assert (set i: nat | i < |attempts| && attempts[i].isCorrect) == MatchingIndices(answers, mcqs);
    CorrectCountIsMatchCount(answers, mcqs);
  }

  /** Lines 85-96, less the floating-point `score`. */
  function SessionRecord(user: Id, topic: Topic, difficulty: Difficulty, mcqs: seq<McqRow>,
                         answers: seq<string>, timeLimit: int, now: Timestamp): (r: QuizSessionInsert)
    requires |answers| == |mcqs|
    ensures r.userId == Some(user) && r.topic == topic && r.difficulty == difficulty
    ensures r.totalQuestions == |mcqs|
    ensures r.correctAnswers.Some? && 0 <= r.correctAnswers.value <= r.totalQuestions
    ensures r.correctAnswers.value == |MatchingIndices(answers, mcqs)|
    ensures r.timeLimitMinutes == Some(timeLimit) && r.completedAt == Some(now)
  {
    CorrectCountIsMatchCount(answers, mcqs);
    QuizSessionInsert(Some(now), Some(CorrectCount(answers, mcqs)), difficulty, Some(timeLimit), topic, |mcqs|, Some(user))
  }

  /**
   * What a submission sends: the session row (`None` when the topic is not a
   * `topic_type`) and the attempt rows (`None` when the insert is never
   * reached).
   */
  datatype Submission = Submission(session: Option<QuizSessionInsert>, attempts: Option<seq<McqAttemptInsert>>)

  // ---------------------------------------------------------------------------
  // Answers and the submit button (lines 56, 68-72, 185, 203-209)
  // ---------------------------------------------------------------------------

  /** `userAnswers.some(answer => answer === '')`. */
  function AnyEmpty(answers: seq<string>): (r: bool)
    ensures r <==> exists i :: 0 <= i < |answers| && answers[i] == ""
  {
    if answers == [] then false
    else answers[0] == "" || (assert forall i :: 1 <= i < |answers| ==> answers[i] == answers[1..][i - 1]; AnyEmpty(answers[1..]))
  }

  /** `Array(n).fill('')`. */
  function Blank(n: nat): (r: seq<string>)
    ensures |r| == n && forall i :: 0 <= i < n ==> r[i] == ""
  {
    seq(n, _ => "")
  }

  /** A fresh quiz with questions cannot be submitted before it is answered. */
  lemma BlankDisablesSubmit(n: nat)
    ensures AnyEmpty(Blank(n)) <==> n > 0
  {
    if n > 0 { assert Blank(n)[0] == ""; }
  }

  /** Answering question `i` leaves submit disabled exactly when some answer is still empty. */
  lemma AnswerEnablesSubmit(answers: seq<string>, i: nat, a: string)
    requires i < |answers|
    ensures !AnyEmpty(answers[i := a]) <==> a != "" && forall j :: 0 <= j < |answers| && j != i ==> answers[j] != ""
  {
    var next := answers[i := a];
    if a == "" { assert next[i] == ""; }
    forall j | 0 <= j < |answers| && j != i && answers[j] == "" ensures AnyEmpty(next) {
      assert next[j] == "";
    }
  }

  /** The time limits the slider offers: 5 to 30 minutes in steps of 5. */
  predicate SliderValue(v: int) {
    5 <= v <= 30 && v % 5 == 0
  }

  /** The read at lines 48-52: this topic's MCQs at this difficulty, in table order. */
  function McqQuery(table: seq<McqRow>, topic: Topic, difficulty: Difficulty): (r: seq<McqRow>)
    ensures |r| <= |table|
    ensures forall m :: m in r <==> m in table && m.topic == topic && m.difficulty == difficulty
  {
    if table == [] then []
    else
      var rest := McqQuery(table[1..], topic, difficulty);
      assert table == [table[0]] + table[1..];
      if table[0].topic == topic && table[0].difficulty == difficulty then [table[0]] + rest else rest
  }

  /** Which of the component's views is rendered (lines 128-211). */
  datatype Screen = LoadingQuiz | NoTopic | Completed | NoQuestions | Questions(submitEnabled: bool)

  /** The quiz component's state. */
  class Quiz {
    const topic: string
    var mcqs: seq<McqRow>
    var userAnswers: seq<string>
    var quizCompleted: bool
    var loading: bool
    var difficulty: Difficulty
    var timeLimit: int

    /** One answer per question, and a time limit the slider can produce. */
    predicate Valid()
      reads this
    {
      |userAnswers| == |mcqs| && SliderValue(timeLimit)
    }

    constructor (topic: string)
      ensures Valid()
      ensures this.topic == topic && mcqs == [] && userAnswers == [] && !quizCompleted && loading
      ensures difficulty == Beginner && timeLimit == 10
    {
      this.topic := topic;
      mcqs := [];
      userAnswers := [];
      quizCompleted := false;
      loading := true;
      difficulty := Beginner;
      timeLimit := 10;
    }

    /**
     * `fetchMcqs` (lines 41-63). An empty topic returns before the `try`, so
     * `loading` is not cleared. A topic outside `topic_type` or a failed read
     * gives no data, and then the questions stay as they were.
     */
    method FetchMcqs(table: seq<McqRow>, readOk: bool)
      requires Valid()
      modifies this
      ensures Valid()
      ensures topic == "" ==> loading == old(loading)
      ensures topic != "" ==> !loading
      ensures topic != "" && readOk && ParseTopic(topic).Some? ==>
        mcqs == McqQuery(table, ParseTopic(topic).value, difficulty) && userAnswers == Blank(|mcqs|)
      ensures topic == "" || !readOk || ParseTopic(topic).None? ==>
        mcqs == old(mcqs) && userAnswers == old(userAnswers)
      ensures quizCompleted == old(quizCompleted) && difficulty == old(difficulty) && timeLimit == old(timeLimit)
    {
      if topic == "" {
        return;
      }
      var t := ParseTopic(topic);
      if readOk && t.Some? {
        mcqs := McqQuery(table, t.value, difficulty);
        userAnswers := Blank(|mcqs|);
      }
      loading := false;
    }

    /** The difficulty radio group (line 154); the caller then fetches again. */
    method SetDifficulty(d: Difficulty)
      requires Valid()
      modifies this
      ensures Valid()
      ensures difficulty == d
      ensures mcqs == old(mcqs) && userAnswers == old(userAnswers) && timeLimit == old(timeLimit)
      ensures quizCompleted == old(quizCompleted) && loading == old(loading)
    {
      difficulty := d;
    }

    /** The time-limit slider (lines 174-182). */
    method SetTimeLimit(v: int)
      requires Valid() && SliderValue(v)
      modifies this
      ensures Valid()
      ensures timeLimit == v
      ensures mcqs == old(mcqs) && userAnswers == old(userAnswers) && difficulty == old(difficulty)
      ensures quizCompleted == old(quizCompleted) && loading == old(loading)
    {
      timeLimit := v;
    }

    /** `handleAnswerChange` (lines 68-72): a copy of the answers with one position replaced. */
    method HandleAnswerChange(index: nat, answer: string)
      requires Valid() && index < |userAnswers|
      modifies this
      ensures Valid()
      ensures userAnswers == old(userAnswers)[index := answer]
      ensures |userAnswers| == |old(userAnswers)|
      ensures forall j :: 0 <= j < |userAnswers| && j != index ==> userAnswers[j] == old(userAnswers)[j]
      ensures mcqs == old(mcqs) && quizCompleted == old(quizCompleted) && loading == old(loading)
      ensures difficulty == old(difficulty) && timeLimit == old(timeLimit)
    {
      userAnswers := userAnswers[index := answer];
    }

    /**
     * `handleSubmitQuiz` (lines 74-117). Without a user nothing happens.
     * Otherwise the session row is inserted (lines 85-96); its topic is cast
     * to `topic_type`, and a topic outside it yields no session row. Only if
     * that insert does not throw are the attempt rows inserted (lines
     * 106-108). The replies' errors are not inspected, so the quiz is
     * completed (line 110) unless one of the two inserts throws.
     */
    method HandleSubmitQuiz(user: Option<Id>, now: Timestamp, sessionWrite: Outcome, attemptsWrite: Outcome)
      returns (sent: Option<Submission>)
      requires Valid()
      modifies this
      ensures Valid()
      ensures user.None? ==> sent.None? && quizCompleted == old(quizCompleted)
      ensures user.Some? ==> sent.Some?
      ensures user.Some? ==>
        var t := ParseTopic(topic);
        sent.value.session == if t.Some? then Some(SessionRecord(user.value, t.value, difficulty, mcqs, userAnswers, timeLimit, now)) else None
      ensures user.Some? ==> (sent.value.attempts.Some? <==> sessionWrite != Threw)
      ensures user.Some? && sessionWrite != Threw ==> sent.value.attempts == Some(BuildAttempts(user.value, mcqs, userAnswers))
      ensures user.Some? ==> quizCompleted == (old(quizCompleted) || (sessionWrite != Threw && attemptsWrite != Threw))
      ensures mcqs == old(mcqs) && userAnswers == old(userAnswers) && loading == old(loading)
      ensures difficulty == old(difficulty) && timeLimit == old(timeLimit)
    {
      if user.None? {
        return None;
      }
      var t := ParseTopic(topic);
      var session := if t.Some? then Some(SessionRecord(user.value, t.value, difficulty, mcqs, userAnswers, timeLimit, now)) else None;
      if sessionWrite == Threw {
        return Some(Submission(session, None));
      }
      sent := Some(Submission(session, Some(BuildAttempts(user.value, mcqs, userAnswers))));
      if attemptsWrite != Threw {
        quizCompleted := true;
      }
    }

    /** The rendered view: submit is shown only with questions and enabled only when every answer is given. */
    function View(): (s: Screen)
      reads this
      ensures s == LoadingQuiz <==> loading
      ensures s.Questions? <==> !loading && topic != "" && !quizCompleted && mcqs != []
      ensures s.Questions? ==> (s.submitEnabled <==> forall i :: 0 <= i < |userAnswers| ==> userAnswers[i] != "")
    {
      if loading then LoadingQuiz
      else if topic == "" then NoTopic
      else if quizCompleted then Completed
      else if mcqs == [] then NoQuestions
      else Questions(!AnyEmpty(userAnswers))
    }
  }

  /** A recorded session never claims more correct answers than questions, and its time limit is a slider value. */
  lemma SessionWithinBounds(q: Quiz, user: Id, topic: Topic, now: Timestamp)
    requires q.Valid()
    ensures var r := SessionRecord(user, topic, q.difficulty, q.mcqs, q.userAnswers, q.timeLimit, now);
      r.correctAnswers.value <= r.totalQuestions == |q.mcqs| && SliderValue(r.timeLimitMinutes.value)
  {
  }
}
