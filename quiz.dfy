/**
  The practice quiz of src/components/quiz-client.tsx: the reducer that drives
  one pass over the questions, its starting state, the comparison that judges
  the model's answer, and the `m:ss` rendering of the countdown.
*/
module QuizPractice {
  import opened Wrappers
  import Decimal

  /** Seconds allowed per question. */
  const QuizTimeLimit := 180

  /** The number of questions in the quiz data. */
  const QuestionCount := 4

  datatype Status = Idle | Analyzing | Solved | Evaluating | Finished

  datatype Feedback = Correct | Wrong

  /** The reducer's state; `feedback` is `None` where the component holds `null`. */
  datatype State = State(
    status: Status,
    currentQuestionIndex: int,
    aiAnswer: string,
    aiReasoning: string,
    score: int,
    timeLeft: int,
    feedback: Option<Feedback>)

  datatype Action =
    | StartAnalysis
    | SetAnswer(answer: string, reasoning: string)
    | EvaluateAnswer
    | SetFeedback(verdict: Feedback)
    | NextQuestion
    | FinishQuiz
    | Tick
    | ResetTimer

  /**
    `initialState`: idle on the first question with nothing answered, no score,
    no feedback and the whole time limit left; it satisfies `Valid`.
  */
  function InitialState(): (s: State)
    ensures Valid(s) && s.currentQuestionIndex == 0 && s.score == 0 && s.timeLeft == QuizTimeLimit
    ensures s.status == Idle && s.aiAnswer == "" && s.aiReasoning == "" && s.feedback.None?
  {
    State(Idle, 0, "", "", 0, QuizTimeLimit, None)
  }

  /** What every state reachable from the initial one satisfies. */
  predicate Valid(s: State)
  {
    && 0 <= s.currentQuestionIndex < QuestionCount
    && 0 <= s.timeLeft <= QuizTimeLimit
    && s.score >= 0
  }

  /**
    `quizReducer`. The score moves only on a `SET_FEEDBACK` of `correct`, and
    then by exactly one; every action keeps the state valid.
  */
  function Reduce(s: State, a: Action): (r: State)
    ensures r.score == if a == SetFeedback(Correct) then s.score + 1 else s.score
    ensures Valid(s) ==> Valid(r)
  {
    match a
    case StartAnalysis => s.(status := Analyzing, aiAnswer := "", aiReasoning := "")
    case SetAnswer(answer, reasoning) => s.(status := Solved, aiAnswer := answer, aiReasoning := reasoning)
    case EvaluateAnswer => s.(status := Evaluating, feedback := None)
    case SetFeedback(verdict) =>
      s.(feedback := Some(verdict), score := if verdict == Correct then s.score + 1 else s.score)
    case NextQuestion =>
      if s.currentQuestionIndex < QuestionCount - 1 then
        InitialState().(currentQuestionIndex := s.currentQuestionIndex + 1, score := s.score)
      else s.(status := Finished)
    case FinishQuiz => s.(status := Finished)
    case Tick => s.(timeLeft := if s.timeLeft > 0 then s.timeLeft - 1 else 0)
    case ResetTimer => s.(timeLeft := QuizTimeLimit)
  }

  /** No action lowers the score. */
  lemma ScoreNeverDecreases(s: State, a: Action)
    ensures Reduce(s, a).score >= s.score
  {
  }

  /** A tick counts down by one second and stops at zero; nothing else changes. */
  lemma TickCountsDown(s: State)
    ensures Reduce(s, Tick).timeLeft == if s.timeLeft - 1 > 0 then s.timeLeft - 1 else 0
    ensures Reduce(s, Tick).timeLeft >= 0
    ensures Reduce(s, Tick).(timeLeft := s.timeLeft) == s
  {
  }

  /** Resetting the timer gives the full time limit and changes nothing else. */
  lemma ResetTimerRestoresLimit(s: State)
    ensures Reduce(s, ResetTimer).timeLeft == QuizTimeLimit
    ensures Reduce(s, ResetTimer).(timeLeft := s.timeLeft) == s
  {
  }

  /** Feedback is stored as given; the score goes up by one exactly when it is `correct`. */
  lemma FeedbackScores(s: State, f: Feedback)
    ensures Reduce(s, SetFeedback(f)).feedback == Some(f)
    ensures Reduce(s, SetFeedback(f)).score == s.score + 1 <==> f == Correct
    ensures Reduce(s, SetFeedback(f)).(feedback := s.feedback, score := s.score) == s
  {
  }

  /**
    Before the last question, moving on starts the next question afresh and
    keeps only the score; on the last one it finishes and keeps everything else.
  */
  lemma NextQuestionAdvances(s: State)
    ensures s.currentQuestionIndex < QuestionCount - 1 ==>
      && Reduce(s, NextQuestion).currentQuestionIndex == s.currentQuestionIndex + 1
      && Reduce(s, NextQuestion).score == s.score
      && Reduce(s, NextQuestion).(currentQuestionIndex := 0, score := 0) == InitialState()
    ensures s.currentQuestionIndex >= QuestionCount - 1 ==>
      Reduce(s, NextQuestion) == s.(status := Finished)
  {
  }

  /** Starting the analysis clears the previous answer; setting the answer stores it. */
  lemma AnalysisAndAnswer(s: State, answer: string, reasoning: string)
    ensures Reduce(s, StartAnalysis) == s.(status := Analyzing, aiAnswer := "", aiReasoning := "")
    ensures Reduce(s, SetAnswer(answer, reasoning)) == s.(status := Solved, aiAnswer := answer, aiReasoning := reasoning)
  {
  }

  /** Evaluating clears the feedback; finishing only changes the status. */
  lemma EvaluateAndFinish(s: State)
    ensures Reduce(s, EvaluateAnswer) == s.(status := Evaluating, feedback := None)
    ensures Reduce(s, FinishQuiz) == s.(status := Finished)
  {
  }

  /** The state after dispatching `actions` in order. */
  function Replay(s: State, actions: seq<Action>): State
    decreases |actions|
  {
    if actions == [] then s else Replay(Reduce(s, actions[0]), actions[1..])
  }

  /** The number of `correct` feedbacks among `actions`. */
  function CorrectCount(actions: seq<Action>): (n: nat)
    ensures n <= |actions|
    decreases |actions|
  {
    if actions == [] then 0
    else (if actions[0] == SetFeedback(Correct) then 1 else 0) + CorrectCount(actions[1..])
  }

  /** The number of `NEXT_QUESTION` actions among `actions`. */
  function NextCount(actions: seq<Action>): (n: nat)
    ensures n <= |actions|
    decreases |actions|
  {
    if actions == [] then 0
    else (if actions[0] == NextQuestion then 1 else 0) + NextCount(actions[1..])
  }

  /** Every action sequence keeps a valid state valid: the index stays within the questions and the timer within its limit. */
  lemma {:induction false} ReplayKeepsValid(s: State, actions: seq<Action>)
    requires Valid(s)
    ensures Valid(Replay(s, actions))
    decreases |actions|
  {
    if actions != [] {
      ReplayKeepsValid(Reduce(s, actions[0]), actions[1..]);
    }
  }

  /** The score is the starting score plus the number of `correct` feedbacks. */
  lemma {:induction false} ReplayScore(s: State, actions: seq<Action>)
    ensures Replay(s, actions).score == s.score + CorrectCount(actions)
    decreases |actions|
  {
    if actions != [] {
      ReplayScore(Reduce(s, actions[0]), actions[1..]);
    }
  }

  /** The question index advances once per `NEXT_QUESTION` until the last question, and never past it. */
  lemma {:induction false} ReplayIndex(s: State, actions: seq<Action>)
    requires 0 <= s.currentQuestionIndex < QuestionCount
    ensures var k := s.currentQuestionIndex + NextCount(actions);
      Replay(s, actions).currentQuestionIndex == if k < QuestionCount then k else QuestionCount - 1
    decreases |actions|
  {
    if actions != [] {
      ReplayIndex(Reduce(s, actions[0]), actions[1..]);
    }
  }

  /** From the initial state, whatever is dispatched: index in range, timer in range, score = correct feedbacks. */
  lemma ReachableStates(actions: seq<Action>)
    ensures Valid(Replay(InitialState(), actions))
    ensures Replay(InitialState(), actions).score == CorrectCount(actions)
  {
    ReplayKeepsValid(InitialState(), actions);
    ReplayScore(InitialState(), actions);
  }

  /** The characters `String.prototype.trim` removes: white space and line terminators. */
  predicate IsJsSpace(c: char)
  {
    || c == '\t' || c == '\n' || c == '\U{000B}' || c == '\U{000C}' || c == '\r' || c == ' '
    || c == '\U{00A0}' || c == '\U{1680}' || '\U{2000}' <= c <= '\U{200A}'
    || c == '\U{2028}' || c == '\U{2029}' || c == '\U{202F}' || c == '\U{205F}'
    || c == '\U{3000}' || c == '\U{FEFF}'
  }

  predicate AllSpace(s: string)
  {
    forall i :: 0 <= i < |s| ==> IsJsSpace(s[i])
  }

  /** `s` without its leading white space. */
  function TrimStart(s: string): (r: string)
    ensures |r| <= |s| && r == s[|s| - |r|..]
    ensures r == [] || !IsJsSpace(r[0])
    ensures AllSpace(s[..|s| - |r|])
    decreases |s|
  {
    if s != [] && IsJsSpace(s[0]) then
      var r := TrimStart(s[1..]);
      assert s[..|s| - |r|] == [s[0]] + s[1..][..|s| - 1 - |r|];
      r
    else s
  }

  /** `s` without its trailing white space. */
  function TrimEnd(s: string): (r: string)
    ensures |r| <= |s| && r == s[..|r|]
    ensures r == [] || !IsJsSpace(r[|r| - 1])
    ensures AllSpace(s[|r|..])
    decreases |s|
  {
    if s != [] && IsJsSpace(s[|s| - 1]) then
      var r := TrimEnd(s[..|s| - 1]);
      assert s[|r|..] == s[..|s| - 1][|r|..] + [s[|s| - 1]];
      r
    else s
  }

  /** `s.trim()`. */
  function Trim(s: string): string
  {
    TrimEnd(TrimStart(s))
  }

  /** `toLowerCase` on the letters A to Z. */
  function LowerChar(c: char): (d: char)
    ensures 'A' <= c <= 'Z' ==> d as int == c as int + 32
    ensures !('A' <= c <= 'Z') ==> d == c
  {
    if 'A' <= c <= 'Z' then (c as int + 32) as char else c
  }

  function Lower(s: string): (r: string)
    ensures |r| == |s| && forall i :: 0 <= i < |s| ==> r[i] == LowerChar(s[i])
  {
    seq(|s|, i requires 0 <= i < |s| => LowerChar(s[i]))
  }

  /** The check of `handleSubmit`: the trimmed, lower-cased answers are equal. */
  predicate Judge(aiAnswer: string, correctAnswer: string)
  {
    Lower(Trim(aiAnswer)) == Lower(Trim(correctAnswer))
  }

  /** A text of white space only trims away entirely. */
  lemma {:induction false} AllSpaceTrimsAway(s: string)
    requires AllSpace(s)
    ensures TrimStart(s) == [] && TrimEnd(s) == []
    decreases |s|
  {
    if s != [] {
      AllSpaceTrimsAway(s[1..]);
      AllSpaceTrimsAway(s[..|s| - 1]);
    }
  }

  /** Leading white space does not survive `TrimStart`. */
  lemma {:induction false} TrimStartSkipsPrefix(p: string, x: string)
    requires AllSpace(p)
    ensures TrimStart(p + x) == TrimStart(x)
    decreases |p|
  {
    if p != [] {
      assert (p + x)[0] == p[0] && IsJsSpace(p[0]);
      assert (p + x)[1..] == p[1..] + x;
      TrimStartSkipsPrefix(p[1..], x);
    } else {
      assert p + x == x;
    }
  }

  /** Trailing white space does not survive `TrimEnd`. */
  lemma {:induction false} TrimEndSkipsSuffix(x: string, q: string)
    requires AllSpace(q)
    ensures TrimEnd(x + q) == TrimEnd(x)
    decreases |q|
  {
    if q != [] {
      assert (x + q)[|x + q| - 1] == q[|q| - 1] && IsJsSpace(q[|q| - 1]);
      assert (x + q)[..|x + q| - 1] == x + q[..|q| - 1];
      TrimEndSkipsSuffix(x, q[..|q| - 1]);
    } else {
      assert x + q == x;
    }
  }

  /** Trimming the start of a text with a non-space character leaves what follows it alone. */
  lemma {:induction false} TrimStartKeepsSuffix(a: string, q: string)
    requires !AllSpace(a)
    ensures TrimStart(a + q) == TrimStart(a) + q
    decreases |a|
  {
    if IsJsSpace(a[0]) {
      assert (a + q)[1..] == a[1..] + q;
      assert !AllSpace(a[1..]) by {
        var i :| 0 <= i < |a| && !IsJsSpace(a[i]);
        assert a[1..][i - 1] == a[i];
      }
      TrimStartKeepsSuffix(a[1..], q);
    }
  }

  /** Padding an answer with white space on either side does not change its trimmed form. */
  lemma TrimIgnoresPadding(p: string, a: string, q: string)
    requires AllSpace(p) && AllSpace(q)
    ensures Trim(p + a + q) == Trim(a)
  {
    assert p + a + q == p + (a + q);
    TrimStartSkipsPrefix(p, a + q);
    if AllSpace(a) {
      assert AllSpace(a + q) by {
        forall i | 0 <= i < |a + q| ensures IsJsSpace((a + q)[i]) {
          if i < |a| { assert (a + q)[i] == a[i]; } else { assert (a + q)[i] == q[i - |a|]; }
        }
      }
      AllSpaceTrimsAway(a + q);
      AllSpaceTrimsAway(a);
    } else {
      TrimStartKeepsSuffix(a, q);
      TrimEndSkipsSuffix(TrimStart(a), q);
    }
  }

  /** Lower-casing neither makes nor unmakes white space. */
  lemma LowerKeepsSpace(c: char)
    ensures IsJsSpace(LowerChar(c)) == IsJsSpace(c)
  {
  }

  lemma {:induction false} TrimStartOfLower(s: string)
    ensures TrimStart(Lower(s)) == Lower(TrimStart(s))
    decreases |s|
  {
    if s != [] {
      LowerKeepsSpace(s[0]);
      assert Lower(s)[1..] == Lower(s[1..]);
      TrimStartOfLower(s[1..]);
    }
  }

  lemma {:induction false} TrimEndOfLower(s: string)
    ensures TrimEnd(Lower(s)) == Lower(TrimEnd(s))
    decreases |s|
  {
    if s != [] {
      LowerKeepsSpace(s[|s| - 1]);
      if IsJsSpace(s[|s| - 1]) {
        assert Lower(s)[..|s| - 1] == Lower(s[..|s| - 1]);
        TrimEndOfLower(s[..|s| - 1]);
      }
    }
  }

  /** Lower-casing twice is lower-casing once. */
  lemma LowerIdempotent(s: string)
    ensures Lower(Lower(s)) == Lower(s)
  {
  }

  /**
    The judgement ignores white space around the model's answer and the case
    of its letters: a padded or lower-cased answer is judged as the answer is.
  */
  lemma JudgeIgnoresPaddingAndCase(p: string, a: string, q: string, expected: string)
    requires AllSpace(p) && AllSpace(q)
    ensures Judge(p + a + q, expected) == Judge(a, expected)
    ensures Judge(Lower(a), expected) == Judge(a, expected)
  {
    TrimIgnoresPadding(p, a, q);
    TrimStartOfLower(a);
    TrimEndOfLower(TrimStart(a));
    LowerIdempotent(Trim(a));
  }

  /** The judgement is an equivalence on answers: reflexive, symmetric and transitive. */
  lemma JudgeIsEquivalence(a: string, b: string, c: string)
    ensures Judge(a, a)
    ensures Judge(a, b) == Judge(b, a)
    ensures Judge(a, b) && Judge(b, c) ==> Judge(a, c)
  {
  }

  /** The feedback `handleSubmit` dispatches for the model's answer to a question. */
  function FeedbackFor(aiAnswer: string, correctAnswer: string): (f: Feedback)
    ensures f == Correct <==> Judge(aiAnswer, correctAnswer)
  {
    if Judge(aiAnswer, correctAnswer) then Correct else Wrong
  }

  /** Submitting raises the score by one exactly when the answer is judged correct. */
  lemma SubmitScores(s: State, correctAnswer: string)
    ensures var r := Reduce(s, SetFeedback(FeedbackFor(s.aiAnswer, correctAnswer)));
      r.score == if Judge(s.aiAnswer, correctAnswer) then s.score + 1 else s.score
  {
  }

  /** `s.padStart(2, '0')`. */
  function PadStart2(s: string): string
  {
    if |s| >= 2 then s else seq(2 - |s|, _ => '0') + s
  }

  /** A number below one hundred takes at most two digits. */
  lemma ShowBelowHundred(n: nat)
    requires n < 100
    ensures |Decimal.Show(n)| <= 2
  {
    if n >= 10 {
      assert Decimal.Show(n) == Decimal.Show(n / 10) + [Decimal.DigitChar(n % 10)];
    }
  }

  /** Padding with a leading zero keeps the digits' value. */
  lemma PadKeepsValue(s: string)
    requires 1 <= |s| <= 2 && Decimal.AllDigits(s)
    ensures |PadStart2(s)| == 2 && Decimal.AllDigits(PadStart2(s))
    ensures Decimal.Value(PadStart2(s)) == Decimal.Value(s)
  {
    if |s| == 1 {
      var p := PadStart2(s);
      assert p == ['0', s[0]];
      assert p[..1] == ['0'] && ['0'][..0] == [];
      assert s[..0] == [];
    }
  }

  /** Reads a `minutes:ss` display back as a number of seconds. */
  function ReadClock(c: string): nat
    requires |c| >= 3 && Decimal.AllDigits(c[..|c| - 3]) && Decimal.AllDigits(c[|c| - 2..])
  {
    Decimal.Value(c[..|c| - 3]) * 60 + Decimal.Value(c[|c| - 2..])
  }

  /**
    The countdown as `minutes:seconds`, seconds padded to two digits. Reading
    the digits back gives the time: minutes times sixty plus seconds, with the
    seconds below sixty.
  */
  function Clock(t: nat): (c: string)
    ensures |c| >= 4 && c[|c| - 3] == ':'
    ensures Decimal.AllDigits(c[..|c| - 3]) && Decimal.AllDigits(c[|c| - 2..])
    ensures Decimal.Value(c[|c| - 2..]) < 60
    ensures ReadClock(c) == t
  {
    var minutes, seconds := Decimal.Show(t / 60), Decimal.Show(t % 60);
    ShowBelowHundred(t % 60);
    PadKeepsValue(seconds);
    Decimal.ValueOfShow(t / 60);
    Decimal.ValueOfShow(t % 60);
    var c := minutes + ":" + PadStart2(seconds);
    assert c[..|c| - 3] == minutes && c[|c| - 2..] == PadStart2(seconds);
    c
  }

  /** Distinct times show differently. */
  lemma ClockInjective(t: nat, u: nat)
    requires Clock(t) == Clock(u)
    ensures t == u
  {
  }
}
