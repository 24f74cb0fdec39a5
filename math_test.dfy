/** The arithmetic quiz: problem generation per difficulty, and the session
    state machine of ten answers with a streak bonus. The delayed continuation
    that follows each answer is a queued `Timeout` value carrying what the
    answer handler captured; `Continue` fires the oldest one. */
module MathTest {
  import opened Common
  import opened Store
  import opened AnswerOptions

  datatype Operator = Plus | Minus | Times | Divide

  /** Operators a difficulty draws from, in the order the source lists them. */
  function Operators(d: Difficulty): (ops: seq<Operator>)
    ensures Distinct(ops) && |ops| >= 2
    ensures ops[0] == Plus && ops[1] == Minus
    ensures Times in ops <==> d != Easy
    ensures Divide in ops <==> d == Hard
  {
    match d
    case Easy => [Plus, Minus]
    case Normal => [Plus, Minus, Times]
    case Hard => [Plus, Minus, Times, Divide]
  }

  /** Upper bound of the `+` and `-` operands. */
  function MaxNum(d: Difficulty): nat
  {
    match d
    case Easy => 10
    case Normal => 20
    case Hard => 50
  }

  /** Range of the first factor of a product. */
  function FactorLimit(d: Difficulty): nat
  {
    if d == Hard then 12 else 9
  }

  /** The two operand draws `r1`, `r2` are in range for `op`: each is the
      `Math.floor(Math.random() * n)` of the source for its own `n`. */
  predicate OperandDraws(d: Difficulty, op: Operator, r1: nat, r2: nat)
  {
    match op
    case Plus => r1 < MaxNum(d) && r2 < MaxNum(d)
    case Minus => r1 < MaxNum(d) && r2 < r1 + 1
    case Times => r1 < FactorLimit(d) && r2 < 9
    case Divide => r1 < 9 && r2 < 9
  }

  /** What a well-built problem of difficulty `d` satisfies for its operator. */
  predicate OperandsFit(d: Difficulty, op: Operator, num1: int, num2: int, answer: int)
  {
    match op
    case Plus => 1 <= num1 <= MaxNum(d) && 1 <= num2 <= MaxNum(d) && answer == num1 + num2
    case Minus => 1 <= num2 <= num1 <= MaxNum(d) && answer == num1 - num2 && answer >= 0
    case Times => 1 <= num1 <= FactorLimit(d) && 1 <= num2 <= 9 && answer == num1 * num2
    case Divide => 1 <= num2 <= 9 && 1 <= answer <= 9 && num1 == num2 * answer
  }

  /** The operands and answer of the `switch (operator)`: (num1, num2, answer). */
  function Operands(d: Difficulty, op: Operator, r1: nat, r2: nat): (t: (int, int, int))
    requires OperandDraws(d, op, r1, r2)
    ensures OperandsFit(d, op, t.0, t.1, t.2)
    ensures t.2 >= 0
  {
    var a, b := r1 + 1, r2 + 1;
    match op
    case Plus => (a, b, a + b)
    case Minus => (a, b, a - b)
    case Times => (a, b, a * b)
    case Divide => (a * b, a, b)
  }

  /** Division problems never leave a remainder: the quotient shown as the
      answer is exact. */
  lemma DivisionExact(d: Difficulty, r1: nat, r2: nat)
    requires OperandDraws(d, Divide, r1, r2)
    ensures var t := Operands(d, Divide, r1, r2);
            t.1 > 0 && t.0 % t.1 == 0 && t.0 / t.1 == t.2
  {
    var t := Operands(d, Divide, r1, r2);
    ExactQuotient(t.2, t.1);
  }

  /** A product divided by one of its factors leaves that factor's partner. */
  lemma ExactQuotient(q: nat, b: nat)
    requires b > 0
    ensures (q * b) % b == 0 && (q * b) / b == q
  {
    var n := q * b;
    var k, m := n / b, n % b;
    assert n == k * b + m && 0 <= m < b;
    assert (q - k) * b == m;
    if q - k >= 1 {
      assert false;
    } else if q - k <= -1 {
      assert false;
    }
  }

  /** Every draw of operands in range yields exactly the pairs the generator
      may produce, and every such pair comes from some draw. */
  lemma OperandsCover(d: Difficulty, op: Operator, num1: int, num2: int, answer: int)
    requires OperandsFit(d, op, num1, num2, answer)
    ensures exists r1: nat, r2: nat :: OperandDraws(d, op, r1, r2) && Operands(d, op, r1, r2) == (num1, num2, answer)
  {
    match op
    case Plus =>
      assert OperandDraws(d, op, num1 - 1, num2 - 1) && Operands(d, op, num1 - 1, num2 - 1) == (num1, num2, answer);
    case Minus =>
      assert OperandDraws(d, op, num1 - 1, num2 - 1) && Operands(d, op, num1 - 1, num2 - 1) == (num1, num2, answer);
    case Times =>
      assert OperandDraws(d, op, num1 - 1, num2 - 1) && Operands(d, op, num1 - 1, num2 - 1) == (num1, num2, answer);
    case Divide =>
      assert OperandDraws(d, op, num2 - 1, answer - 1) && Operands(d, op, num2 - 1, answer - 1) == (num1, num2, answer);
  }

  datatype Problem = Problem(num1: int, num2: int, op: Operator, answer: int, options: seq<int>)

  /** A problem the generator can hand out for difficulty `d`. */
  predicate ValidProblem(d: Difficulty, p: Problem)
  {
    && p.op in Operators(d)
    && OperandsFit(d, p.op, p.num1, p.num2, p.answer)
    && |p.options| == OptionCount
    && Distinct(p.options)
    && p.answer in p.options
    && forall i :: 0 <= i < |p.options| && p.options[i] != p.answer ==> Admissible(p.answer, p.options[i])
  }

  /** `generateProblem`: `opDraw` picks the operator, `r1`/`r2` the operands,
      `optionDraws` feeds the option loop and `order` is the final shuffle.
      `None` means the finite draw stream ran out before four options existed. */
  method GenerateProblem(d: Difficulty, opDraw: nat, r1: nat, r2: nat, optionDraws: seq<nat>, order: seq<nat>)
    returns (p: Option<Problem>)
    requires opDraw < |Operators(d)|
    requires OperandDraws(d, Operators(d)[opDraw], r1, r2)
    requires ValidDraws(optionDraws)
    requires IsPermutation(order, OptionCount)
    ensures p.Some? ==> ValidProblem(d, p.value)
    ensures p.Some? ==> p.value.op == Operators(d)[opDraw]
    ensures p.Some? <==> |Fill(Operands(d, Operators(d)[opDraw], r1, r2).2, optionDraws)| == OptionCount
    ensures (forall k :: 6 <= k <= 9 ==> k in optionDraws) ==> p.Some?
  {
    var op := Operators(d)[opDraw];
    var t := Operands(d, op, r1, r2);
    var options, _ := BuildOptions(t.2, optionDraws);
    if (forall k :: 6 <= k <= 9 ==> k in optionDraws) {
      FillCompletes(t.2, optionDraws);
    }
    if |options| < OptionCount {
      return None;
    }
    var shown := Permute(options, order);
    PermuteDistinct(options, order);
    assert options[0] == t.2;
    forall i | 0 <= i < |shown| && shown[i] != t.2
      ensures Admissible(t.2, shown[i])
    {
      assert shown[i] == options[order[i]] && order[i] != 0;
    }
    p := Some(Problem(t.0, t.1, op, t.2, shown));
  }

  /** Points for a correct answer given the streak before it. */
  function Bonus(streak: nat): int
  {
    if streak >= 3 then 20 else 10
  }

  /** What the 800 ms continuation of an answer captured: the counters as they
      were when the answer was given, and whether it was right. */
  datatype Timeout = Timeout(answeredBefore: nat, scoreBefore: int, streakBefore: nat, isCorrect: bool)

  /** The score the continuation records when it ends the session. */
  function FinalScore(t: Timeout): int
  {
    if t.isCorrect then t.scoreBefore + Bonus(t.streakBefore) else t.scoreBefore
  }

  /** Questions in one session. */
  const TotalQuestions: nat := 10

  datatype Session = Session(
    difficulty: Difficulty,
    problem: Option<Problem>,
    score: int,
    streak: nat,
    answered: nat,
    gameOver: bool,
    feedback: Feedback,
    pending: seq<Timeout>)

  /** `handleAnswer`: ignored without a problem or while feedback shows;
      otherwise scores the answer and schedules its continuation. */
  function HandleAnswer(s: Session, selected: int): (r: Session)
    ensures s.problem.None? || s.feedback != NoFeedback ==> r == s
    ensures s.problem.Some? && s.feedback == NoFeedback ==>
      var correct := selected == s.problem.value.answer;
      && r.answered == s.answered + 1
      && r.score == (if correct then s.score + Bonus(s.streak) else s.score)
      && r.streak == (if correct then s.streak + 1 else 0)
      && r.feedback == (if correct then Correct else Wrong)
      && r.pending == s.pending + [Timeout(s.answered, s.score, s.streak, correct)]
      && r.problem == s.problem && r.gameOver == s.gameOver && r.difficulty == s.difficulty
  {
    if s.problem.None? || s.feedback != NoFeedback then s
    else
      var correct := selected == s.problem.value.answer;
      s.(score := if correct then s.score + Bonus(s.streak) else s.score,
         streak := if correct then s.streak + 1 else 0,
         feedback := if correct then Correct else Wrong,
         answered := s.answered + 1,
         pending := s.pending + [Timeout(s.answered, s.score, s.streak, correct)])
  }

  /** The session and the store after a step that may touch both. */
  datatype Step = Step(session: Session, store: State)

  /** The continuation fires: the oldest queued timeout either ends the session
      (recording its final score) or moves on to the `next` problem. */
  function Continue(s: Session, store: State, next: Problem, now: string): (r: Step)
    requires |s.pending| > 0
    ensures r.session.pending == s.pending[1..]
    ensures s.pending[0].answeredBefore + 1 >= TotalQuestions ==>
      && r.session == s.(pending := s.pending[1..], gameOver := true)
      && r.store == RecordSession(store, MathGame, FinalScore(s.pending[0]), now)
    ensures s.pending[0].answeredBefore + 1 < TotalQuestions ==>
      && r.session == s.(pending := s.pending[1..], problem := Some(next), feedback := NoFeedback)
      && r.store == store
  {
    var t := s.pending[0];
    if t.answeredBefore + 1 >= TotalQuestions then
      Step(s.(pending := s.pending[1..], gameOver := true),
           RecordSession(store, MathGame, FinalScore(t), now))
    else
      Step(s.(pending := s.pending[1..], problem := Some(next), feedback := NoFeedback), store)
  }

  /** `handleRestart`: counters back to zero and a fresh problem. A timeout
      still queued from before is not cancelled. */
  function Restart(s: Session, next: Problem): (r: Session)
    ensures r.score == 0 && r.streak == 0 && r.answered == 0 && !r.gameOver
    ensures r.problem == Some(next) && r.feedback == NoFeedback
    ensures r.pending == s.pending && r.difficulty == s.difficulty
  {
    s.(score := 0, streak := 0, answered := 0, gameOver := false, problem := Some(next), feedback := NoFeedback)
  }

  /** A session as the component mounts it. */
  function Start(d: Difficulty, first: Problem): (r: Session)
    ensures r.score == 0 && r.streak == 0 && r.answered == 0 && !r.gameOver
    ensures r.feedback == NoFeedback && r.pending == [] && r.problem == Some(first)
  {
    Session(d, Some(first), 0, 0, 0, false, NoFeedback, [])
  }

  /** The continuation an answer schedules agrees with the state the answer
      left: its final score is the running score including that answer, and
      firing it on the tenth answer records exactly that score; on an earlier
      answer it clears the feedback so the next answer is accepted. */
  lemma AnswerThenContinue(s: Session, selected: int, store: State, next: Problem, now: string)
    requires s.problem.Some? && s.feedback == NoFeedback && s.pending == []
    ensures var a := HandleAnswer(s, selected);
            var c := Continue(a, store, next, now);
            && |a.pending| == 1
            && FinalScore(a.pending[0]) == a.score
            && (a.answered >= TotalQuestions ==>
                  c.session.gameOver
                  && c.store.highScores.Get(MathGame) == Max(store.highScores.Get(MathGame), a.score)
                  && c.store.recentGames[0] == GameResult(MathGame, a.score, now))
            && (a.answered < TotalQuestions ==>
                  c.session.feedback == NoFeedback && c.session.answered == a.answered
                  && c.session.score == a.score && c.store == store)
  {
    var a := HandleAnswer(s, selected);
    assert a.pending == [Timeout(s.answered, s.score, s.streak, selected == s.problem.value.answer)];
  }

  /** Score and streak after a run of answers, `true` for each correct one:
      the fold that repeated `HandleAnswer` calls perform on the counters. */
  function Replay(score: int, streak: nat, outcomes: seq<bool>): (int, nat)
    decreases |outcomes|
  {
    if outcomes == [] then (score, streak)
    else if outcomes[0] then Replay(score + Bonus(streak), streak + 1, outcomes[1..])
    else Replay(score, 0, outcomes[1..])
  }

  /** Each correct answer is worth 10 or 20 points and a wrong one nothing:
      a run from zero scores between 10 and 20 points per correct answer. */
  lemma {:induction false} ReplayBounds(score: int, streak: nat, outcomes: seq<bool>)
    ensures var (sc, _) := Replay(score, streak, outcomes);
            score + 10 * CorrectCount(outcomes) <= sc <= score + 20 * CorrectCount(outcomes)
    decreases |outcomes|
  {
    if outcomes != [] {
      if outcomes[0] {
        ReplayBounds(score + Bonus(streak), streak + 1, outcomes[1..]);
      } else {
        ReplayBounds(score, 0, outcomes[1..]);
      }
    }
  }

  /** `HandleAnswer` moves the counters exactly as one step of `Replay` does. */
  lemma {:induction false} HandleAnswerReplays(s: Session, selected: int, outcomes: seq<bool>)
    requires s.problem.Some? && s.feedback == NoFeedback
    ensures var a := HandleAnswer(s, selected);
            Replay(s.score, s.streak, [selected == s.problem.value.answer] + outcomes)
            == Replay(a.score, a.streak, outcomes)
  {
    var o := [selected == s.problem.value.answer] + outcomes;
    assert o[1..] == outcomes;
  }

  /** Ten correct answers in a row: 10 + 10 + 10, then 20 for each of the
      remaining seven, 170 in all. */
  lemma PerfectSession()
    ensures Replay(0, 0, seq(TotalQuestions, _ => true)) == (170, 10)
  {
    var run := seq(TotalQuestions, _ => true);
    assert run[1..] == seq(9, _ => true);
    assert seq(9, _ => true)[1..] == seq(8, _ => true);
    assert seq(8, _ => true)[1..] == seq(7, _ => true);
    assert Replay(0, 0, run) == Replay(10, 1, seq(9, _ => true));
    assert Replay(10, 1, seq(9, _ => true)) == Replay(20, 2, seq(8, _ => true));
    assert Replay(20, 2, seq(8, _ => true)) == Replay(30, 3, seq(7, _ => true));
    ReplayStreak(30, 3, 7);
  }

  /** Once the streak is at least 3, every further correct answer is worth 20. */
  lemma {:induction false} ReplayStreak(score: int, streak: nat, n: nat)
    requires streak >= 3
    ensures Replay(score, streak, seq(n, _ => true)) == (score + 20 * n, streak + n)
    decreases n
  {
    if n > 0 {
      assert seq(n, _ => true)[1..] == seq(n - 1, _ => true);
      ReplayStreak(score + 20, streak + 1, n - 1);
    }
  }

  /** The game-over message reports `floor(score / 10)` correct answers. */
  function ShownCorrect(score: int): int
  {
    score / 10
  }

  /** As written, the message claims more correct answers than there were
      questions after a perfect session: 17 out of 10. */
  lemma ShownCorrectOvercounts()
    ensures var (score, _) := Replay(0, 0, seq(TotalQuestions, _ => true));
            ShownCorrect(score) == 17 > TotalQuestions
  {
    PerfectSession();
  }

  /** The count the message evidently means: the correct answers themselves,
      never more than the answers given, and never more than the shown
      count derived from the score. */
  lemma CorrectCountBounded(outcomes: seq<bool>)
    ensures CorrectCount(outcomes) <= |outcomes|
    ensures CorrectCount(outcomes) <= ShownCorrect(Replay(0, 0, outcomes).0)
  {
    ReplayBounds(0, 0, outcomes);
  }
}
