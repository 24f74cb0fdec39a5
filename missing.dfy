/** The missing-number quiz: an equation `num1 op num2 = result` with one of
    its three numbers hidden, four answer options, and a session of ten
    answers worth a flat 10 points each. */
module Missing {
  import opened Common
  import opened Store
  import opened AnswerOptions

  /** Upper bound of the drawn numbers. */
  function MaxNum(d: Difficulty): nat
  {
    match d
    case Easy => 10
    case Normal => 20
    case Hard => 50
  }

  /** The true triple before a slot is hidden. */
  datatype Triple = Triple(num1: int, num2: int, result: int)

  /** The draws of the triple are in range: for addition `r1`, `r2` are the
      two operand draws below `maxNum`; otherwise `r1 < maxNum` gives the
      result and `r2 < result - 1` the first operand. */
  predicate TripleDraws(d: Difficulty, isAddition: bool, r1: nat, r2: nat)
  {
    if isAddition then r1 < MaxNum(d) && r2 < MaxNum(d)
    else r1 < MaxNum(d) && r2 < r1 + 1
  }

  /** Both branches build a triple whose parts are positive and satisfy
      num1 + num2 = result; the operands stay within the branch's bounds. */
  function MakeTriple(d: Difficulty, isAddition: bool, r1: nat, r2: nat): (t: Triple)
    requires TripleDraws(d, isAddition, r1, r2)
    ensures t.num1 + t.num2 == t.result
    ensures t.num1 >= 1 && t.num2 >= 1
    ensures isAddition ==> t.num1 <= MaxNum(d) && t.num2 <= MaxNum(d)
    ensures !isAddition ==> 2 <= t.result <= MaxNum(d) + 1
  {
    if isAddition then Triple(r1 + 1, r2 + 1, r1 + 1 + r2 + 1)
    else
      var result := r1 + 2;
      var num1 := r2 + 1;
      Triple(num1, result - num1, result)
  }

  /** The sign shown between the operands. */
  datatype Sign = PlusSign | MinusSign

  /** One displayed number: its value, or the `'?'` placeholder. */
  datatype Slot = Shown(value: int) | Hidden

  datatype Problem = Problem(num1: Slot, num2: Slot, sign: Sign, result: Slot, answer: int, options: seq<int>)

  /** The displayed triple with slot `pos` replaced by `'?'`. */
  function Hide(t: Triple, pos: nat): (slots: (Slot, Slot, Slot))
    requires pos < 3
    ensures (slots.0 == Hidden) == (pos == 0) && (slots.1 == Hidden) == (pos == 1) && (slots.2 == Hidden) == (pos == 2)
    ensures slots.0 != Hidden ==> slots.0 == Shown(t.num1)
    ensures slots.1 != Hidden ==> slots.1 == Shown(t.num2)
    ensures slots.2 != Hidden ==> slots.2 == Shown(t.result)
  {
    if pos == 0 then (Hidden, Shown(t.num2), Shown(t.result))
    else if pos == 1 then (Shown(t.num1), Hidden, Shown(t.result))
    else (Shown(t.num1), Shown(t.num2), Hidden)
  }

  /** The true value of slot `pos`. */
  function SlotValue(t: Triple, pos: nat): int
    requires pos < 3
  {
    if pos == 0 then t.num1 else if pos == 1 then t.num2 else t.result
  }

  /** Exactly one slot is hidden, and the problem's answer is the value it hides. */
  predicate HidesOne(t: Triple, p: Problem)
  {
    || (p.num1 == Hidden && p.num2 == Shown(t.num2) && p.result == Shown(t.result) && p.answer == t.num1)
    || (p.num1 == Shown(t.num1) && p.num2 == Hidden && p.result == Shown(t.result) && p.answer == t.num2)
    || (p.num1 == Shown(t.num1) && p.num2 == Shown(t.num2) && p.result == Hidden && p.answer == t.result)
  }

  /** What the displayed equation claims for the full triple. */
  predicate DisplayedHolds(t: Triple, sign: Sign)
  {
    match sign
    case PlusSign => t.num1 + t.num2 == t.result
    case MinusSign => t.num1 - t.num2 == t.result
  }

  /** The sign `isAddition ? '+' : '-'`. */
  function SignOf(isAddition: bool): Sign
  {
    if isAddition then PlusSign else MinusSign
  }

  /** As written, the `'-'` branch still builds an addition: shown in the
      order num1, num2, result, the equation `num1 - num2 = result` is false
      for every triple it can produce, while the `'+'` branch always shows a
      true equation. */
  lemma MinusLabelMisstates(d: Difficulty, isAddition: bool, r1: nat, r2: nat)
    requires TripleDraws(d, isAddition, r1, r2)
    ensures DisplayedHolds(MakeTriple(d, isAddition, r1, r2), SignOf(isAddition)) <==> isAddition
  {
  }

  /** The equation the `'-'` branch evidently means: the drawn sum is shown
      as the subtraction `result - num1 = num2`. The same three numbers are
      shown, and the shown equation is true whenever the triple adds up. */
  function Displayed(t: Triple, isAddition: bool): (e: Triple)
    ensures isAddition ==> e == t
    ensures multiset{e.num1, e.num2, e.result} == multiset{t.num1, t.num2, t.result}
    ensures t.num1 + t.num2 == t.result ==> DisplayedHolds(e, SignOf(isAddition))
  {
    if isAddition then t else Triple(t.result, t.num1, t.num2)
  }

  /** The three numbers the corrected generator shows, before one is hidden. */
  function Equation(d: Difficulty, isAddition: bool, r1: nat, r2: nat): (e: Triple)
    requires TripleDraws(d, isAddition, r1, r2)
    ensures DisplayedHolds(e, SignOf(isAddition))
    ensures e.num1 >= 1 && e.num2 >= 1 && e.result >= 1
  {
    Displayed(MakeTriple(d, isAddition, r1, r2), isAddition)
  }

  /** Poses the triple `t` under `sign`: slot `pos` is hidden and becomes the
      answer, the option loop runs on `optionDraws` and `order` shuffles the
      four options. `None` means the finite draw stream ran out. */
  method Pose(t: Triple, sign: Sign, pos: nat, optionDraws: seq<nat>, order: seq<nat>)
    returns (p: Option<Problem>)
    requires pos < 3
    requires ValidDraws(optionDraws)
    requires IsPermutation(order, OptionCount)
    ensures p.Some? ==> HidesOne(t, p.value) && p.value.sign == sign
    ensures p.Some? ==> p.value.answer == SlotValue(t, pos)
    ensures p.Some? ==> |p.value.options| == OptionCount && Distinct(p.value.options) && p.value.answer in p.value.options
    ensures p.Some? ==> forall i :: 0 <= i < |p.value.options| && p.value.options[i] != p.value.answer ==>
                          Admissible(p.value.answer, p.value.options[i])
    ensures p.Some? <==> |Fill(SlotValue(t, pos), optionDraws)| == OptionCount
    ensures SlotValue(t, pos) >= 0 && (forall k :: 6 <= k <= 9 ==> k in optionDraws) ==> p.Some?
  {
    var slots := Hide(t, pos);
    var answer := SlotValue(t, pos);
    var options, _ := BuildOptions(answer, optionDraws);
    if answer >= 0 && (forall k :: 6 <= k <= 9 ==> k in optionDraws) {
      FillCompletes(answer, optionDraws);
    }
    if |options| < OptionCount {
      return None;
    }
    var shown := Permute(options, order);
    PermuteDistinct(options, order);
    assert options[0] == answer;
    forall i | 0 <= i < |shown| && shown[i] != answer
      ensures Admissible(answer, shown[i])
    {
      assert shown[i] == options[order[i]] && order[i] != 0;
    }
    p := Some(Problem(slots.0, slots.1, sign, slots.2, answer, shown));
  }

  /** `generateProblem` as written: `isAddition`, `r1`, `r2` build the triple,
      `pos` chooses the hidden slot, `optionDraws` feeds the option loop and
      `order` is the shuffle. The triple is shown in the order it was built,
      so a `'+'` problem shows a true equation and a `'-'` problem a false one. */
  method GenerateProblem(d: Difficulty, isAddition: bool, r1: nat, r2: nat, pos: nat, optionDraws: seq<nat>, order: seq<nat>)
    returns (p: Option<Problem>)
    requires TripleDraws(d, isAddition, r1, r2) && pos < 3
    requires ValidDraws(optionDraws)
    requires IsPermutation(order, OptionCount)
    ensures p.Some? ==> HidesOne(MakeTriple(d, isAddition, r1, r2), p.value) && p.value.sign == SignOf(isAddition)
    ensures p.Some? ==> (DisplayedHolds(MakeTriple(d, isAddition, r1, r2), p.value.sign) <==> isAddition)
    ensures p.Some? ==> p.value.answer == SlotValue(MakeTriple(d, isAddition, r1, r2), pos) && p.value.answer >= 1
    ensures p.Some? ==> |p.value.options| == OptionCount && Distinct(p.value.options) && p.value.answer in p.value.options
    ensures p.Some? ==> forall i :: 0 <= i < |p.value.options| && p.value.options[i] != p.value.answer ==>
                          Admissible(p.value.answer, p.value.options[i])
    ensures p.Some? <==> |Fill(SlotValue(MakeTriple(d, isAddition, r1, r2), pos), optionDraws)| == OptionCount
    ensures (forall k :: 6 <= k <= 9 ==> k in optionDraws) ==> p.Some?
  {
    var t := MakeTriple(d, isAddition, r1, r2);
    MinusLabelMisstates(d, isAddition, r1, r2);
    p := Pose(t, SignOf(isAddition), pos, optionDraws, order);
  }

  /** `generateProblem` with the `'-'` branch shown as `Displayed` arranges
      it: filling the hidden slot with the answer always gives a true
      equation. */
  method GenerateProblemCorrected(d: Difficulty, isAddition: bool, r1: nat, r2: nat, pos: nat, optionDraws: seq<nat>, order: seq<nat>)
    returns (p: Option<Problem>)
    requires TripleDraws(d, isAddition, r1, r2) && pos < 3
    requires ValidDraws(optionDraws)
    requires IsPermutation(order, OptionCount)
    ensures p.Some? ==> HidesOne(Equation(d, isAddition, r1, r2), p.value)
    ensures p.Some? ==> p.value.sign == SignOf(isAddition) && DisplayedHolds(Equation(d, isAddition, r1, r2), p.value.sign)
    ensures p.Some? ==> p.value.answer == SlotValue(Equation(d, isAddition, r1, r2), pos) && p.value.answer >= 1
    ensures p.Some? ==> |p.value.options| == OptionCount && Distinct(p.value.options) && p.value.answer in p.value.options
    ensures p.Some? ==> forall i :: 0 <= i < |p.value.options| && p.value.options[i] != p.value.answer ==>
                          Admissible(p.value.answer, p.value.options[i])
    ensures p.Some? <==> |Fill(SlotValue(Equation(d, isAddition, r1, r2), pos), optionDraws)| == OptionCount
    ensures (forall k :: 6 <= k <= 9 ==> k in optionDraws) ==> p.Some?
  {
    p := Pose(Equation(d, isAddition, r1, r2), SignOf(isAddition), pos, optionDraws, order);
  }

  /** What the 800 ms continuation of an answer captured. */
  datatype Timeout = Timeout(answeredBefore: nat, scoreBefore: int, isCorrect: bool)

  /** The score the continuation records when it ends the session. */
  function FinalScore(t: Timeout): int
  {
    if t.isCorrect then t.scoreBefore + 10 else t.scoreBefore
  }

  /** Questions in one session. */
  const TotalQuestions: nat := 10

  datatype Session = Session(
    difficulty: Difficulty,
    problem: Option<Problem>,
    score: int,
    answered: nat,
    gameOver: bool,
    feedback: Feedback,
    pending: seq<Timeout>)

  /** `handleAnswer`: ignored without a problem or while feedback shows;
      otherwise a correct answer adds 10, a wrong one nothing, and the
      continuation is scheduled. */
  function HandleAnswer(s: Session, selected: int): (r: Session)
    ensures s.problem.None? || s.feedback != NoFeedback ==> r == s
    ensures s.problem.Some? && s.feedback == NoFeedback ==>
      var correct := selected == s.problem.value.answer;
      && r.answered == s.answered + 1
      && r.score == (if correct then s.score + 10 else s.score)
      && r.feedback == (if correct then Correct else Wrong)
      && r.pending == s.pending + [Timeout(s.answered, s.score, correct)]
      && r.problem == s.problem && r.gameOver == s.gameOver && r.difficulty == s.difficulty
  {
    if s.problem.None? || s.feedback != NoFeedback then s
    else
      var correct := selected == s.problem.value.answer;
      s.(score := if correct then s.score + 10 else s.score,
         feedback := if correct then Correct else Wrong,
         answered := s.answered + 1,
         pending := s.pending + [Timeout(s.answered, s.score, correct)])
  }

  /** The session and the store after a step that may touch both. */
  datatype Step = Step(session: Session, store: State)

  /** The oldest queued continuation fires: it ends the session on the tenth
      answer, recording the final score, and otherwise shows the `next` problem. */
  function Continue(s: Session, store: State, next: Problem, now: string): (r: Step)
    requires |s.pending| > 0
    ensures r.session.pending == s.pending[1..]
    ensures s.pending[0].answeredBefore + 1 >= TotalQuestions ==>
      && r.session == s.(pending := s.pending[1..], gameOver := true)
      && r.store == RecordSession(store, MissingGame, FinalScore(s.pending[0]), now)
    ensures s.pending[0].answeredBefore + 1 < TotalQuestions ==>
      && r.session == s.(pending := s.pending[1..], problem := Some(next), feedback := NoFeedback)
      && r.store == store
  {
    var t := s.pending[0];
    if t.answeredBefore + 1 >= TotalQuestions then
      Step(s.(pending := s.pending[1..], gameOver := true),
           RecordSession(store, MissingGame, FinalScore(t), now))
    else
      Step(s.(pending := s.pending[1..], problem := Some(next), feedback := NoFeedback), store)
  }

  /** `handleRestart`: score and count back to zero and a fresh problem; a
      continuation still queued is not cancelled. */
  function Restart(s: Session, next: Problem): (r: Session)
    ensures r.score == 0 && r.answered == 0 && !r.gameOver
    ensures r.problem == Some(next) && r.feedback == NoFeedback
    ensures r.pending == s.pending && r.difficulty == s.difficulty
  {
    s.(score := 0, answered := 0, gameOver := false, problem := Some(next), feedback := NoFeedback)
  }

  /** The continuation an answer schedules records the running score
      including that answer when it ends the session, and otherwise clears the
      feedback so the next answer is accepted. */
  lemma AnswerThenContinue(s: Session, selected: int, store: State, next: Problem, now: string)
    requires s.problem.Some? && s.feedback == NoFeedback && s.pending == []
    ensures var a := HandleAnswer(s, selected);
            var c := Continue(a, store, next, now);
            && |a.pending| == 1
            && FinalScore(a.pending[0]) == a.score
            && (a.answered >= TotalQuestions ==>
                  c.session.gameOver
                  && c.store.highScores.Get(MissingGame) == Max(store.highScores.Get(MissingGame), a.score)
                  && c.store.recentGames[0] == GameResult(MissingGame, a.score, now))
            && (a.answered < TotalQuestions ==>
                  c.session.feedback == NoFeedback && c.session.answered == a.answered
                  && c.session.score == a.score && c.store == store)
  {
    var a := HandleAnswer(s, selected);
    assert a.pending == [Timeout(s.answered, s.score, selected == s.problem.value.answer)];
  }

  /** Score after a run of answers from `score`, `true` for each correct one. */
  function Replay(score: int, outcomes: seq<bool>): int
    decreases |outcomes|
  {
    if outcomes == [] then score
    else Replay(if outcomes[0] then score + 10 else score, outcomes[1..])
  }

  /** Scoring is flat: a run adds exactly ten points per correct answer, so a
      session scores between 0 and 100. */
  lemma {:induction false} ReplayFlat(score: int, outcomes: seq<bool>)
    ensures Replay(score, outcomes) == score + 10 * CorrectCount(outcomes)
    ensures Replay(score, outcomes) <= score + 10 * |outcomes|
    decreases |outcomes|
  {
    if outcomes != [] {
      ReplayFlat(if outcomes[0] then score + 10 else score, outcomes[1..]);
    }
  }

  /** `HandleAnswer` moves the score exactly as one step of `Replay` does. */
  lemma HandleAnswerReplays(s: Session, selected: int, outcomes: seq<bool>)
    requires s.problem.Some? && s.feedback == NoFeedback
    ensures Replay(s.score, [selected == s.problem.value.answer] + outcomes)
            == Replay(HandleAnswer(s, selected).score, outcomes)
  {
    var o := [selected == s.problem.value.answer] + outcomes;
    assert o[1..] == outcomes;
  }
}
