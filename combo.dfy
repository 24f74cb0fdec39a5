/** The combination-sum game: pick displayed numbers whose sum is the target.
    A session runs eight rounds; a correct pick is worth 10 points plus 2 per
    number picked. */
module Combo {
  import opened Common
  import opened Store

  /** How many numbers a problem shows. */
  function Count(d: Difficulty): nat
  {
    match d
    case Easy => 4
    case Normal => 5
    case Hard => 6
  }

  /** Largest number a problem may show. */
  function MaxNum(d: Difficulty): nat
  {
    match d
    case Easy => 10
    case Normal => 15
    case Hard => 20
  }

  /** Sum of a sequence, the `reduce((a, b) => a + b, 0)` of the source. */
  function Sum(s: seq<int>): int
  {
    if s == [] then 0 else s[0] + Sum(s[1..])
  }

  /** Sum of the numbers at the picked indices. */
  function SelectionSum(numbers: seq<int>, selected: seq<nat>): int
    requires forall j :: 0 <= j < |selected| ==> selected[j] < |numbers|
  {
    Sum(Pick(numbers, selected))
  }

  /** The problem as the player sees it; the selection is session state. */
  datatype Problem = Problem(numbers: seq<int>, target: int)

  /** Every number is the `Math.floor(Math.random() * maxNum) + 1` of its draw. */
  predicate NumberDraws(d: Difficulty, values: seq<nat>)
  {
    |values| == Count(d) && forall i :: 0 <= i < |values| ==> values[i] < MaxNum(d)
  }

  /** The numbers the `for` loop pushes, before any shuffle. */
  function Drawn(values: seq<nat>): (numbers: seq<int>)
    ensures |numbers| == |values|
    ensures forall i :: 0 <= i < |values| ==> numbers[i] == values[i] + 1
  {
    seq(|values|, i requires 0 <= i < |values| => values[i] + 1)
  }

  /** `generateProblem`: `values` are the number draws, `selectDraw < 2` sets
      how many numbers form the target (`2 + selectDraw`, never more than the
      count), `shuffle` is the shuffle the target is read from and `display` the
      shuffle of the numbers shown. */
  method GenerateProblem(d: Difficulty, values: seq<nat>, selectDraw: nat, shuffle: seq<nat>, display: seq<nat>)
    returns (p: Problem)
    requires NumberDraws(d, values) && selectDraw < 2
    requires IsPermutation(shuffle, Count(d)) && IsPermutation(display, Count(d))
    ensures |p.numbers| == Count(d)
    ensures forall i :: 0 <= i < |p.numbers| ==> 1 <= p.numbers[i] <= MaxNum(d)
    ensures multiset(p.numbers) == multiset(Drawn(values))
    ensures p.numbers == Permute(Drawn(values), display)
    ensures p.target == Sum(Pick(Drawn(values), shuffle[..2 + selectDraw]))
    ensures 2 + selectDraw <= p.target <= (2 + selectDraw) * MaxNum(d)
  {
    var count := Count(d);
    var numbers: seq<int> := [];
    for i := 0 to count
      invariant |numbers| == i
      invariant forall j :: 0 <= j < i ==> numbers[j] == values[j] + 1
    {
      numbers := numbers + [values[i] + 1];
    }
    assert numbers == Drawn(values);
    var selectCount := if 2 + selectDraw < |numbers| then 2 + selectDraw else |numbers|;
    var shuffled := Permute(numbers, shuffle);
    var target := Sum(shuffled[..selectCount]);
    assert shuffled[..selectCount] == Pick(numbers, shuffle[..selectCount]);
    SumBounds(shuffled[..selectCount], MaxNum(d));
    p := Problem(Permute(numbers, display), target);
  }

  /** A sequence of numbers in [1, m] sums to between its length and m times it. */
  lemma {:induction false} SumBounds(s: seq<int>, m: int)
    requires forall i :: 0 <= i < |s| ==> 1 <= s[i] <= m
    ensures |s| <= Sum(s) <= |s| * m
  {
    if s != [] {
      SumBounds(s[1..], m);
    }
  }

  /** The target can always be reached on the displayed numbers: some
      `2 + selectDraw` distinct positions of the shown list sum to it. */
  lemma TargetReachable(d: Difficulty, values: seq<nat>, selectDraw: nat, shuffle: seq<nat>, display: seq<nat>)
    returns (sel: seq<nat>)
    requires NumberDraws(d, values) && selectDraw < 2
    requires IsPermutation(shuffle, Count(d)) && IsPermutation(display, Count(d))
    ensures |sel| == 2 + selectDraw && Distinct(sel)
    ensures forall j :: 0 <= j < |sel| ==> sel[j] < Count(d)
    ensures SelectionSum(Permute(Drawn(values), display), sel) == Sum(Pick(Drawn(values), shuffle[..2 + selectDraw]))
  {
    var n := Count(d);
    var k := 2 + selectDraw;
    var numbers := Drawn(values);
    var shown := Permute(numbers, display);
    sel := seq(k, j requires 0 <= j < k => IndexOf(display, shuffle[j]));
    forall a, b | 0 <= a < b < |sel|
      ensures sel[a] != sel[b]
    {
      assert display[sel[a]] == shuffle[a] && display[sel[b]] == shuffle[b];
    }
    assert Pick(shown, sel) == Pick(numbers, shuffle[..k]);
  }

  /** Position of `x` in `s`. */
  function IndexOf(s: seq<nat>, x: nat): (i: nat)
    requires x in s
    ensures i < |s| && s[i] == x
  {
    if s[0] == x then 0 else 1 + IndexOf(s[1..], x)
  }

  /** `selected.filter((i) => i !== index)`: the selection without `x`, in order. */
  function Remove(sel: seq<nat>, x: nat): (r: seq<nat>)
    ensures forall y :: y in r <==> y in sel && y != x
    ensures |r| <= |sel|
    ensures Distinct(sel) ==> Distinct(r)
    ensures x !in sel ==> r == sel
  {
    if sel == [] then []
    else if sel[0] == x then Remove(sel[1..], x)
    else
      var rest := Remove(sel[1..], x);
      assert Distinct(sel) ==> Distinct(sel[1..]) && sel[0] !in rest by {
        if Distinct(sel) {
          assert forall i :: 0 <= i < |sel[1..]| ==> sel[1..][i] != sel[0];
        }
      }
      [sel[0]] + rest
  }

  /** `toggleNumber`'s update: drop the index when it is selected, else append it. */
  function Toggle(sel: seq<nat>, index: nat): (r: seq<nat>)
    ensures index in r <==> index !in sel
    ensures forall y :: y != index ==> (y in r <==> y in sel)
    ensures Distinct(sel) ==> Distinct(r)
  {
    if index in sel then Remove(sel, index) else sel + [index]
  }

  /** Toggling an unselected index twice gives back exactly the selection;
      toggling a selected one twice gives back the same set of indices. */
  lemma ToggleTwice(sel: seq<nat>, index: nat)
    ensures forall y :: y in Toggle(Toggle(sel, index), index) <==> y in sel
    ensures index !in sel ==> Toggle(Toggle(sel, index), index) == sel
  {
    if index !in sel {
      RemoveAppended(sel, index);
    }
  }

  /** Appending an absent index and filtering it out again is the identity. */
  lemma {:induction false} RemoveAppended(sel: seq<nat>, x: nat)
    requires x !in sel
    ensures Remove(sel + [x], x) == sel
  {
    if sel != [] {
      RemoveAppended(sel[1..], x);
      assert (sel + [x])[1..] == sel[1..] + [x];
    }
  }

  /** Rounds in one session. */
  const TotalRounds: nat := 8

  /** What the 800 ms continuation of a checked answer captured. */
  datatype Timeout = Timeout(roundBefore: nat, scoreBefore: int, selectedCount: nat, isCorrect: bool)

  /** Points for a correct pick of `n` numbers. */
  function Award(n: nat): int
  {
    10 + n * 2
  }

  function FinalScore(t: Timeout): int
  {
    if t.isCorrect then t.scoreBefore + Award(t.selectedCount) else t.scoreBefore
  }

  datatype Session = Session(
    difficulty: Difficulty,
    problem: Option<Problem>,
    selected: seq<nat>,
    score: int,
    round: nat,
    gameOver: bool,
    feedback: Feedback,
    pending: seq<Timeout>)

  /** The selection only holds positions of the shown numbers (the buttons). */
  predicate SelectionInRange(s: Session)
  {
    s.problem.Some? ==> forall j :: 0 <= j < |s.selected| ==> s.selected[j] < |s.problem.value.numbers|
  }

  /** `toggleNumber`: ignored while feedback shows. */
  function ToggleNumber(s: Session, index: nat): (r: Session)
    ensures s.feedback != NoFeedback ==> r == s
    ensures s.feedback == NoFeedback ==> r == s.(selected := Toggle(s.selected, index))
    ensures Distinct(s.selected) ==> Distinct(r.selected)
  {
    if s.feedback != NoFeedback then s else s.(selected := Toggle(s.selected, index))
  }

  /** `checkAnswer`: ignored without a problem, with nothing selected or while
      feedback shows; otherwise the pick is correct exactly when its sum is
      the target, whichever numbers make it up. */
  function CheckAnswer(s: Session): (r: Session)
    requires SelectionInRange(s)
    ensures s.problem.None? || s.selected == [] || s.feedback != NoFeedback ==> r == s
    ensures s.problem.Some? && s.selected != [] && s.feedback == NoFeedback ==>
      var correct := SelectionSum(s.problem.value.numbers, s.selected) == s.problem.value.target;
      && r.feedback == (if correct then Correct else Wrong)
      && r.score == (if correct then s.score + 10 + 2 * |s.selected| else s.score)
      && r.pending == s.pending + [Timeout(s.round, s.score, |s.selected|, correct)]
      && r.selected == s.selected && r.round == s.round && r.problem == s.problem && r.gameOver == s.gameOver
  {
    if s.problem.None? || s.selected == [] || s.feedback != NoFeedback then s
    else
      var correct := SelectionSum(s.problem.value.numbers, s.selected) == s.problem.value.target;
      s.(score := if correct then s.score + Award(|s.selected|) else s.score,
         feedback := if correct then Correct else Wrong,
         pending := s.pending + [Timeout(s.round, s.score, |s.selected|, correct)])
  }

  /** The session and the store after a step that may touch both. */
  datatype Step = Step(session: Session, store: State)

  /** The oldest queued continuation fires: from round 8 on it ends the
      session, recording the final score; before that it moves to the next
      round with the `next` problem, an empty selection and no feedback. */
  function Continue(s: Session, store: State, next: Problem, now: string): (r: Step)
    requires |s.pending| > 0
    ensures r.session.pending == s.pending[1..]
    ensures s.pending[0].roundBefore >= TotalRounds ==>
      && r.session == s.(pending := s.pending[1..], gameOver := true)
      && r.store == RecordSession(store, ComboGame, FinalScore(s.pending[0]), now)
    ensures s.pending[0].roundBefore < TotalRounds ==>
      && r.session == s.(pending := s.pending[1..], round := s.round + 1, problem := Some(next),
                          selected := [], feedback := NoFeedback)
      && r.store == store
  {
    var t := s.pending[0];
    if t.roundBefore >= TotalRounds then
      Step(s.(pending := s.pending[1..], gameOver := true),
           RecordSession(store, ComboGame, FinalScore(t), now))
    else
      Step(s.(pending := s.pending[1..], round := s.round + 1, problem := Some(next),
              selected := [], feedback := NoFeedback), store)
  }

  /** `handleRestart`: score 0, round 1 and a fresh problem with nothing
      selected; a continuation still queued is not cancelled. */
  function Restart(s: Session, next: Problem): (r: Session)
    ensures r.score == 0 && r.round == 1 && !r.gameOver
    ensures r.problem == Some(next) && r.selected == [] && r.feedback == NoFeedback
    ensures r.pending == s.pending && r.difficulty == s.difficulty
  {
    s.(score := 0, round := 1, gameOver := false, problem := Some(next), selected := [], feedback := NoFeedback)
  }

  /** Every generated round can be won: selecting the positions the target was
      read from is judged correct and earns 10 + 2 per number. */
  lemma GeneratedRoundWinnable(s: Session, d: Difficulty, values: seq<nat>, selectDraw: nat, shuffle: seq<nat>, display: seq<nat>)
    returns (sel: seq<nat>)
    requires NumberDraws(d, values) && selectDraw < 2
    requires IsPermutation(shuffle, Count(d)) && IsPermutation(display, Count(d))
    requires s.feedback == NoFeedback
    ensures var p := Problem(Permute(Drawn(values), display), Sum(Pick(Drawn(values), shuffle[..2 + selectDraw])));
            var s' := s.(problem := Some(p), selected := sel);
            && Distinct(sel) && SelectionInRange(s')
            && CheckAnswer(s').feedback == Correct
            && CheckAnswer(s').score == s.score + 10 + 2 * (2 + selectDraw)
  {
    sel := TargetReachable(d, values, selectDraw, shuffle, display);
  }

  /** The continuation a checked answer schedules records the running score
      including that answer when it ends the session. */
  lemma CheckThenContinue(s: Session, store: State, next: Problem, now: string)
    requires SelectionInRange(s)
    requires s.problem.Some? && s.selected != [] && s.feedback == NoFeedback && s.pending == []
    ensures var a := CheckAnswer(s);
            var c := Continue(a, store, next, now);
            && |a.pending| == 1
            && FinalScore(a.pending[0]) == a.score
            && (a.round >= TotalRounds ==>
                  c.session.gameOver
                  && c.store.highScores.Get(ComboGame) == Max(store.highScores.Get(ComboGame), a.score)
                  && c.store.recentGames[0] == GameResult(ComboGame, a.score, now))
            && (a.round < TotalRounds ==>
                  c.session.round == a.round + 1 && c.session.selected == [] && c.session.feedback == NoFeedback
                  && c.session.score == a.score && c.store == store)
  {
    var a := CheckAnswer(s);
    var correct := SelectionSum(s.problem.value.numbers, s.selected) == s.problem.value.target;
    assert a.pending == [Timeout(s.round, s.score, |s.selected|, correct)];
  }
}
